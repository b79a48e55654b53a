/**
 Publishing and cleaning up as a decision table: who may write what where, what a receipt says and
 what a collection holds afterwards, each in terms of the configuration, the manifest and the payload
 fields.
 */
module WriteContract {
  import opened Wrappers
  import opened Sequences
  import opened Projections
  import opened VectorStore
  import opened Governance
  import opened StoredPoints
  import opened Publication
  import opened Recovery
  import opened ManifestContract
  import Text

  predicate SpelledAt(name: string, i: nat)
  {
    i + 9 <= |name| && name[i..i + 9] == "bootstrap"
  }

  /** The name, stripped and without case, contains the word. */
  predicate NamesBootstrap(collectionName: string)
  {
    var name := Text.Casefold(Text.Strip(collectionName));
    exists i :: 0 <= i <= |name| && SpelledAt(name, i)
  }

  /** Authorised, or ingested under its authorization. */
  predicate IsCleared(m: Manifest)
  {
    m.authorization.Some? && (m.status == Authorized || m.status == IngestedManifest)
  }

  /** Production mode with writing enabled, on an open service. */
  predicate MayMutate(c: Config)
  {
    c.mode == Production && c.writesEnabled && !c.closed && !NamesBootstrap(c.collectionName)
  }

  /** Exactly the manifest's points, each its own in this review state. */
  predicate Complete(m: Manifest, points: map<PointId, Payload>, status: PointStatus)
  {
    && points.Keys == Points(m)
    && forall id :: id in points ==> Bears(m, id, points[id], status)
  }

  /** The call is refused with this error before it looks at the collection. */
  predicate RefusedWith(c: Config, m: Manifest, actor: string, e: ServiceError)
  {
    if c.mode == BootstrapMode then e == WrongMode
    else if !c.writesEnabled then e == WritesDisabled
    else if NamesBootstrap(c.collectionName) then e == BootstrapCollection
    else if !NamesHuman(actor) then e == NotHumanActor
    else if !IsCleared(m) then e == ManifestNotAuthorized
    else if m.collectionName != c.collectionName then e == OtherCollection
    else c.closed && e == ServiceClosed
  }

  predicate MayWrite(c: Config, m: Manifest, actor: string)
  {
    MayMutate(c) && NamesHuman(actor) && IsCleared(m) && m.collectionName == c.collectionName
  }

  lemma BootstrapDecided(name: string)
    ensures TargetsBootstrap(name) <==> NamesBootstrap(name)
  {
    var s := Text.Casefold(Text.Strip(name));
    assert forall i :: 0 <= i <= |s| ==> (Text.OccursAt(s, "bootstrap", i) <==> SpelledAt(s, i));
  }

  /** The checks before the collection is looked at, and the operator they yield. */
  lemma AdmissionDecided(c: Config, m: Manifest, actor: string)
    ensures MayWrite(c, m, actor) <==> Admission(c, m, actor).Success? && !c.closed
    ensures Admission(c, m, actor).Success? ==> Admission(c, m, actor).value == Text.Strip(actor)
    ensures Admission(c, m, actor).Failure? ==> RefusedWith(c, m, actor, Admission(c, m, actor).error)
    ensures Admission(c, m, actor).Success? && c.closed ==> RefusedWith(c, m, actor, ServiceClosed)
  {
    hide TargetsBootstrap, HumanIdentity, NamesBootstrap, NamesHuman;
    BootstrapDecided(c.collectionName);
    HumanDecided(actor);
  }

  lemma CompleteDecided(m: Manifest, points: map<PointId, Payload>, status: PointStatus)
    requires ValidManifest(m)
    ensures Written(points, m, status) <==> Complete(m, points, status)
  {
    hide *;
    if Written(points, m, status) {
      WrittenIsComplete(m, points, status);
    }
    if Complete(m, points, status) {
      CompleteIsWritten(m, points, status);
    }
  }

  lemma WrittenIsComplete(m: Manifest, points: map<PointId, Payload>, status: PointStatus)
    requires ValidManifest(m) && Written(points, m, status)
    ensures Complete(m, points, status)
  {
    hide ValidManifest, IsOwn, Bears, Written, Points;
    WrittenIsExact(m, points, status);
    forall id | id in points ensures Bears(m, id, points[id], status) {
      OwnIsBearing(m, id, points[id], status);
    }
  }

  lemma CompleteIsWritten(m: Manifest, points: map<PointId, Payload>, status: PointStatus)
    requires ValidManifest(m) && Complete(m, points, status)
    ensures Written(points, m, status)
  {
    hide ValidManifest, IsOwn, Bears, ValidProjection;
    IndexKeys(m);
    assert |points| == |points.Keys|;
    forall id | id in points ensures IsOwn(m, id, points[id], status) {
      OwnIsBearing(m, id, points[id], status);
    }
  }

  /** What the receipt of a write says. */
  predicate IsReceipt(c: Config, m: Manifest, actor: string, r: Receipt)
  {
    && r.id == ReceiptId(m.corpusId, m.id, m.hash)
    && r.manifestId == m.id && r.manifestHash == m.hash && r.corpusId == m.corpusId
    && r.collectionName == c.collectionName && r.actor == Text.Strip(actor)
    && r.pointIds == m.PointIds() && r.checksums.Keys == Points(m)
    && forall id :: id in r.checksums && id in Index(m.projections) ==>
         r.checksums[id] == Checksum(Index(m.projections)[id])
  }

  /**
   A write succeeds exactly for a named human with a cleared manifest, where production may write, and
   over a collection that is complete, absent, or empty with fitting vectors. The manifest is published
   then, and not a point has changed otherwise.
   */
  lemma WriteSucceedsExactly(c: Config, m: Manifest, actor: string, s: Store)
    requires ValidManifest(m)
    ensures var (r, after) := Write(c, m, actor, s);
      && (r.Success? <==>
            && MayWrite(c, m, actor)
            && (|| !s.present
                || Complete(m, s.points, Ingested)
                || (s.points == map[] && s.dimension == c.dimension && s.cosine)))
      && (r.Success? ==> IsReceipt(c, m, actor, r.value) && after.present && Complete(m, after.points, Ingested))
      && (r.Success? && s.present ==> after.dimension == s.dimension && after.cosine == s.cosine)
      && (r.Success? && !s.present ==> after.dimension == c.dimension && after.cosine)
      && (r.Failure? ==> after == s)
  {
    hide ValidManifest, Written, Admission, Stage, Publish, MayWrite, Complete, IsBound, IsReceipt, RefusedWith;
    AdmissionDecided(c, m, actor);
    CompleteDecided(m, s.points, Ingested);
    CompleteDecided(m, Write(c, m, actor, s).1.points, Ingested);
    if MayWrite(c, m, actor) {
      WriteDecides(c, m, actor, s);
      ReceiptSays(c, m, actor);
    }
  }

  lemma ReceiptSays(c: Config, m: Manifest, actor: string)
    requires ValidManifest(m) && MayWrite(c, m, actor) && Admission(c, m, actor).Success?
    ensures IsReceipt(c, m, actor, ReceiptFor(c, m, Admission(c, m, actor).value))
  {
    hide ValidManifest, Admission, MayWrite;
    AdmissionDecided(c, m, actor);
    IndexKeys(m);
  }

  /** Which error a refused call raises. */
  lemma WriteErrorDecided(c: Config, m: Manifest, actor: string, s: Store)
    requires ValidManifest(m) && Write(c, m, actor, s).0.Failure?
    ensures var e := Write(c, m, actor, s).0.error;
      if !MayWrite(c, m, actor) then RefusedWith(c, m, actor, e)
      else if s.dimension == c.dimension && s.cosine then e == NotBound
      else e == WrongVectors
  {
    hide ValidManifest, Written, Admission, Stage, Publish, MayWrite, RefusedWith, ReceiptFor;
    AdmissionDecided(c, m, actor);
    if MayWrite(c, m, actor) {
      WriteDecides(c, m, actor, s);
    }
  }

  // ----- What a fresh write stores -----

  /** The projection's fields as they are, the six bindings, and nothing else. */
  predicate BoundPayload(p: Payload, m: Manifest, payload: Payload)
  {
    && payload.Keys == p.Keys + {CorpusId, StorageManifestId, ManifestHashKey, PayloadChecksum, BootstrapMark,
                                 HumanVerified}
    && (forall k :: k in p ==> payload[k] == p[k])
    && payload[CorpusId] == Uuid(m.corpusId) && payload[StorageManifestId] == ManifestRef(m.id)
    && payload[ManifestHashKey] == HashRef(m.hash) && payload[PayloadChecksum] == Checksum(p)
    && payload[BootstrapMark] == Flag(false) && payload[HumanVerified] == Flag(true)
  }

  lemma PayloadIsBound(p: Payload, m: Manifest)
    requires ValidProjection(p)
    ensures BoundPayload(p, m, WithStatus(WithStatus(ToPayload(p, m), Approved), Ingested))
  {
    hide ValidProjection, ToPayload, BindingValue;
    var payload := WithStatus(WithStatus(ToPayload(p, m), Approved), Ingested);
    forall k: Key ensures k in payload <==> k in p || IsBindingKey(k) {
      BoundFields(p, m, k);
      ProjectionKeys(p, k);
    }
    forall k | k in p ensures payload[k] == p[k] {
      BoundFields(p, m, k);
      ProjectionKeys(p, k);
      IngestedAlready(p);
    }
    BindingsAre(p, m);
  }

  lemma IngestedAlready(p: Payload)
    requires ValidProjection(p)
    ensures Key.ReviewStatus in p && p[Key.ReviewStatus] == Status(Ingested)
  {
    hide InNormalForm;
    assert Key.ReviewStatus in p;
  }

  predicate Has(payload: Payload, k: Key, v: Value)
  {
    k in payload && payload[k] == v
  }

  lemma BindingIs(p: Payload, m: Manifest, k: Key)
    requires ValidProjection(p) && IsBindingKey(k)
    ensures Has(ToPayload(p, m), k, BindingValue(k, p, m))
  {
    hide ValidProjection, ToPayload, BindingValue;
    BoundFields(p, m, k);
  }

  lemma IdentityBindings(p: Payload, m: Manifest)
    ensures BindingValue(CorpusId, p, m) == Uuid(m.corpusId)
    ensures BindingValue(StorageManifestId, p, m) == ManifestRef(m.id)
    ensures BindingValue(ManifestHashKey, p, m) == HashRef(m.hash)
  {
  }

  lemma ContentBindings(p: Payload, m: Manifest)
    ensures BindingValue(PayloadChecksum, p, m) == Checksum(p)
    ensures BindingValue(BootstrapMark, p, m) == Flag(false)
    ensures BindingValue(HumanVerified, p, m) == Flag(true)
  {
  }

  lemma BindingsAre(p: Payload, m: Manifest)
    requires ValidProjection(p)
    ensures var payload := ToPayload(p, m);
      && Has(payload, CorpusId, Uuid(m.corpusId)) && Has(payload, StorageManifestId, ManifestRef(m.id))
      && Has(payload, ManifestHashKey, HashRef(m.hash)) && Has(payload, PayloadChecksum, Checksum(p))
      && Has(payload, BootstrapMark, Flag(false)) && Has(payload, HumanVerified, Flag(true))
  {
    hide ValidProjection, ToPayload, BindingValue, Has;
    IdentityBindings(p, m);
    ContentBindings(p, m);
    BindingIs(p, m, CorpusId);
    BindingIs(p, m, StorageManifestId);
    BindingIs(p, m, ManifestHashKey);
    BindingIs(p, m, PayloadChecksum);
    BindingIs(p, m, BootstrapMark);
    BindingIs(p, m, HumanVerified);
  }

  lemma {:induction false} FlippedPoint(points: map<PointId, Payload>, ids: seq<PointId>, n: nat, id: PointId)
    requires n <= |ids| && id in points
    ensures var after := Patched(points, ids, Ingested, n);
      && id in after && after[id] == (if id in ids[..n] then WithStatus(points[id], Ingested) else points[id])
  {
    if n > 0 {
      FlippedPoint(points, ids, n - 1, id);
      assert ids[..n] == ids[..n - 1] + [ids[n - 1]];
    }
  }

  /** A write that did not find the collection complete stores every projection, bound, as its payload. */
  lemma FreshWriteStores(c: Config, m: Manifest, actor: string, s: Store, id: PointId)
    requires ValidManifest(m) && Write(c, m, actor, s).0.Success? && !Complete(m, s.points, Ingested)
    requires id in Index(m.projections)
    ensures var after := Write(c, m, actor, s).1.points;
      id in after && BoundPayload(Index(m.projections)[id], m, after[id])
  {
    hide ValidManifest, Written, Stage, Publish, Complete, Admission, BoundPayload, Index, StagedPoint, Write, Bears;
    CompleteDecided(m, s.points, Ingested);
    FreshWriteEnds(c, m, actor, s);
    FreshPoint(m, id);
    StagedThenFlipped(m, id);
  }

  lemma FreshPoint(m: Manifest, id: PointId)
    requires ValidManifest(m) && id in Index(m.projections)
    ensures var after := Publish(Stage(map[], m), m);
      id in after && after[id] == WithStatus(StagedPoint(m, id), Ingested)
  {
    hide ValidManifest, Stage, StagedPoint, Patched, Index, WithStatus;
    StageShape(m, map[]);
    FlippedPoint(Stage(map[], m), m.PointIds(), |m.PointIds()|, id);
    assert m.PointIds()[..|m.PointIds()|] == m.PointIds() && id in Elements(m.PointIds());
  }

  lemma StagedThenFlipped(m: Manifest, id: PointId)
    requires ValidManifest(m) && id in Index(m.projections)
    ensures BoundPayload(Index(m.projections)[id], m, WithStatus(StagedPoint(m, id), Ingested))
  {
    hide ValidManifest, ValidProjection, ToPayload, WithStatus, BoundPayload, Index;
    IndexedIsValid(m, id);
    PayloadIsBound(Index(m.projections)[id], m);
  }

  // ----- Cleaning up -----

  /** The manifest's own point, staged or published. */
  predicate BearsEither(m: Manifest, id: PointId, payload: Payload)
  {
    Bears(m, id, payload, Approved) || Bears(m, id, payload, Ingested)
  }

  /**
   Clean-up refuses, has nothing to do, leaves an ambiguous collection alone, or removes the manifest's
   own points, whatever their review state, and no other.
   */
  lemma CleanupDecided(c: Config, m: Manifest, s: Store)
    requires ValidManifest(m)
    ensures var (r, after) := Cleanup(c, m, s);
      && r == (if c.mode == Production && !c.writesEnabled then Failure(WritesDisabled)
               else if NamesBootstrap(c.collectionName) then Failure(BootstrapCollection)
               else if c.closed then Success(ReconciliationRequired)
               else if !s.present then Success(NotNeeded)
               else if exists id :: id in Points(m) && id in s.points && !BearsEither(m, id, s.points[id])
               then Success(ReconciliationRequired)
               else Success(Cleaned))
      && after == (if r == Success(Cleaned) then s.(points := s.points - Points(m)) else s)
  {
    hide ValidManifest, IsOwn, Bears, TargetsBootstrap, NamesBootstrap, Ids;
    BootstrapDecided(c.collectionName);
    forall id | id in s.points ensures IsRemovable(m, id, s.points[id]) <==> BearsEither(m, id, s.points[id]) {
      OwnIsBearing(m, id, s.points[id], Approved);
      OwnIsBearing(m, id, s.points[id], Ingested);
    }
  }
}
