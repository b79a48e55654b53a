/**
 Searching as a decision table: what the store is asked, which hits are returned, and which error is
 raised otherwise, each in terms of the caller, the filters and the payload fields.
 */
module SearchContract {
  import opened Wrappers
  import opened Sequences
  import opened Vocabulary
  import opened Projections
  import opened VectorStore
  import opened Governance
  import opened StoredPoints
  import opened Publication
  import opened SearchExactness
  import opened WriteContract
  import Text

  // ----- What the store is asked -----

  predicate HasLevel(payload: Payload, levels: seq<Sensitivity>)
  {
    exists i :: 0 <= i < |levels| && Holds(Equals(SensitiveInformationLevel, Level(levels[i])), payload)
  }

  /** One of the values is the stored one, or among the stored ones. */
  predicate HasAny(payload: Payload, k: Key, xs: seq<string>)
  {
    exists i :: 0 <= i < |xs| && Holds(Equals(k, Str(xs[i])), payload)
  }

  /** Published, governed, and bound to this manifest. */
  predicate IsServed(m: Manifest, payload: Payload)
  {
    && Holds(Equals(CorpusId, Uuid(m.corpusId)), payload)
    && Holds(Equals(StorageManifestId, ManifestRef(m.id)), payload)
    && Holds(Equals(ManifestHashKey, HashRef(m.hash)), payload)
    && Holds(Equals(SchemaVersion, Str("qdrant-0.2")), payload)
    && Holds(Equals(ApprovedMark, Flag(true)), payload)
    && Holds(Equals(ClaimEligibility, Flag(true)), payload)
    && Holds(Equals(StoragePermission, Flag(true)), payload)
    && Holds(Equals(Key.ReviewStatus, Status(Ingested)), payload)
    && Holds(Equals(BootstrapMark, Flag(false)), payload)
    && Holds(Equals(HumanVerified, Flag(true)), payload)
  }

  predicate MeetsFilter(payload: Payload, f: SearchFilter)
  {
    && (f.knowledgeTypes != [] ==> HasAny(payload, KnowledgeType, f.knowledgeTypes))
    && (f.domains != [] ==> HasAny(payload, Domain, f.domains))
    && (f.ontologyPaths != [] ==> HasAny(payload, OntologyPaths, f.ontologyPaths))
    && (f.knowledgeOrigins != [] ==> HasAny(payload, KnowledgeOrigin, f.knowledgeOrigins))
    && (f.evidenceLevels != [] ==> HasAny(payload, EvidenceLevel, f.evidenceLevels))
    && (f.entityIds != [] ==> HasAny(payload, EntityIds, f.entityIds))
    && (f.entityTypes != [] ==> HasAny(payload, EntityTypes, f.entityTypes))
    && (f.relationTypes != [] ==> HasAny(payload, RelationTypes, f.relationTypes))
  }

  lemma ReadinessAsks(m: Manifest, payload: Payload)
    ensures AllHold(ReadinessConditions(IdentityOf(m)), payload) <==> IsServed(m, payload)
  {
    hide Holds;
    var asked := ReadinessConditions(IdentityOf(m));
    if AllHold(asked, payload) {
      assert Holds(asked[0], payload) && Holds(asked[1], payload) && Holds(asked[2], payload);
      assert Holds(asked[3], payload) && Holds(asked[4], payload) && Holds(asked[5], payload);
      assert Holds(asked[6], payload) && Holds(asked[7], payload) && Holds(asked[8], payload);
      assert Holds(asked[9], payload);
    }
  }

  lemma AnyOfStrings(payload: Payload, k: Key, xs: seq<string>)
    ensures Holds(AnyOf(k, AsStrings(xs)), payload) <==> HasAny(payload, k, xs)
  {
    var vs := AsStrings(xs);
    if Holds(AnyOf(k, vs), payload) {
      var v :| v in vs && ValueMatches(payload[k], v);
      var i :| 0 <= i < |vs| && vs[i] == v;
      assert Holds(Equals(k, Str(xs[i])), payload);
    }
    if HasAny(payload, k, xs) {
      var i :| 0 <= i < |xs| && Holds(Equals(k, Str(xs[i])), payload);
      assert vs[i] in vs;
    }
  }

  lemma AnyOfLevels(payload: Payload, levels: seq<Sensitivity>)
    ensures Holds(AnyOf(SensitiveInformationLevel, AsLevels(levels)), payload) <==> HasLevel(payload, levels)
  {
    var vs := AsLevels(levels);
    if Holds(AnyOf(SensitiveInformationLevel, vs), payload) {
      var v :| v in vs && ValueMatches(payload[SensitiveInformationLevel], v);
      var i :| 0 <= i < |vs| && vs[i] == v;
      assert Holds(Equals(SensitiveInformationLevel, Level(levels[i])), payload);
    }
    if HasLevel(payload, levels) {
      var i :| 0 <= i < |levels| && Holds(Equals(SensitiveInformationLevel, Level(levels[i])), payload);
      assert vs[i] in vs;
    }
  }

  lemma ConditionsAsk(payload: Payload, f: SearchFilter)
    ensures AllHold(FilterConditions(ValuesByField(f)), payload) <==> MeetsFilter(payload, f)
  {
    hide Holds, AsStrings, AllHold, HasAny;
    ConditionsHold(ValuesByField(f), payload);
    var fields := ValuesByField(f);
    assert fields[0] == (KnowledgeType, f.knowledgeTypes) && fields[1] == (Domain, f.domains);
    assert fields[2] == (OntologyPaths, f.ontologyPaths) && fields[3] == (KnowledgeOrigin, f.knowledgeOrigins);
    assert fields[4] == (EvidenceLevel, f.evidenceLevels) && fields[5] == (EntityIds, f.entityIds);
    assert fields[6] == (EntityTypes, f.entityTypes) && fields[7] == (RelationTypes, f.relationTypes);
    forall i | 0 <= i < 8
      ensures Holds(AnyOf(fields[i].0, AsStrings(fields[i].1)), payload) <==> HasAny(payload, fields[i].0, fields[i].1)
    {
      AnyOfStrings(payload, fields[i].0, fields[i].1);
    }
  }

  /** What the store is asked, on any payload whatever, this manifest's or not. */
  lemma FilterDecided(m: Manifest, payload: Payload, caller: Caller, filters: Option<SearchFilter>)
    ensures Matches(BuildFilter(filters, caller, IdentityOf(m)), payload) <==>
      && IsServed(m, payload)
      && HasLevel(payload, caller.levels)
      && Holds(AtMost(SecretExposureRank, caller.clearance), payload)
      && !Holds(Equals(ConfidenceLabel, Str("insufficient")), payload)
      && (filters.Some? ==> MeetsFilter(payload, filters.value))
  {
    hide Holds, AllHold, Matches, BuildFilter, FilterConditions, ValuesByField, ReadinessConditions, AsLevels, IsServed,
      HasLevel, MeetsFilter;
    FilterSplits(payload, caller, filters, IdentityOf(m));
    ReadinessAsks(m, payload);
    AnyOfLevels(payload, caller.levels);
    if filters.Some? {
      ConditionsAsk(payload, filters.value);
    }
  }

  // ----- What is returned -----

  /** Under this id lies a published point of the manifest which the caller may read and asked for. */
  predicate IsGood(m: Manifest, caller: Caller, filters: Option<SearchFilter>, h: Hit)
  {
    && Bears(m, h.id, h.payload, Ingested)
    && Readable(Index(m.projections)[h.id], caller)
    && Wanted(h.payload, filters)
  }

  /** The error for a hit that is not good. */
  predicate RejectedWith(m: Manifest, caller: Caller, h: Hit, e: ServiceError)
  {
    if h.id !in Points(m) then e == OutsideManifest
    else if !Bears(m, h.id, h.payload, Ingested) then e == InvalidPoint
    else if !Readable(Index(m.projections)[h.id], caller) then e == OutsideAuthorization
    else e == OutsideFilters
  }

  lemma RecheckDecided(c: Config, m: Manifest, caller: Caller, filters: Option<SearchFilter>, h: Hit)
    requires ValidManifest(m) && c.activeChecksums == ChecksumsOf(m)
    ensures var refusal := Recheck(c, caller, filters, IdentityOf(m), h.id, h.payload);
      && (refusal.None? <==> IsGood(m, caller, filters, h))
      && (refusal.Some? ==> RejectedWith(m, caller, h, refusal.value))
  {
    hide ValidManifest, PointIsValid, VisibleTo, MatchesFilters, AsksFor, Readable, Bears, Index;
    IndexKeys(m);
    ChecksumsExist(m);
    OwnIsBearing(m, h.id, h.payload, Ingested);
    if IsOwn(m, h.id, h.payload, Ingested) {
      PointAgrees(h.id, h.payload, Index(m.projections)[h.id], caller, filters, IdentityOf(m));
    }
  }

  /** The first hit that is not good decides; without one, all are returned in the answer's order. */
  lemma {:induction false} AcceptDecided(c: Config, m: Manifest, caller: Caller, filters: Option<SearchFilter>,
                                         answer: seq<Hit>) returns (n: nat)
    requires ValidManifest(m) && c.activeChecksums == ChecksumsOf(m)
    ensures n <= |answer| && forall i :: 0 <= i < n ==> IsGood(m, caller, filters, answer[i])
    ensures var r := Accept(c, caller, filters, IdentityOf(m), answer);
      if n == |answer| then r == Success(answer)
      else !IsGood(m, caller, filters, answer[n]) && r.Failure? && RejectedWith(m, caller, answer[n], r.error)
  {
    hide ValidManifest, Recheck, IsGood, RejectedWith;
    n := 0;
    if answer != [] {
      var init := answer[..|answer| - 1];
      n := AcceptDecided(c, m, caller, filters, init);
      if n == |init| {
        RecheckDecided(c, m, caller, filters, answer[n]);
        assert answer == init + [answer[n]];
        n := if IsGood(m, caller, filters, answer[n]) then n + 1 else n;
      }
    }
  }

  /**
   Every answer of a search on a service for `m`, whatever the collection holds and the store returns:
   who is refused, when the answer is empty, and otherwise all hits or the error of the first bad one.
   */
  lemma SearchDecided(c: Config, m: Manifest, present: bool, query: string, caller: Option<Caller>,
                      filters: Option<SearchFilter>, answer: seq<Hit>) returns (n: nat)
    requires ValidManifest(m) && c.active == Some(IdentityOf(m)) && c.activeChecksums == ChecksumsOf(m)
    ensures var r := Search(c, present, query, caller, filters, answer);
      if caller.None? then r == Failure(AuthorizationRequired)
      else if caller.value.bootstrapLimited then r == Failure(AnonymousProduction)
      else if Text.Blank(query) then r == Success([])
      else if c.closed then r == Failure(ServiceClosed)
      else if !present then r == Success([])
      else
        && n <= |answer| && (forall i :: 0 <= i < n ==> IsGood(m, caller.value, filters, answer[i]))
        && if n == |answer| then r == Success(answer)
           else !IsGood(m, caller.value, filters, answer[n]) && r.Failure?
                && RejectedWith(m, caller.value, answer[n], r.error)
  {
    hide ValidManifest, Accept, IsGood, RejectedWith;
    Text.BlankIsEmpty(query);
    ChecksumsExist(m);
    IndexKeys(m);
    n := 0;
    if caller.Some? {
      n := AcceptDecided(c, m, caller.value, filters, answer);
    }
  }

  /** Without an active manifest a production service returns no hit, whatever it is asked. */
  lemma NoManifestNoHit(c: Config, present: bool, query: string, caller: Option<Caller>,
                        filters: Option<SearchFilter>, answer: seq<Hit>)
    requires c.active.None? || c.activeChecksums == map[]
    ensures var r := Search(c, present, query, caller, filters, answer);
      r.Failure? || (r.value == [] && Text.Blank(query))
  {
    hide Accept;
    Text.BlankIsEmpty(query);
  }

  // ----- Readiness -----

  /** The expectation handed over names the manifest's points, each once, with their checksums. */
  predicate Expects(m: Manifest, ids: seq<PointId>, checksums: map<PointId, Value>, count: nat)
  {
    && |ids| == count && NoRepeats(ids) && Elements(ids) == Points(m)
    && checksums.Keys == Points(m)
    && forall id :: id in checksums && id in Index(m.projections) ==>
         checksums[id] == Checksum(Index(m.projections)[id])
  }

  /**
   A service for `m` is ready exactly when it is open, is asked about `m` in any order of its points, and
   the collection is complete with the configured vectors.
   */
  lemma ReadinessDecided(c: Config, m: Manifest, s: Store, ids: seq<PointId>, checksums: map<PointId, Value>,
                         count: nat)
    requires ValidManifest(m) && c.activeChecksums == ChecksumsOf(m)
    ensures Readiness(c, s, ids, checksums, count, Some(IdentityOf(m))).None? <==>
      && !c.closed && Expects(m, ids, checksums, count)
      && s.present && s.dimension == c.dimension && s.cosine && Complete(m, s.points, Ingested)
  {
    hide ValidManifest, Written, Index, Ids, NoRepeats, Complete, ChecksumsOf, IdentityOf, Readiness, Expects;
    CompleteDecided(m, s.points, Ingested);
    ExpectationDecided(m, ids, checksums, count);
    if !c.closed && Expects(m, ids, checksums, count) {
      var serving := c.(active := Some(IdentityOf(m)));
      ReadinessIsPublished(serving, m, s);
      ReadinessIsOrderFree(c, m, s, ids, count);
    } else if Readiness(c, s, ids, checksums, count, Some(IdentityOf(m))).None? {
      ReadyIsExpected(c, m, s, ids, checksums, count);
    }
  }

  lemma ReadyIsExpected(c: Config, m: Manifest, s: Store, ids: seq<PointId>, checksums: map<PointId, Value>, count: nat)
    requires ValidManifest(m) && c.activeChecksums == ChecksumsOf(m)
    requires Readiness(c, s, ids, checksums, count, Some(IdentityOf(m))).None?
    ensures !c.closed && Expects(m, ids, checksums, count)
  {
    hide ValidManifest, PointIsValid, ReadinessConditions, Matches, Index, Ids, NoRepeats, ChecksumsOf, Selected,
      Expects;
    ChecksumsExist(m);
    IndexKeys(m);
    ExpectationDecided(m, ids, checksums, count);
  }

  lemma ExpectationDecided(m: Manifest, ids: seq<PointId>, checksums: map<PointId, Value>, count: nat)
    requires ValidManifest(m)
    ensures Expects(m, ids, checksums, count) <==>
      |ids| == count && NoRepeats(ids) && Elements(ids) == Points(m) && checksums == ChecksumsOf(m)
    ensures Expects(m, ids, checksums, count) ==> count == |m.projections|
  {
    hide ValidManifest, Index, NoRepeats, Ids;
    ChecksumsExist(m);
    IndexKeys(m);
    if Expects(m, ids, checksums, count) {
      ExpectedChecksums(m, checksums);
      CountElements(ids);
    }
  }

  lemma ReadinessIsOrderFree(c: Config, m: Manifest, s: Store, ids: seq<PointId>, count: nat)
    requires ValidManifest(m) && c.activeChecksums == ChecksumsOf(m)
    requires |ids| == count == |m.projections| && NoRepeats(ids) && Elements(ids) == Points(m)
    ensures var serving := c.(active := Some(IdentityOf(m)));
      Readiness(c, s, ids, ChecksumsOf(m), count, Some(IdentityOf(m)))
      == Readiness(serving, s, m.PointIds(), ChecksumsOf(m), |m.projections|, Some(IdentityOf(m)))
  {
    hide ValidManifest, PointIsValid, ReadinessConditions, Matches, Index, Ids, ChecksumsOf, Selected, IdentityOf;
    ExpectationIsConsistent(m);
    forall id ensures id in ids <==> id in m.PointIds() {
      assert id in Elements(ids) <==> id in Elements(m.PointIds());
    }
  }

  lemma ExpectedChecksums(m: Manifest, checksums: map<PointId, Value>)
    requires ValidManifest(m) && checksums.Keys == Points(m)
    requires forall id :: id in checksums && id in Index(m.projections) ==>
               checksums[id] == Checksum(Index(m.projections)[id])
    ensures checksums == ChecksumsOf(m)
  {
    hide ValidManifest, Index;
    IndexKeys(m);
  }
}
