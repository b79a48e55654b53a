/** What the per-point check means: which projection a stored payload carries. */
module StoredPoints {
  import opened Wrappers
  import opened Sequences
  import opened Projections
  import opened VectorStore
  import opened Governance
  import PathNames

  /** An accepted point carries exactly the projection its checksum names, up to the spelling of lists. */
  lemma ValidCarries(id: PointId, payload: Payload, p: Payload, identity: Identity, status: PointStatus)
    requires PointIsValid(id, payload, Checksum(p), identity, status)
    ensures Carried(payload) == p && ValidProjection(p) && PointOf(p) == id
  {
    assert Carried(payload)[KnowledgeUnitId] == payload[KnowledgeUnitId];
  }

  lemma ProjectionKeys(p: Payload, k: Key)
    requires ValidProjection(p)
    ensures IsProjectionKey(k) <==> k in p
  {
  }

  lemma BoundFields(p: Payload, m: Manifest, k: Key)
    requires ValidProjection(p)
    ensures IsProjectionKey(k) ==> k in ToPayload(p, m) && ToPayload(p, m)[k] == p[k]
    ensures IsBindingKey(k) ==> k in ToPayload(p, m) && ToPayload(p, m)[k] == BindingValue(k, p, m)
    ensures k.Foreign? ==> k !in ToPayload(p, m)
  {
    hide ValidProjection;
    ProjectionKeys(p, k);
  }

  lemma UnboundIsOriginal(p: Payload, m: Manifest)
    requires ValidProjection(p)
    ensures Unbound(ToPayload(p, m)) == p
  {
    hide ValidProjection, ToPayload, BindingValue;
    forall k: Key ensures k in Unbound(ToPayload(p, m)) <==> k in p {
      BoundFields(p, m, k);
      ProjectionKeys(p, k);
    }
    forall k | k in p ensures Unbound(ToPayload(p, m))[k] == p[k] {
      BoundFields(p, m, k);
      ProjectionKeys(p, k);
    }
  }

  lemma FilledIsFixed(p: Payload)
    requires ValidProjection(p)
    ensures Filled(p) == p
  {
    hide ValidProjection, DefaultOf;
    forall k: Key | IsOptional(k) ensures k in p {
      ProjectionKeys(p, k);
    }
  }

  lemma NormalIsFixed(p: Payload)
    requires ValidProjection(p)
    ensures Normal(p) == p
  {
    hide WellTyped, PlainPaths, NormalValue;
  }

  /** Binding a projection and staging or publishing it loses nothing of it. */
  lemma BoundCarries(p: Payload, m: Manifest, status: PointStatus)
    requires ValidProjection(p)
    ensures Carried(WithStatus(ToPayload(p, m), status)) == p
  {
    StatusIsNotCarried(ToPayload(p, m), status);
    UnboundIsOriginal(p, m);
    assert p[Key.ReviewStatus := Status(Ingested)] == p;
    FilledIsFixed(p);
    NormalIsFixed(p);
  }

  lemma StoredField(p: Payload, m: Manifest, status: PointStatus, k: Key)
    requires ValidProjection(p) && k != Key.ReviewStatus && !k.Foreign?
    ensures Field(WithStatus(ToPayload(p, m), status), k) == if IsBindingKey(k) then BindingValue(k, p, m) else p[k]
  {
    hide ValidProjection, BindingValue;
    ProjectionKeys(p, k);
  }

  lemma ValidMarks(p: Payload)
    requires ValidProjection(p)
    ensures KnowledgeUnitId in p && p[KnowledgeUnitId].Uuid?
    ensures SchemaVersion in p && p[SchemaVersion] == Str(PROJECTION_SCHEMA)
    ensures ClaimEligibility in p && StoragePermission in p && ApprovedMark in p
    ensures p[ClaimEligibility] == p[StoragePermission] == p[ApprovedMark] == Flag(true)
  {
  }

  lemma StoredMark(p: Payload, m: Manifest, status: PointStatus, k: Key)
    requires ValidProjection(p) && (k == ClaimEligibility || k == StoragePermission || k == ApprovedMark)
    ensures Field(WithStatus(ToPayload(p, m), status), k) == Flag(true)
  {
    hide ToPayload, WithStatus, Field, ValidProjection, BindingValue;
    ValidMarks(p);
    StoredField(p, m, status, k);
  }

  lemma StoredBinding(p: Payload, m: Manifest, status: PointStatus, k: Key)
    requires ValidProjection(p) && IsBindingKey(k)
    ensures Field(WithStatus(ToPayload(p, m), status), k) == BindingValue(k, p, m)
  {
    hide ToPayload, WithStatus, Field, ValidProjection, BindingValue;
    StoredField(p, m, status, k);
  }

  lemma BoundIsGoverned(p: Payload, m: Manifest, status: PointStatus)
    requires ValidProjection(p)
    ensures ProductionGoverned(WithStatus(ToPayload(p, m), status), IdentityOf(m))
  {
    hide ToPayload, WithStatus, Field, ValidProjection;
    StoredBinding(p, m, status, CorpusId);
    StoredBinding(p, m, status, BootstrapMark);
    StoredBinding(p, m, status, HumanVerified);
    StoredMark(p, m, status, ApprovedMark);
    StoredMark(p, m, status, ClaimEligibility);
    StoredMark(p, m, status, StoragePermission);
  }

  lemma BoundNamesManifest(p: Payload, m: Manifest, status: PointStatus)
    requires ValidProjection(p)
    ensures NamesManifest(PointOf(p), WithStatus(ToPayload(p, m), status), Checksum(p), IdentityOf(m), status)
  {
    hide ToPayload, WithStatus, Field, ValidProjection;
    ValidMarks(p);
    FlipField(ToPayload(p, m), status, Key.ReviewStatus);
    StoredField(p, m, status, KnowledgeUnitId);
    StoredField(p, m, status, PayloadChecksum);
    StoredField(p, m, status, StorageManifestId);
    StoredField(p, m, status, ManifestHashKey);
    StoredField(p, m, status, SchemaVersion);
  }

  lemma BoundIsValid(p: Payload, m: Manifest, status: PointStatus)
    requires ValidProjection(p)
    ensures PointIsValid(PointOf(p), WithStatus(ToPayload(p, m), status), Checksum(p), IdentityOf(m), status)
  {
    BoundCarries(p, m, status);
    BoundIsGoverned(p, m, status);
    BoundNamesManifest(p, m, status);
  }

  lemma StatusIsNotCarried(payload: Payload, status: PointStatus)
    ensures Carried(WithStatus(payload, status)) == Carried(payload)
  {
    var u, v := Unbound(WithStatus(payload, status)), Unbound(payload);
    assert u[Key.ReviewStatus := Status(Ingested)] == v[Key.ReviewStatus := Status(Ingested)];
  }

  lemma FlipField(payload: Payload, status: PointStatus, k: Key)
    ensures Field(WithStatus(payload, status), k) == if k == Key.ReviewStatus then Status(status) else Field(payload, k)
  {
  }

  lemma FlipNamesManifest(id: PointId, payload: Payload, checksum: Value, identity: Identity,
                          before: PointStatus, after: PointStatus)
    requires NamesManifest(id, payload, checksum, identity, before)
    ensures NamesManifest(id, WithStatus(payload, after), checksum, identity, after)
  {
    FlipField(payload, after, KnowledgeUnitId);
    FlipField(payload, after, PayloadChecksum);
    FlipField(payload, after, StorageManifestId);
    FlipField(payload, after, ManifestHashKey);
    FlipField(payload, after, SchemaVersion);
    FlipField(payload, after, Key.ReviewStatus);
  }

  lemma FlipGoverned(payload: Payload, identity: Identity, after: PointStatus)
    requires ProductionGoverned(payload, identity)
    ensures ProductionGoverned(WithStatus(payload, after), identity)
  {
    FlipField(payload, after, CorpusId);
    FlipField(payload, after, BootstrapMark);
    FlipField(payload, after, HumanVerified);
    FlipField(payload, after, ApprovedMark);
    FlipField(payload, after, ClaimEligibility);
    FlipField(payload, after, StoragePermission);
  }

  /** Flipping the review state of an accepted point gives an accepted point. */
  lemma FlipKeepsValid(id: PointId, payload: Payload, checksum: Value, identity: Identity,
                       before: PointStatus, after: PointStatus)
    requires PointIsValid(id, payload, checksum, identity, before)
    ensures PointIsValid(id, WithStatus(payload, after), checksum, identity, after)
  {
    FlipNamesManifest(id, payload, checksum, identity, before, after);
    FlipGoverned(payload, identity, after);
    StatusIsNotCarried(payload, after);
  }

  lemma DefaultIsNormal(k: Key)
    ensures NormalValue(k, DefaultOf(k)) == DefaultOf(k)
  {
    FirstsFixed<string>([]);
  }

  /** Field by field: what is stored normalises to the projection's, and what is absent was at its default. */
  lemma CarriedField(payload: Payload, k: Key)
    requires ValidProjection(Carried(payload)) && IsProjectionKey(k) && k != Key.ReviewStatus
    ensures k in payload ==> Carried(payload)[k] == NormalValue(k, payload[k])
    ensures k !in payload ==> IsOptional(k) && Carried(payload)[k] == DefaultOf(k)
  {
    hide ValidProjection, NormalValue, DefaultOf;
    ProjectionKeys(Carried(payload), k);
    DefaultIsNormal(k);
  }

  /** A stored list may be respelled: the check accepts every spelling that normalises to the projection's. */
  lemma RespellingIsAccepted(id: PointId, payload: Payload, p: Payload, identity: Identity, status: PointStatus,
                             paths: seq<string>)
    requires PointIsValid(id, payload, Checksum(p), identity, status)
    requires OntologyPaths in p && p[OntologyPaths].Strs?
    requires PathNames.NormalPaths(paths) == Some(p[OntologyPaths].items)
    ensures PointIsValid(id, payload[OntologyPaths := Strs(paths)], Checksum(p), identity, status)
  {
    ValidCarries(id, payload, p, identity, status);
    var respelled := payload[OntologyPaths := Strs(paths)];
    assert Carried(respelled) == p by { RespelledCarries(payload, p, paths); }
    RespelledKeeps(id, payload, Checksum(p), identity, status, paths);
  }

  lemma RespelledKeeps(id: PointId, payload: Payload, checksum: Value, identity: Identity, status: PointStatus,
                       paths: seq<string>)
    ensures var respelled := payload[OntologyPaths := Strs(paths)];
            && (NamesManifest(id, payload, checksum, identity, status) ==>
                  NamesManifest(id, respelled, checksum, identity, status))
            && (ProductionGoverned(payload, identity) ==> ProductionGoverned(respelled, identity))
  {
  }

  lemma RespelledCarries(payload: Payload, p: Payload, paths: seq<string>)
    requires Carried(payload) == p && ValidProjection(p)
    requires OntologyPaths in p && p[OntologyPaths].Strs?
    requires PathNames.NormalPaths(paths) == Some(p[OntologyPaths].items)
    ensures Carried(payload[OntologyPaths := Strs(paths)]) == p
  {
    hide ValidProjection, PathNames.NormalPaths, DefaultOf;
    var respelled := payload[OntologyPaths := Strs(paths)];
    ProjectionKeys(p, OntologyPaths);
    assert OntologyPaths in payload by { CarriedField(payload, OntologyPaths); }
    forall k: Key ensures k in Carried(respelled) <==> k in Carried(payload) {
    }
    forall k | k in Carried(respelled) ensures Carried(respelled)[k] == p[k] {
      if k == OntologyPaths {
        assert Carried(respelled)[k] == NormalValue(k, Strs(paths));
      }
    }
  }

  // ----- Fields left out -----

  /** Leaving the field out says the same as storing `v`. */
  predicate StandsFor(k: Key, v: Value)
  {
    match k
    case SchemaVersion => v == Str("qdrant-0.2")
    case ClaimEligibility | StoragePermission | ApprovedMark => v == Flag(true)
    case TopicTags | MagicApplication | PopulationContext | PerformanceContext => v == Strs([])
    case SupportingEvidenceIds | ContradictingEvidenceIds | EntityIds | EntityTypes => v == Strs([])
    case RelationshipIds | RelationTypes => v == Strs([])
    case PageNumber | SourceYear | EvidenceCardId | CanonicalClaimId => v == Null
    case ContentVersion => v == Number(1)
    case _ => false
  }

  lemma StandingIsDefault(k: Key, v: Value)
    requires StandsFor(k, v)
    ensures IsOptional(k) && DefaultOf(k) == v && !IsBindingKey(k) && k != Key.ReviewStatus
  {
  }

  lemma OmissionIsDefault(payload: Payload, k: Key, v: Value)
    requires k !in payload && StandsFor(k, v)
    ensures Carried(payload[k := v]) == Carried(payload)
  {
    hide DefaultOf, IsOptional, IsBindingKey, StandsFor, NormalValue;
    StandingIsDefault(k, v);
    var with := Unbound(payload[k := v])[Key.ReviewStatus := Status(Ingested)];
    var without := Unbound(payload)[Key.ReviewStatus := Status(Ingested)];
    assert with == without[k := v];
    assert Filled(with) == Filled(without);
  }

  /** Nothing else may be left out, but the review state, which is set aside. */
  lemma OthersAreRequired(payload: Payload, k: Key)
    requires ValidProjection(Carried(payload)) && IsProjectionKey(k) && k !in payload
    ensures k == Key.ReviewStatus || exists v :: StandsFor(k, v)
  {
    hide ValidProjection, Carried;
    if k != Key.ReviewStatus {
      CarriedField(payload, k);
      ProjectionKeys(Carried(payload), k);
      OptionalHasDefault(k);
    }
  }

  lemma OptionalHasDefault(k: Key)
    requires IsOptional(k) && k != Key.ReviewStatus
    ensures StandsFor(k, DefaultOf(k))
  {
  }

  // ----- A manifest's own point, field by field -----

  /** Under `id` lies the manifest's projection with its bindings, governed and in review state `status`. */
  predicate Bears(m: Manifest, id: PointId, payload: Payload, status: PointStatus)
  {
    && id in Index(m.projections) && Carried(payload) == Index(m.projections)[id]
    && Field(payload, KnowledgeUnitId) == Uuid(id) && Field(payload, SchemaVersion) == Str("qdrant-0.2")
    && Field(payload, PayloadChecksum) == Checksum(Index(m.projections)[id])
    && Field(payload, StorageManifestId) == ManifestRef(m.id) && Field(payload, ManifestHashKey) == HashRef(m.hash)
    && Field(payload, CorpusId) == Uuid(m.corpusId) && Field(payload, Key.ReviewStatus) == Status(status)
    && Field(payload, HumanVerified) == Flag(true) && Field(payload, BootstrapMark) == Flag(false)
    && Field(payload, ApprovedMark) == Flag(true) && Field(payload, ClaimEligibility) == Flag(true)
    && Field(payload, StoragePermission) == Flag(true)
  }

  /** The per-point check accepts exactly such points. */
  lemma OwnIsBearing(m: Manifest, id: PointId, payload: Payload, status: PointStatus)
    requires ValidManifest(m)
    ensures IsOwn(m, id, payload, status) <==> Bears(m, id, payload, status)
  {
    hide ValidManifest, ValidProjection, Carried, Index;
    if id in Index(m.projections) {
      IndexedIsValid(m, id);
    }
  }

  lemma IndexedIsValid(m: Manifest, id: PointId)
    requires ValidManifest(m) && id in Index(m.projections)
    ensures ValidProjection(Index(m.projections)[id])
  {
    hide ValidProjection, Index;
    ValidIsCanonical(m);
  }
}
