/**
 The checks the production adapter makes on stored points, and what each public call
 answers and leaves behind as a function of the collection it finds
 (retrieval/qdrant_service.py, production mode).
 */
module Governance {
  import opened Wrappers
  import opened Sequences
  import opened Vocabulary
  import opened Projections
  import opened VectorStore
  import Text

  datatype Mode = Production | BootstrapMode

  /** What binds a collection to one manifest. */
  datatype Identity = Identity(corpusId: nat, manifestId: ManifestId, manifestHash: ManifestHash, schema: string)

  datatype Config = Config(
    mode: Mode,
    writesEnabled: bool,
    closed: bool,
    collectionName: string,
    dimension: nat,
    active: Option<Identity>,
    activeChecksums: map<PointId, Value>)

  datatype ServiceError =
    | WrongMode | WritesDisabled | BootstrapCollection | NotHumanActor | ManifestNotAuthorized
    | OtherCollection | ServiceClosed | WrongVectors | NotBound | StagingUnverified | PublicationUnverified
    | AuthorizationRequired | AnonymousProduction | NoActiveIdentity | NoActiveChecksums
    | OutsideManifest | InvalidPoint | OutsideAuthorization | OutsideFilters
    | InconsistentExpectation | NotReady

  // ----- Payloads -----

  /** What binding a projection to a manifest writes beside the projection's own fields. */
  function BindingValue(k: Key, p: Payload, m: Manifest): Value
  {
    match k
    case CorpusId => Uuid(m.corpusId)
    case StorageManifestId => ManifestRef(m.id)
    case ManifestHashKey => HashRef(m.hash)
    case PayloadChecksum => Checksum(p)
    case BootstrapMark => Flag(false)
    case HumanVerified => Flag(true)
    case _ => Null
  }

  /** `QdrantProjection.to_payload`. */
  function ToPayload(p: Payload, m: Manifest): Payload
  {
    map k: Key | k in p || IsBindingKey(k) :: if IsBindingKey(k) then BindingValue(k, p, m) else p[k]
  }

  function Unbound(payload: Payload): Payload
  {
    map k | k in payload && !IsBindingKey(k) :: payload[k]
  }

  /** The projection a payload carries: the staging state set aside, defaults filled in, lists normalised. */
  function Carried(payload: Payload): Payload
  {
    Normal(Filled(Unbound(payload)[Key.ReviewStatus := Status(Ingested)]))
  }

  /** `_canonical_projection_checksum`: nothing when the payload is no valid projection. */
  function CanonicalChecksum(payload: Payload): Option<Value>
  {
    if ValidProjection(Carried(payload)) then Some(Checksum(Carried(payload))) else None
  }

  /** The point names itself, its manifest and its review state. */
  predicate NamesManifest(id: PointId, payload: Payload, checksum: Value, identity: Identity, status: PointStatus)
  {
    && Field(payload, KnowledgeUnitId) == Uuid(id)
    && Field(payload, PayloadChecksum) == checksum
    && Field(payload, StorageManifestId) == ManifestRef(identity.manifestId)
    && Field(payload, ManifestHashKey) == HashRef(identity.manifestHash)
    && Field(payload, SchemaVersion) == Str(identity.schema)
    && Field(payload, Key.ReviewStatus) == Status(status)
  }

  predicate ProductionGoverned(payload: Payload, identity: Identity)
  {
    && Field(payload, CorpusId) == Uuid(identity.corpusId)
    && Field(payload, BootstrapMark) == Flag(false)
    && Field(payload, HumanVerified) == Flag(true)
    && Field(payload, ApprovedMark) == Flag(true)
    && Field(payload, ClaimEligibility) == Flag(true)
    && Field(payload, StoragePermission) == Flag(true)
  }

  /** `_validate_point_payload`. */
  predicate PointIsValid(id: PointId, payload: Payload, checksum: Value, identity: Identity, status: PointStatus)
  {
    && NamesManifest(id, payload, checksum, identity, status)
    && ProductionGoverned(payload, identity)
    && CanonicalChecksum(payload) == Some(checksum)
  }

  // ----- A manifest's points -----

  /** The projections by point id. */
  function Index(ps: seq<Payload>): (r: map<PointId, Payload>)
    ensures r.Keys == set p | p in ps :: PointOf(p)
    ensures forall id :: id in r ==> r[id] in ps && PointOf(r[id]) == id
  {
    if ps == [] then map[]
    else
      assert ps == ps[..|ps| - 1] + [ps[|ps| - 1]];
      Index(ps[..|ps| - 1])[PointOf(ps[|ps| - 1]) := ps[|ps| - 1]]
  }

  function IdentityOf(m: Manifest): Identity
  {
    Identity(m.corpusId, m.id, m.hash, PROJECTION_SCHEMA)
  }

  function ChecksumsOf(m: Manifest): map<PointId, Value>
  {
    var index := Index(m.projections);
    map id | id in index :: Checksum(index[id])
  }

  /** The stored point `id` is the manifest's own, in review state `status`. */
  predicate IsOwn(m: Manifest, id: PointId, payload: Payload, status: PointStatus)
  {
    id in Index(m.projections)
    && PointIsValid(id, payload, Checksum(Index(m.projections)[id]), IdentityOf(m), status)
  }

  /** `_verify_written_points` accepts. */
  predicate Written(points: map<PointId, Payload>, m: Manifest, status: PointStatus)
  {
    && (forall id :: id in m.PointIds() ==> id in points)
    && |points| == |m.projections|
    && (forall id :: id in m.PointIds() ==> IsOwn(m, id, points[id], status))
  }

  predicate FullyIngested(s: Store, m: Manifest)
  {
    s.present && Written(s.points, m, Ingested)
  }

  // ----- Publishing -----

  predicate TargetsBootstrap(name: string)
  {
    Text.Contains(Text.Casefold(Text.Strip(name)), "bootstrap")
  }

  /** The checks of `write_manifest` before it looks at the collection; the operator when they pass. */
  function Admission(c: Config, m: Manifest, actor: string): Result<string, ServiceError>
  {
    if c.mode != Production then Failure(WrongMode)
    else if !c.writesEnabled then Failure(WritesDisabled)
    else if TargetsBootstrap(c.collectionName) then Failure(BootstrapCollection)
    else if HumanIdentity(actor).None? then Failure(NotHumanActor)
    else if !m.IsAuthorized() then Failure(ManifestNotAuthorized)
    else if m.collectionName != c.collectionName then Failure(OtherCollection)
    else Success(HumanIdentity(actor).value)
  }

  function ReceiptFor(c: Config, m: Manifest, operator: string): Receipt
  {
    Receipt(ReceiptId(m.corpusId, m.id, m.hash), m.id, m.hash, m.corpusId, c.collectionName,
            m.PointIds(), ChecksumsOf(m), operator)
  }

  predicate GoodVectors(c: Config, s: Store)
  {
    s.dimension == c.dimension && s.cosine
  }

  /** The collection once `create_collection` has run. */
  function Opened(c: Config, s: Store): Store
  {
    if s.present then s else Store(true, c.dimension, true, map[])
  }

  /** `_require_collection_bound_to_manifest` accepts. */
  predicate IsBound(points: map<PointId, Payload>, m: Manifest)
  {
    points == map[] || Written(points, m, Ingested)
  }

  /** The batch `write_manifest` upserts: every payload in the invisible staging state. */
  function StagedBatch(m: Manifest): (r: seq<(PointId, Payload)>)
    ensures |r| == |m.projections|
  {
    seq(|m.projections|, i requires 0 <= i < |m.projections| =>
      (PointOf(m.projections[i]), WithStatus(ToPayload(m.projections[i], m), Approved)))
  }

  function Stage(points: map<PointId, Payload>, m: Manifest): map<PointId, Payload>
  {
    Upserted(points, StagedBatch(m), |StagedBatch(m)|)
  }

  function Publish(points: map<PointId, Payload>, m: Manifest): map<PointId, Payload>
  {
    Patched(points, m.PointIds(), Ingested, |m.PointIds()|)
  }

  /** `write_manifest` run to its end: the answer and the collection it leaves. */
  function Write(c: Config, m: Manifest, actor: string, s: Store): (Result<Receipt, ServiceError>, Store)
  {
    if Admission(c, m, actor).Failure? then (Failure(Admission(c, m, actor).error), s)
    else if c.closed then (Failure(ServiceClosed), s)
    else
      var receipt := ReceiptFor(c, m, Admission(c, m, actor).value);
      if FullyIngested(s, m) then (Success(receipt), s)
      else if s.present && !GoodVectors(c, s) then (Failure(WrongVectors), s)
      else if s.present && !IsBound(s.points, m) then (Failure(NotBound), s)
      else
        var o := Opened(c, s);
        var staged := Stage(o.points, m);
        if !Written(staged, m, Approved) then (Failure(StagingUnverified), o.(points := staged))
        else
          var published := Publish(staged, m);
          if !Written(published, m, Ingested) then (Failure(PublicationUnverified), o.(points := published))
          else (Success(receipt), o.(points := published))
  }

  // ----- Cleaning up -----

  datatype CleanupOutcome = NotNeeded | Cleaned | ReconciliationRequired

  /** A stored point is the manifest's own, staged or published. */
  predicate IsRemovable(m: Manifest, id: PointId, payload: Payload)
  {
    IsOwn(m, id, payload, Approved) || IsOwn(m, id, payload, Ingested)
  }

  /** `cleanup_manifest_points`. */
  function Cleanup(c: Config, m: Manifest, s: Store): (Result<CleanupOutcome, ServiceError>, Store)
  {
    if c.mode == Production && !c.writesEnabled then (Failure(WritesDisabled), s)
    else if TargetsBootstrap(c.collectionName) then (Failure(BootstrapCollection), s)
    else if c.closed then (Success(ReconciliationRequired), s)
    else if !s.present then (Success(NotNeeded), s)
    else if exists id :: id in m.PointIds() && id in s.points && !IsRemovable(m, id, s.points[id]) then
      (Success(ReconciliationRequired), s)
    else (Success(Cleaned), s.(points := s.points - Elements(m.PointIds())))
  }

  // ----- Reading -----

  datatype Caller = Caller(clearance: nat, levels: seq<Sensitivity>, bootstrapLimited: bool)

  datatype SearchFilter = SearchFilter(
    knowledgeTypes: seq<string>,
    domains: seq<string>,
    ontologyPaths: seq<string>,
    knowledgeOrigins: seq<string>,
    evidenceLevels: seq<string>,
    entityIds: seq<string>,
    entityTypes: seq<string>,
    relationTypes: seq<string>)

  /** `values_by_field`, which the store filter and the client recheck share. */
  function ValuesByField(f: SearchFilter): seq<(Key, seq<string>)>
  {
    [(KnowledgeType, f.knowledgeTypes), (Domain, f.domains), (OntologyPaths, f.ontologyPaths),
     (KnowledgeOrigin, f.knowledgeOrigins), (EvidenceLevel, f.evidenceLevels), (EntityIds, f.entityIds),
     (EntityTypes, f.entityTypes), (RelationTypes, f.relationTypes)]
  }

  function AsStrings(xs: seq<string>): seq<Value>
  {
    seq(|xs|, i requires 0 <= i < |xs| => Str(xs[i]))
  }

  function AsLevels(xs: seq<Sensitivity>): seq<Value>
  {
    seq(|xs|, i requires 0 <= i < |xs| => Level(xs[i]))
  }

  /** One `MatchAny` per caller filter that names a value. */
  function FilterConditions(fields: seq<(Key, seq<string>)>): seq<Condition>
  {
    if fields == [] then []
    else (if fields[0].1 == [] then [] else [AnyOf(fields[0].0, AsStrings(fields[0].1))])
         + FilterConditions(fields[1..])
  }

  /** The production branch of `_readiness_filter`; `_build_filter` starts from the same conditions. */
  function ReadinessConditions(identity: Identity): seq<Condition>
  {
    [Equals(CorpusId, Uuid(identity.corpusId)),
     Equals(StorageManifestId, ManifestRef(identity.manifestId)),
     Equals(ManifestHashKey, HashRef(identity.manifestHash)),
     Equals(SchemaVersion, Str(identity.schema)),
     Equals(ApprovedMark, Flag(true)),
     Equals(ClaimEligibility, Flag(true)),
     Equals(StoragePermission, Flag(true)),
     Equals(Key.ReviewStatus, Status(Ingested)),
     Equals(BootstrapMark, Flag(false)),
     Equals(HumanVerified, Flag(true))]
  }

  /** `_build_filter`. */
  function BuildFilter(filters: Option<SearchFilter>, caller: Caller, identity: Identity): Filter
  {
    Filter(
      ReadinessConditions(identity)
      + [AnyOf(SensitiveInformationLevel, AsLevels(caller.levels)),
         AtMost(SecretExposureRank, caller.clearance)]
      + (if filters.Some? then FilterConditions(ValuesByField(filters.value)) else []),
      [Equals(ConfidenceLabel, Str("insufficient"))])
  }

  /** `_payload_visible_to_authorization`. */
  predicate VisibleTo(payload: Payload, caller: Caller)
  {
    && Field(payload, SensitiveInformationLevel).Level?
    && Field(payload, SensitiveInformationLevel).level in caller.levels
    && Field(payload, SecretExposureRank).Number?
    && Field(payload, SecretExposureRank).number <= caller.clearance
    && Field(payload, ConfidenceLabel) != Str("insufficient")
  }

  /** A field, list or scalar, shares a value with `expected`. */
  predicate Intersects(v: Value, expected: seq<string>)
  {
    match v
    case Strs(items) => exists x :: x in items && x in expected
    case Str(x) => x in expected
    case _ => false
  }

  /** `_payload_matches_filters`. */
  predicate MatchesFilters(payload: Payload, f: SearchFilter)
  {
    forall i :: 0 <= i < |ValuesByField(f)| && ValuesByField(f)[i].1 != [] ==>
      Intersects(Field(payload, ValuesByField(f)[i].0), ValuesByField(f)[i].1)
  }

  datatype Hit = Hit(id: PointId, score: real, payload: Payload)

  /** The recheck `search_documents` makes of one returned point. */
  function Recheck(c: Config, caller: Caller, filters: Option<SearchFilter>, identity: Identity,
                   id: PointId, payload: Payload): Option<ServiceError>
  {
    if id !in c.activeChecksums then Some(OutsideManifest)
    else if !PointIsValid(id, payload, c.activeChecksums[id], identity, Ingested) then Some(InvalidPoint)
    else if !VisibleTo(payload, caller) then Some(OutsideAuthorization)
    else if filters.Some? && !MatchesFilters(payload, filters.value) then Some(OutsideFilters)
    else None
  }

  /** What the adapter makes of the store's answer: hits in the answer's order, or the first failed recheck. */
  function Accept(c: Config, caller: Caller, filters: Option<SearchFilter>, identity: Identity,
                  answer: seq<Hit>): Result<seq<Hit>, ServiceError>
  {
    if answer == [] then Success([])
    else
      var last := answer[|answer| - 1];
      var before := Accept(c, caller, filters, identity, answer[..|answer| - 1]);
      if before.Failure? then before
      else if Recheck(c, caller, filters, identity, last.id, last.payload).Some? then
        Failure(Recheck(c, caller, filters, identity, last.id, last.payload).value)
      else Success(before.value + [last])
  }

  /** `search_documents` in production mode; `answer` is what the store returns to `BuildFilter`. */
  function Search(c: Config, present: bool, query: string, caller: Option<Caller>,
                  filters: Option<SearchFilter>, answer: seq<Hit>): Result<seq<Hit>, ServiceError>
  {
    if caller.None? then Failure(AuthorizationRequired)
    else if caller.value.bootstrapLimited then Failure(AnonymousProduction)
    else if Text.Strip(query) == [] then Success([])
    else if c.active.None? then Failure(NoActiveIdentity)
    else if c.activeChecksums == map[] then Failure(NoActiveChecksums)
    else if c.closed then Failure(ServiceClosed)
    else if !present then Success([])
    else Accept(c, caller.value, filters, c.active.value, answer)
  }

  /** `validate_readiness` in production mode. */
  function Readiness(c: Config, s: Store, expectedIds: seq<PointId>, expectedChecksums: map<PointId, Value>,
                     expectedCount: nat, identity: Option<Identity>): Option<ServiceError>
  {
    if |expectedIds| != expectedCount || !NoRepeats(expectedIds)
       || expectedChecksums.Keys != Elements(expectedIds)
       || (exists id :: id in expectedChecksums && !expectedChecksums[id].Checksum?) then Some(InconsistentExpectation)
    else if c.activeChecksums != map[] && expectedChecksums != c.activeChecksums then Some(InconsistentExpectation)
    else if identity.None? then Some(NoActiveIdentity)
    else if c.closed then Some(ServiceClosed)
    else if !s.present || !GoodVectors(c, s) || |s.points| != expectedCount then Some(NotReady)
    else if |Selected(s.points, Filter(ReadinessConditions(identity.value), []))| != expectedCount then Some(NotReady)
    else if exists id :: id in expectedIds
              && (id !in s.points
                  || !PointIsValid(id, s.points[id], expectedChecksums[id], identity.value, Ingested))
    then Some(NotReady)
    else None
  }
}
