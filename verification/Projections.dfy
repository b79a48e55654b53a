/**
 Reviewed projections, their stored payloads, and content-addressed storage manifests
 (knowledge/projections.py).

 A UUID is the integer it denotes; its canonical text sorts as that integer does. A SHA-256
 digest, and a UUID derived from one, is the constructor applied to the digested content:
 equal digests mean equal contents, which is what the program relies on.
 */
module Projections {
  import opened Wrappers
  import opened Sequences
  import opened Vocabulary
  import Ordering
  import PathNames
  import Text

  type PointId = nat

  datatype PointStatus = Pending | Approved | Rejected | Ingested | BootstrapPending | BootstrapGenerated | Bootstrap
  datatype Exposure = NoExposure | GeneralPrinciple | MethodDetail | OperationalSecret

  /** The payload fields. `Foreign` stands for every name the adapter does not know. */
  datatype Key =
    // fields of the immutable projection
    | SchemaVersion | KnowledgeUnitId | ArtifactType | ArtifactId | ArtifactVersion
    | KnowledgeType | BodyText | Title | Domain | OntologyPaths | TopicTags
    | KnowledgeOrigin | EvidenceLevel | EvidenceClass | ClaimRoles | MagicApplication
    | PopulationContext | PerformanceContext | Confidence | ConfidenceLabel | Limitations
    | SourceType | SourceId | CitationId | SourceCandidateId | DocumentId | SourceLocator
    | PageNumber | SourceYear | EvidenceCardId | CanonicalClaimId | SupportingEvidenceIds
    | ContradictingEvidenceIds | ContradictionStatus | EntityIds | EntityTypes
    | RelationshipIds | RelationTypes | SecretExposureLevel | SecretExposureRank
    | SensitiveInformationLevel | ClaimEligibility | StoragePermission | ApprovedMark
    | ReviewStatus | ReviewItemId | ClaimReviewItemIds | ReviewedAt | ContentVersion
    // fields added when the projection is bound to a manifest
    | CorpusId | StorageManifestId | ManifestHashKey | PayloadChecksum
    | BootstrapMark | HumanVerified
    | Foreign

  datatype Value =
    | Str(text: string)
    | Strs(items: seq<string>)
    | Flag(flag: bool)
    | Number(number: int)
    | Null
    | Uuid(id: nat)
    | Status(status: PointStatus)
    | Level(level: Sensitivity)
    | Exposed(exposure: Exposure)
    | ManifestRef(manifest: ManifestId)
    | HashRef(hash: ManifestHash)
    | Checksum(content: Payload)

  type Payload = map<Key, Value>

  datatype ManifestHash = ManifestHash(data: ManifestData)
  datatype ManifestId = ManifestId(of: ManifestHash)

  /** What the manifest hash digests: the sorted lists in it are canonical already. */
  datatype ManifestData = ManifestData(
    corpusId: nat,
    rules: map<string, string>,
    levels: multiset<Sensitivity>,
    collectionName: string,
    entries: seq<Entry>)

  datatype Entry = Entry(pointId: PointId, checksum: Value, artifactId: Value, artifactVersion: Value)

  const PROJECTION_SCHEMA := "qdrant-0.2"

  predicate IsBindingKey(k: Key)
  {
    match k
    case CorpusId | StorageManifestId | ManifestHashKey | PayloadChecksum | BootstrapMark | HumanVerified => true
    case _ => false
  }

  predicate IsProjectionKey(k: Key)
  {
    !IsBindingKey(k) && !k.Foreign?
  }

  /** The fields a payload may leave out; validation then puts in `DefaultOf`. */
  predicate IsOptional(k: Key)
  {
    match k
    case SchemaVersion | TopicTags | MagicApplication | PopulationContext | PerformanceContext => true
    case SupportingEvidenceIds | ContradictingEvidenceIds | EntityIds | EntityTypes => true
    case RelationshipIds | RelationTypes | PageNumber | SourceYear | EvidenceCardId => true
    case CanonicalClaimId | ClaimEligibility | StoragePermission | ApprovedMark => true
    case ReviewStatus | ContentVersion => true
    case _ => false
  }

  function DefaultOf(k: Key): Value
  {
    match k
    case SchemaVersion => Str(PROJECTION_SCHEMA)
    case TopicTags | MagicApplication | PopulationContext | PerformanceContext => Strs([])
    case SupportingEvidenceIds | ContradictingEvidenceIds => Strs([])
    case EntityIds | EntityTypes | RelationshipIds | RelationTypes => Strs([])
    case ClaimEligibility | StoragePermission | ApprovedMark => Flag(true)
    case ReviewStatus => Status(Ingested)
    case ContentVersion => Number(1)
    case _ => Null
  }

  /** The payload with every absent optional field at its default. */
  function Filled(c: Payload): Payload
  {
    map k: Key | k in c || IsOptional(k) :: if k in c then c[k] else DefaultOf(k)
  }

  /** The fields whose validators rewrite them: repetitions go, and paths get their canonical spelling. */
  predicate IsRewritten(k: Key)
  {
    match k
    case OntologyPaths | SupportingEvidenceIds | ContradictingEvidenceIds => true
    case EntityIds | RelationshipIds | ClaimReviewItemIds => true
    case _ => false
  }

  /** What validation makes of a field; a list of paths that does not normalise is left, and is not valid. */
  function NormalValue(k: Key, v: Value): Value
  {
    if !IsRewritten(k) || !v.Strs? then v
    else if !k.OntologyPaths? then Strs(Firsts(v.items))
    else if PathNames.NormalPaths(v.items).Some? then Strs(PathNames.NormalPaths(v.items).value)
    else v
  }

  function Normal(p: Payload): Payload
  {
    map k | k in p :: NormalValue(k, p[k])
  }

  /** Every list is as validation leaves it. */
  predicate InNormalForm(p: Payload)
  {
    && (forall k :: k in p ==> NormalValue(k, p[k]) == p[k])
    && PlainPaths(p)
  }

  /** Every ontology path has its canonical spelling. */
  predicate PlainPaths(p: Payload)
  {
    OntologyPaths in p && p[OntologyPaths].Strs? ==> PathNames.AllCanonical(p[OntologyPaths].items)
  }

  function RankOf(e: Exposure): nat
  {
    match e
    case NoExposure => 0
    case GeneralPrinciple => 1
    case MethodDetail => 2
    case OperationalSecret => 3
  }

  /** Exactly the projection fields, each of the declared kind. */
  predicate WellTyped(p: Payload)
  {
    && (forall k: Key :: IsProjectionKey(k) <==> k in p)
    && p[KnowledgeUnitId].Uuid?
    && p[KnowledgeType].Str? && p[KnowledgeOrigin].Str? && p[EvidenceLevel].Str?
    && p[Domain].Strs? && p[OntologyPaths].Strs?
    && p[EntityIds].Strs? && p[EntityTypes].Strs? && p[RelationTypes].Strs?
    && p[SupportingEvidenceIds].Strs?
    && p[ConfidenceLabel].Str? && p[ContradictionStatus].Str? && p[ArtifactType].Str?
    && p[SecretExposureLevel].Exposed? && p[SecretExposureRank].Number?
    && p[SensitiveInformationLevel].Level?
    && p[BodyText].Str?
  }

  /** The validators of `QdrantProjection`: what a stored projection must satisfy. */
  predicate ValidProjection(p: Payload)
  {
    && WellTyped(p)
    && InNormalForm(p)
    && p[SchemaVersion] == Str(PROJECTION_SCHEMA)
    && p[ClaimEligibility] == p[StoragePermission] == p[ApprovedMark] == Flag(true)
    && p[Key.ReviewStatus] == Status(Ingested)
    && p[SecretExposureRank].number == RankOf(p[SecretExposureLevel].exposure)
    && p[ConfidenceLabel] != Str("insufficient")
    && p[ContradictionStatus] != Str("not_checked")
    && (if p[ArtifactType] == Str("evidence_card")
        then p[EvidenceCardId].Uuid? && p[CanonicalClaimId].Uuid?
        else p[SupportingEvidenceIds].items != [])
    && "Knowledge type:" <= p[BodyText].text
  }

  /** `knowledge_unit_id`, which is also the point the projection is stored under. */
  function PointOf(p: Payload): PointId
  {
    if KnowledgeUnitId in p && p[KnowledgeUnitId].Uuid? then p[KnowledgeUnitId].id else 0
  }

  function Field(p: Payload, k: Key): Value
  {
    if k in p then p[k] else Null
  }

  // ----- Storage manifests -----

  datatype ManifestStatus = PendingManifest | Authorized | IngestedManifest | Failed
  datatype Authorization = Authorization(authorizer: string, reason: string)

  datatype Manifest = Manifest(
    id: ManifestId,
    hash: ManifestHash,
    corpusId: nat,
    rules: map<string, string>,
    levels: multiset<Sensitivity>,
    collectionName: string,
    projections: seq<Payload>,
    status: ManifestStatus,
    authorization: Option<Authorization>)
  {
    /** `expected_point_ids`, in canonical order. */
    function PointIds(): seq<PointId>
    {
      Ids(projections)
    }

    predicate IsAuthorized()
    {
      (status == Authorized || status == IngestedManifest) && authorization.Some?
    }
  }

  /** What a caller hands to the constructor; identity fields may be left out. */
  datatype ManifestInput = ManifestInput(
    id: Option<ManifestId>,
    hash: Option<ManifestHash>,
    corpusId: nat,
    schema: string,
    rules: map<string, string>,
    levels: multiset<Sensitivity>,
    collectionName: string,
    projections: seq<Payload>,
    expectedPointIds: seq<PointId>,
    expectedPointCount: nat,
    status: ManifestStatus,
    authorization: Option<Authorization>)

  datatype ManifestError =
    | UnsupportedSchema | MissingRules | NoProjections | InvalidProjection | DuplicatePoints
    | IdsMismatch | CountMismatch | HashMismatch | IdMismatch | AuthorizationMismatch
    | NotPending | NotHuman | BlankReason | NotAuthorized | ReceiptMismatch

  function Ids(ps: seq<Payload>): (r: seq<PointId>)
    ensures |r| == |ps|
  {
    seq(|ps|, i requires 0 <= i < |ps| => PointOf(ps[i]))
  }

  function ByPointId(): (Payload, Payload) -> bool
  {
    (a: Payload, b: Payload) => PointOf(a) <= PointOf(b)
  }

  function Entries(ps: seq<Payload>): seq<Entry>
  {
    seq(|ps|, i requires 0 <= i < |ps| =>
      Entry(PointOf(ps[i]), Checksum(ps[i]), Field(ps[i], ArtifactId), Field(ps[i], ArtifactVersion)))
  }

  predicate AllValid(ps: seq<Payload>)
  {
    forall p :: p in ps ==> ValidProjection(p)
  }

  /** The digest over projections in canonical order. */
  function HashOf(x: ManifestInput, canonical: seq<Payload>): ManifestHash
  {
    ManifestHash(ManifestData(x.corpusId, x.rules, x.levels, x.collectionName, Entries(canonical)))
  }

  /** The first check that `StorageManifest` construction fails, in its order. */
  function Refusal(x: ManifestInput, canonical: seq<Payload>): Option<ManifestError>
  {
    if canonical == [] then Some(NoProjections)
    else if !AllValid(canonical) then Some(InvalidProjection)
    else if x.schema != PROJECTION_SCHEMA then Some(UnsupportedSchema)
    else if x.rules == map[] then Some(MissingRules)
    else if !NoRepeats(Ids(canonical)) then Some(DuplicatePoints)
    else if x.expectedPointIds != [] && x.expectedPointIds != Ids(canonical) then Some(IdsMismatch)
    else if x.expectedPointCount != 0 && x.expectedPointCount != |canonical| then Some(CountMismatch)
    else if x.hash.Some? && x.hash.value != HashOf(x, canonical) then Some(HashMismatch)
    else if x.id.Some? && x.id.value != ManifestId(HashOf(x, canonical)) then Some(IdMismatch)
    else if (x.status == Authorized || x.status == IngestedManifest) != x.authorization.Some? then
      Some(AuthorizationMismatch)
    else None
  }

  function Canonical(ps: seq<Payload>): seq<Payload>
  {
    Ordering.StableSort(ps, ByPointId())
  }

  /** `StorageManifest.assign_manifest_identity`, after field validation. */
  function Build(x: ManifestInput): Result<Manifest, ManifestError>
  {
    var ps := Canonical(x.projections);
    if Refusal(x, ps).Some? then Failure(Refusal(x, ps).value)
    else Success(Manifest(ManifestId(HashOf(x, ps)), HashOf(x, ps), x.corpusId, x.rules, x.levels,
                          x.collectionName, ps, x.status, x.authorization))
  }

  /** `model_dump` of a manifest, as the constructor takes it back. */
  function Dump(m: Manifest): ManifestInput
  {
    ManifestInput(Some(m.id), Some(m.hash), m.corpusId, PROJECTION_SCHEMA, m.rules, m.levels,
                  m.collectionName, m.projections, m.PointIds(), |m.projections|, m.status, m.authorization)
  }

  const AUTOMATED_ACTORS := {"system", "automation", "research-pipeline", "llm", "glm"}

  /** `require_human_identity`: the trimmed name, or nothing for a blank or automated actor. */
  function HumanIdentity(actor: string): Option<string>
  {
    var name := Text.Strip(actor);
    if name == [] || Text.Casefold(name) in AUTOMATED_ACTORS then None else Some(name)
  }

  function Authorize(m: Manifest, authorizer: string, reason: string): Result<Manifest, ManifestError>
  {
    if m.status != PendingManifest then Failure(NotPending)
    else if HumanIdentity(authorizer).None? then Failure(NotHuman)
    else if Text.Strip(reason) == [] then Failure(BlankReason)
    else Build(Dump(m).(status := Authorized,
                        authorization := Some(Authorization(HumanIdentity(authorizer).value, Text.Strip(reason)))))
  }

  datatype ReceiptId = ReceiptId(corpusId: nat, manifestId: ManifestId, manifestHash: ManifestHash)

  datatype Receipt = Receipt(
    id: ReceiptId,
    manifestId: ManifestId,
    manifestHash: ManifestHash,
    corpusId: nat,
    collectionName: string,
    pointIds: seq<PointId>,
    checksums: map<PointId, Value>,
    actor: string)

  function MarkIngested(m: Manifest, r: Receipt): Result<Manifest, ManifestError>
  {
    if !m.IsAuthorized() then Failure(NotAuthorized)
    else if r.manifestId != m.id || r.manifestHash != m.hash || r.corpusId != m.corpusId
            || r.pointIds != m.PointIds() then Failure(ReceiptMismatch)
    else Build(Dump(m).(status := IngestedManifest))
  }

  /** The class invariant every constructed manifest has. */
  ghost predicate ValidManifest(m: Manifest)
  {
    && Build(Dump(m)) == Success(m)
  }

  /** What the store code uses of it. */
  predicate CanonicalProjections(ps: seq<Payload>)
  {
    && ps != []
    && AllValid(ps)
    && NoRepeats(Ids(ps))
  }

  // ----- Canonical identity -----

  lemma CanonicalOrder(ps: seq<Payload>)
    ensures Ordering.Sorted(Canonical(ps), ByPointId())
    ensures multiset(Canonical(ps)) == multiset(ps)
  {
    Ordering.SortSorts(ps, ByPointId());
  }

  lemma SamePointSameProjection(ps: seq<Payload>, a: Payload, b: Payload)
    requires NoRepeats(Ids(ps)) && a in ps && b in ps && PointOf(a) == PointOf(b)
    ensures a == b
  {
    var i :| 0 <= i < |ps| && ps[i] == a;
    var j :| 0 <= j < |ps| && ps[j] == b;
    assert Ids(ps)[i] == Ids(ps)[j];
  }

  lemma CanonicalIsOrderFree(ps: seq<Payload>, qs: seq<Payload>)
    requires multiset(ps) == multiset(qs) && NoRepeats(Ids(Canonical(ps)))
    ensures Canonical(ps) == Canonical(qs)
  {
    CanonicalOrder(ps);
    CanonicalOrder(qs);
    var xs, ys := Canonical(ps), Canonical(qs);
    forall x, y | x in xs && y in xs && ByPointId()(x, y) && ByPointId()(y, x) ensures x == y {
      SamePointSameProjection(xs, x, y);
    }
    Ordering.SortedUnique(xs, ys, ByPointId());
  }

  lemma DistinctMeansStrict(ps: seq<Payload>)
    requires Ordering.Sorted(ps, ByPointId()) && NoRepeats(Ids(ps))
    ensures forall i, j :: 0 <= i < j < |ps| ==> PointOf(ps[i]) < PointOf(ps[j])
  {
    forall i, j | 0 <= i < j < |ps| ensures PointOf(ps[i]) < PointOf(ps[j]) {
      assert ByPointId()(ps[i], ps[j]);
      assert Ids(ps)[i] != Ids(ps)[j];
    }
  }

  /** The order in which projections are handed over decides nothing, not even the error. */
  lemma BuildIsOrderFree(x: ManifestInput, qs: seq<Payload>)
    requires multiset(x.projections) == multiset(qs)
    ensures Build(x) == Build(x.(projections := qs))
  {
    hide Ids, Entries, Canonical, ValidProjection;
    var cp, cq := Canonical(x.projections), Canonical(qs);
    CanonicalOrder(x.projections);
    CanonicalOrder(qs);
    SameMembers(cp, cq);
    if NoRepeats(Ids(cp)) {
      CanonicalIsOrderFree(x.projections, qs);
    } else if NoRepeats(Ids(cq)) {
      CanonicalIsOrderFree(qs, x.projections);
    }
  }

  lemma BuildIsOrdered(x: ManifestInput)
    requires Build(x).Success?
    ensures var m := Build(x).value;
      && CanonicalProjections(m.projections)
      && Ordering.Sorted(m.projections, ByPointId())
      && multiset(m.projections) == multiset(x.projections)
  {
    CanonicalOrder(x.projections);
  }

  /** A constructed manifest rebuilds from its own dump. */
  lemma BuildIsIdempotent(x: ManifestInput)
    requires Build(x).Success?
    ensures ValidManifest(Build(x).value)
  {
    var m := Build(x).value;
    BuildIsOrdered(x);
    Ordering.SortedIsFixed(m.projections, ByPointId());
    assert Canonical(m.projections) == m.projections;
    assert HashOf(Dump(m), m.projections) == m.hash;
  }

  /** It lists its points in increasing order, none twice. */
  lemma ValidIsCanonical(m: Manifest)
    requires ValidManifest(m)
    ensures CanonicalProjections(m.projections)
    ensures forall i, j :: 0 <= i < j < |m.projections| ==> m.PointIds()[i] < m.PointIds()[j]
  {
    BuildIsOrdered(Dump(m));
    DistinctMeansStrict(m.projections);
  }

  /** A changed status rebuilds to the same identity whenever the authorization fits it. */
  lemma Restatus(m: Manifest, status: ManifestStatus, auth: Option<Authorization>)
    requires ValidManifest(m)
    requires (status == Authorized || status == IngestedManifest) == auth.Some?
    ensures Build(Dump(m).(status := status, authorization := auth))
         == Success(m.(status := status, authorization := auth))
    ensures ValidManifest(m.(status := status, authorization := auth))
  {
    var x := Dump(m).(status := status, authorization := auth);
    assert Canonical(x.projections) == m.projections;
    assert HashOf(x, m.projections) == HashOf(Dump(m), m.projections) == m.hash;
    assert Dump(m.(status := status, authorization := auth)) == x;
  }

  /** Authorising succeeds exactly for a pending manifest, a human and a reason, and keeps the identity. */
  lemma AuthorizeKeepsIdentity(m: Manifest, authorizer: string, reason: string)
    requires ValidManifest(m)
    ensures var r := Authorize(m, authorizer, reason);
      && (r.Success? <==>
            m.status == PendingManifest && HumanIdentity(authorizer).Some? && Text.Strip(reason) != [])
      && (r.Success? ==>
            && r.value.id == m.id && r.value.hash == m.hash && r.value.PointIds() == m.PointIds()
            && r.value.projections == m.projections && r.value.IsAuthorized() && ValidManifest(r.value))
  {
    if HumanIdentity(authorizer).Some? {
      Restatus(m, Authorized, Some(Authorization(HumanIdentity(authorizer).value, Text.Strip(reason))));
    }
  }

  lemma MarkIngestedKeepsIdentity(m: Manifest, receipt: Receipt)
    requires ValidManifest(m)
    ensures var r := MarkIngested(m, receipt);
      && (r.Success? <==>
            && m.IsAuthorized()
            && receipt.manifestId == m.id && receipt.manifestHash == m.hash
            && receipt.corpusId == m.corpusId && receipt.pointIds == m.PointIds())
      && (r.Success? ==> r.value == m.(status := IngestedManifest) && ValidManifest(r.value))
  {
    if m.IsAuthorized() {
      Restatus(m, IngestedManifest, m.authorization);
    }
  }

  /** The hash determines what is stored: manifests with one hash hold the same projections. */
  lemma HashDeterminesContent(m: Manifest, n: Manifest)
    requires ValidManifest(m) && ValidManifest(n) && m.hash == n.hash
    ensures m.id == n.id && m.projections == n.projections
    ensures m.corpusId == n.corpusId && m.rules == n.rules && m.levels == n.levels
    ensures m.collectionName == n.collectionName
  {
    assert m.hash == HashOf(Dump(m), m.projections) && n.hash == HashOf(Dump(n), n.projections);
    EntriesDetermine(m.projections, n.projections);
  }

  lemma EntriesDetermine(ps: seq<Payload>, qs: seq<Payload>)
    requires Entries(ps) == Entries(qs)
    ensures ps == qs
  {
    var es, fs := Entries(ps), Entries(qs);
    assert |es| == |ps| && |fs| == |qs|;
    forall i | 0 <= i < |ps| ensures ps[i] == qs[i] {
      assert es[i].checksum == fs[i].checksum;
    }
  }

  // ----- Valid manifests exist -----

  /** A projection of an evidence-free knowledge node stored under `id`. */
  function PlainValue(k: Key, id: PointId): Value
  {
    match k
    case KnowledgeUnitId => Uuid(id)
    case SchemaVersion => Str(PROJECTION_SCHEMA)
    case BodyText => Str("Knowledge type: psychology")
    case SupportingEvidenceIds => Strs(["e"])
    case SecretExposureLevel => Exposed(NoExposure)
    case SecretExposureRank => Number(0)
    case SensitiveInformationLevel => Level(Public)
    case ReviewStatus => Status(Ingested)
    case ClaimEligibility | StoragePermission | ApprovedMark => Flag(true)
    case OntologyPaths => Strs(["magic.effect"])
    case Domain | EntityIds | EntityTypes | RelationTypes => Strs([])
    case _ => Str("plain")
  }

  function PlainProjection(id: PointId): Payload
  {
    map k: Key | IsProjectionKey(k) :: PlainValue(k, id)
  }

  lemma PlainIds(id: PointId)
    ensures PlainValue(KnowledgeUnitId, id) == Uuid(id) && PlainValue(SchemaVersion, id) == Str(PROJECTION_SCHEMA)
    ensures PlainValue(BodyText, id) == Str("Knowledge type: psychology")
  {
  }

  lemma PlainTexts(id: PointId)
    ensures PlainValue(KnowledgeType, id) == PlainValue(KnowledgeOrigin, id) == Str("plain")
    ensures PlainValue(EvidenceLevel, id) == PlainValue(ArtifactType, id) == Str("plain")
    ensures PlainValue(ConfidenceLabel, id) == PlainValue(ContradictionStatus, id) == Str("plain")
  {
  }

  lemma PlainLists(id: PointId)
    ensures PlainValue(Domain, id) == Strs([]) && PlainValue(OntologyPaths, id) == Strs(["magic.effect"])
    ensures PlainValue(EntityIds, id) == PlainValue(EntityTypes, id) == PlainValue(RelationTypes, id) == Strs([])
    ensures PlainValue(SupportingEvidenceIds, id) == Strs(["e"])
  {
  }

  lemma PlainLevels(id: PointId)
    ensures PlainValue(SecretExposureLevel, id) == Exposed(NoExposure)
    ensures PlainValue(SecretExposureRank, id) == Number(0)
    ensures PlainValue(SensitiveInformationLevel, id) == Level(Public)
  {
  }

  lemma PlainMarks(id: PointId)
    ensures PlainValue(ClaimEligibility, id) == PlainValue(StoragePermission, id) == Flag(true)
    ensures PlainValue(ApprovedMark, id) == Flag(true)
    ensures PlainValue(Key.ReviewStatus, id) == Status(Ingested)
  {
  }

  lemma PlainFields(id: PointId)
    ensures forall k: Key :: k in PlainProjection(id) <==> IsProjectionKey(k)
    ensures forall k: Key :: IsProjectionKey(k) ==> PlainProjection(id)[k] == PlainValue(k, id)
  {
    hide PlainValue;
  }

  lemma PlainField(id: PointId, k: Key)
    requires IsProjectionKey(k)
    ensures k in PlainProjection(id) && PlainProjection(id)[k] == PlainValue(k, id)
  {
  }

  lemma PlainKeys(id: PointId)
    ensures forall k: Key :: IsProjectionKey(k) <==> k in PlainProjection(id)
  {
    hide PlainValue;
  }

  predicate IsText(p: Payload, k: Key)
  {
    k in p && p[k].Str?
  }

  predicate IsList(p: Payload, k: Key)
  {
    k in p && p[k].Strs?
  }

  lemma PlainTextsTyped(id: PointId)
    ensures var p := PlainProjection(id);
            && IsText(p, KnowledgeType) && IsText(p, KnowledgeOrigin) && IsText(p, EvidenceLevel)
            && IsText(p, ConfidenceLabel) && IsText(p, ContradictionStatus) && IsText(p, ArtifactType)
            && IsText(p, BodyText)
  {
    hide PlainProjection, PlainValue;
    PlainIds(id);
    PlainTexts(id);
    PlainField(id, KnowledgeType);
    PlainField(id, KnowledgeOrigin);
    PlainField(id, EvidenceLevel);
    PlainField(id, ConfidenceLabel);
    PlainField(id, ContradictionStatus);
    PlainField(id, ArtifactType);
    PlainField(id, BodyText);
  }

  lemma PlainListsTyped(id: PointId)
    ensures var p := PlainProjection(id);
            && IsList(p, Domain) && IsList(p, OntologyPaths) && IsList(p, EntityIds) && IsList(p, EntityTypes)
            && IsList(p, RelationTypes) && IsList(p, SupportingEvidenceIds)
  {
    hide PlainProjection, PlainValue;
    PlainLists(id);
    PlainField(id, Domain);
    PlainField(id, OntologyPaths);
    PlainField(id, EntityIds);
    PlainField(id, EntityTypes);
    PlainField(id, RelationTypes);
    PlainField(id, SupportingEvidenceIds);
  }

  lemma PlainIsTyped(id: PointId)
    ensures WellTyped(PlainProjection(id)) && PointOf(PlainProjection(id)) == id
  {
    hide PlainProjection, PlainValue;
    PlainKeys(id);
    PlainTextsTyped(id);
    PlainListsTyped(id);
    PlainIds(id);
    PlainLevels(id);
    PlainField(id, KnowledgeUnitId);
    PlainField(id, SecretExposureLevel);
    PlainField(id, SecretExposureRank);
    PlainField(id, SensitiveInformationLevel);
  }

  lemma MagicEffectIsCanonical()
    ensures PathNames.AllCanonical(["magic.effect"])
  {
    var parts := ["magic", "effect"];
    assert Text.JoinWith(parts, '.') == "magic.effect" by {
      Text.JoinWithCons("magic", ["effect"], '.');
      Text.JoinWithCons("effect", [], '.');
      assert ["magic"] + ["effect"] == parts;
    }
    PathNames.PathOfSlugsIsCanonical(parts);
  }

  lemma OneIsFixed(x: string)
    ensures Firsts([x]) == [x]
  {
    FirstsFixed([x]);
  }

  lemma PlainFieldIsNormal(id: PointId, k: Key)
    ensures NormalValue(k, PlainValue(k, id)) == PlainValue(k, id)
  {
    hide PathNames.NormalPaths, PathNames.Canonical, PlainValue, Firsts;
    PlainLists(id);
    PlainLabels(id);
    MagicEffectIsCanonical();
    PathNames.CanonicalPathsAreFixed(["magic.effect"]);
    OneIsFixed("magic.effect");
    OneIsFixed("e");
    FirstsFixed<string>([]);
  }

  lemma PlainIsNormal(id: PointId)
    ensures InNormalForm(PlainProjection(id))
  {
    hide NormalValue, PlainProjection, PlainValue, PathNames.Canonical;
    PlainFields(id);
    PlainLists(id);
    MagicEffectIsCanonical();
    forall k | k in PlainProjection(id) ensures NormalValue(k, PlainProjection(id)[k]) == PlainProjection(id)[k] {
      PlainFieldIsNormal(id, k);
    }
  }

  lemma PlainLabels(id: PointId)
    ensures PlainValue(ContradictingEvidenceIds, id) == Str("plain") && PlainValue(RelationshipIds, id) == Str("plain")
    ensures PlainValue(ClaimReviewItemIds, id) == Str("plain")
  {
  }

  lemma PlainIsValid(id: PointId)
    ensures ValidProjection(PlainProjection(id)) && PointOf(PlainProjection(id)) == id
  {
    hide PlainProjection, PlainValue, WellTyped, InNormalForm;
    PlainIsTyped(id);
    PlainIsNormal(id);
    PlainFields(id);
    PlainIds(id);
    PlainTexts(id);
    PlainLists(id);
    PlainLevels(id);
    PlainMarks(id);
    assert "Knowledge type:" <= "Knowledge type: psychology";
  }

  /** For every point there is a valid authorised manifest that stores it. */
  lemma ManifestsExist(id: PointId, collectionName: string) returns (m: Manifest)
    ensures ValidManifest(m) && m.IsAuthorized() && m.PointIds() == [id] && m.collectionName == collectionName
  {
    hide ValidProjection, PlainProjection, HashOf, PointOf;
    PlainIsValid(id);
    var ps := [PlainProjection(id)];
    var x := ManifestInput(None, None, 0, PROJECTION_SCHEMA, map["ontology" := "v1"], multiset{Public}, collectionName,
                           ps, [], 0, Authorized, Some(Authorization("Ada", "reviewed")));
    Ordering.SortedIsFixed(ps, ByPointId());
    assert Ids(ps) == [id];
    assert Canonical(x.projections) == ps && AllValid(ps);
    assert "ontology" in x.rules;
    assert Build(x).Success?;
    BuildIsIdempotent(x);
    m := Build(x).value;
  }
}
