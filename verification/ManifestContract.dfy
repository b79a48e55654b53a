/**
 Storage manifests as a decision table: which projections may be stored, when a manifest is built and
 what it then holds, and who may authorise it or mark it ingested.
 */
module ManifestContract {
  import opened Wrappers
  import opened Sequences
  import opened Projections
  import PathNames
  import Text

  // ----- People -----

  /** Not blank, and not one of the automated actors in any case. */
  predicate NamesHuman(actor: string)
  {
    var name := Text.Strip(actor);
    && name != ""
    && Text.Casefold(name) != "system" && Text.Casefold(name) != "automation"
    && Text.Casefold(name) != "research-pipeline" && Text.Casefold(name) != "llm" && Text.Casefold(name) != "glm"
  }

  lemma HumanDecided(actor: string)
    ensures HumanIdentity(actor) == if NamesHuman(actor) then Some(Text.Strip(actor)) else None
  {
  }

  // ----- Projections -----

  predicate IsMark(p: Payload, k: Key)
  {
    Field(p, k) == Flag(true)
  }

  predicate RankFits(p: Payload)
  {
    match Field(p, SecretExposureLevel)
    case Exposed(NoExposure) => Field(p, SecretExposureRank) == Number(0)
    case Exposed(GeneralPrinciple) => Field(p, SecretExposureRank) == Number(1)
    case Exposed(MethodDetail) => Field(p, SecretExposureRank) == Number(2)
    case Exposed(OperationalSecret) => Field(p, SecretExposureRank) == Number(3)
    case _ => false
  }

  /** An evidence card names its card and claim; anything else names supporting evidence. */
  predicate IsSupported(p: Payload)
  {
    if Field(p, ArtifactType) == Str("evidence_card")
    then Field(p, EvidenceCardId).Uuid? && Field(p, CanonicalClaimId).Uuid?
    else Field(p, SupportingEvidenceIds) != Strs([])
  }

  /** Reviewed, approved, of known contradiction status and sufficient confidence, with structured text. */
  predicate IsReviewed(p: Payload)
  {
    && Field(p, SchemaVersion) == Str("qdrant-0.2") && Field(p, Key.ReviewStatus) == Status(Ingested)
    && IsMark(p, ClaimEligibility) && IsMark(p, StoragePermission) && IsMark(p, ApprovedMark)
    && Field(p, ConfidenceLabel) != Str("insufficient") && Field(p, ContradictionStatus) != Str("not_checked")
    && RankFits(p) && IsSupported(p)
    && Field(p, BodyText).Str? && "Knowledge type:" <= Field(p, BodyText).text
  }

  /** The bindings to a manifest, and fields of other programs. */
  predicate IsStrange(k: Key)
  {
    k in {CorpusId, StorageManifestId, ManifestHashKey, PayloadChecksum, BootstrapMark, HumanVerified, Foreign}
  }

  /** The lists of which validation drops repetitions. */
  predicate IsIdList(k: Key)
  {
    k in {OntologyPaths, SupportingEvidenceIds, ContradictingEvidenceIds, EntityIds, RelationshipIds,
          ClaimReviewItemIds}
  }

  /** No id and no path twice, and every path in its one spelling. */
  predicate HasPlainLists(p: Payload)
  {
    forall k :: k in p && p[k].Strs? && IsIdList(k) ==>
      NoRepeats(p[k].items) && (k == OntologyPaths ==> PathNames.AllCanonical(p[k].items))
  }

  lemma IdListDecided(k: Key)
    ensures IsRewritten(k) <==> IsIdList(k)
  {
  }

  lemma StrangeDecided(k: Key)
    ensures IsProjectionKey(k) <==> !IsStrange(k)
  {
  }

  lemma PlainListDecided(k: Key, items: seq<string>)
    requires IsIdList(k) && (k == OntologyPaths ==> PathNames.AllCanonical(items))
    ensures NormalValue(k, Strs(items)) == Strs(items) <==> NoRepeats(items)
  {
    hide PathNames.NormalPaths, PathNames.AllCanonical, Firsts;
    IdListDecided(k);
    FirstsFacts(items);
    if NoRepeats(items) {
      FirstsFixed(items);
    }
    if k == OntologyPaths {
      PathNames.CanonicalPathsAreFixed(items);
    }
  }

  lemma NormalFormDecided(p: Payload)
    ensures InNormalForm(p) <==> HasPlainLists(p)
  {
    hide NormalValue, PathNames.AllCanonical, IsIdList, NoRepeats, IsRewritten;
    forall k | k in p ensures IsRewritten(k) <==> IsIdList(k) {
      IdListDecided(k);
    }
    assert IsIdList(OntologyPaths) by { PathsAreIds(); }
    forall k | k in p && (PlainPaths(p) || !(p[k].Strs? && k == OntologyPaths))
      ensures NormalValue(k, p[k]) == p[k] <==> (p[k].Strs? && IsIdList(k) ==> NoRepeats(p[k].items))
    {
      if p[k].Strs? && IsIdList(k) {
        PlainListDecided(k, p[k].items);
      } else {
        OtherIsNormal(k, p[k]);
      }
    }
  }

  lemma PathsAreIds()
    ensures IsIdList(OntologyPaths)
  {
  }

  lemma OtherIsNormal(k: Key, v: Value)
    requires !v.Strs? || !IsIdList(k)
    ensures NormalValue(k, v) == v
  {
    IdListDecided(k);
  }

  /** What may be stored: every field of a projection and no other, plain lists, and reviewed. */
  lemma StorableDecided(p: Payload)
    ensures ValidProjection(p) <==> WellTyped(p) && HasPlainLists(p) && IsReviewed(p)
    ensures WellTyped(p) ==> forall k :: k in p <==> !IsStrange(k)
  {
    hide InNormalForm, HasPlainLists, IsStrange;
    NormalFormDecided(p);
    forall k ensures IsProjectionKey(k) <==> !IsStrange(k) {
      StrangeDecided(k);
    }
    if WellTyped(p) {
      ReviewDecided(p);
    }
  }

  lemma ReviewDecided(p: Payload)
    requires WellTyped(p)
    ensures IsReviewed(p) <==>
      && p[SchemaVersion] == Str(PROJECTION_SCHEMA)
      && p[ClaimEligibility] == p[StoragePermission] == p[ApprovedMark] == Flag(true)
      && p[Key.ReviewStatus] == Status(Ingested)
      && p[SecretExposureRank].number == RankOf(p[SecretExposureLevel].exposure)
      && p[ConfidenceLabel] != Str("insufficient")
      && p[ContradictionStatus] != Str("not_checked")
      && (if p[ArtifactType] == Str("evidence_card")
          then p[EvidenceCardId].Uuid? && p[CanonicalClaimId].Uuid?
          else p[SupportingEvidenceIds].items != [])
      && "Knowledge type:" <= p[BodyText].text
  {
    RankDecided(p);
    SupportDecided(p);
    hide RankFits, IsSupported, RankOf, WellTyped, Field;
    FieldIs(p, SchemaVersion);
    FieldIs(p, Key.ReviewStatus);
    FieldIs(p, ClaimEligibility);
    FieldIs(p, StoragePermission);
    FieldIs(p, ApprovedMark);
    FieldIs(p, ConfidenceLabel);
    FieldIs(p, ContradictionStatus);
    FieldIs(p, BodyText);
    TextIsText(p);
  }

  lemma FieldIs(p: Payload, k: Key)
    requires WellTyped(p) && IsProjectionKey(k)
    ensures k in p && Field(p, k) == p[k]
  {
  }

  lemma TextIsText(p: Payload)
    requires WellTyped(p)
    ensures Field(p, BodyText).Str?
  {
    FieldIs(p, BodyText);
  }

  lemma RankDecided(p: Payload)
    requires WellTyped(p)
    ensures RankFits(p) <==> p[SecretExposureRank].number == RankOf(p[SecretExposureLevel].exposure)
  {
    assert SecretExposureLevel in p && SecretExposureRank in p;
    assert p[SecretExposureRank] == Number(p[SecretExposureRank].number);
  }

  lemma SupportDecided(p: Payload)
    requires WellTyped(p)
    ensures IsSupported(p) <==>
      if p[ArtifactType] == Str("evidence_card") then p[EvidenceCardId].Uuid? && p[CanonicalClaimId].Uuid?
      else p[SupportingEvidenceIds].items != []
  {
    assert ArtifactType in p && EvidenceCardId in p && CanonicalClaimId in p && SupportingEvidenceIds in p;
    assert p[SupportingEvidenceIds] == Strs(p[SupportingEvidenceIds].items);
  }

  // ----- Building -----

  /** The input without the identity and expectations its caller may hand over. */
  function Bare(x: ManifestInput): ManifestInput
  {
    x.(id := None, hash := None, expectedPointIds := [], expectedPointCount := 0)
  }

  /** What every manifest needs. */
  ghost predicate MayBuild(x: ManifestInput)
  {
    && x.projections != [] && (forall p :: p in x.projections ==> ValidProjection(p))
    && x.schema == "qdrant-0.2" && x.rules != map[]
    && (forall i, j :: 0 <= i < j < |x.projections| ==> PointOf(x.projections[i]) != PointOf(x.projections[j]))
    && (x.authorization.Some? <==> x.status == Authorized || x.status == IngestedManifest)
  }

  /** Whatever its caller expects of the manifest is so. */
  predicate MeetsExpectations(x: ManifestInput, m: Manifest)
  {
    && (x.hash.None? || x.hash == Some(m.hash)) && (x.id.None? || x.id == Some(m.id))
    && (x.expectedPointIds == [] || x.expectedPointIds == m.PointIds())
    && (x.expectedPointCount == 0 || x.expectedPointCount == |m.projections|)
  }

  /** The digest covers corpus, rules, levels, collection, and of every point its checksum and artifact. */
  predicate IsDigest(m: Manifest)
  {
    var data := m.hash.data;
    && data.corpusId == m.corpusId && data.rules == m.rules && data.levels == m.levels
    && data.collectionName == m.collectionName && |data.entries| == |m.projections|
    && forall i :: 0 <= i < |m.projections| ==>
         data.entries[i] == Entry(PointOf(m.projections[i]), Checksum(m.projections[i]),
                                  Field(m.projections[i], ArtifactId), Field(m.projections[i], ArtifactVersion))
  }

  /** The projections in increasing point order, under their digest, with everything else as handed over. */
  ghost predicate IsManifestOf(x: ManifestInput, m: Manifest)
  {
    && multiset(m.projections) == multiset(x.projections)
    && (forall i, j :: 0 <= i < j < |m.projections| ==> PointOf(m.projections[i]) < PointOf(m.projections[j]))
    && IsDigest(m) && m.id == ManifestId(m.hash)
    && m.corpusId == x.corpusId && m.rules == x.rules && m.levels == x.levels
    && m.collectionName == x.collectionName && m.status == x.status && m.authorization == x.authorization
  }

  lemma DistinctPoints(ps: seq<Payload>)
    ensures NoRepeats(Ids(ps)) <==> forall i, j :: 0 <= i < j < |ps| ==> PointOf(ps[i]) != PointOf(ps[j])
  {
    assert forall i :: 0 <= i < |ps| ==> Ids(ps)[i] == PointOf(ps[i]);
  }

  lemma SameDistinctness(ps: seq<Payload>)
    ensures NoRepeats(Ids(Canonical(ps))) <==> NoRepeats(Ids(ps))
  {
    hide Canonical, Ids;
    CanonicalOrder(ps);
    SameIds(ps, Canonical(ps));
    CountElements(Ids(ps));
    CountElements(Ids(Canonical(ps)));
  }

  lemma SameIds(ps: seq<Payload>, qs: seq<Payload>)
    requires multiset(ps) == multiset(qs)
    ensures |ps| == |qs| && Elements(Ids(ps)) == Elements(Ids(qs))
  {
    hide PointOf;
    assert |ps| == |multiset(ps)| == |multiset(qs)| == |qs|;
    IdsWithin(ps, qs);
    IdsWithin(qs, ps);
  }

  lemma IdsWithin(ps: seq<Payload>, qs: seq<Payload>)
    requires multiset(ps) == multiset(qs)
    ensures Elements(Ids(ps)) <= Elements(Ids(qs))
  {
    hide PointOf;
    SameMembers(ps, qs);
    forall id | id in Elements(Ids(ps)) ensures id in Elements(Ids(qs)) {
      var i :| 0 <= i < |ps| && Ids(ps)[i] == id;
      assert ps[i] in qs;
      var j :| 0 <= j < |qs| && qs[j] == ps[i];
      assert Ids(qs)[j] == id;
    }
  }

  /** A manifest is built exactly if it may be and meets what is expected of it. */
  lemma BuildDecided(x: ManifestInput)
    ensures Build(Bare(x)).Success? <==> MayBuild(x)
    ensures Build(x).Success? <==> MayBuild(x) && MeetsExpectations(x, Build(Bare(x)).value)
    ensures Build(x).Success? ==> Build(x) == Build(Bare(x)) && IsManifestOf(x, Build(x).value)
  {
    hide Canonical, Ids, ValidProjection, PointOf, Entries;
    var ps := Canonical(x.projections);
    CanonicalOrder(x.projections);
    SameDistinctness(x.projections);
    DistinctPoints(x.projections);
    SameMembers(ps, x.projections);
    SameIds(ps, x.projections);
    if Build(x).Success? {
      ManifestIs(x);
    }
  }

  lemma ManifestIs(x: ManifestInput)
    requires Build(x).Success?
    ensures IsManifestOf(x, Build(x).value)
  {
    hide Canonical, ValidProjection, PointOf;
    BuildIsOrdered(x);
    DistinctMeansStrict(Build(x).value.projections);
  }

  // ----- Authorising and ingesting -----

  /** A pending manifest is authorised by a named human with a reason, and nobody else. */
  lemma AuthorizeDecided(m: Manifest, authorizer: string, reason: string)
    requires ValidManifest(m)
    ensures var r := Authorize(m, authorizer, reason);
      && (r.Success? <==> m.status == PendingManifest && NamesHuman(authorizer) && !Text.Blank(reason))
      && (r.Success? ==>
            r.value == m.(status := Authorized,
                          authorization := Some(Authorization(Text.Strip(authorizer), Text.Strip(reason)))))
  {
    hide HumanIdentity, NamesHuman, Build;
    HumanDecided(authorizer);
    Text.BlankIsEmpty(reason);
    if NamesHuman(authorizer) {
      Restatus(m, Authorized, Some(Authorization(Text.Strip(authorizer), Text.Strip(reason))));
    }
  }

  /** Only an authorised manifest is marked ingested, and only with a receipt for exactly its points. */
  lemma MarkDecided(m: Manifest, receipt: Receipt)
    requires ValidManifest(m)
    ensures var r := MarkIngested(m, receipt);
      && (r.Success? <==>
            && (m.status == Authorized || m.status == IngestedManifest) && m.authorization.Some?
            && receipt.manifestId == m.id && receipt.manifestHash == m.hash && receipt.corpusId == m.corpusId
            && |receipt.pointIds| == |m.projections|
            && forall i :: 0 <= i < |m.projections| ==> receipt.pointIds[i] == PointOf(m.projections[i]))
      && (r.Success? ==> r.value == m.(status := IngestedManifest))
  {
    hide Build, PointOf;
    MarkIngestedKeepsIdentity(m, receipt);
    assert forall i :: 0 <= i < |m.projections| ==> m.PointIds()[i] == PointOf(m.projections[i]);
  }
}
