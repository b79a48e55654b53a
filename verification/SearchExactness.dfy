/**
 Reading a published manifest. The store-side filter, the client-side rechecks and a reference
 definition on projection contents agree on every published point, so search answers exactly
 the best eligible points; on any other answer it fails closed.
 */
module SearchExactness {
  import opened Wrappers
  import opened Sequences
  import opened Vocabulary
  import opened Projections
  import opened VectorStore
  import opened Governance
  import opened StoredPoints
  import opened Publication
  import opened Recovery
  import PathNames
  import Text

  // ----- Reference: who may read which projection -----

  /** The caller is cleared for the projection's sensitivity and exposure. */
  predicate Readable(p: Payload, caller: Caller)
  {
    && Field(p, SensitiveInformationLevel).Level? && Field(p, SensitiveInformationLevel).level in caller.levels
    && Field(p, SecretExposureRank).Number? && Field(p, SecretExposureRank).number <= caller.clearance
  }

  /** Every list of values that is not empty shares one with the field it is about. */
  predicate AsksFor(p: Payload, f: SearchFilter)
  {
    && (f.knowledgeTypes != [] ==> Intersects(Field(p, KnowledgeType), f.knowledgeTypes))
    && (f.domains != [] ==> Intersects(Field(p, Domain), f.domains))
    && (f.ontologyPaths != [] ==> Intersects(Field(p, OntologyPaths), f.ontologyPaths))
    && (f.knowledgeOrigins != [] ==> Intersects(Field(p, KnowledgeOrigin), f.knowledgeOrigins))
    && (f.evidenceLevels != [] ==> Intersects(Field(p, EvidenceLevel), f.evidenceLevels))
    && (f.entityIds != [] ==> Intersects(Field(p, EntityIds), f.entityIds))
    && (f.entityTypes != [] ==> Intersects(Field(p, EntityTypes), f.entityTypes))
    && (f.relationTypes != [] ==> Intersects(Field(p, RelationTypes), f.relationTypes))
  }

  predicate Wanted(p: Payload, filters: Option<SearchFilter>)
  {
    filters.Some? ==> AsksFor(p, filters.value)
  }

  function Eligible(m: Manifest, caller: Caller, filters: Option<SearchFilter>): set<PointId>
  {
    set id | id in Index(m.projections)
             && Readable(Index(m.projections)[id], caller) && Wanted(Index(m.projections)[id], filters)
  }

  // ----- One stored point -----

  lemma FieldOfCarried(payload: Payload, k: Key)
    requires ValidProjection(Carried(payload)) && IsProjectionKey(k) && k != Key.ReviewStatus
    requires !IsOptional(k) && !IsRewritten(k)
    ensures k in payload && Field(payload, k) == Field(Carried(payload), k)
  {
    CarriedField(payload, k);
    assert IsProjectionKey(k) <==> k in Carried(payload);
  }

  predicate IsFilterKey(k: Key)
  {
    match k
    case KnowledgeType | Domain | OntologyPaths | KnowledgeOrigin | EvidenceLevel => true
    case EntityIds | EntityTypes | RelationTypes => true
    case _ => false
  }

  lemma AnyOfIsIntersects(payload: Payload, k: Key, xs: seq<string>)
    requires k in payload ==> payload[k].Str? || payload[k].Strs?
    ensures Holds(AnyOf(k, AsStrings(xs)), payload) <==> Intersects(Field(payload, k), xs)
  {
    var vs := AsStrings(xs);
    if k in payload && Intersects(payload[k], xs) {
      var x :| x in xs && (payload[k] == Str(x) || (payload[k].Strs? && x in payload[k].items));
      var i :| 0 <= i < |xs| && xs[i] == x;
      assert vs[i] == Str(x) && vs[i] in vs;
    }
    if Holds(AnyOf(k, vs), payload) {
      var v :| v in vs && ValueMatches(payload[k], v);
      var i :| 0 <= i < |vs| && vs[i] == v;
      assert v == Str(xs[i]);
    }
  }

  /** A filter field answers alike in the store and in the recheck. */
  lemma FilterFieldAgrees(payload: Payload, k: Key, xs: seq<string>)
    requires ValidProjection(Carried(payload)) && IsFilterKey(k)
    ensures Holds(AnyOf(k, AsStrings(xs)), payload) <==> Intersects(Field(payload, k), xs)
  {
    hide Holds, Carried, AsStrings, ValidProjection, NormalValue;
    FilterFieldIsText(payload, k);
    AnyOfIsIntersects(payload, k, xs);
  }

  lemma CarriedFilterField(p: Payload, k: Key)
    requires ValidProjection(p) && IsFilterKey(k)
    ensures k in p && (p[k].Str? || p[k].Strs?) && (IsOptional(k) || k == OntologyPaths ==> p[k].Strs?)
  {
    assert IsProjectionKey(k) <==> k in p;
  }

  lemma FilterFieldIsText(payload: Payload, k: Key)
    requires ValidProjection(Carried(payload)) && IsFilterKey(k)
    ensures k in payload ==> payload[k].Str? || payload[k].Strs?
    ensures k !in payload ==> IsOptional(k) && Field(payload, k) == Null && Field(Carried(payload), k) == Strs([])
    ensures k in payload ==> Field(Carried(payload), k) == NormalValue(k, payload[k])
  {
    hide ValidProjection, Carried;
    CarriedField(payload, k);
    CarriedFilterField(Carried(payload), k);
  }

  /** No value of the field is spelled in another way than the projection spells it. */
  predicate FieldIsPlain(payload: Payload, k: Key)
  {
    k == OntologyPaths ==> PlainPaths(payload)
  }

  /** Where paths are spelled canonically the stored field and the projection's answer alike. */
  lemma PlainFieldAgrees(payload: Payload, k: Key, xs: seq<string>)
    requires ValidProjection(Carried(payload)) && IsFilterKey(k) && FieldIsPlain(payload, k)
    ensures Intersects(Field(payload, k), xs) <==> Intersects(Field(Carried(payload), k), xs)
  {
    hide ValidProjection, Carried, PathNames.NormalPaths, PathNames.AllCanonical, Firsts;
    FilterFieldIsText(payload, k);
    if k in payload && payload[k].Strs? && IsRewritten(k) {
      FirstsFacts(payload[k].items);
      if k == OntologyPaths {
        PathNames.CanonicalPathsAreFixed(payload[k].items);
      }
    }
  }

  /** Values that are canonical paths, or no paths at all. */
  predicate CanonicalValues(k: Key, xs: seq<string>)
  {
    k == OntologyPaths ==> PathNames.AllCanonical(xs)
  }

  /** Asked for in canonical spelling, what matches the stored field matches the projection's. */
  lemma CanonicalFieldMatches(payload: Payload, k: Key, xs: seq<string>)
    requires ValidProjection(Carried(payload)) && IsFilterKey(k) && CanonicalValues(k, xs)
    requires Intersects(Field(payload, k), xs)
    ensures Intersects(Field(Carried(payload), k), xs)
  {
    hide ValidProjection, Carried, PathNames.NormalPaths, PathNames.NormalPath, Firsts;
    FilterFieldIsText(payload, k);
    CarriedFilterField(Carried(payload), k);
    if k == OntologyPaths {
      var items := payload[k].items;
      var x :| x in items && x in xs;
      if PathNames.NormalPaths(items).Some? {
        CanonicalStays(items, x);
      }
    } else if payload[k].Strs? && IsRewritten(k) {
      FirstsFacts(payload[k].items);
    }
  }

  lemma CanonicalStays(items: seq<string>, x: string)
    requires PathNames.NormalPaths(items).Some? && x in items && PathNames.Canonical(x)
    ensures x in PathNames.NormalPaths(items).value
  {
    hide PathNames.NormalPath, Firsts;
    var normal := seq(|items|, i requires 0 <= i < |items| => PathNames.NormalPath(items[i]).value);
    var i :| 0 <= i < |items| && items[i] == x;
    assert normal[i] == x;
    FirstsFacts(normal);
  }

  lemma {:induction false} ConditionsHold(fields: seq<(Key, seq<string>)>, payload: Payload)
    ensures AllHold(FilterConditions(fields), payload) <==>
      forall i :: 0 <= i < |fields| && fields[i].1 != [] ==> Holds(AnyOf(fields[i].0, AsStrings(fields[i].1)), payload)
  {
    hide Holds;
    if fields != [] {
      ConditionsHold(fields[1..], payload);
      var first := if fields[0].1 == [] then [] else [AnyOf(fields[0].0, AsStrings(fields[0].1))];
      AllHoldConcat(first, FilterConditions(fields[1..]), payload);
      assert forall i :: 0 < i < |fields| ==> fields[i] == fields[1..][i - 1];
      assert forall i :: 0 <= i < |fields| - 1 ==> fields[1..][i] == fields[i + 1];
    }
  }

  lemma AllHoldConcat(a: seq<Condition>, b: seq<Condition>, payload: Payload)
    ensures AllHold(a + b, payload) <==> AllHold(a, payload) && AllHold(b, payload)
  {
    hide Holds;
    forall i | 0 <= i < |b| ensures (a + b)[|a| + i] == b[i] {
    }
    if AllHold(a + b, payload) {
      forall i | 0 <= i < |a| ensures Holds(a[i], payload) {
        assert (a + b)[i] == a[i];
      }
      forall i | 0 <= i < |b| ensures Holds(b[i], payload) {
        assert (a + b)[|a| + i] == b[i];
      }
    }
  }

  /** Every path the caller asks for has its canonical spelling. */
  predicate CanonicalFilter(f: SearchFilter)
  {
    PathNames.AllCanonical(f.ontologyPaths)
  }

  /** What is stored is spelled as the projection spells it, as far as the filter can see. */
  predicate Spelled(payload: Payload, filters: Option<SearchFilter>)
  {
    filters.Some? && filters.value.ontologyPaths != [] ==> PlainPaths(payload)
  }

  /** The recheck asks each field for its own values. */
  lemma MatchingIsAsking(payload: Payload, f: SearchFilter)
    ensures MatchesFilters(payload, f) <==> AsksFor(payload, f)
  {
    hide Intersects, Field;
    var fields := ValuesByField(f);
    assert |fields| == 8;
    assert MatchesFilters(payload, f) <==>
      forall i :: 0 <= i < |fields| && fields[i].1 != [] ==> Intersects(Field(payload, fields[i].0), fields[i].1);
    assert fields[0] == (KnowledgeType, f.knowledgeTypes) && fields[1] == (Domain, f.domains);
    assert fields[2] == (OntologyPaths, f.ontologyPaths) && fields[3] == (KnowledgeOrigin, f.knowledgeOrigins);
    assert fields[4] == (EvidenceLevel, f.evidenceLevels) && fields[5] == (EntityIds, f.entityIds);
    assert fields[6] == (EntityTypes, f.entityTypes) && fields[7] == (RelationTypes, f.relationTypes);
  }

  /** The caller's filters ask the same in the store, in the recheck and in terms of the fields. */
  lemma FiltersAgree(payload: Payload, f: SearchFilter)
    requires ValidProjection(Carried(payload))
    ensures AllHold(FilterConditions(ValuesByField(f)), payload) <==> AsksFor(payload, f)
    ensures MatchesFilters(payload, f) <==> AsksFor(payload, f)
  {
    hide ValidProjection, Carried, Holds, Intersects, AsksFor;
    MatchingIsAsking(payload, f);
    ConditionsHold(ValuesByField(f), payload);
    forall i | 0 <= i < |ValuesByField(f)|
      ensures Holds(AnyOf(ValuesByField(f)[i].0, AsStrings(ValuesByField(f)[i].1)), payload)
         <==> Intersects(Field(payload, ValuesByField(f)[i].0), ValuesByField(f)[i].1)
    {
      FilterFieldAgrees(payload, ValuesByField(f)[i].0, ValuesByField(f)[i].1);
    }
  }

  /** They ask the same of the projection wherever the stored paths are spelled canonically. */
  lemma PlainFiltersAgree(payload: Payload, f: SearchFilter)
    requires ValidProjection(Carried(payload)) && Spelled(payload, Some(f))
    ensures AsksFor(payload, f) <==> AsksFor(Carried(payload), f)
  {
    hide ValidProjection, Carried, Intersects, PlainPaths;
    PlainFieldAgrees(payload, KnowledgeType, f.knowledgeTypes);
    PlainFieldAgrees(payload, Domain, f.domains);
    if f.ontologyPaths != [] {
      PlainFieldAgrees(payload, OntologyPaths, f.ontologyPaths);
    }
    PlainFieldAgrees(payload, KnowledgeOrigin, f.knowledgeOrigins);
    PlainFieldAgrees(payload, EvidenceLevel, f.evidenceLevels);
    PlainFieldAgrees(payload, EntityIds, f.entityIds);
    PlainFieldAgrees(payload, EntityTypes, f.entityTypes);
    PlainFieldAgrees(payload, RelationTypes, f.relationTypes);
  }

  /** Asked in canonical spelling, whatever matches as stored matches as a projection. */
  lemma CanonicalFilterMatches(payload: Payload, f: SearchFilter)
    requires ValidProjection(Carried(payload)) && CanonicalFilter(f) && AsksFor(payload, f)
    ensures AsksFor(Carried(payload), f)
  {
    hide ValidProjection, Carried, Intersects, PathNames.AllCanonical;
    CanonicalIfAsked(payload, KnowledgeType, f.knowledgeTypes);
    CanonicalIfAsked(payload, Domain, f.domains);
    CanonicalIfAsked(payload, OntologyPaths, f.ontologyPaths);
    CanonicalIfAsked(payload, KnowledgeOrigin, f.knowledgeOrigins);
    CanonicalIfAsked(payload, EvidenceLevel, f.evidenceLevels);
    CanonicalIfAsked(payload, EntityIds, f.entityIds);
    CanonicalIfAsked(payload, EntityTypes, f.entityTypes);
    CanonicalIfAsked(payload, RelationTypes, f.relationTypes);
  }

  lemma CanonicalIfAsked(payload: Payload, k: Key, xs: seq<string>)
    requires ValidProjection(Carried(payload)) && IsFilterKey(k) && CanonicalValues(k, xs)
    requires xs != [] ==> Intersects(Field(payload, k), xs)
    ensures xs != [] ==> Intersects(Field(Carried(payload), k), xs)
  {
    hide *;
    if xs != [] {
      CanonicalFieldMatches(payload, k, xs);
    }
  }

  /** The filter that asks for one path and nothing else. */
  function PathFilter(path: string): SearchFilter
  {
    SearchFilter([], [], [path], [], [], [], [], [])
  }

  lemma PathFilterMeans(payload: Payload, path: string)
    ensures AsksFor(payload, PathFilter(path)) <==> Intersects(Field(payload, OntologyPaths), [path])
  {
    hide Intersects;
  }

  lemma ValidHasPlainPaths(p: Payload)
    requires ValidProjection(p)
    ensures OntologyPaths in p && p[OntologyPaths].Strs? && PathNames.AllCanonical(p[OntologyPaths].items)
  {
    hide NormalValue, PathNames.AllCanonical;
    assert OntologyPaths in p;
  }

  lemma StoredPathsAreText(payload: Payload)
    requires ValidProjection(Carried(payload))
    ensures OntologyPaths in payload && payload[OntologyPaths].Strs?
    ensures PathNames.NormalPaths(payload[OntologyPaths].items).Some?
    ensures Field(Carried(payload), OntologyPaths) == Strs(PathNames.NormalPaths(payload[OntologyPaths].items).value)
  {
    hide Carried, ValidProjection, PathNames.NormalPaths, PathNames.AllCanonical, Firsts;
    FilterFieldIsText(payload, OntologyPaths);
    ValidHasPlainPaths(Carried(payload));
    var items := payload[OntologyPaths].items;
    if PathNames.NormalPaths(items).None? {
      PathNames.CanonicalPathsAreFixed(items);
    }
  }

  /** Filters mean the same on the payload and on its projection exactly when its paths are canonical. */
  lemma PlainPathsDecided(payload: Payload)
    requires ValidProjection(Carried(payload))
    ensures PlainPaths(payload) <==>
              forall f :: AsksFor(payload, f) == AsksFor(Carried(payload), f)
  {
    hide ValidProjection, Carried, AsksFor, PathNames.NormalPaths, PathNames.Canonical;
    if PlainPaths(payload) {
      forall f ensures AsksFor(payload, f) == AsksFor(Carried(payload), f) {
        PlainFiltersAgree(payload, f);
      }
    }
    StoredPathsAreText(payload);
    var items := payload[OntologyPaths].items;
    var normal := PathNames.NormalPaths(items).value;
    PathNames.NormalPathsAreCanonical(items);
    if forall f :: AsksFor(payload, f) == AsksFor(Carried(payload), f) {
      forall x | x in items ensures PathNames.Canonical(x) {
        PathFilterMeans(payload, x);
        PathFilterMeans(Carried(payload), x);
        assert AsksFor(payload, PathFilter(x)) == AsksFor(Carried(payload), PathFilter(x));
        assert x in [x];
        assert x in normal;
      }
    }
  }

  lemma LevelsAgree(payload: Payload, levels: seq<Sensitivity>)
    requires SensitiveInformationLevel in payload && payload[SensitiveInformationLevel].Level?
    ensures Holds(AnyOf(SensitiveInformationLevel, AsLevels(levels)), payload)
       <==> payload[SensitiveInformationLevel].level in levels
  {
    var vs, v := AsLevels(levels), payload[SensitiveInformationLevel];
    if v.level in levels {
      var i :| 0 <= i < |levels| && levels[i] == v.level;
      assert vs[i] == v && vs[i] in vs;
    }
    if Holds(AnyOf(SensitiveInformationLevel, vs), payload) {
      var w :| w in vs && ValueMatches(v, w);
      var i :| 0 <= i < |vs| && vs[i] == w;
      assert w == Level(levels[i]);
    }
  }

  lemma ValidIsTyped(p: Payload)
    requires ValidProjection(p)
    ensures SensitiveInformationLevel in p && p[SensitiveInformationLevel].Level?
    ensures SecretExposureRank in p && p[SecretExposureRank].Number?
    ensures ConfidenceLabel in p && p[ConfidenceLabel].Str? && p[ConfidenceLabel] != Str("insufficient")
  {
    hide InNormalForm;
    assert SensitiveInformationLevel in p && SecretExposureRank in p && ConfidenceLabel in p;
  }

  lemma CarriedIsTyped(payload: Payload)
    requires ValidProjection(Carried(payload))
    ensures Field(Carried(payload), SensitiveInformationLevel).Level?
    ensures Field(Carried(payload), SecretExposureRank).Number?
    ensures Field(Carried(payload), ConfidenceLabel).Str?
    ensures Field(Carried(payload), ConfidenceLabel) != Str("insufficient")
  {
    hide ValidProjection, Carried;
    ValidIsTyped(Carried(payload));
  }

  lemma ClearanceFields(payload: Payload)
    requires ValidProjection(Carried(payload))
    ensures SensitiveInformationLevel in payload && payload[SensitiveInformationLevel].Level?
    ensures SecretExposureRank in payload && payload[SecretExposureRank].Number?
    ensures payload[SensitiveInformationLevel] == Field(Carried(payload), SensitiveInformationLevel)
    ensures payload[SecretExposureRank] == Field(Carried(payload), SecretExposureRank)
    ensures ConfidenceLabel in payload && payload[ConfidenceLabel].Str?
    ensures payload[ConfidenceLabel] != Str("insufficient")
  {
    hide ValidProjection, Carried;
    FieldOfCarried(payload, SensitiveInformationLevel);
    FieldOfCarried(payload, SecretExposureRank);
    FieldOfCarried(payload, ConfidenceLabel);
    CarriedIsTyped(payload);
  }

  /** Clearance: the two filter conditions, the recheck and the reference agree. */
  lemma ClearanceAgrees(payload: Payload, caller: Caller)
    requires ValidProjection(Carried(payload))
    ensures ClearanceHolds(payload, caller) <==> Readable(Carried(payload), caller)
    ensures VisibleTo(payload, caller) <==> Readable(Carried(payload), caller)
    ensures !Holds(Equals(ConfidenceLabel, Str("insufficient")), payload)
  {
    hide ValidProjection, Carried, AsLevels;
    ClearanceFields(payload);
    LevelsAgree(payload, caller.levels);
  }

  predicate ClearanceHolds(payload: Payload, caller: Caller)
  {
    Holds(AnyOf(SensitiveInformationLevel, AsLevels(caller.levels)), payload)
    && Holds(AtMost(SecretExposureRank, caller.clearance), payload)
  }

  lemma IdentityHolds(id: PointId, payload: Payload, checksum: Value, identity: Identity)
    requires NamesManifest(id, payload, checksum, identity, Ingested) && ProductionGoverned(payload, identity)
    ensures AllHold(ReadinessConditions(identity), payload)
  {
  }

  lemma FilterSplits(payload: Payload, caller: Caller, filters: Option<SearchFilter>, identity: Identity)
    ensures Matches(BuildFilter(filters, caller, identity), payload) <==>
      && AllHold(ReadinessConditions(identity), payload)
      && ClearanceHolds(payload, caller)
      && (filters.Some? ==> AllHold(FilterConditions(ValuesByField(filters.value)), payload))
      && !Holds(Equals(ConfidenceLabel, Str("insufficient")), payload)
  {
    hide Holds, ReadinessConditions, ValuesByField, FilterConditions, AsLevels;
    var must := ReadinessConditions(identity);
    var clear := [AnyOf(SensitiveInformationLevel, AsLevels(caller.levels)),
                  AtMost(SecretExposureRank, caller.clearance)];
    var chosen := if filters.Some? then FilterConditions(ValuesByField(filters.value)) else [];
    AllHoldConcat(must, clear, payload);
    AllHoldConcat(must + clear, chosen, payload);
    var no := BuildFilter(filters, caller, identity).mustNot;
    assert |no| == 1 && no[0] == Equals(ConfidenceLabel, Str("insufficient"));
    assert AllHold(clear, payload) <==> Holds(clear[0], payload) && Holds(clear[1], payload);
  }

  /**
   On an accepted point the filter and the rechecks are the same question; where its paths are spelled
   canonically, or none is asked for, it is the question of the reference too.
   */
  lemma PointAgrees(id: PointId, payload: Payload, p: Payload, caller: Caller,
                    filters: Option<SearchFilter>, identity: Identity)
    requires PointIsValid(id, payload, Checksum(p), identity, Ingested)
    ensures Matches(BuildFilter(filters, caller, identity), payload) <==>
              VisibleTo(payload, caller) && Wanted(payload, filters)
    ensures filters.Some? ==> (MatchesFilters(payload, filters.value) <==> Wanted(payload, filters))
    ensures VisibleTo(payload, caller) <==> Readable(p, caller)
    ensures Spelled(payload, filters) ==> (Wanted(payload, filters) <==> Wanted(p, filters))
    ensures filters.Some? && CanonicalFilter(filters.value) && Wanted(payload, filters) ==> Wanted(p, filters)
  {
    ValidCarries(id, payload, p, identity, Ingested);
    IdentityHolds(id, payload, Checksum(p), identity);
    hide ValidProjection, Carried, Holds, AllHold, Matches, MatchesFilters, AsksFor, VisibleTo, Readable,
      NamesManifest, ProductionGoverned, Spelled, CanonicalFilter;
    ClearanceAgrees(payload, caller);
    FilterSplits(payload, caller, filters, identity);
    if filters.Some? {
      FiltersAgree(payload, filters.value);
      if Spelled(payload, filters) {
        PlainFiltersAgree(payload, filters.value);
      }
      if CanonicalFilter(filters.value) && AsksFor(payload, filters.value) {
        CanonicalFilterMatches(payload, filters.value);
      }
    }
  }

  // ----- Whole collections -----

  /** Every stored point is spelled as its projection, as far as the filter can see. */
  predicate AllSpelled(points: map<PointId, Payload>, filters: Option<SearchFilter>)
  {
    forall id :: id in points ==> Spelled(points[id], filters)
  }

  /** Every stored ontology path has its canonical spelling. */
  predicate PlainStore(points: map<PointId, Payload>)
  {
    forall id :: id in points ==> PlainPaths(points[id])
  }

  lemma PlainIsSpelled(points: map<PointId, Payload>, filters: Option<SearchFilter>)
    requires PlainStore(points)
    ensures AllSpelled(points, filters)
  {
  }

  /** Store-side selection from a published and plainly spelled collection is exactly the eligible projections. */
  lemma FilterSelectsEligible(m: Manifest, points: map<PointId, Payload>, caller: Caller, filters: Option<SearchFilter>)
    requires ValidManifest(m) && Written(points, m, Ingested) && AllSpelled(points, filters)
    ensures Selected(points, BuildFilter(filters, caller, IdentityOf(m))) == Eligible(m, caller, filters)
  {
    hide ValidManifest, Readable, Wanted, Matches, BuildFilter, PointIsValid, Index, VisibleTo, Spelled;
    IndexKeys(m);
    WrittenIsExact(m, points, Ingested);
    forall id | id in points
      ensures Matches(BuildFilter(filters, caller, IdentityOf(m)), points[id])
         <==> Readable(Index(m.projections)[id], caller) && Wanted(Index(m.projections)[id], filters)
    {
      assert IsOwn(m, id, points[id], Ingested) && Spelled(points[id], filters);
      PointAgrees(id, points[id], Index(m.projections)[id], caller, filters, IdentityOf(m));
    }
  }

  /** A caller who may read everything. */
  function Insider(): Caller
  {
    Caller(3, [Public, Controlled, SecretMethod, Restricted], false)
  }

  lemma InsiderReads(p: Payload)
    requires ValidProjection(p)
    ensures Readable(p, Insider())
  {
    hide InNormalForm;
    assert SensitiveInformationLevel in p && SecretExposureRank in p && SecretExposureLevel in p;
    assert p[SecretExposureRank].number == RankOf(p[SecretExposureLevel].exposure) <= 3;
    var level := p[SensitiveInformationLevel].level;
    assert level in [Public, Controlled, SecretMethod, Restricted] by { EveryLevel(level); }
  }

  lemma EveryLevel(level: Sensitivity)
    ensures level in [Public, Controlled, SecretMethod, Restricted]
  {
    var all := [Public, Controlled, SecretMethod, Restricted];
    assert all[0] == Public && all[1] == Controlled && all[2] == SecretMethod && all[3] == Restricted;
  }

  /** Selection is exact for every caller and filter exactly when every stored path is canonical. */
  lemma ExactSelectionDecided(m: Manifest, points: map<PointId, Payload>)
    requires ValidManifest(m) && Written(points, m, Ingested)
    ensures PlainStore(points) <==>
              forall caller, filters ::
                Selected(points, BuildFilter(filters, caller, IdentityOf(m))) == Eligible(m, caller, filters)
  {
    hide ValidManifest, Eligible, Selected, BuildFilter, PointIsValid, Index, PlainPaths;
    if PlainStore(points) {
      forall caller, filters
        ensures Selected(points, BuildFilter(filters, caller, IdentityOf(m))) == Eligible(m, caller, filters)
      {
        PlainIsSpelled(points, filters);
        FilterSelectsEligible(m, points, caller, filters);
      }
    }
    if forall caller, filters ::
        Selected(points, BuildFilter(filters, caller, IdentityOf(m))) == Eligible(m, caller, filters) {
      WrittenIsExact(m, points, Ingested);
      forall id | id in points ensures PlainPaths(points[id]) {
        ExactPointIsPlain(m, points, id);
      }
    }
  }

  lemma ExactPointIsPlain(m: Manifest, points: map<PointId, Payload>, id: PointId)
    requires ValidManifest(m) && id in points && IsOwn(m, id, points[id], Ingested)
    requires forall caller, filters ::
               Selected(points, BuildFilter(filters, caller, IdentityOf(m))) == Eligible(m, caller, filters)
    ensures PlainPaths(points[id])
  {
    hide ValidManifest, MatchesFilters, AsksFor, Matches, BuildFilter, PointIsValid, Index, PlainPaths, Readable,
      VisibleTo;
    IndexKeys(m);
    var p := Index(m.projections)[id];
    ValidCarries(id, points[id], p, IdentityOf(m), Ingested);
    InsiderReads(p);
    forall f ensures AsksFor(points[id], f) == AsksFor(Carried(points[id]), f) {
      PointAgrees(id, points[id], p, Insider(), Some(f), IdentityOf(m));
      assert Selected(points, BuildFilter(Some(f), Insider(), IdentityOf(m))) == Eligible(m, Insider(), Some(f));
      assert id in Selected(points, BuildFilter(Some(f), Insider(), IdentityOf(m))) <==>
             Matches(BuildFilter(Some(f), Insider(), IdentityOf(m)), points[id]);
    }
    PlainPathsDecided(points[id]);
  }

  /** A service reading the manifest `m`. */
  predicate Serves(c: Config, m: Manifest)
  {
    c.active == Some(IdentityOf(m)) && c.activeChecksums == ChecksumsOf(m) && !c.closed
  }

  /** The hits of an answer: what the store returns with ids, scores and payloads. */
  function HitsOf(answer: seq<PointId>, score: map<PointId, real>, points: map<PointId, Payload>): seq<Hit>
    requires forall id :: id in answer ==> id in score && id in points
  {
    seq(|answer|, i requires 0 <= i < |answer| => Hit(answer[i], score[answer[i]], points[answer[i]]))
  }

  lemma {:induction false} AcceptAll(c: Config, caller: Caller, filters: Option<SearchFilter>, identity: Identity,
                                     answer: seq<Hit>)
    requires forall i :: 0 <= i < |answer| ==>
      Recheck(c, caller, filters, identity, answer[i].id, answer[i].payload).None?
    ensures Accept(c, caller, filters, identity, answer) == Success(answer)
  {
    hide Recheck;
    if answer != [] {
      AcceptAll(c, caller, filters, identity, answer[..|answer| - 1]);
      assert answer == answer[..|answer| - 1] + [answer[|answer| - 1]];
    }
  }

  /** Whatever the filter selects from a published collection passes every recheck. */
  lemma SelectedPassesRecheck(c: Config, m: Manifest, points: map<PointId, Payload>, caller: Caller,
                              filters: Option<SearchFilter>, id: PointId)
    requires ValidManifest(m) && Serves(c, m) && Written(points, m, Ingested)
    requires id in Selected(points, BuildFilter(filters, caller, IdentityOf(m)))
    ensures id in points && Recheck(c, caller, filters, IdentityOf(m), id, points[id]).None?
  {
    hide ValidManifest, PointIsValid, VisibleTo, MatchesFilters, AsksFor, Readable, Matches, BuildFilter;
    IndexKeys(m);
    WrittenIsExact(m, points, Ingested);
    assert IsOwn(m, id, points[id], Ingested);
    PointAgrees(id, points[id], Index(m.projections)[id], caller, filters, IdentityOf(m));
  }

  /**
   Publication implies search: over a published manifest, whatever the store answers within its contract
   to the filter the service builds, search raises nothing and returns that answer; where the stored paths
   are spelled canonically, or none is asked for, these are the best eligible points.
   */
  lemma PublishedSearchIsExact(c: Config, m: Manifest, s: Store, query: string, caller: Caller,
                               filters: Option<SearchFilter>, score: map<PointId, real>, limit: nat,
                               answer: seq<PointId>)
    requires ValidManifest(m) && Serves(c, m) && FullyIngested(s, m)
    requires Text.Strip(query) != [] && !caller.bootstrapLimited
    requires s.points.Keys <= score.Keys
    requires BestOf(Selected(s.points, BuildFilter(filters, caller, IdentityOf(m))), score, limit, answer)
    ensures forall id :: id in answer ==> id in score && id in s.points
    ensures Search(c, s.present, query, Some(caller), filters, HitsOf(answer, score, s.points))
         == Success(HitsOf(answer, score, s.points))
    ensures AllSpelled(s.points, filters) ==>
              Eligible(m, caller, filters) <= score.Keys && BestOf(Eligible(m, caller, filters), score, limit, answer)
  {
    hide ValidManifest, BuildFilter, Written, Recheck, Readable, Wanted, Eligible, AllSpelled;
    if AllSpelled(s.points, filters) {
      FilterSelectsEligible(m, s.points, caller, filters);
    }
    var hits := HitsOf(answer, score, s.points);
    forall i | 0 <= i < |hits|
      ensures Recheck(c, caller, filters, IdentityOf(m), hits[i].id, hits[i].payload).None?
    {
      SelectedPassesRecheck(c, m, s.points, caller, filters, answer[i]);
    }
    AcceptAll(c, caller, filters, IdentityOf(m), hits);
    ChecksumsExist(m);
  }

  lemma ChecksumsExist(m: Manifest)
    requires ValidManifest(m)
    ensures ChecksumsOf(m) != map[] && ChecksumsOf(m).Keys == Points(m)
  {
    hide ValidProjection;
    IndexKeys(m);
    assert ChecksumsOf(m).Keys == Index(m.projections).Keys;
  }

  lemma {:induction false} AcceptedWasRechecked(c: Config, caller: Caller, filters: Option<SearchFilter>,
                                                identity: Identity, answer: seq<Hit>, i: nat)
    requires Accept(c, caller, filters, identity, answer).Success? && i < |answer|
    ensures Recheck(c, caller, filters, identity, answer[i].id, answer[i].payload).None?
    ensures Accept(c, caller, filters, identity, answer).value == answer
  {
    hide Recheck;
    var init := answer[..|answer| - 1];
    if i < |init| {
      AcceptedWasRechecked(c, caller, filters, identity, init, i);
    } else if init != [] {
      AcceptedWasRechecked(c, caller, filters, identity, init, 0);
    }
    assert answer == init + [answer[|answer| - 1]];
  }

  /** The hit is a published point of the manifest, readable by the caller, and asked for as it is stored. */
  predicate Entitled(m: Manifest, caller: Caller, filters: Option<SearchFilter>, h: Hit)
  {
    && Bears(m, h.id, h.payload, Ingested)
    && Readable(Index(m.projections)[h.id], caller)
    && Wanted(h.payload, filters)
    && (Spelled(h.payload, filters) || (filters.Some? && CanonicalFilter(filters.value)) ==>
          Wanted(Index(m.projections)[h.id], filters))
  }

  /**
   Fail-closed: whatever the collection holds and whatever the store answers, a search that succeeds
   returns only projections of the served manifest, unaltered but for the spelling of lists, that the
   caller may read and asked for.
   */
  lemma SearchNeverLeaks(c: Config, m: Manifest, present: bool, query: string, caller: Caller,
                         filters: Option<SearchFilter>, answer: seq<Hit>)
    requires ValidManifest(m) && Serves(c, m)
    requires Search(c, present, query, Some(caller), filters, answer).Success?
    ensures forall h :: h in Search(c, present, query, Some(caller), filters, answer).value ==>
              h in answer && Entitled(m, caller, filters, h)
  {
    hide ValidManifest, Entitled, Accept, Recheck;
    var hits := Search(c, present, query, Some(caller), filters, answer).value;
    forall h | h in hits ensures h in answer && Entitled(m, caller, filters, h) {
      assert hits == Accept(c, caller, filters, IdentityOf(m), answer).value;
      if answer == [] {
        AcceptAll(c, caller, filters, IdentityOf(m), answer);
      } else {
        AcceptedWasRechecked(c, caller, filters, IdentityOf(m), answer, 0);
        var i :| 0 <= i < |answer| && answer[i] == h;
        AcceptedWasRechecked(c, caller, filters, IdentityOf(m), answer, i);
        RecheckedIsEntitled(c, m, caller, filters, h);
      }
    }
  }

  lemma RecheckedIsEntitled(c: Config, m: Manifest, caller: Caller, filters: Option<SearchFilter>, h: Hit)
    requires ValidManifest(m) && Serves(c, m)
    requires Recheck(c, caller, filters, IdentityOf(m), h.id, h.payload).None?
    ensures Entitled(m, caller, filters, h)
  {
    hide ValidManifest, PointIsValid, Readable, VisibleTo, MatchesFilters, AsksFor, Spelled, CanonicalFilter, Bears,
      Index, ValidProjection;
    ChecksumsExist(m);
    IndexKeys(m);
    var p := Index(m.projections)[h.id];
    OwnIsBearing(m, h.id, h.payload, Ingested);
    ValidCarries(h.id, h.payload, p, IdentityOf(m), Ingested);
    PointAgrees(h.id, h.payload, p, caller, filters, IdentityOf(m));
  }

  // ----- Respelled paths -----

  /** One stored path list with another spelling of its first path: a space in front. */
  function Respelled(points: map<PointId, Payload>, id: PointId, paths: seq<string>): map<PointId, Payload>
    requires id in points && paths != []
  {
    points[id := points[id][OntologyPaths := Strs([" " + paths[0]] + paths[1..])]]
  }

  lemma SpaceNormalises(paths: seq<string>)
    requires paths != [] && PathNames.AllCanonical(paths) && NoRepeats(paths)
    ensures PathNames.NormalPaths([" " + paths[0]] + paths[1..]) == Some(paths)
    ensures paths[0] !in [" " + paths[0]] + paths[1..]
  {
    hide PathNames.NormalPath, PathNames.AllCanonical, Firsts, Text.Strip;
    var spaced := [" " + paths[0]] + paths[1..];
    SpaceIsStripped(paths[0]);
    forall i | 0 <= i < |paths| ensures PathNames.NormalPath(spaced[i]) == Some(paths[i]) {
      PathNames.AllCanonicalAt(paths, i);
    }
    assert seq(|spaced|, i requires 0 <= i < |spaced| => PathNames.NormalPath(spaced[i]).value) == paths;
    FirstsFixed(paths);
    assert |" " + paths[0]| != |paths[0]|;
    assert forall i :: 0 < i < |paths| ==> paths[i] != paths[0];
  }

  lemma SpaceIsStripped(path: string)
    ensures PathNames.NormalPath(" " + path) == PathNames.NormalPath(path)
  {
    hide Text.JoinWith, Text.SplitAt, PathNames.Slugs;
    Text.StripSpace(path);
  }

  /**
   Such a collection is as published as before: verification, and so a receipt and readiness, accept it.
   But a search for the path by its canonical name misses the point, whoever asks.
   */
  lemma RespelledPathIsMissed(m: Manifest, points: map<PointId, Payload>, id: PointId, paths: seq<string>)
    requires ValidManifest(m) && Written(points, m, Ingested) && id in points && id in Index(m.projections)
    requires paths != [] && Field(Index(m.projections)[id], OntologyPaths) == Strs(paths)
    ensures var altered, filter := Respelled(points, id, paths), Some(PathFilter(paths[0]));
            && Written(altered, m, Ingested)
            && id in Eligible(m, Insider(), filter)
            && forall caller :: id !in Selected(altered, BuildFilter(filter, caller, IdentityOf(m)))
  {
    hide ValidManifest, Index, MatchesFilters, AsksFor, Matches, BuildFilter, PointIsValid, Readable,
      PathNames.NormalPaths, ValidProjection, Respelled, Written;
    var altered, filter := Respelled(points, id, paths), PathFilter(paths[0]);
    IndexKeys(m);
    var p := Index(m.projections)[id];
    RespelledIsWritten(m, points, id, paths);
    InsiderReads(p);
    PathFilterMeans(p, paths[0]);
    assert paths[0] in [paths[0]] && paths[0] in paths;
    forall caller ensures id !in Selected(altered, BuildFilter(Some(filter), caller, IdentityOf(m))) {
      RespelledIsNotSelected(m, points, id, paths, caller);
    }
  }

  lemma RespelledIsOwn(m: Manifest, points: map<PointId, Payload>, id: PointId, paths: seq<string>)
    requires ValidManifest(m) && Written(points, m, Ingested) && id in points && id in Index(m.projections)
    requires paths != [] && Field(Index(m.projections)[id], OntologyPaths) == Strs(paths)
    ensures IsOwn(m, id, Respelled(points, id, paths)[id], Ingested)
    ensures paths[0] !in [" " + paths[0]] + paths[1..]
  {
    hide ValidManifest, Index, PointIsValid, PathNames.NormalPaths, PathNames.AllCanonical, ValidProjection;
    IndexKeys(m);
    WrittenIsExact(m, points, Ingested);
    var p := Index(m.projections)[id];
    assert IsOwn(m, id, points[id], Ingested);
    ProjectionPathsAreNormal(p, paths);
    SpaceNormalises(paths);
    RespellingIsAccepted(id, points[id], p, IdentityOf(m), Ingested, [" " + paths[0]] + paths[1..]);
  }

  lemma RespelledIsWritten(m: Manifest, points: map<PointId, Payload>, id: PointId, paths: seq<string>)
    requires ValidManifest(m) && Written(points, m, Ingested) && id in points && id in Index(m.projections)
    requires paths != [] && Field(Index(m.projections)[id], OntologyPaths) == Strs(paths)
    ensures Written(Respelled(points, id, paths), m, Ingested)
  {
    hide ValidManifest, IsOwn, Written;
    RespelledIsOwn(m, points, id, paths);
    OneRespelled(m, points, Respelled(points, id, paths), id);
  }

  lemma RespelledIsNotSelected(m: Manifest, points: map<PointId, Payload>, id: PointId, paths: seq<string>,
                               caller: Caller)
    requires ValidManifest(m) && Written(points, m, Ingested) && id in points && id in Index(m.projections)
    requires paths != [] && Field(Index(m.projections)[id], OntologyPaths) == Strs(paths)
    ensures id !in Selected(Respelled(points, id, paths),
                            BuildFilter(Some(PathFilter(paths[0])), caller, IdentityOf(m)))
  {
    hide ValidManifest, Written, Index, MatchesFilters, AsksFor, Matches, BuildFilter, PointIsValid, Readable,
      VisibleTo;
    var altered := Respelled(points, id, paths);
    RespelledIsOwn(m, points, id, paths);
    PathFilterMeans(altered[id], paths[0]);
    PointAgrees(id, altered[id], Index(m.projections)[id], caller, Some(PathFilter(paths[0])), IdentityOf(m));
  }

  lemma ProjectionPathsAreNormal(p: Payload, paths: seq<string>)
    requires ValidProjection(p) && Field(p, OntologyPaths) == Strs(paths)
    ensures OntologyPaths in p && PathNames.AllCanonical(paths) && NoRepeats(paths)
  {
    hide WellTyped, PathNames.NormalPaths;
    assert OntologyPaths in p;
    assert NormalValue(OntologyPaths, p[OntologyPaths]) == p[OntologyPaths];
    PathNames.CanonicalPathsAreFixed(paths);
    FirstsFacts(paths);
  }

  lemma OneRespelled(m: Manifest, points: map<PointId, Payload>, altered: map<PointId, Payload>, id: PointId)
    requires Written(points, m, Ingested) && id in points && id in altered
    requires altered == points[id := altered[id]] && IsOwn(m, id, altered[id], Ingested)
    ensures Written(altered, m, Ingested)
  {
    hide IsOwn;
    assert altered.Keys == points.Keys;
    assert |altered| == |altered.Keys| == |points.Keys| == |points|;
  }

  // ----- Readiness -----

  lemma ExpectationIsConsistent(m: Manifest)
    requires ValidManifest(m)
    ensures |m.PointIds()| == |m.projections| && NoRepeats(m.PointIds())
    ensures ChecksumsOf(m).Keys == Elements(m.PointIds())
    ensures forall id :: id in ChecksumsOf(m) ==>
      ChecksumsOf(m)[id].Checksum? && id in Index(m.projections)
      && ChecksumsOf(m)[id] == Checksum(Index(m.projections)[id])
  {
    hide ValidProjection;
    ValidIsCanonical(m);
    ChecksumsExist(m);
  }

  /** Readiness of a service for `m` accepts exactly a published collection with the configured vectors. */
  lemma ReadinessIsPublished(c: Config, m: Manifest, s: Store)
    requires ValidManifest(m) && Serves(c, m)
    ensures Readiness(c, s, m.PointIds(), ChecksumsOf(m), |m.projections|, Some(IdentityOf(m))).None?
       <==> FullyIngested(s, m) && GoodVectors(c, s)
  {
    hide ValidManifest, PointIsValid, ReadinessConditions, Matches, Index, Ids, ChecksumsOf, Selected, IdentityOf,
      NoRepeats;
    ExpectationIsConsistent(m);
    ChecksumsExist(m);
    if FullyIngested(s, m) {
      PublishedMatchesIdentity(m, s.points);
    }
  }

  lemma PublishedMatchesIdentity(m: Manifest, points: map<PointId, Payload>)
    requires ValidManifest(m) && Written(points, m, Ingested)
    ensures |Selected(points, Filter(ReadinessConditions(IdentityOf(m)), []))| == |m.projections|
  {
    hide ValidManifest, NamesManifest, ProductionGoverned, CanonicalChecksum, ReadinessConditions, Holds;
    IndexKeys(m);
    WrittenIsExact(m, points, Ingested);
    var f := Filter(ReadinessConditions(IdentityOf(m)), []);
    forall id | id in points ensures Matches(f, points[id]) {
      assert IsOwn(m, id, points[id], Ingested);
      IdentityHolds(id, points[id], Checksum(Index(m.projections)[id]), IdentityOf(m));
    }
    assert Selected(points, f) == points.Keys;
  }

  /** Readiness accepts what the write leaves. */
  predicate ReadyAfter(c: Config, m: Manifest, actor: string, s: Store)
  {
    var after := Write(c, m, actor, s).1;
    Readiness(c, after, m.PointIds(), ChecksumsOf(m), |m.projections|, Some(IdentityOf(m))).None?
  }

  /**
   A receipt alone does not make a service ready: a write over a collection that is complete already
   never looks at its vectors. With the right vectors it does, and only then.
   */
  lemma ReceiptIsReadyExactly(c: Config, m: Manifest, actor: string, s: Store)
    requires ValidManifest(m) && Serves(c, m) && Write(c, m, actor, s).0.Success?
    ensures ReadyAfter(c, m, actor, s) <==> (s.present ==> GoodVectors(c, s))
  {
    hide ValidManifest, Written, Readiness, Stage, Publish, IdentityOf, ChecksumsOf;
    WriteDecides(c, m, actor, s);
    ReadinessIsPublished(c, m, Write(c, m, actor, s).1);
  }

  lemma WriteOpensWithItsVectors(c: Config, m: Manifest, actor: string, absent: Store)
    requires !absent.present && Write(c, m, actor, absent).0.Success?
    ensures GoodVectors(c, Write(c, m, actor, absent).1)
  {
    hide Written, Stage, Publish, Admission, IsBound;
  }

  /** Such a collection comes about: a service configured for other vectors has written it before. */
  lemma ReceiptWithoutReadiness(c: Config, m: Manifest, actor: string, absent: Store) returns (s: Store)
    requires ValidManifest(m) && Serves(c, m) && Admission(c, m, actor).Success?
    requires !absent.present
    ensures s == Write(c.(dimension := c.dimension + 1), m, actor, absent).1 && FullyIngested(s, m)
    ensures Write(c.(dimension := c.dimension + 1), m, actor, absent).0.Success?
    ensures Write(c, m, actor, s).0.Success?
    ensures !ReadyAfter(c, m, actor, s)
  {
    hide ValidManifest, Written, Readiness, Stage, Publish, IdentityOf, ChecksumsOf, Write;
    var wider := c.(dimension := c.dimension + 1);
    s := Write(wider, m, actor, absent).1;
    WriteDecides(wider, m, actor, absent);
    WriteOpensWithItsVectors(wider, m, actor, absent);
    WriteDecides(c, m, actor, s);
    ReceiptIsReadyExactly(c, m, actor, s);
  }
}
