/**
 What a snapshot merge does, said without its loops: when it succeeds, what it keeps, that the
 counts add up so that no validator can reject it, and that the two inputs may change places.
 */
module SnapshotAccounting {
  import opened Wrappers
  import opened Sequences
  import opened Ordering
  import opened BootstrapSnapshot

  /** No two projections share an id unless they are the same. */
  predicate Agree(ps: seq<Projection>)
  {
    forall p, q :: p in ps && q in ps && p.id == q.id ==> p == q
  }

  lemma InIdSet(ps: seq<Projection>, p: Projection)
    requires p in ps
    ensures p.id in IdSet(ps)
  {
    assert IdOf(p) in IdSet(ps);
  }

  lemma FromIdSet(ps: seq<Projection>, id: PointId) returns (p: Projection)
    requires id in IdSet(ps)
    ensures p in ps && p.id == id
  {
    p :| p in ps && IdOf(p) == id;
  }

  lemma Snoc(ps: seq<Projection>)
    requires ps != []
    ensures ps == ps[..|ps| - 1] + [ps[|ps| - 1]]
    ensures forall q :: q in ps <==> q in ps[..|ps| - 1] || q == ps[|ps| - 1]
  {
  }

  // ----- Conflicts -----

  lemma {:induction false} ConflictDecided(ps: seq<Projection>)
    ensures FirstConflict(ps) == None <==> Agree(ps)
  {
    hide IdSet, Checksums;
    if ps != [] {
      var rest, last := ps[..|ps| - 1], ps[|ps| - 1];
      Snoc(ps);
      ConflictDecided(rest);
      if FirstConflict(rest) == None {
        SameIdSameChecksum(rest, last);
      }
    }
  }

  lemma SameIdSameChecksum(rest: seq<Projection>, last: Projection)
    requires Agree(rest)
    ensures (last.id in IdSet(rest) ==> ChecksumOf(last) in Checksums(rest, last.id)) <==>
            forall q :: q in rest && q.id == last.id ==> q == last
  {
    if last.id in IdSet(rest) {
      var q := FromIdSet(rest, last.id);
      if ChecksumOf(last) in Checksums(rest, last.id) {
        assert last in rest;
      }
    } else {
      forall q | q in rest ensures q.id != last.id {
        InIdSet(rest, q);
      }
    }
  }

  // ----- The dictionary -----

  lemma {:induction false} UniquesFacts(ps: seq<Projection>)
    ensures DistinctIds(Uniques(ps))
    ensures IdSet(Uniques(ps)) == IdSet(ps)
    ensures |Uniques(ps)| + |Repeats(ps)| == |ps|
    ensures forall p :: p in Uniques(ps) ==> p in ps
  {
    hide IdSet;
    if ps != [] {
      var rest, last := ps[..|ps| - 1], ps[|ps| - 1];
      Snoc(ps);
      UniquesFacts(rest);
      ScanStep(rest, last);
      ScanStep(Uniques(rest), last);
      if last.id !in IdSet(rest) {
        forall i | 0 <= i < |Uniques(rest)| ensures Uniques(rest)[i].id != last.id {
          InIdSet(Uniques(rest), Uniques(rest)[i]);
        }
      }
    } else {
      assert IdSet([]) == {} by { EmptyIdSet(); }
    }
  }

  lemma EmptyIdSet()
    ensures IdSet([]) == {}
  {
  }

  /** Without conflicts the dictionary holds every input projection. */
  lemma UniquesKeepAll(ps: seq<Projection>, p: Projection)
    requires Agree(ps)
    ensures p in Uniques(ps) <==> p in ps
  {
    UniquesFacts(ps);
    if p in ps {
      InIdSet(ps, p);
      var q := FromIdSet(Uniques(ps), p.id);
    }
  }

  lemma {:induction false} DistinctNeverRepeats(ps: seq<Projection>)
    requires DistinctIds(ps)
    ensures Repeats(ps) == []
  {
    if ps != [] {
      var rest, last := ps[..|ps| - 1], ps[|ps| - 1];
      assert DistinctIds(rest);
      DistinctNeverRepeats(rest);
      if last.id in IdSet(rest) {
        var q := FromIdSet(rest, last.id);
        assert false;
      }
    }
  }

  /** The duplicates are the ids both inputs hold, each once. */
  lemma {:induction false} RepeatsAreShared(b: seq<Projection>, d: seq<Projection>)
    requires DistinctIds(b) && DistinctIds(d)
    ensures NoRepeats(Repeats(b + d))
    ensures Elements(Repeats(b + d)) == IdSet(b) * IdSet(d)
    decreases |d|
  {
    hide IdSet;
    if d == [] {
      DistinctNeverRepeats(b);
      EmptyIdSet();
      assert b + d == b;
    } else {
      var rest, last := d[..|d| - 1], d[|d| - 1];
      Snoc(d);
      assert DistinctIds(rest);
      assert (b + d)[..|b + d| - 1] == b + rest;
      RepeatsAreShared(b, rest);
      ScanStep(rest, last);
      IdSetOfConcat(b, rest);
      assert last.id !in IdSet(rest) by {
        if last.id in IdSet(rest) {
          var q := FromIdSet(rest, last.id);
          assert false;
        }
      }
      var before := Repeats(b + rest);
      if last.id in IdSet(b) {
        assert Repeats(b + d) == before + [last.id];
        assert Elements(before + [last.id]) == Elements(before) + {last.id};
        assert last.id !in Elements(before);
      }
    }
  }

  lemma IdSetOfConcat(xs: seq<Projection>, ys: seq<Projection>)
    ensures IdSet(xs + ys) == IdSet(xs) + IdSet(ys)
  {
    forall id ensures id in IdSet(xs + ys) <==> id in IdSet(xs) + IdSet(ys) {
      if id in IdSet(xs + ys) {
        var p := FromIdSet(xs + ys, id);
        if p in xs { InIdSet(xs, p); } else { InIdSet(ys, p); }
      }
      if id in IdSet(xs) {
        var p := FromIdSet(xs, id);
        InIdSet(xs + ys, p);
      }
      if id in IdSet(ys) {
        var p := FromIdSet(ys, id);
        InIdSet(xs + ys, p);
      }
    }
  }

  // ----- The output -----

  lemma IdListElements(ps: seq<Projection>)
    ensures Elements(IdList(ps)) == IdSet(ps)
    ensures NoRepeats(IdList(ps)) <==> DistinctIds(ps)
    ensures DistinctIds(ps) <==> |IdSet(ps)| == |ps|
  {
    CountElements(IdList(ps));
    forall id ensures id in Elements(IdList(ps)) <==> id in IdSet(ps) {
      if id in Elements(IdList(ps)) {
        var i :| 0 <= i < |ps| && IdList(ps)[i] == id;
        InIdSet(ps, ps[i]);
      }
      if id in IdSet(ps) {
        var p := FromIdSet(ps, id);
        var i :| 0 <= i < |ps| && ps[i] == p;
        assert IdList(ps)[i] == id;
      }
    }
    assert NoRepeats(IdList(ps)) ==> DistinctIds(ps) by {
      if NoRepeats(IdList(ps)) {
        forall i, j | 0 <= i < j < |ps| ensures ps[i].id != ps[j].id {
          assert IdList(ps)[i] != IdList(ps)[j];
        }
      }
    }
  }

  lemma {:induction false} KeptFacts(unique: seq<Projection>, excluded: set<PointId>)
    ensures forall p :: p in Kept(unique, excluded) <==> p in unique && p.id !in excluded
    ensures DistinctIds(unique) ==> DistinctIds(Kept(unique, excluded))
    decreases |unique|
  {
    if unique != [] {
      Snoc(unique);
      KeptFacts(unique[..|unique| - 1], excluded);
    }
  }

  function Output(unique: seq<Projection>, excluded: set<PointId>): seq<Projection>
  {
    StableSort(Kept(unique, excluded), ById())
  }

  function Before(): (Projection, Projection) -> bool
  {
    (a: Projection, b: Projection) => a.id < b.id
  }

  predicate StrictlyAscending(ps: seq<Projection>)
  {
    StrictlySorted(ps, Before())
  }

  /** The sorted output: ascending ids, exactly the projections that are not excluded. */
  lemma OutputFacts(unique: seq<Projection>, excluded: set<PointId>)
    requires DistinctIds(unique)
    ensures var output := Output(unique, excluded);
            && StrictlyAscending(output)
            && (forall p :: p in output <==> p in unique && p.id !in excluded)
  {
    hide Kept, IdSet;
    var kept, output := Kept(unique, excluded), Output(unique, excluded);
    KeptFacts(unique, excluded);
    assert TotalPreorder(ById());
    SortSorts(kept, ById());
    SameMembers(kept, output);
    IdListElements(kept);
    IdListElements(output);
    SameIdSet(kept, output);
    forall i, j | 0 <= i < j < |output| ensures output[i].id < output[j].id {
      assert ById()(output[i], output[j]);
    }
  }

  lemma SameIdSet(xs: seq<Projection>, ys: seq<Projection>)
    requires forall p :: p in xs <==> p in ys
    ensures IdSet(xs) == IdSet(ys)
  {
  }

  // ----- Accounting -----

  lemma ListedCons(s: set<PointId>) returns (least: PointId)
    requires s != {}
    ensures least in s && forall x :: x in s ==> least <= x
    ensures Listed(s) == [least] + Listed(s - {least})
  {
    least := Least(s);
  }

  lemma ListedNothing()
    ensures Listed({}) == [] && Increasing([]) && Elements<PointId>([]) == {}
  {
  }

  predicate Increasing(xs: seq<PointId>)
  {
    forall i, j :: 0 <= i < j < |xs| ==> xs[i] < xs[j]
  }

  lemma LeastFirst(s: set<PointId>, least: PointId, rest: seq<PointId>)
    requires least in s && (forall x :: x in s ==> least <= x)
    requires Elements(rest) == s - {least} && Increasing(rest)
    ensures Elements([least] + rest) == s && Increasing([least] + rest)
  {
    var all := [least] + rest;
    ElementsConcat([least], rest);
    assert Elements([least]) == {least};
    assert forall i :: 0 <= i < |rest| ==> rest[i] in Elements(rest);
  }

  lemma {:induction false} ListedFacts(s: set<PointId>)
    ensures Elements(Listed(s)) == s && |Listed(s)| == |s|
    ensures Increasing(Listed(s))
    decreases |s|
  {
    hide Listed, Increasing;
    ListedNothing();
    if s != {} {
      var least := ListedCons(s);
      ListedFacts(s - {least});
      LeastFirst(s, least, Listed(s - {least}));
    }
  }

  lemma ExcludedAreKnown(unique: seq<Projection>, policy: set<PointId>)
    requires policy <= IdSet(unique)
    ensures ExcludedIds(unique, policy) <= IdSet(unique)
  {
    forall id | id in ExcludedIds(unique, policy) && id !in policy ensures id in IdSet(unique) {
      var p :| p in unique && !StorageSafe(p) && IdOf(p) == id;
      InIdSet(unique, p);
    }
  }

  /** Kept and excluded points together are the dictionary. */
  lemma OutputCount(unique: seq<Projection>, excluded: set<PointId>)
    requires DistinctIds(unique) && excluded <= IdSet(unique)
    ensures |Output(unique, excluded)| + |excluded| == |unique|
  {
    hide Kept, IdSet, StableSort;
    var output := Output(unique, excluded);
    OutputFacts(unique, excluded);
    IdListElements(unique);
    IdListElements(output);
    assert IdSet(output) == IdSet(unique) - excluded by {
      forall id ensures id in IdSet(output) <==> id in IdSet(unique) - excluded {
        if id in IdSet(output) {
          var p := FromIdSet(output, id);
          InIdSet(unique, p);
        }
        if id in IdSet(unique) - excluded {
          var p := FromIdSet(unique, id);
          InIdSet(output, p);
        }
      }
    }
  }

  lemma PolicyIdsOfSorted(exclusions: seq<Exclusion>)
    ensures var sorted := StableSort(exclusions, ByPoint());
            PolicyIds(sorted) == PolicyIds(exclusions) && |sorted| == |exclusions|
  {
    var sorted := StableSort(exclusions, ByPoint());
    assert |sorted| == |multiset(sorted)| == |multiset(exclusions)| == |exclusions|;
    assert forall e :: e in sorted <==> e in multiset(sorted);
    assert forall e :: e in exclusions <==> e in multiset(exclusions);
  }

  /** Every lineage the merge builds passes its own validators: the accounting closes. */
  lemma LineageIsAccepted(b: seq<Projection>, d: seq<Projection>, exclusions: seq<Exclusion>, ledger: Option<string>,
                          lineage: Lineage)
    requires b != [] && d != [] && DistinctIds(b) && DistinctIds(d)
    requires |PolicyIds(exclusions)| == |exclusions| && (exclusions != []) == Given(ledger)
    requires PolicyIds(exclusions) <= IdSet(Uniques(b + d))
    requires var excluded := ExcludedIds(Uniques(b + d), PolicyIds(exclusions));
             var output := Output(Uniques(b + d), excluded);
             && output != [] && lineage.outputCount == |output|
             && lineage.excludedIds == Listed(excluded)
    requires lineage.duplicateIds == Listed(Elements(Repeats(b + d))) && lineage.duplicateCount == |Repeats(b + d)|
    requires lineage.unsafeUniqueCount == |lineage.excludedIds|
    requires lineage.policyExclusions == StableSort(exclusions, ByPoint()) && lineage.ledger == ledger
    requires lineage.baseline.pointCount == |b| && lineage.delta.pointCount == |d|
    requires InputAccepted(lineage.baseline) && InputAccepted(lineage.delta)
    requires lineage.unsafeInputCount == lineage.baseline.unsafeCount + lineage.delta.unsafeCount
    ensures LineageAccepted(lineage)
    ensures |b| + |d| - |Repeats(b + d)| - |lineage.excludedIds| == lineage.outputCount
  {
    hide Uniques, Repeats, Output, StableSort, ExcludedIds, PolicyIds, Listed, IdSet;
    var unique := Uniques(b + d);
    var excluded := ExcludedIds(unique, PolicyIds(exclusions));
    UniquesFacts(b + d);
    RepeatsAreShared(b, d);
    CountElements(Repeats(b + d));
    ListedFacts(Elements(Repeats(b + d)));
    ListedFacts(excluded);
    ExcludedAreKnown(unique, PolicyIds(exclusions));
    OutputCount(unique, excluded);
    PolicyIdsOfSorted(exclusions);
    assert PolicyIds(exclusions) <= excluded by { PolicyIsExcluded(unique, PolicyIds(exclusions)); }
  }

  lemma PolicyIsExcluded(unique: seq<Projection>, policy: set<PointId>)
    ensures policy <= ExcludedIds(unique, policy)
  {
  }

  // ----- The merge decided -----

  /** A projection the snapshot may hold. */
  predicate Admissible(p: Projection, exclusions: seq<Exclusion>)
  {
    StorageSafe(p) && p.id !in PolicyIds(exclusions)
  }

  /** What must hold for a merge to go through; every clause can be checked before it is called. */
  ghost predicate Mergeable(b: seq<Projection>, d: seq<Projection>, baselineDigest: string, deltaDigest: string,
                            exclusions: seq<Exclusion>, ledger: Option<string>)
  {
    && Precheck(baselineDigest, deltaDigest, exclusions, ledger).None?
    && Combinable(b, d, exclusions)
  }

  ghost predicate Combinable(b: seq<Projection>, d: seq<Projection>, exclusions: seq<Exclusion>)
  {
    && Agree(b + d)
    && |PolicyIds(exclusions)| == |exclusions|
    && PolicyIds(exclusions) <= IdSet(b) + IdSet(d)
    && exists p :: p in b + d && Admissible(p, exclusions)
  }

  lemma OutputIsAdmissible(b: seq<Projection>, d: seq<Projection>, exclusions: seq<Exclusion>)
    requires Agree(b + d)
    ensures var output := Output(Uniques(b + d), ExcludedIds(Uniques(b + d), PolicyIds(exclusions)));
            StrictlyAscending(output) && forall p :: p in output <==> p in b + d && Admissible(p, exclusions)
  {
    hide Uniques, Output, PolicyIds;
    var unique, policy := Uniques(b + d), PolicyIds(exclusions);
    UniquesFacts(b + d);
    OutputFacts(unique, ExcludedIds(unique, policy));
    forall p ensures p in unique <==> p in b + d {
      UniquesKeepAll(b + d, p);
    }
    forall p | p in unique ensures p.id !in ExcludedIds(unique, policy) <==> Admissible(p, exclusions) {
      ExcludedMeans(unique, policy, p);
    }
  }

  lemma ExcludedMeans(unique: seq<Projection>, policy: set<PointId>, p: Projection)
    requires DistinctIds(unique) && p in unique
    ensures p.id in ExcludedIds(unique, policy) <==> !StorageSafe(p) || p.id in policy
  {
    if p.id in ExcludedIds(unique, policy) && p.id !in policy {
      var q :| q in unique && !StorageSafe(q) && IdOf(q) == p.id;
      assert q == p;
    }
    if !StorageSafe(p) {
      assert IdOf(p) in ExcludedIds(unique, policy);
    }
  }

  /** The errors of the checks that come after the inputs have been judged. */
  predicate Internal(e: SnapshotError)
  {
    e.UnsafeMarkers? || e.BadManifest? || e.BadLineage? || e.UnboundLineage?
  }

  /**
   The merge of two valid manifests succeeds exactly when it is mergeable, so none of its own
   validators ever rejects it; the snapshot holds exactly the admissible projections, in
   ascending order, and every input point is accounted for once.
   */
  lemma MergeDecided(baseline: Manifest, delta: Manifest, baselineDigest: string, deltaDigest: string,
                     exclusions: seq<Exclusion>, ledger: Option<string>)
    requires ValidInput(baseline) && ValidInput(delta)
    ensures var b, d := baseline.projections, delta.projections;
            var r := Merge(baseline, delta, baselineDigest, deltaDigest, exclusions, ledger);
            && (r.Success? <==> Mergeable(b, d, baselineDigest, deltaDigest, exclusions, ledger))
            && (r.Failure? ==> !Internal(r.error))
            && (r.Failure? && r.error.Conflict? <==>
                  Precheck(baselineDigest, deltaDigest, exclusions, ledger).None? && !Agree(b + d))
            && (r.Success? ==> IsComposed(b, d, exclusions, r.value))
  {
    hide Uniques, Repeats, FirstConflict, Compose, PolicyIds, StableSort, IdSet, Agree, IsComposed, IsSha256;
    var b, d := baseline.projections, delta.projections;
    ConflictDecided(b + d);
    if Precheck(baselineDigest, deltaDigest, exclusions, ledger).None? && Agree(b + d) {
      ComposeDecided(baseline, delta, baselineDigest, deltaDigest, exclusions, ledger);
    }
  }

  lemma ComposeDecided(baseline: Manifest, delta: Manifest, baselineDigest: string, deltaDigest: string,
                       exclusions: seq<Exclusion>, ledger: Option<string>)
    requires ValidInput(baseline) && ValidInput(delta)
    requires Precheck(baselineDigest, deltaDigest, exclusions, ledger).None?
    requires Agree(baseline.projections + delta.projections)
    ensures var b, d := baseline.projections, delta.projections;
            var r := Compose(AccountOf(baseline, baselineDigest, CountSafe(b)),
                             AccountOf(delta, deltaDigest, CountSafe(d)),
                             Uniques(b + d), Repeats(b + d), exclusions, ledger);
            && (r.Success? <==> Combinable(b, d, exclusions))
            && (r.Failure? ==> !Internal(r.error) && !r.error.Conflict?)
            && (r.Success? ==> IsComposed(b, d, exclusions, r.value))
  {
    hide Uniques, Repeats, PolicyIds, StableSort, IdSet, Agree, ExcludedIds, Kept, CountSafe, Listed, LineageAccepted,
      Admissible, HashOf, IsSha256;
    var b, d := baseline.projections, delta.projections;
    var unique := Uniques(b + d);
    var policy := PolicyIds(exclusions);
    var excluded := ExcludedIds(unique, policy);
    var output := Output(unique, excluded);
    UniquesFacts(b + d);
    IdSetOfConcat(b, d);
    OutputIsAdmissible(b, d, exclusions);
    if |policy| == |exclusions| && policy <= IdSet(unique) && output != [] {
      assert output[0] in b + d && Admissible(output[0], exclusions);
      assert forall p :: p in output ==> Unverified(p);
      var manifest := Manifest(COLLECTION, output, HashOf(COLLECTION, output), IdList(output), |output|);
      assert Identified(COLLECTION, output, None, [], 0) == Success(manifest);
      var lineage := LineageOf(AccountOf(baseline, baselineDigest, CountSafe(b)),
                               AccountOf(delta, deltaDigest, CountSafe(d)),
                               Repeats(b + d), excluded, exclusions, ledger, manifest);
      LineageIsAccepted(b, d, exclusions, ledger, lineage);
      RepeatsAreShared(b, d);
      CountElements(Repeats(b + d));
      ExcludedAreInadmissible(b + d, exclusions);
    }
  }

  /** The ids that are in the inputs and may not be in the snapshot. */
  function InadmissibleIds(ps: seq<Projection>, exclusions: seq<Exclusion>): set<PointId>
  {
    set p | p in ps && !Admissible(p, exclusions) :: IdOf(p)
  }

  lemma ExcludedAreInadmissible(ps: seq<Projection>, exclusions: seq<Exclusion>)
    requires Agree(ps) && PolicyIds(exclusions) <= IdSet(ps)
    ensures ExcludedIds(Uniques(ps), PolicyIds(exclusions)) == InadmissibleIds(ps, exclusions)
  {
    hide Uniques, PolicyIds;
    var unique, policy := Uniques(ps), PolicyIds(exclusions);
    UniquesFacts(ps);
    forall p ensures p in unique <==> p in ps {
      UniquesKeepAll(ps, p);
    }
    forall id ensures id in ExcludedIds(unique, policy) <==> id in InadmissibleIds(ps, exclusions) {
      if id in policy {
        var p := FromIdSet(ps, id);
        assert IdOf(p) in InadmissibleIds(ps, exclusions);
      } else if id in ExcludedIds(unique, policy) {
        var p :| p in unique && !StorageSafe(p) && IdOf(p) == id;
        assert IdOf(p) in InadmissibleIds(ps, exclusions);
      }
    }
  }

  /** The content of a composed snapshot. */
  ghost predicate IsComposed(b: seq<Projection>, d: seq<Projection>, exclusions: seq<Exclusion>, s: Snapshot)
  {
    var ps := s.manifest.projections;
    && StrictlyAscending(ps)
    && (forall p :: p in ps <==> p in b + d && Admissible(p, exclusions))
    && s.manifest == Manifest(COLLECTION, ps, HashOf(COLLECTION, ps), IdList(ps), |ps|)
    && s.lineage.duplicateIds == Listed(IdSet(b) * IdSet(d))
    && s.lineage.excludedIds == Listed(InadmissibleIds(b + d, exclusions))
    && |b| + |d| - |s.lineage.duplicateIds| - |s.lineage.excludedIds| == |ps|
    && LineageAccepted(s.lineage) && Bound(s)
  }

  /** The inputs may change places: same verdict, same manifest, same duplicates and exclusions. */
  lemma MergeIsSymmetric(baseline: Manifest, delta: Manifest, baselineDigest: string, deltaDigest: string,
                         exclusions: seq<Exclusion>, ledger: Option<string>)
    requires ValidInput(baseline) && ValidInput(delta)
    ensures var r := Merge(baseline, delta, baselineDigest, deltaDigest, exclusions, ledger);
            var t := Merge(delta, baseline, deltaDigest, baselineDigest, exclusions, ledger);
            && (r.Success? <==> t.Success?)
            && (r.Failure? && r.error.Conflict? <==> t.Failure? && t.error.Conflict?)
            && (r.Success? ==> SameSnapshot(r.value, t.value))
  {
    hide Merge, Combinable, IsComposed, IsSha256, Agree;
    var b, d := baseline.projections, delta.projections;
    MergeDecided(baseline, delta, baselineDigest, deltaDigest, exclusions, ledger);
    MergeDecided(delta, baseline, deltaDigest, baselineDigest, exclusions, ledger);
    CombinableIsSymmetric(b, d, exclusions);
    if Mergeable(b, d, baselineDigest, deltaDigest, exclusions, ledger) {
      ComposedIsSymmetric(b, d, exclusions,
                          Merge(baseline, delta, baselineDigest, deltaDigest, exclusions, ledger).value,
                          Merge(delta, baseline, deltaDigest, baselineDigest, exclusions, ledger).value);
    }
  }

  predicate SameSnapshot(s: Snapshot, t: Snapshot)
  {
    && s.manifest == t.manifest
    && s.lineage.duplicateIds == t.lineage.duplicateIds
    && s.lineage.excludedIds == t.lineage.excludedIds
  }

  lemma CombinableIsSymmetric(b: seq<Projection>, d: seq<Projection>, exclusions: seq<Exclusion>)
    ensures Agree(b + d) == Agree(d + b)
    ensures Combinable(b, d, exclusions) == Combinable(d, b, exclusions)
  {
    hide Admissible, PolicyIds;
    assert forall p :: p in b + d <==> p in d + b;
    assert IdSet(b) + IdSet(d) == IdSet(d) + IdSet(b);
  }

  lemma ComposedIsSymmetric(b: seq<Projection>, d: seq<Projection>, exclusions: seq<Exclusion>,
                            s: Snapshot, t: Snapshot)
    requires IsComposed(b, d, exclusions, s) && IsComposed(d, b, exclusions, t)
    ensures SameSnapshot(s, t)
  {
    hide Admissible, Listed, LineageAccepted, Bound, IdSet, HashOf;
    StrictlySortedUnique(s.manifest.projections, t.manifest.projections, Before());
    assert IdSet(b) * IdSet(d) == IdSet(d) * IdSet(b);
    assert InadmissibleIds(b + d, exclusions) == InadmissibleIds(d + b, exclusions);
  }
}
