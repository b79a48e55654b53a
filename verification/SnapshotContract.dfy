/**
 The merge of two bootstrap manifests and the sync of one, as decision tables over roles, levels,
 markers and point ids: when they go through, what they hold, and what every count counts.
 */
module SnapshotContract {
  import opened Wrappers
  import opened Sequences
  import opened Ordering
  import opened BootstrapSnapshot
  import opened SnapshotAccounting
  import opened BootstrapSync

  // ----- Projections -----

  /** A procedural method at the controlled or the restricted level. */
  predicate Withheld(p: Projection)
  {
    "method" in p.roles && (p.level.Controlled? || p.level.Restricted?)
  }

  /** Neither withheld nor named by the audited policy. */
  predicate Keeps(p: Projection, exclusions: seq<Exclusion>)
  {
    !Withheld(p) && forall i :: 0 <= i < |exclusions| ==> exclusions[i].pointId != p.id
  }

  predicate Marked(p: Projection)
  {
    p.bootstrapGenerated && !p.humanVerified && !p.approved && !p.storagePermission
  }

  predicate Holds(ps: seq<Projection>, id: PointId)
  {
    exists i :: 0 <= i < |ps| && ps[i].id == id
  }

  /** A digest of 64 hexadecimal digits. */
  predicate IsDigest(s: string)
  {
    |s| == 64 && forall i :: 0 <= i < |s| ==> '0' <= s[i] <= '9' || 'a' <= s[i] <= 'f'
  }

  function WithheldAt(ps: seq<Projection>): set<nat>
  {
    set i: nat | i < |ps| && Withheld(ps[i])
  }

  lemma HoldsDecided(ps: seq<Projection>, id: PointId)
    ensures id in IdSet(ps) <==> Holds(ps, id)
  {
    if id in IdSet(ps) {
      var p := FromIdSet(ps, id);
      var i :| 0 <= i < |ps| && ps[i] == p;
    }
    if i :| 0 <= i < |ps| && ps[i].id == id {
      InIdSet(ps, ps[i]);
    }
  }

  lemma KeepsDecided(p: Projection, exclusions: seq<Exclusion>)
    ensures Admissible(p, exclusions) <==> Keeps(p, exclusions)
    ensures StorageSafe(p) <==> !Withheld(p)
    ensures Unverified(p) <==> Marked(p)
  {
    if p.id in PolicyIds(exclusions) {
      var e :| e in exclusions && e.pointId == p.id;
      var i :| 0 <= i < |exclusions| && exclusions[i] == e;
    }
    if i :| 0 <= i < |exclusions| && exclusions[i].pointId == p.id {
      assert exclusions[i] in exclusions;
    }
  }

  lemma {:induction false} CountDecided(ps: seq<Projection>)
    ensures CountSafe(ps) == |ps| - |WithheldAt(ps)|
  {
    if ps != [] {
      var init, last := ps[..|ps| - 1], ps[|ps| - 1];
      CountDecided(init);
      KeepsDecided(last, []);
      assert WithheldAt(ps) == WithheldAt(init) + if Withheld(last) then {|init|} else {};
    }
  }

  // ----- Manifests -----

  /** The digest names the collection, and every point with its checksum. */
  ghost predicate IsDigestOf(hash: ManifestHash, ps: seq<Projection>)
  {
    && hash.collection == "magicforge_bootstrap_v03"
    && forall x :: x in hash.points <==> exists p :: p in ps && x == (p.id, ChecksumOf(p))
  }

  /** A manifest is identified exactly if it holds distinct points for this collection, as is expected of it. */
  lemma IdentifiedDecided(collection: string, ps: seq<Projection>, hash: Option<ManifestHash>,
                          expectedIds: seq<PointId>, expectedCount: nat)
    ensures var r := Identified(collection, ps, hash, expectedIds, expectedCount);
      && (r.Success? <==>
            && collection == "magicforge_bootstrap_v03" && ps != []
            && (forall i, j :: 0 <= i < j < |ps| ==> ps[i].id != ps[j].id)
            && (hash.None? || IsDigestOf(hash.value, ps))
            && (expectedIds == []
                || (|expectedIds| == |ps| && forall i :: 0 <= i < |ps| ==> expectedIds[i] == ps[i].id))
            && (expectedCount == 0 || expectedCount == |ps|))
      && (r.Success? ==>
            && r.value.collection == collection && r.value.projections == ps && IsDigestOf(r.value.hash, ps)
            && r.value.expectedCount == |ps| == |r.value.expectedIds|
            && forall i :: 0 <= i < |ps| ==> r.value.expectedIds[i] == ps[i].id)
  {
    DigestIs(ps);
    if hash.Some? && IsDigestOf(hash.value, ps) {
      DigestsAgree(hash.value, HashOf("magicforge_bootstrap_v03", ps), ps);
    }
    assert expectedIds == IdList(ps) <==>
      |expectedIds| == |ps| && forall i :: 0 <= i < |ps| ==> expectedIds[i] == ps[i].id;
  }

  lemma DigestIs(ps: seq<Projection>)
    ensures IsDigestOf(HashOf("magicforge_bootstrap_v03", ps), ps)
  {
  }

  lemma DigestsAgree(a: ManifestHash, b: ManifestHash, ps: seq<Projection>)
    requires IsDigestOf(a, ps) && IsDigestOf(b, ps)
    ensures a == b
  {
    assert a.points == b.points;
  }

  // ----- The merge -----

  /** Everything a merge asks of its inputs. */
  ghost predicate MayMerge(b: seq<Projection>, d: seq<Projection>, baselineDigest: string, deltaDigest: string,
                           exclusions: seq<Exclusion>, ledger: Option<string>)
  {
    && IsDigest(baselineDigest) && IsDigest(deltaDigest)
    && (if exclusions == [] then ledger == None else ledger.Some? && IsDigest(ledger.value))
    && (forall p, q :: p in b + d && q in b + d && p.id == q.id ==> p == q)
    && (forall i, j :: 0 <= i < j < |exclusions| ==> exclusions[i].pointId != exclusions[j].pointId)
    && (forall i :: 0 <= i < |exclusions| ==> Holds(b, exclusions[i].pointId) || Holds(d, exclusions[i].pointId))
    && exists p :: p in b + d && Keeps(p, exclusions)
  }

  /** What an input's account says. */
  predicate Accounts(a: InputAccount, m: Manifest, digest: string)
  {
    && a.hash == m.hash && a.sourceDigest == digest && a.pointCount == |m.projections|
    && a.unsafeCount == |WithheldAt(m.projections)| && a.safeCount == a.pointCount - a.unsafeCount
  }

  /** The snapshot holds exactly the kept projections, and its lineage accounts for the others. */
  ghost predicate IsSnapshot(baseline: Manifest, delta: Manifest, baselineDigest: string, deltaDigest: string,
                             exclusions: seq<Exclusion>, ledger: Option<string>, s: Snapshot)
  {
    var b, d, ps, l := baseline.projections, delta.projections, s.manifest.projections, s.lineage;
    && s.manifest.collection == "magicforge_bootstrap_v03" && IsDigestOf(s.manifest.hash, ps)
    && (forall i, j :: 0 <= i < j < |ps| ==> ps[i].id < ps[j].id)
    && (forall p :: p in ps <==> p in b + d && Keeps(p, exclusions))
    && s.manifest.expectedCount == |ps| == |s.manifest.expectedIds|
    && (forall i :: 0 <= i < |ps| ==> s.manifest.expectedIds[i] == ps[i].id)
    && Accounts(l.baseline, baseline, baselineDigest) && Accounts(l.delta, delta, deltaDigest)
    && Increasing(l.duplicateIds) && (forall id :: id in l.duplicateIds <==> Holds(b, id) && Holds(d, id))
    && Increasing(l.excludedIds)
    && (forall id :: id in l.excludedIds <==> exists p :: p in b + d && p.id == id && !Keeps(p, exclusions))
    && l.duplicateCount == |l.duplicateIds| && l.unsafeUniqueCount == |l.excludedIds|
    && l.unsafeInputCount == |WithheldAt(b)| + |WithheldAt(d)|
    && l.ledger == ledger && multiset(l.policyExclusions) == multiset(exclusions)
    && (forall i, j :: 0 <= i < j < |l.policyExclusions| ==>
          l.policyExclusions[i].pointId <= l.policyExclusions[j].pointId)
    && l.outputHash == s.manifest.hash && l.outputCount == |ps| == |b| + |d| - |l.duplicateIds| - |l.excludedIds|
  }

  lemma PrecheckDecided(baselineDigest: string, deltaDigest: string, exclusions: seq<Exclusion>, ledger: Option<string>)
    ensures Precheck(baselineDigest, deltaDigest, exclusions, ledger).None? <==>
      && IsDigest(baselineDigest) && IsDigest(deltaDigest)
      && if exclusions == [] then ledger == None else ledger.Some? && IsDigest(ledger.value)
  {
  }

  lemma PolicyDecided(exclusions: seq<Exclusion>)
    ensures |PolicyIds(exclusions)| == |exclusions| <==>
      forall i, j :: 0 <= i < j < |exclusions| ==> exclusions[i].pointId != exclusions[j].pointId
  {
    var ids := seq(|exclusions|, i requires 0 <= i < |exclusions| => exclusions[i].pointId);
    forall id ensures id in PolicyIds(exclusions) <==> id in Elements(ids) {
      if id in PolicyIds(exclusions) {
        var e :| e in exclusions && e.pointId == id;
        var i :| 0 <= i < |exclusions| && exclusions[i] == e;
        assert ids[i] == id;
      }
      if id in Elements(ids) {
        var i :| 0 <= i < |ids| && ids[i] == id;
        assert exclusions[i] in exclusions;
      }
    }
    assert PolicyIds(exclusions) == Elements(ids);
    CountElements(ids);
    assert forall i :: 0 <= i < |ids| ==> ids[i] == exclusions[i].pointId;
    assert NoRepeats(ids) <==>
      forall i, j :: 0 <= i < j < |exclusions| ==> exclusions[i].pointId != exclusions[j].pointId;
  }

  lemma MergeableDecided(b: seq<Projection>, d: seq<Projection>, baselineDigest: string, deltaDigest: string,
                         exclusions: seq<Exclusion>, ledger: Option<string>)
    ensures Mergeable(b, d, baselineDigest, deltaDigest, exclusions, ledger) <==>
      MayMerge(b, d, baselineDigest, deltaDigest, exclusions, ledger)
  {
    hide IsDigest, Precheck, Holds, Keeps, Admissible;
    PrecheckDecided(baselineDigest, deltaDigest, exclusions, ledger);
    PolicyDecided(exclusions);
    forall p ensures Admissible(p, exclusions) <==> Keeps(p, exclusions) {
      KeepsDecided(p, exclusions);
    }
    PolicyIsKnown(b, d, exclusions);
  }

  lemma PolicyIsKnown(b: seq<Projection>, d: seq<Projection>, exclusions: seq<Exclusion>)
    ensures PolicyIds(exclusions) <= IdSet(b) + IdSet(d) <==>
      forall i :: 0 <= i < |exclusions| ==> Holds(b, exclusions[i].pointId) || Holds(d, exclusions[i].pointId)
  {
    hide Holds, IdSet;
    forall id ensures id in IdSet(b) + IdSet(d) <==> Holds(b, id) || Holds(d, id) {
      HoldsDecided(b, id);
      HoldsDecided(d, id);
    }
    forall i | 0 <= i < |exclusions| ensures exclusions[i].pointId in PolicyIds(exclusions) {
      assert exclusions[i] in exclusions;
    }
    forall id | id in PolicyIds(exclusions) ensures exists i :: 0 <= i < |exclusions| && exclusions[i].pointId == id {
      var e :| e in exclusions && e.pointId == id;
      var i :| 0 <= i < |exclusions| && exclusions[i] == e;
    }
  }

  /** A merge of valid manifests goes through exactly when it may, and yields the snapshot of its inputs. */
  lemma SnapshotDecided(baseline: Manifest, delta: Manifest, baselineDigest: string, deltaDigest: string,
                        exclusions: seq<Exclusion>, ledger: Option<string>)
    requires ValidInput(baseline) && ValidInput(delta)
    ensures var r := Merge(baseline, delta, baselineDigest, deltaDigest, exclusions, ledger);
      && (r.Success? <==>
            MayMerge(baseline.projections, delta.projections, baselineDigest, deltaDigest, exclusions, ledger))
      && (r.Success? ==> IsSnapshot(baseline, delta, baselineDigest, deltaDigest, exclusions, ledger, r.value))
  {
    hide Merge, MayMerge, Mergeable, IsSnapshot, ValidInput;
    MergeDecided(baseline, delta, baselineDigest, deltaDigest, exclusions, ledger);
    MergeableDecided(baseline.projections, delta.projections, baselineDigest, deltaDigest, exclusions, ledger);
    var r := Merge(baseline, delta, baselineDigest, deltaDigest, exclusions, ledger);
    if r.Success? {
      ContentDecided(baseline, delta, baselineDigest, deltaDigest, exclusions, ledger, r.value);
    }
  }

  /** Two different projections lie under one id. */
  ghost predicate Clashes(ps: seq<Projection>, id: PointId)
  {
    exists p, q :: p in ps && q in ps && p.id == id == q.id && p != q
  }

  lemma {:induction false} ConflictClashes(ps: seq<Projection>)
    requires FirstConflict(ps).Some?
    ensures Clashes(ps, FirstConflict(ps).value)
  {
    hide IdSet;
    var rest, last := ps[..|ps| - 1], ps[|ps| - 1];
    assert ps == rest + [last];
    if FirstConflict(rest).Some? {
      ConflictClashes(rest);
      var p, q :| p in rest && q in rest && p.id == FirstConflict(ps).value == q.id && p != q;
      assert p in ps && q in ps;
    } else {
      var p := FromIdSet(rest, last.id);
      assert p in ps && last in ps;
      assert p == last ==> ChecksumOf(last) in Checksums(rest, last.id);
    }
  }

  lemma ComposeErrorDecided(baseline: Manifest, delta: Manifest, baselineDigest: string, deltaDigest: string,
                            exclusions: seq<Exclusion>, ledger: Option<string>)
    requires Precheck(baselineDigest, deltaDigest, exclusions, ledger).None?
    requires FirstConflict(baseline.projections + delta.projections).None?
    requires var r := Merge(baseline, delta, baselineDigest, deltaDigest, exclusions, ledger);
      r.Failure? && !Internal(r.error)
    ensures var e := Merge(baseline, delta, baselineDigest, deltaDigest, exclusions, ledger).error;
      var b, d := baseline.projections, delta.projections;
      if exists i, j :: 0 <= i < j < |exclusions| && exclusions[i].pointId == exclusions[j].pointId
      then e == DuplicatePolicy
      else if exists i :: 0 <= i < |exclusions|
                          && !Holds(b, exclusions[i].pointId) && !Holds(d, exclusions[i].pointId)
      then e == UnknownPolicy
      else e == NothingSafe
  {
    hide Uniques, Repeats, PolicyIds, StableSort, IdSet, ExcludedIds, Kept, CountSafe, LineageAccepted, HashOf,
      IsSha256, Precheck, FirstConflict, Holds, AccountOf, LineageOf, Bound, Identified, Unverified;
    var b, d := baseline.projections, delta.projections;
    PolicyDecided(exclusions);
    PolicyIsKnown(b, d, exclusions);
    UniquesFacts(b + d);
    IdSetOfConcat(b, d);
  }

  /** Which error a refused merge raises, in the order of its checks. */
  lemma MergeErrorDecided(baseline: Manifest, delta: Manifest, baselineDigest: string, deltaDigest: string,
                          exclusions: seq<Exclusion>, ledger: Option<string>)
    requires ValidInput(baseline) && ValidInput(delta)
    requires Merge(baseline, delta, baselineDigest, deltaDigest, exclusions, ledger).Failure?
    ensures var e := Merge(baseline, delta, baselineDigest, deltaDigest, exclusions, ledger).error;
      var b, d := baseline.projections, delta.projections;
      if !IsDigest(baselineDigest) || !IsDigest(deltaDigest) then e == BadDigest
      else if (exclusions != []) != (ledger.Some? && ledger.value != "") then e == LedgerMismatch
      else if ledger.Some? && !IsDigest(ledger.value) then e == BadDigest
      else if exists p, q :: p in b + d && q in b + d && p.id == q.id && p != q then e.Conflict? && Clashes(b + d, e.id)
      else if exists i, j :: 0 <= i < j < |exclusions| && exclusions[i].pointId == exclusions[j].pointId
      then e == DuplicatePolicy
      else if exists i :: 0 <= i < |exclusions|
                          && !Holds(b, exclusions[i].pointId) && !Holds(d, exclusions[i].pointId)
      then e == UnknownPolicy
      else e == NothingSafe
  {
    hide ValidInput, Compose, FirstConflict, Holds, Mergeable, IsComposed;
    var b, d := baseline.projections, delta.projections;
    MergeDecided(baseline, delta, baselineDigest, deltaDigest, exclusions, ledger);
    ConflictDecided(b + d);
    if FirstConflict(b + d).Some? {
      ConflictClashes(b + d);
    } else if Precheck(baselineDigest, deltaDigest, exclusions, ledger).None? {
      ComposeErrorDecided(baseline, delta, baselineDigest, deltaDigest, exclusions, ledger);
    }
  }

  lemma LineageIs(baseline: Manifest, delta: Manifest, baselineDigest: string, deltaDigest: string,
                  exclusions: seq<Exclusion>, ledger: Option<string>)
    requires Merge(baseline, delta, baselineDigest, deltaDigest, exclusions, ledger).Success?
    ensures var l := Merge(baseline, delta, baselineDigest, deltaDigest, exclusions, ledger).value.lineage;
      && l.baseline == AccountOf(baseline, baselineDigest, CountSafe(baseline.projections))
      && l.delta == AccountOf(delta, deltaDigest, CountSafe(delta.projections))
      && l.unsafeInputCount == l.baseline.unsafeCount + l.delta.unsafeCount
      && l.ledger == ledger && l.policyExclusions == StableSort(exclusions, ByPoint())
  {
    hide Precheck, FirstConflict, Uniques, Repeats, ExcludedIds, Kept, StableSort, Identified, LineageAccepted, Bound,
      Listed, AccountOf, PolicyIds, ByPoint;
  }

  lemma ContentDecided(baseline: Manifest, delta: Manifest, baselineDigest: string, deltaDigest: string,
                       exclusions: seq<Exclusion>, ledger: Option<string>, s: Snapshot)
    requires Merge(baseline, delta, baselineDigest, deltaDigest, exclusions, ledger) == Success(s)
    requires IsComposed(baseline.projections, delta.projections, exclusions, s)
    ensures IsSnapshot(baseline, delta, baselineDigest, deltaDigest, exclusions, ledger, s)
  {
    hide Merge, Keeps, Admissible, Holds, IsDigestOf, HashOf, StableSort, WithheldAt, CountSafe, Listed, IdSet,
      ByPoint, Increasing;
    var b, d := baseline.projections, delta.projections;
    LineageIs(baseline, delta, baselineDigest, deltaDigest, exclusions, ledger);
    DigestIs(s.manifest.projections);
    CountDecided(b);
    CountDecided(d);
    PolicyIsSorted(exclusions);
    DuplicatesAre(b, d);
    ExcludedAre(b + d, exclusions);
    forall p ensures Admissible(p, exclusions) <==> Keeps(p, exclusions) {
      KeepsDecided(p, exclusions);
    }
  }

  lemma PolicyIsSorted(exclusions: seq<Exclusion>)
    ensures var sorted := StableSort(exclusions, ByPoint());
      && multiset(sorted) == multiset(exclusions)
      && forall i, j :: 0 <= i < j < |sorted| ==> sorted[i].pointId <= sorted[j].pointId
  {
    hide StableSort;
    SortSorts(exclusions, ByPoint());
    var sorted := StableSort(exclusions, ByPoint());
    forall i, j | 0 <= i < j < |sorted| ensures sorted[i].pointId <= sorted[j].pointId {
      assert ByPoint()(sorted[i], sorted[j]);
    }
  }

  lemma DuplicatesAre(b: seq<Projection>, d: seq<Projection>)
    ensures var ids := Listed(IdSet(b) * IdSet(d));
      Increasing(ids) && forall id :: id in ids <==> Holds(b, id) && Holds(d, id)
  {
    hide Listed, IdSet, Holds, Increasing;
    var ids := Listed(IdSet(b) * IdSet(d));
    ListedFacts(IdSet(b) * IdSet(d));
    forall id ensures id in ids <==> Holds(b, id) && Holds(d, id) {
      HoldsDecided(b, id);
      HoldsDecided(d, id);
      assert id in ids <==> id in Elements(ids);
    }
  }

  lemma ExcludedAre(ps: seq<Projection>, exclusions: seq<Exclusion>)
    ensures var ids := Listed(InadmissibleIds(ps, exclusions));
      Increasing(ids) && forall id :: id in ids <==> exists p :: p in ps && p.id == id && !Keeps(p, exclusions)
  {
    hide Listed, Keeps, Admissible, Increasing;
    var ids := Listed(InadmissibleIds(ps, exclusions));
    ListedFacts(InadmissibleIds(ps, exclusions));
    forall p ensures Admissible(p, exclusions) <==> Keeps(p, exclusions) {
      KeepsDecided(p, exclusions);
    }
    forall id ensures id in ids <==> exists p :: p in ps && p.id == id && !Keeps(p, exclusions) {
      assert id in ids <==> id in Elements(ids);
    }
  }

  // ----- The sync -----

  /** Of a source that is not excluded, and not withheld. */
  predicate IsWritten(p: Projection, excludedSources: set<PointId>)
  {
    p.sourceCandidate !in excludedSources && !Withheld(p)
  }

  predicate DistinctWhereWritten(ps: seq<Projection>, excludedSources: set<PointId>)
  {
    forall i, j :: 0 <= i < j < |ps| && IsWritten(ps[i], excludedSources) && IsWritten(ps[j], excludedSources) ==>
      ps[i].id != ps[j].id
  }

  /** Everything a sync asks for. */
  predicate MaySync(bootstrapMode: bool, ps: seq<Projection>, excludedSources: set<PointId>, present: bool,
                    dimension: nat, wanted: nat)
  {
    && bootstrapMode
    && (forall p :: p in ps && IsWritten(p, excludedSources) ==> Marked(p))
    && (exists p :: p in ps && IsWritten(p, excludedSources))
    && DistinctWhereWritten(ps, excludedSources)
    && (present ==> dimension == wanted)
  }

  lemma SelectedDecided(ps: seq<Projection>, excludedSources: set<PointId>)
    ensures forall p :: p in Selected(ps, excludedSources) <==> p in ps && IsWritten(p, excludedSources)
  {
    hide Selected, Withheld, StorageSafe;
    SelectedFacts(ps, excludedSources);
    forall p ensures StorageSafe(p) <==> !Withheld(p) {
      KeepsDecided(p, []);
    }
  }

  lemma {:induction false} DistinctDecided(ps: seq<Projection>, excludedSources: set<PointId>)
    ensures DistinctIds(Selected(ps, excludedSources)) <==> DistinctWhereWritten(ps, excludedSources)
  {
    hide IsWritten, StorageSafe, DistinctIds, DistinctWhereWritten, Selected;
    if ps == [] {
      NothingIsDistinct(excludedSources);
    } else {
      var init, last := ps[..|ps| - 1], ps[|ps| - 1];
      assert ps == init + [last];
      DistinctDecided(init, excludedSources);
      SelectedDecided(init, excludedSources);
      LastIsSelected(init, last, excludedSources);
      DistinctSnoc(init, last, excludedSources);
      if IsWritten(last, excludedSources) {
        LastIsDistinct(Selected(init, excludedSources), last);
        MembersArePositions(init, excludedSources, last);
      } else {
        assert Selected(init, excludedSources) + [] == Selected(init, excludedSources);
      }
    }
  }

  lemma NothingIsDistinct(excludedSources: set<PointId>)
    ensures DistinctIds(Selected([], excludedSources)) && DistinctWhereWritten([], excludedSources)
  {
  }

  lemma DistinctSnoc(init: seq<Projection>, last: Projection, excludedSources: set<PointId>)
    ensures DistinctWhereWritten(init + [last], excludedSources) <==>
      && DistinctWhereWritten(init, excludedSources)
      && (IsWritten(last, excludedSources) ==>
            forall i :: 0 <= i < |init| && IsWritten(init[i], excludedSources) ==> init[i].id != last.id)
  {
    hide IsWritten;
    var ps := init + [last];
    assert forall i :: 0 <= i < |init| ==> ps[i] == init[i];
    if DistinctWhereWritten(ps, excludedSources) && IsWritten(last, excludedSources) {
      forall i | 0 <= i < |init| && IsWritten(init[i], excludedSources) ensures init[i].id != last.id {
        assert ps[i].id != ps[|init|].id;
      }
    }
  }

  lemma LastIsSelected(init: seq<Projection>, last: Projection, excludedSources: set<PointId>)
    ensures Selected(init + [last], excludedSources)
         == Selected(init, excludedSources) + if IsWritten(last, excludedSources) then [last] else []
  {
    assert (init + [last])[..|init|] == init;
    KeepsDecided(last, []);
  }

  lemma LastIsDistinct(kept: seq<Projection>, last: Projection)
    ensures DistinctIds(kept + [last]) <==> DistinctIds(kept) && forall p :: p in kept ==> p.id != last.id
  {
    var all := kept + [last];
    assert forall i :: 0 <= i < |kept| ==> all[i] == kept[i];
    if DistinctIds(all) {
      forall p | p in kept ensures p.id != last.id {
        var i :| 0 <= i < |kept| && kept[i] == p;
        assert all[i].id != all[|kept|].id;
      }
    }
  }

  lemma MembersArePositions(ps: seq<Projection>, excludedSources: set<PointId>, last: Projection)
    requires forall p :: p in Selected(ps, excludedSources) <==> p in ps && IsWritten(p, excludedSources)
    ensures (forall p :: p in Selected(ps, excludedSources) ==> p.id != last.id) <==>
      forall i :: 0 <= i < |ps| && IsWritten(ps[i], excludedSources) ==> ps[i].id != last.id
  {
    hide Selected, IsWritten;
    if forall p :: p in Selected(ps, excludedSources) ==> p.id != last.id {
      forall i | 0 <= i < |ps| && IsWritten(ps[i], excludedSources) ensures ps[i].id != last.id {
        assert ps[i] in ps;
      }
    }
  }

  /** The digest names the collection, and every written point with its checksum. */
  ghost predicate IsWrittenDigest(ps: seq<Projection>, excludedSources: set<PointId>, hash: ManifestHash)
  {
    && hash.collection == "magicforge_bootstrap_v03"
    && forall x :: x in hash.points <==>
         exists p :: p in ps && IsWritten(p, excludedSources) && x == (p.id, ChecksumOf(p))
  }

  lemma WrittenDigestIs(ps: seq<Projection>, excludedSources: set<PointId>, kept: seq<Projection>)
    requires forall p :: p in kept <==> p in ps && IsWritten(p, excludedSources)
    ensures IsWrittenDigest(ps, excludedSources, HashOf(COLLECTION, kept))
  {
    hide IsWritten;
    DigestIs(kept);
  }

  /** What the sync leaves: each written projection under its id, with marker, checksum and manifest. */
  ghost predicate IsSynced(ps: seq<Projection>, excludedSources: set<PointId>, hash: ManifestHash, points: Points)
  {
    && IsWrittenDigest(ps, excludedSources, hash)
    && (forall p :: p in ps && IsWritten(p, excludedSources) ==>
          p.id in points && points[p.id] == Stored(p, "bootstrap", ChecksumOf(p), hash))
    && forall id :: id in points ==> exists p :: p in ps && IsWritten(p, excludedSources) && p.id == id
  }

  /** The writer stops before it touches a point unless it may sync; else it leaves exactly the written projections. */
  lemma SyncDecided(bootstrapMode: bool, ps: seq<Projection>, excludedSources: set<PointId>, present: bool,
                    dimension: nat, wanted: nat)
    ensures var kept := Selected(ps, excludedSources);
      var refusal := Refusal(bootstrapMode, kept, present, dimension, wanted);
      && (refusal.None? <==> MaySync(bootstrapMode, ps, excludedSources, present, dimension, wanted))
      && (refusal.None? ==>
            var made := Identified("magicforge_bootstrap_v03", kept, None, [], 0);
            && made == Identified(COLLECTION, kept, None, [], 0) && made.Success?
            && IsSynced(ps, excludedSources, made.value.hash, PointsOf(made.value))
            && forall id :: id in made.value.expectedIds <==> id in PointsOf(made.value))
  {
    hide Selected, IsWritten, Unverified, Marked, DistinctIds, DistinctWhereWritten, WithUpserts, IsSynced;
    var kept := Selected(ps, excludedSources);
    SelectedDecided(ps, excludedSources);
    DistinctDecided(ps, excludedSources);
    forall p ensures Unverified(p) <==> Marked(p) {
      KeepsDecided(p, []);
    }
    if kept != [] {
      assert kept[0] in kept;
    }
    if Refusal(bootstrapMode, kept, present, dimension, wanted).None? {
      SyncedIs(ps, excludedSources, kept);
    }
  }

  lemma SyncedIs(ps: seq<Projection>, excludedSources: set<PointId>, kept: seq<Projection>)
    requires forall p :: p in kept <==> p in ps && IsWritten(p, excludedSources)
    requires DistinctIds(kept) && kept != []
    ensures var m := Identified(COLLECTION, kept, None, [], 0).value;
      && IsSynced(ps, excludedSources, m.hash, PointsOf(m))
      && forall id :: id in m.expectedIds <==> id in PointsOf(m)
  {
    hide IsWritten, WithUpserts, IdSet, DistinctIds, HashOf, IsWrittenDigest;
    var m := Identified(COLLECTION, kept, None, [], 0).value;
    UpsertedPoint(map[], kept, m);
    IdListElements(kept);
    WrittenDigestIs(ps, excludedSources, kept);
    forall id | id in PointsOf(m) ensures exists p :: p in ps && IsWritten(p, excludedSources) && p.id == id {
      var p := FromIdSet(kept, id);
    }
    forall id ensures id in m.expectedIds <==> id in PointsOf(m) {
      assert id in m.expectedIds <==> id in Elements(m.expectedIds);
    }
  }

  /** The collection is exactly the manifest's, each point with its checksum and markers. */
  lemma VerifiedDecided(points: Points, m: Manifest)
    requires ValidManifest(m)
    ensures Verified(points, m) <==>
      && (forall id :: id in points <==> Holds(m.projections, id))
      && forall p :: p in m.projections && p.id in points ==>
           && points[p.id].checksum == ChecksumOf(p) && points[p.id].reviewStatus == "bootstrap"
           && points[p.id].projection.bootstrapGenerated && !points[p.id].projection.humanVerified
  {
    hide Holds, IdSet;
    forall id ensures id in IdSet(m.projections) <==> Holds(m.projections, id) {
      HoldsDecided(m.projections, id);
    }
    if Verified(points, m) {
      VerifiedIsExact(points, m);
      forall p | p in m.projections ensures Carries(points, p) {
        var i :| 0 <= i < |m.projections| && m.projections[i] == p;
      }
    } else if forall id :: id in points <==> Holds(m.projections, id) {
      IdListElements(m.projections);
      assert points.Keys == IdSet(m.projections) && |points| == |points.Keys|;
      forall i | 0 <= i < |m.projections| ensures m.projections[i].id in points {
        InIdSet(m.projections, m.projections[i]);
      }
    }
  }
}
