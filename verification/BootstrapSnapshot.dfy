/**
 Composing a baseline and a delta manifest into one snapshot (retrieval/bootstrap_snapshot.py)
 and the identity of the manifest that holds it (retrieval/bootstrap_v03.py). The merge refuses
 two different projections under one point id, drops what storage safety or an audited
 exclusion forbids, and accounts for every input point.
 */
module BootstrapSnapshot {
  import opened Wrappers
  import opened Sequences
  import opened Ordering
  import opened Vocabulary

  type PointId = nat

  // ----- Projections and manifests -----

  datatype Projection = Projection(
    id: PointId,
    sourceCandidate: PointId,
    roles: set<string>,
    level: Sensitivity,
    content: string,
    bootstrapGenerated: bool,
    humanVerified: bool,
    approved: bool,
    storagePermission: bool)

  /** The digest of the whole projection. */
  datatype Checksum = ChecksumOf(projection: Projection)

  /** `_storage_safe`: procedural methods at the controlled and the restricted level stay out. */
  predicate StorageSafe(p: Projection)
  {
    !("method" in p.roles && (p.level.Controlled? || p.level.Restricted?))
  }

  predicate Unverified(p: Projection)
  {
    p.bootstrapGenerated && !p.humanVerified && !p.approved && !p.storagePermission
  }

  function IdOf(p: Projection): PointId {
    p.id
  }

  function IdSet(ps: seq<Projection>): set<PointId>
  {
    set p | p in ps :: IdOf(p)
  }

  function IdList(ps: seq<Projection>): (ids: seq<PointId>)
    ensures |ids| == |ps|
    ensures forall i :: 0 <= i < |ps| ==> ids[i] == ps[i].id
  {
    seq(|ps|, i requires 0 <= i < |ps| => ps[i].id)
  }

  predicate DistinctIds(ps: seq<Projection>)
  {
    forall i, j :: 0 <= i < j < |ps| ==> ps[i].id != ps[j].id
  }

  /** The content a manifest digest covers: collection, and every point with its checksum. */
  datatype ManifestHash = ManifestHash(collection: string, points: set<(PointId, Checksum)>)

  datatype Manifest = Manifest(
    collection: string,
    projections: seq<Projection>,
    hash: ManifestHash,
    expectedIds: seq<PointId>,
    expectedCount: nat)

  const COLLECTION := "magicforge_bootstrap_v03"

  datatype ManifestError = WrongCollection | NoProjections | DuplicatePoints | HashMismatch | IdsMismatch
                         | CountMismatch

  function HashOf(collection: string, ps: seq<Projection>): ManifestHash
  {
    ManifestHash(collection, set p | p in ps :: (p.id, ChecksumOf(p)))
  }

  /** `BootstrapV03Manifest.assign_identity`; the id is a function of the hash and is not kept apart. */
  function Identified(collection: string, ps: seq<Projection>, hash: Option<ManifestHash>,
                      expectedIds: seq<PointId>, expectedCount: nat): Result<Manifest, ManifestError>
  {
    if ps == [] then Failure(NoProjections)
    else if collection != COLLECTION then Failure(WrongCollection)
    else if !DistinctIds(ps) then Failure(DuplicatePoints)
    else if hash.Some? && hash.value != HashOf(collection, ps) then Failure(HashMismatch)
    else if expectedIds != [] && expectedIds != IdList(ps) then Failure(IdsMismatch)
    else if expectedCount != 0 && expectedCount != |ps| then Failure(CountMismatch)
    else Success(Manifest(collection, ps, HashOf(collection, ps), IdList(ps), |ps|))
  }

  /** What validation guarantees of either input manifest. */
  predicate ValidInput(m: Manifest)
  {
    && m.projections != [] && DistinctIds(m.projections)
    && (forall p :: p in m.projections ==> Unverified(p))
  }

  // ----- The merge -----

  datatype Exclusion = Exclusion(pointId: PointId, reason: string, sourceAudit: string)

  function PolicyIds(exclusions: seq<Exclusion>): set<PointId>
  {
    set e | e in exclusions :: e.pointId
  }

  /** The dictionary after the loop, in insertion order: the first projection of every id. */
  function Uniques(ps: seq<Projection>): seq<Projection>
  {
    if ps == [] then []
    else
      var rest, last := ps[..|ps| - 1], ps[|ps| - 1];
      if last.id in IdSet(rest) then Uniques(rest) else Uniques(rest) + [last]
  }

  /** The ids met again, one entry a meeting. */
  function Repeats(ps: seq<Projection>): seq<PointId>
  {
    if ps == [] then []
    else
      var rest, last := ps[..|ps| - 1], ps[|ps| - 1];
      if last.id in IdSet(rest) then Repeats(rest) + [last.id] else Repeats(rest)
  }

  /** The first id met again with another checksum than it was first met with. */
  function FirstConflict(ps: seq<Projection>): Option<PointId>
  {
    if ps == [] then None
    else
      var rest, last := ps[..|ps| - 1], ps[|ps| - 1];
      if FirstConflict(rest).Some? then FirstConflict(rest)
      else if last.id in IdSet(rest) && ChecksumOf(last) !in Checksums(rest, last.id) then Some(last.id)
      else None
  }

  function Checksums(ps: seq<Projection>, id: PointId): set<Checksum>
  {
    set p | p in ps && p.id == id :: ChecksumOf(p)
  }

  function CountSafe(ps: seq<Projection>): (n: nat)
    ensures n <= |ps|
  {
    if ps == [] then 0 else CountSafe(ps[..|ps| - 1]) + if StorageSafe(ps[|ps| - 1]) then 1 else 0
  }

  /** What stays out of the snapshot. */
  function ExcludedIds(unique: seq<Projection>, policy: set<PointId>): set<PointId>
  {
    (set p | p in unique && !StorageSafe(p) :: IdOf(p)) + policy
  }

  function Kept(unique: seq<Projection>, excluded: set<PointId>): seq<Projection>
  {
    if unique == [] then []
    else
      var rest, last := unique[..|unique| - 1], unique[|unique| - 1];
      Kept(rest, excluded) + if last.id in excluded then [] else [last]
  }

  function ById(): (Projection, Projection) -> bool
  {
    (a: Projection, b: Projection) => a.id <= b.id
  }

  /** A set as an ascending list. */
  function Listed(s: set<PointId>): (xs: seq<PointId>)
    ensures |xs| == |s|
    decreases |s|
  {
    if s == {} then [] else [Least(s)] + Listed(s - {Least(s)})
  }

  function Least(s: set<PointId>): (least: PointId)
    requires s != {}
    ensures least in s && forall x :: x in s ==> least <= x
  {
    MinExists(s);
    var least :| least in s && forall x :: x in s ==> least <= x;
    least
  }

  lemma {:induction false} MinAtOrBelow(s: set<PointId>, x: PointId)
    requires x in s
    ensures exists least :: least in s && forall y :: y in s ==> least <= y
    decreases x
  {
    if y :| y in s && y < x {
      MinAtOrBelow(s, y);
    } else {
      assert forall y :: y in s ==> x <= y;
    }
  }

  lemma MinExists(s: set<PointId>)
    requires s != {}
    ensures exists least :: least in s && forall x :: x in s ==> least <= x
  {
    var any :| any in s;
    MinAtOrBelow(s, any);
  }

  /** `_require_sha256` accepts: 64 lower-case hexadecimal digits. */
  predicate IsSha256(digest: string)
  {
    |digest| == 64 && forall i :: 0 <= i < |digest| ==> '0' <= digest[i] <= '9' || 'a' <= digest[i] <= 'f'
  }

  /** A digest is given, and an empty one counts as none. */
  predicate Given(digest: Option<string>)
  {
    digest.Some? && digest.value != ""
  }

  datatype InputAccount = InputAccount(
    hash: ManifestHash, sourceDigest: string, pointCount: nat, safeCount: nat, unsafeCount: nat)

  datatype Lineage = Lineage(
    baseline: InputAccount,
    delta: InputAccount,
    duplicateCount: nat,
    duplicateIds: seq<PointId>,
    unsafeInputCount: nat,
    unsafeUniqueCount: nat,
    excludedIds: seq<PointId>,
    ledger: Option<string>,
    policyExclusions: seq<Exclusion>,
    outputHash: ManifestHash,
    outputCount: nat)

  datatype Snapshot = Snapshot(manifest: Manifest, lineage: Lineage)

  datatype SnapshotError =
    | BadDigest | LedgerMismatch | Conflict(id: PointId) | DuplicatePolicy | UnknownPolicy | NothingSafe | UnsafeMarkers
    | BadManifest(error: ManifestError) | BadLineage | UnboundLineage

  /** The validators of `BootstrapSnapshotInput` and `BootstrapSnapshotLineage`. */
  predicate InputAccepted(a: InputAccount)
  {
    IsSha256(a.sourceDigest) && a.pointCount >= 1 && a.safeCount + a.unsafeCount == a.pointCount
  }

  predicate LineageAccepted(l: Lineage)
  {
    && InputAccepted(l.baseline) && InputAccepted(l.delta)
    && |l.duplicateIds| == |Elements(l.duplicateIds)|
    && |l.excludedIds| == |Elements(l.excludedIds)|
    && |PolicyIds(l.policyExclusions)| == |l.policyExclusions|
    && (l.policyExclusions != []) == Given(l.ledger)
    && PolicyIds(l.policyExclusions) <= Elements(l.excludedIds)
    && l.duplicateCount == |l.duplicateIds|
    && l.unsafeUniqueCount == |l.excludedIds|
    && l.unsafeInputCount == l.baseline.unsafeCount + l.delta.unsafeCount
    && l.baseline.pointCount + l.delta.pointCount - l.duplicateCount - l.unsafeUniqueCount == l.outputCount
    && l.outputCount >= 1
  }

  predicate Bound(s: Snapshot)
  {
    s.lineage.outputHash == s.manifest.hash && s.lineage.outputCount == s.manifest.expectedCount
  }

  function AccountOf(m: Manifest, digest: string, safe: nat): InputAccount
    requires safe <= |m.projections|
  {
    InputAccount(m.hash, digest, |m.projections|, safe, |m.projections| - safe)
  }

  function ByPoint(): (Exclusion, Exclusion) -> bool
  {
    (a: Exclusion, b: Exclusion) => a.pointId <= b.pointId
  }

  function LineageOf(b: InputAccount, d: InputAccount, repeats: seq<PointId>, excluded: set<PointId>,
                     exclusions: seq<Exclusion>, ledger: Option<string>, output: Manifest): Lineage
  {
    Lineage(b, d, |repeats|, Listed(Elements(repeats)), b.unsafeCount + d.unsafeCount, |Listed(excluded)|,
            Listed(excluded), ledger, StableSort(exclusions, ByPoint()), output.hash, output.expectedCount)
  }

  /** Everything after the conflict scan. */
  function Compose(b: InputAccount, d: InputAccount, unique: seq<Projection>, repeats: seq<PointId>,
                   exclusions: seq<Exclusion>, ledger: Option<string>): Result<Snapshot, SnapshotError>
  {
    var excluded := ExcludedIds(unique, PolicyIds(exclusions));
    var output := StableSort(Kept(unique, excluded), ById());
    if |PolicyIds(exclusions)| != |exclusions| then Failure(DuplicatePolicy)
    else if !(PolicyIds(exclusions) <= IdSet(unique)) then Failure(UnknownPolicy)
    else if output == [] then Failure(NothingSafe)
    else if exists p :: p in output && !Unverified(p) then Failure(UnsafeMarkers)
    else
      match Identified(COLLECTION, output, None, [], 0)
      case Failure(e) => Failure(BadManifest(e))
      case Success(manifest) =>
        var lineage := LineageOf(b, d, repeats, excluded, exclusions, ledger, manifest);
        if !LineageAccepted(lineage) then Failure(BadLineage)
        else if !Bound(Snapshot(manifest, lineage)) then Failure(UnboundLineage)
        else Success(Snapshot(manifest, lineage))
  }

  /** The checks made before the inputs are looked at. */
  function Precheck(baselineDigest: string, deltaDigest: string, exclusions: seq<Exclusion>, ledger: Option<string>)
    : Option<SnapshotError>
  {
    if !IsSha256(baselineDigest) || !IsSha256(deltaDigest) then Some(BadDigest)
    else if (exclusions != []) != Given(ledger) then Some(LedgerMismatch)
    else if ledger.Some? && !IsSha256(ledger.value) then Some(BadDigest)
    else None
  }

  function Merge(baseline: Manifest, delta: Manifest, baselineDigest: string, deltaDigest: string,
                 exclusions: seq<Exclusion>, ledger: Option<string>): Result<Snapshot, SnapshotError>
  {
    var ordered := baseline.projections + delta.projections;
    var refusal := Precheck(baselineDigest, deltaDigest, exclusions, ledger);
    if refusal.Some? then Failure(refusal.value)
    else if FirstConflict(ordered).Some? then Failure(Conflict(FirstConflict(ordered).value))
    else
      var b := AccountOf(baseline, baselineDigest, CountSafe(baseline.projections));
      var d := AccountOf(delta, deltaDigest, CountSafe(delta.projections));
      Compose(b, d, Uniques(ordered), Repeats(ordered), exclusions, ledger)
  }

  /** `build_bootstrap_snapshot`. */
  method BuildSnapshot(baseline: Manifest, delta: Manifest, baselineDigest: string, deltaDigest: string,
                       exclusions: seq<Exclusion>, ledger: Option<string>)
    returns (r: Result<Snapshot, SnapshotError>)
    ensures r == Merge(baseline, delta, baselineDigest, deltaDigest, exclusions, ledger)
  {
    hide Compose, Uniques, Repeats, FirstConflict, CountSafe, IsSha256;
    if !IsSha256(baselineDigest) || !IsSha256(deltaDigest) {
      return Failure(BadDigest);
    }
    if (exclusions != []) != Given(ledger) {
      return Failure(LedgerMismatch);
    }
    if ledger.Some? && !IsSha256(ledger.value) {
      return Failure(BadDigest);
    }
    var conflict, unique, duplicates := Scan(baseline.projections + delta.projections);
    if conflict.Some? {
      return Failure(Conflict(conflict.value));
    }
    var safeBaseline := CountSafePoints(baseline.projections);
    var safeDelta := CountSafePoints(delta.projections);
    r := Compose(AccountOf(baseline, baselineDigest, safeBaseline), AccountOf(delta, deltaDigest, safeDelta), unique,
                 duplicates, exclusions, ledger);
  }

  method CountSafePoints(ps: seq<Projection>) returns (safe: nat)
    ensures safe == CountSafe(ps)
  {
    safe := 0;
    for n := 0 to |ps|
      invariant safe == CountSafe(ps[..n])
    {
      assert ps[..n + 1][..n] == ps[..n];
      if StorageSafe(ps[n]) {
        safe := safe + 1;
      }
    }
    assert ps[..|ps|] == ps;
  }

  /** The first loop: a dictionary filled in input order, every later meeting of an id compared. */
  method Scan(ordered: seq<Projection>)
    returns (conflict: Option<PointId>, unique: seq<Projection>, duplicates: seq<PointId>)
    ensures conflict == FirstConflict(ordered)
    ensures conflict == None ==> unique == Uniques(ordered) && duplicates == Repeats(ordered)
  {
    hide Checksums, IdSet, FirstConflict, Uniques, Repeats;
    var byPointId: map<PointId, Projection> := map[];
    unique, duplicates := [], [];
    ScanNothing();
    for n := 0 to |ordered|
      invariant FirstConflict(ordered[..n]) == None
      invariant unique == Uniques(ordered[..n]) && duplicates == Repeats(ordered[..n])
      invariant byPointId.Keys == IdSet(ordered[..n])
      invariant forall id :: id in byPointId ==> Checksums(ordered[..n], id) == {ChecksumOf(byPointId[id])}
    {
      var projection := ordered[n];
      assert ordered[..n + 1] == ordered[..n] + [projection];
      ScanStep(ordered[..n], projection);
      ScanUnfold(ordered[..n], projection);
      if projection.id !in byPointId {
        byPointId := byPointId[projection.id := projection];
        unique := unique + [projection];
      } else if ChecksumOf(byPointId[projection.id]) != ChecksumOf(projection) {
        ConflictStays(ordered, n + 1);
        return Some(projection.id), unique, duplicates;
      } else {
        duplicates := duplicates + [projection.id];
      }
    }
    assert ordered[..|ordered|] == ordered;
    conflict := None;
  }

  lemma ScanNothing()
    ensures FirstConflict([]) == None && Uniques([]) == [] && Repeats([]) == [] && IdSet([]) == {}
  {
  }

  lemma ScanUnfold(ps: seq<Projection>, p: Projection)
    requires FirstConflict(ps) == None
    ensures Uniques(ps + [p]) == if p.id in IdSet(ps) then Uniques(ps) else Uniques(ps) + [p]
    ensures Repeats(ps + [p]) == if p.id in IdSet(ps) then Repeats(ps) + [p.id] else Repeats(ps)
    ensures FirstConflict(ps + [p]) ==
            if p.id in IdSet(ps) && ChecksumOf(p) !in Checksums(ps, p.id) then Some(p.id) else None
  {
    hide Checksums, IdSet;
    assert (ps + [p])[..|ps|] == ps;
  }

  lemma ScanStep(ps: seq<Projection>, p: Projection)
    ensures IdSet(ps + [p]) == IdSet(ps) + {p.id}
    ensures forall id :: Checksums(ps + [p], id) == Checksums(ps, id) + if id == p.id then {ChecksumOf(p)} else {}
    ensures p.id !in IdSet(ps) ==> Checksums(ps, p.id) == {}
  {
    var all := ps + [p];
    assert forall q :: q in all <==> q in ps || q == p;
    forall id ensures id in IdSet(all) <==> id in IdSet(ps) + {p.id} {
      if id in IdSet(ps) {
        var q :| q in ps && IdOf(q) == id;
        assert q in all;
      }
      assert IdOf(p) == p.id;
    }
    assert IdSet(all) == IdSet(ps) + {p.id};
    forall id ensures Checksums(all, id) == Checksums(ps, id) + if id == p.id then {ChecksumOf(p)} else {} {
      assert forall q :: q in all && q.id == id <==> (q in ps && q.id == id) || (q == p && p.id == id);
    }
    if p.id !in IdSet(ps) {
      assert forall q :: q in ps ==> IdOf(q) in IdSet(ps);
    }
  }

  lemma {:induction false} ConflictStays(ps: seq<Projection>, n: nat)
    requires n <= |ps| && FirstConflict(ps[..n]).Some?
    ensures FirstConflict(ps) == FirstConflict(ps[..n])
    decreases |ps| - n
  {
    if n < |ps| {
      assert ps[..n + 1][..n] == ps[..n];
      ConflictStays(ps, n + 1);
    } else {
      assert ps[..n] == ps;
    }
  }
}
