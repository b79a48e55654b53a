/**
 Making a collection equal to a manifest (retrieval/bootstrap_v03.py): upsert in batches, scroll
 through every stored id page by page, delete what the manifest does not name, and verify.
 */
module BootstrapSync {
  import opened Wrappers
  import opened Sequences
  import opened BootstrapSnapshot
  import opened SnapshotAccounting

  const BATCH := 256

  /** A stored payload: the projection's own fields, its checksum, and the manifest it came from. */
  datatype Stored = Stored(projection: Projection, reviewStatus: string, checksum: Checksum, manifestHash: ManifestHash)

  type Points = map<PointId, Stored>

  /** `to_payload`. */
  function ToPayload(p: Projection, m: Manifest): Stored
  {
    Stored(p, "bootstrap", ChecksumOf(p), m.hash)
  }

  // ----- The store -----

  /** The ids a scroll from `offset` has still to return. */
  function Remaining(points: Points, offset: Option<PointId>): set<PointId>
  {
    set id | id in points && (offset.Some? ==> id >= offset.value)
  }

  function WithUpserts(points: Points, ps: seq<Projection>, m: Manifest): Points
    decreases |ps|
  {
    if ps == [] then points
    else
      var last := ps[|ps| - 1];
      WithUpserts(points, ps[..|ps| - 1], m)[last.id := ToPayload(last, m)]
  }

  class Client {
    var present: bool
    var dimension: nat
    var points: Points

    constructor (present: bool, dimension: nat, points: Points)
      ensures this.present == present && this.dimension == dimension && this.points == points
    {
      this.present, this.dimension, this.points := present, dimension, points;
    }

    /** An absent collection is created empty. */
    method CreateCollection(dimension: nat)
      modifies this
      ensures present && this.dimension == dimension && points == map[]
    {
      present, this.dimension, points := true, dimension, map[];
    }

    method Upsert(batch: seq<Projection>, m: Manifest)
      modifies this`points
      ensures points == WithUpserts(old(points), batch, m)
    {
      for n := 0 to |batch|
        invariant points == WithUpserts(old(points), batch[..n], m)
      {
        assert batch[..n + 1][..n] == batch[..n];
        points := points[batch[n].id := ToPayload(batch[n], m)];
      }
      assert batch[..|batch|] == batch;
    }

    /** One page in id order; the store alone decides where it ends, up to `BATCH` records. */
    method Scroll(offset: Option<PointId>) returns (records: seq<PointId>, next: Option<PointId>)
      ensures |records| <= BATCH
      ensures next.None? ==> Elements(records) == Remaining(points, offset)
      ensures next.Some? ==> IsPage(points, offset, records, next)
    {
      hide Remaining, Elements, IsPage;
      var all := Listed(Remaining(points, offset));
      ListedFacts(Remaining(points, offset));
      var n: nat :| n <= |all| && n <= BATCH && (n == 0 ==> all == []);
      records := all[..n];
      next := if n == |all| then None else Some(all[n]);
      PageSplits(points, offset, all, n);
    }

    method Delete(ids: seq<PointId>)
      modifies this`points
      ensures points == old(points) - Elements(ids)
    {
      points := points - Elements(ids);
    }

    /** The stored ones among `ids`. */
    method Retrieve(ids: seq<PointId>) returns (records: seq<PointId>)
      ensures Elements(records) == Elements(ids) * points.Keys
    {
      records := [];
      for n := 0 to |ids|
        invariant Elements(records) == Elements(ids[..n]) * points.Keys
      {
        assert ids[..n + 1] == ids[..n] + [ids[n]];
        ElementsSnoc(ids[..n], ids[n]);
        ElementsSnoc(records, ids[n]);
        if ids[n] in points {
          records := records + [ids[n]];
        }
      }
      assert ids[..|ids|] == ids;
    }
  }

  lemma TailIsRest(points: Points, offset: Option<PointId>, all: seq<PointId>, n: nat)
    requires Elements(all) == Remaining(points, offset) && Increasing(all) && n < |all|
    ensures Elements(all[n..]) == Remaining(points, Some(all[n]))
  {
    var rest := Remaining(points, Some(all[n]));
    assert all[n] in Elements(all);
    forall id | id in Elements(all[n..]) ensures id in rest {
      var i :| 0 <= i < |all| - n && all[n..][i] == id;
      assert all[n + i] == id && id in Elements(all);
    }
    forall id | id in rest ensures id in Elements(all[n..]) {
      assert id in Elements(all);
      var i :| 0 <= i < |all| && all[i] == id;
      assert i >= n;
      assert all[n..][i - n] == id;
    }
  }

  lemma PageSplits(points: Points, offset: Option<PointId>, all: seq<PointId>, n: nat)
    requires Elements(all) == Remaining(points, offset) && Increasing(all) && n <= |all|
    requires n == 0 ==> all == []
    ensures n == |all| ==> Elements(all[..n]) == Remaining(points, offset)
    ensures n < |all| ==> IsPage(points, offset, all[..n], Some(all[n]))
  {
    hide Remaining, Elements;
    if n == |all| {
      assert all[..n] == all;
    } else {
      TailIsRest(points, offset, all, n);
      assert all == all[..n] + all[n..];
      ElementsConcat(all[..n], all[n..]);
      FirstIsGone(points, all, n);
      SubsetCount(Remaining(points, Some(all[n])), Remaining(points, offset));
    }
  }

  lemma FirstIsGone(points: Points, all: seq<PointId>, n: nat)
    requires Increasing(all) && 0 < n < |all|
    ensures all[0] in Elements(all) && all[0] !in Remaining(points, Some(all[n]))
  {
  }

  /** A page and what comes behind it make up what there was to read, and the rest is smaller. */
  predicate IsPage(points: Points, offset: Option<PointId>, records: seq<PointId>, next: Option<PointId>)
  {
    && Elements(records) + Remaining(points, next) == Remaining(points, offset)
    && |Remaining(points, next)| < |Remaining(points, offset)|
  }

  // ----- The writer -----

  datatype SyncError =
    | NotBootstrapMode | UnsafeProjection | BadInput(error: ManifestError) | WrongDimension
    | MissingPoints | ForeignPoints | ChecksumMismatch(id: PointId) | MarkerMissing(id: PointId)
    | UnsafeVerification(id: PointId) | UnsafeStatus(id: PointId)

  datatype Receipt = Receipt(manifestHash: ManifestHash, pointIds: seq<PointId>)

  /** What a verified collection looks like for one manifest. */
  predicate Carries(points: Points, p: Projection)
  {
    && p.id in points
    && points[p.id].checksum == ChecksumOf(p)
    && points[p.id].projection.bootstrapGenerated
    && !points[p.id].projection.humanVerified
    && points[p.id].reviewStatus == "bootstrap"
  }

  predicate Verified(points: Points, m: Manifest)
  {
    && |points| == |m.projections|
    && forall i :: 0 <= i < |m.projections| ==> Carries(points, m.projections[i])
  }

  /** A manifest as its validator leaves it. */
  predicate ValidManifest(m: Manifest)
  {
    DistinctIds(m.projections) && m.expectedIds == IdList(m.projections) && m.expectedCount == |m.projections|
  }

  /** Verification admits no other point: the ids are exactly the manifest's. */
  lemma VerifiedIsExact(points: Points, m: Manifest)
    requires ValidManifest(m) && Verified(points, m)
    ensures points.Keys == IdSet(m.projections)
  {
    var ids := IdSet(m.projections);
    IdListElements(m.projections);
    forall id | id in ids ensures id in points {
      var p := FromIdSet(m.projections, id);
    }
    assert |points.Keys - ids| == |points.Keys| - |ids|;
  }

  /** The scroll loop: whatever the page boundaries, it ends and has seen every id. */
  method ScrollAll(client: Client) returns (current: set<PointId>)
    ensures current == client.points.Keys
  {
    hide Elements;
    current := {};
    var offset: Option<PointId> := None;
    while true
      invariant current + Remaining(client.points, offset) == client.points.Keys
      decreases |Remaining(client.points, offset)|
    {
      var records, next := client.Scroll(offset);
      hide Remaining;
      current := current + Elements(records);
      if next.None? {
        break;
      }
      offset := next;
    }
  }

  method DeleteInBatches(client: Client, ids: seq<PointId>)
    modifies client`points
    ensures client.points == old(client.points) - Elements(ids)
  {
    hide Elements;
    var start := 0;
    ElementsOfNothing<PointId>();
    while start < |ids|
      invariant 0 <= start <= |ids|
      invariant client.points == old(client.points) - Elements(ids[..start])
    {
      var stop := if start + BATCH <= |ids| then start + BATCH else |ids|;
      client.Delete(ids[start..stop]);
      assert ids[..stop] == ids[..start] + ids[start..stop];
      ElementsConcat(ids[..start], ids[start..stop]);
      start := stop;
    }
    assert ids[..start] == ids;
  }

  /** `_remove_stale_points`. */
  method RemoveStalePoints(client: Client, expected: set<PointId>)
    modifies client`points
    ensures client.points == map id | id in old(client.points) && id in expected :: old(client.points)[id]
  {
    hide Elements, Listed;
    var current := ScrollAll(client);
    var stale := Listed(current - expected);
    ListedFacts(current - expected);
    DeleteInBatches(client, stale);
  }

  /** `_verify`: raises unless the collection is exactly the manifest's. */
  method Verify(client: Client, m: Manifest) returns (r: Result<(), SyncError>)
    requires ValidManifest(m)
    ensures r.Success? <==> Verified(client.points, m)
  {
    var records: seq<PointId> := [];
    var start := 0;
    while start < m.expectedCount
      invariant 0 <= start <= m.expectedCount
      invariant Elements(records) == Elements(m.expectedIds[..start]) * client.points.Keys
    {
      var stop := if start + BATCH <= m.expectedCount then start + BATCH else m.expectedCount;
      var found := client.Retrieve(m.expectedIds[start..stop]);
      ElementsConcat(records, found);
      assert m.expectedIds[..stop] == m.expectedIds[..start] + m.expectedIds[start..stop];
      ElementsConcat(m.expectedIds[..start], m.expectedIds[start..stop]);
      records := records + found;
      start := stop;
    }
    assert m.expectedIds[..start] == m.expectedIds;
    RecordsFound(client.points, m, records);
    if Elements(records) != Elements(m.expectedIds) {
      return Failure(MissingPoints);
    }
    if |client.points| != m.expectedCount {
      return Failure(ForeignPoints);
    }
    r := VerifyPayloads(client.points, m);
  }

  lemma RecordsFound(points: Points, m: Manifest, records: seq<PointId>)
    requires ValidManifest(m) && Elements(records) == Elements(m.expectedIds) * points.Keys
    ensures Elements(records) == Elements(m.expectedIds) <==>
            forall i :: 0 <= i < |m.projections| ==> m.projections[i].id in points
  {
    if Elements(records) == Elements(m.expectedIds) {
      forall i | 0 <= i < |m.projections| ensures m.projections[i].id in points {
        assert m.expectedIds[i] in Elements(m.expectedIds);
      }
    }
    if forall i :: 0 <= i < |m.projections| ==> m.projections[i].id in points {
      assert Elements(m.expectedIds) <= points.Keys;
    }
  }

  method VerifyPayloads(points: Points, m: Manifest) returns (r: Result<(), SyncError>)
    requires forall i :: 0 <= i < |m.projections| ==> m.projections[i].id in points
    ensures r.Success? <==> forall i :: 0 <= i < |m.projections| ==> Carries(points, m.projections[i])
  {
    for n := 0 to |m.projections|
      invariant forall i :: 0 <= i < n ==> Carries(points, m.projections[i])
    {
      var p := m.projections[n];
      var payload := points[p.id];
      if payload.checksum != ChecksumOf(p) {
        return Failure(ChecksumMismatch(p.id));
      }
      if !payload.projection.bootstrapGenerated {
        return Failure(MarkerMissing(p.id));
      }
      if payload.projection.humanVerified {
        return Failure(UnsafeVerification(p.id));
      }
      if payload.reviewStatus != "bootstrap" {
        return Failure(UnsafeStatus(p.id));
      }
    }
    r := Success(());
  }

  /** The projections the writer keeps of its input. */
  function Selected(ps: seq<Projection>, excludedSources: set<PointId>): seq<Projection>
  {
    if ps == [] then []
    else
      var rest, last := ps[..|ps| - 1], ps[|ps| - 1];
      Selected(rest, excludedSources)
      + if last.sourceCandidate !in excludedSources && StorageSafe(last) then [last] else []
  }

  /** Exactly the storage-safe projections of sources that are not excluded are kept. */
  lemma {:induction false} SelectedFacts(ps: seq<Projection>, excludedSources: set<PointId>)
    ensures forall p :: p in Selected(ps, excludedSources) <==>
              p in ps && p.sourceCandidate !in excludedSources && StorageSafe(p)
    ensures DistinctIds(ps) ==> DistinctIds(Selected(ps, excludedSources))
    decreases |ps|
  {
    hide StorageSafe;
    if ps != [] {
      Snoc(ps);
      SelectedFacts(ps[..|ps| - 1], excludedSources);
    }
  }

  /** The collection a manifest stands for. */
  function PointsOf(m: Manifest): Points
  {
    WithUpserts(map[], m.projections, m)
  }

  lemma {:induction false} UpsertedPoint(points: Points, ps: seq<Projection>, m: Manifest)
    requires DistinctIds(ps)
    ensures WithUpserts(points, ps, m).Keys == points.Keys + IdSet(ps)
    ensures forall p :: p in ps ==>
              p.id in WithUpserts(points, ps, m) && WithUpserts(points, ps, m)[p.id] == ToPayload(p, m)
    ensures forall id :: id in points && id !in IdSet(ps) ==> WithUpserts(points, ps, m)[id] == points[id]
    decreases |ps|
  {
    hide IdSet, ToPayload;
    if ps == [] {
      EmptyIdSet();
    } else {
      var rest, last := ps[..|ps| - 1], ps[|ps| - 1];
      Snoc(ps);
      assert DistinctIds(rest);
      UpsertedPoint(points, rest, m);
      ScanStep(rest, last);
    }
  }

  /** Upserting a manifest and dropping the ids it does not name leaves its points, whatever was there. */
  lemma SyncForgetsThePast(points: Points, m: Manifest)
    requires DistinctIds(m.projections)
    ensures var upserted := WithUpserts(points, m.projections, m);
            (map id | id in upserted && id in IdSet(m.projections) :: upserted[id]) == PointsOf(m)
  {
    hide IdSet, ToPayload, WithUpserts;
    UpsertedPoint(points, m.projections, m);
    UpsertedPoint(map[], m.projections, m);
    var upserted := WithUpserts(points, m.projections, m);
    forall id | id in IdSet(m.projections) ensures upserted[id] == PointsOf(m)[id] {
      var p := FromIdSet(m.projections, id);
    }
  }

  lemma SyncedIsVerified(m: Manifest)
    requires DistinctIds(m.projections) && forall p :: p in m.projections ==> Unverified(p)
    ensures Verified(PointsOf(m), m)
  {
    hide IdSet, WithUpserts;
    UpsertedPoint(map[], m.projections, m);
    IdListElements(m.projections);
    assert |PointsOf(m)| == |PointsOf(m).Keys|;
  }

  method UpsertInBatches(client: Client, m: Manifest)
    modifies client`points
    ensures client.points == WithUpserts(old(client.points), m.projections, m)
  {
    var ps := m.projections;
    var start := 0;
    while start < |ps|
      invariant 0 <= start <= |ps|
      invariant client.points == WithUpserts(old(client.points), ps[..start], m)
    {
      var stop := if start + BATCH <= |ps| then start + BATCH else |ps|;
      client.Upsert(ps[start..stop], m);
      assert ps[..stop] == ps[..start] + ps[start..stop];
      UpsertsConcat(old(client.points), ps[..start], ps[start..stop], m);
      start := stop;
    }
    assert ps[..start] == ps;
  }

  lemma {:induction false} UpsertsConcat(points: Points, xs: seq<Projection>, ys: seq<Projection>, m: Manifest)
    ensures WithUpserts(points, xs + ys, m) == WithUpserts(WithUpserts(points, xs, m), ys, m)
    decreases |ys|
  {
    if ys == [] {
      assert xs + ys == xs;
    } else {
      assert (xs + ys)[..|xs + ys| - 1] == xs + ys[..|ys| - 1];
      UpsertsConcat(points, xs, ys[..|ys| - 1], m);
    }
  }

  /** `value`, unless an error was raised before it. */
  function AndThen<U, E>(raised: Result<(), E>, value: U): Result<U, E>
  {
    match raised
    case Success(_) => Success(value)
    case Failure(e) => Failure(e)
  }

  /** Why the writer stops before it touches a point. */
  function Refusal(bootstrapMode: bool, ps: seq<Projection>, present: bool, dimension: nat, wanted: nat)
    : Option<SyncError>
  {
    var manifest := Identified(COLLECTION, ps, None, [], 0);
    if !bootstrapMode then Some(NotBootstrapMode)
    else if exists p :: p in ps && !Unverified(p) then Some(UnsafeProjection)
    else if manifest.Failure? then Some(BadInput(manifest.error))
    else if present && dimension != wanted then Some(WrongDimension)
    else None
  }

  /**
   `write_v03`. Either it stops before touching a point, or the collection becomes exactly the
   manifest's points and verification cannot fail.
   */
  method WriteV03(client: Client, bootstrapMode: bool, projections: seq<Projection>, excludedSources: set<PointId>,
                  wanted: nat)
    returns (r: Result<Receipt, SyncError>)
    modifies client
    ensures var ps := Selected(projections, excludedSources);
            var refusal := Refusal(bootstrapMode, ps, old(client.present), old(client.dimension), wanted);
            if refusal.Some? then
              r == Failure(refusal.value) && unchanged(client)
            else
              var m := Identified(COLLECTION, ps, None, [], 0).value;
              r == Success(Receipt(m.hash, m.expectedIds)) && client.present && client.points == PointsOf(m)
  {
    hide Selected, StorageSafe, Unverified, WithUpserts, IdSet, HashOf, Remaining;
    var ps := Selected(projections, excludedSources);
    var refusal := Refusal(bootstrapMode, ps, client.present, client.dimension, wanted);
    if refusal.Some? {
      return Failure(refusal.value);
    }
    var m := Identified(COLLECTION, ps, None, [], 0).value;
    if !client.present {
      client.CreateCollection(wanted);
    }
    ghost var before := client.points;
    UpsertInBatches(client, m);
    IdListElements(ps);
    RemoveStalePoints(client, Elements(m.expectedIds));
    SyncForgetsThePast(before, m);
    SyncedIsVerified(m);
    var verified := Verify(client, m);
    r := AndThen(verified, Receipt(m.hash, m.expectedIds));
  }
}
