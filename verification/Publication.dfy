/**
 Crash safety of publication. `write_manifest` is a step system: each store call is a step,
 the two batch writes reach their points one by one in any order, and a run may stop or
 fail after any step. The results hold in every state of every run, from any collection.
 */
module Publication {
  import opened Sequences
  import opened Projections
  import opened VectorStore
  import opened Governance
  import opened StoredPoints

  datatype Phase =
    | Entering | Opening | Binding
    | Staging(pending: set<PointId>) | CheckingStaged
    | Flipping(pending: set<PointId>) | CheckingPublished
    | Returned | Raised

  datatype RunState = RunState(store: Store, phase: Phase)

  function Points(m: Manifest): set<PointId>
  {
    Elements(m.PointIds())
  }

  function StagedPoint(m: Manifest, id: PointId): Payload
    requires id in Index(m.projections)
  {
    WithStatus(ToPayload(Index(m.projections)[id], m), Approved)
  }

  predicate StagesOne(m: Manifest, s: RunState, t: RunState, id: PointId)
  {
    && s.phase.Staging? && id in s.phase.pending && id in Index(m.projections)
    && t == RunState(s.store.(points := s.store.points[id := StagedPoint(m, id)]), Staging(s.phase.pending - {id}))
  }

  predicate FlipsOne(s: RunState, t: RunState, id: PointId)
  {
    && s.phase.Flipping? && id in s.phase.pending
    && t == RunState(s.store.(points := Patch(s.store.points, id, Ingested)), Flipping(s.phase.pending - {id}))
  }

  /**
   One step of an admitted `write_manifest(m)`. Every phase may also end in `Raised`: a failed
   check or a failed client call. The completeness check on entry treats a failed call as "no",
   so a run may go on to `Opening` even over a collection that is complete.
   */
  ghost predicate Step(c: Config, m: Manifest, s: RunState, t: RunState)
  {
    || (t == RunState(s.store, Raised) && !s.phase.Returned? && !s.phase.Raised?)
    || match s.phase
       case Entering =>
         t == RunState(s.store, Opening) || (FullyIngested(s.store, m) && t == RunState(s.store, Returned))
       case Opening =>
         if s.store.present then GoodVectors(c, s.store) && t == RunState(s.store, Binding)
         else t == RunState(Opened(c, s.store), Staging(Points(m)))
       case Binding =>
         IsBound(s.store.points, m) && t == RunState(s.store, Staging(Points(m)))
       case Staging(pending) =>
         || (pending == {} && t == RunState(s.store, CheckingStaged))
         || (exists id :: StagesOne(m, s, t, id))
       case CheckingStaged =>
         Written(s.store.points, m, Approved) && t == RunState(s.store, Flipping(Points(m)))
       case Flipping(pending) =>
         || (pending == {} && t == RunState(s.store, CheckingPublished))
         || (exists id :: FlipsOne(s, t, id))
       case CheckingPublished =>
         Written(s.store.points, m, Ingested) && t == RunState(s.store, Returned)
       case _ => false
  }

  ghost predicate IsRun(c: Config, m: Manifest, start: Store, run: seq<RunState>)
  {
    && run != [] && run[0] == RunState(start, Entering)
    && forall i :: 0 < i < |run| ==> Step(c, m, run[i - 1], run[i])
  }

  // ----- What every state keeps -----

  /** Every stored point is the manifest's own, with its own content. */
  ghost predicate OnlyOwn(m: Manifest, points: map<PointId, Payload>)
  {
    forall id :: id in points ==> IsRemovable(m, id, points[id])
  }

  predicate Shows(points: map<PointId, Payload>, id: PointId)
  {
    id in points && Field(points[id], Key.ReviewStatus) == Status(Ingested)
  }

  /** Nothing foreign is stored, and once any point is readable every point is stored, readable or not yet. */
  ghost predicate ShownIsComplete(m: Manifest, points: map<PointId, Payload>)
  {
    && OnlyOwn(m, points)
    && ((exists id :: Shows(points, id)) ==> points.Keys == Points(m))
  }

  /** Either the run has written nothing, or the collection is its own and shows nothing before all is stored. */
  ghost predicate CrashSafe(m: Manifest, start: Store, s: Store)
  {
    || s.points == start.points
    || ((!start.present || IsBound(start.points, m)) && ShownIsComplete(m, s.points))
  }

  ghost predicate Inv(m: Manifest, start: Store, s: RunState)
  {
    && CrashSafe(m, start, s.store)
    && match s.phase
       case Entering | Opening | Binding => s.store == start
       case Staging(pending) =>
         && (!start.present || IsBound(start.points, m)) && ShownIsComplete(m, s.store.points)
         && pending <= Points(m) <= s.store.points.Keys + pending
       case CheckingStaged | Flipping(_) | CheckingPublished =>
         && (!start.present || IsBound(start.points, m)) && OnlyOwn(m, s.store.points)
         && s.store.points.Keys == Points(m)
       case Returned => Written(s.store.points, m, Ingested)
       case Raised => true
  }

  lemma IndexKeys(m: Manifest)
    requires ValidManifest(m)
    ensures Index(m.projections).Keys == Points(m)
    ensures |Points(m)| == |m.projections| > 0
    ensures forall id :: id in Index(m.projections) ==> ValidProjection(Index(m.projections)[id])
  {
    ValidIsCanonical(m);
    CountElements(m.PointIds());
    IdsAreIndexed(m.projections);
  }

  lemma IdsAreIndexed(ps: seq<Payload>)
    ensures Index(ps).Keys == Elements(Ids(ps))
  {
    hide PointOf;
    forall id ensures id in Index(ps) <==> id in Elements(Ids(ps)) {
      if id in Index(ps) {
        var i :| 0 <= i < |ps| && ps[i] == Index(ps)[id];
        assert Ids(ps)[i] == id;
      }
      if id in Elements(Ids(ps)) {
        var i :| 0 <= i < |ps| && Ids(ps)[i] == id;
        assert ps[i] in ps;
      }
    }
  }

  /** A verified collection holds the manifest's points and no other. */
  lemma WrittenIsExact(m: Manifest, points: map<PointId, Payload>, status: PointStatus)
    requires ValidManifest(m) && Written(points, m, status)
    ensures points.Keys == Points(m)
    ensures forall id :: id in points ==> IsOwn(m, id, points[id], status)
  {
    IndexKeys(m);
    assert Points(m) <= points.Keys;
    assert |points| == |points.Keys|;
    SubsetCount(Points(m), points.Keys);
  }

  lemma StagedIsOwn(m: Manifest, id: PointId)
    requires ValidManifest(m) && id in Index(m.projections)
    ensures IsOwn(m, id, StagedPoint(m, id), Approved) && IsRemovable(m, id, StagedPoint(m, id))
    ensures Field(StagedPoint(m, id), Key.ReviewStatus) == Status(Approved)
  {
    IndexKeys(m);
    BoundIsValid(Index(m.projections)[id], m, Approved);
  }

  lemma FlippedIsOwn(m: Manifest, id: PointId, payload: Payload)
    requires IsRemovable(m, id, payload)
    ensures IsOwn(m, id, WithStatus(payload, Ingested), Ingested) && IsRemovable(m, id, WithStatus(payload, Ingested))
  {
    var checksum := Checksum(Index(m.projections)[id]);
    if IsOwn(m, id, payload, Approved) {
      FlipKeepsValid(id, payload, checksum, IdentityOf(m), Approved, Ingested);
    } else {
      FlipKeepsValid(id, payload, checksum, IdentityOf(m), Ingested, Ingested);
    }
  }

  lemma StageKeepsOwn(m: Manifest, points: map<PointId, Payload>, id: PointId)
    requires ValidManifest(m) && OnlyOwn(m, points) && id in Index(m.projections)
    ensures OnlyOwn(m, points[id := StagedPoint(m, id)])
  {
    hide IsRemovable, StagedPoint, ValidManifest;
    StagedIsOwn(m, id);
  }

  lemma StageShowsNothingNew(m: Manifest, points: map<PointId, Payload>, id: PointId, x: PointId)
    requires ValidManifest(m) && id in Index(m.projections)
    requires Shows(points[id := StagedPoint(m, id)], x)
    ensures Shows(points, x)
  {
    hide StagedPoint, ValidManifest, IsOwn, IsRemovable;
    StagedIsOwn(m, id);
  }

  lemma StageOne(m: Manifest, points: map<PointId, Payload>, id: PointId)
    requires ValidManifest(m) && ShownIsComplete(m, points) && id in Index(m.projections)
    ensures ShownIsComplete(m, points[id := StagedPoint(m, id)])
  {
    hide IsRemovable, Shows, StagedPoint, ValidManifest;
    IndexKeys(m);
    StageKeepsOwn(m, points, id);
    var after := points[id := StagedPoint(m, id)];
    if x :| Shows(after, x) {
      StageShowsNothingNew(m, points, id, x);
      assert after.Keys == points.Keys + {id};
    }
  }

  lemma FlipOne(m: Manifest, points: map<PointId, Payload>, id: PointId)
    requires OnlyOwn(m, points)
    ensures OnlyOwn(m, Patch(points, id, Ingested)) && Patch(points, id, Ingested).Keys == points.Keys
  {
    hide IsOwn, WithStatus;
    if id in points {
      FlippedIsOwn(m, id, points[id]);
    }
  }

  lemma BoundStartIsSafe(m: Manifest, points: map<PointId, Payload>)
    requires ValidManifest(m) && IsBound(points, m)
    ensures ShownIsComplete(m, points) && points.Keys <= Points(m)
  {
    if points != map[] {
      WrittenIsExact(m, points, Ingested);
    }
  }

  lemma StagingKeepsInv(m: Manifest, start: Store, s: RunState, t: RunState, id: PointId)
    requires ValidManifest(m) && Inv(m, start, s) && StagesOne(m, s, t, id)
    ensures Inv(m, start, t)
  {
    hide ShownIsComplete, StagedPoint, ValidManifest, Index, Written;
    StageOne(m, s.store.points, id);
  }

  lemma FlippingKeepsInv(m: Manifest, start: Store, s: RunState, t: RunState, id: PointId)
    requires ValidManifest(m) && Inv(m, start, s) && FlipsOne(s, t, id)
    ensures Inv(m, start, t)
  {
    hide OnlyOwn, Patch, ValidManifest, Written;
    FlipOne(m, s.store.points, id);
  }

  lemma StepKeepsInv(c: Config, m: Manifest, start: Store, s: RunState, t: RunState)
    requires ValidManifest(m) && Inv(m, start, s) && Step(c, m, s, t)
    ensures Inv(m, start, t)
  {
    hide IsRemovable, Index, ValidManifest, Shows, Written, StagedPoint, Patch;
    if t.phase.Raised? {
    } else if id :| StagesOne(m, s, t, id) {
      StagingKeepsInv(m, start, s, t, id);
    } else if id :| FlipsOne(s, t, id) {
      FlippingKeepsInv(m, start, s, t, id);
    } else if s.phase.Opening? {
      BoundStartIsSafe(m, map[]);
    } else if s.phase.Binding? {
      BoundStartIsSafe(m, s.store.points);
    } else if s.phase.Staging? {
      OwnKeys(m, s.store.points);
    }
  }

  lemma OwnKeys(m: Manifest, points: map<PointId, Payload>)
    requires ValidManifest(m) && OnlyOwn(m, points)
    ensures points.Keys <= Points(m)
  {
    IndexKeys(m);
  }

  lemma {:induction false} RunKeepsInv(c: Config, m: Manifest, start: Store, run: seq<RunState>, i: nat)
    requires ValidManifest(m) && IsRun(c, m, start, run) && i < |run|
    ensures Inv(m, start, run[i])
  {
    hide ValidManifest, Step, ShownIsComplete, OnlyOwn, IsBound, Written;
    if i > 0 {
      RunKeepsInv(c, m, start, run, i - 1);
      StepKeepsInv(c, m, start, run[i - 1], run[i]);
    }
  }

  /**
   Crash safety: in every state a run can be left in, either the collection is as it was found, or it was
   free for this manifest, holds only the manifest's own points, and shows none before all are stored.
   A run that returned has published every point. Which points are shown when is decided in `Visibility`.
   */
  lemma EveryStateIsCrashSafe(c: Config, m: Manifest, start: Store, run: seq<RunState>, i: nat)
    requires ValidManifest(m) && IsRun(c, m, start, run) && i < |run|
    ensures CrashSafe(m, start, run[i].store)
    ensures run[i].phase.Returned? ==> Written(run[i].store.points, m, Ingested)
  {
    RunKeepsInv(c, m, start, run, i);
  }

  /** A collection this manifest may be written to. */
  predicate Free(m: Manifest, start: Store)
  {
    if start.present then IsBound(start.points, m) else start.points == map[]
  }

  lemma EveryStateIsComplete(c: Config, m: Manifest, start: Store, run: seq<RunState>, i: nat)
    requires ValidManifest(m) && Free(m, start) && IsRun(c, m, start, run) && i < |run|
    ensures ShownIsComplete(m, run[i].store.points)
  {
    hide ValidManifest, IsRun, Written, OnlyOwn, Shows;
    BoundStartIsSafe(m, start.points);
    RunKeepsInv(c, m, start, run, i);
  }
}
