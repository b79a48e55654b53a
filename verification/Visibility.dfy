/**
 Which points a publication shows, phase by phase. Staging shows nothing new, and takes away one
 point after another where an already published collection is staged again; flipping shows one
 point after another; so a part of the manifest is readable exactly in the middle of either.
 */
module Visibility {
  import opened Projections
  import opened VectorStore
  import opened Governance
  import opened StoredPoints
  import opened Publication

  function ShownIds(points: map<PointId, Payload>): set<PointId>
  {
    set id | id in points && Shows(points, id)
  }

  /** Exactly these points are shown; a raised run shows what the state before it showed. */
  predicate ShowsExactly(m: Manifest, start: Store, s: RunState)
  {
    var shown := ShownIds(s.store.points);
    match s.phase
    case Entering | Opening | Binding => shown == ShownIds(start.points)
    case Staging(pending) => shown == ShownIds(start.points) * pending
    case CheckingStaged => shown == {}
    case Flipping(pending) => shown == Points(m) - pending
    case CheckingPublished | Returned => shown == Points(m)
    case Raised => true
  }

  // ----- One staging, one flip -----

  lemma StagingHidesOne(m: Manifest, points: map<PointId, Payload>, id: PointId)
    requires ValidManifest(m) && id in Index(m.projections)
    ensures ShownIds(points[id := StagedPoint(m, id)]) == ShownIds(points) - {id}
  {
    hide ValidManifest, StagedPoint, IsOwn, IsRemovable, Index;
    StagedIsOwn(m, id);
    var after := points[id := StagedPoint(m, id)];
    forall x ensures x in ShownIds(after) <==> x in ShownIds(points) - {id} {
    }
  }

  lemma FlippingShowsOne(points: map<PointId, Payload>, id: PointId)
    requires id in points
    ensures ShownIds(Patch(points, id, Ingested)) == ShownIds(points) + {id}
  {
    hide WithStatus;
    FlipField(points[id], Ingested, Key.ReviewStatus);
    var after := Patch(points, id, Ingested);
    forall x ensures x in ShownIds(after) <==> x in ShownIds(points) + {id} {
    }
  }

  lemma OwnStatus(m: Manifest, id: PointId, payload: Payload, status: PointStatus)
    requires IsOwn(m, id, payload, status)
    ensures Field(payload, Key.ReviewStatus) == Status(status)
  {
    hide ProductionGoverned, CanonicalChecksum, Index;
  }

  lemma WrittenShows(m: Manifest, points: map<PointId, Payload>)
    requires ValidManifest(m)
    ensures Written(points, m, Ingested) ==> ShownIds(points) == Points(m)
    ensures Written(points, m, Approved) ==> ShownIds(points) == {}
  {
    hide ValidManifest, IsOwn, Written, Field;
    if Written(points, m, Ingested) {
      WrittenIsExact(m, points, Ingested);
      forall id | id in points ensures Shows(points, id) {
        OwnStatus(m, id, points[id], Ingested);
      }
    }
    if Written(points, m, Approved) {
      WrittenIsExact(m, points, Approved);
      forall id | id in points ensures !Shows(points, id) {
        OwnStatus(m, id, points[id], Approved);
      }
    }
  }

  lemma FreeStartShows(m: Manifest, start: Store)
    requires ValidManifest(m) && Free(m, start)
    ensures ShownIds(start.points) == {} || ShownIds(start.points) == Points(m)
    ensures ShownIds(start.points) == Points(m) <==> Written(start.points, m, Ingested)
  {
    hide ValidManifest, Written;
    WrittenShows(m, start.points);
    IndexKeys(m);
    if start.points == map[] {
      assert ShownIds(map[]) == {};
    }
  }

  // ----- Every step -----

  lemma StagingStepShows(m: Manifest, start: Store, s: RunState, t: RunState, id: PointId)
    requires ValidManifest(m) && ShowsExactly(m, start, s) && StagesOne(m, s, t, id)
    ensures ShowsExactly(m, start, t)
  {
    hide ValidManifest, StagedPoint, ShownIds, Index;
    StagingHidesOne(m, s.store.points, id);
  }

  lemma FlippingStepShows(m: Manifest, start: Store, s: RunState, t: RunState, id: PointId)
    requires ValidManifest(m) && Inv(m, start, s) && ShowsExactly(m, start, s) && FlipsOne(s, t, id)
    ensures ShowsExactly(m, start, t)
  {
    hide ValidManifest, Patch, ShownIds, CrashSafe, OnlyOwn, IsBound;
    if id in s.store.points {
      FlippingShowsOne(s.store.points, id);
    } else {
      MissingIsSkipped(s.store.points, id);
    }
  }

  lemma MissingIsSkipped(points: map<PointId, Payload>, id: PointId)
    requires id !in points
    ensures Patch(points, id, Ingested) == points
  {
  }

  lemma StepShows(c: Config, m: Manifest, start: Store, s: RunState, t: RunState)
    requires ValidManifest(m) && Free(m, start) && Inv(m, start, s) && ShowsExactly(m, start, s) && Step(c, m, s, t)
    ensures ShowsExactly(m, start, t)
  {
    hide ValidManifest, Written, ShownIds, CrashSafe, OnlyOwn, StagedPoint, Patch, Index, ShownIsComplete, IsBound;
    FreeStartShows(m, start);
    if id :| StagesOne(m, s, t, id) {
      StagingStepShows(m, start, s, t, id);
    } else if id :| FlipsOne(s, t, id) {
      FlippingStepShows(m, start, s, t, id);
    } else if s.phase.Opening? && !s.store.present {
      OpenedShowsNothing(c, s.store);
    }
  }

  lemma OpenedShowsNothing(c: Config, s: Store)
    requires !s.present
    ensures ShownIds(Opened(c, s).points) == {}
    ensures s.points == map[] ==> ShownIds(s.points) == {}
  {
  }

  lemma RaisingKeepsStore(c: Config, m: Manifest, s: RunState, t: RunState)
    requires Step(c, m, s, t) && t.phase.Raised?
    ensures t.store == s.store && !s.phase.Raised?
  {
  }

  /** In every state of every run on a free collection exactly the points of its phase are shown. */
  lemma {:induction false} RunShowsExactly(c: Config, m: Manifest, start: Store, run: seq<RunState>, i: nat)
    requires ValidManifest(m) && Free(m, start) && IsRun(c, m, start, run) && i < |run|
    ensures ShowsExactly(m, start, run[i])
    ensures run[i].phase.Raised? ==> i > 0 && run[i].store == run[i - 1].store && !run[i - 1].phase.Raised?
  {
    hide ValidManifest, Inv, ShownIds, Free, Step;
    if i > 0 {
      RunShowsExactly(c, m, start, run, i - 1);
      RunKeepsInv(c, m, start, run, i - 1);
      StepShows(c, m, start, run[i - 1], run[i]);
      if run[i].phase.Raised? {
        RaisingKeepsStore(c, m, run[i - 1], run[i]);
      }
    }
  }

  // ----- Partly visible -----

  /** Some stored points are readable and some are not. */
  predicate PartlyVisible(points: map<PointId, Payload>)
  {
    ShownIds(points) != {} && ShownIds(points) != points.Keys
  }

  /** In the middle of a flip, or of staging again what was published. */
  predicate Midway(m: Manifest, start: Store, phase: Phase)
  {
    match phase
    case Staging(pending) =>
      Written(start.points, m, Ingested) && Points(m) * pending != {} && Points(m) * pending != Points(m)
    case Flipping(pending) => Points(m) * pending != {} && Points(m) * pending != Points(m)
    case _ => false
  }

  lemma OwnKeysOfPhase(m: Manifest, start: Store, s: RunState)
    requires ValidManifest(m) && Free(m, start) && Inv(m, start, s) && !s.phase.Raised?
    ensures s.store.points.Keys <= Points(m)
    ensures (s.phase.Flipping? || s.phase.CheckingStaged? || s.phase.CheckingPublished? || s.phase.Returned?) ==>
              s.store.points.Keys == Points(m)
  {
    hide ValidManifest, Written, OnlyOwn;
    if s.phase.Entering? || s.phase.Opening? || s.phase.Binding? {
      FreeStartKeys(m, start);
    } else if s.phase.Returned? {
      WrittenIsExact(m, s.store.points, Ingested);
    } else {
      OwnKeys(m, s.store.points);
    }
  }

  lemma FreeStartKeys(m: Manifest, start: Store)
    requires ValidManifest(m) && Free(m, start)
    ensures start.points.Keys <= Points(m)
  {
    hide ValidManifest, Written, ShownIsComplete;
    if start.points != map[] {
      BoundStartIsSafe(m, start.points);
    }
  }

  /** A run on a free collection leaves it partly visible exactly midway. */
  lemma PartlyVisibleDecided(c: Config, m: Manifest, start: Store, run: seq<RunState>, i: nat)
    requires ValidManifest(m) && Free(m, start) && IsRun(c, m, start, run) && i < |run| && !run[i].phase.Raised?
    ensures PartlyVisible(run[i].store.points) <==> Midway(m, start, run[i].phase)
  {
    hide ValidManifest, ShownIds, IsRun, Written, Inv, ShowsExactly, Free, ShownIsComplete, PartlyVisible, Midway,
      Points;
    RunShowsExactly(c, m, start, run, i);
    RunKeepsInv(c, m, start, run, i);
    EveryStateIsComplete(c, m, start, run, i);
    StateIsDecided(m, start, run[i]);
  }

  lemma StateIsDecided(m: Manifest, start: Store, s: RunState)
    requires ValidManifest(m) && Free(m, start) && Inv(m, start, s) && ShowsExactly(m, start, s) && !s.phase.Raised?
    requires ShownIsComplete(m, s.store.points)
    ensures PartlyVisible(s.store.points) <==> Midway(m, start, s.phase)
  {
    hide ValidManifest, ShownIds, Written, Inv, Free, ShownIsComplete, Points;
    FreeStartShows(m, start);
    StartKeys(m, start);
    StartIsStore(m, start, s);
    OwnKeysOfPhase(m, start, s);
    ShownMeansComplete(m, s.store.points);
    assert Points(m) != {} by { IndexKeys(m); }
    match s.phase
    case Staging(pending) => CutInTwo({}, pending);
    case Flipping(pending) => CutInTwo(Points(m), pending);
    case _ =>
  }

  lemma CutInTwo(a: set<PointId>, b: set<PointId>)
    ensures a - b == {} <==> a * b == a
    ensures a - b == a <==> a * b == {}
  {
    assert a == (a * b) + (a - b);
    if a * b == {} {
      forall x | x in a ensures x !in b {
        assert x in b ==> x in a * b;
      }
    }
  }

  lemma StartIsStore(m: Manifest, start: Store, s: RunState)
    requires Inv(m, start, s)
    ensures s.phase.Entering? || s.phase.Opening? || s.phase.Binding? ==> s.store == start
  {
  }

  lemma StartKeys(m: Manifest, start: Store)
    requires ValidManifest(m) && Free(m, start)
    ensures start.points.Keys == {} || start.points.Keys == Points(m)
    ensures start.points.Keys == ShownIds(start.points)
  {
    hide ValidManifest, ShownIds;
    FreeStartShows(m, start);
    if Written(start.points, m, Ingested) {
      WrittenIsExact(m, start.points, Ingested);
    } else {
      assert start.points == map[] && ShownIds(map[]) == {} by { NothingShown(); }
    }
  }

  lemma NothingShown()
    ensures ShownIds(map[]) == {}
  {
  }

  lemma ShownMeansComplete(m: Manifest, points: map<PointId, Payload>)
    requires ShownIsComplete(m, points)
    ensures ShownIds(points) != {} ==> points.Keys == Points(m)
  {
    hide OnlyOwn;
    if id :| id in ShownIds(points) {
      assert Shows(points, id);
    }
  }
}
