/**
 Reading while publications and clean-ups are interrupted. In every state they can leave behind,
 search raises nothing and answers only eligible points; what it may miss is decided exactly.
 */
module InterruptedReads {
  import opened Wrappers
  import opened Projections
  import opened VectorStore
  import opened Governance
  import opened StoredPoints
  import opened Publication
  import opened Recovery
  import opened Visibility
  import opened SearchExactness
  import Text

  // ----- Any collection with only the manifest's own points -----

  /** Of the manifest's own points the filter finds only published ones. */
  lemma FilterFindsPublished(m: Manifest, id: PointId, payload: Payload, caller: Caller, filters: Option<SearchFilter>)
    requires IsRemovable(m, id, payload) && Matches(BuildFilter(filters, caller, IdentityOf(m)), payload)
    ensures IsOwn(m, id, payload, Ingested)
  {
    hide Matches, BuildFilter, ProductionGoverned, CanonicalChecksum, ClearanceHolds, FilterConditions, ValuesByField,
      Index;
    FilterSplits(payload, caller, filters, IdentityOf(m));
    var conditions := ReadinessConditions(IdentityOf(m));
    assert conditions[7] == Equals(Key.ReviewStatus, Status(Ingested));
    assert Holds(conditions[7], payload);
  }

  lemma FoundIsEligible(c: Config, m: Manifest, points: map<PointId, Payload>, caller: Caller,
                        filters: Option<SearchFilter>, id: PointId)
    requires ValidManifest(m) && Serves(c, m) && OnlyOwn(m, points)
    requires id in Selected(points, BuildFilter(filters, caller, IdentityOf(m)))
    ensures id in ShownIds(points)
    ensures Recheck(c, caller, filters, IdentityOf(m), id, points[id]).None?
    ensures id in Eligible(m, caller, None)
    ensures AllSpelled(points, filters) ==> id in Eligible(m, caller, filters)
  {
    hide ValidManifest, PointIsValid, VisibleTo, MatchesFilters, AsksFor, Readable, Matches, BuildFilter, IsRemovable,
      Spelled;
    FilterFindsPublished(m, id, points[id], caller, filters);
    PointAgrees(id, points[id], Index(m.projections)[id], caller, filters, IdentityOf(m));
    OwnStatus(m, id, points[id], Ingested);
  }

  /** No error; only published points that the caller may read, and asked for as they are spelled. */
  ghost predicate AnswersSafely(c: Config, m: Manifest, s: Store, query: string, caller: Caller,
                                filters: Option<SearchFilter>, score: map<PointId, real>, answer: seq<PointId>)
  {
    && (forall id :: id in answer ==> id in score && id in ShownIds(s.points) && id in Eligible(m, caller, None))
    && (AllSpelled(s.points, filters) ==> forall id :: id in answer ==> id in Eligible(m, caller, filters))
    && Search(c, s.present, query, Some(caller), filters, HitsOf(answer, score, s.points))
         == Success(if s.present then HitsOf(answer, score, s.points) else [])
  }

  lemma OwnSearchIsSafe(c: Config, m: Manifest, s: Store, query: string, caller: Caller, filters: Option<SearchFilter>,
                        score: map<PointId, real>, limit: nat, answer: seq<PointId>)
    requires ValidManifest(m) && Serves(c, m) && OnlyOwn(m, s.points)
    requires Text.Strip(query) != [] && !caller.bootstrapLimited
    requires s.points.Keys <= score.Keys
    requires BestOf(Selected(s.points, BuildFilter(filters, caller, IdentityOf(m))), score, limit, answer)
    ensures AnswersSafely(c, m, s, query, caller, filters, score, answer)
  {
    hide ValidManifest, BuildFilter, Recheck, Readable, Wanted, OnlyOwn, Eligible, IdentityOf, Selected, ShownIds,
      AllSpelled, Search, Serves;
    forall id | id in answer
      ensures id in s.points && id in ShownIds(s.points) && id in Eligible(m, caller, None)
      ensures AllSpelled(s.points, filters) ==> id in Eligible(m, caller, filters)
      ensures id in s.points ==> Recheck(c, caller, filters, IdentityOf(m), id, s.points[id]).None?
    {
      var i :| 0 <= i < |answer| && answer[i] == id;
      FoundIsEligible(c, m, s.points, caller, filters, id);
      ShownIsStored(s.points, id);
    }
    HitsAreReturned(c, m, s, query, caller, filters, score, answer);
  }

  lemma HitsAreReturned(c: Config, m: Manifest, s: Store, query: string, caller: Caller, filters: Option<SearchFilter>,
                        score: map<PointId, real>, answer: seq<PointId>)
    requires ValidManifest(m) && Serves(c, m) && Text.Strip(query) != [] && !caller.bootstrapLimited
    requires forall id :: id in answer ==> id in score && id in s.points
    requires forall id :: id in answer ==> Recheck(c, caller, filters, IdentityOf(m), id, s.points[id]).None?
    ensures Search(c, s.present, query, Some(caller), filters, HitsOf(answer, score, s.points))
         == Success(if s.present then HitsOf(answer, score, s.points) else [])
  {
    hide ValidManifest, Recheck, Accept;
    AcceptAll(c, caller, filters, IdentityOf(m), HitsOf(answer, score, s.points));
    ChecksumsExist(m);
  }

  lemma ShownIsStored(points: map<PointId, Payload>, id: PointId)
    requires id in ShownIds(points)
    ensures id in points && Shows(points, id)
  {
  }

  // ----- What the service writes is plainly spelled -----

  lemma BoundPaths(p: Payload, m: Manifest, status: PointStatus)
    requires ValidProjection(p)
    ensures PlainPaths(WithStatus(ToPayload(p, m), status))
  {
    hide ValidProjection;
    ValidHasPlainPaths(p);
    StoredField(p, m, status, OntologyPaths);
  }

  lemma StagedIsPlain(m: Manifest, id: PointId)
    requires ValidManifest(m) && id in Index(m.projections)
    ensures PlainPaths(StagedPoint(m, id))
  {
    hide ValidManifest, ToPayload, WithStatus, PlainPaths, Index;
    IndexKeys(m);
    BoundPaths(Index(m.projections)[id], m, Approved);
  }

  lemma FlippedIsPlain(points: map<PointId, Payload>, id: PointId)
    requires PlainStore(points)
    ensures PlainStore(Patch(points, id, Ingested))
  {
  }

  lemma StepStaysPlain(c: Config, m: Manifest, s: RunState, t: RunState)
    requires ValidManifest(m) && PlainStore(s.store.points) && Step(c, m, s, t)
    ensures PlainStore(t.store.points)
  {
    hide ValidManifest, Written, IsBound, StagedPoint, Patch, PlainPaths, Index;
    if id :| StagesOne(m, s, t, id) {
      StagedIsPlain(m, id);
    } else if id :| FlipsOne(s, t, id) {
      FlippedIsPlain(s.store.points, id);
    }
  }

  lemma {:induction false} RunStaysPlain(c: Config, m: Manifest, start: Store, run: seq<RunState>, i: nat)
    requires ValidManifest(m) && IsRun(c, m, start, run) && i < |run| && PlainStore(start.points)
    ensures PlainStore(run[i].store.points)
  {
    hide ValidManifest, Step, PlainStore;
    if i > 0 {
      RunStaysPlain(c, m, start, run, i - 1);
      StepStaysPlain(c, m, run[i - 1], run[i]);
    }
  }

  /**
   In every state a publication on a free collection can be stopped in, search raises nothing, answers
   only eligible points, and any at all only if every point of the manifest is stored. The spelling is
   plain throughout if it was at the start.
   */
  lemma InterruptedSearchIsSafe(writer: Config, c: Config, m: Manifest, start: Store, run: seq<RunState>, i: nat,
                                query: string, caller: Caller, filters: Option<SearchFilter>,
                                score: map<PointId, real>, limit: nat, answer: seq<PointId>)
    requires ValidManifest(m) && Serves(c, m) && IsRun(writer, m, start, run) && i < |run|
    requires Free(m, start)
    requires Text.Strip(query) != [] && !caller.bootstrapLimited
    requires run[i].store.points.Keys <= score.Keys
    requires BestOf(Selected(run[i].store.points, BuildFilter(filters, caller, IdentityOf(m))), score, limit, answer)
    ensures AnswersSafely(c, m, run[i].store, query, caller, filters, score, answer)
    ensures answer != [] ==> run[i].store.points.Keys == Points(m)
    ensures PlainStore(start.points) ==> AllSpelled(run[i].store.points, filters)
  {
    hide ValidManifest, BuildFilter, IsRun, OnlyOwn, Eligible, IdentityOf, Selected, BestOf, PlainStore, Search,
      ShownIds, AllSpelled;
    EveryStateIsComplete(writer, m, start, run, i);
    if PlainStore(start.points) {
      RunStaysPlain(writer, m, start, run, i);
      PlainIsSpelled(run[i].store.points, filters);
    }
    OwnSearchIsSafe(c, m, run[i].store, query, caller, filters, score, limit, answer);
    ShownMeansComplete(m, run[i].store.points);
    assert answer != [] ==> answer[0] in answer;
  }

  // ----- Any history of interrupted writes and clean-ups -----

  lemma LifeStepStaysPlain(c: Config, m: Manifest, l: Life, k: Life)
    requires ValidManifest(m) && PlainStore(l.store.points) && LifeStep(c, m, l, k)
    ensures PlainStore(k.store.points)
  {
    hide ValidManifest, Step, PlainPaths, TargetsBootstrap, Cleanup;
    if l.activity.Writing? && k.activity.Writing?
       && Step(c, m, RunState(l.store, l.activity.phase), RunState(k.store, k.activity.phase)) {
      StepStaysPlain(c, m, RunState(l.store, l.activity.phase), RunState(k.store, k.activity.phase));
    }
  }

  lemma {:induction false} LifeStaysPlain(c: Config, m: Manifest, start: Store, life: seq<Life>, i: nat)
    requires ValidManifest(m) && IsLife(c, m, start, life) && i < |life| && PlainStore(start.points)
    ensures PlainStore(life[i].store.points)
  {
    hide ValidManifest, LifeStep, PlainStore;
    if i > 0 {
      LifeStaysPlain(c, m, start, life, i - 1);
      LifeStepStaysPlain(c, m, life[i - 1], life[i]);
    }
  }

  ghost predicate Deleted(l: Life, k: Life)
  {
    exists id :: DeletesOne(l, k, id)
  }

  /** A clean-up has removed a point, and the collection has not been emptied since. */
  ghost predicate Cut(life: seq<Life>, i: nat)
    requires i < |life|
  {
    i > 0 && life[i].store.points != map[] && (Deleted(life[i - 1], life[i]) || Cut(life, i - 1))
  }

  /** What the phase of a write says about the collection, wherever the write began. */
  ghost predicate PhaseFits(m: Manifest, points: map<PointId, Payload>, phase: Phase)
  {
    match phase
    case Staging(pending) => pending <= Points(m) <= points.Keys + pending
    case CheckingStaged | Flipping(_) | CheckingPublished => points.Keys == Points(m)
    case _ => true
  }

  ghost predicate Whole(m: Manifest, l: Life)
  {
    ShownIsComplete(m, l.store.points)
    && (l.activity.Writing? ==> PhaseFits(m, l.store.points, l.activity.phase))
  }

  /** Some points are missing and no write can get past its checks. */
  ghost predicate Stuck(m: Manifest, l: Life)
  {
    && l.store.points.Keys < Points(m) && l.store.points != map[]
    && (l.activity.Writing? ==>
          match l.activity.phase
          case Entering | Opening | Binding | Raised => true
          case _ => false)
  }

  ghost predicate Settled(m: Manifest, l: Life, cut: bool)
  {
    && (l.activity.Deleting? ==> l.activity.pending <= l.store.points.Keys)
    && if cut then Stuck(m, l) else Whole(m, l)
  }

  lemma WholeWriteStep(c: Config, m: Manifest, s: RunState, t: RunState)
    requires ValidManifest(m) && ShownIsComplete(m, s.store.points) && PhaseFits(m, s.store.points, s.phase)
    requires Step(c, m, s, t) && (s.store.present || s.store.points == map[])
    ensures ShownIsComplete(m, t.store.points) && PhaseFits(m, t.store.points, t.phase)
  {
    hide ValidManifest, Written, ShownIsComplete, StagedPoint, Patch, Index, IsBound;
    if id :| StagesOne(m, s, t, id) {
      StageOne(m, s.store.points, id);
    } else if id :| FlipsOne(s, t, id) {
      FlipIsComplete(m, s.store.points, id);
    } else if s.phase.Opening? && !s.store.present {
      NothingIsComplete(m);
    } else if s.phase.Binding? {
      if t.phase.Staging? {
        BoundStartIsSafe(m, s.store.points);
      }
    } else if s.phase.Staging? {
      CompleteKeys(m, s.store.points);
    }
  }

  lemma CompleteKeys(m: Manifest, points: map<PointId, Payload>)
    requires ValidManifest(m) && ShownIsComplete(m, points)
    ensures points.Keys <= Points(m)
  {
    hide ValidManifest;
    OwnKeys(m, points);
  }

  lemma NothingIsComplete(m: Manifest)
    ensures ShownIsComplete(m, map[])
  {
  }

  lemma FlipIsComplete(m: Manifest, points: map<PointId, Payload>, id: PointId)
    requires ShownIsComplete(m, points) && points.Keys == Points(m)
    ensures ShownIsComplete(m, Patch(points, id, Ingested)) && Patch(points, id, Ingested).Keys == points.Keys
  {
    hide Patch, OnlyOwn, Shows;
    FlipOne(m, points, id);
  }

  lemma StuckWriteStep(c: Config, m: Manifest, s: RunState, t: RunState)
    requires ValidManifest(m) && Step(c, m, s, t) && s.store.present
    requires s.store.points.Keys < Points(m) && s.store.points != map[]
    requires match s.phase case Entering | Opening | Binding | Raised => true case _ => false
    ensures t.store == s.store
    ensures match t.phase case Entering | Opening | Binding | Raised => true case _ => false
  {
    hide ValidManifest, Written, Points;
    if Written(s.store.points, m, Ingested) {
      WrittenIsExact(m, s.store.points, Ingested);
    }
  }

  lemma DeletionStep(m: Manifest, l: Life, k: Life, id: PointId)
    requires ValidManifest(m) && OnlyOwn(m, l.store.points) && DeletesOne(l, k, id)
    requires l.activity.pending <= l.store.points.Keys
    ensures Settled(m, k, k.store.points != map[])
  {
    hide ValidManifest, OnlyOwn, Points;
    OwnKeys(m, l.store.points);
    if k.store.points == map[] {
      NothingIsComplete(m);
    } else {
      assert k.store.points.Keys == l.store.points.Keys - {id};
    }
  }

  lemma LifeStepSettles(c: Config, m: Manifest, start: Store, l: Life, k: Life, cut: bool)
    requires ValidManifest(m) && LifeInv(c, m, start, l) && Settled(m, l, cut) && LifeStep(c, m, l, k)
    ensures Settled(m, k, k.store.points != map[] && (Deleted(l, k) || cut))
  {
    hide ValidManifest, Step, OnlyOwn, Points, ShownIsComplete, Cleanup, SameVectors;
    if id :| DeletesOne(l, k, id) {
      DeletionStep(m, l, k, id);
    } else if l.activity.Writing? && k.activity.Writing?
              && Step(c, m, RunState(l.store, l.activity.phase), RunState(k.store, k.activity.phase)) {
      if cut {
        StuckWriteStep(c, m, RunState(l.store, l.activity.phase), RunState(k.store, k.activity.phase));
      } else {
        WholeWriteStep(c, m, RunState(l.store, l.activity.phase), RunState(k.store, k.activity.phase));
      }
    }
  }

  lemma {:induction false} LifeIsSettled(c: Config, m: Manifest, start: Store, life: seq<Life>, i: nat)
    requires ValidManifest(m) && IsLife(c, m, start, life) && i < |life| && start.points == map[]
    ensures Settled(m, life[i], Cut(life, i))
  {
    hide ValidManifest, LifeStep, LifeInv, Settled, Deleted;
    if i == 0 {
      EmptyIsSettled(m, start);
    } else {
      LifeIsSettled(c, m, start, life, i - 1);
      LifeKeepsInv(c, m, start, life, i - 1);
      LifeStepSettles(c, m, start, life[i - 1], life[i], Cut(life, i - 1));
    }
  }

  lemma EmptyIsSettled(m: Manifest, start: Store)
    requires start.points == map[]
    ensures Settled(m, Life(start, Idle), false)
  {
  }

  lemma {:induction false} LifeIsOwn(c: Config, m: Manifest, start: Store, life: seq<Life>, i: nat)
    requires ValidManifest(m) && IsLife(c, m, start, life) && i < |life| && start.points == map[]
    ensures OnlyOwn(m, life[i].store.points)
  {
    hide ValidManifest, LifeStep, OnlyOwn;
    LifeKeepsInv(c, m, start, life, i);
  }

  lemma EmptyIsPlain(points: map<PointId, Payload>)
    requires points == map[]
    ensures PlainStore(points)
  {
  }

  /**
   In every state of every history of interrupted writes and clean-ups of an empty collection, search
   raises nothing and answers only eligible points. If it answers any, every point of the manifest is
   stored exactly unless a clean-up has begun to delete and not finished.
   */
  lemma SearchThroughHistory(writer: Config, c: Config, m: Manifest, start: Store, life: seq<Life>, i: nat,
                             query: string, caller: Caller, filters: Option<SearchFilter>,
                             score: map<PointId, real>, limit: nat, answer: seq<PointId>)
    requires ValidManifest(m) && Serves(c, m) && IsLife(writer, m, start, life) && i < |life| && start.points == map[]
    requires Text.Strip(query) != [] && !caller.bootstrapLimited
    requires life[i].store.points.Keys <= score.Keys
    requires BestOf(Selected(life[i].store.points, BuildFilter(filters, caller, IdentityOf(m))), score, limit, answer)
    ensures AnswersSafely(c, m, life[i].store, query, caller, filters, score, answer)
    ensures forall id :: id in answer ==> id in Eligible(m, caller, filters)
    ensures answer != [] ==> (life[i].store.points.Keys == Points(m) <==> !Cut(life, i))
  {
    hide ValidManifest, BuildFilter, LifeStep, OnlyOwn, Eligible, IdentityOf, Selected, BestOf, Search, ShownIds, Cut,
      ShownIsComplete, Points, PlainStore, AllSpelled;
    EmptyIsPlain(start.points);
    LifeStaysPlain(writer, m, start, life, i);
    PlainIsSpelled(life[i].store.points, filters);
    LifeIsOwn(writer, m, start, life, i);
    OwnSearchIsSafe(c, m, life[i].store, query, caller, filters, score, limit, answer);
    LifeIsSettled(writer, m, start, life, i);
    assert answer != [] ==> answer[0] in answer;
    if !Cut(life, i) {
      ShownMeansComplete(m, life[i].store.points);
    }
  }

  /** Deleting one point of a published manifest of two or more leaves the others readable without it. */
  lemma InterruptedCleanupShowsPart(c: Config, m: Manifest, s: Store, id: PointId) returns (k: Life, l: Life)
    requires ValidManifest(m) && FullyIngested(s, m) && |m.projections| >= 2 && id in Points(m)
    requires Cleanup(c, m, s).0 == Success(Cleaned)
    ensures LifeStep(c, m, Life(s, Idle), k) && LifeStep(c, m, k, l)
    ensures ShownIds(l.store.points) == Points(m) - {id} == l.store.points.Keys && ShownIds(l.store.points) != {}
  {
    hide ValidManifest, Cleanup, Written, Step, ShownIds, Points, LifeStep, ValidProjection, IsOwn;
    WrittenShows(m, s.points);
    WrittenIsExact(m, s.points, Ingested);
    IndexKeys(m);
    k := Life(s, Deleting(Points(m)));
    l := Life(s.(points := s.points - {id}), Deleting(Points(m) - {id}));
    DeletionBegins(c, m, s);
    OneDeletion(c, m, k, l, id);
    RemainingAreShown(s.points, id);
    OneFewer(Points(m), id);
  }

  lemma DeletionBegins(c: Config, m: Manifest, s: Store)
    requires Cleanup(c, m, s).0 == Success(Cleaned) && s.points.Keys == Points(m)
    ensures LifeStep(c, m, Life(s, Idle), Life(s, Deleting(Points(m))))
  {
    hide Cleanup, Step, DeletesOne, Points;
    assert Points(m) * s.points.Keys == Points(m);
  }

  lemma OneDeletion(c: Config, m: Manifest, k: Life, l: Life, id: PointId)
    requires DeletesOne(k, l, id)
    ensures LifeStep(c, m, k, l)
  {
    hide Cleanup, Step, DeletesOne;
  }

  lemma OneFewer(ids: set<PointId>, id: PointId)
    requires id in ids && |ids| >= 2
    ensures ids - {id} != {}
  {
    assert |ids - {id}| == |ids| - 1;
  }

  lemma RemainingAreShown(points: map<PointId, Payload>, id: PointId)
    ensures ShownIds(points - {id}) == ShownIds(points) - {id}
  {
  }

  // ----- A completed write -----

  lemma {:induction false} PatchedStaysPlain(points: map<PointId, Payload>, ids: seq<PointId>, n: nat)
    requires PlainStore(points) && n <= |ids|
    ensures PlainStore(Patched(points, ids, Ingested, n))
    decreases n
  {
    hide Patch, PlainStore;
    if n > 0 {
      PatchedStaysPlain(points, ids, n - 1);
      FlippedIsPlain(Patched(points, ids, Ingested, n - 1), ids[n - 1]);
    }
  }

  lemma StageIsPlain(m: Manifest)
    requires ValidManifest(m)
    ensures PlainStore(Stage(map[], m))
  {
    hide ValidManifest, Stage, StagedPoint, PlainPaths, Index;
    StageShape(m, map[]);
    forall id | id in Stage(map[], m) ensures PlainPaths(Stage(map[], m)[id]) {
      StagedIsPlain(m, id);
    }
  }

  /** After a receipt the collection is plainly spelled exactly if it was so wherever it was complete before. */
  lemma WriteIsPlain(c: Config, m: Manifest, actor: string, s: Store)
    requires ValidManifest(m) && Write(c, m, actor, s).0.Success?
    ensures PlainStore(Write(c, m, actor, s).1.points) <==> (FullyIngested(s, m) ==> PlainStore(s.points))
  {
    hide ValidManifest, Written, Stage, Publish, Admission, PlainStore, IsBound;
    WriteDecides(c, m, actor, s);
    if !FullyIngested(s, m) {
      StageIsPlain(m);
      PublishIsPlain(m, Stage(map[], m));
      FreshWriteEnds(c, m, actor, s);
    }
  }

  lemma PublishIsPlain(m: Manifest, points: map<PointId, Payload>)
    requires PlainStore(points)
    ensures PlainStore(Publish(points, m))
  {
    hide PlainStore;
    PatchedStaysPlain(points, m.PointIds(), |m.PointIds()|);
  }
}
