/**
 The service itself: each public call changes the collection step by step, and is proved
 against the function that says what it decides. `WriteManifest` also returns the run of the
 publication step system it performed.
 */
module QdrantService {
  import opened Wrappers
  import opened Sequences
  import opened Projections
  import opened VectorStore
  import opened Governance
  import opened Publication
  import opened Recovery
  import opened Visibility
  import opened WriteContract
  import Text

  /** The states of a batch write: `o` before it, then one per entry of `trail`. */
  function StagingStates(m: Manifest, o: Store, trail: seq<map<PointId, Payload>>): seq<RunState>
    requires |trail| == |m.projections|
  {
    seq(|trail| + 1, i requires 0 <= i <= |trail| =>
      RunState(o.(points := if i == 0 then o.points else trail[i - 1]),
               Staging(Points(m) - Elements(m.PointIds()[..i]))))
  }

  function FlippingStates(m: Manifest, o: Store, trail: seq<map<PointId, Payload>>): seq<RunState>
    requires |trail| == |m.projections|
  {
    seq(|trail| + 1, i requires 0 <= i <= |trail| =>
      RunState(o.(points := if i == 0 then o.points else trail[i - 1]),
               Flipping(Points(m) - Elements(m.PointIds()[..i]))))
  }

  ghost predicate Chain(c: Config, m: Manifest, run: seq<RunState>)
  {
    forall i :: 0 < i < |run| ==> Step(c, m, run[i - 1], run[i])
  }

  lemma PendingShrinks(m: Manifest, i: nat)
    requires ValidManifest(m) && i < |m.projections|
    ensures m.PointIds()[i] in Points(m) - Elements(m.PointIds()[..i])
    ensures Points(m) - Elements(m.PointIds()[..i + 1]) == Points(m) - Elements(m.PointIds()[..i]) - {m.PointIds()[i]}
  {
    hide ValidManifest, Ids, AllValid;
    ValidIsCanonical(m);
    var ids := m.PointIds();
    assert ids[..i + 1] == ids[..i] + [ids[i]];
    assert NoRepeats(ids);
  }

  lemma StagingIsChain(c: Config, m: Manifest, o: Store, trail: seq<map<PointId, Payload>>)
    requires ValidManifest(m) && |trail| == |m.projections|
    requires forall i :: 0 <= i < |trail| ==> trail[i] == Upserted(o.points, StagedBatch(m), i + 1)
    ensures Chain(c, m, StagingStates(m, o, trail))
  {
    hide ValidManifest, StagedPoint, StagedBatch, Index, Elements, Ids, Points;
    var states := StagingStates(m, o, trail);
    forall i | 0 < i < |states| ensures Step(c, m, states[i - 1], states[i]) {
      PendingShrinks(m, i - 1);
      BatchEntry(m, i - 1);
      var id := m.PointIds()[i - 1];
      assert states[i].store.points == Upserted(o.points, StagedBatch(m), i)
          == states[i - 1].store.points[id := StagedPoint(m, id)];
      assert StagesOne(m, states[i - 1], states[i], id);
    }
  }

  lemma FlippingIsChain(c: Config, m: Manifest, o: Store, trail: seq<map<PointId, Payload>>)
    requires ValidManifest(m) && |trail| == |m.projections|
    requires forall i :: 0 <= i < |trail| ==> trail[i] == Patched(o.points, m.PointIds(), Ingested, i + 1)
    ensures Chain(c, m, FlippingStates(m, o, trail))
  {
    hide ValidManifest, Patch, Elements, Ids, Points;
    var states := FlippingStates(m, o, trail);
    forall i | 0 < i < |states| ensures Step(c, m, states[i - 1], states[i]) {
      PendingShrinks(m, i - 1);
      var id := m.PointIds()[i - 1];
      assert states[i].store.points == Patched(o.points, m.PointIds(), Ingested, i)
          == Patch(states[i - 1].store.points, id, Ingested);
      assert FlipsOne(states[i - 1], states[i], id);
    }
  }

  lemma NothingPending(m: Manifest)
    ensures Points(m) - Elements(m.PointIds()[..|m.projections|]) == {}
    ensures Points(m) - Elements(m.PointIds()[..0]) == Points(m)
  {
    assert m.PointIds()[..|m.projections|] == m.PointIds();
  }

  lemma ChainJoins(c: Config, m: Manifest, a: seq<RunState>, b: seq<RunState>)
    requires Chain(c, m, a) && Chain(c, m, b)
    requires a != [] && b != [] ==> Step(c, m, a[|a| - 1], b[0])
    ensures Chain(c, m, a + b)
  {
    hide Step;
    var run := a + b;
    forall i | 0 < i < |run| ensures Step(c, m, run[i - 1], run[i]) {
      if i == |a| {
        assert run[i - 1] == a[|a| - 1] && run[i] == b[0];
      } else if i < |a| {
        assert run[i - 1] == a[i - 1] && run[i] == a[i];
      } else {
        assert run[i - 1] == b[i - |a| - 1] && run[i] == b[i - |a|];
      }
    }
  }

  /** What a returned run must be. */
  ghost predicate Performs(c: Config, m: Manifest, start: Store, run: seq<RunState>,
                           r: Result<Receipt, ServiceError>, end: Store)
  {
    && IsRun(c, m, start, run)
    && run[|run| - 1].store == end
    && (r.Success? <==> run[|run| - 1].phase.Returned?)
  }

  class QdrantService {
    var config: Config
    const collection: Collection

    constructor (config: Config, collection: Collection)
      ensures this.config == config && this.collection == collection
    {
      this.config := config;
      this.collection := collection;
    }

    /** Once closed, no client is opened again. */
    method Close()
      modifies this
      ensures config == old(config).(closed := true)
    {
      config := config.(closed := true);
    }

    method WriteManifest(m: Manifest, actor: string)
      returns (r: Result<Receipt, ServiceError>, ghost run: seq<RunState>)
      requires ValidManifest(m)
      modifies collection
      ensures (r, collection.Snapshot()) == Write(config, m, actor, old(collection.Snapshot()))
      ensures MayWrite(config, m, actor) ==>
        Performs(config, m, old(collection.Snapshot()), run, r, collection.Snapshot())
      ensures !MayWrite(config, m, actor) ==>
        r.Failure? && RefusedWith(config, m, actor, r.error) && collection.Snapshot() == old(collection.Snapshot())
    {
      hide ValidManifest, Written, Index, Points, Stage, Publish, Admission, ReceiptFor, IsBound, StagesOne, FlipsOne,
        MayWrite, RefusedWith;
      AdmissionDecided(config, m, actor);
      ghost var start := collection.Snapshot();
      run := [RunState(start, Entering)];
      var admission := Admission(config, m, actor);
      if admission.Failure? {
        return Failure(admission.error), run;
      }
      if config.closed {
        return Failure(ServiceClosed), run;
      }
      var receipt := ReceiptFor(config, m, admission.value);
      if FullyIngested(collection.Snapshot(), m) {
        return Success(receipt), run + [RunState(start, Returned)];
      }
      run := run + [RunState(start, Opening)];
      if collection.present {
        if !GoodVectors(config, collection.Snapshot()) {
          return Failure(WrongVectors), run + [RunState(start, Raised)];
        }
        run := run + [RunState(start, Binding)];
        if !IsBound(collection.points, m) {
          return Failure(NotBound), run + [RunState(start, Raised)];
        }
      } else {
        collection.Create(config.dimension);
      }
      r, run := StageAndPublish(m, receipt, run);
    }

    /** The two batch writes and their verifications. */
    method StageAndPublish(m: Manifest, receipt: Receipt, ghost entered: seq<RunState>)
      returns (r: Result<Receipt, ServiceError>, ghost run: seq<RunState>)
      requires ValidManifest(m)
      requires entered != [] && Chain(config, m, entered)
      requires Step(config, m, entered[|entered| - 1], RunState(collection.Snapshot(), Staging(Points(m))))
      modifies collection`points
      ensures var o := old(collection.Snapshot());
        var staged := Stage(o.points, m);
        var published := Publish(staged, m);
        (r, collection.Snapshot()) ==
          if !Written(staged, m, Approved) then (Failure(StagingUnverified), o.(points := staged))
          else if !Written(published, m, Ingested) then (Failure(PublicationUnverified), o.(points := published))
          else (Success(receipt), o.(points := published))
      ensures |run| > |entered| && run[0] == entered[0] && Chain(config, m, run)
      ensures run[|run| - 1].store == collection.Snapshot() && (r.Success? <==> run[|run| - 1].phase.Returned?)
    {
      hide ValidManifest, Written, Index, StagedBatch, Points, Upserted, Patched, Elements;
      NothingPending(m);
      ghost var o := collection.Snapshot();
      ghost var trail := collection.Upsert(StagedBatch(m));
      ghost var staging := StagingStates(m, o, trail);
      StagingIsChain(config, m, o, trail);
      ChainJoins(config, m, entered, staging);
      ghost var s1 := collection.Snapshot();
      StagingEnds(m, o, trail, s1);
      run := entered + staging + [RunState(s1, CheckingStaged)];
      ChainJoins(config, m, entered + staging, [RunState(s1, CheckingStaged)]);
      if !Written(collection.points, m, Approved) {
        ChainJoins(config, m, run, [RunState(s1, Raised)]);
        return Failure(StagingUnverified), run + [RunState(s1, Raised)];
      }
      trail := collection.SetStatus(m.PointIds(), Ingested);
      ghost var flipping := FlippingStates(m, s1, trail);
      FlippingIsChain(config, m, s1, trail);
      ChainJoins(config, m, run, flipping);
      ghost var s2 := collection.Snapshot();
      FlippingEnds(m, s1, trail, s2);
      ChainJoins(config, m, run + flipping, [RunState(s2, CheckingPublished)]);
      run := run + flipping + [RunState(s2, CheckingPublished)];
      if !Written(collection.points, m, Ingested) {
        ChainJoins(config, m, run, [RunState(s2, Raised)]);
        return Failure(PublicationUnverified), run + [RunState(s2, Raised)];
      }
      ChainJoins(config, m, run, [RunState(s2, Returned)]);
      return Success(receipt), run + [RunState(s2, Returned)];
    }

    method CleanupManifestPoints(m: Manifest) returns (r: Result<CleanupOutcome, ServiceError>)
      modifies collection
      ensures (r, collection.Snapshot()) == Cleanup(config, m, old(collection.Snapshot()))
    {
      hide IsRemovable, TargetsBootstrap, Ids;
      if config.mode == Production && !config.writesEnabled {
        return Failure(WritesDisabled);
      }
      if TargetsBootstrap(config.collectionName) {
        return Failure(BootstrapCollection);
      }
      if config.closed {
        return Success(ReconciliationRequired);
      }
      if !collection.present {
        return Success(NotNeeded);
      }
      var ids := m.PointIds();
      var owned: seq<PointId> := [];
      for n := 0 to |ids|
        invariant forall i :: 0 <= i < n && ids[i] in collection.points ==>
                    IsRemovable(m, ids[i], collection.points[ids[i]])
        invariant forall i :: 0 <= i < n && ids[i] in collection.points ==> ids[i] in owned
        invariant forall id :: id in owned ==> id in ids
      {
        if ids[n] in collection.points {
          if !IsRemovable(m, ids[n], collection.points[ids[n]]) {
            return Success(ReconciliationRequired);
          }
          owned := owned + [ids[n]];
        }
      }
      if owned != [] {
        collection.Delete(owned);
      }
      assert collection.points == old(collection.points) - Elements(ids);
      var remaining := exists id :: id in ids && id in collection.points;
      r := Success(if remaining then ReconciliationRequired else Cleaned);
    }

    /** `answer` is what the store returned to the filter. */
    method SearchDocuments(query: string, caller: Option<Caller>, filters: Option<SearchFilter>, answer: seq<Hit>)
      returns (r: Result<seq<Hit>, ServiceError>)
      ensures r == Search(config, collection.present, query, caller, filters, answer)
    {
      hide Recheck;
      if caller.None? {
        return Failure(AuthorizationRequired);
      }
      if caller.value.bootstrapLimited {
        return Failure(AnonymousProduction);
      }
      if Text.Strip(query) == [] {
        return Success([]);
      }
      if config.active.None? {
        return Failure(NoActiveIdentity);
      }
      if config.activeChecksums == map[] {
        return Failure(NoActiveChecksums);
      }
      if config.closed {
        return Failure(ServiceClosed);
      }
      if !collection.present {
        return Success([]);
      }
      var results: seq<Hit> := [];
      for n := 0 to |answer|
        invariant Accept(config, caller.value, filters, config.active.value, answer[..n]) == Success(results)
      {
        assert answer[..n + 1][..n] == answer[..n];
        var refusal := Recheck(config, caller.value, filters, config.active.value, answer[n].id, answer[n].payload);
        if refusal.Some? {
          RefusalIsFinal(config, caller.value, filters, config.active.value, answer, n + 1);
          return Failure(refusal.value);
        }
        results := results + [answer[n]];
      }
      assert answer[..|answer|] == answer;
      r := Success(results);
    }
  }

  lemma {:induction false} RefusalIsFinal(c: Config, caller: Caller, filters: Option<SearchFilter>, identity: Identity,
                                          answer: seq<Hit>, n: nat)
    requires n <= |answer| && Accept(c, caller, filters, identity, answer[..n]).Failure?
    ensures Accept(c, caller, filters, identity, answer) == Accept(c, caller, filters, identity, answer[..n])
  {
    hide Recheck;
    if n < |answer| {
      var init := answer[..|answer| - 1];
      assert init[..n] == answer[..n];
      RefusalIsFinal(c, caller, filters, identity, init, n);
    } else {
      assert answer[..n] == answer;
    }
  }

  lemma StagingEnds(m: Manifest, o: Store, trail: seq<map<PointId, Payload>>, end: Store)
    requires ValidManifest(m) && |trail| == |m.projections| && end == o.(points := Stage(o.points, m))
    requires forall i :: 0 <= i < |trail| ==> trail[i] == Upserted(o.points, StagedBatch(m), i + 1)
    ensures var states := StagingStates(m, o, trail);
      states[0] == RunState(o, Staging(Points(m))) && states[|states| - 1] == RunState(end, Staging({}))
  {
    hide ValidManifest, StagedBatch;
    NothingPending(m);
  }

  lemma FlippingEnds(m: Manifest, o: Store, trail: seq<map<PointId, Payload>>, end: Store)
    requires ValidManifest(m) && |trail| == |m.projections| && end == o.(points := Publish(o.points, m))
    requires forall i :: 0 <= i < |trail| ==> trail[i] == Patched(o.points, m.PointIds(), Ingested, i + 1)
    ensures var states := FlippingStates(m, o, trail);
      states[0] == RunState(o, Flipping(Points(m))) && states[|states| - 1] == RunState(end, Flipping({}))
  {
    hide ValidManifest;
    NothingPending(m);
  }

  // ----- A partly visible state is reached -----

  function StageTrail(m: Manifest, points: map<PointId, Payload>): (trail: seq<map<PointId, Payload>>)
    ensures |trail| == |m.projections|
    ensures forall i :: 0 <= i < |trail| ==> trail[i] == Upserted(points, StagedBatch(m), i + 1)
  {
    seq(|m.projections|, i requires 0 <= i < |m.projections| => Upserted(points, StagedBatch(m), i + 1))
  }

  function FlipTrail(m: Manifest, points: map<PointId, Payload>): (trail: seq<map<PointId, Payload>>)
    ensures |trail| == |m.projections|
    ensures forall i :: 0 <= i < |trail| ==> trail[i] == Patched(points, m.PointIds(), Ingested, i + 1)
  {
    seq(|m.projections|, i requires 0 <= i < |m.projections| => Patched(points, m.PointIds(), Ingested, i + 1))
  }

  /** The run that creates the collection, stages everything, and stops after the first flip. */
  lemma RunToFirstFlip(c: Config, m: Manifest) returns (run: seq<RunState>)
    requires ValidManifest(m)
    ensures IsRun(c, m, Store(false, 0, false, map[]), run)
    ensures run[|run| - 1].phase == Flipping(Points(m) - Elements(m.PointIds()[..1]))
  {
    hide ValidManifest, Written, Index, StagedBatch, Points, Upserted, Patched, Elements, Step, StageTrail, FlipTrail;
    var absent := Store(false, 0, false, map[]);
    var o := Opened(c, absent);
    var s1 := o.(points := Stage(o.points, m));
    var staging := StagingStates(m, o, StageTrail(m, o.points));
    var flipping := FlippingStates(m, s1, FlipTrail(m, s1.points));
    var entered := [RunState(absent, Entering), RunState(absent, Opening)];
    StagingIsChain(c, m, o, StageTrail(m, o.points));
    StagingEnds(m, o, StageTrail(m, o.points), s1);
    FlippingIsChain(c, m, s1, FlipTrail(m, s1.points));
    FlippingEnds(m, s1, FlipTrail(m, s1.points), s1.(points := Publish(s1.points, m)));
    FirstSteps(c, m, absent, s1);
    AtLeastOne(m);
    assert Chain(c, m, entered);
    ChainJoins(c, m, entered, staging);
    ChainJoins(c, m, entered + staging, [RunState(s1, CheckingStaged)]);
    ChainPrefix(c, m, flipping);
    ChainJoins(c, m, entered + staging + [RunState(s1, CheckingStaged)], flipping[..2]);
    run := entered + staging + [RunState(s1, CheckingStaged)] + flipping[..2];
  }

  lemma AtLeastOne(m: Manifest)
    requires ValidManifest(m)
    ensures |m.projections| >= 1
  {
    ValidIsCanonical(m);
  }

  lemma ChainPrefix(c: Config, m: Manifest, run: seq<RunState>)
    requires Chain(c, m, run) && |run| >= 2
    ensures Chain(c, m, run[..2])
  {
    hide Step;
  }

  lemma FirstSteps(c: Config, m: Manifest, absent: Store, s1: Store)
    requires ValidManifest(m) && !absent.present && absent.points == map[]
    requires s1 == Opened(c, absent).(points := Stage(Opened(c, absent).points, m))
    ensures Step(c, m, RunState(absent, Entering), RunState(absent, Opening))
    ensures Step(c, m, RunState(absent, Opening), RunState(Opened(c, absent), Staging(Points(m))))
    ensures Step(c, m, RunState(s1, Staging({})), RunState(s1, CheckingStaged))
    ensures Step(c, m, RunState(s1, CheckingStaged), RunState(s1, Flipping(Points(m))))
  {
    hide ValidManifest, Written, Stage, Points, StagesOne, FlipsOne;
    StageWrites(m, map[]);
  }

  /** Part of a manifest of two or more points can be readable while the rest is stored and not readable. */
  lemma PartlyVisibleIsReached(c: Config, m: Manifest) returns (run: seq<RunState>)
    requires ValidManifest(m) && |m.projections| >= 2
    ensures IsRun(c, m, Store(false, 0, false, map[]), run)
    ensures PartlyVisible(run[|run| - 1].store.points)
  {
    hide ValidManifest, IsRun, PartlyVisible, Ids;
    run := RunToFirstFlip(c, m);
    var start := Store(false, 0, false, map[]);
    assert Free(m, start);
    assert run != [] by { RunsAreNotEmpty(c, m, start, run); }
    PartlyVisibleDecided(c, m, start, run, |run| - 1);
    ValidIsCanonical(m);
    var ids := m.PointIds();
    assert ids[0] < ids[1] && ids[0] in Elements(ids) && ids[1] in Elements(ids);
    var pending := Points(m) - Elements(ids[..1]);
    assert ids[..1] == [ids[0]];
    assert ids[0] !in pending && ids[1] in pending;
    assert ids[1] in Points(m) * pending && ids[0] !in Points(m) * pending;
  }

  lemma RunsAreNotEmpty(c: Config, m: Manifest, start: Store, run: seq<RunState>)
    requires IsRun(c, m, start, run)
    ensures run != []
  {
  }

  // ----- A closed service -----

  /** Whatever it is asked, a closed service changes nothing and returns no receipt and no hit. */
  lemma ClosedServiceIsInert(c: Config, m: Manifest, actor: string, s: Store, query: string, caller: Option<Caller>,
                             filters: Option<SearchFilter>, answer: seq<Hit>)
    requires c.closed
    ensures Write(c, m, actor, s).0.Failure? && Write(c, m, actor, s).1 == s
    ensures Cleanup(c, m, s).1 == s && Cleanup(c, m, s).0 != Success(Cleaned)
    ensures var r := Search(c, s.present, query, caller, filters, answer); r.Failure? || r.value == []
  {
    hide Admission, TargetsBootstrap, IsRemovable, Accept;
  }
}
