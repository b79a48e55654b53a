/**
 What the calls decide, and recovery: whatever mixture of interrupted writes and interrupted
 clean-ups a collection has been through, one clean-up and one write bring it to where an
 uninterrupted write would have.
 */
module Recovery {
  import opened Wrappers
  import opened Sequences
  import opened Projections
  import opened VectorStore
  import opened Governance
  import opened Publication

  // ----- The batch writes, as wholes -----

  /** After `n` upserts the first `n` points are staged and the others are as they were. */
  lemma {:induction false} StagedPrefix(m: Manifest, points: map<PointId, Payload>, n: nat)
    requires ValidManifest(m) && n <= |m.projections|
    ensures var after := Upserted(points, StagedBatch(m), n);
      && after.Keys == points.Keys + Elements(m.PointIds()[..n])
      && (forall id :: id in Elements(m.PointIds()[..n]) && id in Index(m.projections) ==>
            after[id] == StagedPoint(m, id))
  {
    hide ValidManifest, StagedPoint, StagedBatch, Index;
    if n > 0 {
      StagedPrefix(m, points, n - 1);
      var ids := m.PointIds();
      assert ids[..n] == ids[..n - 1] + [ids[n - 1]];
      assert Elements(ids[..n]) == Elements(ids[..n - 1]) + {ids[n - 1]};
      BatchEntry(m, n - 1);
    }
  }

  lemma BatchEntry(m: Manifest, i: nat)
    requires ValidManifest(m) && i < |m.projections|
    ensures m.PointIds()[i] in Index(m.projections)
    ensures Index(m.projections)[m.PointIds()[i]] == m.projections[i]
    ensures StagedBatch(m)[i] == (m.PointIds()[i], StagedPoint(m, m.PointIds()[i]))
  {
    hide ValidProjection, ToPayload, WithStatus, Build, Refusal;
    IndexKeys(m);
    ValidIsCanonical(m);
    SamePointSameProjection(m.projections, Index(m.projections)[m.PointIds()[i]], m.projections[i]);
  }

  lemma StageShape(m: Manifest, points: map<PointId, Payload>)
    requires ValidManifest(m) && points.Keys <= Points(m)
    ensures Stage(points, m).Keys == Points(m) == Index(m.projections).Keys
    ensures forall id :: id in Index(m.projections) ==> Stage(points, m)[id] == StagedPoint(m, id)
  {
    hide *;
    IndexKeys(m);
    StagedAll(m, points);
    assert points.Keys + Points(m) == Points(m);
  }

  lemma StagedAll(m: Manifest, points: map<PointId, Payload>)
    requires ValidManifest(m)
    ensures Stage(points, m).Keys == points.Keys + Points(m)
    ensures forall id :: id in Points(m) && id in Index(m.projections) ==> Stage(points, m)[id] == StagedPoint(m, id)
  {
    hide ValidManifest, StagedPoint, Upserted, StagedBatch, Elements, Ids;
    StagedPrefix(m, points, |m.projections|);
    assert m.PointIds()[..|m.projections|] == m.PointIds();
  }

  lemma StageWrites(m: Manifest, points: map<PointId, Payload>)
    requires ValidManifest(m) && points.Keys <= Points(m)
    ensures Written(Stage(points, m), m, Approved)
  {
    hide ValidManifest, StagedPoint, IsOwn, IsRemovable, Stage, Index;
    var after := Stage(points, m);
    StageShape(m, points);
    IndexKeys(m);
    assert |after| == |after.Keys|;
    forall id | id in Points(m) ensures IsOwn(m, id, after[id], Approved) {
      StagedIsOwn(m, id);
    }
  }

  lemma {:induction false} FlippedPrefix(m: Manifest, points: map<PointId, Payload>, n: nat)
    requires OnlyOwn(m, points) && n <= |m.PointIds()|
    ensures var after := Patched(points, m.PointIds(), Ingested, n);
      && after.Keys == points.Keys && OnlyOwn(m, after)
      && (forall id :: id in Elements(m.PointIds()[..n]) && id in points ==> IsOwn(m, id, after[id], Ingested))
  {
    hide IsOwn, WithStatus;
    if n > 0 {
      FlippedPrefix(m, points, n - 1);
      var ids := m.PointIds();
      assert ids[..n] == ids[..n - 1] + [ids[n - 1]];
      var before := Patched(points, ids, Ingested, n - 1);
      if ids[n - 1] in before {
        FlippedIsOwn(m, ids[n - 1], before[ids[n - 1]]);
      }
    }
  }

  lemma PublishWrites(m: Manifest, points: map<PointId, Payload>)
    requires ValidManifest(m) && Written(points, m, Approved)
    ensures Written(Publish(points, m), m, Ingested)
  {
    hide ValidManifest, IsOwn;
    WrittenIsExact(m, points, Approved);
    FlippedPrefix(m, points, |m.PointIds()|);
    assert m.PointIds()[..|m.PointIds()|] == m.PointIds();
    assert |Publish(points, m)| == |Publish(points, m).Keys| == |points.Keys|;
    forall id | id in m.PointIds() ensures IsOwn(m, id, Publish(points, m)[id], Ingested) {
      assert id in Elements(m.PointIds());
    }
  }

  // ----- What each call decides -----

  /**
   An admitted write succeeds exactly over a collection that is complete already, or absent, or
   empty with the right vectors. It then leaves the manifest published; otherwise it changes nothing.
   */
  lemma WriteDecides(c: Config, m: Manifest, actor: string, s: Store)
    requires ValidManifest(m) && Admission(c, m, actor).Success? && !c.closed
    ensures var (r, after) := Write(c, m, actor, s);
      && (r.Success? <==> FullyIngested(s, m) || !s.present || (s.points == map[] && GoodVectors(c, s)))
      && (r.Success? ==> r.value == ReceiptFor(c, m, Admission(c, m, actor).value) && FullyIngested(after, m))
      && (r.Failure? || FullyIngested(s, m) ==> after == s)
  {
    hide ValidManifest, Written, Admission, Stage, Publish, ReceiptFor;
    if !s.present || s.points == map[] {
      StageWrites(m, map[]);
      PublishWrites(m, Stage(map[], m));
    }
  }

  /** A write that did not find the collection complete has staged and published into an empty one. */
  lemma FreshWriteEnds(c: Config, m: Manifest, actor: string, s: Store)
    requires ValidManifest(m) && Write(c, m, actor, s).0.Success? && !FullyIngested(s, m)
    ensures Write(c, m, actor, s).1.points == Publish(Stage(map[], m), m)
  {
    hide ValidManifest, Written, Stage, Publish;
    WriteDecides(c, m, actor, s);
  }

  /** Writing again returns the same receipt and changes nothing. */
  lemma WriteIsIdempotent(c: Config, m: Manifest, actor: string, s: Store)
    requires ValidManifest(m) && Write(c, m, actor, s).0.Success?
    ensures Write(c, m, actor, Write(c, m, actor, s).1) == Write(c, m, actor, s)
  {
    hide ValidManifest, Written, Stage, Publish;
    WriteDecides(c, m, actor, s);
  }

  /**
   From any collection: no point outside the manifest is touched; nothing at all is when a point under
   one of its ids is foreign, altered or in another review state; otherwise exactly its points go.
   */
  lemma CleanupFrame(c: Config, m: Manifest, s: Store)
    ensures var (r, after) := Cleanup(c, m, s);
      && (forall id :: id !in Points(m) ==> (id in after.points <==> id in s.points))
      && (forall id :: id in after.points ==> id in s.points && after.points[id] == s.points[id])
      && ((exists id :: id in Points(m) && id in s.points && !IsRemovable(m, id, s.points[id])) ==> after == s)
      && (r == Success(Cleaned) ==> after.points.Keys !! Points(m))
      && (r != Success(Cleaned) ==> after == s)
      && (r == Success(Cleaned) && after == s ==> s.points.Keys !! Points(m))
  {
    hide IsRemovable, TargetsBootstrap;
  }

  lemma CleanupDecides(c: Config, m: Manifest, s: Store)
    requires c.mode == Production && c.writesEnabled && !c.closed && !TargetsBootstrap(c.collectionName)
    ensures (Cleanup(c, m, s).0 == Success(NotNeeded)) <==> !s.present
    ensures (Cleanup(c, m, s).0 == Success(Cleaned)) <==>
      s.present && forall id :: id in Points(m) && id in s.points ==> IsRemovable(m, id, s.points[id])
  {
    hide IsRemovable, TargetsBootstrap;
  }

  // ----- Any history of interrupted writes and clean-ups -----

  datatype Activity = Idle | Writing(phase: Phase) | Deleting(pending: set<PointId>)

  datatype Life = Life(store: Store, activity: Activity)

  predicate DeletesOne(l: Life, k: Life, id: PointId)
  {
    && l.activity.Deleting? && id in l.activity.pending
    && k == Life(l.store.(points := l.store.points - {id}), Deleting(l.activity.pending - {id}))
  }

  /** One process at a time; it may stop after any step, and the next call starts from what it left. */
  ghost predicate LifeStep(c: Config, m: Manifest, l: Life, k: Life)
  {
    || k == Life(l.store, Idle)
    || (l.activity.Idle? && k == Life(l.store, Writing(Entering)))
    || (l.activity.Idle? && Cleanup(c, m, l.store).0 == Success(Cleaned)
        && k == Life(l.store, Deleting(Points(m) * l.store.points.Keys)))
    || (l.activity.Writing? && k.activity.Writing?
        && Step(c, m, RunState(l.store, l.activity.phase), RunState(k.store, k.activity.phase)))
    || (exists id :: DeletesOne(l, k, id))
  }

  ghost predicate IsLife(c: Config, m: Manifest, start: Store, life: seq<Life>)
  {
    && life != [] && life[0] == Life(start, Idle)
    && forall i :: 0 < i < |life| ==> LifeStep(c, m, life[i - 1], life[i])
  }

  /** The same vectors as at the start, or those of the collection the service created. */
  predicate SameVectors(c: Config, start: Store, s: Store)
  {
    if start.present then s.present && s.dimension == start.dimension && s.cosine == start.cosine
    else s.present ==> GoodVectors(c, s)
  }

  /** An absent collection holds nothing, and no call is at work inside it. */
  predicate Placed(l: Life)
  {
    l.store.present
    || (l.store.points == map[]
        && (l.activity.Idle?
            || (l.activity.Writing?
                && (l.activity.phase.Entering? || l.activity.phase.Opening? || l.activity.phase.Raised?))))
  }

  ghost predicate LifeInv(c: Config, m: Manifest, start: Store, l: Life)
  {
    OnlyOwn(m, l.store.points) && SameVectors(c, start, l.store) && Placed(l)
  }

  lemma WriteStepKeepsInv(c: Config, m: Manifest, start: Store, l: Life, k: Life)
    requires ValidManifest(m) && LifeInv(c, m, start, l) && l.activity.Writing? && k.activity.Writing?
    requires Step(c, m, RunState(l.store, l.activity.phase), RunState(k.store, k.activity.phase))
    ensures LifeInv(c, m, start, k)
  {
    hide ValidManifest, IsRemovable, Written, StagedPoint, Patch, Index;
    var s, t := RunState(l.store, l.activity.phase), RunState(k.store, k.activity.phase);
    if id :| StagesOne(m, s, t, id) {
      StageKeepsOwn(m, s.store.points, id);
    } else if id :| FlipsOne(s, t, id) {
      FlipOne(m, s.store.points, id);
    }
  }

  lemma LifeStepKeepsInv(c: Config, m: Manifest, start: Store, l: Life, k: Life)
    requires ValidManifest(m) && LifeInv(c, m, start, l) && LifeStep(c, m, l, k)
    ensures LifeInv(c, m, start, k)
  {
    hide ValidManifest, IsRemovable, Step, TargetsBootstrap;
    if l.activity.Writing? && k.activity.Writing?
       && Step(c, m, RunState(l.store, l.activity.phase), RunState(k.store, k.activity.phase)) {
      WriteStepKeepsInv(c, m, start, l, k);
    }
  }

  lemma {:induction false} LifeKeepsInv(c: Config, m: Manifest, start: Store, life: seq<Life>, i: nat)
    requires ValidManifest(m) && IsLife(c, m, start, life) && i < |life|
    requires start.points == map[]
    ensures LifeInv(c, m, start, life[i])
  {
    hide ValidManifest, IsRemovable, LifeStep;
    if i > 0 {
      LifeKeepsInv(c, m, start, life, i - 1);
      LifeStepKeepsInv(c, m, start, life[i - 1], life[i]);
    }
  }

  /**
   Recovery: from every state of every such history of an absent or empty collection, clean-up succeeds
   and removes every point, and the next write answers exactly as an uninterrupted first write does.
   */
  lemma RecoveryFromAnyHistory(c: Config, m: Manifest, actor: string, start: Store, life: seq<Life>, i: nat)
    requires ValidManifest(m) && Admission(c, m, actor).Success? && !c.closed
    requires start.points == map[]
    requires IsLife(c, m, start, life) && i < |life|
    ensures var (outcome, cleaned) := Cleanup(c, m, life[i].store);
      && (outcome == Success(Cleaned) || outcome == Success(NotNeeded))
      && cleaned.points == map[]
      && Write(c, m, actor, cleaned).0 == Write(c, m, actor, start).0
      && (Write(c, m, actor, start).0.Success? ==> FullyIngested(Write(c, m, actor, cleaned).1, m))
  {
    hide ValidManifest, IsRemovable, Written, LifeStep, Stage, Publish, ReceiptFor, TargetsBootstrap;
    LifeKeepsInv(c, m, start, life, i);
    var s := life[i].store;
    OwnKeys(m, s.points);
    CleanupDecides(c, m, s);
    var cleaned := Cleanup(c, m, s).1;
    assert cleaned.points.Keys == {};
    EmptyIsIncomplete(m, start);
    EmptyIsIncomplete(m, cleaned);
    WriteDecides(c, m, actor, start);
    WriteDecides(c, m, actor, cleaned);
  }

  lemma EmptyIsIncomplete(m: Manifest, s: Store)
    requires ValidManifest(m) && s.points == map[]
    ensures !FullyIngested(s, m)
  {
    IndexKeys(m);
  }
}
