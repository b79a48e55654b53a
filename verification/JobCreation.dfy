/**
 Creating extraction jobs under every interleaving of transactions. `create_job` takes no row lock: it
 looks the specification up, inserts inside a savepoint, and reads the winner when the insert is lost
 to a unique key. Every interleaving with itself and with the locking calls answers and stores what
 some order of atomic calls does, so one specification never gets a second job.
 */
module JobCreation {
  import opened Wrappers
  import opened ExtractionJobs
  import opened ExtractionLifecycle

  type TxnId = nat

  datatype Phase = Opened | Inserting | Contended | Owner | Answered(answer: Answer) | Closed

  /** One call of `create_job`: the row's new identifier, its specification, and whether its chain is approved. */
  datatype Txn = Txn(id: JobId, spec: JobSpec, authorized: bool, phase: Phase)

  /** A call at the moment that decides it, and its answer. */
  datatype Entry = Entry(call: Call, answer: Answer)

  datatype World = World(committed: Db, txns: map<TxnId, Txn>, log: seq<Entry>)

  datatype Step =
    | Open(t: TxnId, id: JobId, spec: JobSpec, authorized: bool)
    | Select(t: TxnId)
    | Insert(t: TxnId)
    | ReadWinner(t: TxnId)
    | Commit(t: TxnId)
    | Rollback(t: TxnId)
    | Locking(call: Call)

  function At(w: World, t: TxnId): Phase
  {
    if t in w.txns then w.txns[t].phase else Closed
  }

  function Put(w: World, t: TxnId, phase: Phase): World
    requires t in w.txns
  {
    w.(txns := w.txns[t := w.txns[t].(phase := phase)])
  }

  /** The transaction has its answer, and stored nothing. */
  function Reply(w: World, t: TxnId, answer: Answer): World
    requires t in w.txns
  {
    var Txn(id, spec, authorized, _) := w.txns[t];
    Put(w, t, Answered(answer)).(log := w.log + [Entry(CreateJob(id, spec, authorized), answer)])
  }

  /** `_verify_existing_job`. */
  function Existing(db: Db, spec: JobSpec): Answer
    requires JobKey(spec) in db.byKey
  {
    var known := db.byKey[JobKey(spec)];
    if known in db.jobs && db.jobs[known].spec == spec then JobIs(known, false) else Raised(KeyMismatch)
  }

  /** Another open transaction has inserted this key or this identifier and not finished. */
  predicate Blocked(w: World, t: TxnId)
    requires t in w.txns
  {
    exists u :: u in w.txns && u != t && w.txns[u].phase.Owner? && Clash(w.txns[u], w.txns[t])
  }

  predicate Clash(a: Txn, b: Txn)
  {
    a.spec == b.spec || a.id == b.id
  }

  function CommitOwner(w: World, t: TxnId): World
    requires t in w.txns && w.txns[t].phase.Owner?
  {
    var Txn(id, spec, authorized, _) := w.txns[t];
    var db := w.committed;
    Put(w, t, Closed).(
      committed := db.(jobs := db.jobs[id := Job(spec, Queued, 0, None, None, None, None)],
                       byKey := db.byKey[JobKey(spec) := id]),
      log := w.log + [Entry(CreateJob(id, spec, authorized), JobIs(id, true))])
  }

  /** One step; a step that is not enabled, or whose transaction has to wait, changes nothing. */
  function Next(w: World, step: Step): World
  {
    match step
    case Open(t, id, spec, authorized) =>
      if t in w.txns then w else w.(txns := w.txns[t := Txn(id, spec, authorized, Opened)])
    case Select(t) =>
      if !At(w, t).Opened? then w
      else if !w.txns[t].authorized then Reply(w, t, Raised(Unauthorized))
      else if JobKey(w.txns[t].spec) in w.committed.byKey then Reply(w, t, Existing(w.committed, w.txns[t].spec))
      else Put(w, t, Inserting)
    case Insert(t) =>
      if !At(w, t).Inserting? then w
      else if JobKey(w.txns[t].spec) in w.committed.byKey || w.txns[t].id in w.committed.jobs then Put(w, t, Contended)
      else if Blocked(w, t) then w
      else Put(w, t, Owner)
    case ReadWinner(t) =>
      if !At(w, t).Contended? then w
      else if JobKey(w.txns[t].spec) in w.committed.byKey then Reply(w, t, Existing(w.committed, w.txns[t].spec))
      else Reply(w, t, Raised(IdTaken))
    case Commit(t) =>
      if At(w, t).Owner? then CommitOwner(w, t)
      else if t in w.txns then Put(w, t, Closed)
      else w
    case Rollback(t) =>
      if t in w.txns then Put(w, t, Closed) else w
    case Locking(call) =>
      if call.CreateJob? then w
      else
        var (answer, after) := Apply(w.committed, call);
        w.(committed := after, log := w.log + [Entry(call, answer)])
  }

  function Play(w: World, steps: seq<Step>): World
    decreases |steps|
  {
    if steps == [] then w else Next(Play(w, steps[..|steps| - 1]), steps[|steps| - 1])
  }

  const IDLE := World(EMPTY, map[], [])

  // ----- The invariant -----

  predicate TxnSound(db: Db, x: Txn)
  {
    match x.phase
    case Inserting => x.authorized
    case Contended => x.authorized && (JobKey(x.spec) in db.byKey || x.id in db.jobs)
    case Owner => x.authorized && JobKey(x.spec) !in db.byKey && x.id !in db.jobs
    case _ => true
  }

  predicate TxnsSound(w: World)
  {
    && (forall t :: t in w.txns ==> TxnSound(w.committed, w.txns[t]))
    && (forall t, u :: t in w.txns && u in w.txns && t != u && w.txns[t].phase.Owner? && w.txns[u].phase.Owner? ==>
          !Clash(w.txns[t], w.txns[u]))
  }

  function Calls(log: seq<Entry>): (calls: seq<Call>)
    ensures |calls| == |log|
  {
    seq(|log|, i requires 0 <= i < |log| => log[i].call)
  }

  /** Every answer is the one the atomic call gives after those before it. */
  ghost predicate Sequential(db: Db, log: seq<Entry>)
  {
    && db == Run(EMPTY, Calls(log))
    && forall i :: 0 <= i < |log| ==> log[i].answer == Apply(Run(EMPTY, Calls(log[..i])), log[i].call).0
  }

  ghost predicate WorldInv(w: World)
  {
    TxnsSound(w) && Sequential(w.committed, w.log)
  }

  // ----- Every step -----

  lemma RunSnoc(calls: seq<Call>, call: Call)
    ensures Run(EMPTY, calls + [call]) == Apply(Run(EMPTY, calls), call).1
  {
    assert (calls + [call])[..|calls|] == calls;
  }

  lemma LogOne(db: Db, log: seq<Entry>, call: Call)
    requires Sequential(db, log)
    ensures var (answer, after) := Apply(db, call); Sequential(after, log + [Entry(call, answer)])
  {
    hide Apply;
    var (answer, after) := Apply(db, call);
    var longer := log + [Entry(call, answer)];
    assert Calls(longer) == Calls(log) + [call];
    RunSnoc(Calls(log), call);
    forall i | 0 <= i < |longer| ensures longer[i].answer == Apply(Run(EMPTY, Calls(longer[..i])), longer[i].call).0 {
      if i < |log| {
        assert longer[..i] == log[..i];
      } else {
        assert longer[..i] == log;
      }
    }
  }

  /** Calls that lock a job's row create none. */
  lemma LockingKeepsJobs(db: Db, call: Call)
    requires !call.CreateJob?
    ensures Apply(db, call).1.jobs.Keys == db.jobs.Keys && Apply(db, call).1.byKey == db.byKey
  {
    hide FindAttempt, FindArtifact, BoundedText, SafeErrorCode, HasArtifact;
  }

  lemma PutKeeps(w: World, t: TxnId, phase: Phase)
    requires TxnsSound(w) && t in w.txns && TxnSound(w.committed, w.txns[t].(phase := phase))
    requires phase.Owner? ==> !Blocked(w, t)
    ensures TxnsSound(Put(w, t, phase))
  {
    hide TxnSound;
    var v := Put(w, t, phase);
    forall a, b | a in v.txns && b in v.txns && a != b && v.txns[a].phase.Owner? && v.txns[b].phase.Owner?
      ensures !Clash(v.txns[a], v.txns[b])
    {
      assert a != t && b != t ==> w.txns[a] == v.txns[a] && w.txns[b] == v.txns[b];
    }
  }

  lemma ReplyKeeps(w: World, t: TxnId, answer: Answer)
    requires WorldInv(w) && t in w.txns
    requires Create(w.committed, w.txns[t].id, w.txns[t].spec, w.txns[t].authorized) == (answer, w.committed)
    ensures WorldInv(Reply(w, t, answer))
  {
    hide TxnsSound, Sequential;
    AnsweredKeeps(w, t, answer);
    var Txn(id, spec, authorized, _) := w.txns[t];
    LogOne(w.committed, w.log, CreateJob(id, spec, authorized));
    SameTxns(Put(w, t, Answered(answer)), Reply(w, t, answer));
  }

  lemma AnsweredKeeps(w: World, t: TxnId, answer: Answer)
    requires TxnsSound(w) && t in w.txns
    ensures TxnsSound(Put(w, t, Answered(answer)))
  {
    PutKeeps(w, t, Answered(answer));
  }

  lemma SameTxns(w: World, v: World)
    requires v.committed == w.committed && v.txns == w.txns && TxnsSound(w)
    ensures TxnsSound(v)
  {
  }

  lemma CommitKeeps(w: World, t: TxnId)
    requires WorldInv(w) && t in w.txns && w.txns[t].phase.Owner?
    ensures WorldInv(CommitOwner(w, t))
  {
    hide Sequential;
    var x := w.txns[t];
    assert TxnSound(w.committed, x);
    LogOne(w.committed, w.log, CreateJob(x.id, x.spec, x.authorized));
    var v := CommitOwner(w, t);
    forall u | u in v.txns ensures TxnSound(v.committed, v.txns[u]) {
      assert TxnSound(w.committed, w.txns[u]);
    }
  }

  lemma LockingKeeps(w: World, call: Call)
    requires WorldInv(w) && !call.CreateJob?
    ensures WorldInv(Next(w, Locking(call)))
  {
    hide Sequential, Apply;
    LogOne(w.committed, w.log, call);
    LockingKeepsJobs(w.committed, call);
    var v := Next(w, Locking(call));
    forall u | u in v.txns ensures TxnSound(v.committed, v.txns[u]) {
      assert TxnSound(w.committed, w.txns[u]);
    }
  }

  /** Every step of every interleaving keeps the open transactions apart and the log sequential. */
  lemma StepKeepsWorld(w: World, step: Step)
    requires WorldInv(w)
    ensures WorldInv(Next(w, step))
  {
    hide Sequential, CommitOwner, Reply, Blocked, Apply;
    match step
    case Open(t, id, spec, authorized) =>
    case Select(t) =>
      if At(w, t).Opened? {
        var x := w.txns[t];
        if !x.authorized {
          ReplyKeeps(w, t, Raised(Unauthorized));
        } else if JobKey(x.spec) in w.committed.byKey {
          ReplyKeeps(w, t, Existing(w.committed, x.spec));
        } else {
          PutKeeps(w, t, Inserting);
        }
      }
    case Insert(t) =>
      if At(w, t).Inserting? {
        var x := w.txns[t];
        assert TxnSound(w.committed, x);
        if JobKey(x.spec) in w.committed.byKey || x.id in w.committed.jobs {
          PutKeeps(w, t, Contended);
        } else if !Blocked(w, t) {
          PutKeeps(w, t, Owner);
        }
      }
    case ReadWinner(t) =>
      if At(w, t).Contended? {
        var x := w.txns[t];
        assert TxnSound(w.committed, x);
        var known := JobKey(x.spec) in w.committed.byKey;
        ReplyKeeps(w, t, if known then Existing(w.committed, x.spec) else Raised(IdTaken));
      }
    case Commit(t) =>
      if At(w, t).Owner? {
        CommitKeeps(w, t);
      } else if t in w.txns {
        PutKeeps(w, t, Closed);
      }
    case Rollback(t) =>
      if t in w.txns {
        PutKeeps(w, t, Closed);
      }
    case Locking(call) =>
      if !call.CreateJob? {
        LockingKeeps(w, call);
      }
  }

  /**
   Linearizability: whatever the interleaving, the committed tables are those of the logged calls made
   one after the other, and every call got the answer of its turn.
   */
  lemma {:induction false} InterleavingIsSequential(steps: seq<Step>)
    ensures WorldInv(Play(IDLE, steps))
  {
    hide WorldInv, Next;
    if steps == [] {
      IdleIsSound();
    } else {
      InterleavingIsSequential(steps[..|steps| - 1]);
      StepKeepsWorld(Play(IDLE, steps[..|steps| - 1]), steps[|steps| - 1]);
    }
  }

  lemma IdleIsSound()
    ensures WorldInv(IDLE)
  {
  }

  // ----- One job for one specification -----

  lemma {:induction false} RunConcat(db: Db, a: seq<Call>, b: seq<Call>)
    ensures Run(db, a + b) == Run(Run(db, a), b)
  {
    hide Apply;
    if b == [] {
      assert a + b == a;
    } else {
      RunConcat(db, a, b[..|b| - 1]);
      assert (a + b)[..|a + b| - 1] == a + b[..|b| - 1];
    }
  }

  lemma CallsBetween(log: seq<Entry>, i: nat, j: nat)
    requires i < j < |log|
    ensures Run(EMPTY, Calls(log[..j]))
         == Run(Apply(Run(EMPTY, Calls(log[..i])), log[i].call).1, Calls(log[i + 1..j]))
  {
    hide Apply;
    assert Calls(log[..j]) == (Calls(log[..i]) + [log[i].call]) + Calls(log[i + 1..j]);
    RunConcat(EMPTY, Calls(log[..i]) + [log[i].call], Calls(log[i + 1..j]));
    RunSnoc(Calls(log[..i]), log[i].call);
  }

  predicate Creates(e: Entry, spec: JobSpec)
  {
    e.call.CreateJob? && e.call.spec == spec && e.answer.JobIs?
  }

  /** Whatever the interleaving, all calls for one specification name one job, and the first alone creates it. */
  lemma OneJobPerSpecification(steps: seq<Step>, i: nat, j: nat, spec: JobSpec)
    requires i < j < |Play(IDLE, steps).log|
    requires Creates(Play(IDLE, steps).log[i], spec) && Creates(Play(IDLE, steps).log[j], spec)
    ensures Play(IDLE, steps).log[j].answer == JobIs(Play(IDLE, steps).log[i].answer.id, false)
  {
    hide Inv, Run, Play;
    InterleavingIsSequential(steps);
    var log := Play(IDLE, steps).log;
    var before := Run(EMPTY, Calls(log[..i]));
    EveryRunKeepsInv(Calls(log[..i]));
    CallsBetween(log, i, j);
    CreateIsIdempotent(before, Calls(log[i + 1..j]), log[i].call.id, log[j].call.id, spec);
  }

  /** An approved call gets a job unless its new identifier is taken; its key is never another specification's. */
  lemma ApprovedIsAnswered(steps: seq<Step>, i: nat)
    requires i < |Play(IDLE, steps).log|
    requires var call := Play(IDLE, steps).log[i].call; call.CreateJob? && call.authorized
    ensures var Entry(call, answer) := Play(IDLE, steps).log[i];
            var db := Run(EMPTY, Calls(Play(IDLE, steps).log[..i]));
            if JobKey(call.spec) in db.byKey then answer == JobIs(db.byKey[JobKey(call.spec)], false)
            else if call.id in db.jobs then answer == Raised(IdTaken)
            else answer == JobIs(call.id, true)
  {
    hide Run, Play, JobInv;
    InterleavingIsSequential(steps);
    EveryRunKeepsInv(Calls(Play(IDLE, steps).log[..i]));
  }

  /** The committed tables keep the whole-run invariant of the atomic calls. */
  lemma InterleavingKeepsInv(steps: seq<Step>)
    ensures Inv(Play(IDLE, steps).committed)
  {
    hide Inv, Run, Play;
    InterleavingIsSequential(steps);
    EveryRunKeepsInv(Calls(Play(IDLE, steps).log));
  }

  /** Some call was told that it created job `j`. */
  ghost predicate Claimed(log: seq<Entry>, j: JobId)
  {
    exists i :: 0 <= i < |log| && log[i].answer == JobIs(j, true)
  }

  lemma ClaimOne(db: Db, call: Call, j: JobId)
    ensures j in Apply(db, call).1.jobs <==> j in db.jobs || Apply(db, call).0 == JobIs(j, true)
  {
    hide FindAttempt, FindArtifact, BoundedText, SafeErrorCode, HasArtifact;
  }

  lemma {:induction false} ClaimsAreJobs(log: seq<Entry>, j: JobId)
    requires Sequential(Run(EMPTY, Calls(log)), log)
    ensures j in Run(EMPTY, Calls(log)).jobs <==> Claimed(log, j)
  {
    hide Apply;
    if log != [] {
      var init, last := log[..|log| - 1], log[|log| - 1];
      forall i | 0 <= i < |init| ensures init[i].answer == Apply(Run(EMPTY, Calls(init[..i])), init[i].call).0 {
        assert init[..i] == log[..i];
      }
      ClaimsAreJobs(init, j);
      assert Calls(log)[..|log| - 1] == Calls(init);
      ClaimOne(Run(EMPTY, Calls(init)), last.call, j);
      ClaimSnoc(init, last, j);
      assert log == init + [last];
    }
  }

  lemma ClaimSnoc(log: seq<Entry>, e: Entry, j: JobId)
    ensures Claimed(log + [e], j) <==> Claimed(log, j) || e.answer == JobIs(j, true)
  {
    if Claimed(log, j) {
      var i :| 0 <= i < |log| && log[i].answer == JobIs(j, true);
      assert (log + [e])[i] == log[i];
    }
    if e.answer == JobIs(j, true) {
      assert (log + [e])[|log|] == e;
    }
  }

  /** A job is stored exactly if some call was told that it created it: nothing is lost or made up. */
  lemma StoredIsClaimed(steps: seq<Step>, j: JobId)
    ensures j in Play(IDLE, steps).committed.jobs <==> Claimed(Play(IDLE, steps).log, j)
  {
    hide Run, Play, Claimed;
    InterleavingIsSequential(steps);
    ClaimsAreJobs(Play(IDLE, steps).log, j);
  }

  // ----- The atomic call -----

  /** The steps of one call, not interrupted. */
  function OwnSteps(w: World, t: TxnId): World
  {
    Next(Next(Next(Next(w, Select(t)), Insert(t)), ReadWinner(t)), Commit(t))
  }

  /** With no other transaction in its way, the steps of a call do what the atomic call does. */
  lemma CreateIsItsSteps(w: World, t: TxnId)
    requires At(w, t).Opened? && !Blocked(w, t)
    ensures var x := w.txns[t];
            var (answer, after) := Create(w.committed, x.id, x.spec, x.authorized);
            && OwnSteps(w, t).committed == after
            && OwnSteps(w, t).log == w.log + [Entry(CreateJob(x.id, x.spec, x.authorized), answer)]
            && At(OwnSteps(w, t), t).Closed?
  {
    var inserting := Next(w, Select(t));
    assert At(inserting, t).Inserting? ==> !Blocked(inserting, t);
  }

  /** No open insert but that of `t` stands in the way of `u`. */
  predicate OnlyBlocker(w: World, t: TxnId, u: TxnId)
    requires u in w.txns
  {
    forall o :: o in w.txns && o != u && o != t && w.txns[o].phase.Owner? ==> !Clash(w.txns[o], w.txns[u])
  }

  /** A rolled-back insert leaves no trace, and whoever waited for it alone goes on. */
  lemma RollbackFrees(w: World, t: TxnId, u: TxnId)
    requires At(w, t).Owner? && u in w.txns && u != t && OnlyBlocker(w, t, u)
    ensures var after := Next(w, Rollback(t));
      after.committed == w.committed && after.log == w.log && At(after, u) == At(w, u) && !Blocked(after, u)
  {
  }

  /** Two calls for one specification, the first of them done with its insert. */
  function Racing(a: JobId, b: JobId, spec: JobSpec, second: Phase): World
  {
    World(EMPTY, map[0 := Txn(a, spec, true, Owner), 1 := Txn(b, spec, true, second)], [])
  }

  lemma RaceBegins(a: JobId, b: JobId, spec: JobSpec) returns (worlds: seq<World>)
    ensures |worlds| == 6 && worlds[0] == IDLE && worlds[5] == Racing(a, b, spec, Inserting)
    ensures Next(worlds[0], Open(0, a, spec, true)) == worlds[1] && Next(worlds[1], Open(1, b, spec, true)) == worlds[2]
    ensures Next(worlds[2], Select(0)) == worlds[3] && Next(worlds[3], Select(1)) == worlds[4]
    ensures Next(worlds[4], Insert(0)) == worlds[5]
  {
    hide CommitOwner, Reply, Apply;
    var alone := World(EMPTY, map[0 := Txn(a, spec, true, Opened)], []);
    var both := World(EMPTY, map[0 := Txn(a, spec, true, Opened), 1 := Txn(b, spec, true, Opened)], []);
    var one := World(EMPTY, map[0 := Txn(a, spec, true, Inserting), 1 := Txn(b, spec, true, Opened)], []);
    var two := World(EMPTY, map[0 := Txn(a, spec, true, Inserting), 1 := Txn(b, spec, true, Inserting)], []);
    worlds := [IDLE, alone, both, one, two, Racing(a, b, spec, Inserting)];
    assert !Blocked(two, 0);
  }

  lemma RaceEnds(a: JobId, b: JobId, spec: JobSpec) returns (worlds: seq<World>)
    ensures |worlds| == 5 && worlds[0] == Racing(a, b, spec, Inserting)
    ensures Next(worlds[0], Insert(1)) == worlds[1] && Next(worlds[1], Commit(0)) == worlds[2]
    ensures Next(worlds[2], Insert(1)) == worlds[3] && Next(worlds[3], ReadWinner(1)) == worlds[4]
    ensures worlds[1] == worlds[0]
    ensures worlds[4].log == [Entry(CreateJob(a, spec, true), JobIs(a, true)),
                              Entry(CreateJob(b, spec, true), JobIs(a, false))]
  {
    hide Apply;
    var start := Racing(a, b, spec, Inserting);
    assert start.txns[0].phase.Owner? && Blocked(start, 1);
    var committed := Next(start, Commit(0));
    var lost := Next(committed, Insert(1));
    worlds := [start, start, committed, lost, Next(lost, ReadWinner(1))];
  }

  /**
   The race: two calls for one specification find nothing, the second insert waits for the first, is
   lost to it when that commits, and the second call answers with the first one's job.
   */
  lemma LostInsertReadsWinner(a: JobId, b: JobId, spec: JobSpec) returns (steps: seq<Step>)
    ensures Insert(1) in steps && ReadWinner(1) in steps
    ensures Play(IDLE, steps).log == [Entry(CreateJob(a, spec, true), JobIs(a, true)),
                                      Entry(CreateJob(b, spec, true), JobIs(a, false))]
  {
    hide Next, Play;
    var first := RaceBegins(a, b, spec);
    var second := RaceEnds(a, b, spec);
    steps := [Open(0, a, spec, true), Open(1, b, spec, true), Select(0), Select(1), Insert(0),
              Insert(1), Commit(0), Insert(1), ReadWinner(1)];
    var worlds := first + second[1..];
    assert steps[5] == Insert(1) && steps[8] == ReadWinner(1);
    PlayTo(IDLE, steps, worlds, |steps|);
  }

  lemma {:induction false} PlayTo(w: World, steps: seq<Step>, worlds: seq<World>, n: nat)
    requires n <= |steps| && |worlds| == |steps| + 1 && worlds[0] == w
    requires forall i :: 0 <= i < |steps| ==> worlds[i + 1] == Next(worlds[i], steps[i])
    ensures Play(w, steps[..n]) == worlds[n]
    ensures n == |steps| ==> Play(w, steps) == worlds[n]
  {
    hide Next;
    assert steps[..|steps|] == steps;
    if n > 0 {
      PlayTo(w, steps, worlds, n - 1);
      assert steps[..n][..n - 1] == steps[..n - 1];
    }
  }
}
