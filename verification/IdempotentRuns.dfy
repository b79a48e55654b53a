/**
 Idempotent requests under every interleaving of their transactions. Each transaction begins,
 stages its effect, completes, and commits or rolls back; the database blocks an insert while
 another open transaction holds the same unique key. At most one effect a key is ever
 committed, and every answer a key gives is the response of the one committed completion.
 */
module IdempotentRuns {
  import opened Wrappers
  import opened Idempotency

  type TxnId = nat

  datatype Phase =
    | Opened
    | Inserting
    | Contended
    | Owner(record: Record, effect: bool)
    | Answered(answer: Result<Response, IdempotencyError>)
    | Closed

  datatype Txn = Txn(key: Key, hash: string, phase: Phase)

  /** A response that left the service. */
  datatype Answer = Answer(txn: TxnId, key: Key, hash: string, response: Response)

  datatype Effect = Effect(key: Key, txn: TxnId)

  datatype World = World(
    committed: map<Key, Record>,
    txns: map<TxnId, Txn>,
    effects: seq<Effect>,
    answers: seq<Answer>)

  datatype Step =
    | Open(t: TxnId, key: Key, hash: string)
    | Select(t: TxnId)
    | Insert(t: TxnId, now: int)
    | ReadWinner(t: TxnId)
    | StageEffect(t: TxnId)
    | Complete(t: TxnId, response: Response, now: int)
    | Commit(t: TxnId)
    | Rollback(t: TxnId)

  function At(w: World, t: TxnId): Phase
  {
    if t in w.txns then w.txns[t].phase else Closed
  }

  function Put(w: World, t: TxnId, phase: Phase): World
    requires t in w.txns
  {
    w.(txns := w.txns[t := w.txns[t].(phase := phase)])
  }

  /** An existing record answers the request; a replayed response leaves the service. */
  function AnswerFrom(w: World, t: TxnId, record: Record): World
    requires t in w.txns
  {
    var txn := w.txns[t];
    var answer := Existing(record, txn.hash);
    var put := Put(w, t, Answered(answer));
    if answer.Success? then put.(answers := put.answers + [Answer(t, txn.key, txn.hash, answer.value)]) else put
  }

  /** Another open transaction has inserted the key and not finished. */
  predicate Blocked(w: World, t: TxnId, key: Key)
  {
    exists u :: u in w.txns && u != t && w.txns[u].key == key && w.txns[u].phase.Owner?
  }

  function CommitOwner(w: World, t: TxnId): World
    requires t in w.txns && w.txns[t].phase.Owner?
  {
    var Txn(key, hash, phase) := w.txns[t];
    var closed := Put(w, t, Closed);
    closed.(
      committed := w.committed[key := phase.record],
      effects := w.effects + if phase.effect then [Effect(key, t)] else [],
      answers := w.answers + if phase.record.status.Completed? && phase.record.response.Some?
                             then [Answer(t, key, hash, phase.record.response.value)] else [])
  }

  /** One step; a step that is not enabled, or whose transaction has to wait, changes nothing. */
  function Next(w: World, step: Step): World
  {
    match step
    case Open(t, key, hash) =>
      if t in w.txns then w else w.(txns := w.txns[t := Txn(key, hash, Opened)])
    case Select(t) =>
      if !At(w, t).Opened? then w
      else if w.txns[t].key in w.committed then AnswerFrom(w, t, w.committed[w.txns[t].key])
      else Put(w, t, Inserting)
    case Insert(t, now) =>
      if !At(w, t).Inserting? then w
      else if w.txns[t].key in w.committed then Put(w, t, Contended)
      else if Blocked(w, t, w.txns[t].key) then w
      else Put(w, t, Owner(Fresh(w.txns[t].hash, now), false))
    case ReadWinner(t) =>
      if !At(w, t).Contended? then w
      else if w.txns[t].key in w.committed then AnswerFrom(w, t, w.committed[w.txns[t].key])
      else Put(w, t, Answered(Failure(StillInProgress)))
    case StageEffect(t) =>
      if !At(w, t).Owner? || !At(w, t).record.status.InProgress? then w
      else Put(w, t, Owner(At(w, t).record, true))
    case Complete(t, response, now) =>
      if !At(w, t).Owner? || !At(w, t).effect || !At(w, t).record.status.InProgress?
         || !StatusCode(response.status) then w
      else Put(w, t, Owner(CompletedWith(At(w, t).record, response, now), true))
    case Commit(t) =>
      if At(w, t).Owner? then CommitOwner(w, t)
      else if t in w.txns then Put(w, t, Closed)
      else w
    case Rollback(t) =>
      if t in w.txns then Put(w, t, Closed) else w
  }

  function Run(w: World, steps: seq<Step>): World
    decreases |steps|
  {
    if steps == [] then w else Run(Next(w, steps[0]), steps[1..])
  }

  const EMPTY := World(map[], map[], [], [])

  // ----- The invariant -----

  /** A record is in progress without a response, or completed with one. */
  predicate Sound(record: Record)
  {
    && !record.status.FailedStatus?
    && (record.status.Completed? <==> record.response.Some?)
  }

  predicate OwnerSound(w: World, t: TxnId)
    requires t in w.txns && w.txns[t].phase.Owner?
  {
    var Txn(key, hash, phase) := w.txns[t];
    && key !in w.committed
    && phase.record.hash == hash
    && Sound(phase.record)
    && (phase.record.status.Completed? ==> phase.effect)
  }

  predicate TxnsSound(w: World)
  {
    && (forall t :: t in w.txns && w.txns[t].phase.Owner? ==> OwnerSound(w, t))
    && (forall t, u :: t in w.txns && u in w.txns && t != u && w.txns[t].phase.Owner? && w.txns[u].phase.Owner? ==>
          w.txns[t].key != w.txns[u].key)
    && (forall t :: t in w.txns && w.txns[t].phase.Contended? ==> w.txns[t].key in w.committed)
  }

  predicate HasEffect(w: World, key: Key)
  {
    exists i :: 0 <= i < |w.effects| && w.effects[i].key == key
  }

  predicate EffectsSound(w: World)
  {
    && (forall i :: 0 <= i < |w.effects| ==> w.effects[i].key in w.committed)
    && (forall i, j :: 0 <= i < j < |w.effects| ==> w.effects[i].key != w.effects[j].key)
    && (forall key :: key in w.committed ==> Sound(w.committed[key]))
    && (forall key :: key in w.committed && w.committed[key].status.Completed? ==> HasEffect(w, key))
  }

  predicate AnswerSound(w: World, a: Answer)
  {
    a.key in w.committed && w.committed[a.key].hash == a.hash && w.committed[a.key].response == Some(a.response)
  }

  predicate AnswersSound(w: World)
  {
    forall i :: 0 <= i < |w.answers| ==> AnswerSound(w, w.answers[i])
  }

  predicate Inv(w: World)
  {
    TxnsSound(w) && EffectsSound(w) && AnswersSound(w)
  }

  lemma PutKeepsInv(w: World, t: TxnId, phase: Phase)
    requires Inv(w) && t in w.txns
    requires phase.Owner? ==>
               var key := w.txns[t].key;
               && key !in w.committed && phase.record.hash == w.txns[t].hash && Sound(phase.record)
               && (phase.record.status.Completed? ==> phase.effect)
               && !Blocked(w, t, key)
    requires phase.Contended? ==> w.txns[t].key in w.committed
    ensures Inv(Put(w, t, phase))
  {
    hide Sound, HasEffect;
    var v := Put(w, t, phase);
    assert EffectsSound(v) by {
      assert forall key :: HasEffect(v, key) == HasEffect(w, key) by { SameEffects(w, v); }
    }
    assert AnswersSound(v) by {
      assert forall i :: 0 <= i < |v.answers| ==> AnswerSound(w, w.answers[i]);
    }
    forall u | u in v.txns && v.txns[u].phase.Owner? ensures OwnerSound(v, u) {
      if u != t {
        assert OwnerSound(w, u);
      }
    }
  }

  lemma SameEffects(w: World, v: World)
    requires w.effects == v.effects
    ensures forall key :: HasEffect(v, key) == HasEffect(w, key)
  {
  }

  lemma AnswerKeepsInv(w: World, t: TxnId)
    requires Inv(w) && t in w.txns && w.txns[t].key in w.committed
    ensures Inv(AnswerFrom(w, t, w.committed[w.txns[t].key]))
  {
    hide TxnsSound, HasEffect;
    var record := w.committed[w.txns[t].key];
    var put := Put(w, t, Answered(Existing(record, w.txns[t].hash)));
    PutKeepsInv(w, t, Answered(Existing(record, w.txns[t].hash)));
    var v := AnswerFrom(w, t, record);
    assert TxnsSound(v) by { SameTxns(put, v); }
    assert EffectsSound(v) by { SameEffects(put, v); }
    assert forall i :: 0 <= i < |put.answers| ==> AnswerSound(put, put.answers[i]);
  }

  lemma SameTxns(w: World, v: World)
    requires w.txns == v.txns && w.committed == v.committed
    ensures TxnsSound(w) ==> TxnsSound(v)
  {
    if TxnsSound(w) {
      assert forall t :: t in v.txns && v.txns[t].phase.Owner? ==> OwnerSound(w, t);
    }
  }

  lemma CommitKeepsTxns(w: World, t: TxnId)
    requires Inv(w) && t in w.txns && w.txns[t].phase.Owner?
    ensures TxnsSound(CommitOwner(w, t))
  {
    hide Sound, EffectsSound, AnswersSound;
    var v := CommitOwner(w, t);
    forall u | u in v.txns && v.txns[u].phase.Owner? ensures OwnerSound(v, u) {
      assert u != t && OwnerSound(w, u);
    }
  }

  lemma CommitKeepsEffects(w: World, t: TxnId)
    requires Inv(w) && t in w.txns && w.txns[t].phase.Owner?
    ensures EffectsSound(CommitOwner(w, t))
  {
    hide Sound, AnswersSound;
    var v := CommitOwner(w, t);
    var key := w.txns[t].key;
    assert OwnerSound(w, t);
    forall k | k in v.committed && v.committed[k].status.Completed? ensures HasEffect(v, k) {
      if k == key {
        assert v.effects[|w.effects|].key == k;
      } else {
        assert HasEffect(w, k);
        var i :| 0 <= i < |w.effects| && w.effects[i].key == k;
        assert v.effects[i].key == k;
      }
    }
  }

  lemma CommitKeepsAnswers(w: World, t: TxnId)
    requires Inv(w) && t in w.txns && w.txns[t].phase.Owner?
    ensures AnswersSound(CommitOwner(w, t))
  {
    hide Sound, EffectsSound;
    var v := CommitOwner(w, t);
    assert OwnerSound(w, t);
    forall i | 0 <= i < |v.answers| ensures AnswerSound(v, v.answers[i]) {
      if i < |w.answers| {
        assert AnswerSound(w, w.answers[i]);
      }
    }
  }

  /** Every step of every interleaving keeps the invariant. */
  lemma StepKeepsInv(w: World, step: Step)
    requires Inv(w)
    ensures Inv(Next(w, step))
  {
    hide EffectsSound, AnswersSound, AnswerFrom, CommitOwner, Put;
    match step
    case Open(t, key, hash) =>
      if t !in w.txns {
        OpenKeepsInv(w, t, key, hash);
      }
    case Select(t) =>
      if At(w, t).Opened? {
        if w.txns[t].key in w.committed {
          AnswerKeepsInv(w, t);
        } else {
          PutKeepsInv(w, t, Inserting);
        }
      }
    case Insert(t, now) =>
      if At(w, t).Inserting? {
        if w.txns[t].key in w.committed {
          PutKeepsInv(w, t, Contended);
        } else if !Blocked(w, t, w.txns[t].key) {
          PutKeepsInv(w, t, Owner(Fresh(w.txns[t].hash, now), false));
        }
      }
    case ReadWinner(t) =>
      if At(w, t).Contended? {
        AnswerKeepsInv(w, t);
      }
    case StageEffect(t) =>
      if At(w, t).Owner? && At(w, t).record.status.InProgress? {
        assert OwnerSound(w, t);
        PutKeepsInv(w, t, Owner(At(w, t).record, true));
      }
    case Complete(t, response, now) =>
      if At(w, t).Owner? && At(w, t).effect && At(w, t).record.status.InProgress? && StatusCode(response.status) {
        assert OwnerSound(w, t);
        PutKeepsInv(w, t, Owner(CompletedWith(At(w, t).record, response, now), true));
      }
    case Commit(t) =>
      if At(w, t).Owner? {
        CommitKeepsTxns(w, t);
        CommitKeepsEffects(w, t);
        CommitKeepsAnswers(w, t);
      } else if t in w.txns {
        PutKeepsInv(w, t, Closed);
      }
    case Rollback(t) =>
      if t in w.txns {
        PutKeepsInv(w, t, Closed);
      }
  }

  lemma OpenKeepsInv(w: World, t: TxnId, key: Key, hash: string)
    requires Inv(w) && t !in w.txns
    ensures Inv(w.(txns := w.txns[t := Txn(key, hash, Opened)]))
  {
    hide Sound, HasEffect;
    var v := w.(txns := w.txns[t := Txn(key, hash, Opened)]);
    SameEffects(w, v);
    assert forall u :: u in w.txns && w.txns[u].phase.Owner? ==> OwnerSound(w, u);
    assert forall i :: 0 <= i < |v.answers| ==> AnswerSound(w, w.answers[i]);
  }

  lemma {:induction false} RunKeepsInv(w: World, steps: seq<Step>)
    requires Inv(w)
    ensures Inv(Run(w, steps))
    decreases |steps|
  {
    hide Inv, Next;
    if steps != [] {
      StepKeepsInv(w, steps[0]);
      RunKeepsInv(Next(w, steps[0]), steps[1..]);
    }
  }

  lemma EmptyInv()
    ensures Inv(EMPTY)
  {
  }

  // ----- What every run guarantees -----

  /**
   Over every interleaving: at most one committed effect a key; all answers of a key agree in
   request hash and response, so a request with another payload never obtains a replay; and an
   answered key has had its effect.
   */
  lemma AtMostOnce(steps: seq<Step>)
    ensures var w := Run(EMPTY, steps);
            && (forall i, j :: 0 <= i < j < |w.effects| ==> w.effects[i].key != w.effects[j].key)
            && (forall i, j :: 0 <= i < |w.answers| && 0 <= j < |w.answers| && w.answers[i].key == w.answers[j].key ==>
                  w.answers[i].hash == w.answers[j].hash && w.answers[i].response == w.answers[j].response)
            && (forall i :: 0 <= i < |w.answers| ==> HasEffect(w, w.answers[i].key))
  {
    hide HasEffect, TxnsSound;
    EmptyInv();
    RunKeepsInv(EMPTY, steps);
    var w := Run(EMPTY, steps);
    assert forall i :: 0 <= i < |w.answers| ==> AnswerSound(w, w.answers[i]);
    forall i | 0 <= i < |w.answers| ensures HasEffect(w, w.answers[i].key) {
      assert AnswerSound(w, w.answers[i]);
      assert Sound(w.committed[w.answers[i].key]);
    }
  }

  /** Committed records are never rewritten, effects and answers never taken back. */
  predicate Extends(w: World, v: World)
  {
    && (forall key :: key in w.committed ==> key in v.committed && v.committed[key] == w.committed[key])
    && w.effects <= v.effects && w.answers <= v.answers
  }

  lemma StepExtends(w: World, step: Step)
    requires Inv(w)
    ensures Extends(w, Next(w, step))
  {
    hide EffectsSound, AnswersSound;
    if step.Commit? && At(w, step.t).Owner? {
      assert OwnerSound(w, step.t);
    }
  }

  lemma {:induction false} RunExtends(w: World, steps: seq<Step>)
    requires Inv(w)
    ensures Extends(w, Run(w, steps))
    decreases |steps|
  {
    hide Inv, Next, Extends;
    if steps == [] {
      ExtendsItself(w);
    } else {
      StepKeepsInv(w, steps[0]);
      StepExtends(w, steps[0]);
      RunExtends(Next(w, steps[0]), steps[1..]);
      ExtendsChain(w, Next(w, steps[0]), Run(w, steps));
    }
  }

  lemma ExtendsItself(w: World)
    ensures Extends(w, w)
  {
  }

  lemma ExtendsChain(u: World, v: World, w: World)
    requires Extends(u, v) && Extends(v, w)
    ensures Extends(u, w)
  {
  }

  /** Once a completion is committed, every later answer under its key is that response. */
  lemma LaterAnswersReplay(w: World, steps: seq<Step>, key: Key, i: nat)
    requires Inv(w) && key in w.committed && w.committed[key].status.Completed?
    requires i < |Run(w, steps).answers| && Run(w, steps).answers[i].key == key
    ensures w.committed[key].response == Some(Run(w, steps).answers[i].response)
    ensures w.committed[key].hash == Run(w, steps).answers[i].hash
  {
    hide TxnsSound, EffectsSound;
    RunKeepsInv(w, steps);
    RunExtends(w, steps);
    assert AnswerSound(Run(w, steps), Run(w, steps).answers[i]);
  }

  // ----- The steps and the repository -----

  /** Where a decision of the repository leaves its transaction. */
  function PhaseOf(d: Decision): Phase
  {
    match d
    case Owned(record) => Owner(record, false)
    case Decided(answer) => Answered(answer)
  }

  /**
   A select, any steps of others, an insert that does not have to wait, again any steps of others and,
   when the insert failed, a second read decide together as `Decide` does.
   */
  lemma BeginIsItsSteps(w: World, others: seq<Step>, more: seq<Step>, t: TxnId, now: int,
                        atInsert: World, atRead: World)
    requires Inv(w) && At(w, t).Opened?
    requires forall i :: 0 <= i < |others| ==> others[i].t != t
    requires forall i :: 0 <= i < |more| ==> more[i].t != t
    requires atInsert == Run(Next(w, Select(t)), others)
    requires w.txns[t].key in atInsert.committed || !Blocked(atInsert, t, w.txns[t].key)
    requires atRead == Run(Next(atInsert, Insert(t, now)), more)
    ensures At(Next(atRead, ReadWinner(t)), t)
         == PhaseOf(Decide(w.committed, atInsert.committed, atRead.committed, w.txns[t].key, w.txns[t].hash, now))
  {
    hide Blocked, Existing, Run, Inv;
    OthersLeaveAlone(Next(w, Select(t)), others, t);
    OthersLeaveAlone(Next(atInsert, Insert(t, now)), more, t);
    if w.txns[t].key in w.committed {
      assert atInsert.txns[t].phase.Answered?;
    } else {
      assert atInsert.txns[t].phase.Inserting?;
    }
  }

  /** The winner of a lost insert is still there at the second read: no run takes the branch without one. */
  lemma WinnerIsFound(steps: seq<Step>, t: TxnId)
    requires At(Run(EMPTY, steps), t).Contended?
    ensures Run(EMPTY, steps).txns[t].key in Run(EMPTY, steps).committed
  {
    hide EffectsSound, AnswersSound;
    EmptyInv();
    RunKeepsInv(EMPTY, steps);
  }

  lemma {:induction false} OthersLeaveAlone(w: World, others: seq<Step>, t: TxnId)
    requires t in w.txns && forall i :: 0 <= i < |others| ==> others[i].t != t
    ensures t in Run(w, others).txns && Run(w, others).txns[t] == w.txns[t]
    decreases |others|
  {
    hide Next;
    if others != [] {
      OneLeavesAlone(w, others[0], t);
      OthersLeaveAlone(Next(w, others[0]), others[1..], t);
    }
  }

  lemma OneLeavesAlone(w: World, step: Step, t: TxnId)
    requires t in w.txns && step.t != t
    ensures t in Next(w, step).txns && Next(w, step).txns[t] == w.txns[t]
  {
    hide Existing, Blocked, Fresh;
  }

  // ----- Progress -----

  /** A request nobody has made and nobody is making goes through, with its effect and its answer. */
  lemma FreshRequestCompletes(w: World, t: TxnId, key: Key, hash: string, response: Response, now: int)
    requires t !in w.txns && key !in w.committed && !Blocked(w, t, key) && StatusCode(response.status)
    ensures var begun := Next(Next(Next(w, Open(t, key, hash)), Select(t)), Insert(t, now));
            var done := Next(Next(Next(begun, StageEffect(t)), Complete(t, response, now)), Commit(t));
            && done.effects == w.effects + [Effect(key, t)]
            && done.answers == w.answers + [Answer(t, key, hash, response)]
            && done.committed == w.committed[key := CompletedWith(Fresh(hash, now), response, now)]
  {
    hide Blocked;
    var inserting := Next(Next(w, Open(t, key, hash)), Select(t));
    assert At(inserting, t) == Inserting;
    assert !Blocked(inserting, t, key) by { BlockedByOthersOnly(w, inserting, t, key); }
  }

  /** A request made again after it completed is answered with its response; another one under its key is refused. */
  lemma RepeatedRequestReplays(w: World, t: TxnId, key: Key, hash: string)
    requires Inv(w) && t !in w.txns && key in w.committed && w.committed[key].status.Completed?
    ensures var again := Next(Next(w, Open(t, key, hash)), Select(t));
      if hash == w.committed[key].hash then
        && w.committed[key].response.Some?
        && At(again, t) == Answered(Success(w.committed[key].response.value))
        && again.answers == w.answers + [Answer(t, key, hash, w.committed[key].response.value)]
      else At(again, t) == Answered(Failure(PayloadConflict)) && again.answers == w.answers
  {
    hide TxnsSound, AnswersSound, HasEffect;
    assert Sound(w.committed[key]);
  }

  lemma BlockedByOthersOnly(w: World, v: World, t: TxnId, key: Key)
    requires forall u :: u != t ==> (u in w.txns <==> u in v.txns)
    requires forall u :: u != t && u in w.txns ==> w.txns[u] == v.txns[u]
    ensures Blocked(w, t, key) == Blocked(v, t, key)
  {
  }

  /** Rolling back leaves no trace and frees the key. */
  lemma RollbackLeavesNothing(w: World, t: TxnId, u: TxnId)
    requires Inv(w) && At(w, t).Owner? && t != u
    ensures var v := Next(w, Rollback(t));
            && v.committed == w.committed && v.effects == w.effects && v.answers == w.answers
            && w.txns[t].key !in v.committed && !Blocked(v, u, w.txns[t].key)
  {
    hide EffectsSound, AnswersSound;
    assert OwnerSound(w, t);
  }
}
