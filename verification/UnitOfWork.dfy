/**
 The transaction boundary (persistence/uow.py): one transaction per entry, committed only by an
 explicit call and at most once; leaving without one changes nothing.
 */
module UnitOfWork {
  import opened Wrappers

  datatype UnitError = AlreadyActive | NotActive | AlreadyFinished | DatabaseError

  /** Database and unit of work together; `staged` is what the open session would commit. */
  datatype Unit<T> = Unit(committed: T, active: bool, finished: bool, staged: T)

  /** `Write` stands for any use of the session; `CommitCall(false)` is a commit the database refuses. */
  datatype Call<T> = EnterCall | Write(value: T) | CommitCall(accepted: bool) | RollbackCall | ExitCall

  function Refuses<T>(u: Unit<T>, call: Call<T>): Option<UnitError>
  {
    match call
    case EnterCall => if u.active then Some(AlreadyActive) else None
    case Write(_) => if u.active then None else Some(NotActive)
    case CommitCall(accepted) =>
      if u.finished then Some(AlreadyFinished)
      else if !u.active then Some(NotActive)
      else if !accepted then Some(DatabaseError)
      else None
    case RollbackCall => None
    case ExitCall => None
  }

  /** The state behind one call, raised or not. */
  function After<T>(u: Unit<T>, call: Call<T>): Unit<T>
  {
    match call
    case EnterCall => if u.active then u else Unit(u.committed, true, false, u.committed)
    case Write(value) => if u.active then u.(staged := value) else u
    case CommitCall(accepted) =>
      if u.finished || !u.active then u
      else if accepted then Unit(u.staged, true, true, u.staged)
      else Unit(u.committed, true, true, u.committed)
    case RollbackCall => if !u.active || u.finished then u else Unit(u.committed, true, true, u.committed)
    case ExitCall => if u.active then Unit(u.committed, false, false, u.committed) else u
  }

  function AfterAll<T>(u: Unit<T>, calls: seq<Call<T>>): Unit<T>
  {
    if calls == [] then u else After(AfterAll(u, calls[..|calls| - 1]), calls[|calls| - 1])
  }

  class Database<T> {
    var committed: T

    constructor (value: T)
      ensures committed == value
    {
      committed := value;
    }
  }

  class SqlAlchemyUnitOfWork<T> {
    const db: Database<T>
    var active: bool
    var finished: bool
    var staged: T

    function State(): Unit<T>
      reads this, db
    {
      Unit(db.committed, active, finished, staged)
    }

    constructor (db: Database<T>)
      ensures this.db == db && !active && !finished
      ensures State() == Unit(db.committed, false, false, db.committed)
    {
      this.db := db;
      active, finished, staged := false, false, db.committed;
    }

    method Enter() returns (error: Option<UnitError>)
      modifies this
      ensures State() == After(old(State()), EnterCall) && error == Refuses(old(State()), EnterCall)
    {
      if active {
        return Some(AlreadyActive);
      }
      active, finished, staged := true, false, db.committed;
      error := None;
    }

    method Write(value: T) returns (error: Option<UnitError>)
      modifies this
      ensures State() == After(old(State()), Call.Write(value)) && error == Refuses(old(State()), Call.Write(value))
    {
      if !active {
        return Some(NotActive);
      }
      staged := value;
      error := None;
    }

    /** `accepted` is the database's answer to the commit. */
    method Commit(accepted: bool) returns (error: Option<UnitError>)
      modifies this, db
      ensures State() == After(old(State()), CommitCall(accepted))
      ensures error == Refuses(old(State()), CommitCall(accepted))
    {
      if finished {
        return Some(AlreadyFinished);
      }
      if !active {
        return Some(NotActive);
      }
      if !accepted {
        staged, finished := db.committed, true;
        return Some(DatabaseError);
      }
      db.committed := staged;
      finished := true;
      error := None;
    }

    method Rollback()
      modifies this
      ensures State() == After(old(State()), RollbackCall)
    {
      if !active || finished {
        return;
      }
      staged, finished := db.committed, true;
    }

    /** Leaving closes the session; whatever was not committed is gone. */
    method Exit()
      modifies this
      ensures State() == After(old(State()), ExitCall)
    {
      if !active {
        return;
      }
      active, finished, staged := false, false, db.committed;
    }
  }

  /** No entry and no exit: the calls all fall in one context. */
  predicate InOneContext<T>(calls: seq<Call<T>>)
  {
    forall i :: 0 <= i < |calls| ==> !calls[i].EnterCall? && !calls[i].ExitCall?
  }

  /** Once finished, a context can neither commit again nor be committed into: later writes are lost. */
  lemma {:induction false} FinishedIsFinal<T>(u: Unit<T>, calls: seq<Call<T>>)
    requires u.active && u.finished && InOneContext(calls)
    ensures var v := AfterAll(u, calls); v.committed == u.committed && v.active && v.finished
    ensures After(AfterAll(u, calls), ExitCall).committed == u.committed
    decreases |calls|
  {
    if calls != [] {
      FinishedIsFinal(u, calls[..|calls| - 1]);
    }
  }

  /** Without an accepted commit the database keeps what it had. */
  lemma {:induction false} OmittedCommitChangesNothing<T>(u: Unit<T>, calls: seq<Call<T>>)
    requires CommitCall(true) !in calls
    ensures AfterAll(u, calls).committed == u.committed
    decreases |calls|
  {
    if calls != [] {
      OmittedCommitChangesNothing(u, calls[..|calls| - 1]);
      assert calls[|calls| - 1] in calls;
      assert forall c :: c in calls[..|calls| - 1] ==> c in calls;
    }
  }

  predicate Ends<T>(call: Call<T>)
  {
    call.CommitCall? || call.RollbackCall?
  }

  /** The first call that ends the transaction. */
  predicate EndsAt<T>(calls: seq<Call<T>>, i: nat)
  {
    i < |calls| && Ends(calls[i]) && forall j :: 0 <= j < i ==> !Ends(calls[j])
  }

  /** Until a call ends the transaction it stays open and the database untouched. */
  lemma {:induction false} OpenContext<T>(u: Unit<T>, calls: seq<Call<T>>)
    requires u.active && !u.finished && InOneContext(calls)
    requires forall i :: 0 <= i < |calls| ==> !Ends(calls[i])
    ensures var v := AfterAll(u, calls); v.active && !v.finished && v.committed == u.committed
    decreases |calls|
  {
    if calls != [] {
      OpenContext(u, calls[..|calls| - 1]);
    }
  }

  /** When each call is refused, and that a commit publishes what is staged exactly when it is not. */
  lemma RefusalDecided<T>(u: Unit<T>, value: T, accepted: bool)
    ensures Refuses(u, EnterCall) == if u.active then Some(AlreadyActive) else None
    ensures Refuses(u, Write(value)) == if u.active then None else Some(NotActive)
    ensures Refuses(u, CommitCall(accepted)).None? <==> u.active && !u.finished && accepted
    ensures u.finished ==> Refuses(u, CommitCall(accepted)) == Some(AlreadyFinished)
    ensures !u.finished && !u.active ==> Refuses(u, CommitCall(accepted)) == Some(NotActive)
    ensures !u.finished && u.active && !accepted ==> Refuses(u, CommitCall(accepted)) == Some(DatabaseError)
    ensures After(u, CommitCall(accepted)).committed
         == if Refuses(u, CommitCall(accepted)).None? then u.staged else u.committed
  {
  }

  /** What the last write of an open context staged, or what the database held when it was entered. */
  predicate IsLastWrite<T(==)>(calls: seq<Call<T>>, entered: T, staged: T)
  {
    || (staged == entered && forall i :: 0 <= i < |calls| ==> !calls[i].Write?)
    || exists i :: 0 <= i < |calls| && calls[i] == Write(staged) && forall j :: i < j < |calls| ==> !calls[j].Write?
  }

  /** Entering reads the database afresh, and every write replaces what was staged before it. */
  lemma {:induction false} StagedIsLastWrite<T>(u: Unit<T>, calls: seq<Call<T>>)
    requires !u.active && InOneContext(calls) && forall i :: 0 <= i < |calls| ==> !Ends(calls[i])
    ensures var v := AfterAll(After(u, EnterCall), calls);
      v.active && !v.finished && v.committed == u.committed && IsLastWrite(calls, u.committed, v.staged)
    decreases |calls|
  {
    if calls != [] {
      var init := calls[..|calls| - 1];
      StagedIsLastWrite(u, init);
      OpenContext(After(u, EnterCall), calls);
      var staged := AfterAll(After(u, EnterCall), init).staged;
      assert calls == init + [calls[|calls| - 1]];
      if i :| 0 <= i < |init| && init[i] == Write(staged) && forall j :: i < j < |init| ==> !init[j].Write? {
        assert calls[i] == Write(staged);
      }
    }
  }

  /**
   The first ending call decides what a context leaves behind, whatever follows it: an accepted
   commit publishes exactly what was staged then, anything else publishes nothing.
   */
  lemma {:induction false} FirstEndDecides<T>(u: Unit<T>, calls: seq<Call<T>>, i: nat)
    requires u.active && !u.finished && InOneContext(calls) && EndsAt(calls, i)
    ensures var v := After(AfterAll(u, calls), ExitCall);
            v.committed == (if calls[i] == CommitCall(true) then AfterAll(u, calls[..i]).staged else u.committed)
    ensures AfterAll(u, calls).active && AfterAll(u, calls).finished
    decreases |calls|
  {
    var rest := calls[..|calls| - 1];
    if i < |rest| {
      FirstEndDecides(u, rest, i);
      assert rest[..i] == calls[..i];
    } else {
      OpenContext(u, rest);
      assert rest == calls[..i];
    }
  }
}
