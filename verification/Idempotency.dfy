/**
 One idempotency decision inside one transaction (persistence/idempotency.py): what an existing
 record answers, the insert that may lose to a concurrent one, and completion.
 */
module Idempotency {
  import opened Wrappers
  import Text

  datatype Key = Key(actor: nat, scope: string, name: string)

  datatype Response = Response(status: int, body: string)

  datatype Status = InProgress | Completed | FailedStatus

  datatype Record = Record(
    hash: string,
    status: Status,
    response: Option<Response>,
    lockedUntil: Option<int>,
    expiresAt: int,
    completedAt: Option<int>,
    updatedAt: int)

  datatype IdempotencyError =
    | FieldRequired | FieldTooLong | BadHash | PayloadConflict | Incomplete | StillInProgress
    | NotInProgress | BadStatusCode

  const FIVE_MINUTES := 300
  const SEVEN_DAYS := 604800

  /** `_bounded_required`. */
  function Bounded(value: string): Result<string, IdempotencyError>
  {
    if Text.Strip(value) == "" then Failure(FieldRequired)
    else if |Text.Strip(value)| > 255 then Failure(FieldTooLong)
    else Success(Text.Strip(value))
  }

  function KeyFor(actor: nat, scope: string, name: string, hash: string): Result<Key, IdempotencyError>
  {
    if Bounded(scope).Failure? then Failure(Bounded(scope).error)
    else if Bounded(name).Failure? then Failure(Bounded(name).error)
    else if |hash| != 64 then Failure(BadHash)
    else Success(Key(actor, Bounded(scope).value, Bounded(name).value))
  }

  function Fresh(hash: string, now: int): Record
  {
    Record(hash, InProgress, None, Some(now + FIVE_MINUTES), now + SEVEN_DAYS, None, now)
  }

  /** `_existing`: a stored response, or the reason there is none for this request. */
  function Existing(record: Record, hash: string): Result<Response, IdempotencyError>
  {
    if record.hash != hash then Failure(PayloadConflict)
    else if record.status.Completed? then
      if record.response.None? then Failure(Incomplete) else Success(record.response.value)
    else Failure(StillInProgress)
  }

  /** What `begin` gives its caller: the new record to work under, or a decided request. */
  datatype Decision = Owned(record: Record) | Decided(answer: Result<Response, IdempotencyError>)

  /**
   The decision when the select read `seen`, the insert met `atInsert` and, should it lose there, the
   second select read `atRead`.
   */
  function Decide(seen: map<Key, Record>, atInsert: map<Key, Record>, atRead: map<Key, Record>, key: Key, hash: string,
                  now: int): Decision
  {
    if key in seen then Decided(Existing(seen[key], hash))
    else if key !in atInsert then Owned(Fresh(hash, now))
    else if key in atRead then Decided(Existing(atRead[key], hash))
    else Decided(Failure(StillInProgress))
  }

  function CompletedWith(record: Record, response: Response, now: int): Record
  {
    record.(status := Completed, response := Some(response), lockedUntil := None, completedAt := Some(now),
            updatedAt := now)
  }

  predicate StatusCode(status: int)
  {
    100 <= status <= 599
  }

  // ----- What a request gets -----

  /** A scope or key in order: not blank, and at most 255 characters once stripped. */
  predicate InBounds(value: string)
  {
    !Text.Blank(value) && |Text.Strip(value)| <= 255
  }

  lemma BoundedDecided(value: string)
    ensures Bounded(value) == if InBounds(value) then Success(Text.Strip(value))
                              else if Text.Blank(value) then Failure(FieldRequired) else Failure(FieldTooLong)
  {
    Text.BlankIsEmpty(value);
  }

  /** A request has a key exactly if scope, key and digest are in order, and the first that is not is named. */
  lemma KeyDecided(actor: nat, scope: string, name: string, hash: string)
    ensures KeyFor(actor, scope, name, hash)
         == if Text.Blank(scope) then Failure(FieldRequired)
            else if !InBounds(scope) then Failure(FieldTooLong)
            else if Text.Blank(name) then Failure(FieldRequired)
            else if !InBounds(name) then Failure(FieldTooLong)
            else if |hash| != 64 then Failure(BadHash)
            else Success(Key(actor, Text.Strip(scope), Text.Strip(name)))
  {
    hide Bounded;
    BoundedDecided(scope);
    BoundedDecided(name);
  }

  /** Two requests share a key exactly if actor, scope and key agree, outer whitespace aside. */
  lemma SharedKeyDecided(actor: nat, scope: string, name: string, hash: string,
                         actor': nat, scope': string, name': string, hash': string)
    requires KeyFor(actor, scope, name, hash).Success? && KeyFor(actor', scope', name', hash').Success?
    ensures KeyFor(actor, scope, name, hash) == KeyFor(actor', scope', name', hash') <==>
      actor == actor' && Text.Strip(scope) == Text.Strip(scope') && Text.Strip(name) == Text.Strip(name')
  {
    KeyDecided(actor, scope, name, hash);
    KeyDecided(actor', scope', name', hash');
  }

  /** The answer of a stored record to a request with this digest. */
  predicate AnswersWith(record: Record, hash: string, answer: Result<Response, IdempotencyError>)
  {
    if record.hash != hash then answer == Failure(PayloadConflict)
    else match record.status
         case Completed =>
           answer == (if record.response.Some? then Success(record.response.value) else Failure(Incomplete))
         case _ => answer == Failure(StillInProgress)
  }

  /** Locked for five minutes and kept for seven days, in progress and without a response. */
  predicate IsFresh(record: Record, hash: string, now: int)
  {
    && record.hash == hash && record.status.InProgress? && record.response.None? && record.completedAt.None?
    && record.lockedUntil == Some(now + 5 * 60) && record.expiresAt == now + 7 * 24 * 60 * 60 && record.updatedAt == now
  }

  /**
   The request owns its key exactly if neither the select nor the insert met a record; otherwise the
   record met answers, and a lost insert whose winner is gone again is told to wait.
   */
  lemma RequestDecided(seen: map<Key, Record>, atInsert: map<Key, Record>, atRead: map<Key, Record>, key: Key,
                       hash: string, now: int)
    ensures var r := Decide(seen, atInsert, atRead, key, hash, now);
      if key !in seen && key !in atInsert then r.Owned? && IsFresh(r.record, hash, now)
      else
        && r.Decided?
        && if key in seen then AnswersWith(seen[key], hash, r.answer)
           else if key in atRead then AnswersWith(atRead[key], hash, r.answer)
           else r.answer == Failure(StillInProgress)
  {
  }

  /** Completing keeps digest and expiry, stores the response, and frees the lock. */
  lemma CompletionDecided(record: Record, response: Response, now: int)
    ensures var done := CompletedWith(record, response, now);
      && done.hash == record.hash && done.expiresAt == record.expiresAt && done.lockedUntil.None?
      && done.completedAt == Some(now) && done.updatedAt == now
      && forall hash, answer :: AnswersWith(done, hash, answer) <==>
           answer == if hash == record.hash then Success(response) else Failure(PayloadConflict)
  {
  }

  class IdempotencyRepository {
    /** The table as this transaction reads it, its own writes included. */
    var rows: map<Key, Record>

    constructor (rows: map<Key, Record>)
      ensures this.rows == rows
    {
      this.rows := rows;
    }

    /**
     `begin`. Other transactions commit in between: `atInsert` is the table as the insert meets it, and
     `atRead` as the second select reads it when the insert failed on the unique key.
     */
    method Begin(actor: nat, scope: string, name: string, hash: string, now: int, atInsert: map<Key, Record>,
                 atRead: map<Key, Record>)
      returns (r: Result<Decision, IdempotencyError>)
      modifies this
      ensures KeyFor(actor, scope, name, hash).Failure? ==>
                r == Failure(KeyFor(actor, scope, name, hash).error) && rows == old(rows)
      ensures KeyFor(actor, scope, name, hash).Success? ==>
                var key := KeyFor(actor, scope, name, hash).value;
                && r == Success(Decide(old(rows), atInsert, atRead, key, hash, now))
                && rows == (if key in old(rows) then old(rows)
                            else if key in atInsert then atRead
                            else atInsert[key := Fresh(hash, now)])
    {
      var bounded := KeyFor(actor, scope, name, hash);
      if bounded.Failure? {
        return Failure(bounded.error);
      }
      var key := bounded.value;
      if key in rows {
        return Success(Decided(Existing(rows[key], hash)));
      }
      rows := atInsert;
      if key in rows {
        rows := atRead;
        if key !in rows {
          return Success(Decided(Failure(StillInProgress)));
        }
        return Success(Decided(Existing(rows[key], hash)));
      }
      rows := rows[key := Fresh(hash, now)];
      r := Success(Owned(rows[key]));
    }

    /** `complete`: only an in-progress record takes a response, and only once. */
    method Complete(key: Key, response: Response, now: int) returns (r: Result<(), IdempotencyError>)
      requires key in rows
      modifies this
      ensures r.Success? <==> old(rows[key]).status.InProgress? && 100 <= response.status <= 599
      ensures rows == if r.Success? then old(rows)[key := CompletedWith(old(rows[key]), response, now)] else old(rows)
      ensures r.Success? ==> Existing(rows[key], rows[key].hash) == Success(response)
    {
      var record := rows[key];
      if !record.status.InProgress? {
        return Failure(NotInProgress);
      }
      if !StatusCode(response.status) {
        return Failure(BadStatusCode);
      }
      rows := rows[key := CompletedWith(record, response, now)];
      r := Success(());
    }
  }
}
