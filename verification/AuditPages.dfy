/**
 Newest-first pages over the append-only audit log (persistence/audit.py). A cursor is the key
 of the last row seen. Following cursors while events are appended in between repeats nothing,
 keeps the order, and loses no event that was there at the start.
 */
module AuditPages {
  import opened Wrappers
  import opened Sequences
  import opened Ordering

  type EventId = nat

  datatype Event = Event(
    id: EventId,
    createdAt: int,
    actor: nat,
    eventType: string,
    objectType: string,
    objectId: string,
    requestId: Option<string>,
    correlationId: string)

  datatype Query = Query(
    actor: Option<nat>,
    eventType: Option<string>,
    objectType: Option<string>,
    objectId: Option<string>,
    requestId: Option<string>,
    correlationId: Option<string>,
    createdFrom: Option<int>,
    createdTo: Option<int>)

  datatype Cursor = Cursor(createdAt: int, id: EventId)

  datatype AuditError = LimitOutOfRange | HalfCursor | DuplicateEvent

  // ----- One page -----

  predicate Selects(q: Query, e: Event)
  {
    && (q.actor.Some? ==> e.actor == q.actor.value)
    && (q.eventType.Some? ==> e.eventType == q.eventType.value)
    && (q.objectType.Some? ==> e.objectType == q.objectType.value)
    && (q.objectId.Some? ==> e.objectId == q.objectId.value)
    && (q.requestId.Some? ==> e.requestId == q.requestId)
    && (q.correlationId.Some? ==> e.correlationId == q.correlationId.value)
    && (q.createdFrom.Some? ==> e.createdAt >= q.createdFrom.value)
    && (q.createdTo.Some? ==> e.createdAt <= q.createdTo.value)
  }

  /** Strictly older than the cursor, ties on the timestamp broken by id. */
  predicate Beyond(cursor: Option<Cursor>, e: Event)
  {
    cursor.Some? ==>
      || e.createdAt < cursor.value.createdAt
      || (e.createdAt == cursor.value.createdAt && e.id < cursor.value.id)
  }

  function KeyOf(e: Event): Cursor
  {
    Cursor(e.createdAt, e.id)
  }

  /** `a` is listed before `b`. */
  function Newer(): (Event, Event) -> bool
  {
    (a: Event, b: Event) => Beyond(Some(KeyOf(a)), b)
  }

  function NotOlder(): (Event, Event) -> bool
  {
    (a: Event, b: Event) => a.createdAt > b.createdAt || (a.createdAt == b.createdAt && a.id >= b.id)
  }

  function Matching(log: seq<Event>, q: Query, cursor: Option<Cursor>): (rows: seq<Event>)
    ensures forall e :: e in rows <==> e in log && Selects(q, e) && Beyond(cursor, e)
  {
    if log == [] then []
    else
      var last := log[|log| - 1];
      assert log == log[..|log| - 1] + [last];
      Matching(log[..|log| - 1], q, cursor) + if Selects(q, last) && Beyond(cursor, last) then [last] else []
  }

  /** Every row the statement selects, in its order and without its limit. */
  function Rows(log: seq<Event>, q: Query, cursor: Option<Cursor>): seq<Event>
  {
    StableSort(Matching(log, q, cursor), NotOlder())
  }

  datatype Page = Page(rows: seq<Event>, hasMore: bool)

  function ReadPage(log: seq<Event>, q: Query, cursor: Option<Cursor>, limit: nat): Page
  {
    Page(Take(Rows(log, q, cursor), limit), |Rows(log, q, cursor)| > limit)
  }

  /** The primary key: no two events share an id. */
  predicate ValidLog(log: seq<Event>)
  {
    forall i, j :: 0 <= i < j < |log| ==> log[i].id != log[j].id
  }

  class AuditEventRepository {
    var log: seq<Event>

    ghost predicate Valid()
      reads this
    {
      ValidLog(log)
    }

    constructor ()
      ensures Valid() && log == []
    {
      log := [];
    }

    /** Insert one event; nothing here updates or removes one. */
    method Append(e: Event) returns (r: Result<Event, AuditError>)
      requires Valid()
      modifies this
      ensures Valid()
      ensures r.Success? <==> forall x :: x in old(log) ==> x.id != e.id
      ensures log == if r.Success? then old(log) + [e] else old(log)
      ensures r.Success? ==> r.value == e
    {
      if exists x :: x in log && x.id == e.id {
        return Failure(DuplicateEvent);
      }
      log := log + [e];
      r := Success(e);
    }

    /** `list_page`. */
    method ListPage(q: Query, beforeCreatedAt: Option<int>, beforeEventId: Option<EventId>, limit: int)
      returns (r: Result<Page, AuditError>)
      requires Valid()
      ensures !(1 <= limit <= 100) ==> r == Failure(LimitOutOfRange)
      ensures 1 <= limit <= 100 && beforeCreatedAt.Some? != beforeEventId.Some? ==> r == Failure(HalfCursor)
      ensures 1 <= limit <= 100 && beforeCreatedAt.None? && beforeEventId.None? ==>
                r == Success(ReadPage(log, q, None, limit))
      ensures 1 <= limit <= 100 && beforeCreatedAt.Some? && beforeEventId.Some? ==>
                r == Success(ReadPage(log, q, Some(Cursor(beforeCreatedAt.value, beforeEventId.value)), limit))
    {
      if !(1 <= limit <= 100) {
        return Failure(LimitOutOfRange);
      }
      if beforeCreatedAt.None? != beforeEventId.None? {
        return Failure(HalfCursor);
      }
      var cursor := if beforeCreatedAt.Some? then Some(Cursor(beforeCreatedAt.value, beforeEventId.value)) else None;
      TakeTwice(Rows(log, q, cursor), limit);
      var fetched := Take(Rows(log, q, cursor), limit + 1);
      r := Success(Page(Take(fetched, limit), |fetched| > limit));
    }
  }

  /** One row more than asked for tells whether there are more, and is not shown. */
  lemma TakeTwice<T>(xs: seq<T>, k: nat)
    ensures Take(Take(xs, k + 1), k) == Take(xs, k)
    ensures |Take(xs, k + 1)| > k <==> |xs| > k
  {
  }

  // ----- What a page is -----

  lemma IdsDecide(log: seq<Event>, a: Event, b: Event)
    requires ValidLog(log) && a in log && b in log && a.id == b.id
    ensures a == b
  {
  }

  lemma {:induction false} MatchingHasNoRepeats(log: seq<Event>, q: Query, cursor: Option<Cursor>)
    requires ValidLog(log)
    ensures NoRepeats(Matching(log, q, cursor))
    decreases |log|
  {
    hide Selects, Beyond;
    if log != [] {
      assert ValidLog(log[..|log| - 1]);
      MatchingHasNoRepeats(log[..|log| - 1], q, cursor);
    }
  }

  /** The rows: exactly the selected events, each once, newest first. */
  lemma RowsFacts(log: seq<Event>, q: Query, cursor: Option<Cursor>)
    requires ValidLog(log)
    ensures StrictlySorted(Rows(log, q, cursor), Newer())
    ensures forall e :: e in Rows(log, q, cursor) <==> e in log && Selects(q, e) && Beyond(cursor, e)
  {
    hide Matching, Selects;
    var found, rows := Matching(log, q, cursor), Rows(log, q, cursor);
    MatchingHasNoRepeats(log, q, cursor);
    assert TotalPreorder(NotOlder());
    SortSorts(found, NotOlder());
    SameMembers(found, rows);
    CountElements(found);
    CountElements(rows);
    forall i, j | 0 <= i < j < |rows| ensures Newer()(rows[i], rows[j]) {
      assert rows[i] in log && rows[j] in log && rows[i] != rows[j];
      assert NotOlder()(rows[i], rows[j]);
      if rows[i].id == rows[j].id {
        IdsDecide(log, rows[i], rows[j]);
      }
    }
  }

  lemma NewerIsAnOrder()
    ensures Asymmetric(Newer())
    ensures forall a, b, c :: Newer()(a, b) && Newer()(b, c) ==> Newer()(a, c)
  {
    forall a, b | Newer()(a, b) ensures !Newer()(b, a) {
      assert Beyond(Some(KeyOf(a)), b);
    }
    forall a, b, c | Newer()(a, b) && Newer()(b, c) ensures Newer()(a, c) {
      assert Beyond(Some(KeyOf(a)), b) && Beyond(Some(KeyOf(b)), c);
    }
  }

  /** With the last row of a page as cursor, the next rows are the ones behind it. */
  lemma RowsBehind(log: seq<Event>, q: Query, cursor: Option<Cursor>, k: nat)
    requires ValidLog(log) && 0 < k <= |Rows(log, q, cursor)|
    ensures Rows(log, q, Some(KeyOf(Rows(log, q, cursor)[k - 1]))) == Rows(log, q, cursor)[k..]
  {
    hide Rows, Selects;
    var rows := Rows(log, q, cursor);
    var next := Some(KeyOf(rows[k - 1]));
    RowsFacts(log, q, cursor);
    RowsFacts(log, q, next);
    NewerIsAnOrder();
    assert forall j :: 0 <= j < k - 1 ==> Newer()(rows[j], rows[k - 1]);
    forall e ensures e in Rows(log, q, next) <==> e in rows[k..] {
      if e in Rows(log, q, next) {
        assert Newer()(rows[k - 1], e);
        assert e in rows by { BeyondIsTransitive(cursor, rows[k - 1], e); }
        var i :| 0 <= i < |rows| && rows[i] == e;
        assert i >= k;
        assert rows[k..][i - k] == e;
      }
      if e in rows[k..] {
        var i :| 0 <= i < |rows| - k && rows[k..][i] == e;
        assert Newer()(rows[k - 1], rows[k + i]);
      }
    }
    StrictlySortedUnique(Rows(log, q, next), rows[k..], Newer());
  }

  lemma BeyondIsTransitive(cursor: Option<Cursor>, a: Event, b: Event)
    requires Beyond(cursor, a) && Newer()(a, b)
    ensures Beyond(cursor, b)
  {
  }

  // ----- A page, field by field -----

  /** Each field asked about has the value asked for, and the time lies in the span. */
  predicate Meets(q: Query, e: Event)
  {
    && (q.actor.None? || q.actor == Some(e.actor)) && (q.eventType.None? || q.eventType == Some(e.eventType))
    && (q.objectType.None? || q.objectType == Some(e.objectType))
    && (q.objectId.None? || q.objectId == Some(e.objectId))
    && (q.requestId.None? || q.requestId == e.requestId)
    && (q.correlationId.None? || q.correlationId == Some(e.correlationId))
    && (q.createdFrom.None? || q.createdFrom.value <= e.createdAt)
    && (q.createdTo.None? || e.createdAt <= q.createdTo.value)
  }

  /** `e` comes behind an event of that time and id. */
  predicate IsBehind(e: Event, createdAt: int, id: EventId)
  {
    e.createdAt < createdAt || (e.createdAt == createdAt && e.id < id)
  }

  /** An event the call asks for. */
  predicate IsAskedFor(log: seq<Event>, q: Query, cursor: Option<Cursor>, e: Event)
  {
    e in log && Meets(q, e) && (cursor.None? || IsBehind(e, cursor.value.createdAt, cursor.value.id))
  }

  /**
   A page: events asked for, newest first, at most `limit` of them; one that is left out comes behind a
   full page, and there are more exactly if one is.
   */
  lemma PageDecided(log: seq<Event>, q: Query, cursor: Option<Cursor>, limit: nat)
    requires ValidLog(log)
    ensures var page := ReadPage(log, q, cursor, limit);
      && |page.rows| <= limit && (forall e :: e in page.rows ==> IsAskedFor(log, q, cursor, e))
      && (forall i, j :: 0 <= i < j < |page.rows| ==>
            IsBehind(page.rows[j], page.rows[i].createdAt, page.rows[i].id))
      && (forall e :: IsAskedFor(log, q, cursor, e) && e !in page.rows ==>
            |page.rows| == limit && forall x :: x in page.rows ==> IsBehind(e, x.createdAt, x.id))
      && (page.hasMore <==> exists e :: IsAskedFor(log, q, cursor, e) && e !in page.rows)
  {
    hide Rows, Selects, Meets, Beyond, IsBehind, Newer;
    var rows, page := Rows(log, q, cursor), ReadPage(log, q, cursor, limit);
    RowsFacts(log, q, cursor);
    forall e ensures e in rows <==> IsAskedFor(log, q, cursor, e) {
      AskingDecided(q, cursor, e);
    }
    forall i, j | 0 <= i < j < |rows| ensures IsBehind(rows[j], rows[i].createdAt, rows[i].id) {
      BehindDecided(rows[i], rows[j]);
    }
    forall e | e in rows && e !in page.rows
      ensures |page.rows| == limit && forall x :: x in page.rows ==> IsBehind(e, x.createdAt, x.id)
    {
      var j :| 0 <= j < |rows| && rows[j] == e;
      assert forall i :: 0 <= i < |page.rows| ==> page.rows[i] == rows[i];
      assert j >= |page.rows|;
    }
    if |rows| > limit {
      LeftOut(log, q, cursor, limit);
    }
  }

  lemma AskingDecided(q: Query, cursor: Option<Cursor>, e: Event)
    ensures Selects(q, e) <==> Meets(q, e)
    ensures Beyond(cursor, e) <==> cursor.None? || IsBehind(e, cursor.value.createdAt, cursor.value.id)
  {
  }

  lemma BehindDecided(a: Event, b: Event)
    ensures Newer()(a, b) <==> IsBehind(b, a.createdAt, a.id)
  {
  }

  lemma LeftOut(log: seq<Event>, q: Query, cursor: Option<Cursor>, limit: nat)
    requires ValidLog(log) && |Rows(log, q, cursor)| > limit
    ensures Rows(log, q, cursor)[limit] !in ReadPage(log, q, cursor, limit).rows
  {
    hide Rows, Selects;
    var rows := Rows(log, q, cursor);
    RowsFacts(log, q, cursor);
    NewerIsAnOrder();
    forall i | 0 <= i < limit ensures rows[i] != rows[limit] {
      assert Newer()(rows[i], rows[limit]);
    }
  }

  // ----- Following cursors -----

  /** One call of a client: what the log holds at that moment, and the limit it asks for. */
  datatype Call = Call(log: seq<Event>, limit: nat)

  /** Events are only ever added. */
  predicate Grows(calls: seq<Call>)
  {
    && (forall i :: 0 <= i < |calls| ==> ValidLog(calls[i].log) && calls[i].limit >= 1)
    && (forall i, j, e :: 0 <= i < j < |calls| && e in calls[i].log ==> e in calls[j].log)
  }

  /** The last row of the page, or the old cursor when the page is empty. */
  function NextCursor(page: Page, cursor: Option<Cursor>): Option<Cursor>
  {
    if page.rows == [] then cursor else Some(KeyOf(page.rows[|page.rows| - 1]))
  }

  function FirstPage(calls: seq<Call>, q: Query, cursor: Option<Cursor>): Page
    requires calls != []
  {
    ReadPage(calls[0].log, q, cursor, calls[0].limit)
  }

  /** All pages in order. */
  function Collected(calls: seq<Call>, q: Query, cursor: Option<Cursor>): seq<Event>
    decreases |calls|
  {
    if calls == [] then []
    else
      var page := FirstPage(calls, q, cursor);
      page.rows + Collected(calls[1..], q, NextCursor(page, cursor))
  }

  function FinalCursor(calls: seq<Call>, q: Query, cursor: Option<Cursor>): Option<Cursor>
    decreases |calls|
  {
    if calls == [] then cursor
    else FinalCursor(calls[1..], q, NextCursor(FirstPage(calls, q, cursor), cursor))
  }

  /** What the last call answers to `has_more`. */
  function LastHasMore(calls: seq<Call>, q: Query, cursor: Option<Cursor>): bool
    requires calls != []
    decreases |calls|
  {
    var page := FirstPage(calls, q, cursor);
    if |calls| == 1 then page.hasMore else LastHasMore(calls[1..], q, NextCursor(page, cursor))
  }

  lemma PageFacts(log: seq<Event>, q: Query, cursor: Option<Cursor>, limit: nat)
    requires ValidLog(log) && limit >= 1
    ensures var page := ReadPage(log, q, cursor, limit);
            var next := NextCursor(page, cursor);
            && StrictlySorted(page.rows, Newer())
            && (forall e :: e in page.rows ==> e in log && Selects(q, e) && Beyond(cursor, e) && !Beyond(next, e))
            && (forall e :: e in log && Selects(q, e) && Beyond(cursor, e) && !Beyond(next, e) ==> e in page.rows)
            && (!page.hasMore ==> forall e :: e in log && Selects(q, e) ==> !Beyond(next, e) || page.rows == [])
            && (!page.hasMore && page.rows == [] ==> forall e :: e in log && Selects(q, e) ==> !Beyond(cursor, e))
    ensures forall e :: Beyond(NextCursor(ReadPage(log, q, cursor, limit), cursor), e) ==> Beyond(cursor, e)
  {
    hide Rows, Selects, ValidLog, Asymmetric;
    var rows := Rows(log, q, cursor);
    var page := ReadPage(log, q, cursor, limit);
    RowsFacts(log, q, cursor);
    NewerIsAnOrder();
    assert page.rows == rows[..|page.rows|];
    if page.rows != [] {
      var k := |page.rows|;
      var last := rows[k - 1];
      assert forall i :: 0 <= i < k - 1 ==> Newer()(rows[i], last);
      assert forall i :: k <= i < |rows| ==> Newer()(last, rows[i]);
      forall e | e in page.rows ensures !Beyond(Some(KeyOf(last)), e) {
        var i :| 0 <= i < k && rows[i] == e;
      }
      forall e | e in rows && !Beyond(Some(KeyOf(last)), e) ensures e in page.rows {
        var i :| 0 <= i < |rows| && rows[i] == e;
        assert page.rows[i] == e;
      }
      forall e | Beyond(Some(KeyOf(last)), e) ensures Beyond(cursor, e) {
        assert last in rows;
        BeyondIsTransitive(cursor, last, e);
      }
      if !page.hasMore {
        assert page.rows == rows;
        assert forall e :: e in log && Selects(q, e) && Beyond(cursor, e) ==> e in rows;
      }
    }
  }

  /**
   Pages read while the log grows: newest first throughout, so nothing comes twice; only matching
   events; and every matching event of the first log that does not lie behind the final cursor.
   */
  lemma {:induction false} WalkFacts(calls: seq<Call>, q: Query, cursor: Option<Cursor>)
    requires Grows(calls)
    ensures StrictlySorted(Collected(calls, q, cursor), Newer())
    ensures forall e :: e in Collected(calls, q, cursor) ==>
              Beyond(cursor, e) && Selects(q, e) && e in calls[|calls| - 1].log
    ensures forall e :: Beyond(FinalCursor(calls, q, cursor), e) ==> Beyond(cursor, e)
    ensures calls != [] ==>
              forall e :: e in calls[0].log && Selects(q, e) && Beyond(cursor, e) ==>
                e in Collected(calls, q, cursor) || Beyond(FinalCursor(calls, q, cursor), e)
    decreases |calls|
  {
    hide Selects, ReadPage;
    if calls != [] {
      var page := FirstPage(calls, q, cursor);
      var next := NextCursor(page, cursor);
      var rest := calls[1..];
      PageFacts(calls[0].log, q, cursor, calls[0].limit);
      assert Grows(rest) by { RestGrows(calls); }
      WalkFacts(rest, q, next);
      hide Collected;
      var later := Collected(rest, q, next);
      assert Collected(calls, q, cursor) == page.rows + later by { CollectedUnfolds(calls, q, cursor); }
      PagesConnect(page, cursor, later);
      forall e | e in page.rows + later
        ensures Beyond(cursor, e) && Selects(q, e) && e in calls[|calls| - 1].log
      {
        if |calls| > 1 && e in later {
          assert rest[|rest| - 1] == calls[|calls| - 1];
        }
      }
    }
  }

  lemma CollectedUnfolds(calls: seq<Call>, q: Query, cursor: Option<Cursor>)
    requires calls != []
    ensures var page := FirstPage(calls, q, cursor);
            Collected(calls, q, cursor) == page.rows + Collected(calls[1..], q, NextCursor(page, cursor))
  {
  }

  lemma RestGrows(calls: seq<Call>)
    requires Grows(calls) && calls != []
    ensures Grows(calls[1..])
    ensures forall e :: e in calls[0].log && |calls| > 1 ==> e in calls[1].log
  {
  }

  lemma PagesConnect(page: Page, cursor: Option<Cursor>, later: seq<Event>)
    requires StrictlySorted(page.rows, Newer()) && StrictlySorted(later, Newer())
    requires forall e :: e in later ==> Beyond(NextCursor(page, cursor), e)
    ensures StrictlySorted(page.rows + later, Newer())
  {
    NewerIsAnOrder();
    var all := page.rows + later;
    var k := |page.rows|;
    forall i, j | 0 <= i < j < |all| ensures Newer()(all[i], all[j]) {
      if i < k <= j {
        assert later[j - k] in later;
        assert Newer()(page.rows[k - 1], all[j]);
      }
    }
  }

  lemma {:induction false} LastPageEnds(calls: seq<Call>, q: Query, cursor: Option<Cursor>)
    requires Grows(calls) && calls != [] && !LastHasMore(calls, q, cursor)
    ensures forall e :: e in calls[|calls| - 1].log && Selects(q, e) ==> !Beyond(FinalCursor(calls, q, cursor), e)
    decreases |calls|
  {
    hide Selects, ReadPage;
    var page := FirstPage(calls, q, cursor);
    PageFacts(calls[0].log, q, cursor, calls[0].limit);
    if |calls| > 1 {
      RestGrows(calls);
      LastPageEnds(calls[1..], q, NextCursor(page, cursor));
    }
  }

  /** A walk that has been told there is no more has every matching event of the first call, once. */
  lemma FinishedWalkIsComplete(calls: seq<Call>, q: Query, cursor: Option<Cursor>)
    requires Grows(calls) && calls != [] && !LastHasMore(calls, q, cursor)
    ensures var all := Collected(calls, q, cursor);
            && StrictlySorted(all, Newer()) && NoRepeats(all)
            && (forall e :: e in calls[0].log && Selects(q, e) && Beyond(cursor, e) ==> e in all)
            && (forall e :: e in all ==> e in calls[|calls| - 1].log && Selects(q, e) && Beyond(cursor, e))
  {
    hide Selects, ReadPage, Collected, LastHasMore, FinalCursor;
    WalkFacts(calls, q, cursor);
    LastPageEnds(calls, q, cursor);
    NewerIsAnOrder();
    assert forall e :: e in calls[0].log ==> e in calls[|calls| - 1].log;
  }

  function TotalLimit(calls: seq<Call>): nat
  {
    if calls == [] then 0 else calls[0].limit + TotalLimit(calls[1..])
  }

  /** While nothing is appended the pages are one list cut up, and `has_more` is exact. */
  lemma {:induction false} QuietWalkIsTheList(calls: seq<Call>, log: seq<Event>, q: Query, cursor: Option<Cursor>)
    requires ValidLog(log)
    requires forall i :: 0 <= i < |calls| ==> calls[i].log == log && calls[i].limit >= 1
    ensures Collected(calls, q, cursor) == Take(Rows(log, q, cursor), TotalLimit(calls))
    ensures calls != [] ==> (LastHasMore(calls, q, cursor) <==> |Rows(log, q, cursor)| > TotalLimit(calls))
    decreases |calls|
  {
    hide Rows;
    if calls != [] {
      var rows := Rows(log, q, cursor);
      var page := FirstPage(calls, q, cursor);
      var next := NextCursor(page, cursor);
      QuietWalkIsTheList(calls[1..], log, q, next);
      if page.rows == [] {
        assert rows == [];
      } else {
        RowsBehind(log, q, cursor, |page.rows|);
        assert page.rows == rows[..|page.rows|];
        assert rows == page.rows + rows[|page.rows|..];
      }
    }
  }
}
