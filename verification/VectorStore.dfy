/**
 The vector collection as the adapter sees it: a map from point id to payload, filters
 matched on payloads, and the best matching points for a query.
 */
module VectorStore {
  import opened Sequences
  import opened Projections

  /** A collection, or its absence. */
  datatype Store = Store(present: bool, dimension: nat, cosine: bool, points: map<PointId, Payload>)

  // ----- Filters -----

  datatype Condition =
    | Equals(key: Key, value: Value)
    | AnyOf(key: Key, values: seq<Value>)
    | AtMost(key: Key, bound: int)

  datatype Filter = Filter(must: seq<Condition>, mustNot: seq<Condition>)

  /** A list field matches a value when one of its items does. */
  predicate ValueMatches(stored: Value, wanted: Value)
  {
    stored == wanted || (stored.Strs? && wanted.Str? && wanted.text in stored.items)
  }

  predicate Holds(c: Condition, p: Payload)
  {
    c.key in p &&
    match c
    case Equals(k, v) => ValueMatches(p[k], v)
    case AnyOf(k, vs) => exists v :: v in vs && ValueMatches(p[k], v)
    case AtMost(k, n) => p[k].Number? && p[k].number <= n
  }

  predicate AllHold(cs: seq<Condition>, p: Payload)
  {
    forall i :: 0 <= i < |cs| ==> Holds(cs[i], p)
  }

  predicate Matches(f: Filter, p: Payload)
  {
    && AllHold(f.must, p)
    && (forall i :: 0 <= i < |f.mustNot| ==> !Holds(f.mustNot[i], p))
  }

  /**
   What a query may answer: the `limit` best of the points `wanted` selects, best first.
   Ties may come in any order.
   */
  ghost predicate BestOf(wanted: set<PointId>, score: map<PointId, real>, limit: nat, answer: seq<PointId>)
    requires wanted <= score.Keys
  {
    && (forall i :: 0 <= i < |answer| ==> answer[i] in wanted)
    && NoRepeats(answer)
    && (forall i, j :: 0 <= i < j < |answer| ==> score[answer[i]] >= score[answer[j]])
    && |answer| == (if |wanted| < limit then |wanted| else limit)
    && (forall id, i :: id in wanted && id !in answer && 0 <= i < |answer| ==> score[answer[i]] >= score[id])
  }

  function Selected(points: map<PointId, Payload>, f: Filter): set<PointId>
  {
    set id | id in points && Matches(f, points[id])
  }

  // ----- Point-by-point effects of the batch calls -----

  /** The points after the first `n` entries of a batch have been written. */
  function Upserted(points: map<PointId, Payload>, batch: seq<(PointId, Payload)>, n: nat): map<PointId, Payload>
    requires n <= |batch|
  {
    if n == 0 then points else Upserted(points, batch, n - 1)[batch[n - 1].0 := batch[n - 1].1]
  }

  function WithStatus(p: Payload, status: PointStatus): Payload
  {
    p[Key.ReviewStatus := Status(status)]
  }

  /** One point of a payload patch; a missing point is skipped. */
  function Patch(points: map<PointId, Payload>, id: PointId, status: PointStatus): map<PointId, Payload>
  {
    if id in points then points[id := WithStatus(points[id], status)] else points
  }

  function Patched(points: map<PointId, Payload>, ids: seq<PointId>, status: PointStatus, n: nat): map<PointId, Payload>
    requires n <= |ids|
  {
    if n == 0 then points else Patch(Patched(points, ids, status, n - 1), ids[n - 1], status)
  }

  /** A collection client. Batch calls reach the points one at a time. */
  class Collection {
    var present: bool
    var dimension: nat
    var cosine: bool
    var points: map<PointId, Payload>

    constructor (initial: Store)
      ensures Snapshot() == initial
    {
      present, dimension, cosine, points := initial.present, initial.dimension, initial.cosine, initial.points;
    }

    function Snapshot(): Store
      reads this
    {
      Store(present, dimension, cosine, points)
    }

    method Create(size: nat)
      modifies this
      ensures Snapshot() == Store(true, size, true, map[])
    {
      present, dimension, cosine, points := true, size, true, map[];
    }

    /** `trail` lists the points after each single write. */
    method Upsert(batch: seq<(PointId, Payload)>) returns (ghost trail: seq<map<PointId, Payload>>)
      modifies this`points
      ensures points == Upserted(old(points), batch, |batch|)
      ensures |trail| == |batch|
      ensures forall i :: 0 <= i < |batch| ==> trail[i] == Upserted(old(points), batch, i + 1)
    {
      trail := [];
      for n := 0 to |batch|
        invariant points == Upserted(old(points), batch, n)
        invariant |trail| == n && forall i :: 0 <= i < n ==> trail[i] == Upserted(old(points), batch, i + 1)
      {
        points := points[batch[n].0 := batch[n].1];
        trail := trail + [points];
      }
    }

    method SetStatus(ids: seq<PointId>, status: PointStatus) returns (ghost trail: seq<map<PointId, Payload>>)
      modifies this`points
      ensures points == Patched(old(points), ids, status, |ids|)
      ensures |trail| == |ids|
      ensures forall i :: 0 <= i < |ids| ==> trail[i] == Patched(old(points), ids, status, i + 1)
    {
      trail := [];
      for n := 0 to |ids|
        invariant points == Patched(old(points), ids, status, n)
        invariant |trail| == n && forall i :: 0 <= i < n ==> trail[i] == Patched(old(points), ids, status, i + 1)
      {
        points := Patch(points, ids[n], status);
        trail := trail + [points];
      }
    }

    method Delete(ids: seq<PointId>)
      modifies this`points
      ensures points == old(points) - Elements(ids)
    {
      for n := 0 to |ids|
        invariant points == old(points) - Elements(ids[..n])
      {
        points := points - {ids[n]};
        assert ids[..n + 1] == ids[..n] + [ids[n]];
      }
      assert ids[..|ids|] == ids;
    }
  }
}
