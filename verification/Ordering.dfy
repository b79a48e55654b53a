/**
 A stable sort over a total preorder, as `sorted` provides it: equal keys keep their
 input order. The lemmas are what the manifest, the merge, the fusion and the audit
 pages need from it.
 */
module Ordering {

  ghost predicate TotalPreorder<T(!new)>(le: (T, T) -> bool)
  {
    && (forall x, y :: le(x, y) || le(y, x))
    && (forall x, y, z :: le(x, y) && le(y, z) ==> le(x, z))
  }

  predicate Sorted<T>(xs: seq<T>, le: (T, T) -> bool)
  {
    forall i, j :: 0 <= i < j < |xs| ==> le(xs[i], xs[j])
  }

  /** Puts `x` behind every leading element that is not above it. */
  function Insert<T>(xs: seq<T>, x: T, le: (T, T) -> bool): (r: seq<T>)
    ensures multiset(r) == multiset(xs) + multiset{x}
  {
    if xs == [] then [x]
    else if le(xs[0], x) then
      assert xs == [xs[0]] + xs[1..];
      [xs[0]] + Insert(xs[1..], x, le)
    else [x] + xs
  }

  function StableSort<T>(xs: seq<T>, le: (T, T) -> bool): (r: seq<T>)
    ensures multiset(r) == multiset(xs)
  {
    if xs == [] then []
    else
      assert xs == xs[..|xs| - 1] + [xs[|xs| - 1]];
      Insert(StableSort(xs[..|xs| - 1], le), xs[|xs| - 1], le)
  }

  lemma {:induction false} InsertKeepsSorted<T(!new)>(xs: seq<T>, x: T, le: (T, T) -> bool)
    requires TotalPreorder(le) && Sorted(xs, le)
    ensures Sorted(Insert(xs, x, le), le)
  {
    if xs != [] && le(xs[0], x) {
      var rest := Insert(xs[1..], x, le);
      InsertKeepsSorted(xs[1..], x, le);
      forall j | 0 <= j < |rest| ensures le(xs[0], rest[j]) {
        assert rest[j] in multiset(rest);
        assert rest[j] == x || rest[j] in xs[1..];
      }
    } else if xs != [] {
      assert le(x, xs[0]);
    }
  }

  lemma {:induction false} SortSorts<T(!new)>(xs: seq<T>, le: (T, T) -> bool)
    requires TotalPreorder(le)
    ensures Sorted(StableSort(xs, le), le)
  {
    if xs != [] {
      SortSorts(xs[..|xs| - 1], le);
      InsertKeepsSorted(StableSort(xs[..|xs| - 1], le), xs[|xs| - 1], le);
    }
  }

  lemma {:induction false} InsertAtEnd<T>(xs: seq<T>, x: T, le: (T, T) -> bool)
    requires forall y :: y in xs ==> le(y, x)
    ensures Insert(xs, x, le) == xs + [x]
  {
    if xs != [] {
      assert xs == [xs[0]] + xs[1..];
      assert forall y :: y in xs[1..] ==> y in xs;
      InsertAtEnd(xs[1..], x, le);
      assert Insert(xs, x, le) == [xs[0]] + Insert(xs[1..], x, le);
      assert [xs[0]] + (xs[1..] + [x]) == xs + [x];
    }
  }

  /** A list already in order comes back unchanged, ties included: the sort is stable. */
  lemma {:induction false} SortedIsFixed<T>(xs: seq<T>, le: (T, T) -> bool)
    requires Sorted(xs, le)
    ensures StableSort(xs, le) == xs
  {
    if xs != [] {
      SortedIsFixed(xs[..|xs| - 1], le);
      InsertAtEnd(xs[..|xs| - 1], xs[|xs| - 1], le);
    }
  }

  lemma SortedHead<T>(xs: seq<T>, ys: seq<T>, le: (T, T) -> bool)
    requires Sorted(ys, le) && xs != [] && ys != [] && multiset(xs) == multiset(ys)
    ensures ys[0] in xs
    ensures xs[0] == ys[0] || le(ys[0], xs[0])
  {
    assert xs[0] in multiset(ys) && ys[0] in multiset(xs);
    var i :| 0 <= i < |ys| && ys[i] == xs[0];
  }

  /** Two sorted lists of the same elements agree when no two of them tie. */
  lemma {:induction false} SortedUnique<T>(xs: seq<T>, ys: seq<T>, le: (T, T) -> bool)
    requires Sorted(xs, le) && Sorted(ys, le) && multiset(xs) == multiset(ys)
    requires forall x, y :: x in xs && y in xs && le(x, y) && le(y, x) ==> x == y
    ensures xs == ys
  {
    if xs == [] {
      assert |multiset(ys)| == |ys|;
    } else {
      SameHead(xs, ys, le);
      SortedUnique(xs[1..], ys[1..], le);
      assert xs == [xs[0]] + xs[1..] && ys == [ys[0]] + ys[1..];
    }
  }

  lemma SameHead<T>(xs: seq<T>, ys: seq<T>, le: (T, T) -> bool)
    requires Sorted(xs, le) && Sorted(ys, le) && multiset(xs) == multiset(ys) && xs != []
    requires forall x, y :: x in xs && y in xs && le(x, y) && le(y, x) ==> x == y
    ensures ys != [] && xs[0] == ys[0] && multiset(xs[1..]) == multiset(ys[1..])
  {
    assert xs[0] in multiset(ys);
    assert ys != [];
    SortedHead(xs, ys, le);
    SortedHead(ys, xs, le);
    assert xs == [xs[0]] + xs[1..] && ys == [ys[0]] + ys[1..];
    assert multiset(xs[1..]) == multiset(xs) - multiset{xs[0]};
    assert multiset(ys[1..]) == multiset(ys) - multiset{ys[0]};
  }

  ghost predicate Asymmetric<T(!new)>(lt: (T, T) -> bool)
  {
    forall x, y :: lt(x, y) ==> !lt(y, x)
  }

  predicate StrictlySorted<T>(xs: seq<T>, lt: (T, T) -> bool)
  {
    forall i, j :: 0 <= i < j < |xs| ==> lt(xs[i], xs[j])
  }

  /** Strictly sorted lists with the same members are the same list. */
  lemma {:induction false} StrictlySortedUnique<T(!new)>(xs: seq<T>, ys: seq<T>, lt: (T, T) -> bool)
    requires Asymmetric(lt) && StrictlySorted(xs, lt) && StrictlySorted(ys, lt)
    requires forall x :: x in xs <==> x in ys
    ensures xs == ys
  {
    assert ys != [] ==> ys[0] in xs;
    if xs != [] {
      assert xs[0] in ys;
      assert xs[0] == ys[0];
      assert xs == [xs[0]] + xs[1..] && ys == [ys[0]] + ys[1..];
      forall x ensures x in xs[1..] <==> x in ys[1..] {
        if x in xs[1..] {
          assert x in xs && x != xs[0];
        }
        if x in ys[1..] {
          assert x in ys && x != ys[0];
        }
      }
      StrictlySortedUnique(xs[1..], ys[1..], lt);
    }
  }
}
