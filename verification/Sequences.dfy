/** What the other modules need of sequences and finite sets. */
module Sequences {

  function Elements<T>(xs: seq<T>): set<T>
  {
    set x | x in xs
  }

  predicate NoRepeats<T(==)>(xs: seq<T>)
  {
    forall i, j :: 0 <= i < j < |xs| ==> xs[i] != xs[j]
  }

  function Take<T>(xs: seq<T>, k: nat): seq<T>
  {
    if |xs| <= k then xs else xs[..k]
  }

  lemma SliceOfSlice<T>(s: seq<T>, a: nat, b: nat, c: nat, d: nat)
    requires a <= b <= |s| && c <= d <= b - a
    ensures s[a..b][c..d] == s[a + c..a + d]
  {
    var x, y := s[a..b][c..d], s[a + c..a + d];
    assert |x| == |y|;
    assert forall i :: 0 <= i < |x| ==> x[i] == y[i];
    assert x == y;
  }

  lemma ElementsOfNothing<T>()
    ensures Elements<T>([]) == {}
  {
  }

  lemma ElementsSnoc<T>(xs: seq<T>, x: T)
    ensures Elements(xs + [x]) == Elements(xs) + {x}
  {
  }

  lemma ElementsConcat<T>(xs: seq<T>, ys: seq<T>)
    ensures Elements(xs + ys) == Elements(xs) + Elements(ys)
  {
  }

  /** A list has no repeats exactly when it has as many elements as entries. */
  lemma {:induction false} CountElements<T>(xs: seq<T>)
    ensures |Elements(xs)| <= |xs|
    ensures NoRepeats(xs) <==> |Elements(xs)| == |xs|
  {
    if xs != [] {
      var init, last := xs[..|xs| - 1], xs[|xs| - 1];
      CountElements(init);
      assert xs == init + [last];
      assert Elements(xs) == Elements(init) + {last};
      if NoRepeats(xs) {
        assert NoRepeats(init) && last !in init;
      }
      if |Elements(xs)| == |xs| {
        assert last !in Elements(init);
        assert forall i :: 0 <= i < |init| ==> init[i] in Elements(init);
      }
    }
  }

  lemma SameMembers<T>(xs: seq<T>, ys: seq<T>)
    requires multiset(xs) == multiset(ys)
    ensures |xs| == |ys| && Elements(xs) == Elements(ys)
    ensures forall x :: x in xs <==> x in ys
  {
    assert |xs| == |multiset(xs)| == |multiset(ys)| == |ys|;
    assert forall x :: x in xs <==> x in multiset(xs);
    assert forall x :: x in ys <==> x in multiset(ys);
  }

  /** A subset is no larger, and as large only if it is the whole set. */
  lemma SubsetCount<T>(a: set<T>, b: set<T>)
    requires a <= b
    ensures |a| <= |b|
    ensures |a| == |b| <==> a == b
  {
    assert |b - a| == |b| - |a|;
  }

  /** Every entry at its first place: `list(dict.fromkeys(xs))`. */
  function Firsts<T(==)>(xs: seq<T>): seq<T>
  {
    if xs == [] then []
    else
      var init, last := xs[..|xs| - 1], xs[|xs| - 1];
      if last in init then Firsts(init) else Firsts(init) + [last]
  }

  lemma {:induction false} FirstsFacts<T>(xs: seq<T>)
    ensures NoRepeats(Firsts(xs)) && Elements(Firsts(xs)) == Elements(xs)
    ensures forall x :: x in Firsts(xs) <==> x in xs
  {
    if xs != [] {
      var init, last := xs[..|xs| - 1], xs[|xs| - 1];
      assert xs == init + [last];
      FirstsFacts(init);
      ElementsSnoc(init, last);
      ElementsSnoc(Firsts(init), last);
    }
  }

  lemma {:induction false} FirstsFixed<T>(xs: seq<T>)
    requires NoRepeats(xs)
    ensures Firsts(xs) == xs
  {
    if xs != [] {
      FirstsFixed(xs[..|xs| - 1]);
    }
  }
}
