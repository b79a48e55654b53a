/**
 Overlapping windows over a text (`text_windows` in knowledge/chunking.py): where they begin and
 end, that the loop stops, that nothing but whitespace falls between them, and what the search
 for a break does to their ends.
 */
module TextWindows {
  import opened Sequences
  import opened Text

  // ----- What the loop computes -----

  /** `text.rfind(needle, start, end)`: the last match lying wholly inside, or -1. */
  function RFind(text: string, needle: string, start: nat, end: nat): (r: int)
    requires start <= end <= |text| && needle != ""
    ensures r == -1 || (start <= r && r + |needle| <= end && OccursAt(text, needle, r))
    ensures forall i: nat :: start <= i && r < i && i + |needle| <= end ==> !OccursAt(text, needle, i)
    decreases end
  {
    if end - start < |needle| then -1
    else if OccursAt(text, needle, end - |needle|) then end - |needle|
    else RFind(text, needle, start, end - 1)
  }

  function Min(a: int, b: int): int {
    if a <= b then a else b
  }

  function Max(a: int, b: int): int {
    if a >= b then a else b
  }

  /** Where the window would end if it took every character it may. */
  function FullEnd(text: string, size: nat, start: nat): nat
  {
    Min(|text|, start + size)
  }

  /** The last paragraph break or space of the full window. */
  function LastBreak(text: string, size: nat, start: nat): int
    requires start < |text|
  {
    var end := FullEnd(text, size, start);
    Max(RFind(text, "\n\n", start, end), RFind(text, " ", start, end))
  }

  function EndOf(text: string, size: nat, start: nat): (end: nat)
    requires start < |text| && size >= 1
    ensures start < end <= FullEnd(text, size, start)
  {
    var full := FullEnd(text, size, start);
    if full < |text| && LastBreak(text, size, start) > start then LastBreak(text, size, start) else full
  }

  function SkipSpaces(text: string, i: nat, end: nat): (r: nat)
    requires i <= end <= |text|
    ensures i <= r <= end
    ensures forall j :: i <= j < r ==> IsSpace(text[j])
    ensures r < end ==> !IsSpace(text[r])
    decreases end - i
  {
    if i < end && IsSpace(text[i]) then SkipSpaces(text, i + 1, end) else i
  }

  function NextStart(text: string, overlap: nat, start: nat, end: nat): (next: nat)
    requires start < end <= |text|
    ensures start < next <= end && next >= end - overlap
  {
    SkipSpaces(text, Max(start + 1, end - overlap), end)
  }

  datatype Range = Range(start: nat, end: nat)

  /** The raw ranges from `start` on, before stripping. */
  function Ranges(text: string, size: nat, overlap: nat, start: nat): (ranges: seq<Range>)
    requires size >= 1
    ensures Within(text, ranges)
    decreases |text| - start
  {
    if start >= |text| then []
    else
      var end := EndOf(text, size, start);
      if end >= |text| then [Range(start, end)]
      else [Range(start, end)] + Ranges(text, size, overlap, NextStart(text, overlap, start, end))
  }

  predicate Within(text: string, ranges: seq<Range>)
  {
    forall k :: 0 <= k < |ranges| ==> ranges[k].start < ranges[k].end <= |text|
  }

  function Slice(text: string, range: Range): string
    requires range.start <= range.end <= |text|
  {
    text[range.start..range.end]
  }

  /** The stripped slices, empty ones dropped. */
  function WindowsOf(text: string, ranges: seq<Range>): seq<string>
    requires Within(text, ranges)
  {
    if ranges == [] then []
    else
      var window := Strip(Slice(text, ranges[0]));
      (if window == "" then [] else [window]) + WindowsOf(text, ranges[1..])
  }

  /** `text_windows`. */
  method Windows(text: string, size: nat, overlap: nat) returns (windows: seq<string>)
    requires size >= 1
    ensures windows == WindowsOf(text, Ranges(text, size, overlap, 0))
  {
    hide Strip, RFind, SkipSpaces, WindowsFrom, OccursAt;
    windows := [];
    var start: nat := 0;
    ghost var all := WindowsFrom(text, size, overlap, 0);
    WindowsFromStart(text, size, overlap);
    while start < |text|
      invariant windows + WindowsFrom(text, size, overlap, start) == all
      decreases |text| - start
    {
      WindowsStep(text, size, overlap, start);
      var end := Min(|text|, start + size);
      if end < |text| {
        var boundary := Max(RFind(text, "\n\n", start, end), RFind(text, " ", start, end));
        if boundary > start {
          end := boundary;
        }
      }
      assert end == EndOf(text, size, start);
      var window := Strip(text[start..end]);
      ghost var next := NextStart(text, overlap, start, end);
      ghost var rest := if end >= |text| then [] else WindowsFrom(text, size, overlap, next);
      Associate(windows, if window == "" then [] else [window], rest);
      if window != "" {
        windows := windows + [window];
      }
      assert windows + rest == all;
      if end >= |text| {
        break;
      }
      var nextStart: nat := Max(start + 1, end - overlap);
      ghost var from := nextStart;
      while nextStart < end && IsSpace(text[nextStart])
        invariant from <= nextStart <= end
        invariant SkipSpaces(text, nextStart, end) == SkipSpaces(text, from, end)
      {
        SkipOne(text, nextStart, end);
        nextStart := nextStart + 1;
      }
      SkipNone(text, nextStart, end);
      assert nextStart == next;
      start := nextStart;
    }
    if start >= |text| {
      WindowsEnd(text, size, overlap, start);
    }
  }

  lemma Associate<T>(xs: seq<T>, ys: seq<T>, zs: seq<T>)
    ensures xs + (ys + zs) == (xs + ys) + zs
    ensures xs + [] == xs
  {
  }

  function WindowsFrom(text: string, size: nat, overlap: nat, start: nat): seq<string>
    requires size >= 1
  {
    WindowsOf(text, Ranges(text, size, overlap, start))
  }

  lemma WindowsFromStart(text: string, size: nat, overlap: nat)
    requires size >= 1
    ensures WindowsFrom(text, size, overlap, 0) == WindowsOf(text, Ranges(text, size, overlap, 0))
  {
  }

  lemma WindowsStep(text: string, size: nat, overlap: nat, start: nat)
    requires size >= 1 && start < |text|
    ensures var end := EndOf(text, size, start);
            var window := Strip(text[start..end]);
            WindowsFrom(text, size, overlap, start) ==
              (if window == "" then [] else [window])
              + if end >= |text| then [] else WindowsFrom(text, size, overlap, NextStart(text, overlap, start, end))
  {
    hide Strip, EndOf, NextStart;
    var ranges := Ranges(text, size, overlap, start);
    assert WindowsOf(text, []) == [];
    if EndOf(text, size, start) < |text| {
      assert ranges[1..] == Ranges(text, size, overlap, NextStart(text, overlap, start, EndOf(text, size, start)));
    }
  }

  lemma WindowsEnd(text: string, size: nat, overlap: nat, start: nat)
    requires size >= 1 && start >= |text|
    ensures WindowsFrom(text, size, overlap, start) == []
  {
  }

  lemma SkipOne(text: string, i: nat, end: nat)
    requires i < end <= |text| && IsSpace(text[i])
    ensures SkipSpaces(text, i, end) == SkipSpaces(text, i + 1, end)
  {
  }

  lemma SkipNone(text: string, i: nat, end: nat)
    requires i <= end <= |text| && (i == end || !IsSpace(text[i]))
    ensures SkipSpaces(text, i, end) == i
  {
  }

  // ----- Shape and coverage of the raw ranges -----

  /** Consecutive ranges move forward, touch, and share at most `overlap` characters. */
  predicate Chained(ranges: seq<Range>, overlap: nat)
  {
    forall k :: 0 <= k < |ranges| - 1 ==>
      && ranges[k].start < ranges[k + 1].start <= ranges[k].end
      && ranges[k].end - ranges[k + 1].start <= overlap
  }

  lemma ChainCons(first: Range, rest: seq<Range>, overlap: nat)
    requires Chained(rest, overlap)
    requires rest != [] ==> first.start < rest[0].start <= first.end && first.end - rest[0].start <= overlap
    ensures Chained([first] + rest, overlap)
  {
    var ranges := [first] + rest;
    assert forall k :: 0 < k < |ranges| ==> ranges[k] == rest[k - 1];
  }

  predicate NoLongerThan(ranges: seq<Range>, size: nat)
  {
    forall k :: 0 <= k < |ranges| ==> ranges[k].end - ranges[k].start <= size
  }

  /** The ranges start at `start`, reach the end of the text, and touch all the way. */
  lemma {:induction false} RangesAreChained(text: string, size: nat, overlap: nat, start: nat)
    requires size >= 1 && start <= |text|
    ensures var ranges := Ranges(text, size, overlap, start);
            && Chained(ranges, overlap) && NoLongerThan(ranges, size)
            && (start < |text| ==> ranges != [] && ranges[0].start == start && ranges[|ranges| - 1].end == |text|)
            && |ranges| <= |text| - start
    decreases |text| - start
  {
    hide EndOf, NextStart, Chained;
    ChainedNothing(overlap);
    if start < |text| {
      var end := EndOf(text, size, start);
      ChainCons(Range(start, end), [], overlap);
      assert [Range(start, end)] + [] == [Range(start, end)];
      if end < |text| {
        var next := NextStart(text, overlap, start, end);
        var rest := Ranges(text, size, overlap, next);
        RangesAreChained(text, size, overlap, next);
        ChainCons(Range(start, end), rest, overlap);
        assert Ranges(text, size, overlap, start) == [Range(start, end)] + rest;
      }
    }
  }

  lemma ChainedNothing(overlap: nat)
    ensures Chained([], overlap)
  {
  }

  /** An inked position among the last `overlap` characters of a range, behind its first. */
  predicate InOverlap(text: string, range: Range, overlap: nat, i: nat)
    requires range.end <= |text|
  {
    range.start < i < range.end && range.end - overlap <= i && !IsSpace(text[i])
  }

  /** Of the last `overlap` characters of a range, the next one drops leading whitespace and nothing else. */
  predicate SharesOverlap(text: string, ranges: seq<Range>, overlap: nat)
    requires Within(text, ranges)
  {
    forall k, i :: 0 <= k < |ranges| - 1 && InOverlap(text, ranges[k], overlap, i) ==> ranges[k + 1].start <= i
  }

  lemma {:induction false} OverlapIsFull(text: string, size: nat, overlap: nat, start: nat)
    requires size >= 1
    ensures SharesOverlap(text, Ranges(text, size, overlap, start), overlap)
    decreases |text| - start
  {
    hide EndOf, IsSpace;
    if start < |text| {
      var end := EndOf(text, size, start);
      if end < |text| {
        var next := NextStart(text, overlap, start, end);
        var rest := Ranges(text, size, overlap, next);
        var ranges := Ranges(text, size, overlap, start);
        OverlapIsFull(text, size, overlap, next);
        assert ranges == [Range(start, end)] + rest;
        assert rest != [] ==> rest[0].start == next;
        forall k, i | 0 <= k < |ranges| - 1 && InOverlap(text, ranges[k], overlap, i)
          ensures ranges[k + 1].start <= i
        {
          if k > 0 {
            assert ranges[k] == rest[k - 1] && ranges[k + 1] == rest[k];
          }
        }
      }
    }
  }

  /** Touching ranges that run from `start` to the end of the text leave no position out. */
  lemma {:induction false} EveryPositionIsInARange(ranges: seq<Range>, overlap: nat, i: nat)
    requires Chained(ranges, overlap) && ranges != []
    requires ranges[0].start <= i < ranges[|ranges| - 1].end
    ensures exists k :: 0 <= k < |ranges| && ranges[k].start <= i < ranges[k].end
    decreases |ranges|
  {
    if i >= ranges[0].end {
      var rest := ranges[1..];
      assert forall k :: 0 <= k < |rest| ==> rest[k] == ranges[k + 1];
      assert |ranges| > 1;
      assert ranges[0 + 1].start <= ranges[0].end;
      EveryPositionIsInARange(rest, overlap, i);
      var k :| 0 <= k < |rest| && rest[k].start <= i < rest[k].end;
      assert ranges[k + 1].start <= i < ranges[k + 1].end;
    }
  }

  // ----- Windows -----

  /** `window` is the trimmed, non-empty text between `a` and `b`. */
  predicate IsWindow(text: string, window: string, a: int, b: int)
  {
    0 <= a < b <= |text| && window == text[a..b] && Trimmed(window)
  }

  ghost predicate Spans(text: string, window: string, i: nat)
  {
    exists a, b :: a <= i < b && IsWindow(text, window, a, b)
  }

  ghost predicate IsSomeWindow(text: string, window: string)
  {
    exists a, b :: IsWindow(text, window, a, b)
  }

  lemma StripIsWindow(text: string, range: Range)
    requires range.start <= range.end <= |text| && Strip(Slice(text, range)) != ""
    ensures IsSomeWindow(text, Strip(Slice(text, range)))
    ensures forall i :: range.start <= i < range.end && !IsSpace(text[i]) ==> Spans(text, Strip(Slice(text, range)), i)
  {
    hide IsSpace, Lead, Trail, Blank;
    var slice := Slice(text, range);
    StripRange(slice);
    var a, b := range.start + Lead(slice), range.start + Trail(slice);
    SliceOfSlice(text, range.start, range.end, Lead(slice), Trail(slice));
    assert IsWindow(text, Strip(slice), a, b);
    forall i | range.start <= i < range.end && !IsSpace(text[i])
      ensures Spans(text, Strip(slice), i)
    {
      assert slice[i - range.start] == text[i];
      InkIsInside(slice, i - range.start);
    }
  }

  /** Windows are exactly the non-blank stripped ranges. */
  lemma {:induction false} WindowsAreStrips(text: string, ranges: seq<Range>, window: string)
    requires Within(text, ranges)
    ensures window in WindowsOf(text, ranges) <==>
            window != "" && exists k :: 0 <= k < |ranges| && window == Strip(Slice(text, ranges[k]))
    ensures |WindowsOf(text, ranges)| <= |ranges|
    decreases |ranges|
  {
    hide Strip;
    if ranges != [] {
      var rest := ranges[1..];
      WindowsAreStrips(text, rest, window);
      if window in WindowsOf(text, ranges) && window != Strip(Slice(text, ranges[0])) {
        var k :| 0 <= k < |rest| && window == Strip(Slice(text, rest[k]));
        assert ranges[k + 1] == rest[k];
      }
      if k :| window != "" && 0 <= k < |ranges| && window == Strip(Slice(text, ranges[k])) {
        if k > 0 {
          assert rest[k - 1] == ranges[k];
        }
      }
    }
  }

  /**
   The windows of a text: at most one a character, each a trimmed non-empty slice no longer than
   `size`, and every character that is not whitespace lies in one of them.
   */
  lemma WindowsCoverTheText(text: string, size: nat, overlap: nat)
    requires size >= 1
    ensures var windows := WindowsOf(text, Ranges(text, size, overlap, 0));
            && |windows| <= |text|
            && (forall w :: w in windows ==> |w| <= size && IsSomeWindow(text, w))
            && (forall i :: 0 <= i < |text| && !IsSpace(text[i]) ==> CoveredBy(text, windows, i))
  {
    hide Ranges, Strip, WindowsOf, IsSomeWindow, CoveredBy, Chained, NoLongerThan, IsSpace, Within;
    var ranges := Ranges(text, size, overlap, 0);
    var windows := WindowsOf(text, ranges);
    RangesAreChained(text, size, overlap, 0);
    WindowsAreStrips(text, ranges, "");
    forall w | w in windows ensures |w| <= size && IsSomeWindow(text, w) {
      WindowFits(text, ranges, size, w);
    }
    forall i | 0 <= i < |text| && !IsSpace(text[i]) ensures CoveredBy(text, windows, i) {
      InkIsCovered(text, ranges, overlap, i);
    }
  }

  lemma WindowFits(text: string, ranges: seq<Range>, size: nat, w: string)
    requires Within(text, ranges) && w in WindowsOf(text, ranges)
    requires NoLongerThan(ranges, size)
    ensures |w| <= size && IsSomeWindow(text, w)
  {
    hide Strip, WindowsOf, IsSomeWindow;
    WindowsAreStrips(text, ranges, w);
    var k :| 0 <= k < |ranges| && w == Strip(Slice(text, ranges[k]));
    StripIsWindow(text, ranges[k]);
    StripRange(Slice(text, ranges[k]));
  }

  ghost predicate CoveredBy(text: string, windows: seq<string>, i: nat)
  {
    exists w :: w in windows && Spans(text, w, i)
  }

  lemma InkIsCovered(text: string, ranges: seq<Range>, overlap: nat, i: nat)
    requires Within(text, ranges) && Chained(ranges, overlap) && ranges != []
    requires ranges[0].start == 0 && ranges[|ranges| - 1].end == |text|
    requires i < |text| && !IsSpace(text[i])
    ensures CoveredBy(text, WindowsOf(text, ranges), i)
  {
    hide Strip, WindowsOf, Spans;
    EveryPositionIsInARange(ranges, overlap, i);
    var k :| 0 <= k < |ranges| && ranges[k].start <= i < ranges[k].end;
    var slice := Slice(text, ranges[k]);
    assert slice[i - ranges[k].start] == text[i];
    BlankIsEmpty(slice);
    assert Strip(slice) != "";
    StripIsWindow(text, ranges[k]);
    WindowsAreStrips(text, ranges, Strip(slice));
  }

  // ----- Breaks -----

  /** A paragraph break or a space that ends by `limit`. */
  predicate BreakAt(text: string, i: nat, limit: nat)
    requires limit <= |text|
  {
    || (i + 2 <= limit && OccursAt(text, "\n\n", i))
    || (i + 1 <= limit && OccursAt(text, " ", i))
  }

  lemma LastBreakIsLast(text: string, size: nat, start: nat)
    requires start < |text|
    ensures var limit, last := FullEnd(text, size, start), LastBreak(text, size, start);
            && (last >= 0 ==> start <= last && BreakAt(text, last, limit))
            && (forall i :: start <= i <= limit && last < i ==> !BreakAt(text, i, limit))
  {
  }

  /** A window is cut inside a word only if it holds no break behind its first character. */
  lemma CutsFollowBreaks(text: string, size: nat, start: nat)
    requires start < |text| && size >= 1
    ensures var end, limit := EndOf(text, size, start), FullEnd(text, size, start);
            && (forall i :: end < i <= limit && limit < |text| ==> !BreakAt(text, i, limit))
            && (end < limit ==> BreakAt(text, end, limit))
            && (end == limit < |text| ==> forall i :: start < i < limit ==> !BreakAt(text, i, limit))
  {
    LastBreakIsLast(text, size, start);
  }

  /** Window `next` follows window `start`, and the two ends compared. */
  predicate Follows(text: string, size: nat, overlap: nat, start: nat, next: nat)
    requires size >= 1
  {
    && start < |text| && EndOf(text, size, start) < |text|
    && next == NextStart(text, overlap, start, EndOf(text, size, start))
  }

  /**
   Ends need not move forward: one steps back, by exactly one character, precisely when a paragraph
   break straddles the earlier end and the later window holds no later break and stops short of
   the text's end.
   */
  lemma EndsStepBackDecided(text: string, size: nat, overlap: nat, start: nat, next: nat)
    requires size >= 1 && Follows(text, size, overlap, start, next)
    ensures var end, limit := EndOf(text, size, start), FullEnd(text, size, next);
            && EndOf(text, size, next) >= end - 1
            && (EndOf(text, size, next) < end <==>
                  && next < end - 1
                  && OccursAt(text, "\n\n", end - 1)
                  && end < limit < |text|
                  && forall i :: end <= i <= limit ==> !BreakAt(text, i, limit))
  {
    hide LastBreak, NextStart, OccursAt;
    var end, limit, end' := EndOf(text, size, start), FullEnd(text, size, next), EndOf(text, size, next);
    LastBreakIsLast(text, size, next);
    CutsFollowBreaks(text, size, start);
    CutsFollowBreaks(text, size, next);
    NextIsSpaceless(text, size, overlap, start, next);
    var full := FullEnd(text, size, start);
    if end < full {
      assert BreakAt(text, end, limit);
    } else if end' < end {
      assert BreakAt(text, end', limit) && !BreakAt(text, end', full);
    } else if next < end - 1 && OccursAt(text, "\n\n", end - 1) && end < limit < |text| {
      assert BreakAt(text, end - 1, limit);
      assert end <= end' <= limit && (end' < limit ==> BreakAt(text, end', limit));
    }
  }

  lemma NextIsSpaceless(text: string, size: nat, overlap: nat, start: nat, next: nat)
    requires size >= 1 && Follows(text, size, overlap, start, next)
    ensures start < next <= EndOf(text, size, start)
    ensures FullEnd(text, size, next) > FullEnd(text, size, start) || FullEnd(text, size, next) == |text|
  {
  }

  /** Such a step does happen: "ab", a paragraph break and "cd", in threes with an overlap of two. */
  lemma EndsCanStepBack(text: string)
    requires |text| == 6 && text == "ab\n\ncd"
    ensures EndOf(text, 3, 0) == 3
    ensures NextStart(text, 2, 0, 3) == 1
    ensures EndOf(text, 3, 1) == 2
  {
    assert text[0] == 'a' && text[1] == 'b' && text[2] == '\n' && text[3] == '\n' && text[4] == 'c';
    hide SkipSpaces, RFind;
    assert !OccursAt(text, "\n\n", 0) by { assert text[0..2][0] == 'a'; }
    assert !OccursAt(text, "\n\n", 1) by { assert text[1..3][0] == 'b'; }
    assert forall i: nat :: i < 4 ==> !OccursAt(text, " ", i) by {
      forall i: nat | i < 4 ensures !OccursAt(text, " ", i) {
        assert text[i..i + 1][0] == text[i];
      }
    }
    SkipNone(text, 1, 3);
    CutsFollowBreaks(text, 3, 0);
    CutsFollowBreaks(text, 3, 1);
    assert OccursAt(text, "\n\n", 2) by { assert text[2..4] == "\n\n"; }
    assert BreakAt(text, 2, 4);
  }
}
