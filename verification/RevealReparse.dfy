/**
 Parsing what was parsed and printed, decided on the input lines. Cleaning a part removes its
 blank outer lines and the outer whitespace of its first and last inked line; the reveal
 survives a second parse exactly when the parts trimmed in this way are still tidy.
 */
module RevealReparse {
  import opened Wrappers
  import opened RevealParser
  import opened RevealPartition
  import opened RevealRoundTrip
  import opened Text

  // ----- Trimming text and trimming lines -----

  function LStrip(s: string): string
  {
    s[Lead(s)..]
  }

  function RStrip(s: string): string
  {
    s[..Trail(s)]
  }

  lemma LeadIs(s: string, n: nat)
    requires n <= |s| && (forall i :: 0 <= i < n ==> IsSpace(s[i])) && (n < |s| ==> !IsSpace(s[n]))
    ensures Lead(s) == n
  {
    hide Lead, IsSpace;
  }

  lemma TrailIs(s: string, n: nat)
    requires n <= |s| && (forall i :: n <= i < |s| ==> IsSpace(s[i])) && (n > 0 ==> !IsSpace(s[n - 1]))
    ensures Trail(s) == n
  {
    hide Trail, IsSpace;
  }

  lemma BlankLead(s: string)
    ensures Blank(s) ==> Lead(s) == |s| && Trail(s) == 0
    ensures !Blank(s) ==> Lead(s) < |s| && Trail(s) > 0
  {
    hide Lead, Trail, IsSpace;
    BlankIsEmpty(s);
  }

  lemma StripIsBoth(s: string)
    ensures Strip(s) == RStrip(LStrip(s))
    ensures Blank(s) <==> LStrip(s) == ""
    ensures Blank(s) <==> RStrip(s) == ""
  {
    hide IsSpace, Lead, Trail;
    StripRange(s);
    if Blank(s) {
      LeadIs(s, |s|);
      TrailIs(s, 0);
    } else {
      TrailIs(LStrip(s), Trail(s) - Lead(s));
    }
  }

  lemma LStripConcat(p: string, s: string)
    ensures LStrip(p + s) == if Blank(p) then LStrip(s) else LStrip(p) + s
  {
    hide IsSpace, Lead, Trail, Strip;
    BlankIsEmpty(p);
    BlankLead(p);
    if Blank(p) {
      LeadIs(p + s, |p| + Lead(s));
    } else {
      LeadIs(p + s, Lead(p));
    }
  }

  lemma RStripConcat(s: string, q: string)
    ensures RStrip(s + q) == if Blank(q) then RStrip(s) else s + RStrip(q)
  {
    hide IsSpace, Lead, Trail, Strip;
    BlankIsEmpty(q);
    BlankLead(q);
    if Blank(q) {
      TrailIs(s + q, Trail(s));
    } else {
      TrailIs(s + q, |s| + Trail(q));
    }
  }

  /** Blank leading lines dropped, and the first inked one stripped on the left. */
  function TrimFront(lines: seq<string>): seq<string>
    decreases |lines|
  {
    if lines == [] then []
    else if Blank(lines[0]) then TrimFront(lines[1..])
    else [LStrip(lines[0])] + lines[1..]
  }

  function TrimBack(lines: seq<string>): seq<string>
    decreases |lines|
  {
    if lines == [] then []
    else if Blank(Last(lines)) then TrimBack(lines[..|lines| - 1])
    else lines[..|lines| - 1] + [RStrip(Last(lines))]
  }

  function TrimLines(lines: seq<string>): seq<string>
  {
    TrimBack(TrimFront(lines))
  }

  lemma {:induction false} JoinSnoc(init: seq<string>, last: string)
    requires init != []
    ensures Join(init + [last]) == Join(init) + "\n" + last
    decreases |init|
  {
    hide Join;
    var first, rest := init[0], init[1..];
    assert init + [last] == [first] + (rest + [last]) && init == [first] + rest;
    JoinCons(first, rest);
    JoinCons(first, rest + [last]);
    JoinCons(last, []);
    if rest == [] {
      assert rest + [last] == [last] && init == [first];
    } else {
      JoinSnoc(rest, last);
      assert first + "\n" + (Join(rest) + "\n" + last) == (first + "\n" + Join(rest)) + "\n" + last;
    }
  }

  lemma {:induction false} FrontJoins(lines: seq<string>)
    ensures Join(TrimFront(lines)) == LStrip(Join(lines))
    decreases |lines|
  {
    hide LStrip, Blank, Join;
    JoinNothing();
    if lines == [] {
      assert LStrip("") == "" by { NothingStrips(); }
    } else {
      var first, rest := lines[0], lines[1..];
      assert lines == [first] + rest;
      JoinCons(first, rest);
      JoinCons(LStrip(first), rest);
      StripIsBoth(first);
      if rest == [] {
        assert lines == [first] && [LStrip(first)] + rest == [LStrip(first)] && TrimFront([]) == [];
      } else {
        FrontJoins(rest);
        LStripLine(first, Join(rest));
      }
    }
  }

  lemma NothingStrips()
    ensures LStrip("") == "" && RStrip("") == ""
  {
  }

  lemma LStripLine(line: string, rest: string)
    ensures LStrip(line + "\n" + rest) == if Blank(line) then LStrip(rest) else LStrip(line) + "\n" + rest
  {
    hide LStrip, Blank;
    LStripConcat(line, "\n");
    LStripConcat(line + "\n", rest);
    BlankWithBreak(line);
  }

  lemma RStripLine(front: string, line: string)
    ensures RStrip(front + "\n" + line) == if Blank(line) then RStrip(front) else front + "\n" + RStrip(line)
  {
    hide RStrip, Blank;
    RStripConcat("\n", line);
    RStripConcat(front, "\n" + line);
    BlankWithBreak(line);
    assert front + "\n" + line == front + ("\n" + line);
    assert front + "\n" + RStrip(line) == front + ("\n" + RStrip(line));
  }

  lemma BlankWithBreak(line: string)
    ensures Blank(line + "\n") == Blank(line) == Blank("\n" + line)
  {
    assert IsSpace('\n');
    hide IsSpace;
    assert forall i :: 0 <= i < |line| ==> (line + "\n")[i] == line[i] && ("\n" + line)[i + 1] == line[i];
  }

  lemma {:induction false} BackJoins(lines: seq<string>)
    ensures Join(TrimBack(lines)) == RStrip(Join(lines))
    decreases |lines|
  {
    hide RStrip, Blank, Join;
    JoinNothing();
    if lines == [] {
      assert RStrip("") == "" by { NothingStrips(); }
    } else {
      var init, last := lines[..|lines| - 1], Last(lines);
      assert lines == init + [last];
      StripIsBoth(last);
      if init == [] {
        assert lines == [last] && init + [RStrip(last)] == [RStrip(last)] && TrimBack([]) == [];
        JoinCons(last, []);
        JoinCons(RStrip(last), []);
      } else {
        BackJoins(init);
        JoinSnoc(init, last);
        JoinSnoc(init, RStrip(last));
        RStripLine(Join(init), last);
      }
    }
  }

  lemma {:induction false} TrimBackKeepsInk(lines: seq<string>)
    requires lines != [] && !Blank(lines[0])
    ensures TrimBack(lines) != [] && !Blank(TrimBack(lines)[0])
    decreases |lines|
  {
    hide IsSpace;
    StripIsBoth(Last(lines));
    if Blank(Last(lines)) {
      TrimBackKeepsInk(lines[..|lines| - 1]);
    } else if |lines| == 1 {
      RStripKeepsInk(lines[0]);
    }
  }

  lemma RStripKeepsInk(line: string)
    requires !Blank(line)
    ensures !Blank(RStrip(line)) && !Blank(LStrip(line))
  {
    BlankIsEmpty(line);
    assert RStrip(line)[Lead(line)] == line[Lead(line)];
    assert LStrip(line)[0] == line[Lead(line)];
  }

  lemma {:induction false} TrimFrontIsInked(lines: seq<string>)
    ensures TrimFront(lines) != [] ==> !Blank(TrimFront(lines)[0])
    decreases |lines|
  {
    hide IsSpace;
    if lines != [] {
      if Blank(lines[0]) {
        TrimFrontIsInked(lines[1..]);
      } else {
        RStripKeepsInk(lines[0]);
      }
    }
  }

  lemma {:induction false} TrimIsClear(lines: seq<string>, bad: set<char>)
    requires Clear(lines, bad)
    ensures Clear(TrimFront(lines), bad) && Clear(TrimBack(lines), bad)
    decreases |lines|
  {
    hide Blank;
    if lines != [] {
      TrimIsClear(lines[1..], bad);
      TrimIsClear(lines[..|lines| - 1], bad);
    }
  }

  lemma InkJoins(lines: seq<string>)
    requires lines != [] && !Blank(lines[0])
    ensures Join(lines) != ""
  {
    assert lines[0] != "";
  }

  /** What cleaning leaves, as lines. */
  lemma CleanIsTrim(lines: seq<string>)
    ensures Strip(Join(lines)) == Join(TrimLines(lines))
    ensures Clean(lines) == if TrimLines(lines) == [] then None else Some(Join(TrimLines(lines)))
    ensures NoBreaks(lines) ==> Body(Clean(lines)) == TrimLines(lines)
  {
    hide Strip, LStrip, RStrip, Clear, Blank, Split, Join;
    StripIsBoth(Join(lines));
    FrontJoins(lines);
    BackJoins(TrimFront(lines));
    TrimFrontIsInked(lines);
    if TrimFront(lines) == [] {
      assert TrimLines(lines) == [];
      JoinNothing();
    } else {
      TrimBackKeepsInk(TrimFront(lines));
      InkJoins(TrimLines(lines));
    }
    if NoBreaks(lines) && TrimLines(lines) != [] {
      TrimIsClear(lines, {'\n'});
      TrimIsClear(TrimFront(lines), {'\n'});
      SplitJoin(TrimLines(lines));
    }
  }

  // ----- The trimmed partition -----

  /** The sections that hold ink, trimmed. */
  function TrimSections(sections: seq<Section>): seq<Section>
    decreases |sections|
  {
    if sections == [] then []
    else
      var last := Last(sections);
      TrimSections(sections[..|sections| - 1])
      + if TrimLines(last.lines) == [] then [] else [Section(last.order, TrimLines(last.lines))]
  }

  function Trimmed(s: State): (t: State)
    requires s.State?
    ensures t.State?
  {
    var bare := State(TrimLines(s.lead), TrimSections(s.sections), None);
    bare.(fence := FenceAfter(ActiveLines(bare)))
  }

  /** Every section of `kept` has an order some section of `all` has. */
  predicate OrdersFrom(kept: seq<Section>, all: seq<Section>)
  {
    forall i :: 0 <= i < |kept| ==> exists j :: 0 <= j < |all| && all[j].order == kept[i].order
  }

  lemma AscendingSnoc(kept: seq<Section>, all: seq<Section>, last: Section)
    requires all != [] && Ascending(all) && Ascending(kept) && OrdersFrom(kept, all[..|all| - 1])
    requires last.order == Last(all).order
    ensures Ascending(kept + [last]) && OrdersFrom(kept + [last], all) && OrdersFrom(kept, all)
  {
    var init := all[..|all| - 1];
    forall i | 0 <= i < |kept|
      ensures kept[i].order < last.order && exists j :: 0 <= j < |all| && all[j].order == kept[i].order
    {
      var j :| 0 <= j < |init| && init[j].order == kept[i].order;
      assert all[j] == init[j];
    }
  }

  lemma {:induction false} TrimSectionsFacts(sections: seq<Section>)
    requires Ascending(sections)
    ensures Ascending(TrimSections(sections)) && OrdersFrom(TrimSections(sections), sections)
    decreases |sections|
  {
    hide TrimLines, Ascending, OrdersFrom;
    if sections == [] {
      assert Ascending([]) && OrdersFrom([], []) by { NothingAscends(); }
    } else {
      var init, last := sections[..|sections| - 1], Last(sections);
      assert Ascending(init) by { AscendingInit(sections); }
      TrimSectionsFacts(init);
      AscendingSnoc(TrimSections(init), sections, Section(last.order, TrimLines(last.lines)));
      assert TrimSections(init) + [] == TrimSections(init);
    }
  }

  lemma NothingAscends()
    ensures Ascending([]) && OrdersFrom([], [])
  {
  }

  lemma AscendingInit(sections: seq<Section>)
    requires sections != [] && Ascending(sections)
    ensures Ascending(sections[..|sections| - 1])
  {
  }

  lemma {:induction false} TrimFind(sections: seq<Section>, k: Slot)
    requires Ascending(sections)
    ensures Find(TrimSections(sections), k)
         == match Find(sections, k)
            case Some(lines) => if TrimLines(lines) == [] then None else Some(TrimLines(lines))
            case None => None
    decreases |sections|
  {
    hide TrimLines;
    if sections != [] {
      var n := |sections| - 1;
      TrimFind(sections[..n], k);
      LastIsHighest(sections, sections[n].order);
      TrimSectionsSnoc(sections);
    }
  }

  lemma TrimSectionsSnoc(sections: seq<Section>)
    requires sections != []
    ensures var rest, trimmed := TrimSections(sections[..|sections| - 1]), TrimLines(Last(sections).lines);
            && (trimmed == [] ==> TrimSections(sections) == rest)
            && (trimmed != [] ==>
                  TrimSections(sections) != [] && Last(TrimSections(sections)) == Section(Last(sections).order, trimmed)
                  && TrimSections(sections)[..|TrimSections(sections)| - 1] == rest)
  {
    hide TrimLines;
  }

  /** What is printed of a parsed reveal is its partition, trimmed. */
  lemma PrintedIsTrimmed(s: State, r: Reveal)
    requires s.State? && Extract(s) == Some(r) && Ascending(s.sections)
    requires NoBreaks(s.lead) && forall i :: 0 <= i < |s.sections| ==> NoBreaks(s.sections[i].lines)
    ensures Printed(r) == Trimmed(s)
  {
    hide Clean, Split, Part, Find, TrimLines, TrimSections, Extract, SectionsOf, WellFormed, Clear, FenceAfter;
    ExtractIsWellFormed(s);
    CleanIsTrim(s.lead);
    SectionsAscend(r);
    TrimSectionsFacts(s.sections);
    forall k: Slot ensures Find(SectionsOf(r), k) == Find(TrimSections(s.sections), k) {
      PartsAreFound(r, k);
      TrimFind(s.sections, k);
      LookupHasNoBreaks(s.sections, k);
      CleanIsTrim(Lookup(s.sections, k));
      assert TrimLines([]) == [] by { TrimNothing(); }
    }
    FindDetermines(SectionsOf(r), TrimSections(s.sections));
  }

  lemma TrimNothing()
    ensures TrimLines([]) == []
  {
  }

  /** Stripping the outer lines of every part uncovers no marker and no unclosed fence. */
  predicate SurvivesTrimming(lines: seq<string>)
    requires Feed(START, lines).State?
  {
    Tidy(Trimmed(Feed(START, lines)))
  }

  lemma PartsHaveNoBreaks(lines: seq<string>, s: State)
    requires NoBreaks(lines) && s.State? && Rebuild(s.lead, s.sections) == lines
    ensures NoBreaks(s.lead) && forall i :: 0 <= i < |s.sections| ==> NoBreaks(s.sections[i].lines)
  {
    hide Clear;
    BreaksStayApart(s.lead, s.sections, {'\n'});
  }

  /** Parse, print and parse again, decided on the partition of the input. */
  lemma ReparseDecidedByLines(lines: seq<string>)
    requires NoBreaks(lines) && Parse(lines).Some?
    ensures Feed(START, lines).State?
    ensures Parse(Print(Parse(lines).value)) == Parse(lines) <==> SurvivesTrimming(lines)
  {
    hide Clear, Extract, Feed, Rebuild, Print, Printed;
    var s := Feed(START, lines);
    RejectedYieldsNone();
    PartitionIsExact(lines, s);
    PartsHaveNoBreaks(lines, s);
    PrintedIsTrimmed(s, Parse(lines).value);
    ReparseDecided(lines);
  }

  // ----- Flush parts always survive -----

  /** The first and the last inked line carry no outer whitespace. */
  predicate Flush(lines: seq<string>)
  {
    && (forall i :: 0 <= i < |lines| && !Blank(lines[i]) && (forall j :: 0 <= j < i ==> Blank(lines[j])) ==>
          LStrip(lines[i]) == lines[i])
    && (forall i :: 0 <= i < |lines| && !Blank(lines[i]) && (forall j :: i < j < |lines| ==> Blank(lines[j])) ==>
          RStrip(lines[i]) == lines[i])
  }

  predicate AllBlank(lines: seq<string>)
  {
    forall i :: 0 <= i < |lines| ==> Blank(lines[i])
  }

  lemma {:induction false} FlushFront(lines: seq<string>) returns (a: nat)
    requires forall i :: 0 <= i < |lines| && !Blank(lines[i]) && (forall j :: 0 <= j < i ==> Blank(lines[j])) ==>
               LStrip(lines[i]) == lines[i]
    ensures a <= |lines| && AllBlank(lines[..a]) && TrimFront(lines) == lines[a..]
    ensures a < |lines| ==> !Blank(lines[a])
    decreases |lines|
  {
    hide Blank, LStrip;
    if lines == [] {
      a := 0;
    } else if Blank(lines[0]) {
      var rest := lines[1..];
      forall i | 0 <= i < |rest| && !Blank(rest[i]) && (forall j :: 0 <= j < i ==> Blank(rest[j]))
        ensures LStrip(rest[i]) == rest[i]
      {
        assert forall j :: 0 < j < i + 1 ==> lines[j] == rest[j - 1];
        assert lines[i + 1] == rest[i];
      }
      var b := FlushFront(rest);
      a := b + 1;
      assert lines[..a] == [lines[0]] + rest[..b];
    } else {
      a := 0;
      assert lines == [lines[0]] + lines[1..];
    }
  }

  lemma {:induction false} FlushBack(lines: seq<string>) returns (b: nat)
    requires forall i :: 0 <= i < |lines| && !Blank(lines[i]) && (forall j :: i < j < |lines| ==> Blank(lines[j])) ==>
               RStrip(lines[i]) == lines[i]
    ensures b <= |lines| && AllBlank(lines[b..]) && TrimBack(lines) == lines[..b]
    decreases |lines|
  {
    hide Blank, RStrip;
    if lines == [] {
      b := 0;
    } else if Blank(Last(lines)) {
      var n := |lines| - 1;
      var rest := lines[..n];
      forall i | 0 <= i < n && !Blank(rest[i]) && (forall j :: i < j < n ==> Blank(rest[j]))
        ensures RStrip(rest[i]) == rest[i]
      {
        assert forall j :: i < j < n ==> lines[j] == rest[j];
        assert lines[i] == rest[i];
      }
      b := FlushBack(rest);
      assert lines[b..] == rest[b..] + [lines[n]];
      assert rest[..b] == lines[..b];
    } else {
      b := |lines|;
      assert lines == lines[..|lines| - 1] + [Last(lines)];
    }
  }

  /** A flush part is only cut between lines, at blank ones. */
  lemma FlushTrim(lines: seq<string>) returns (a: nat, b: nat)
    requires Flush(lines)
    ensures a <= b <= |lines| && TrimLines(lines) == lines[a..b] && AllBlank(lines[..a]) && AllBlank(lines[b..])
  {
    hide Blank, LStrip, RStrip;
    a := FlushFront(lines);
    var rest := lines[a..];
    forall i | 0 <= i < |rest| && !Blank(rest[i]) && (forall j :: i < j < |rest| ==> Blank(rest[j]))
      ensures RStrip(rest[i]) == rest[i]
    {
      assert forall j :: a + i < j < |lines| ==> lines[j] == rest[j - a];
      assert lines[a + i] == rest[i];
    }
    var k := FlushBack(rest);
    b := a + k;
    assert rest[..k] == lines[a..b] && rest[k..] == lines[b..];
  }

  predicate FenceMark(fence: Option<Fence>)
  {
    fence.Some? ==> fence.value.mark == '`' || fence.value.mark == '~'
  }

  lemma {:induction false} MarksAreFences(lines: seq<string>)
    ensures FenceMark(FenceAfter(lines))
    decreases |lines|
  {
    hide IsClosing;
    if lines != [] {
      MarksAreFences(lines[..|lines| - 1]);
    }
  }

  /** A blank line neither opens nor closes a fence. */
  lemma BlankIsInert(line: string, fence: Option<Fence>)
    requires Blank(line) && FenceMark(fence)
    ensures NextFence(fence, line) == fence
  {
    var indent := RunLength(line, 0, ' ');
    if indent < |line| {
      assert IsSpace(line[indent]);
    }
  }

  lemma {:induction false} BlankTailKeepsFence(xs: seq<string>, ys: seq<string>)
    requires AllBlank(ys)
    ensures FenceAfter(xs + ys) == FenceAfter(xs)
    decreases |ys|
  {
    hide Blank, NextFence, FenceMark;
    if ys == [] {
      assert xs + ys == xs;
    } else {
      var n := |ys| - 1;
      assert (xs + ys)[..|xs + ys| - 1] == xs + ys[..n];
      BlankTailKeepsFence(xs, ys[..n]);
      MarksAreFences(xs);
      BlankIsInert(ys[n], FenceAfter(xs));
    }
  }

  lemma {:induction false} BlankHeadKeepsFence(xs: seq<string>, ys: seq<string>)
    requires AllBlank(xs)
    ensures FenceAfter(xs + ys) == FenceAfter(ys)
    decreases |ys|
  {
    hide Blank, NextFence;
    if ys == [] {
      BlankTailKeepsFence([], xs);
      assert xs + ys == xs && [] + xs == xs;
    } else {
      var n := |ys| - 1;
      assert (xs + ys)[..|xs + ys| - 1] == xs + ys[..n];
      BlankHeadKeepsFence(xs, ys[..n]);
    }
  }

  lemma FlushKeepsQuiet(lines: seq<string>)
    requires Flush(lines) && Quiet(lines)
    ensures Quiet(TrimLines(lines)) && FenceAfter(TrimLines(lines)) == FenceAfter(lines)
  {
    hide Flush, TrimLines, AllBlank, FenceAfter, OpeningFence, IsMarkerLine;
    var a, b := FlushTrim(lines);
    var trimmed := TrimLines(lines);
    forall i | 0 <= i < |trimmed| ensures PlainAt(trimmed, i) {
      BlankHeadKeepsFence(lines[..a], trimmed[..i]);
      assert lines[..a] + trimmed[..i] == lines[..a + i];
      assert PlainAt(lines, a + i);
    }
    BlankHeadKeepsFence(lines[..a], trimmed);
    BlankTailKeepsFence(lines[..a] + trimmed, lines[b..]);
    assert lines[..a] + trimmed + lines[b..] == lines;
  }

  predicate AllFlush(s: State)
    requires s.State?
  {
    Flush(s.lead) && forall i :: 0 <= i < |s.sections| ==> Flush(s.sections[i].lines)
  }

  predicate AllQuiet(sections: seq<Section>)
  {
    forall i :: 0 <= i < |sections| ==> Quiet(sections[i].lines)
  }

  predicate AllClosed(sections: seq<Section>)
  {
    forall i :: 0 <= i < |sections| ==> FenceAfter(sections[i].lines) == None
  }

  lemma {:induction false} TrimKeepsSections(sections: seq<Section>)
    requires AllQuiet(sections) && forall i :: 0 <= i < |sections| ==> Flush(sections[i].lines)
    ensures AllQuiet(TrimSections(sections))
    ensures AllClosed(sections) ==> AllClosed(TrimSections(sections))
    ensures sections != [] && AllClosed(sections[..|sections| - 1]) && TrimSections(sections) != [] ==>
              AllClosed(TrimSections(sections)[..|TrimSections(sections)| - 1])
    decreases |sections|
  {
    hide Quiet, Flush, TrimLines, FenceAfter;
    if sections != [] {
      var n := |sections| - 1;
      TrimKeepsSections(sections[..n]);
      FlushKeepsQuiet(sections[n].lines);
      TrimSectionsSnoc(sections);
    }
  }

  /** Without outer whitespace on the outer inked lines of its parts, a parsed input always survives. */
  lemma FlushReparses(lines: seq<string>)
    requires NoBreaks(lines) && Parse(lines).Some?
    ensures Feed(START, lines).State?
    ensures AllFlush(Feed(START, lines)) ==> Parse(Print(Parse(lines).value)) == Parse(lines)
  {
    hide Clear, Extract, Feed, Rebuild, Print, Tidy, AllFlush, Trimmed;
    ReparseDecidedByLines(lines);
    var s := Feed(START, lines);
    PartitionIsExact(lines, s);
    if AllFlush(s) {
      FlushIsTidy(s);
    }
  }

  lemma FlushIsTidy(s: State)
    requires s.State? && Tidy(s) && AllFlush(s)
    ensures Tidy(Trimmed(s))
  {
    hide Flush, Quiet, FenceAfter, TrimLines;
    FlushKeepsQuiet(s.lead);
    TrimKeepsSections(s.sections);
    TrimSectionsFacts(s.sections);
    if s.sections == [] {
      assert TrimSections(s.sections) == [];
    }
  }
}
