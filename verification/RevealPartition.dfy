/**
 What the reveal parser does to its input, without its loop: a non-rejected run is exactly a
 tidy partition of the lines into a lead and ascending sections, and a run is rejected exactly
 when some line outside every fence is an unknown, repeated or misplaced marker.
 */
module RevealPartition {
  import opened Wrappers
  import opened RevealParser

  predicate IsMarkerLine(line: string)
  {
    OrderOf(line).Some? || LooksLikeMarker(line)
  }

  /** The fence open behind `lines`, markers or not. */
  function FenceAfter(lines: seq<string>): Option<Fence>
    decreases |lines|
  {
    if lines == [] then None
    else NextFence(FenceAfter(lines[..|lines| - 1]), Last(lines))
  }

  /** Line `i` is ordinary text: inside a fence, opening one, or no marker at all. */
  predicate PlainAt(lines: seq<string>, i: nat)
    requires i < |lines|
  {
    FenceAfter(lines[..i]).Some? || OpeningFence(lines[i]).Some? || !IsMarkerLine(lines[i])
  }

  predicate Quiet(lines: seq<string>)
  {
    forall i :: 0 <= i < |lines| ==> PlainAt(lines, i)
  }

  predicate Ascending(sections: seq<Section>)
  {
    forall i, j :: 0 <= i < j < |sections| ==> sections[i].order < sections[j].order
  }

  function ActiveLines(s: State): seq<string>
    requires s.State?
  {
    if s.sections == [] then s.lead else Last(s.sections).lines
  }

  /** Every part is quiet, every part but the last closes its fences, and orders ascend. */
  predicate Tidy(s: State)
    requires s.State?
  {
    && Ascending(s.sections)
    && Quiet(s.lead)
    && (s.sections != [] ==> FenceAfter(s.lead) == None)
    && (forall k :: 0 <= k < |s.sections| ==> Quiet(s.sections[k].lines))
    && (forall k :: 0 <= k < |s.sections| - 1 ==> FenceAfter(s.sections[k].lines) == None)
    && s.fence == FenceAfter(ActiveLines(s))
  }

  /** The lead, then each marker followed by its lines. */
  function Rebuild(lead: seq<string>, sections: seq<Section>): seq<string>
    decreases |sections|
  {
    if sections == [] then lead
    else
      Rebuild(lead, sections[..|sections| - 1]) + [Marker(Last(sections).order)] + Last(sections).lines
  }

  lemma MarkerOpensNoFence(order: Slot)
    ensures OpeningFence(Marker(order)) == None
    ensures OrderOf(Marker(order)) == Some(order)
  {
    assert Marker(order)[0] == '[';
    assert RunLength(Marker(order), 0, ' ') == 0;
    assert |Marker(0)| == 25 && |Marker(1)| == 35 && |Marker(2)| == 38 && |Marker(3)| == 24;
  }

  lemma OrderOfNamesTheMarker(line: string)
    requires OrderOf(line).Some?
    ensures Marker(OrderOf(line).value) == line
    ensures OpeningFence(line) == None
  {
    MarkerOpensNoFence(OrderOf(line).value);
  }

  lemma QuietSnoc(lines: seq<string>, line: string)
    ensures FenceAfter(lines + [line]) == NextFence(FenceAfter(lines), line)
    ensures Quiet(lines + [line]) <==>
            Quiet(lines) && (FenceAfter(lines).Some? || OpeningFence(line).Some? || !IsMarkerLine(line))
  {
    hide NextFence, OpeningFence, IsMarkerLine;
    var all := lines + [line];
    assert all[..|lines|] == lines && Last(all) == line;
    forall i | 0 <= i < |lines| ensures PlainAt(all, i) == PlainAt(lines, i) {
      assert all[..i] == lines[..i];
    }
    assert PlainAt(all, |lines|) == (FenceAfter(lines).Some? || OpeningFence(line).Some? || !IsMarkerLine(line));
    if Quiet(all) {
      forall i | 0 <= i < |lines| ensures PlainAt(lines, i) {
        assert PlainAt(all, i);
      }
    }
  }

  lemma AppendRebuilds(s: State, line: string)
    requires s.State?
    ensures Rebuild(Append(s, line).lead, Append(s, line).sections) == Rebuild(s.lead, s.sections) + [line]
    ensures ActiveLines(Append(s, line)) == ActiveLines(s) + [line]
  {
    hide Marker;
    if s.sections != [] {
      var last := |s.sections| - 1;
      assert Append(s, line).sections[..last] == s.sections[..last];
    }
  }

  /** Appending a line that is plain where it stands keeps the partition tidy. */
  lemma AppendKeepsTidy(s: State, line: string)
    requires s.State? && Tidy(s)
    requires s.fence.Some? || OpeningFence(line).Some? || !IsMarkerLine(line)
    ensures var t := Append(s, line); Tidy(t.(fence := NextFence(s.fence, line)))
  {
    hide NextFence, OpeningFence, IsMarkerLine, FenceAfter, Quiet;
    QuietSnoc(ActiveLines(s), line);
  }

  lemma StepKeepsTidy(s: State, line: string)
    requires s.State? && Tidy(s) && Step(s, line).State?
    ensures Tidy(Step(s, line))
    ensures Rebuild(Step(s, line).lead, Step(s, line).sections) == Rebuild(s.lead, s.sections) + [line]
  {
    hide OpeningFence, IsClosing, FenceAfter, Quiet, Marker, OrderOf, LooksLikeMarker, Tidy, Rebuild;
    if s.fence.Some? || OpeningFence(line).Some? || OrderOf(line).None? {
      AppendKeepsTidy(s, line);
      AppendRebuilds(s, line);
    } else {
      OpenSection(s, line);
    }
  }

  lemma OpenSection(s: State, line: string)
    requires s.State? && Tidy(s) && s.fence == None && OrderOf(line).Some?
    requires s.sections == [] || Last(s.sections).order < OrderOf(line).value
    ensures var t := s.(sections := s.sections + [Section(OrderOf(line).value, [])]);
            Tidy(t) && Rebuild(t.lead, t.sections) == Rebuild(s.lead, s.sections) + [line]
  {
    hide OpeningFence, Marker, OrderOf, LooksLikeMarker;
    OrderOfNamesTheMarker(line);
    var t := s.(sections := s.sections + [Section(OrderOf(line).value, [])]);
    assert t.sections[..|s.sections|] == s.sections;
    assert Quiet([]) && FenceAfter([]) == None;
  }

  lemma {:induction false} FeedKeepsTidy(s: State, lines: seq<string>)
    requires s.State? && Tidy(s) && Feed(s, lines).State?
    ensures Tidy(Feed(s, lines))
    ensures Rebuild(Feed(s, lines).lead, Feed(s, lines).sections) == Rebuild(s.lead, s.sections) + lines
    decreases |lines|
  {
    hide Step, Tidy, Rebuild;
    if lines != [] {
      if Step(s, lines[0]).Rejected? {
        RejectedStays(lines[1..]);
      } else {
        StepKeepsTidy(s, lines[0]);
        FeedKeepsTidy(Step(s, lines[0]), lines[1..]);
        assert lines == [lines[0]] + lines[1..];
      }
    }
  }

  lemma FeedSnoc(lines: seq<string>, line: string)
    ensures Feed(START, lines + [line]) == Step(Feed(START, lines), line)
  {
    hide Step;
    FeedConcat(START, lines, [line]);
    assert Feed(Step(Feed(START, lines), line), []) == Step(Feed(START, lines), line);
    assert [line][1..] == [];
  }

  /** A tidy state with text in its active part is one step from the state without its last line. */
  lemma UndoAppend(s: State) returns (before: State, line: string)
    requires s.State? && Tidy(s) && ActiveLines(s) != []
    ensures before.State? && Tidy(before) && Step(before, line) == s
    ensures Rebuild(s.lead, s.sections) == Rebuild(before.lead, before.sections) + [line]
  {
    hide OpeningFence, IsClosing, Marker, OrderOf, LooksLikeMarker;
    var active := ActiveLines(s);
    var rest := active[..|active| - 1];
    line := Last(active);
    assert active == rest + [line];
    QuietSnoc(rest, line);
    if s.sections == [] {
      before := State(rest, [], FenceAfter(rest));
    } else {
      var n := |s.sections| - 1;
      before := State(s.lead, s.sections[..n] + [s.sections[n].(lines := rest)], FenceAfter(rest));
      assert before.sections[..n] == s.sections[..n];
      assert forall k :: 0 <= k < n ==> before.sections[k] == s.sections[k];
      assert s.sections == s.sections[..n] + [s.sections[n]];
    }
    UndoIsTidy(s, before, rest, line);
    assert Append(before, line) == before.(lead := s.lead, sections := s.sections);
    AppendRebuilds(before, line);
  }

  lemma UndoIsTidy(s: State, before: State, rest: seq<string>, line: string)
    requires s.State? && Tidy(s) && before.State? && Quiet(rest) && before.fence == FenceAfter(rest)
    requires ActiveLines(s) == rest + [line] && ActiveLines(before) == rest
    requires |before.sections| == |s.sections|
    requires s.sections != [] ==> before.lead == s.lead && Last(before.sections).order == Last(s.sections).order
    requires forall k :: 0 <= k < |s.sections| - 1 ==> before.sections[k] == s.sections[k]
    ensures Tidy(before)
  {
    hide FenceAfter, Quiet;
  }

  lemma UndoMarker(s: State) returns (before: State, line: string)
    requires s.State? && Tidy(s) && ActiveLines(s) == [] && s.sections != []
    ensures before.State? && Tidy(before) && Step(before, line) == s
    ensures Rebuild(s.lead, s.sections) == Rebuild(before.lead, before.sections) + [line]
  {
    hide OpeningFence, IsClosing, Marker, OrderOf, LooksLikeMarker, Quiet, Append;
    var n := |s.sections| - 1;
    line := Marker(s.sections[n].order);
    before := State(s.lead, s.sections[..n], None);
    MarkerOpensNoFence(s.sections[n].order);
    assert s.sections == s.sections[..n] + [Section(s.sections[n].order, [])];
    assert FenceAfter([]) == None;
  }

  lemma {:induction false} TidyIsReached(s: State)
    requires s.State? && Tidy(s)
    ensures Feed(START, Rebuild(s.lead, s.sections)) == s
    decreases |Rebuild(s.lead, s.sections)|
  {
    hide Step, Feed, Marker;
    if ActiveLines(s) == [] && s.sections == [] {
      assert s == START;
      assert Feed(START, []) == START by { FeedNothing(START); }
    } else {
      var before, line;
      if ActiveLines(s) != [] {
        before, line := UndoAppend(s);
      } else {
        before, line := UndoMarker(s);
      }
      TidyIsReached(before);
      FeedSnoc(Rebuild(before.lead, before.sections), line);
    }
  }

  lemma FeedNothing(s: State)
    ensures Feed(s, []) == s
  {
  }

  /**
   The parser's final state is the one and only tidy partition of its input; nothing is lost,
   moved or read twice.
   */
  lemma PartitionIsExact(lines: seq<string>, s: State)
    requires s.State?
    ensures Feed(START, lines) == s <==> Tidy(s) && Rebuild(s.lead, s.sections) == lines
  {
    hide Feed, Step, Tidy, Rebuild;
    if Feed(START, lines) == s {
      assert Tidy(START) && Rebuild([], []) == [] by { StartIsTidy(); }
      FeedKeepsTidy(START, lines);
      assert [] + lines == lines;
    }
    if Tidy(s) && Rebuild(s.lead, s.sections) == lines {
      TidyIsReached(s);
    }
  }

  lemma StartIsTidy()
    ensures Tidy(START) && Rebuild([], []) == []
  {
  }

  // ----- Rejection -----

  /** Line `i` is a known marker outside every fence. */
  predicate MarksAt(lines: seq<string>, i: nat)
    requires i < |lines|
  {
    FenceAfter(lines[..i]).None? && OrderOf(lines[i]).Some?
  }

  /** Line `i` is a marker the format has no place for. */
  predicate BreaksAt(lines: seq<string>, i: nat)
    requires i < |lines|
  {
    && FenceAfter(lines[..i]).None?
    && OpeningFence(lines[i]).None?
    && if OrderOf(lines[i]).Some? then
         exists j :: 0 <= j < i && MarksAt(lines, j) && OrderOf(lines[i]).value <= OrderOf(lines[j]).value
       else LooksLikeMarker(lines[i])
  }

  ghost predicate Broken(lines: seq<string>)
  {
    exists i :: 0 <= i < |lines| && BreaksAt(lines, i)
  }

  /** What the state knows of the lines behind it. */
  ghost predicate Tracks(s: State, lines: seq<string>)
  {
    && s.State?
    && s.fence == FenceAfter(lines)
    && (forall j :: 0 <= j < |lines| && MarksAt(lines, j) ==>
          s.sections != [] && OrderOf(lines[j]).value <= Last(s.sections).order)
    && (s.sections != [] ==>
          exists j :: 0 <= j < |lines| && MarksAt(lines, j) && OrderOf(lines[j]).value == Last(s.sections).order)
  }

  lemma PrefixViews(lines: seq<string>, line: string)
    ensures forall i :: 0 <= i < |lines| ==> MarksAt(lines + [line], i) == MarksAt(lines, i)
    ensures forall i :: 0 <= i < |lines| ==> BreaksAt(lines + [line], i) == BreaksAt(lines, i)
    ensures FenceAfter(lines + [line]) == NextFence(FenceAfter(lines), line)
    ensures (lines + [line])[..|lines|] == lines
  {
    hide OpeningFence, LooksLikeMarker, OrderOf, NextFence;
    var all := lines + [line];
    QuietSnoc(lines, line);
    assert all[..|lines|] == lines;
    forall i | 0 <= i < |lines|
      ensures MarksAt(all, i) == MarksAt(lines, i) && all[i] == lines[i] && all[..i] == lines[..i]
    {
      assert all[..i] == lines[..i];
    }
    forall i | 0 <= i < |lines| ensures BreaksAt(all, i) == BreaksAt(lines, i) {
      if BreaksAt(all, i) && OrderOf(lines[i]).Some? {
        var j :| 0 <= j < i && MarksAt(all, j) && OrderOf(all[i]).value <= OrderOf(all[j]).value;
        assert MarksAt(lines, j);
      }
      if BreaksAt(lines, i) && OrderOf(lines[i]).Some? {
        var j :| 0 <= j < i && MarksAt(lines, j) && OrderOf(lines[i]).value <= OrderOf(lines[j]).value;
        assert MarksAt(all, j);
      }
    }
  }

  lemma StepTracks(s: State, lines: seq<string>, line: string)
    requires Tracks(s, lines)
    ensures Step(s, line).Rejected? <==> BreaksAt(lines + [line], |lines|)
    ensures Step(s, line).State? ==> Tracks(Step(s, line), lines + [line])
  {
    hide OpeningFence, LooksLikeMarker, OrderOf, FenceAfter, IsClosing, Marker;
    var all := lines + [line];
    PrefixViews(lines, line);
    assert all[|lines|] == line;
    if OrderOf(line).Some? {
      OrderOfNamesTheMarker(line);
    }
    if s.fence.Some? || OpeningFence(line).Some? || OrderOf(line).None? {
      assert !MarksAt(all, |lines|);
      if s.sections != [] {
        var j :| 0 <= j < |lines| && MarksAt(lines, j) && OrderOf(lines[j]).value == Last(s.sections).order;
        assert MarksAt(all, j) && all[j] == lines[j];
      }
    } else {
      assert MarksAt(all, |lines|);
      if s.sections != [] {
        var j :| 0 <= j < |lines| && MarksAt(lines, j) && OrderOf(lines[j]).value == Last(s.sections).order;
        assert MarksAt(all, j) && all[j] == lines[j];
      }
    }
  }

  lemma {:induction false} RejectionDecided(lines: seq<string>)
    ensures Feed(START, lines).Rejected? <==> Broken(lines)
    ensures Feed(START, lines).State? ==> Tracks(Feed(START, lines), lines)
    decreases |lines|
  {
    hide Step, Tracks, BreaksAt;
    if lines == [] {
      assert Tracks(START, []) by { FeedNothing(START); StartTracks(); }
    } else {
      var rest := lines[..|lines| - 1];
      var line := Last(lines);
      assert lines == rest + [line];
      RejectionDecided(rest);
      FeedSnoc(rest, line);
      PrefixViews(rest, line);
      if Feed(START, rest).State? {
        StepTracks(Feed(START, rest), rest, line);
        assert lines[|rest|] == line;
      } else {
        var i :| 0 <= i < |rest| && BreaksAt(rest, i);
        assert BreaksAt(lines, i);
        StepRejected(line);
      }
      if Broken(lines) && !Broken(rest) {
        var i :| 0 <= i < |lines| && BreaksAt(lines, i);
        assert i == |rest|;
      }
    }
  }

  lemma StepRejected(line: string)
    ensures Step(Rejected, line) == Rejected
  {
  }

  lemma StartTracks()
    ensures Tracks(START, [])
  {
  }

  // ----- Fences -----

  /** Line `j` opens a fence that no line before `i` closes. */
  predicate OpenedAt(lines: seq<string>, j: nat, i: nat, fence: Fence)
    requires j < i <= |lines|
  {
    && FenceAfter(lines[..j]).None?
    && OpeningFence(lines[j]) == Some(fence)
    && (forall k :: j < k < i ==> !IsClosing(lines[k], fence))
  }

  /** Being inside a fence, said without the machine: some outside line opened it, none closed it. */
  lemma {:induction false} InsideFenceIffOpened(lines: seq<string>, i: nat, fence: Fence)
    requires i <= |lines|
    ensures FenceAfter(lines[..i]) == Some(fence) <==> exists j :: 0 <= j < i && OpenedAt(lines, j, i, fence)
  {
    hide OpeningFence, IsClosing;
    if i > 0 {
      InsideFenceIffOpened(lines, i - 1, fence);
      assert lines[..i][..i - 1] == lines[..i - 1] && Last(lines[..i]) == lines[i - 1];
      if FenceAfter(lines[..i]) == Some(fence) {
        if FenceAfter(lines[..i - 1]).None? {
          assert OpenedAt(lines, i - 1, i, fence);
        } else {
          var j :| 0 <= j < i - 1 && OpenedAt(lines, j, i - 1, fence);
          assert OpenedAt(lines, j, i, fence);
        }
      }
      if j :| 0 <= j < i && OpenedAt(lines, j, i, fence) {
        if j < i - 1 {
          assert OpenedAt(lines, j, i - 1, fence);
        }
      }
    }
  }
}
