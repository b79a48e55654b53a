/**
 The reveal format in its own words: the four markers and the marker pattern written out, fences by
 the lines that open and close them, which inputs are refused, and what the others yield.
 */
module RevealContract {
  import opened Wrappers
  import opened RevealParser
  import opened RevealPartition
  import opened RevealRoundTrip
  import Text

  // ----- Markers -----

  /** `line` is the marker of slot `k`: effect, hidden structure, cognitive mechanism, synthesis. */
  predicate Names(line: string, k: Slot)
  {
    || (k == 0 && line == "[[MAGICFORGE_ACT:EFFECT]]")
    || (k == 1 && line == "[[MAGICFORGE_ACT:HIDDEN_STRUCTURE]]")
    || (k == 2 && line == "[[MAGICFORGE_ACT:COGNITIVE_MECHANISM]]")
    || (k == 3 && line == "[[MAGICFORGE_SYNTHESIS]]")
  }

  /** The marker pattern around a body without brackets and line breaks. */
  predicate ReadsAsMarker(line: string, body: string)
  {
    && body != "" && line == "[[MAGICFORGE_" + body + "]]"
    && forall i :: 0 <= i < |body| ==> body[i] != '[' && body[i] != ']' && body[i] != '\r' && body[i] != '\n'
  }

  lemma OrderDecided(line: string, k: Slot)
    ensures OrderOf(line) == Some(k) <==> Names(line, k)
  {
    assert |Marker(0)| == 25 && |Marker(1)| == 35 && |Marker(2)| == 38 && |Marker(3)| == 24;
  }

  lemma MarkerLineMatches(line: string)
    ensures LooksLikeMarker(line) <==> exists body :: ReadsAsMarker(line, body)
  {
    var n := |line|;
    if LooksLikeMarker(line) {
      var body := line[13..n - 2];
      assert PREFIX == "[[MAGICFORGE_" && |PREFIX| == 13 && line[..13] == PREFIX;
      assert line[n - 2..] == "]]";
      assert line == line[..13] + body + line[n - 2..];
      assert forall i :: 0 <= i < |body| ==> body[i] == line[i + 13];
      assert ReadsAsMarker(line, body);
    }
    if body :| ReadsAsMarker(line, body) {
      assert n == 13 + |body| + 2 && line[..13] == "[[MAGICFORGE_" && line[n - 2..] == "]]";
      assert line[n - 2] == ']' && line[n - 1] == ']';
      assert forall i :: 13 <= i < n - 2 ==> line[i] == body[i - 13];
    }
  }

  // ----- Fences -----

  ghost predicate Opens(line: string, fence: Fence)
  {
    exists indent :: OpensWith(line, indent, fence.mark, fence.length)
  }

  ghost predicate Closes(line: string, fence: Fence)
  {
    exists indent, run :: ClosesWith(line, indent, run, fence)
  }

  /** Line `j`, outside every fence, opens one that no line before `i` closes. */
  ghost predicate OpenSince(lines: seq<string>, j: nat, i: nat, fence: Fence)
    requires j < i <= |lines|
    decreases i, 0
  {
    Outside(lines, j) && Opens(lines[j], fence) && forall k :: j < k < i ==> !Closes(lines[k], fence)
  }

  ghost predicate Outside(lines: seq<string>, i: nat)
    requires i <= |lines|
    decreases i, 1
  {
    forall j, fence :: 0 <= j < i ==> !OpenSince(lines, j, i, fence)
  }

  lemma OpensDecided(line: string, fence: Fence)
    ensures Opens(line, fence) <==> OpeningFence(line) == Some(fence)
    ensures Opens(line, fence) ==> fence.mark == '`' || fence.mark == '~'
  {
    OpeningFenceMatches(line, fence.mark, fence.length);
  }

  lemma OpenSinceDecided(lines: seq<string>, j: nat, i: nat, fence: Fence)
    requires j < i <= |lines| && (Outside(lines, j) <==> FenceAfter(lines[..j]).None?)
    ensures OpenSince(lines, j, i, fence) <==> OpenedAt(lines, j, i, fence)
  {
    hide Outside, Opens, Closes, IsClosing, OpeningFence, FenceAfter;
    OpensDecided(lines[j], fence);
    if Opens(lines[j], fence) {
      forall k | j < k < i ensures Closes(lines[k], fence) <==> IsClosing(lines[k], fence) {
        ClosesDecided(lines[k], fence);
      }
    }
  }

  lemma ClosesDecided(line: string, fence: Fence)
    requires fence.mark == '`' || fence.mark == '~'
    ensures Closes(line, fence) <==> IsClosing(line, fence)
  {
    ClosingFenceMatches(line, fence);
  }

  lemma {:induction false} OutsideDecided(lines: seq<string>, i: nat)
    requires i <= |lines|
    ensures Outside(lines, i) <==> FenceAfter(lines[..i]).None?
  {
    hide OpenSince, OpenedAt, FenceAfter;
    if FenceAfter(lines[..i]).Some? {
      var fence := FenceAfter(lines[..i]).value;
      InsideFenceIffOpened(lines, i, fence);
      var j :| 0 <= j < i && OpenedAt(lines, j, i, fence);
      OutsideDecided(lines, j);
      OpenSinceDecided(lines, j, i, fence);
    } else {
      forall j, fence | 0 <= j < i ensures !OpenSince(lines, j, i, fence) {
        OutsideDecided(lines, j);
        OpenSinceDecided(lines, j, i, fence);
        InsideFenceIffOpened(lines, i, fence);
      }
    }
  }

  // ----- Refused inputs -----

  /** Line `i`, outside every fence and opening none, is a marker, and unknown or not behind the last one. */
  ghost predicate RefusedAt(lines: seq<string>, i: nat)
    requires i < |lines|
  {
    && Outside(lines, i)
    && (forall fence :: !Opens(lines[i], fence))
    && (exists body :: ReadsAsMarker(lines[i], body))
    && forall k :: Names(lines[i], k) ==> RepeatsAt(lines, i, k)
  }

  /** A marker of slot `k` or a later one stands outside every fence before line `i`. */
  ghost predicate RepeatsAt(lines: seq<string>, i: nat, k: Slot)
    requires i < |lines|
  {
    exists j, l :: 0 <= j < i && Outside(lines, j) && Names(lines[j], l) && k <= l
  }

  lemma KnownMarkersRead(line: string, k: Slot)
    requires Names(line, k)
    ensures exists body :: ReadsAsMarker(line, body)
  {
    MarkerLineMatches(line);
    KnownMarkersLook(line, k);
  }

  lemma KnownMarkersLook(line: string, k: Slot)
    requires Names(line, k)
    ensures LooksLikeMarker(line)
  {
    assert |PREFIX| == 13 && PREFIX <= line;
    assert |line| == (if k == 0 then 25 else if k == 1 then 35 else if k == 2 then 38 else 24);
  }

  lemma RepeatsDecided(lines: seq<string>, i: nat, k: Slot)
    requires i < |lines| && OrderOf(lines[i]) == Some(k)
    ensures RepeatsAt(lines, i, k) <==>
      exists j :: 0 <= j < i && MarksAt(lines, j) && OrderOf(lines[i]).value <= OrderOf(lines[j]).value
  {
    hide OrderOf, Names, FenceAfter, Outside;
    if j :| 0 <= j < i && MarksAt(lines, j) && OrderOf(lines[i]).value <= OrderOf(lines[j]).value {
      OutsideDecided(lines, j);
      OrderDecided(lines[j], OrderOf(lines[j]).value);
      assert Names(lines[j], OrderOf(lines[j]).value);
    }
    if RepeatsAt(lines, i, k) {
      var j, l :| 0 <= j < i && Outside(lines, j) && Names(lines[j], l) && k <= l;
      OutsideDecided(lines, j);
      OrderDecided(lines[j], l);
      assert MarksAt(lines, j);
    }
  }

  lemma RefusedAtDecided(lines: seq<string>, i: nat)
    requires i < |lines|
    ensures RefusedAt(lines, i) <==> BreaksAt(lines, i)
  {
    hide OrderOf, Names, FenceAfter, Outside, Opens, OpeningFence, LooksLikeMarker, RepeatsAt, MarksAt, ReadsAsMarker;
    OutsideDecided(lines, i);
    MarkerLineMatches(lines[i]);
    forall k: Slot ensures Names(lines[i], k) <==> OrderOf(lines[i]) == Some(k) {
      OrderDecided(lines[i], k);
    }
    forall fence ensures Opens(lines[i], fence) <==> OpeningFence(lines[i]) == Some(fence) {
      OpensDecided(lines[i], fence);
    }
    if OpeningFence(lines[i]).Some? {
      assert Opens(lines[i], OpeningFence(lines[i]).value);
    }
    if OrderOf(lines[i]).Some? {
      var k := OrderOf(lines[i]).value;
      RepeatsDecided(lines, i, k);
      KnownMarkersRead(lines[i], k);
    }
  }

  /** Exactly the inputs with such a line fall back to plain text at a marker. */
  lemma RefusalDecided(lines: seq<string>)
    ensures Feed(START, lines).Rejected? <==> exists i :: 0 <= i < |lines| && RefusedAt(lines, i)
    ensures (exists i :: 0 <= i < |lines| && RefusedAt(lines, i)) ==> Parse(lines) == None
  {
    hide RefusedAt, BreaksAt, Feed;
    RejectionDecided(lines);
    forall i | 0 <= i < |lines| ensures RefusedAt(lines, i) <==> BreaksAt(lines, i) {
      RefusedAtDecided(lines, i);
    }
  }

  // ----- Accepted inputs -----

  /** What lines hold: nothing if they are blank, else their text without outer whitespace. */
  predicate IsContent(lines: seq<string>, content: Option<string>)
  {
    content == if Text.Blank(Join(lines)) then None else Some(Text.Strip(Join(lines)))
  }

  /** The section of slot `k` holds `text`. */
  predicate SaysAt(sections: seq<Section>, k: Slot, text: string)
  {
    exists i :: 0 <= i < |sections| && sections[i].order == k && IsContent(sections[i].lines, Some(text))
  }

  /** The reveal says what lead and sections hold, acts in their fixed order. */
  ghost predicate SaysAll(lead: seq<string>, sections: seq<Section>, r: Reveal)
  {
    && IsContent(lead, r.lead)
    && (forall i, j :: 0 <= i < j < |r.acts| ==> r.acts[i].kind < r.acts[j].kind)
    && (forall k: Kind, text :: Act(k, text) in r.acts <==> SaysAt(sections, k, text))
    && (forall text :: r.synthesis == Some(text) <==> SaysAt(sections, 3, text))
  }

  lemma CleanDecided(lines: seq<string>)
    ensures IsContent(lines, Clean(lines))
  {
    hide Join, Text.Strip;
    Text.BlankIsEmpty(Join(lines));
  }

  lemma {:induction false} LookupDecided(sections: seq<Section>, k: Slot, text: string)
    requires Ascending(sections)
    ensures SaysAt(sections, k, text) <==> IsContent(Lookup(sections, k), Some(text))
    decreases |sections|
  {
    hide IsContent;
    if sections == [] {
      NothingSaid(text);
    } else {
      var init := sections[..|sections| - 1];
      LookupDecided(init, k, text);
      if SaysAt(init, k, text) {
        var i :| 0 <= i < |init| && init[i].order == k && IsContent(init[i].lines, Some(text));
        assert sections[i] == init[i];
      }
      if Last(sections).order != k && SaysAt(sections, k, text) {
        var i :| 0 <= i < |sections| && sections[i].order == k && IsContent(sections[i].lines, Some(text));
        assert init[i] == sections[i];
      }
      if Last(sections).order == k {
        assert forall i :: 0 <= i < |init| ==> sections[i].order < k;
      }
    }
  }

  lemma NothingSaid(text: string)
    ensures !IsContent([], Some(text))
  {
    assert Join([]) == "";
  }

  /** The acts read off three contents. */
  lemma ActsDecided(a: Option<string>, b: Option<string>, c: Option<string>, k: Kind, text: string)
    ensures Act(k, text) in ActsOf(a, b, c) <==> (if k == 0 then a else if k == 1 then b else c) == Some(text)
  {
  }

  lemma LookupSays(sections: seq<Section>, k: Slot, text: string)
    requires Ascending(sections)
    ensures SaysAt(sections, k, text) <==> Clean(Lookup(sections, k)) == Some(text)
  {
    hide SaysAt, Lookup, Clean;
    LookupDecided(sections, k, text);
    CleanDecided(Lookup(sections, k));
  }

  lemma ExtractSays(s: State)
    requires s.State? && Ascending(s.sections)
    ensures Extract(s).Some? <==> exists k: Kind, text :: SaysAt(s.sections, k, text)
    ensures Extract(s).Some? ==> SaysAll(s.lead, s.sections, Extract(s).value)
  {
    hide Clean, Lookup, ActsOf, SaysAt, IsContent;
    CleanDecided(s.lead);
    var a, b, c := Clean(Lookup(s.sections, 0)), Clean(Lookup(s.sections, 1)), Clean(Lookup(s.sections, 2));
    forall k: Slot, text ensures SaysAt(s.sections, k, text) <==> Clean(Lookup(s.sections, k)) == Some(text) {
      LookupSays(s.sections, k, text);
    }
    forall k: Kind, text ensures Act(k, text) in ActsOf(a, b, c) <==> SaysAt(s.sections, k, text) {
      ActsDecided(a, b, c, k, text);
    }
    ActsOfAscend(a, b, c);
    if ActsOf(a, b, c) != [] {
      var act := ActsOf(a, b, c)[0];
      assert Act(act.kind, act.content) in ActsOf(a, b, c);
    }
    if s.sections == [] {
      NoSectionsSayNothing();
    }
  }

  lemma NoSectionsSayNothing()
    ensures forall k: Slot, text :: !SaysAt([], k, text)
  {
  }

  /**
   What parsing yields: the input that is not refused is a lead and ascending sections under their
   markers; it is a reveal if some act holds more than whitespace, and says what those parts hold.
   */
  lemma ParseDecided(lines: seq<string>, s: State)
    requires s.State? && Tidy(s) && Rebuild(s.lead, s.sections) == lines
    ensures Parse(lines).Some? <==> exists k: Kind, text :: SaysAt(s.sections, k, text)
    ensures Parse(lines).Some? ==> SaysAll(s.lead, s.sections, Parse(lines).value)
  {
    hide Feed, Extract, Rebuild, SaysAt, SaysAll;
    PartitionIsExact(lines, s);
    ExtractSays(s);
  }
}
