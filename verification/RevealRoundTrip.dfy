/**
 Printing a reveal and parsing it back. The printer writes the lead, then each act and the
 synthesis under its marker; parsing gives the same reveal exactly when the reveal has the form
 a parse yields and none of its contents disturbs the markers.
 */
module RevealRoundTrip {
  import opened Wrappers
  import opened RevealParser
  import opened RevealPartition
  import Text

  // ----- Printing -----

  /** The lines of a text: `Join` undone. */
  function Split(text: string): (lines: seq<string>)
    ensures lines != []
  {
    Text.SplitAt(text, '\n')
  }

  function Body(content: Option<string>): seq<string>
  {
    if content.Some? then Split(content.value) else []
  }

  function ActSections(acts: seq<Act>): (sections: seq<Section>)
    ensures |sections| == |acts|
    ensures forall i :: 0 <= i < |acts| ==> sections[i] == Section(acts[i].kind, Split(acts[i].content))
  {
    seq(|acts|, i requires 0 <= i < |acts| => Section(acts[i].kind, Split(acts[i].content)))
  }

  function SectionsOf(r: Reveal): seq<Section>
  {
    ActSections(r.acts) + if r.synthesis.Some? then [Section(SYNTHESIS, Split(r.synthesis.value))] else []
  }

  function Print(r: Reveal): seq<string>
  {
    Rebuild(Body(r.lead), SectionsOf(r))
  }

  /** The state the printed lines should lead to. */
  function Printed(r: Reveal): (s: State)
    ensures s.State?
  {
    var bare := State(Body(r.lead), SectionsOf(r), None);
    bare.(fence := FenceAfter(ActiveLines(bare)))
  }

  /** Every part is free of marker lines outside fences, and every part but the last closes its fences. */
  predicate Printable(r: Reveal)
  {
    Tidy(Printed(r))
  }

  predicate GoodContent(text: string)
  {
    text != "" && Text.Trimmed(text)
  }

  predicate WellFormed(r: Reveal)
  {
    && r.acts != []
    && (forall i, j :: 0 <= i < j < |r.acts| ==> r.acts[i].kind < r.acts[j].kind)
    && (forall i :: 0 <= i < |r.acts| ==> GoodContent(r.acts[i].content))
    && (r.lead.Some? ==> GoodContent(r.lead.value))
    && (r.synthesis.Some? ==> GoodContent(r.synthesis.value))
  }

  // ----- Lines and text -----

  /** No line holds one of the characters in `bad`. */
  predicate Clear(lines: seq<string>, bad: set<char>)
  {
    forall i, c :: 0 <= i < |lines| && c in bad ==> c !in lines[i]
  }

  predicate NoBreaks(lines: seq<string>)
  {
    Clear(lines, {'\n'})
  }

  lemma JoinSplit(text: string)
    ensures Join(Split(text)) == text
    ensures NoBreaks(Split(text))
  {
    hide Text.SplitAt, Text.JoinWith;
    Text.JoinSplitAt(text, '\n');
  }

  lemma JoinCons(first: string, rest: seq<string>)
    ensures Join([first]) == first
    ensures rest != [] ==> Join([first] + rest) == first + "\n" + Join(rest)
  {
    hide Text.JoinWith;
    Text.JoinWithCons(first, rest, '\n');
  }

  /** Joining lines without breaks forgets nothing. */
  lemma SplitJoin(lines: seq<string>)
    requires lines != [] && NoBreaks(lines)
    ensures Split(Join(lines)) == lines
  {
    hide Text.SplitAt, Text.JoinWith;
    Text.SplitJoinWith(lines, '\n');
  }

  lemma CleanSplit(text: string)
    requires GoodContent(text)
    ensures Clean(Split(text)) == Some(text)
  {
    JoinSplit(text);
    Text.StripTrimmed(text);
  }

  lemma CleanIsGood(lines: seq<string>)
    ensures Clean(lines).Some? ==> GoodContent(Clean(lines).value)
    ensures Clean([]) == None
  {
    hide Join;
    Text.StripRange(Join(lines));
    assert Join([]) == "" by { JoinNothing(); }
    assert Text.Strip("") == "";
  }

  lemma JoinNothing()
    ensures Join([]) == ""
  {
  }

  // ----- From a well-formed reveal to the parsed one -----

  /** What a reveal holds for a slot. */
  function Part(r: Reveal, k: Slot): Option<string>
  {
    if k == SYNTHESIS then r.synthesis else PartOfActs(r.acts, k)
  }

  function PartOfActs(acts: seq<Act>, k: Kind): Option<string>
    decreases |acts|
  {
    if acts == [] then None
    else if Last(acts).kind == k then Some(Last(acts).content)
    else PartOfActs(acts[..|acts| - 1], k)
  }

  function SplitPart(part: Option<string>): Option<seq<string>>
  {
    if part.Some? then Some(Split(part.value)) else None
  }

  lemma {:induction false} ActsAreFound(acts: seq<Act>, k: Slot)
    ensures Find(ActSections(acts), k) == if k < 3 then SplitPart(PartOfActs(acts, k)) else None
    decreases |acts|
  {
    hide Split;
    if acts != [] {
      ActsAreFound(acts[..|acts| - 1], k);
      assert ActSections(acts)[..|acts| - 1] == ActSections(acts[..|acts| - 1]);
    }
  }

  lemma PartsAreFound(r: Reveal, k: Slot)
    ensures Find(SectionsOf(r), k) == SplitPart(Part(r, k))
  {
    hide Split;
    ActsAreFound(r.acts, k);
    if r.synthesis.Some? {
      assert SectionsOf(r)[..|r.acts|] == ActSections(r.acts);
    } else {
      assert SectionsOf(r) == ActSections(r.acts);
    }
  }

  lemma PartAfter(acts: seq<Act>, kind: Kind, content: Option<string>, k: Kind)
    ensures PartOfActs(acts + ActIf(kind, content), k) ==
            if k == kind && content.Some? then content else PartOfActs(acts, k)
  {
    if content.Some? {
      assert (acts + [Act(kind, content.value)])[..|acts|] == acts;
    } else {
      assert acts + [] == acts;
    }
  }

  lemma PartsOfActsOf(a: Option<string>, b: Option<string>, c: Option<string>)
    ensures forall k: Kind :: PartOfActs(ActsOf(a, b, c), k) == if k == 0 then a else if k == 1 then b else c
  {
    assert [] + ActIf(0, a) == ActIf(0, a);
    forall k: Kind
      ensures PartOfActs(ActsOf(a, b, c), k) == if k == 0 then a else if k == 1 then b else c
    {
      PartAfter([], 0, a, k);
      PartAfter(ActIf(0, a), 1, b, k);
      PartAfter(ActIf(0, a) + ActIf(1, b), 2, c, k);
    }
  }

  /** Ascending acts are what the parser's fixed reading order rebuilds. */
  lemma ActsFromParts(acts: seq<Act>)
    requires forall i, j :: 0 <= i < j < |acts| ==> acts[i].kind < acts[j].kind
    ensures ActsOf(PartOfActs(acts, 0), PartOfActs(acts, 1), PartOfActs(acts, 2)) == acts
  {
    hide PartOfActs, Find, Split, ActsOf;
    var read := ActsOf(PartOfActs(acts, 0), PartOfActs(acts, 1), PartOfActs(acts, 2));
    PartsOfActsOf(PartOfActs(acts, 0), PartOfActs(acts, 1), PartOfActs(acts, 2));
    forall k: Slot ensures Find(ActSections(acts), k) == Find(ActSections(read), k) {
      ActsAreFound(acts, k);
      ActsAreFound(read, k);
    }
    assert forall i, j :: 0 <= i < j < |read| ==> read[i].kind < read[j].kind by {
      ActsOfAscend(PartOfActs(acts, 0), PartOfActs(acts, 1), PartOfActs(acts, 2));
    }
    hide ActSections;
    FindDetermines(ActSections(acts), ActSections(read));
    SameSectionsSameActs(acts, read);
  }

  lemma ActsOfAscend(a: Option<string>, b: Option<string>, c: Option<string>)
    ensures forall i, j :: 0 <= i < j < |ActsOf(a, b, c)| ==> ActsOf(a, b, c)[i].kind < ActsOf(a, b, c)[j].kind
  {
  }

  lemma SameSectionsSameActs(xs: seq<Act>, ys: seq<Act>)
    requires ActSections(xs) == ActSections(ys)
    ensures xs == ys
  {
    hide Split, Join;
    assert |xs| == |ActSections(xs)| == |ys|;
    forall i | 0 <= i < |xs| ensures xs[i] == ys[i] {
      assert ActSections(xs)[i] == ActSections(ys)[i];
      JoinSplit(xs[i].content);
      JoinSplit(ys[i].content);
    }
  }

  lemma {:induction false} PartsAreGood(acts: seq<Act>, k: Kind)
    requires forall i :: 0 <= i < |acts| ==> GoodContent(acts[i].content)
    ensures PartOfActs(acts, k).Some? ==> GoodContent(PartOfActs(acts, k).value)
    decreases |acts|
  {
    if acts != [] {
      PartsAreGood(acts[..|acts| - 1], k);
    }
  }

  lemma CleanOfPart(r: Reveal, k: Slot)
    requires WellFormed(r)
    ensures Clean(Lookup(SectionsOf(r), k)) == Part(r, k)
  {
    hide Clean, Split, SectionsOf;
    PartsAreFound(r, k);
    if k < 3 {
      PartsAreGood(r.acts, k);
    }
    if Part(r, k).Some? {
      CleanSplit(Part(r, k).value);
    } else {
      CleanIsGood([]);
    }
  }

  lemma PrintedExtracts(r: Reveal)
    requires WellFormed(r)
    ensures Extract(Printed(r)) == Some(r)
  {
    hide Clean, Split, ActsOf, PartOfActs, FenceAfter, Lookup;
    CleanOfPart(r, 0);
    CleanOfPart(r, 1);
    CleanOfPart(r, 2);
    CleanOfPart(r, 3);
    ActsFromParts(r.acts);
    if r.lead.Some? {
      CleanSplit(r.lead.value);
    } else {
      CleanIsGood([]);
    }
  }

  /** Print, then parse: a well-formed and printable reveal comes back unchanged. */
  lemma PrintThenParse(r: Reveal)
    requires WellFormed(r) && Printable(r)
    ensures Parse(Print(r)) == Some(r)
  {
    hide Tidy, Feed, Extract;
    PartitionIsExact(Print(r), Printed(r));
    PrintedExtracts(r);
  }

  // ----- The other half: nothing else comes back -----

  predicate GoodIfAny(content: Option<string>)
  {
    content.Some? ==> GoodContent(content.value)
  }

  lemma ActsOfAreGood(a: Option<string>, b: Option<string>, c: Option<string>)
    requires GoodIfAny(a) && GoodIfAny(b) && GoodIfAny(c)
    ensures forall i :: 0 <= i < |ActsOf(a, b, c)| ==> GoodContent(ActsOf(a, b, c)[i].content)
    ensures forall i, j :: 0 <= i < j < |ActsOf(a, b, c)| ==> ActsOf(a, b, c)[i].kind < ActsOf(a, b, c)[j].kind
  {
    hide GoodContent;
    ActsOfAscend(a, b, c);
  }

  lemma ExtractIsWellFormed(s: State)
    requires Extract(s).Some?
    ensures WellFormed(Extract(s).value)
    ensures s.State? && Clean(s.lead) == Extract(s).value.lead
    ensures forall k: Slot :: Part(Extract(s).value, k) == Clean(Lookup(s.sections, k))
  {
    hide Clean, Lookup, ActsOf, GoodContent, PartOfActs;
    forall lines ensures Clean(lines).Some? ==> GoodContent(Clean(lines).value) {
      CleanIsGood(lines);
    }
    ActsOfAreGood(Clean(Lookup(s.sections, 0)), Clean(Lookup(s.sections, 1)), Clean(Lookup(s.sections, 2)));
    PartsOfActsOf(Clean(Lookup(s.sections, 0)), Clean(Lookup(s.sections, 1)), Clean(Lookup(s.sections, 2)));
  }

  /** Characters, counting one line break a line. */
  function Size(lines: seq<string>): nat
    decreases |lines|
  {
    if lines == [] then 0 else Size(lines[..|lines| - 1]) + |Last(lines)| + 1
  }

  lemma {:induction false} SizeConcat(xs: seq<string>, ys: seq<string>)
    ensures Size(xs + ys) == Size(xs) + Size(ys)
    decreases |ys|
  {
    if ys == [] {
      assert xs + ys == xs;
    } else {
      assert (xs + ys)[..|xs + ys| - 1] == xs + ys[..|ys| - 1];
      SizeConcat(xs, ys[..|ys| - 1]);
    }
  }

  lemma {:induction false} JoinSize(lines: seq<string>)
    requires lines != []
    ensures |Join(lines)| + 1 == Size(lines)
    decreases |lines|
  {
    assert lines == [lines[0]] + lines[1..];
    SizeConcat([lines[0]], lines[1..]);
    assert Size([lines[0]]) == |lines[0]| + 1 by { assert [lines[0]][..0] == []; }
    if |lines| > 1 {
      JoinSize(lines[1..]);
    } else {
      assert lines[1..] == [];
    }
  }

  /** Cleaning never adds characters, and keeps them all only if the lines were clean already. */
  lemma CleanSize(lines: seq<string>, text: string)
    requires Clean(lines) == Some(text)
    ensures lines != [] && Size(lines) >= Size(Split(text))
    ensures Size(lines) == Size(Split(text)) && NoBreaks(lines) ==> lines == Split(text)
  {
    hide Split, Size;
    CleanIsGood([]);
    JoinSize(lines);
    JoinSplit(text);
    JoinSize(Split(text));
    Text.StripRange(Join(lines));
    if Size(lines) == Size(Split(text)) && NoBreaks(lines) {
      assert text == Join(lines);
      SplitJoin(lines);
    }
  }

  function SlotSize(sections: seq<Section>, k: Slot): nat
  {
    match Find(sections, k)
    case Some(lines) => |Marker(k)| + 1 + Size(lines)
    case None => 0
  }

  lemma {:induction false} FindIsBelow(sections: seq<Section>, k: Slot)
    ensures Find(sections, k).Some? ==>
              exists i :: 0 <= i < |sections| && sections[i].order == k && sections[i].lines == Find(sections, k).value
    decreases |sections|
  {
    if sections != [] {
      FindIsBelow(sections[..|sections| - 1], k);
    }
  }

  /** An ascending list splits into its last section and smaller ones. */
  lemma LastIsHighest(sections: seq<Section>, k: Slot)
    requires sections != [] && Ascending(sections) && k >= Last(sections).order
    ensures Find(sections[..|sections| - 1], k) == None
  {
    FindIsBelow(sections[..|sections| - 1], k);
  }

  lemma SizeOfOne(line: string)
    ensures Size([line]) == |line| + 1
  {
    assert [line][..0] == [];
  }

  lemma NoSlots()
    ensures forall k: Slot :: SlotSize([], k) == 0
  {
  }

  lemma SlotsSnoc(sections: seq<Section>, k: Slot)
    requires Ascending(sections) && sections != []
    ensures var rest, last := sections[..|sections| - 1], Last(sections);
            var more := if k == last.order then |Marker(k)| + 1 + Size(last.lines) else 0;
            SlotSize(sections, k) == SlotSize(rest, k) + more
  {
    hide Marker, Size;
    LastIsHighest(sections, Last(sections).order);
  }

  lemma {:induction false} RebuildSize(lead: seq<string>, sections: seq<Section>)
    requires Ascending(sections)
    ensures Size(Rebuild(lead, sections)) == Size(lead) + SlotSize(sections, 0) + SlotSize(sections, 1)
                                             + SlotSize(sections, 2) + SlotSize(sections, 3)
    decreases |sections|
  {
    hide Marker, Size, SlotSize;
    if sections == [] {
      assert forall k: Slot :: SlotSize(sections, k) == 0 by { NoSlots(); }
    } else {
      var rest, last := sections[..|sections| - 1], Last(sections);
      RebuildSize(lead, rest);
      SizeConcat(Rebuild(lead, rest) + [Marker(last.order)], last.lines);
      SizeConcat(Rebuild(lead, rest), [Marker(last.order)]);
      SizeOfOne(Marker(last.order));
      SlotsSnoc(sections, 0);
      SlotsSnoc(sections, 1);
      SlotsSnoc(sections, 2);
      SlotsSnoc(sections, 3);
    }
  }

  predicate SameFinds(a: seq<Section>, b: seq<Section>)
  {
    forall k: Slot :: Find(a, k) == Find(b, k)
  }

  lemma {:induction false} FindDetermines(a: seq<Section>, b: seq<Section>)
    requires Ascending(a) && Ascending(b)
    requires SameFinds(a, b)
    ensures a == b
    decreases |a|
  {
    if a == [] {
      if b != [] {
        assert Find(b, Last(b).order).Some?;
        assert false;
      }
    } else {
      assert Find(a, Last(a).order).Some?;
      FindIsBelow(b, Last(a).order);
      assert Find(b, Last(b).order).Some?;
      FindIsBelow(a, Last(b).order);
      SameTail(a, b);
      var a', b' := a[..|a| - 1], b[..|b| - 1];
      FindDetermines(a', b');
      assert a == a' + [Last(a)] && b == b' + [Last(b)];
    }
  }

  lemma SameTail(a: seq<Section>, b: seq<Section>)
    requires a != [] && b != [] && Ascending(a) && Ascending(b)
    requires exists i :: 0 <= i < |b| && b[i].order == Last(a).order
    requires exists i :: 0 <= i < |a| && a[i].order == Last(b).order
    requires SameFinds(a, b)
    ensures Last(a) == Last(b)
    ensures SameFinds(a[..|a| - 1], b[..|b| - 1])
  {
    assert Last(a).order == Last(b).order;
    LastIsHighest(a, Last(a).order);
    LastIsHighest(b, Last(b).order);
    assert Find(a, Last(a).order) == Some(Last(a).lines);
    var a', b' := a[..|a| - 1], b[..|b| - 1];
    forall k: Slot ensures Find(a', k) == Find(b', k) {
      if k != Last(a).order {
        assert Find(a, k) == Find(a', k) && Find(b, k) == Find(b', k);
      }
    }
  }

  // ----- Line breaks -----

  predicate Printing(c: char)
  {
    '!' <= c <= '~'
  }

  lemma MarkerIsPrinting(k: Slot)
    ensures forall c :: c in Marker(k) ==> Printing(c)
  {
    match k
    case 0 => ActMarkersPrint();
    case 1 => ActMarkersPrint();
    case 2 => MechanismMarkerPrints();
    case 3 =>
  }

  lemma ActMarkersPrint()
    ensures forall c :: c in Marker(0) || c in Marker(1) ==> Printing(c)
  {
    assert forall i :: 0 <= i < 25 ==> Printing(Marker(0)[i]);
    assert forall i :: 0 <= i < 35 ==> Printing(Marker(1)[i]);
  }

  lemma MechanismMarkerPrints()
    ensures forall c :: c in Marker(2) ==> Printing(c)
  {
    assert forall i :: 0 <= i < 38 ==> Printing(Marker(2)[i]);
  }

  lemma {:induction false} BreaksStayApart(lead: seq<string>, sections: seq<Section>, bad: set<char>)
    requires forall c :: c in bad ==> !Printing(c)
    ensures Clear(Rebuild(lead, sections), bad) <==>
            Clear(lead, bad) && forall i :: 0 <= i < |sections| ==> Clear(sections[i].lines, bad)
    decreases |sections|
  {
    hide Marker, Printing;
    if sections != [] {
      var rest, last := sections[..|sections| - 1], Last(sections);
      BreaksStayApart(lead, rest, bad);
      MarkerIsPrinting(last.order);
      var front := Rebuild(lead, rest) + [Marker(last.order)];
      ClearConcat(Rebuild(lead, rest), [Marker(last.order)], bad);
      ClearConcat(front, last.lines, bad);
      assert sections == rest + [last];
    }
  }

  lemma ClearConcat(xs: seq<string>, ys: seq<string>, bad: set<char>)
    ensures Clear(xs + ys, bad) <==> Clear(xs, bad) && Clear(ys, bad)
  {
    var all := xs + ys;
    if Clear(all, bad) {
      forall i, c | 0 <= i < |xs| && c in bad ensures c !in xs[i] {
        assert all[i] == xs[i];
      }
      forall i, c | 0 <= i < |ys| && c in bad ensures c !in ys[i] {
        assert all[|xs| + i] == ys[i];
      }
    }
  }

  lemma PrintHasNoBreaks(r: Reveal)
    ensures NoBreaks(Print(r))
  {
    hide Split;
    BreaksStayApart(Body(r.lead), SectionsOf(r), {'\n'});
    if r.lead.Some? {
      JoinSplit(r.lead.value);
    }
    forall i | 0 <= i < |SectionsOf(r)| ensures NoBreaks(SectionsOf(r)[i].lines) {
      if i < |r.acts| {
        JoinSplit(r.acts[i].content);
      } else {
        JoinSplit(r.synthesis.value);
      }
    }
  }

  // ----- Exactness -----

  lemma SlotIsTight(r: Reveal, s: State, k: Slot)
    requires s.State? && Clean(Lookup(s.sections, k)) == Part(r, k)
    ensures SlotSize(s.sections, k) >= SlotSize(SectionsOf(r), k)
    ensures SlotSize(s.sections, k) == SlotSize(SectionsOf(r), k) && NoBreaks(Lookup(s.sections, k)) ==>
              Find(s.sections, k) == Find(SectionsOf(r), k)
  {
    hide Clean, Split, SectionsOf, Part, Find, Size, Marker;
    PartsAreFound(r, k);
    if Part(r, k).Some? {
      CleanSize(Lookup(s.sections, k), Part(r, k).value);
    }
  }

  lemma LeadIsTight(r: Reveal, s: State)
    requires s.State? && Clean(s.lead) == r.lead
    ensures Size(s.lead) >= Size(Body(r.lead))
    ensures Size(s.lead) == Size(Body(r.lead)) && NoBreaks(s.lead) ==> s.lead == Body(r.lead)
  {
    hide Clean, Split;
    if r.lead.Some? {
      CleanSize(s.lead, r.lead.value);
    } else {
      assert Size([]) == 0;
    }
  }

  lemma SectionsAscend(r: Reveal)
    requires WellFormed(r)
    ensures Ascending(SectionsOf(r))
  {
    hide Split;
  }

  lemma LookupHasNoBreaks(sections: seq<Section>, k: Slot)
    requires forall i :: 0 <= i < |sections| ==> NoBreaks(sections[i].lines)
    ensures NoBreaks(Lookup(sections, k))
  {
    FindIsBelow(sections, k);
  }

  /** A tidy state that rebuilds the printed lines and reads as the reveal is the printed state. */
  lemma OnlyThePrintedState(r: Reveal, s: State)
    requires s.State? && Tidy(s) && Rebuild(s.lead, s.sections) == Print(r) && Extract(s) == Some(r)
    ensures s == Printed(r)
  {
    hide Clean, Split, SectionsOf, Part, Find, Size, Marker, Lookup, Rebuild, SlotSize, Quiet, FenceAfter, Extract,
      Body, WellFormed, Clear;
    ExtractIsWellFormed(s);
    SectionsAscend(r);
    RebuildSize(s.lead, s.sections);
    RebuildSize(Body(r.lead), SectionsOf(r));
    LeadIsTight(r, s);
    PrintHasNoBreaks(r);
    BreaksStayApart(s.lead, s.sections, {'\n'});
    forall k: Slot
      ensures SlotSize(s.sections, k) >= SlotSize(SectionsOf(r), k)
      ensures SlotSize(s.sections, k) == SlotSize(SectionsOf(r), k) ==> Find(s.sections, k) == Find(SectionsOf(r), k)
    {
      SlotIsTight(r, s, k);
      LookupHasNoBreaks(s.sections, k);
    }
    assert SlotSize(s.sections, 0) == SlotSize(SectionsOf(r), 0);
    assert SlotSize(s.sections, 1) == SlotSize(SectionsOf(r), 1);
    assert SlotSize(s.sections, 2) == SlotSize(SectionsOf(r), 2);
    assert SlotSize(s.sections, 3) == SlotSize(SectionsOf(r), 3);
    FindDetermines(s.sections, SectionsOf(r));
  }

  /** The round trip succeeds exactly on well-formed, printable reveals. */
  lemma RoundTripDecided(r: Reveal)
    ensures Parse(Print(r)) == Some(r) <==> WellFormed(r) && Printable(r)
  {
    hide Tidy, Feed, Extract, Rebuild, WellFormed;
    if WellFormed(r) && Printable(r) {
      PrintThenParse(r);
    }
    if Parse(Print(r)) == Some(r) {
      var s := Feed(START, Print(r));
      assert s.State? by { RejectedYieldsNone(); }
      PartitionIsExact(Print(r), s);
      ExtractIsWellFormed(s);
      OnlyThePrintedState(r, s);
    }
  }

  lemma RejectedYieldsNone()
    ensures Extract(Rejected) == None
  {
  }

  /** What the parser returns can be printed and parsed again exactly when it is printable. */
  lemma ReparseDecided(lines: seq<string>)
    requires Parse(lines).Some?
    ensures Parse(Print(Parse(lines).value)) == Parse(lines) <==> Printable(Parse(lines).value)
  {
    hide Tidy, Feed, Extract, Rebuild, WellFormed, Print;
    ExtractIsWellFormed(Feed(START, lines));
    RoundTripDecided(Parse(lines).value);
  }

  /** Stripping can uncover a marker: an indented one is text the first time and a marker the second. */
  lemma IndentedMarkerIsUncovered(lines: seq<string>)
    requires lines == [Marker(0), " " + Marker(3)]
    ensures Parse(lines) == Some(Reveal(None, [Act(0, Marker(3))], None))
    ensures Parse(Print(Parse(lines).value)) != Parse(lines)
  {
    IndentedParses(lines);
    var r := Reveal(None, [Act(0, Marker(3))], None);
    IndentedIsUnprintable(r);
    RoundTripDecided(r);
  }

  lemma IndentedParses(lines: seq<string>)
    requires lines == [Marker(0), " " + Marker(3)]
    ensures Parse(lines) == Some(Reveal(None, [Act(0, Marker(3))], None))
  {
    hide FenceAfter, Tidy, Feed, Extract, Clean, Step, Text.Trimmed;
    var indented := " " + Marker(3);
    IndentedIsText(indented);
    assert Text.Trimmed(Marker(3)) by { MarkerIsTrimmed(); }
    assert |Marker(3)| == 24;
    IndentedCleans(Marker(3));
    OneLineParses(indented, Marker(3));
  }

  lemma MarkerIsTrimmed()
    ensures Text.Trimmed(Marker(3))
  {
    assert |Marker(3)| == 24 && Marker(3)[0] == '[' && Marker(3)[23] == ']';
  }

  lemma IndentedIsText(indented: string)
    requires indented == " " + Marker(3)
    ensures OpeningFence(indented) == None && !IsMarkerLine(indented)
  {
    assert |Marker(3)| == 24 && Marker(3)[0] == '[';
    assert indented[0] == ' ' && indented[1] == '[';
    assert Marker(0)[0] == '[' && Marker(1)[0] == '[' && Marker(2)[0] == '[' && PREFIX[0] == '[';
    assert RunLength(indented, 0, ' ') == 1 by { RunIs(indented, 0, ' ', 1); }
  }

  lemma OneLineFeeds(line: string)
    requires OpeningFence(line) == None && !IsMarkerLine(line)
    ensures Feed(START, [Marker(0), line]) == State([], [Section(0, [line])], None)
  {
    hide Marker, OpeningFence, OrderOf, LooksLikeMarker;
    MarkerOpensNoFence(0);
    var s1 := State([], [Section(0, [])], None);
    var s2 := State([], [Section(0, [line])], None);
    assert Step(START, Marker(0)) == s1;
    assert s1.sections[..0] == [] && Section(0, []).lines + [line] == [line];
    assert Step(s1, line) == s2;
    assert [Marker(0), line][1..] == [line] && [line][1..] == [];
    assert Feed(START, [Marker(0), line]) == Feed(s1, [line]) == Feed(s2, []) == s2;
  }

  lemma OneLineParses(line: string, content: string)
    requires OpeningFence(line) == None && !IsMarkerLine(line) && Clean([line]) == Some(content)
    ensures Parse([Marker(0), line]) == Some(Reveal(None, [Act(0, content)], None))
  {
    hide Marker, OpeningFence, IsMarkerLine, Clean, Feed;
    OneLineFeeds(line);
    CleanIsGood([]);
    var sections := [Section(0, [line])];
    assert sections[..0] == [] && Last(sections) == Section(0, [line]);
    forall k: Slot ensures Find(sections, k) == if k == 0 then Some([line]) else None {
      assert Find([], k) == None;
      assert k != 0 ==> Find(sections, k) == Find(sections[..0], k);
    }
    assert Find(sections, 0) == Some([line]) && Find(sections, 1) == Find(sections, 2) == Find(sections, 3) == None;
    assert ActsOf(Some(content), None, None) == [Act(0, content)];
  }

  lemma IndentedCleans(text: string)
    requires GoodContent(text)
    ensures Clean([" " + text]) == Some(text)
  {
    var indented := " " + text;
    assert Join([indented]) == indented;
    assert indented[1] == text[0] && indented[|text|] == text[|text| - 1];
    Text.InkIsInside(indented, 1);
    Text.InkIsInside(indented, |text|);
    assert indented[1..|text| + 1] == text;
  }

  lemma IndentedIsUnprintable(r: Reveal)
    requires r == Reveal(None, [Act(0, Marker(3))], None)
    ensures !Printable(r)
  {
    hide Marker;
    MarkerIsPrinting(3);
    MarkerOpensNoFence(3);
    SplitJoin([Marker(3)]);
    assert SectionsOf(r)[0].lines == [Marker(3)];
    assert [Marker(3)][..0] == [];
    assert !PlainAt([Marker(3)], 0);
    assert !Quiet([Marker(3)]);
  }
}
