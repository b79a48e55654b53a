/**
 The reveal parser on text: lines are what `str.splitlines` yields. Printing to text and parsing
 back succeeds under the conditions for lines and one more, that contents use no line break
 other than the line feed.
 */
module RevealText {
  import opened Wrappers
  import opened RevealParser
  import opened RevealPartition
  import opened RevealRoundTrip
  import Text

  /** The characters `str.splitlines` breaks at. */
  const BREAKS: set<char> :=
    {'\n', '\r', '\U{0B}', '\U{0C}', '\U{1C}', '\U{1D}', '\U{1E}', '\U{85}', '\U{2028}', '\U{2029}'}

  /** The first break, or the length. */
  function FirstBreak(text: string): (n: nat)
    ensures n <= |text|
    ensures forall i :: 0 <= i < n ==> text[i] !in BREAKS
    ensures n < |text| ==> text[n] in BREAKS
  {
    if text == [] || text[0] in BREAKS then 0 else 1 + FirstBreak(text[1..])
  }

  /** `str.splitlines`: a carriage return with a line feed is one break, and a final break ends no line. */
  function SplitLines(text: string): seq<string>
    decreases |text|
  {
    var n := FirstBreak(text);
    if text == [] then []
    else if n == |text| then [text]
    else
      var behind := if text[n] == '\r' && n + 1 < |text| && text[n + 1] == '\n' then n + 2 else n + 1;
      [text[..n]] + SplitLines(text[behind..])
  }

  /** `parse_magicforge_reveal`. */
  method ParseReveal(raw: string) returns (r: Option<Reveal>)
    ensures r == ParseText(raw)
  {
    r := ParseLines(SplitLines(raw));
  }

  function ParseText(raw: string): Option<Reveal>
  {
    Parse(SplitLines(raw))
  }

  function PrintText(r: Reveal): string
  {
    Join(Print(r))
  }

  // ----- Line breaks -----

  /** A carriage return with its line feed, or one break character before anything that it does not pair with. */
  predicate IsBreak(br: string, rest: string)
  {
    || br == "\r\n"
    || (br == "\r" && !("\n" <= rest))
    || br == "\n" || br == "\U{0B}" || br == "\U{0C}" || br == "\U{1C}" || br == "\U{1D}" || br == "\U{1E}"
    || br == "\U{85}" || br == "\U{2028}" || br == "\U{2029}"
  }

  predicate IsUnbroken(line: string)
  {
    forall i :: 0 <= i < |line| ==>
      line[i] != '\n' && line[i] != '\r' && line[i] != '\U{0B}' && line[i] != '\U{0C}' && line[i] != '\U{1C}'
      && line[i] != '\U{1D}' && line[i] != '\U{1E}' && line[i] != '\U{85}' && line[i] != '\U{2028}'
      && line[i] != '\U{2029}'
  }

  lemma {:induction false} UnbrokenPrefix(line: string, behind: string)
    requires IsUnbroken(line) && (behind == "" || behind[0] in BREAKS)
    ensures FirstBreak(line + behind) == |line|
  {
    if line == "" {
      assert line + behind == behind;
    } else {
      assert (line + behind)[1..] == line[1..] + behind;
      UnbrokenPrefix(line[1..], behind);
    }
  }

  /** The first break ends the first line, and the rest is split in turn; without a break there is one line. */
  lemma LinesDecided(line: string, br: string, rest: string)
    requires IsUnbroken(line)
    ensures SplitLines(line) == if line == "" then [] else [line]
    ensures IsBreak(br, rest) ==> SplitLines(line + br + rest) == [line] + SplitLines(rest)
  {
    UnbrokenPrefix(line, "");
    assert line + "" == line;
    if IsBreak(br, rest) {
      UnbrokenPrefix(line, br + rest);
      var text := line + br + rest;
      assert text == line + (br + rest) && text[..|line|] == line && text[|line|] == br[0];
      assert text[|line| + |br|..] == rest;
      assert text[|line|..] == br + rest;
    }
  }

  // ----- Lines of a text -----

  lemma {:induction false} LinesAreClear(text: string)
    ensures Clear(SplitLines(text), BREAKS)
    decreases |text|
  {
    var n := FirstBreak(text);
    if n < |text| {
      var behind := if text[n] == '\r' && n + 1 < |text| && text[n + 1] == '\n' then n + 2 else n + 1;
      LinesAreClear(text[behind..]);
      ClearConcat([text[..n]], SplitLines(text[behind..]), BREAKS);
    }
  }

  lemma FirstBreakIs(line: string, rest: string)
    requires forall c :: c in BREAKS ==> c !in line
    ensures FirstBreak(line + "\n" + rest) == |line|
    ensures FirstBreak(line) == |line|
  {
    var text := line + "\n" + rest;
    assert text[|line|] == '\n';
    assert forall i :: 0 <= i < |line| ==> text[i] == line[i] && line[i] in line;
  }

  /** Splitting joined lines gives them back, except that a final empty line leaves no trace. */
  lemma {:induction false} SplitLinesJoin(lines: seq<string>)
    requires lines != [] && Clear(lines, BREAKS)
    ensures SplitLines(Join(lines)) == if Last(lines) == "" then lines[..|lines| - 1] else lines
    decreases |lines|
  {
    hide Join, SplitLines, FirstBreak, Clear;
    var first, rest := lines[0], lines[1..];
    assert lines == [first] + rest;
    JoinCons(first, rest);
    ClearConcat([first], rest, BREAKS);
    assert forall c :: c in BREAKS ==> c !in first by { OneIsClear(first); }
    if rest == [] {
      assert lines == [first];
      LineSplits(first);
    } else {
      SplitLinesJoin(rest);
      JoinedSplits(first, Join(rest));
      assert lines[..|lines| - 1] == [first] + rest[..|rest| - 1];
    }
  }

  lemma OneIsClear(line: string)
    requires Clear([line], BREAKS)
    ensures forall c :: c in BREAKS ==> c !in line
  {
    assert [line][0] == line;
  }

  lemma LineSplits(line: string)
    requires forall c :: c in BREAKS ==> c !in line
    ensures SplitLines(line) == if line == "" then [] else [line]
  {
    FirstBreakIs(line, "");
  }

  lemma JoinedSplits(line: string, rest: string)
    requires forall c :: c in BREAKS ==> c !in line
    ensures SplitLines(line + "\n" + rest) == [line] + SplitLines(rest)
  {
    FirstBreakIs(line, rest);
    var text := line + "\n" + rest;
    assert text[..|line|] == line && text[|line|] == '\n' && text[|line| + 1..] == rest;
  }

  // ----- Contents -----

  /** The only line break in the text is the line feed. */
  predicate OnlyFeeds(text: string)
  {
    forall c :: c in BREAKS && c != '\n' ==> c !in text
  }

  predicate FeedsIfAny(content: Option<string>)
  {
    content.Some? ==> OnlyFeeds(content.value)
  }

  predicate PlainBreaks(r: Reveal)
  {
    && FeedsIfAny(r.lead) && FeedsIfAny(r.synthesis)
    && (forall i :: 0 <= i < |r.acts| ==> OnlyFeeds(r.acts[i].content))
  }

  lemma {:induction false} SplitIsClear(text: string, bad: set<char>)
    requires forall c :: c in bad && c != '\n' ==> c !in text
    ensures Clear(Split(text), bad - {'\n'})
    decreases |text|
  {
    if text != [] {
      SplitIsClear(text[1..], bad);
      var rest := Split(text[1..]);
      assert text[0] in text;
      assert forall i :: 0 < i < |rest| ==> rest[1..][i - 1] == rest[i];
    }
  }

  lemma SplitHasNoBreak(text: string)
    requires OnlyFeeds(text)
    ensures Clear(Split(text), BREAKS)
  {
    hide Split, Join, OnlyFeeds;
    assert forall c :: c in BREAKS && c != '\n' ==> c !in text by { FeedsMeans(text); }
    SplitIsClear(text, BREAKS);
    JoinSplit(text);
    UnionIsClear(Split(text), BREAKS);
  }

  lemma FeedsMeans(text: string)
    requires OnlyFeeds(text)
    ensures forall c :: c in BREAKS && c != '\n' ==> c !in text
  {
  }

  lemma UnionIsClear(lines: seq<string>, bad: set<char>)
    requires Clear(lines, bad - {'\n'}) && NoBreaks(lines)
    ensures Clear(lines, bad)
  {
    forall i, c | 0 <= i < |lines| && c in bad ensures c !in lines[i] {
      assert c in bad - {'\n'} || c in {'\n'};
    }
  }

  lemma PrintIsClear(r: Reveal)
    requires PlainBreaks(r)
    ensures Clear(Print(r), BREAKS)
  {
    hide Split, OnlyFeeds, Clear, Printing;
    assert forall c :: c in BREAKS ==> !Printing(c) by { BreaksDoNotPrint(); }
    BreaksStayApart(Body(r.lead), SectionsOf(r), BREAKS);
    if r.lead.Some? {
      SplitHasNoBreak(r.lead.value);
    } else {
      NothingIsClear();
    }
    forall i | 0 <= i < |SectionsOf(r)| ensures Clear(SectionsOf(r)[i].lines, BREAKS) {
      if i < |r.acts| {
        SplitHasNoBreak(r.acts[i].content);
      } else {
        SplitHasNoBreak(r.synthesis.value);
      }
    }
  }

  lemma BreaksDoNotPrint()
    ensures forall c :: c in BREAKS ==> !Printing(c)
  {
  }

  lemma NothingIsClear()
    ensures Clear([], BREAKS)
  {
  }

  /** A text that does not end in a space splits into lines of which the last is not empty. */
  lemma {:induction false} LastLineIsInked(text: string)
    requires GoodContent(text)
    ensures Last(Split(text)) != ""
  {
    JoinSplit(text);
    assert Text.IsSpace('\n');
    var lines := Split(text);
    if Last(lines) == "" && |lines| > 1 {
      JoinEndsInBreak(lines);
    }
  }

  lemma {:induction false} JoinEndsInBreak(lines: seq<string>)
    requires |lines| > 1 && Last(lines) == ""
    ensures Join(lines) != "" && Join(lines)[|Join(lines)| - 1] == '\n'
    decreases |lines|
  {
    hide Join;
    var first, rest := lines[0], lines[1..];
    assert lines == [first] + rest;
    JoinCons(first, rest);
    if |lines| > 2 {
      JoinEndsInBreak(rest);
    } else {
      assert rest == [""];
      JoinCons("", []);
    }
  }

  lemma PrintEndsInked(r: Reveal)
    requires WellFormed(r)
    ensures Print(r) != [] && Last(Print(r)) != ""
  {
    hide Split, GoodContent, Marker;
    var sections := SectionsOf(r);
    var last := Last(sections);
    if r.synthesis.Some? {
      LastLineIsInked(r.synthesis.value);
    } else {
      LastLineIsInked(Last(r.acts).content);
    }
    assert Last(last.lines) != "";
    assert Last(Print(r)) == Last(last.lines);
  }

  lemma TextHasPrintedLines(r: Reveal)
    requires WellFormed(r) && PlainBreaks(r)
    ensures SplitLines(PrintText(r)) == Print(r)
  {
    hide Split, Clear, WellFormed, PlainBreaks, Print, Join, SplitLines;
    PrintIsClear(r);
    PrintEndsInked(r);
    SplitLinesJoin(Print(r));
  }

  // ----- What a parse of text yields -----

  lemma {:induction false} JoinOnlyFeeds(lines: seq<string>)
    requires Clear(lines, BREAKS)
    ensures OnlyFeeds(Join(lines))
    decreases |lines|
  {
    if |lines| > 1 {
      assert lines == [lines[0]] + lines[1..];
      ClearConcat([lines[0]], lines[1..], BREAKS);
      JoinOnlyFeeds(lines[1..]);
    }
  }

  lemma CleanOnlyFeeds(lines: seq<string>)
    requires Clear(lines, BREAKS)
    ensures FeedsIfAny(Clean(lines))
  {
    hide Join;
    JoinOnlyFeeds(lines);
    Text.StripRange(Join(lines));
  }

  lemma ParsedHasPlainBreaks(raw: string)
    requires ParseText(raw).Some?
    ensures WellFormed(ParseText(raw).value) && PlainBreaks(ParseText(raw).value)
  {
    hide Clear, Clean, WellFormed, Lookup, Rebuild, Tidy, Part, OnlyFeeds, Extract, Feed, SplitLines, Printing;
    var lines := SplitLines(raw);
    var s := Feed(START, lines);
    var r := ParseText(raw).value;
    LinesAreClear(raw);
    ExtractIsWellFormed(s);
    PartitionIsExact(lines, s);
    assert forall c :: c in BREAKS ==> !Printing(c) by { BreaksDoNotPrint(); }
    BreaksStayApart(s.lead, s.sections, BREAKS);
    CleanOnlyFeeds(s.lead);
    forall k: Slot ensures FeedsIfAny(Part(r, k)) {
      LookupIsClear(s.sections, k);
      CleanOnlyFeeds(Lookup(s.sections, k));
    }
    PartsAreFeeds(r);
  }

  lemma LookupIsClear(sections: seq<Section>, k: Slot)
    requires forall i :: 0 <= i < |sections| ==> Clear(sections[i].lines, BREAKS)
    ensures Clear(Lookup(sections, k), BREAKS)
  {
    FindIsBelow(sections, k);
  }

  lemma PartsAreFeeds(r: Reveal)
    requires WellFormed(r) && FeedsIfAny(r.lead) && forall k: Slot :: FeedsIfAny(Part(r, k))
    ensures PlainBreaks(r)
  {
    hide OnlyFeeds, PartOfActs, GoodContent;
    forall i | 0 <= i < |r.acts| ensures OnlyFeeds(r.acts[i].content) {
      ActIsPart(r.acts, i);
      assert FeedsIfAny(Part(r, r.acts[i].kind));
    }
    assert FeedsIfAny(Part(r, SYNTHESIS));
  }

  lemma {:induction false} ActIsPart(acts: seq<Act>, i: nat)
    requires i < |acts| && forall j, k :: 0 <= j < k < |acts| ==> acts[j].kind < acts[k].kind
    ensures PartOfActs(acts, acts[i].kind) == Some(acts[i].content)
    decreases |acts|
  {
    if i < |acts| - 1 {
      ActIsPart(acts[..|acts| - 1], i);
    }
  }

  /** On text, the round trip succeeds exactly on well-formed, printable reveals without exotic line breaks. */
  lemma TextRoundTripDecided(r: Reveal)
    ensures ParseText(PrintText(r)) == Some(r) <==> WellFormed(r) && Printable(r) && PlainBreaks(r)
  {
    hide WellFormed, Printable, PlainBreaks, Parse, Print, SplitLines, Join;
    if ParseText(PrintText(r)) == Some(r) {
      ParsedHasPlainBreaks(PrintText(r));
    }
    if WellFormed(r) && PlainBreaks(r) {
      TextHasPrintedLines(r);
      RoundTripDecided(r);
    }
  }
}
