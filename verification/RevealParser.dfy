/**
 The layered-reveal parser (app/reveal_parser.py): a state machine over lines with strict
 markers and Markdown code fences. A line is a string without line breaks, as `splitlines`
 yields it. The fence rule is the program's own: unlike CommonMark 0.31.2, section 4.5, an
 opening fence may carry any info string.
 */
module RevealParser {
  import opened Wrappers
  import Text

  // ----- Lines -----

  type Slot = n: nat | n < 4
  type Kind = n: nat | n < 3

  /** The four markers in their required order: three acts, then the synthesis. */
  function Marker(order: Slot): string
  {
    match order
    case 0 => "[[MAGICFORGE_ACT:EFFECT]]"
    case 1 => "[[MAGICFORGE_ACT:HIDDEN_STRUCTURE]]"
    case 2 => "[[MAGICFORGE_ACT:COGNITIVE_MECHANISM]]"
    case _ => "[[MAGICFORGE_SYNTHESIS]]"
  }

  const SYNTHESIS: Slot := 3

  /** The position of a line that is exactly a marker. */
  function OrderOf(line: string): Option<Slot>
  {
    if line == Marker(0) then Some(0)
    else if line == Marker(1) then Some(1)
    else if line == Marker(2) then Some(2)
    else if line == Marker(3) then Some(3)
    else None
  }

  const PREFIX := "[[MAGICFORGE_"

  /** The whole line reads as a MagicForge marker, known or not. */
  predicate LooksLikeMarker(line: string)
  {
    var n := |line|;
    && n > |PREFIX| + 2 && PREFIX <= line && line[n - 2] == ']' && line[n - 1] == ']'
    && (forall i :: |PREFIX| <= i < n - 2 ==> line[i] != '[' && line[i] != ']' && line[i] != '\r' && line[i] != '\n')
  }

  /** How many `c` stand in a row from position `i`. */
  function RunLength(line: string, i: nat, c: char): (n: nat)
    requires i <= |line|
    ensures i + n <= |line|
    ensures forall j :: i <= j < i + n ==> line[j] == c
    ensures i + n < |line| ==> line[i + n] != c
    decreases |line| - i
  {
    if i < |line| && line[i] == c then 1 + RunLength(line, i + 1, c) else 0
  }

  datatype Fence = Fence(mark: char, length: nat)

  /** Up to three spaces and a run of at least three backticks or tildes; anything may follow. */
  function OpeningFence(line: string): Option<Fence>
  {
    var indent := RunLength(line, 0, ' ');
    if indent > 3 || indent == |line| || (line[indent] != '`' && line[indent] != '~') then None
    else
      var run := RunLength(line, indent, line[indent]);
      if run >= 3 then Some(Fence(line[indent], run)) else None
  }

  /** The same mark, at least as long, and nothing behind it but spaces and tabs. */
  predicate IsClosing(line: string, fence: Fence)
  {
    var indent := RunLength(line, 0, ' ');
    var run := RunLength(line, indent, fence.mark);
    && indent <= 3 && run >= 1 && run >= fence.length
    && (forall i :: indent + run <= i < |line| ==> line[i] == ' ' || line[i] == '\t')
  }

  /** `indent` spaces, then `length` times `c` and no more, as the opening pattern reads them. */
  predicate OpensWith(line: string, indent: nat, c: char, length: nat)
  {
    && indent <= 3 && length >= 3 && (c == '`' || c == '~') && indent + length <= |line|
    && (forall i :: 0 <= i < indent ==> line[i] == ' ')
    && (forall i :: indent <= i < indent + length ==> line[i] == c)
    && (indent + length < |line| ==> line[indent + length] != c)
  }

  lemma OpeningFenceMatches(line: string, c: char, length: nat)
    ensures OpeningFence(line) == Some(Fence(c, length)) <==> exists indent :: OpensWith(line, indent, c, length)
  {
    if indent :| OpensWith(line, indent, c, length) {
      assert RunLength(line, 0, ' ') == indent by { RunIs(line, 0, ' ', indent); }
      RunIs(line, indent, c, length);
    }
    if OpeningFence(line) == Some(Fence(c, length)) {
      assert OpensWith(line, RunLength(line, 0, ' '), c, length);
    }
  }

  /** A closing line: `indent` spaces, `run` marks of the fence, then only blanks. */
  predicate ClosesWith(line: string, indent: nat, run: nat, fence: Fence)
  {
    && indent <= 3 && run >= 1 && run >= fence.length && indent + run <= |line|
    && (forall i :: 0 <= i < indent ==> line[i] == ' ')
    && (forall i :: indent <= i < indent + run ==> line[i] == fence.mark)
    && (forall i :: indent + run <= i < |line| ==> line[i] == ' ' || line[i] == '\t')
  }

  lemma ClosingFenceMatches(line: string, fence: Fence)
    requires fence.mark == '`' || fence.mark == '~'
    ensures IsClosing(line, fence) <==> exists indent, run :: ClosesWith(line, indent, run, fence)
  {
    if indent, run :| ClosesWith(line, indent, run, fence) {
      assert RunLength(line, 0, ' ') == indent by { RunIs(line, 0, ' ', indent); }
      RunIs(line, indent, fence.mark, run);
    }
    if IsClosing(line, fence) {
      var indent := RunLength(line, 0, ' ');
      assert ClosesWith(line, indent, RunLength(line, indent, fence.mark), fence);
    }
  }

  lemma {:induction false} RunIs(line: string, i: nat, c: char, n: nat)
    requires i + n <= |line|
    requires forall j :: i <= j < i + n ==> line[j] == c
    requires i + n < |line| ==> line[i + n] != c
    ensures RunLength(line, i, c) == n
    decreases n
  {
    if n > 0 {
      RunIs(line, i + 1, c, n - 1);
    }
  }

  // ----- The machine -----

  datatype Section = Section(order: Slot, lines: seq<string>)

  /** `sections` is the insertion-ordered dictionary of sections; its last one is active. */
  datatype State =
    | State(lead: seq<string>, sections: seq<Section>, fence: Option<Fence>)
    | Rejected

  const START := State([], [], None)

  function Last<T>(xs: seq<T>): T
    requires xs != []
  {
    xs[|xs| - 1]
  }

  function Append(s: State, line: string): (r: State)
    requires s.State?
    ensures r.State?
  {
    if s.sections == [] then s.(lead := s.lead + [line])
    else
      var active := Last(s.sections);
      s.(sections := s.sections[..|s.sections| - 1] + [active.(lines := active.lines + [line])])
  }

  /** The fence that is open behind `line`. */
  function NextFence(fence: Option<Fence>, line: string): Option<Fence>
  {
    match fence
    case Some(open) => if IsClosing(line, open) then None else fence
    case None => OpeningFence(line)
  }

  function Step(s: State, line: string): State
  {
    if s.Rejected? then s
    else if s.fence.Some? || OpeningFence(line).Some? then
      var appended := Append(s, line);
      appended.(fence := NextFence(s.fence, line))
    else if OrderOf(line).Some? then
      if s.sections != [] && OrderOf(line).value <= Last(s.sections).order then Rejected
      else s.(sections := s.sections + [Section(OrderOf(line).value, [])])
    else if LooksLikeMarker(line) then Rejected
    else Append(s, line)
  }

  function Feed(s: State, lines: seq<string>): State
    decreases |lines|
  {
    if lines == [] then s else Feed(Step(s, lines[0]), lines[1..])
  }

  // ----- Contents -----

  function Join(lines: seq<string>): string
  {
    Text.JoinWith(lines, '\n')
  }

  /** `_clean`. */
  function Clean(lines: seq<string>): Option<string>
  {
    if Text.Strip(Join(lines)) == "" then None else Some(Text.Strip(Join(lines)))
  }

  function Find(sections: seq<Section>, order: Slot): Option<seq<string>>
    decreases |sections|
  {
    if sections == [] then None
    else if Last(sections).order == order then Some(Last(sections).lines)
    else Find(sections[..|sections| - 1], order)
  }

  function Lookup(sections: seq<Section>, order: Slot): seq<string>
  {
    match Find(sections, order)
    case Some(lines) => lines
    case None => []
  }

  datatype Act = Act(kind: Kind, content: string)

  datatype Reveal = Reveal(lead: Option<string>, acts: seq<Act>, synthesis: Option<string>)

  function ActIf(kind: Kind, content: Option<string>): seq<Act>
  {
    if content.Some? then [Act(kind, content.value)] else []
  }

  function ActsOf(effect: Option<string>, structure: Option<string>, mechanism: Option<string>): seq<Act>
  {
    ActIf(0, effect) + ActIf(1, structure) + ActIf(2, mechanism)
  }

  /** What is read off the final state. */
  function Extract(s: State): Option<Reveal>
  {
    if s.Rejected? || s.sections == [] then None
    else
      var acts := ActsOf(Clean(Lookup(s.sections, 0)), Clean(Lookup(s.sections, 1)), Clean(Lookup(s.sections, 2)));
      if acts == [] then None
      else Some(Reveal(Clean(s.lead), acts, Clean(Lookup(s.sections, SYNTHESIS))))
  }

  /** `parse_magicforge_reveal` on the lines of its input. */
  function Parse(lines: seq<string>): Option<Reveal>
  {
    Extract(Feed(START, lines))
  }

  lemma {:induction false} RejectedStays(lines: seq<string>)
    ensures Feed(Rejected, lines) == Rejected
    decreases |lines|
  {
    if lines != [] {
      RejectedStays(lines[1..]);
    }
  }

  lemma {:induction false} FeedConcat(s: State, xs: seq<string>, ys: seq<string>)
    ensures Feed(s, xs + ys) == Feed(Feed(s, xs), ys)
    decreases |xs|
  {
    hide Step;
    if xs == [] {
      assert xs + ys == ys;
    } else {
      assert (xs + ys)[1..] == xs[1..] + ys;
      FeedConcat(Step(s, xs[0]), xs[1..], ys);
    }
  }

  /** The loop of the parser. */
  method ParseLines(lines: seq<string>) returns (r: Option<Reveal>)
    ensures r == Parse(lines)
  {
    hide IsClosing, OpeningFence, OrderOf, LooksLikeMarker, Clean, Lookup;
    var leadLines: seq<string> := [];
    var sectionLines: seq<Section> := [];
    var fence: Option<Fence> := None;
    for n := 0 to |lines|
      invariant Feed(START, lines) == Feed(State(leadLines, sectionLines, fence), lines[n..])
    {
      ghost var before := State(leadLines, sectionLines, fence);
      var line := lines[n];
      assert lines[n..][0] == line && lines[n..][1..] == lines[n + 1..];
      assert Feed(START, lines) == Feed(Step(before, line), lines[n + 1..]);
      if fence.Some? {
        leadLines, sectionLines := AppendLine(leadLines, sectionLines, line);
        if IsClosing(line, fence.value) {
          fence := None;
        }
        continue;
      }
      if OpeningFence(line).Some? {
        fence := OpeningFence(line);
        leadLines, sectionLines := AppendLine(leadLines, sectionLines, line);
        continue;
      }
      if OrderOf(line).Some? {
        var order := OrderOf(line).value;
        if sectionLines != [] && order <= Last(sectionLines).order {
          RejectedStays(lines[n + 1..]);
          return None;
        }
        sectionLines := sectionLines + [Section(order, [])];
        continue;
      }
      if LooksLikeMarker(line) {
        RejectedStays(lines[n + 1..]);
        return None;
      }
      leadLines, sectionLines := AppendLine(leadLines, sectionLines, line);
    }
    assert lines[|lines|..] == [];
    r := Extract(State(leadLines, sectionLines, fence));
  }

  /** `_append_line`. */
  method AppendLine(lead: seq<string>, sections: seq<Section>, line: string)
    returns (lead': seq<string>, sections': seq<Section>)
    ensures forall fence :: State(lead', sections', fence) == Append(State(lead, sections, fence), line)
  {
    lead', sections' := lead, sections;
    if sections == [] {
      lead' := lead + [line];
    } else {
      var active := Last(sections);
      sections' := sections[..|sections| - 1] + [active.(lines := active.lines + [line])];
    }
  }
}
