/** Character-level helpers: whitespace as `str.isspace` sees it, `str.strip`, `str.casefold`, splitting. */
module Text {

  predicate IsSpace(c: char)
  {
    var n := c as int;
    || 9 <= n <= 13 || 28 <= n <= 32 || n == 0x85 || n == 0xA0 || n == 0x1680
    || 0x2000 <= n <= 0x200A || n == 0x2028 || n == 0x2029 || n == 0x202F
    || n == 0x205F || n == 0x3000
  }

  /** The separators of ASCII, the control characters among them, and the spaces of Unicode. */
  lemma SpaceDecided(c: char)
    ensures IsSpace(c) <==>
      || c == '\t' || c == '\n' || c == '\U{0B}' || c == '\U{0C}' || c == '\r' || c == ' '
      || c == '\U{1C}' || c == '\U{1D}' || c == '\U{1E}' || c == '\U{1F}' || c == '\U{85}' || c == '\U{A0}'
      || c == '\U{1680}' || '\U{2000}' <= c <= '\U{200A}' || c == '\U{2028}' || c == '\U{2029}'
      || c == '\U{202F}' || c == '\U{205F}' || c == '\U{3000}'
  {
  }

  predicate Blank(s: string)
  {
    forall i :: 0 <= i < |s| ==> IsSpace(s[i])
  }

  /** No whitespace at either end. */
  predicate Trimmed(s: string)
  {
    s == [] || (!IsSpace(s[0]) && !IsSpace(s[|s| - 1]))
  }

  /** How many leading characters are whitespace. */
  function Lead(s: string): (n: nat)
    ensures n <= |s|
    ensures forall i :: 0 <= i < n ==> IsSpace(s[i])
    ensures n < |s| ==> !IsSpace(s[n])
  {
    if s == [] || !IsSpace(s[0]) then 0 else 1 + Lead(s[1..])
  }

  /** The length left once trailing whitespace is gone. */
  function Trail(s: string): (n: nat)
    ensures n <= |s|
    ensures forall i :: n <= i < |s| ==> IsSpace(s[i])
    ensures n > 0 ==> !IsSpace(s[n - 1])
  {
    if s == [] || !IsSpace(s[|s| - 1]) then |s| else Trail(s[..|s| - 1])
  }

  function Strip(s: string): string
  {
    if Lead(s) >= Trail(s) then [] else s[Lead(s)..Trail(s)]
  }

  /** Every character that is not whitespace survives stripping. */
  lemma {:induction false} InkIsInside(s: string, i: nat)
    requires i < |s| && !IsSpace(s[i])
    ensures Lead(s) <= i < Trail(s)
  {
  }

  lemma {:induction false} BlankIsEmpty(s: string)
    ensures Blank(s) <==> Strip(s) == []
    ensures !Blank(s) ==> Lead(s) < Trail(s)
  {
    if Blank(s) {
      assert Lead(s) == |s|;
    } else {
      var i :| 0 <= i < |s| && !IsSpace(s[i]);
      InkIsInside(s, i);
    }
  }

  /** `Strip` cuts a whitespace prefix and a whitespace suffix, and nothing else. */
  lemma {:induction false} StripRange(s: string)
    ensures Blank(s) <==> Strip(s) == []
    ensures !Blank(s) ==> Lead(s) < Trail(s) && Strip(s) == s[Lead(s)..Trail(s)]
    ensures Trimmed(Strip(s)) && |Strip(s)| <= |s|
  {
    hide IsSpace, Blank;
    BlankIsEmpty(s);
    var a, b := Lead(s), Trail(s);
    if a < b {
      assert Strip(s)[0] == s[a] && Strip(s)[b - a - 1] == s[b - 1];
    }
  }

  /** Text that is already trimmed is left alone. */
  lemma {:induction false} StripTrimmed(s: string)
    requires Trimmed(s)
    ensures Strip(s) == s
  {
  }

  lemma SpaceLead(s: string)
    ensures Lead(" " + s) == Lead(s) + 1
  {
    assert IsSpace(' ');
    assert (" " + s)[1..] == s;
  }

  lemma {:induction false} SpaceTrail(s: string)
    requires Trail(s) > 0
    ensures Trail(" " + s) == Trail(s) + 1
    decreases |s|
  {
    hide IsSpace;
    var t := " " + s;
    assert t[|t| - 1] == s[|s| - 1];
    if IsSpace(s[|s| - 1]) {
      assert t[..|t| - 1] == " " + s[..|s| - 1];
      SpaceTrail(s[..|s| - 1]);
    }
  }

  lemma SpaceIsBlank(s: string)
    ensures Blank(" " + s) <==> Blank(s)
  {
    var t := " " + s;
    assert IsSpace(' ');
    assert forall i :: 0 <= i < |s| ==> s[i] == t[i + 1];
    assert forall i :: 1 <= i < |t| ==> t[i] == s[i - 1];
  }

  /** A space in front is stripped. */
  lemma StripSpace(s: string)
    ensures Strip(" " + s) == Strip(s)
  {
    hide Lead, Trail, IsSpace, Blank;
    var t := " " + s;
    StripRange(s);
    StripRange(t);
    SpaceIsBlank(s);
    if !Blank(s) {
      SpaceLead(s);
      SpaceTrail(s);
      assert t[Lead(t)..Trail(t)] == s[Lead(s)..Trail(s)];
    }
  }

  /**
   `str.casefold` of one character, exact on every character whose folding holds an ASCII letter;
   the others are left alone, and fold to characters outside ASCII.
   */
  function FoldChar(c: char): (r: string)
    ensures r != ""
  {
    match c
    case '\U{DF}' | '\U{1E9E}' => "ss"
    case '\U{130}' => "i\U{307}"
    case '\U{149}' => "\U{2BC}n"
    case '\U{17F}' => "s"
    case '\U{1F0}' => "j\U{30C}"
    case '\U{1E96}' => "h\U{331}"
    case '\U{1E97}' => "t\U{308}"
    case '\U{1E98}' => "w\U{30A}"
    case '\U{1E99}' => "y\U{30A}"
    case '\U{1E9A}' => "a\U{2BE}"
    case '\U{212A}' => "k"
    case '\U{FB00}' => "ff"
    case '\U{FB01}' => "fi"
    case '\U{FB02}' => "fl"
    case '\U{FB03}' => "ffi"
    case '\U{FB04}' => "ffl"
    case '\U{FB05}' | '\U{FB06}' => "st"
    case _ => if 'A' <= c <= 'Z' then [((c as int) + 32) as char] else [c]
  }

  function Casefold(s: string): string
  {
    if s == [] then [] else FoldChar(s[0]) + Casefold(s[1..])
  }

  // ----- Splitting and joining -----

  /** The parts between occurrences of `sep`. */
  function SplitAt(text: string, sep: char): (parts: seq<string>)
    ensures parts != []
  {
    if text == [] then [""]
    else
      var rest := SplitAt(text[1..], sep);
      if text[0] == sep then [""] + rest else [[text[0]] + rest[0]] + rest[1..]
  }

  function JoinWith(parts: seq<string>, sep: char): string
  {
    if parts == [] then ""
    else if |parts| == 1 then parts[0]
    else parts[0] + [sep] + JoinWith(parts[1..], sep)
  }

  predicate Without(parts: seq<string>, sep: char)
  {
    forall i :: 0 <= i < |parts| ==> sep !in parts[i]
  }

  /** Joining the parts of a text gives the text. */
  lemma {:induction false} JoinSplitAt(text: string, sep: char)
    ensures JoinWith(SplitAt(text, sep), sep) == text
    ensures Without(SplitAt(text, sep), sep)
  {
    if text != [] {
      JoinSplitAt(text[1..], sep);
      var rest := SplitAt(text[1..], sep);
      if text[0] == sep {
        assert SplitAt(text, sep)[1..] == rest;
      } else {
        assert SplitAt(text, sep)[1..] == rest[1..];
      }
    }
  }

  lemma JoinWithCons(first: string, rest: seq<string>, sep: char)
    ensures JoinWith([first], sep) == first
    ensures rest != [] ==> JoinWith([first] + rest, sep) == first + [sep] + JoinWith(rest, sep)
  {
    assert ([first] + rest)[1..] == rest;
  }

  lemma {:induction false} SplitOnePart(part: string, sep: char)
    requires sep !in part
    ensures SplitAt(part, sep) == [part]
    decreases |part|
  {
    if part != [] {
      assert part[0] in part && part == [part[0]] + part[1..];
      SplitOnePart(part[1..], sep);
    }
  }

  lemma {:induction false} SplitFirstPart(part: string, rest: string, sep: char)
    requires sep !in part
    ensures SplitAt(part + [sep] + rest, sep) == [part] + SplitAt(rest, sep)
    decreases |part|
  {
    var text := part + [sep] + rest;
    if part == [] {
      assert text[0] == sep && text[1..] == rest;
    } else {
      assert part[0] in part && part == [part[0]] + part[1..];
      SplitFirstPart(part[1..], rest, sep);
      assert text[0] == part[0] && text[1..] == part[1..] + [sep] + rest;
      assert ([part[1..]] + SplitAt(rest, sep))[1..] == SplitAt(rest, sep);
    }
  }

  /** Joining parts without the separator forgets nothing. */
  lemma {:induction false} SplitJoinWith(parts: seq<string>, sep: char)
    requires parts != [] && Without(parts, sep)
    ensures SplitAt(JoinWith(parts, sep), sep) == parts
    decreases |parts|
  {
    hide JoinWith, SplitAt;
    var first, rest := parts[0], parts[1..];
    assert parts == [first] + rest;
    JoinWithCons(first, rest, sep);
    if rest == [] {
      assert parts == [first];
      SplitOnePart(first, sep);
    } else {
      SplitJoinWith(rest, sep);
      SplitFirstPart(first, JoinWith(rest, sep), sep);
    }
  }

  // ----- Substrings -----

  predicate OccursAt(s: string, needle: string, i: nat)
  {
    i + |needle| <= |s| && s[i..i + |needle|] == needle
  }

  /** `needle in s`. */
  predicate Contains(s: string, needle: string)
  {
    exists i :: 0 <= i <= |s| && OccursAt(s, needle, i)
  }
}
