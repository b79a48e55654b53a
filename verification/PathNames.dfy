/**
 Ontology paths and their one canonical spelling (knowledge/ontology.py): dot-separated segments
 of lower-case words joined by underscores. Normalising is idempotent, so a canonical path is
 exactly a path that normalises to itself.
 */
module PathNames {
  import opened Wrappers
  import opened Sequences
  import opened Text

  predicate IsLow(c: char)
  {
    'a' <= c <= 'z' || '0' <= c <= '9'
  }

  /** An underscore between a lower-case letter or digit and an upper-case letter behind it. */
  function SnakeCase(segment: string): string
  {
    if |segment| < 2 then segment
    else
      [segment[0]] + (if IsLow(segment[0]) && 'A' <= segment[1] <= 'Z' then "_" else "") + SnakeCase(segment[1..])
  }

  function SkipOthers(s: string): (r: string)
    ensures |r| <= |s|
    ensures r != "" ==> IsLow(r[0])
  {
    if s == [] || IsLow(s[0]) then s else SkipOthers(s[1..])
  }

  /** Every run of other characters becomes one underscore. */
  function Collapse(s: string): string
    decreases |s|
  {
    if s == [] then []
    else if IsLow(s[0]) then [s[0]] + Collapse(s[1..])
    else "_" + Collapse(SkipOthers(s[1..]))
  }

  /** `strip("_")`. */
  function TrimUnderscores(s: string): string
    decreases |s|
  {
    if s == [] then []
    else if s[0] == '_' then TrimUnderscores(s[1..])
    else if s[|s| - 1] == '_' then TrimUnderscores(s[..|s| - 1])
    else s
  }

  function Slug(segment: string): string
  {
    TrimUnderscores(Collapse(Casefold(SnakeCase(segment))))
  }

  function Slugs(segments: seq<string>): (slugs: seq<string>)
    ensures |slugs| == |segments|
    ensures forall i :: 0 <= i < |segments| ==> slugs[i] == Slug(segments[i])
  {
    seq(|segments|, i requires 0 <= i < |segments| => Slug(segments[i]))
  }

  /** `normalize_ontology_path`; nothing where it raises. */
  function NormalPath(value: string): Option<string>
  {
    var raw := Strip(value);
    var slugs := Slugs(SplitAt(raw, '.'));
    if raw == "" || '/' in raw || "" in slugs || |slugs| < 2 then None else Some(JoinWith(slugs, '.'))
  }

  /** Normalised, and repetitions dropped; nothing if one path does not normalise. */
  function NormalPaths(values: seq<string>): Option<seq<string>>
  {
    if exists i :: 0 <= i < |values| && NormalPath(values[i]).None? then None
    else Some(Firsts(seq(|values|, i requires 0 <= i < |values| => NormalPath(values[i]).value)))
  }

  predicate Canonical(path: string)
  {
    NormalPath(path) == Some(path)
  }

  // ----- Normalising is idempotent -----

  /** Lower-case letters, digits and single underscores. */
  predicate Clean(s: string)
  {
    && (forall i :: 0 <= i < |s| ==> IsLow(s[i]) || s[i] == '_')
    && (forall i :: 0 <= i < |s| - 1 ==> s[i] != '_' || s[i + 1] != '_')
  }

  predicate IsSlug(s: string)
  {
    s != "" && Clean(s) && s[0] != '_' && s[|s| - 1] != '_'
  }

  lemma {:induction false} CollapseIsClean(s: string)
    ensures Clean(Collapse(s))
    ensures s != [] && IsLow(s[0]) ==> Collapse(s) != "" && Collapse(s)[0] != '_'
    decreases |s|
  {
    if s != [] {
      if IsLow(s[0]) {
        CollapseIsClean(s[1..]);
      } else {
        CollapseIsClean(SkipOthers(s[1..]));
      }
    }
  }

  lemma {:induction false} TrimIsSlug(s: string)
    requires Clean(s)
    ensures TrimUnderscores(s) != "" ==> IsSlug(TrimUnderscores(s))
    decreases |s|
  {
    if s != [] {
      if s[0] == '_' {
        assert forall i :: 0 <= i < |s| - 1 ==> s[1..][i] == s[i + 1];
        TrimIsSlug(s[1..]);
      } else if s[|s| - 1] == '_' {
        TrimIsSlug(s[..|s| - 1]);
      }
    }
  }

  lemma {:induction false} CleanIsFixed(s: string)
    requires Clean(s)
    ensures SnakeCase(s) == s && Casefold(s) == s && Collapse(s) == s
    decreases |s|
  {
    if s != [] {
      var rest := s[1..];
      assert s == [s[0]] + rest;
      assert forall i :: 0 <= i < |rest| ==> rest[i] == s[i + 1];
      CleanIsFixed(rest);
      assert FoldChar(s[0]) == [s[0]];
    }
  }

  /** A slug is its own slug. */
  lemma SlugIsFixed(s: string)
    requires IsSlug(s)
    ensures Slug(s) == s
  {
    CleanIsFixed(s);
  }

  lemma SlugIsSlug(segment: string)
    ensures Slug(segment) != "" ==> IsSlug(Slug(segment))
  {
    hide SnakeCase, Casefold, Collapse, TrimUnderscores, IsSlug;
    var folded := Casefold(SnakeCase(segment));
    CollapseIsClean(folded);
    TrimIsSlug(Collapse(folded));
  }

  predicate AllSlugs(parts: seq<string>)
  {
    forall i :: 0 <= i < |parts| ==> IsSlug(parts[i])
  }

  predicate PathChar(c: char)
  {
    IsLow(c) || c == '_' || c == '.'
  }

  /** A path of slugs: only path characters, and no dot or underscore at the ends. */
  lemma {:induction false} JoinedSlugs(parts: seq<string>)
    requires parts != [] && AllSlugs(parts)
    ensures var path := JoinWith(parts, '.');
            && path != "" && IsLow(path[0]) && IsLow(path[|path| - 1])
            && forall c :: c in path ==> PathChar(c)
    decreases |parts|
  {
    hide JoinWith;
    var first, rest := parts[0], parts[1..];
    assert parts == [first] + rest;
    JoinWithCons(first, rest, '.');
    if rest == [] {
      assert parts == [first];
    } else {
      JoinedSlugs(rest);
    }
  }

  lemma PathCharsAreInk(path: string)
    requires path != "" && IsLow(path[0]) && IsLow(path[|path| - 1]) && forall c :: c in path ==> PathChar(c)
    ensures Strip(path) == path && '/' !in path
  {
    hide Strip;
    StripTrimmed(path);
  }

  lemma SlugsHaveNoDot(parts: seq<string>)
    requires AllSlugs(parts)
    ensures Without(parts, '.')
  {
    forall i | 0 <= i < |parts| ensures '.' !in parts[i] {
      assert IsSlug(parts[i]);
    }
  }

  lemma SlugsAreFixed(parts: seq<string>)
    requires AllSlugs(parts)
    ensures Slugs(parts) == parts
  {
    forall i | 0 <= i < |parts| ensures Slugs(parts)[i] == parts[i] {
      SlugIsFixed(parts[i]);
    }
  }

  lemma PathOfSlugsIsCanonical(parts: seq<string>)
    requires |parts| >= 2 && AllSlugs(parts)
    ensures Canonical(JoinWith(parts, '.'))
  {
    hide JoinWith, SplitAt, Strip, PathChar, Slug;
    var path := JoinWith(parts, '.');
    JoinedSlugs(parts);
    PathCharsAreInk(path);
    SlugsHaveNoDot(parts);
    SplitJoinWith(parts, '.');
    SlugsAreFixed(parts);
    assert "" !in parts;
  }

  lemma NormalPathIsCanonical(value: string)
    ensures NormalPath(value).Some? ==> Canonical(NormalPath(value).value)
  {
    hide JoinWith, SplitAt, Strip, Slug, Canonical;
    if NormalPath(value).Some? {
      var segments := SplitAt(Strip(value), '.');
      var slugs := Slugs(segments);
      forall i | 0 <= i < |slugs| ensures IsSlug(slugs[i]) {
        assert slugs[i] in slugs;
        SlugIsSlug(segments[i]);
      }
      PathOfSlugsIsCanonical(slugs);
    }
  }

  predicate AllCanonical(values: seq<string>)
  {
    forall x :: x in values ==> Canonical(x)
  }

  lemma AllCanonicalAt(values: seq<string>, i: nat)
    requires AllCanonical(values) && i < |values|
    ensures NormalPath(values[i]) == Some(values[i])
  {
    assert values[i] in values;
  }

  /** Canonical paths only lose their repetitions. */
  lemma CanonicalPathsAreFixed(values: seq<string>)
    requires AllCanonical(values)
    ensures NormalPaths(values) == Some(Firsts(values))
  {
    hide NormalPath, AllCanonical, Firsts;
    forall i | 0 <= i < |values| ensures NormalPath(values[i]) == Some(values[i]) {
      AllCanonicalAt(values, i);
    }
    assert seq(|values|, i requires 0 <= i < |values| => NormalPath(values[i]).value) == values;
  }

  lemma NormalPathsAreCanonical(values: seq<string>)
    ensures NormalPaths(values).Some? ==>
              AllCanonical(NormalPaths(values).value) && NoRepeats(NormalPaths(values).value)
  {
    hide NormalPath, Firsts;
    if NormalPaths(values).Some? {
      var normal := seq(|values|, i requires 0 <= i < |values| => NormalPath(values[i]).value);
      FirstsFacts(normal);
      forall x | x in Firsts(normal) ensures Canonical(x) {
        var i :| 0 <= i < |normal| && normal[i] == x;
        NormalPathIsCanonical(values[i]);
      }
    }
  }

  /** Normalising a list twice is normalising it once. */
  lemma NormalPathsIsIdempotent(values: seq<string>)
    ensures NormalPaths(values).Some? ==> NormalPaths(NormalPaths(values).value) == NormalPaths(values)
  {
    hide NormalPaths, AllCanonical, Firsts;
    if NormalPaths(values).Some? {
      NormalPathsAreCanonical(values);
      CanonicalPathsAreFixed(NormalPaths(values).value);
      FirstsFixed(NormalPaths(values).value);
    }
  }

  /** A list and its normal form hold the same paths exactly when the list is canonical. */
  lemma SamePathsDecided(values: seq<string>)
    requires NormalPaths(values).Some?
    ensures Elements(NormalPaths(values).value) == Elements(values) <==> AllCanonical(values)
  {
    hide NormalPaths, Canonical, Firsts;
    var normal := NormalPaths(values).value;
    NormalPathsAreCanonical(values);
    if AllCanonical(values) {
      CanonicalPathsAreFixed(values);
      FirstsFacts(values);
    }
    if Elements(normal) == Elements(values) {
      forall x | x in values ensures Canonical(x) {
        assert x in Elements(values);
      }
    }
  }

  // ----- Spellings -----

  /** Lower-case letters and digits, at least one. */
  predicate IsWord(s: string)
  {
    s != "" && forall i :: 0 <= i < |s| ==> 'a' <= s[i] <= 'z' || '0' <= s[i] <= '9'
  }

  /** Words joined by single underscores. */
  predicate IsPlainSlug(s: string)
  {
    && s != "" && s[0] != '_' && s[|s| - 1] != '_'
    && (forall i :: 0 <= i < |s| ==> 'a' <= s[i] <= 'z' || '0' <= s[i] <= '9' || s[i] == '_')
    && forall i :: 0 <= i < |s| - 1 ==> !(s[i] == '_' && s[i + 1] == '_')
  }

  /** Characters of ASCII that are neither letters nor digits. */
  predicate IsSeparator(s: string)
  {
    s != "" && forall i :: 0 <= i < |s| ==> Separates(s[i])
  }

  predicate Separates(c: char)
  {
    (c as int) < 128 && !('a' <= c <= 'z') && !('A' <= c <= 'Z') && !('0' <= c <= '9')
  }

  /** Two or more such segments between dots. */
  ghost predicate IsPlainPath(path: string, parts: seq<string>)
  {
    && |parts| >= 2 && path == JoinWith(parts, '.')
    && forall i :: 0 <= i < |parts| ==> IsPlainSlug(parts[i])
  }

  lemma PlainSlugDecided(s: string)
    ensures IsSlug(s) <==> IsPlainSlug(s)
  {
  }

  /** The canonical paths, character by character. */
  lemma CanonicalDecided(path: string)
    ensures Canonical(path) <==> exists parts :: IsPlainPath(path, parts)
  {
    hide JoinWith, SplitAt, Strip, Slug, IsSlug, IsPlainSlug;
    if Canonical(path) {
      var segments := SplitAt(Strip(path), '.');
      var slugs := Slugs(segments);
      forall i | 0 <= i < |slugs| ensures IsPlainSlug(slugs[i]) {
        assert slugs[i] in slugs;
        SlugIsSlug(segments[i]);
        PlainSlugDecided(slugs[i]);
      }
      assert IsPlainPath(path, slugs);
    }
    if parts :| IsPlainPath(path, parts) {
      forall i | 0 <= i < |parts| ensures IsSlug(parts[i]) {
        PlainSlugDecided(parts[i]);
      }
      PathOfSlugsIsCanonical(parts);
    }
  }

  lemma SteadyChar(c: char)
    requires IsLow(c) || Separates(c)
    ensures FoldChar(c) == [c] && !('A' <= c <= 'Z')
  {
  }

  lemma {:induction false} SteadyText(s: string)
    requires forall i :: 0 <= i < |s| ==> IsLow(s[i]) || Separates(s[i])
    ensures SnakeCase(s) == s && Casefold(s) == s
    decreases |s|
  {
    hide IsLow, Separates, FoldChar;
    if s != [] {
      var rest := s[1..];
      assert s == [s[0]] + rest;
      assert forall i :: 0 <= i < |rest| ==> rest[i] == s[i + 1];
      SteadyText(rest);
      SteadyChar(s[0]);
      if |s| > 1 {
        SteadyChar(s[1]);
      }
    }
  }

  lemma {:induction false} CollapseWord(a: string, behind: string)
    requires forall i :: 0 <= i < |a| ==> IsLow(a[i])
    ensures Collapse(a + behind) == a + Collapse(behind)
    decreases |a|
  {
    if a == "" {
      assert a + behind == behind;
    } else {
      assert (a + behind)[1..] == a[1..] + behind;
      CollapseWord(a[1..], behind);
    }
  }

  lemma {:induction false} SkipSeparator(sep: string, b: string)
    requires (forall i :: 0 <= i < |sep| ==> !IsLow(sep[i])) && (b != "" ==> IsLow(b[0]))
    ensures SkipOthers(sep + b) == b
    decreases |sep|
  {
    if sep == "" {
      assert sep + b == b;
    } else {
      assert (sep + b)[1..] == sep[1..] + b;
      SkipSeparator(sep[1..], b);
    }
  }

  lemma CollapseSeparator(sep: string, b: string)
    requires sep != "" && (forall i :: 0 <= i < |sep| ==> !IsLow(sep[i])) && (b != "" ==> IsLow(b[0]))
    ensures Collapse(sep + b) == "_" + Collapse(b)
  {
    assert (sep + b)[1..] == sep[1..] + b;
    SkipSeparator(sep[1..], b);
  }

  lemma CollapseSeparated(a: string, sep: string, b: string)
    requires IsWord(a) && IsSeparator(sep) && IsWord(b)
    ensures Collapse(a + sep + b) == a + "_" + b
  {
    hide Collapse;
    assert a + sep + b == a + (sep + b);
    CollapseWord(a, sep + b);
    CollapseSeparator(sep, b);
    CollapseWord(b, "");
    assert b + "" == b;
    assert Collapse("") == "" by { CollapseNothing(); }
    assert a + "_" + b == a + ("_" + b);
  }

  lemma CollapseNothing()
    ensures Collapse("") == ""
  {
  }

  lemma TwoWordsAreTrimmed(a: string, b: string)
    requires IsWord(a) && IsWord(b)
    ensures TrimUnderscores(a + "_" + b) == a + "_" + b
  {
    var s := a + "_" + b;
    assert s[0] == a[0] && s[|s| - 1] == b[|b| - 1];
  }

  /** Whatever stands between two words becomes one underscore. */
  lemma SeparatorsBecomeOne(a: string, sep: string, b: string)
    requires IsWord(a) && IsSeparator(sep) && IsWord(b)
    ensures Slug(a + sep + b) == a + "_" + b
  {
    hide SnakeCase, Casefold, Collapse, TrimUnderscores;
    SteadyText(a + sep + b);
    CollapseSeparated(a, sep, b);
    TwoWordsAreTrimmed(a, b);
  }

  lemma SnakeStep(c: char, behind: string)
    requires behind != ""
    ensures SnakeCase([c] + behind)
         == [c] + (if IsLow(c) && 'A' <= behind[0] <= 'Z' then "_" else "") + SnakeCase(behind)
  {
    assert ([c] + behind)[1..] == behind;
  }

  lemma {:induction false} SnakeHump(a: string, upper: char, b: string)
    requires IsWord(a) && 'A' <= upper <= 'Z' && (forall i :: 0 <= i < |b| ==> IsLow(b[i]))
    ensures SnakeCase(a + [upper] + b) == a + "_" + [upper] + b
    decreases |a|
  {
    hide SnakeCase;
    if |a| == 1 {
      HumpIsKept(upper, b);
      SnakeStep(a[0], [upper] + b);
      assert a + [upper] + b == [a[0]] + ([upper] + b);
      assert a + "_" + [upper] + b == [a[0]] + "_" + ([upper] + b);
    } else {
      SnakeHump(a[1..], upper, b);
      SnakeStep(a[0], a[1..] + [upper] + b);
      assert a + [upper] + b == [a[0]] + (a[1..] + [upper] + b);
      assert a + "_" + [upper] + b == [a[0]] + (a[1..] + "_" + [upper] + b);
    }
  }

  lemma HumpIsKept(upper: char, b: string)
    requires 'A' <= upper <= 'Z' && forall i :: 0 <= i < |b| ==> IsLow(b[i])
    ensures SnakeCase([upper] + b) == [upper] + b
  {
    assert ([upper] + b)[1..] == b;
    SteadyText(b);
  }

  lemma {:induction false} FoldConcat(a: string, b: string)
    ensures Casefold(a + b) == Casefold(a) + Casefold(b)
    decreases |a|
  {
    if a == "" {
      assert a + b == b;
    } else {
      assert (a + b)[1..] == a[1..] + b;
      FoldConcat(a[1..], b);
    }
  }

  /** A hump splits two words, and case is dropped. */
  lemma HumpsAreSplit(a: string, upper: char, b: string)
    requires IsWord(a) && 'A' <= upper <= 'Z' && forall i :: 0 <= i < |b| ==> 'a' <= b[i] <= 'z' || '0' <= b[i] <= '9'
    ensures Slug(a + [upper] + b) == a + "_" + [((upper as int) + 32) as char] + b
  {
    hide SnakeCase, Collapse, TrimUnderscores, Casefold;
    var lower := [((upper as int) + 32) as char];
    SnakeHump(a, upper, b);
    FoldHump(a, upper, b);
    assert a + "_" + lower + b == a + "_" + (lower + b);
    CollapseSeparated(a, "_", lower + b);
    TwoWordsAreTrimmed(a, lower + b);
  }

  lemma FoldHump(a: string, upper: char, b: string)
    requires IsWord(a) && 'A' <= upper <= 'Z' && forall i :: 0 <= i < |b| ==> IsLow(b[i])
    ensures Casefold(a + "_" + [upper] + b) == a + "_" + [((upper as int) + 32) as char] + b
  {
    hide Casefold, SnakeCase;
    SteadyText(a + "_");
    SteadyText(b);
    FoldConcat(a + "_" + [upper], b);
    FoldConcat(a + "_", [upper]);
    FoldOne(upper);
  }

  lemma FoldOne(upper: char)
    requires 'A' <= upper <= 'Z'
    ensures Casefold([upper]) == [((upper as int) + 32) as char]
  {
    assert [upper][1..] == "";
  }

  /** Outer whitespace does not count; blank and slash paths, empty segments and single ones are refused. */
  lemma PathDecided(value: string)
    ensures NormalPath(value).Some? <==>
      && !Blank(value) && '/' !in value
      && |SplitAt(Strip(value), '.')| >= 2
      && forall i :: 0 <= i < |SplitAt(Strip(value), '.')| ==> Slug(SplitAt(Strip(value), '.')[i]) != ""
    ensures NormalPath(value).Some? ==> NormalPath(value).value == JoinWith(Slugs(SplitAt(Strip(value), '.')), '.')
  {
    hide SplitAt, Slug, JoinWith;
    BlankIsEmpty(value);
    SlashSurvives(value);
    var slugs := Slugs(SplitAt(Strip(value), '.'));
    if "" in slugs {
      var i :| 0 <= i < |slugs| && slugs[i] == "";
    }
    forall i | 0 <= i < |slugs| && slugs[i] == "" ensures "" in slugs {
    }
  }

  lemma SlashSurvives(value: string)
    ensures '/' in Strip(value) <==> '/' in value
  {
    hide IsSpace, Lead, Trail;
    StripRange(value);
    BlankIsEmpty(value);
    if '/' in value {
      var i :| 0 <= i < |value| && value[i] == '/';
      SlashIsInk();
      InkIsInside(value, i);
      assert Strip(value)[i - Lead(value)] == '/';
    }
  }

  lemma SlashIsInk()
    ensures !IsSpace('/')
  {
  }
}
