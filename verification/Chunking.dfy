/**
 Chunking a document (`chunk_document` in knowledge/chunking.py): every section is windowed with
 what its heading leaves of the chunk size, the heading is put in front of each window, and the
 chunks are numbered across sections.
 */
module Chunking {
  import opened Wrappers
  import opened Sequences
  import opened Text
  import opened TextWindows

  datatype Section = Section(text: string, heading: Option<string>, page: Option<nat>, locator: Option<string>)

  datatype RawChunk = RawChunk(text: string, index: nat, heading: Option<string>, page: Option<nat>,
                               locator: Option<string>)

  datatype ChunkingError = SizeNotPositive | OverlapOutOfRange | NoChunks

  /** The heading line put in front of every window; an empty heading counts as none. */
  function Prefix(section: Section): string
  {
    if section.heading.Some? && section.heading.value != "" then section.heading.value + "\n\n" else ""
  }

  /** What the prefix leaves of the chunk, and never nothing. */
  function Available(section: Section, chunkSize: nat): (size: nat)
    ensures size >= 1
  {
    Max(1, chunkSize - |Prefix(section)|)
  }

  function Overlap(section: Section, chunkSize: nat, chunkOverlap: nat): nat
  {
    Min(chunkOverlap, Available(section, chunkSize) - 1)
  }

  function SectionWindows(section: Section, chunkSize: nat, chunkOverlap: nat): seq<string>
  {
    WindowsOf(section.text,
              Ranges(section.text, Available(section, chunkSize), Overlap(section, chunkSize, chunkOverlap), 0))
  }

  function ChunkOf(section: Section, window: string, index: nat): RawChunk
  {
    RawChunk(Strip(Prefix(section) + window), index, section.heading, section.page, section.locator)
  }

  function SectionChunks(section: Section, windows: seq<string>, first: nat): (chunks: seq<RawChunk>)
    ensures |chunks| == |windows|
    ensures forall i :: 0 <= i < |windows| ==> chunks[i] == ChunkOf(section, windows[i], first + i)
  {
    seq(|windows|, i requires 0 <= i < |windows| => ChunkOf(section, windows[i], first + i))
  }

  /** All chunks of the sections in order. */
  function ChunksOf(sections: seq<Section>, chunkSize: nat, chunkOverlap: nat): seq<RawChunk>
    decreases |sections|
  {
    if sections == [] then []
    else
      var n := |sections| - 1;
      var earlier := ChunksOf(sections[..n], chunkSize, chunkOverlap);
      earlier + SectionChunks(sections[n], SectionWindows(sections[n], chunkSize, chunkOverlap), |earlier|)
  }

  function Chunked(sections: seq<Section>, chunkSize: int, chunkOverlap: int): Result<seq<RawChunk>, ChunkingError>
  {
    if chunkSize <= 0 then Failure(SizeNotPositive)
    else if chunkOverlap < 0 || chunkOverlap >= chunkSize then Failure(OverlapOutOfRange)
    else if ChunksOf(sections, chunkSize, chunkOverlap) == [] then Failure(NoChunks)
    else Success(ChunksOf(sections, chunkSize, chunkOverlap))
  }

  /** `chunk_document`. */
  method ChunkDocument(sections: seq<Section>, chunkSize: int, chunkOverlap: int)
    returns (r: Result<seq<RawChunk>, ChunkingError>)
    ensures r == Chunked(sections, chunkSize, chunkOverlap)
  {
    hide WindowsOf, Ranges, Strip, Prefix;
    if chunkSize <= 0 {
      return Failure(SizeNotPositive);
    }
    if chunkOverlap < 0 || chunkOverlap >= chunkSize {
      return Failure(OverlapOutOfRange);
    }
    var chunks: seq<RawChunk> := [];
    for n := 0 to |sections|
      invariant chunks == ChunksOf(sections[..n], chunkSize, chunkOverlap)
    {
      var section := sections[n];
      var prefix := Prefix(section);
      var available: nat := Max(1, chunkSize - |prefix|);
      var overlap: nat := Min(chunkOverlap, Max(0, available - 1));
      var windows := Windows(section.text, available, overlap);
      ghost var earlier := chunks;
      ghost var added := SectionChunks(section, windows, |earlier|);
      for i := 0 to |windows|
        invariant chunks == earlier + added[..i]
      {
        var text := Strip(prefix + windows[i]);
        chunks := chunks + [RawChunk(text, |chunks|, section.heading, section.page, section.locator)];
        assert added[..i + 1] == added[..i] + [added[i]];
      }
      assert added[..|windows|] == added;
      assert sections[..n + 1][..n] == sections[..n];
    }
    assert sections[..|sections|] == sections;
    if chunks == [] {
      return Failure(NoChunks);
    }
    r := Success(chunks);
  }

  // ----- What a chunk is -----

  /** Putting a heading in front of a trimmed window and stripping keeps the window whole at the end. */
  lemma PrefixedKeepsWindow(prefix: string, window: string)
    requires window != "" && Trimmed(window)
    ensures var text := Strip(prefix + window);
            |text| >= |window| && text[|text| - |window|..] == window && Trimmed(text)
            && |text| <= |prefix| + |window|
  {
    hide Lead, Trail, IsSpace;
    var whole := prefix + window;
    assert whole[|prefix|] == window[0] && whole[|whole| - 1] == window[|window| - 1];
    InkIsInside(whole, |prefix|);
    InkIsInside(whole, |whole| - 1);
    StripRange(whole);
    SliceOfSlice(whole, Lead(whole), |whole|, |prefix| - Lead(whole), |whole| - Lead(whole));
    assert whole[|prefix|..] == window;
  }

  predicate IsHeaded(section: Section)
  {
    section.heading.Some? && section.heading.value != ""
  }

  /** The heading, a blank line and the window; without a heading the window alone. */
  predicate ReadsAs(text: string, section: Section, window: string)
  {
    text == if IsHeaded(section) then Strip(section.heading.value + "\n\n" + window) else window
  }

  /** `chunk` comes from `section`: its locators, and a text of its heading and one of its windows. */
  ghost predicate ComesFrom(chunk: RawChunk, section: Section, window: string)
  {
    && IsSomeWindow(section.text, window)
    && chunk.heading == section.heading && chunk.page == section.page && chunk.locator == section.locator
    && ReadsAs(chunk.text, section, window)
    && |chunk.text| >= |window| && chunk.text[|chunk.text| - |window|..] == window
  }

  predicate GoodSize(chunk: RawChunk, chunkSize: nat)
  {
    && chunk.text != "" && Trimmed(chunk.text)
    && |chunk.text| <= Max(chunkSize, (if chunk.heading.Some? then |chunk.heading.value| else 0) + 3)
  }

  lemma WindowIsAWindow(text: string, window: string)
    requires IsSomeWindow(text, window)
    ensures window != "" && Trimmed(window)
  {
  }

  lemma ChunkIsGood(section: Section, window: string, index: nat, chunkSize: nat)
    requires IsSomeWindow(section.text, window) && |window| <= Available(section, chunkSize)
    ensures ComesFrom(ChunkOf(section, window, index), section, window)
    ensures GoodSize(ChunkOf(section, window, index), chunkSize)
  {
    hide Strip, IsSomeWindow, Trimmed, Prefix;
    WindowIsAWindow(section.text, window);
    ChunkReads(section, window, index);
    PrefixedKeepsWindow(Prefix(section), window);
    PrefixLength(section);
  }

  lemma PrefixLength(section: Section)
    ensures |Prefix(section)| <= (if section.heading.Some? then |section.heading.value| else 0) + 2
  {
  }

  lemma ChunkReads(section: Section, window: string, index: nat)
    requires Trimmed(window)
    ensures ReadsAs(ChunkOf(section, window, index).text, section, window)
  {
    hide Strip, Trimmed;
    StripTrimmed(window);
    assert "" + window == window;
  }

  /** Chunk `i` has number `i`, a bounded trimmed text, and one section it comes from. */
  ghost predicate ChunkAt(sections: seq<Section>, chunks: seq<RawChunk>, i: nat, chunkSize: nat)
    requires i < |chunks|
  {
    && chunks[i].index == i
    && GoodSize(chunks[i], chunkSize)
    && exists s, w :: 0 <= s < |sections| && ComesFrom(chunks[i], sections[s], w)
  }

  ghost predicate AllTraceable(sections: seq<Section>, chunks: seq<RawChunk>, chunkSize: nat)
  {
    forall i :: 0 <= i < |chunks| ==> ChunkAt(sections, chunks, i, chunkSize)
  }

  lemma SectionWindowsAreGood(section: Section, chunkSize: nat, chunkOverlap: nat)
    ensures var windows := SectionWindows(section, chunkSize, chunkOverlap);
            forall w :: w in windows ==> |w| <= Available(section, chunkSize) && IsSomeWindow(section.text, w)
  {
    hide Ranges, WindowsOf, IsSomeWindow, CoveredBy;
    WindowsCoverTheText(section.text, Available(section, chunkSize), Overlap(section, chunkSize, chunkOverlap));
  }

  /** Every chunk: numbered by its position across sections, bounded, and traceable to its section. */
  lemma {:induction false} ChunksAreTraceable(sections: seq<Section>, chunkSize: nat, chunkOverlap: nat)
    ensures var chunks := ChunksOf(sections, chunkSize, chunkOverlap);
            AllTraceable(sections, chunks, chunkSize)
    decreases |sections|
  {
    hide Strip, SectionWindows, IsSomeWindow, Trimmed, ChunkOf, GoodSize, ComesFrom, Available;
    if sections != [] {
      var n := |sections| - 1;
      var section := sections[n];
      var earlier := ChunksOf(sections[..n], chunkSize, chunkOverlap);
      var windows := SectionWindows(section, chunkSize, chunkOverlap);
      var chunks := ChunksOf(sections, chunkSize, chunkOverlap);
      ChunksAreTraceable(sections[..n], chunkSize, chunkOverlap);
      SectionWindowsAreGood(section, chunkSize, chunkOverlap);
      forall i | 0 <= i < |chunks| ensures ChunkAt(sections, chunks, i, chunkSize) {
        if i < |earlier| {
          assert ChunkAt(sections[..n], earlier, i, chunkSize);
          var s, w :| 0 <= s < n && ComesFrom(earlier[i], sections[..n][s], w);
          assert sections[s] == sections[..n][s];
        } else {
          var w := windows[i - |earlier|];
          ChunkIsGood(section, w, i, chunkSize);
          assert ChunkOf(section, w, i).index == i by { IndexOfChunk(section, w, i); }
          assert chunks[i] == ChunkOf(section, w, i);
        }
      }
    }
  }

  lemma IndexOfChunk(section: Section, window: string, i: nat)
    ensures ChunkOf(section, window, i).index == i
  {
  }

  /** Character `i` of the section text lies in a window that one of the chunks ends with. */
  ghost predicate CarriedBy(chunks: seq<RawChunk>, section: Section, i: nat)
  {
    exists k, w :: 0 <= k < |chunks| && ComesFrom(chunks[k], section, w) && Spans(section.text, w, i)
  }

  /** No character that is not whitespace is lost, whatever the limits. */
  lemma {:induction false} ChunksCoverTheDocument(sections: seq<Section>, chunkSize: nat, chunkOverlap: nat,
                                                  s: nat, i: nat)
    requires s < |sections| && i < |sections[s].text| && !IsSpace(sections[s].text[i])
    ensures CarriedBy(ChunksOf(sections, chunkSize, chunkOverlap), sections[s], i)
    decreases |sections|
  {
    hide Strip, SectionWindows, IsSomeWindow, ChunkOf, ComesFrom, Available, Spans, IsSpace;
    var n := |sections| - 1;
    var earlier := ChunksOf(sections[..n], chunkSize, chunkOverlap);
    var chunks := ChunksOf(sections, chunkSize, chunkOverlap);
    if s < n {
      ChunksCoverTheDocument(sections[..n], chunkSize, chunkOverlap, s, i);
      var k, w :| 0 <= k < |earlier| && ComesFrom(earlier[k], sections[s], w) && Spans(sections[s].text, w, i);
      assert chunks[k] == earlier[k];
    } else {
      var windows := SectionWindows(sections[s], chunkSize, chunkOverlap);
      var w := SpanningWindow(sections[s], chunkSize, chunkOverlap, i);
      var k :| 0 <= k < |windows| && windows[k] == w;
      SectionWindowsAreGood(sections[s], chunkSize, chunkOverlap);
      ChunkIsGood(sections[s], w, |earlier| + k, chunkSize);
      assert chunks[|earlier| + k] == ChunkOf(sections[s], w, |earlier| + k);
    }
  }

  lemma SpanningWindow(section: Section, chunkSize: nat, chunkOverlap: nat, i: nat) returns (w: string)
    requires i < |section.text| && !IsSpace(section.text[i])
    ensures w in SectionWindows(section, chunkSize, chunkOverlap) && Spans(section.text, w, i)
  {
    hide Ranges, WindowsOf, IsSomeWindow, Spans;
    var windows := SectionWindows(section, chunkSize, chunkOverlap);
    WindowsCoverTheText(section.text, Available(section, chunkSize), Overlap(section, chunkSize, chunkOverlap));
    w :| w in windows && Spans(section.text, w, i);
  }

  /** Limits are refused before the document is looked at; within them only blank documents are. */
  lemma ErrorDecided(sections: seq<Section>, chunkSize: int, chunkOverlap: int)
    ensures var r := Chunked(sections, chunkSize, chunkOverlap);
      if chunkSize < 1 then r == Failure(SizeNotPositive)
      else if !(0 <= chunkOverlap < chunkSize) then r == Failure(OverlapOutOfRange)
      else if forall s :: 0 <= s < |sections| ==> Blank(sections[s].text) then r == Failure(NoChunks)
      else r.Success?
  {
    hide ChunksOf, Blank;
    if 0 <= chunkOverlap < chunkSize {
      FailureDecided(sections, chunkSize, chunkOverlap);
    }
  }

  /** Within valid limits, chunking fails exactly on documents with nothing but whitespace. */
  lemma FailureDecided(sections: seq<Section>, chunkSize: int, chunkOverlap: int)
    requires 0 <= chunkOverlap < chunkSize
    ensures Chunked(sections, chunkSize, chunkOverlap).Failure? <==>
            forall s :: 0 <= s < |sections| ==> Blank(sections[s].text)
  {
    hide ChunksOf, ComesFrom, Spans, GoodSize;
    var chunks := ChunksOf(sections, chunkSize, chunkOverlap);
    if chunks == [] {
      forall s, i | 0 <= s < |sections| && 0 <= i < |sections[s].text| ensures IsSpace(sections[s].text[i]) {
        if !IsSpace(sections[s].text[i]) {
          ChunksCoverTheDocument(sections, chunkSize, chunkOverlap, s, i);
          assert false;
        }
      }
    } else {
      ChunksAreTraceable(sections, chunkSize, chunkOverlap);
      assert ChunkAt(sections, chunks, 0, chunkSize);
      var s, w :| 0 <= s < |sections| && ComesFrom(chunks[0], sections[s], w);
      WindowIsInk(chunks[0], sections[s], w);
    }
  }

  lemma WindowIsInk(chunk: RawChunk, section: Section, w: string)
    requires ComesFrom(chunk, section, w)
    ensures !Blank(section.text)
  {
    var a, b :| IsWindow(section.text, w, a, b);
    assert section.text[a] == w[0];
  }

  /** A section that fits a chunk with its heading is one chunk, heading and all. */
  lemma FittingSectionIsOneChunk(section: Section, chunkSize: int, chunkOverlap: int)
    requires 0 <= chunkOverlap < chunkSize
    requires HeadLength(section) + |section.text| <= chunkSize && !Blank(section.text)
    ensures var r := Chunked([section], chunkSize, chunkOverlap);
      && r.Success? && |r.value| == 1 && ReadsAs(r.value[0].text, section, Strip(section.text))
      && r.value[0].index == 0 && r.value[0].heading == section.heading && r.value[0].page == section.page
      && r.value[0].locator == section.locator
  {
    hide Strip, Prefix, Trimmed, ReadsAs;
    HeadIsPrefix(section);
    StripRange(section.text);
    ChunkReads(section, Strip(section.text), 0);
    BlankIsEmpty(section.text);
    var text := section.text;
    var ranges := Ranges(text, Available(section, chunkSize), Overlap(section, chunkSize, chunkOverlap), 0);
    assert ranges == [Range(0, |text|)];
    assert Slice(text, ranges[0]) == text;
    assert WindowsOf(text, ranges) == [Strip(text)] by { OneWindow(text, ranges); }
    assert [section][..0] == [];
    assert ChunksOf([section], chunkSize, chunkOverlap) == [ChunkOf(section, Strip(text), 0)];
  }

  /** How many characters the heading and its blank line take. */
  function HeadLength(section: Section): nat
  {
    if IsHeaded(section) then |section.heading.value| + 2 else 0
  }

  lemma HeadIsPrefix(section: Section)
    ensures |Prefix(section)| == HeadLength(section)
  {
  }

  /** A section is windowed with what its heading leaves of the chunk, and overlaps by less than a window. */
  lemma LimitsDecided(section: Section, chunkSize: nat, chunkOverlap: nat)
    ensures var left := chunkSize - HeadLength(section);
      && Available(section, chunkSize) == (if left >= 1 then left else 1)
      && Overlap(section, chunkSize, chunkOverlap)
         == (if chunkOverlap < Available(section, chunkSize) then chunkOverlap else Available(section, chunkSize) - 1)
    ensures SectionWindows(section, chunkSize, chunkOverlap)
         == WindowsFrom(section.text, Available(section, chunkSize), Overlap(section, chunkSize, chunkOverlap), 0)
  {
    HeadIsPrefix(section);
  }

  /** Chunks come in document order: behind those of earlier sections, one for each window in turn. */
  lemma {:induction false} ChunksAreInOrder(sections: seq<Section>, chunkSize: nat, chunkOverlap: nat, s: nat, k: nat)
    requires s < |sections| && k < |SectionWindows(sections[s], chunkSize, chunkOverlap)|
    ensures var chunks := ChunksOf(sections, chunkSize, chunkOverlap);
      var n := |ChunksOf(sections[..s], chunkSize, chunkOverlap)| + k;
      n < |chunks| && ComesFrom(chunks[n], sections[s], SectionWindows(sections[s], chunkSize, chunkOverlap)[k])
    decreases |sections|
  {
    hide SectionWindows, ComesFrom, ChunkOf, Available;
    var last := |sections| - 1;
    if s < last {
      ChunksAreInOrder(sections[..last], chunkSize, chunkOverlap, s, k);
      assert sections[..last][..s] == sections[..s];
    } else {
      var window := SectionWindows(sections[s], chunkSize, chunkOverlap)[k];
      SectionWindowsAreGood(sections[s], chunkSize, chunkOverlap);
      ChunkIsGood(sections[s], window, |ChunksOf(sections[..s], chunkSize, chunkOverlap)| + k, chunkSize);
    }
  }

  /** As many chunks as windows. */
  lemma {:induction false} ChunkCount(sections: seq<Section>, chunkSize: nat, chunkOverlap: nat, s: nat)
    requires s < |sections|
    ensures |ChunksOf(sections[..s + 1], chunkSize, chunkOverlap)|
         == |ChunksOf(sections[..s], chunkSize, chunkOverlap)| + |SectionWindows(sections[s], chunkSize, chunkOverlap)|
  {
    hide SectionWindows, ChunkOf;
    assert sections[..s + 1][..s] == sections[..s];
  }

  lemma OneWindow(text: string, ranges: seq<Range>)
    requires Within(text, ranges) && |ranges| == 1 && Strip(Slice(text, ranges[0])) != ""
    ensures WindowsOf(text, ranges) == [Strip(Slice(text, ranges[0]))]
  {
    hide Strip;
    assert ranges[1..] == [];
  }
}
