/** Chunking a note: sections are built, merged and split into numbered chunks. */
module Chunking {
  import opened Options
  import opened Sequences
  import opened Text
  import opened MarkdownText
  import opened Sections
  import opened Merging
  import opened Blocks
  import opened Packing

  datatype Chunk = Chunk(ordinal: nat, path: seq<string>, content: string, start: nat, end: nat)
  datatype Sizes = Sizes(minimum: int, target: int, max: int)
  datatype Outcome = Chunked(chunks: seq<Chunk>) | BadSizes

  predicate SizesValid(sizes: Sizes) { 0 <= sizes.minimum <= sizes.target <= sizes.max }

  // ---------- chunks of a section ----------

  // The pieces with any text in them.
  function Visible(pieces: seq<string>): seq<string> {
    if |pieces| == 0 then []
    else
      var n := |pieces| - 1;
      Visible(pieces[..n]) + (if Blank(pieces[n]) then [] else [pieces[n]])
  }

  function Body(s: Section): string { Strip(s.content, Newline) }

  predicate Ready(s: Section, max: nat) { max >= 1 || Blank(Body(s)) }

  function SectionPieces(s: Section, max: nat): seq<string>
    requires Ready(s, max)
  {
    if Blank(Body(s)) then [] else Visible(Pieces(Body(s), max))
  }

  function Numbered(s: Section, pieces: seq<string>, ordinal: nat): (chunks: seq<Chunk>)
    ensures |chunks| == |pieces|
  {
    seq(|pieces|, i requires 0 <= i < |pieces| => Chunk(ordinal + i, s.path, pieces[i], s.start, s.end))
  }

  ghost predicate AllReady(sections: seq<Section>, max: nat) {
    forall i :: 0 <= i < |sections| ==> Ready(sections[i], max)
  }

  // The pieces of each section.
  function AllPieces(sections: seq<Section>, max: nat): (r: seq<seq<string>>)
    requires AllReady(sections, max)
    ensures |r| == |sections| && forall i :: 0 <= i < |r| ==> r[i] == SectionPieces(sections[i], max)
  {
    seq(|sections|, i requires 0 <= i < |sections| => SectionPieces(sections[i], max))
  }

  // The pieces of the first n sections as chunks, numbered throughout.
  function ChunksOf(sections: seq<Section>, pieces: seq<seq<string>>, n: nat): seq<Chunk>
    requires n <= |sections| == |pieces|
  {
    if n == 0 then []
    else
      var before := ChunksOf(sections, pieces, n - 1);
      before + Numbered(sections[n - 1], pieces[n - 1], |before|)
  }

  function MergedSections(note: Note, sizes: Sizes): seq<Section>
    requires note.Sound()
  {
    Merged(note.Sections(), Limits(sizes.target, sizes.minimum))
  }

  // When chunking ends: a piece may hold a character, or there is no text to hold.
  predicate Chunkable(note: Note, sizes: Sizes)
    requires note.Sound()
  {
    sizes.max >= 1 || Blank(note.Prose(note.Lines()))
  }

  lemma ChunkableIsReady(note: Note, sizes: Sizes)
    requires note.Sound() && SizesValid(sizes) && Chunkable(note, sizes)
    ensures AllReady(MergedSections(note, sizes), sizes.max)
  {
    var merged := MergedSections(note, sizes);
    forall i | 0 <= i < |merged| ensures Ready(merged[i], sizes.max) {
      if sizes.max == 0 {
        MergedKeepsInk(note.Sections(), Limits(sizes.target, sizes.minimum));
        SectionsKeepProse(note);
        BlankHasNoInk(note.Prose(note.Lines()));
        NoInkInParts(Contents(merged), i);
        InkStrip(merged[i].content, Newline);
        BlankHasNoInk(Body(merged[i]));
      }
    }
  }

  lemma {:induction false} NoInkInParts(parts: seq<string>, i: nat)
    requires InkOf(parts) == "" && i < |parts|
    ensures Ink(parts[i]) == ""
  {
    if i > 0 {
      NoInkInParts(parts[1..], i - 1);
    }
  }

  function Chunks(note: Note, sizes: Sizes): seq<Chunk>
    requires note.Sound() && SizesValid(sizes) && Chunkable(note, sizes)
  {
    if Blank(note.text) then []
    else
      var merged := MergedSections(note, sizes);
      assert AllReady(merged, sizes.max) by { ChunkableIsReady(note, sizes); }
      ChunksOf(merged, AllPieces(merged, sizes.max), |merged|)
  }

  // ---------- the code ----------

  lemma NumberedAppend(s: Section, pieces: seq<string>, piece: string, ordinal: nat)
    ensures Numbered(s, pieces + [piece], ordinal)
      == Numbered(s, pieces, ordinal) + [Chunk(ordinal + |pieces|, s.path, piece, s.start, s.end)]
  {
  }

  method AppendPieces(chunks: seq<Chunk>, s: Section, pieces: seq<string>, ordinal: nat)
    returns (r: seq<Chunk>, next: nat)
    ensures r == chunks + Numbered(s, Visible(pieces), ordinal)
    ensures next == ordinal + |Visible(pieces)|
  {
    r, next := chunks, ordinal;
    for j := 0 to |pieces|
      invariant r == chunks + Numbered(s, Visible(pieces[..j]), ordinal)
      invariant next == ordinal + |Visible(pieces[..j])|
    {
      assert pieces[..j + 1][..j] == pieces[..j];
      if !Blank(pieces[j]) {
        NumberedAppend(s, Visible(pieces[..j]), pieces[j], ordinal);
        r := r + [Chunk(next, s.path, pieces[j], s.start, s.end)];
        next := next + 1;
      }
    }
    assert pieces[..|pieces|] == pieces;
  }

  method AppendSection(chunks: seq<Chunk>, s: Section, max: nat, ordinal: nat) returns (r: seq<Chunk>, next: nat)
    requires Ready(s, max)
    ensures r == chunks + Numbered(s, SectionPieces(s, max), ordinal)
    ensures next == ordinal + |SectionPieces(s, max)|
  {
    r, next := chunks, ordinal;
    var body := Strip(s.content, Newline);
    if Blank(body) {
      return;
    }
    var pieces := SplitBody(body, max);
    r, next := AppendPieces(chunks, s, pieces, ordinal);
  }

  method AppendSections(sections: seq<Section>, max: nat) returns (chunks: seq<Chunk>)
    requires AllReady(sections, max)
    ensures chunks == ChunksOf(sections, AllPieces(sections, max), |sections|)
  {
    chunks := [];
    var ordinal: nat := 0;
    ghost var all := AllPieces(sections, max);
    for i := 0 to |sections|
      invariant chunks == ChunksOf(sections, all, i) && ordinal == |chunks|
    {
      ghost var before := chunks;
      chunks, ordinal := AppendSection(chunks, sections[i], max, ordinal);
      assert chunks == before + Numbered(sections[i], all[i], |before|);
    }
  }

  method ChunkMarkdown(text: string, title: Option<string>, headings: seq<Heading>, sizes: Sizes) returns (r: Outcome)
    requires NoteOf(text, title, headings).Sound()
      && (SizesValid(sizes) ==> Chunkable(NoteOf(text, title, headings), sizes))
    ensures r.BadSizes? <==> sizes.minimum < 0 || sizes.target < sizes.minimum || sizes.max < sizes.target
    ensures r == if SizesValid(sizes) then Chunked(Chunks(NoteOf(text, title, headings), sizes)) else BadSizes
  {
    if !(0 <= sizes.minimum <= sizes.target <= sizes.max) {
      return BadSizes;
    }
    if Blank(text) {
      return Chunked([]);
    }
    ghost var note := NoteOf(text, title, headings);
    var sections := BuildSections(text, title, headings);
    sections := MergeSmall(sections, Limits(sizes.target, sizes.minimum));
    ChunkableIsReady(note, sizes);
    var chunks := AppendSections(sections, sizes.max);
    r := Chunked(chunks);
  }

  // ---------- conservation ----------

  function Texts(chunks: seq<Chunk>): (r: seq<string>)
    ensures |r| == |chunks|
  {
    seq(|chunks|, i requires 0 <= i < |chunks| => chunks[i].content)
  }

  lemma {:induction false} VisibleKeepsInk(pieces: seq<string>)
    ensures InkOf(Visible(pieces)) == InkOf(pieces)
  {
    if |pieces| > 0 {
      var n := |pieces| - 1;
      VisibleKeepsInk(pieces[..n]);
      BlankHasNoInk(pieces[n]);
      InkOfOne(pieces[n]);
      InkOfConcat(pieces[..n], [pieces[n]]);
      assert pieces == pieces[..n] + [pieces[n]];
      InkOfConcat(Visible(pieces[..n]), if Blank(pieces[n]) then [] else [pieces[n]]);
    }
  }

  lemma SectionPiecesKeepInk(s: Section, max: nat)
    requires Ready(s, max)
    ensures InkOf(SectionPieces(s, max)) == Ink(s.content)
  {
    InkStrip(s.content, Newline);
    BlankHasNoInk(Body(s));
    if !Blank(Body(s)) {
      PiecesKeepInk(Body(s), max);
      VisibleKeepsInk(Pieces(Body(s), max));
    }
  }

  lemma {:induction false} ChunksOfKeepInk(sections: seq<Section>, pieces: seq<seq<string>>, n: nat)
    requires n <= |sections| == |pieces|
      && forall i :: 0 <= i < |sections| ==> InkOf(pieces[i]) == Ink(sections[i].content)
    ensures InkOf(Texts(ChunksOf(sections, pieces, n))) == InkOf(Contents(sections[..n]))
  {
    if n > 0 {
      var s, before := sections[n - 1], ChunksOf(sections, pieces, n - 1);
      ChunksOfKeepInk(sections, pieces, n - 1);
      TextsNumbered(before, s, pieces[n - 1], |before|);
      assert sections[..n] == sections[..n - 1] + [s];
      ContentsConcat(sections[..n - 1], [s]);
      ContentsOne(s);
    }
  }

  lemma TextsNumbered(before: seq<Chunk>, s: Section, pieces: seq<string>, ordinal: nat)
    ensures InkOf(Texts(before + Numbered(s, pieces, ordinal))) == InkOf(Texts(before)) + InkOf(pieces)
  {
    assert Texts(before + Numbered(s, pieces, ordinal)) == Texts(before) + pieces;
    InkOfConcat(Texts(before), pieces);
  }

  lemma {:induction false} BlankTextHasNoProse(text: string, offsets: seq<nat>, marked: seq<bool>, n: nat)
    requires Ascending(offsets, text) && n <= |marked| == |offsets| - 1 && Ink(text) == ""
    ensures Ink(Unmarked(text, offsets, marked, n)) == ""
  {
    if n > 0 {
      BlankTextHasNoProse(text, offsets, marked, n - 1);
      SliceHasNoInk(text, offsets[n - 1], offsets[n]);
      InkConcat(Unmarked(text, offsets, marked, n - 1), if marked[n - 1] then "" else text[offsets[n - 1]..offsets[n]]);
    }
  }

  lemma SliceHasNoInk(text: string, a: nat, b: nat)
    requires a <= b <= |text| && Ink(text) == ""
    ensures Ink(text[a..b]) == ""
  {
    ThreeParts(text, a, b);
    MiddleHasNoInk(text[..a], text[a..b], text[b..]);
  }

  lemma MiddleHasNoInk(x: string, y: string, z: string)
    requires Ink(x + y + z) == ""
    ensures Ink(y) == ""
  {
    InkConcat3(x, y, z);
  }

  /** Chunking conserves text: in order, the chunks say what the note says outside its heading lines. */
  lemma ChunksKeepText(note: Note, sizes: Sizes)
    requires note.Sound() && SizesValid(sizes) && Chunkable(note, sizes)
    ensures InkOf(Texts(Chunks(note, sizes))) == Ink(note.Prose(note.Lines()))
  {
    if Blank(note.text) {
      BlankHasNoInk(note.text);
      BlankTextHasNoProse(note.text, note.offsets, note.HeadingLines(), note.Lines());
    } else {
      var merged := MergedSections(note, sizes);
      ChunkableIsReady(note, sizes);
      forall i | 0 <= i < |merged| ensures InkOf(AllPieces(merged, sizes.max)[i]) == Ink(merged[i].content) {
        SectionPiecesKeepInk(merged[i], sizes.max);
      }
      ChunksOfKeepInk(merged, AllPieces(merged, sizes.max), |merged|);
      assert merged[..|merged|] == merged;
      MergedKeepsInk(note.Sections(), Limits(sizes.target, sizes.minimum));
      SectionsKeepProse(note);
    }
  }

  // ---------- the shape of chunks ----------

  ghost predicate Proper(chunks: seq<Chunk>, max: int) {
    forall i :: 0 <= i < |chunks| ==> chunks[i].ordinal == i && !Blank(chunks[i].content) && |chunks[i].content| <= max
  }

  lemma {:induction false} VisibleAreVisible(pieces: seq<string>, max: nat)
    requires forall i :: 0 <= i < |pieces| ==> |pieces[i]| <= max
    ensures forall i :: 0 <= i < |Visible(pieces)| ==> !Blank(Visible(pieces)[i]) && |Visible(pieces)[i]| <= max
  {
    if |pieces| > 0 {
      VisibleAreVisible(pieces[..|pieces| - 1], max);
    }
  }

  ghost predicate AreVisible(pieces: seq<string>, max: int) {
    forall i :: 0 <= i < |pieces| ==> !Blank(pieces[i]) && |pieces[i]| <= max
  }

  lemma SectionPiecesAreVisible(s: Section, max: nat)
    requires Ready(s, max)
    ensures AreVisible(SectionPieces(s, max), max)
  {
    if !Blank(Body(s)) {
      PiecesKeepInk(Body(s), max);
      VisibleAreVisible(Pieces(Body(s), max), max);
    }
  }

  lemma ProperGrows(before: seq<Chunk>, s: Section, pieces: seq<string>, max: nat)
    requires Proper(before, max) && AreVisible(pieces, max)
    ensures Proper(before + Numbered(s, pieces, |before|), max)
  {
  }

  lemma {:induction false} ChunksOfAreProper(sections: seq<Section>, pieces: seq<seq<string>>, n: nat, max: nat)
    requires n <= |sections| == |pieces| && forall i :: 0 <= i < |pieces| ==> AreVisible(pieces[i], max)
    ensures Proper(ChunksOf(sections, pieces, n), max)
  {
    if n > 0 {
      ChunksOfAreProper(sections, pieces, n - 1, max);
      ProperGrows(ChunksOf(sections, pieces, n - 1), sections[n - 1], pieces[n - 1], max);
    }
  }

  /** Every chunk has text, is no longer than the maximum and carries its position. */
  lemma ChunksAreProper(note: Note, sizes: Sizes)
    requires note.Sound() && SizesValid(sizes) && Chunkable(note, sizes)
    ensures Proper(Chunks(note, sizes), sizes.max)
  {
    if !Blank(note.text) {
      var merged := MergedSections(note, sizes);
      ChunkableIsReady(note, sizes);
      forall i | 0 <= i < |merged| ensures AreVisible(AllPieces(merged, sizes.max)[i], sizes.max) {
        SectionPiecesAreVisible(merged[i], sizes.max);
      }
      ChunksOfAreProper(merged, AllPieces(merged, sizes.max), |merged|, sizes.max);
    }
  }

  // ---------- where chunks come from ----------

  predicate ComesFrom(c: Chunk, s: Section, pieces: seq<string>) {
    c.path == s.path && c.start == s.start && c.end == s.end && c.content in pieces
  }

  lemma {:induction false} ChunkOrigin(sections: seq<Section>, pieces: seq<seq<string>>, n: nat, c: nat)
    returns (k: nat)
    requires n <= |sections| == |pieces| && c < |ChunksOf(sections, pieces, n)|
    ensures k < n && ComesFrom(ChunksOf(sections, pieces, n)[c], sections[k], pieces[k])
  {
    var before := ChunksOf(sections, pieces, n - 1);
    if c < |before| {
      k := ChunkOrigin(sections, pieces, n - 1, c);
    } else {
      k := n - 1;
      assert ChunksOf(sections, pieces, n)[c].content == pieces[k][c - |before|];
    }
  }

  // Every piece of a section becomes a chunk.
  lemma {:induction false} PieceBecomesChunk(sections: seq<Section>, pieces: seq<seq<string>>, n: nat, k: nat,
                                             p: nat) returns (c: nat)
    requires k < n <= |sections| == |pieces| && p < |pieces[k]|
    ensures c < |ChunksOf(sections, pieces, n)| && ChunksOf(sections, pieces, n)[c].content == pieces[k][p]
  {
    if k == n - 1 {
      c := |ChunksOf(sections, pieces, n - 1)| + p;
    } else {
      c := PieceBecomesChunk(sections, pieces, n - 1, k, p);
    }
  }

  lemma {:induction false} FoldAllAt(runs: seq<seq<Section>>, k: nat)
    requires k < |runs| && forall i :: 0 <= i < |runs| ==> |runs[i]| > 0
    ensures FoldAll(runs)[k] == Folded(runs[k])
  {
    if k > 0 {
      FoldAllAt(runs[1..], k - 1);
    }
  }

  /** A chunk spans a run of neighbouring sections, under the longest path that all of them share. */
  lemma ChunkStandsForRun(note: Note, sizes: Sizes, c: nat, p: seq<string>) returns (run: seq<Section>)
    requires note.Sound() && SizesValid(sizes) && Chunkable(note, sizes) && c < |Chunks(note, sizes)|
    ensures run in AllRuns(note.Sections(), Limits(sizes.target, sizes.minimum)) && |run| > 0
    ensures var chunk := Chunks(note, sizes)[c];
      && chunk.start == run[0].start && chunk.end == run[|run| - 1].end
      && (forall i :: 0 <= i < |run| ==> chunk.path <= run[i].path)
      && ((forall i :: 0 <= i < |run| ==> p <= run[i].path) ==> p <= chunk.path)
  {
    var merged := MergedSections(note, sizes);
    var runs := AllRuns(note.Sections(), Limits(sizes.target, sizes.minimum));
    ChunkableIsReady(note, sizes);
    var k := ChunkOrigin(merged, AllPieces(merged, sizes.max), |merged|, c);
    run := runs[k];
    FoldAllAt(runs, k);
    FoldedStandsForRun(run, p);
  }

  lemma {:induction false} VisibleHas(pieces: seq<string>, p: nat) returns (v: nat)
    requires p < |pieces| && !Blank(pieces[p])
    ensures v < |Visible(pieces)| && Visible(pieces)[v] == pieces[p]
  {
    var n := |pieces| - 1;
    if p == n {
      v := |Visible(pieces[..n])|;
    } else {
      v := VisibleHas(pieces[..n], p);
    }
  }

  lemma InkStands(part: string, piece: string, at: nat)
    requires StandsIn(part, piece, at) && Ink(part) != ""
    ensures !Blank(piece)
  {
    BlankHasNoInk(piece);
    InkConcat3(piece[..at], part, piece[at + |part|..]);
    assert piece == piece[..at] + part + piece[at + |part|..];
  }

  // A block that fits stands whole in one visible piece of its section.
  lemma BlockStaysInSection(s: Section, max: nat, b: nat)
    requires |Body(s)| > max >= 1 && b < |BlocksOf(Body(s))| && |BlocksOf(Body(s))[b]| <= max
    ensures InSomePiece(BlocksOf(Body(s))[b], SectionPieces(s, max))
  {
    var body := Body(s);
    var block, pieces := BlocksOf(body)[b], Pieces(body, max);
    BlocksAreParagraphsOrFences(body);
    BlocksAreNotEmpty(GroupsOf(body), b);
    BlocksStayWhole(body, max, b);
    if Blank(body) {
      BlankHasNoBlocks(body);
    }
    StaysVisible(block, pieces);
  }

  lemma StaysVisible(block: string, pieces: seq<string>)
    requires Ink(block) != "" && InSomePiece(block, pieces)
    ensures InSomePiece(block, Visible(pieces))
  {
    var q, at: nat :| 0 <= q < |pieces| && StandsIn(block, pieces[q], at);
    InkStands(block, pieces[q], at);
    var p := VisibleHas(pieces, q);
  }

  /** A paragraph or fence that fits is never torn: it stands whole in one chunk. */
  lemma BlockStaysInChunk(note: Note, sizes: Sizes, k: nat, b: nat)
    requires note.Sound() && SizesValid(sizes) && sizes.max >= 1 && !Blank(note.text)
    requires k < |MergedSections(note, sizes)|
    requires var body := Body(MergedSections(note, sizes)[k]);
      |body| > sizes.max && b < |BlocksOf(body)| && |BlocksOf(body)[b]| <= sizes.max
    ensures InSomePiece(BlocksOf(Body(MergedSections(note, sizes)[k]))[b], Texts(Chunks(note, sizes)))
  {
    var merged := MergedSections(note, sizes);
    ChunkableIsReady(note, sizes);
    BlockStaysInSection(merged[k], sizes.max, b);
    InSomeChunk(merged, AllPieces(merged, sizes.max), k, BlocksOf(Body(merged[k]))[b]);
  }

  lemma InSomeChunk(sections: seq<Section>, pieces: seq<seq<string>>, k: nat, block: string)
    requires k < |sections| == |pieces| && InSomePiece(block, pieces[k])
    ensures InSomePiece(block, Texts(ChunksOf(sections, pieces, |sections|)))
  {
    var p, at: nat :| 0 <= p < |pieces[k]| && StandsIn(block, pieces[k][p], at);
    var c := PieceBecomesChunk(sections, pieces, |sections|, k, p);
    assert Texts(ChunksOf(sections, pieces, |sections|))[c] == pieces[k][p];
  }

  /** A section no longer than the maximum is one chunk, whole. */
  lemma SmallSectionIsOneChunk(s: Section, max: nat)
    requires !Blank(Body(s)) && |Body(s)| <= max
    ensures SectionPieces(s, max) == [Body(s)]
  {
    assert [Body(s)][..0] == [];
    assert Visible([Body(s)][..0]) == [];
  }

  // ---------- chunk spans ----------

  lemma DisjointParts(a: seq<Section>, b: seq<Section>, bound: nat)
    requires Disjoint(a + b, bound)
    ensures Disjoint(a, bound) && Disjoint(b, bound)
    ensures forall i, j :: 0 <= i < |a| && 0 <= j < |b| ==> a[i].end <= b[j].start
  {
    var all := a + b;
    assert forall i :: 0 <= i < |a| ==> a[i] == all[i];
    assert forall j :: 0 <= j < |b| ==> b[j] == all[|a| + j];
  }

  lemma RunSpan(run: seq<Section>, bound: nat)
    requires |run| > 0 && Disjoint(run, bound)
    ensures run[0].start <= run[|run| - 1].end <= bound
  {
  }

  // A later merged section starts where some section does.
  lemma {:induction false} FoldAllStarts(runs: seq<seq<Section>>, bound: nat)
    requires forall i :: 0 <= i < |runs| ==> |runs[i]| > 0
    requires forall j :: 0 <= j < |Flatten(runs)| ==> bound <= Flatten(runs)[j].start
    ensures forall k :: 0 <= k < |runs| ==> bound <= FoldAll(runs)[k].start
  {
    if |runs| > 0 {
      var rest := Flatten(runs[1..]);
      assert Flatten(runs)[0] == runs[0][0];
      assert forall j :: 0 <= j < |rest| ==> rest[j] == Flatten(runs)[|runs[0]| + j];
      FoldAllStarts(runs[1..], bound);
      FoldedStandsForRun(runs[0], []);
    }
  }

  lemma {:induction false} FoldAllDisjoint(runs: seq<seq<Section>>, bound: nat)
    requires (forall i :: 0 <= i < |runs| ==> |runs[i]| > 0) && Disjoint(Flatten(runs), bound)
    ensures Disjoint(FoldAll(runs), bound)
  {
    if |runs| > 0 {
      var head, rest := Folded(runs[0]), FoldAll(runs[1..]);
      DisjointParts(runs[0], Flatten(runs[1..]), bound);
      FoldAllDisjoint(runs[1..], bound);
      RunSpan(runs[0], bound);
      FoldedStandsForRun(runs[0], []);
      FoldAllStarts(runs[1..], head.end);
      DisjointCons(head, rest, bound);
    }
  }

  lemma DisjointCons(head: Section, rest: seq<Section>, bound: nat)
    requires head.start <= head.end <= bound && Disjoint(rest, bound)
      && forall k :: 0 <= k < |rest| ==> head.end <= rest[k].start
    ensures Disjoint([head] + rest, bound)
  {
  }

  // Of two chunks, the later has the same span or a later one.
  ghost predicate SpansOrdered(chunks: seq<Chunk>) {
    forall i, j :: 0 <= i < j < |chunks| ==>
      (chunks[i].start == chunks[j].start && chunks[i].end == chunks[j].end) || chunks[i].end <= chunks[j].start
  }

  lemma SpansGrow(before: seq<Chunk>, s: Section, pieces: seq<string>)
    requires SpansOrdered(before) && forall i :: 0 <= i < |before| ==> before[i].end <= s.start
    ensures SpansOrdered(before + Numbered(s, pieces, |before|))
  {
  }

  lemma {:induction false} ChunksOfSpans(sections: seq<Section>, pieces: seq<seq<string>>, n: nat, bound: nat)
    requires n <= |sections| == |pieces| && Disjoint(sections, bound)
    ensures SpansOrdered(ChunksOf(sections, pieces, n))
  {
    if n > 0 {
      var before := ChunksOf(sections, pieces, n - 1);
      ChunksOfSpans(sections, pieces, n - 1, bound);
      forall i | 0 <= i < |before| ensures before[i].end <= sections[n - 1].start {
        var k := ChunkOrigin(sections, pieces, n - 1, i);
      }
      SpansGrow(before, sections[n - 1], pieces[n - 1]);
    }
  }

  /** Chunk spans follow the note: later chunks never point back, and spans never partly overlap. */
  lemma ChunkSpansAreOrdered(note: Note, sizes: Sizes)
    requires note.Sound() && SizesValid(sizes) && Chunkable(note, sizes)
    ensures SpansOrdered(Chunks(note, sizes))
  {
    if !Blank(note.text) {
      var merged := MergedSections(note, sizes);
      SectionsAreSlices(note);
      MergedKeepsInk(note.Sections(), Limits(sizes.target, sizes.minimum));
      FoldAllDisjoint(AllRuns(note.Sections(), Limits(sizes.target, sizes.minimum)), |note.text|);
      ChunkableIsReady(note, sizes);
      ChunksOfSpans(merged, AllPieces(merged, sizes.max), |merged|, |note.text|);
    }
  }

  // ---------- exactly when chunking ends ----------

  lemma {:induction false} SomePartHasInk(parts: seq<string>) returns (k: nat)
    requires InkOf(parts) != ""
    ensures k < |parts| && Ink(parts[k]) != "" && forall i :: 0 <= i < k ==> Ink(parts[i]) == ""
  {
    if Ink(parts[0]) != "" {
      k := 0;
    } else {
      var rest := SomePartHasInk(parts[1..]);
      k := rest + 1;
      assert forall i :: 0 < i < k ==> parts[i] == parts[1..][i - 1];
    }
  }

  lemma BodyHasSameInk(s: Section)
    ensures Blank(Body(s)) <==> Ink(s.content) == ""
  {
    InkStrip(s.content, Newline);
    BlankHasNoInk(Body(s));
  }

  // The first section with text, in a note that has text outside its heading lines.
  lemma FirstSectionWithText(note: Note, sizes: Sizes) returns (k: nat)
    requires note.Sound() && SizesValid(sizes) && !Blank(note.Prose(note.Lines()))
    ensures var merged := MergedSections(note, sizes);
      k < |merged| && !Blank(Body(merged[k])) && forall i :: 0 <= i < k ==> Blank(Body(merged[i]))
  {
    var merged := MergedSections(note, sizes);
    MergedKeepsInk(note.Sections(), Limits(sizes.target, sizes.minimum));
    SectionsKeepProse(note);
    BlankHasNoInk(note.Prose(note.Lines()));
    k := SomePartHasInk(Contents(merged));
    forall i | 0 <= i <= k ensures Blank(Body(merged[i])) <==> i != k {
      BodyHasSameInk(merged[i]);
      assert Contents(merged)[i] == merged[i].content;
    }
  }

  /** The code can split every section exactly when the note is chunkable. */
  lemma ReadyExactly(note: Note, sizes: Sizes)
    requires note.Sound() && SizesValid(sizes)
    ensures AllReady(MergedSections(note, sizes), sizes.max) <==> Chunkable(note, sizes)
  {
    if Chunkable(note, sizes) {
      ChunkableIsReady(note, sizes);
    } else {
      var k := FirstSectionWithText(note, sizes);
      assert !Ready(MergedSections(note, sizes)[k], sizes.max);
    }
  }

  lemma TextHasInk(note: Note)
    requires note.Sound() && !Blank(note.Prose(note.Lines()))
    ensures !Blank(note.text)
  {
    BlankHasNoInk(note.text);
    BlankHasNoInk(note.Prose(note.Lines()));
    if Blank(note.text) {
      BlankTextHasNoProse(note.text, note.offsets, note.HeadingLines(), note.Lines());
    }
  }

  /** On any other note the code never ends: the text is not blank, the sections before the k-th
      have no text and are passed over, and the first unit of the first block of the k-th is one
      that no number of cuts makes short enough. */
  lemma OtherwiseNeverEnds(note: Note, sizes: Sizes) returns (k: nat, unit: string)
    requires note.Sound() && SizesValid(sizes) && !Chunkable(note, sizes)
    ensures !Blank(note.text) && k < |MergedSections(note, sizes)|
    ensures forall i :: 0 <= i < k ==> Blank(Body(MergedSections(note, sizes)[i]))
    ensures var body := Body(MergedSections(note, sizes)[k]);
      && !Blank(body) && |body| > sizes.max
      && |BlocksOf(body)| > 0 && |BlocksOf(body)[0]| > sizes.max
      && |Units(BlocksOf(body)[0])| > 0
         && unit == Held("", Separator(BlocksOf(body)[0]), Units(BlocksOf(body)[0])[0], sizes.max)
    ensures forall n: nat :: |AfterCuts(unit, sizes.max, n)| > sizes.max
  {
    TextHasInk(note);
    k := FirstSectionWithText(note, sizes);
    var body := Body(MergedSections(note, sizes)[k]);
    ZeroMaximumNeverEnds(body);
    unit := Units(BlocksOf(body)[0])[0];
  }
}
