/** What a chunk's section and text are, end to end. */
module ChunkLaws {
  import opened Options
  import opened Text
  import opened MarkdownText
  import opened Sections
  import opened Merging
  import opened MergeLaws
  import opened Packing
  import opened Chunking

  /** The sections that are split are the runs of the note's sections that are joined under these sizes:
      the target bounds a join, and the minimum is what one side of it must fall short of. */
  lemma SplitSectionsAreRuns(note: Note, sizes: Sizes) returns (runs: seq<seq<Section>>)
    requires note.Sound()
    ensures AllFull(runs) && RightRuns(note.Sections(), runs, sizes.target, sizes.minimum)
    ensures MergedSections(note, sizes) == FoldAll(runs)
  {
    var limits := Limits(sizes.target, sizes.minimum);
    runs := AllRuns(note.Sections(), limits);
    MergesExactlyTheSmall(note.Sections(), runs, limits);
  }

  ghost predicate AllNewlines(s: string) {
    forall i :: 0 <= i < |s| ==> s[i] == '\n'
  }

  lemma Around(s: string, i: nat, k: nat)
    requires i + k <= |s|
    ensures s == s[..i] + s[i..][..k] + s[i + k..]
  {
  }

  /** A section's text is its content without the newlines around it, and only those. */
  lemma BodyIsContent(s: Section) returns (front: string, back: string)
    ensures s.content == front + Body(s) + back && AllNewlines(front) && AllNewlines(back)
    ensures Body(s) != "" ==> Body(s)[0] != '\n' && Body(s)[|Body(s)| - 1] != '\n'
  {
    var i := LStripIs(s.content);
    var left := s.content[i..];
    var k := RStripIs(left);
    front, back := s.content[..i], s.content[i + k..];
    Around(s.content, i, k);
    assert back == left[k..];
    if k > 0 {
      assert left[..k][0] == s.content[i];
    }
  }

  /** A section no longer than the maximum is one chunk: its content, without the newlines around it. */
  lemma SmallSectionIsItsContent(s: Section, max: nat) returns (front: string, text: string, back: string)
    requires !Blank(s.content) && |s.content| <= max
    ensures SectionPieces(s, max) == [text] && s.content == front + text + back
    ensures AllNewlines(front) && AllNewlines(back) && text != ""
    ensures text[0] != '\n' && text[|text| - 1] != '\n'
  {
    text := Body(s);
    front, back := BodyIsContent(s);
    BlankHasNoInk(s.content);
    BlankHasNoInk(text);
    InkStrip(s.content, Newline);
    SmallSectionIsOneChunk(s, max);
  }
}
