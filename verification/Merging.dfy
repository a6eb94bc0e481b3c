/** Folding small neighbouring sections into one. */
module Merging {
  import opened Options
  import opened Sequences
  import opened Text
  import opened MarkdownText
  import opened Sections

  // ---------- common prefixes ----------

  ghost predicate IsCommonPrefix(p: seq<string>, a: seq<string>, b: seq<string>) {
    p <= a && p <= b
  }

  method CommonPrefix(a: seq<string>, b: seq<string>) returns (p: seq<string>)
    ensures p == Shared(a, b)
  {
    p := [];
    var i := 0;
    while i < |a| && i < |b| && a[i] == b[i]
      invariant 0 <= i <= |a| && i <= |b|
      invariant p + Shared(a[i..], b[i..]) == Shared(a, b)
    {
      p := p + [a[i]];
      i := i + 1;
    }
  }

  function Shared(a: seq<string>, b: seq<string>): seq<string> {
    if |a| > 0 && |b| > 0 && a[0] == b[0] then [a[0]] + Shared(a[1..], b[1..]) else []
  }

  // The longest of the common prefixes: every other is a prefix of it.
  lemma {:induction false} SharedIsLongest(a: seq<string>, b: seq<string>, p: seq<string>)
    ensures IsCommonPrefix(Shared(a, b), a, b)
    ensures IsCommonPrefix(p, a, b) ==> p <= Shared(a, b)
  {
    if |a| > 0 && |b| > 0 && a[0] == b[0] {
      SharedIsLongest(a[1..], b[1..], if |p| > 0 then p[1..] else p);
    }
  }

  // ---------- merging ----------

  datatype Limits = Limits(target: int, minimum: int)

  predicate Merges(a: Section, b: Section, limits: Limits) {
    |a.content| + |b.content| <= limits.target && (|a.content| < limits.minimum || |b.content| < limits.minimum)
  }

  function Combined(a: Section, b: Section): Section {
    Section(Shared(a.path, b.path), RStrip(a.content, Newline) + "\n\n" + LStrip(b.content, Newline), a.start, b.end)
  }

  // One section out of a run of neighbours.
  function Folded(run: seq<Section>): Section
    requires |run| > 0
  {
    if |run| == 1 then run[0] else Combined(Folded(run[..|run| - 1]), run[|run| - 1])
  }

  // The runs that greedy merging makes of the rest, given the run it is in.
  function Runs(run: seq<Section>, rest: seq<Section>, limits: Limits): (runs: seq<seq<Section>>)
    requires |run| > 0
    ensures |runs| > 0 && forall i :: 0 <= i < |runs| ==> |runs[i]| > 0
    decreases |rest|
  {
    if |rest| == 0 then [run]
    else if Merges(Folded(run), rest[0], limits) then Runs(run + [rest[0]], rest[1..], limits)
    else [run] + Runs([rest[0]], rest[1..], limits)
  }

  function AllRuns(sections: seq<Section>, limits: Limits): (runs: seq<seq<Section>>)
    ensures forall i :: 0 <= i < |runs| ==> |runs[i]| > 0
  {
    if |sections| == 0 then [] else Runs([sections[0]], sections[1..], limits)
  }

  ghost predicate AllFull(runs: seq<seq<Section>>) {
    forall i :: 0 <= i < |runs| ==> |runs[i]| > 0
  }

  function FoldAll(runs: seq<seq<Section>>): (r: seq<Section>)
    requires forall i :: 0 <= i < |runs| ==> |runs[i]| > 0
    ensures |r| == |runs|
  {
    if |runs| == 0 then [] else [Folded(runs[0])] + FoldAll(runs[1..])
  }

  function Merged(sections: seq<Section>, limits: Limits): seq<Section> {
    FoldAll(AllRuns(sections, limits))
  }

  // Folds a section into the last one, or appends it.
  method MergeNext(merged: seq<Section>, s: Section, limits: Limits) returns (r: seq<Section>)
    ensures r == if |merged| > 0 && Merges(merged[|merged| - 1], s, limits)
      then merged[..|merged| - 1] + [Combined(merged[|merged| - 1], s)] else merged + [s]
  {
    r := merged;
    if |merged| > 0 && Merges(merged[|merged| - 1], s, limits) {
      var prev := merged[|merged| - 1];
      var path := CommonPrefix(prev.path, s.path);
      r := r[|r| - 1 := Section(path, RStrip(prev.content, Newline) + "\n\n" + LStrip(s.content, Newline),
          prev.start, s.end)];
    } else {
      r := r + [s];
    }
  }

  method MergeSmall(sections: seq<Section>, limits: Limits) returns (merged: seq<Section>)
    ensures merged == Merged(sections, limits)
  {
    merged := [];
    if |sections| == 0 {
      return;
    }
    ghost var done: seq<seq<Section>>, run: seq<Section> := [], [sections[0]];
    merged := MergeNext(merged, sections[0], limits);
    for i := 1 to |sections|
      invariant MergedSoFar(merged, done, run) && RunsSoFar(sections, i, done, run, limits)
    {
      MergeStep(merged, done, run, sections, i, limits);
      ghost var folds := Merges(Folded(run), sections[i], limits);
      merged := MergeNext(merged, sections[i], limits);
      done := if folds then done else done + [run];
      run := if folds then run + [sections[i]] else [sections[i]];
    }
    FoldAllAppend(done, run);
    assert sections[|sections|..] == [];
  }

  ghost predicate MergedSoFar(merged: seq<Section>, done: seq<seq<Section>>, run: seq<Section>) {
    AllFull(done) && |run| > 0 && merged == FoldAll(done) + [Folded(run)]
  }

  ghost predicate RunsSoFar(sections: seq<Section>, i: nat, done: seq<seq<Section>>, run: seq<Section>,
                            limits: Limits) {
    i <= |sections| && |run| > 0 && done + Runs(run, sections[i..], limits) == AllRuns(sections, limits)
  }

  lemma MergeStep(merged: seq<Section>, done: seq<seq<Section>>, run: seq<Section>, sections: seq<Section>, i: nat,
                  limits: Limits)
    requires i < |sections| && MergedSoFar(merged, done, run) && RunsSoFar(sections, i, done, run, limits)
    ensures |merged| > 0 && merged[|merged| - 1] == Folded(run)
    ensures Merges(Folded(run), sections[i], limits) ==>
      && MergedSoFar(merged[..|merged| - 1] + [Combined(Folded(run), sections[i])], done, run + [sections[i]])
      && RunsSoFar(sections, i + 1, done, run + [sections[i]], limits)
    ensures !Merges(Folded(run), sections[i], limits) ==>
      && MergedSoFar(merged + [sections[i]], done + [run], [sections[i]])
      && RunsSoFar(sections, i + 1, done + [run], [sections[i]], limits)
  {
    var s := sections[i];
    RunsStep(run, sections, i, limits);
    if Merges(Folded(run), s, limits) {
      FoldedGrows(run, s);
      assert merged[..|merged| - 1] == FoldAll(done);
    } else {
      FoldAllAppend(done, run);
      assert Folded([s]) == s;
      Regroup(done, [run], Runs([s], sections[i + 1..], limits));
    }
  }

  // Where the next section goes.
  lemma RunsStep(run: seq<Section>, sections: seq<Section>, i: nat, limits: Limits)
    requires |run| > 0 && i < |sections|
    ensures Runs(run, sections[i..], limits) ==
      if Merges(Folded(run), sections[i], limits) then Runs(run + [sections[i]], sections[i + 1..], limits)
      else [run] + Runs([sections[i]], sections[i + 1..], limits)
  {
    assert sections[i..][1..] == sections[i + 1..];
  }

  lemma FoldedGrows(run: seq<Section>, s: Section)
    requires |run| > 0
    ensures Folded(run + [s]) == Combined(Folded(run), s)
  {
    assert (run + [s])[..|run|] == run;
  }

  lemma {:induction false} FoldAllAppend(runs: seq<seq<Section>>, run: seq<Section>)
    requires |run| > 0 && forall i :: 0 <= i < |runs| ==> |runs[i]| > 0
    ensures FoldAll(runs + [run]) == FoldAll(runs) + [Folded(run)]
  {
    if |runs| == 0 {
      assert runs + [run] == [run];
    } else {
      FoldAllAppend(runs[1..], run);
      assert (runs + [run])[1..] == runs[1..] + [run];
    }
  }

  // ---------- what merging keeps ----------

  lemma {:induction false} RunsPartition(run: seq<Section>, rest: seq<Section>, limits: Limits)
    requires |run| > 0
    ensures Flatten(Runs(run, rest, limits)) == run + rest
    decreases |rest|
  {
    if |rest| == 0 {
      assert Flatten([run][1..]) == [];
    } else if Merges(Folded(run), rest[0], limits) {
      RunsPartition(run + [rest[0]], rest[1..], limits);
      assert run + [rest[0]] + rest[1..] == run + rest;
    } else {
      RunsPartition([rest[0]], rest[1..], limits);
      var tail := Runs([rest[0]], rest[1..], limits);
      assert ([run] + tail)[1..] == tail && [rest[0]] + rest[1..] == rest;
    }
  }

  lemma {:induction false} FoldedKeepsInk(run: seq<Section>)
    requires |run| > 0
    ensures Ink(Folded(run).content) == InkOf(Contents(run))
  {
    var n := |run| - 1;
    ContentsOne(run[n]);
    assert run == run[..n] + [run[n]];
    ContentsConcat(run[..n], [run[n]]);
    if n > 0 {
      FoldedKeepsInk(run[..n]);
      CombinedKeepsInk(Folded(run[..n]), run[n]);
    }
  }

  lemma CombinedKeepsInk(a: Section, b: Section)
    ensures Ink(Combined(a, b).content) == Ink(a.content) + Ink(b.content)
  {
    InkRStrip(a.content, Newline);
    InkLStrip(b.content, Newline);
    AllSpaceHasNoInk("\n\n");
    InkAcross(RStrip(a.content, Newline), "\n\n", LStrip(b.content, Newline));
  }

  lemma {:induction false} FoldAllKeepsInk(runs: seq<seq<Section>>)
    requires forall i :: 0 <= i < |runs| ==> |runs[i]| > 0
    ensures InkOf(Contents(FoldAll(runs))) == InkOf(Contents(Flatten(runs)))
  {
    if |runs| > 0 {
      FoldAllKeepsInk(runs[1..]);
      FoldedKeepsInk(runs[0]);
      ContentsConcat(runs[0], Flatten(runs[1..]));
      ContentsConcat([Folded(runs[0])], FoldAll(runs[1..]));
      ContentsOne(Folded(runs[0]));
    }
  }

  /** Merging conserves text. */
  lemma MergedKeepsInk(sections: seq<Section>, limits: Limits)
    ensures Flatten(AllRuns(sections, limits)) == sections
    ensures InkOf(Contents(Merged(sections, limits))) == InkOf(Contents(sections))
  {
    if |sections| > 0 {
      RunsPartition([sections[0]], sections[1..], limits);
      assert [sections[0]] + sections[1..] == sections;
    }
    FoldAllKeepsInk(AllRuns(sections, limits));
  }

  /** A merged section spans its run and stands under the longest path that all of the run shares. */
  lemma {:induction false} FoldedStandsForRun(run: seq<Section>, p: seq<string>)
    requires |run| > 0
    ensures Folded(run).start == run[0].start && Folded(run).end == run[|run| - 1].end
    ensures forall i :: 0 <= i < |run| ==> Folded(run).path <= run[i].path
    ensures (forall i :: 0 <= i < |run| ==> p <= run[i].path) ==> p <= Folded(run).path
  {
    var n := |run| - 1;
    if n > 0 {
      FoldedStandsForRun(run[..n], p);
      SharedIsLongest(Folded(run[..n]).path, run[n].path, p);
    }
  }

  // ---------- the merge ceiling ----------

  lemma StripLengths(a: string, b: string)
    ensures |RStrip(a, Newline)| <= |a| && |LStrip(b, Newline)| <= |b|
  {
    RStripKeepsHead(a, Newline);
    LStripStarts(b, Newline);
  }

  // A run of two or more was merged, so its parts were within the target.
  ghost predicate WithinCeiling(run: seq<Section>, limits: Limits)
    requires |run| > 0
  {
    |run| > 1 ==> |Folded(run).content| <= limits.target + 2
  }

  /** The joining blank line is not counted: a merged section exceeds the target by two at most. */
  lemma {:induction false} CeilingIsTargetPlusTwo(run: seq<Section>, rest: seq<Section>, limits: Limits)
    requires |run| > 0 && WithinCeiling(run, limits)
    ensures forall r :: r in Runs(run, rest, limits) ==> |r| > 0 && WithinCeiling(r, limits)
    decreases |rest|
  {
    if |rest| > 0 {
      if Merges(Folded(run), rest[0], limits) {
        FoldedGrows(run, rest[0]);
        StripLengths(Folded(run).content, rest[0].content);
        CeilingIsTargetPlusTwo(run + [rest[0]], rest[1..], limits);
      } else {
        CeilingIsTargetPlusTwo([rest[0]], rest[1..], limits);
      }
    }
  }

  // How many newline characters stand at the end and at the start of a text.
  function NewlinesAtEnd(s: string): nat {
    if |s| > 0 && s[|s| - 1] == '\n' then 1 + NewlinesAtEnd(s[..|s| - 1]) else 0
  }

  function NewlinesAtStart(s: string): nat {
    if |s| > 0 && s[0] == '\n' then 1 + NewlinesAtStart(s[1..]) else 0
  }

  lemma {:induction false} NewlinesAreStripped(s: string)
    ensures |RStrip(s, Newline)| + NewlinesAtEnd(s) == |s| && |LStrip(s, Newline)| + NewlinesAtStart(s) == |s|
  {
    NewlinesAtEndAreStripped(s);
    NewlinesAtStartAreStripped(s);
  }

  lemma {:induction false} NewlinesAtEndAreStripped(s: string)
    ensures |RStrip(s, Newline)| + NewlinesAtEnd(s) == |s|
  {
    if |s| > 0 && s[|s| - 1] == '\n' {
      NewlinesAtEndAreStripped(s[..|s| - 1]);
    }
  }

  lemma {:induction false} NewlinesAtStartAreStripped(s: string)
    ensures |LStrip(s, Newline)| + NewlinesAtStart(s) == |s|
  {
    if |s| > 0 && s[0] == '\n' {
      NewlinesAtStartAreStripped(s[1..]);
    }
  }

  /** Merging keeps to the target exactly when the newlines it drops make room for the blank line it adds. */
  lemma WithinTargetExactly(a: Section, b: Section, limits: Limits)
    requires Merges(a, b, limits)
    ensures |Combined(a, b).content| <= limits.target
      <==> 2 <= limits.target - |a.content| - |b.content| + NewlinesAtEnd(a.content) + NewlinesAtStart(b.content)
  {
    NewlinesAreStripped(a.content);
    NewlinesAreStripped(b.content);
  }

  const EXAMPLE := "a\n#\nb"
  const EXAMPLE_HEADINGS := [Heading(1, "", 1, 2)]

  lemma ExampleOffsets()
    ensures Offsets(EXAMPLE) == [0, 2, 4, 5]
  {
    var s := EXAMPLE;
    assert NewlineEnds(s, 1) == [0];
    assert NewlineEnds(s, 2) == [0, 2];
    assert NewlineEnds(s, 3) == [0, 2];
    assert NewlineEnds(s, 4) == [0, 2, 4];
    assert NewlineEnds(s, 5) == [0, 2, 4];
  }

  lemma ExampleSections(note: Note)
    requires note == NoteOf(EXAMPLE, None, EXAMPLE_HEADINGS)
    ensures note.Sound() && |note.Sections()| == 2
    ensures note.Sections()[0].content == "a\n" && note.Sections()[1].content == "b"
  {
    ExampleOffsets();
    NoteIsSound(EXAMPLE, None, EXAMPLE_HEADINGS);
    var body := note.Slice(0, 1);
    assert body == "a\n";
    BlankHasNoInk(body);
    assert Ink(body) != "";
    assert note.Preamble() == [Section([], body, 0, 2)];
    assert note.SectionAt(0).content == note.text[4..5] == "b";
    assert note.FirstSections(1) == note.FirstSections(0) + [note.SectionAt(0)];
  }

  /** The comment's promise fails on a real note: two sections of three characters in all are
      merged under a target of three into a section of four. */
  lemma MergeExceedsTarget(note: Note)
    requires note == NoteOf(EXAMPLE, None, EXAMPLE_HEADINGS)
    ensures note.Sound() && |Merged(note.Sections(), Limits(3, 3))| == 1
    ensures |Merged(note.Sections(), Limits(3, 3))[0].content| == 4
  {
    ExampleSections(note);
    var a, b, limits := note.Sections()[0], note.Sections()[1], Limits(3, 3);
    var joined := Combined(a, b);
    assert a.content[..1] == "a" && RStrip("a", Newline) == "a" && RStrip(a.content, Newline) == "a"
        && LStrip("b", Newline) == "b";
    assert note.Sections() == [a, b];
    assert [a, b][1..] == [b] && [b][1..] == [];
    FoldedGrows([a], b);
    assert [a] + [b] == [a, b];
    assert Runs([a], [b], limits) == Runs([a, b], [], limits) == [[a, b]];
    assert FoldAll([[a, b]]) == [joined];
  }
}
