/**
 The sections of a note: one per heading, plus the text before the first, each under the
 headings that enclose it.
 */
module Sections {
  import opened Options
  import opened Sequences
  import opened Text
  import opened MarkdownText

  // A heading occupies lines open..body; level is 1 to 6.
  datatype Heading = Heading(level: nat, text: string, open: nat, body: nat)
  datatype Section = Section(path: seq<string>, content: string, start: nat, end: nat)

  // What the markdown parser promises: ordered headings on disjoint ranges of the text's lines.
  ghost predicate Ordered(headings: seq<Heading>, lines: nat) {
    && (forall i :: 0 <= i < |headings| ==> 1 <= headings[i].level <= 6 && headings[i].open < headings[i].body <= lines)
    && (forall i, j :: 0 <= i < j < |headings| ==> headings[i].body <= headings[j].open)
  }

  ghost predicate Ascending(offsets: seq<nat>, text: string) {
    && |offsets| > 0 && offsets[0] == 0 && offsets[|offsets| - 1] == |text|
    && (forall i, j :: 0 <= i <= j < |offsets| ==> offsets[i] <= offsets[j])
  }

  // ---------- header paths ----------

  function Hashes(level: nat): string {
    if level == 0 then "" else "#" + Hashes(level - 1)
  }

  function Label(level: nat, text: string): string {
    Hashes(level) + " " + text
  }

  predicate StartsWith(s: string, prefix: string) { prefix <= s }

  predicate Truthy(title: Option<string>) { title.Some? && title.value != "" }

  function WithTitle(title: Option<string>, labels: seq<string>): seq<string> {
    if Truthy(title) && !(|labels| > 0 && StartsWith(labels[0], "# ")) then [Label(1, title.value)] + labels else labels
  }

  // Drops the open headings that a heading of this level closes.
  function Closed(headings: seq<Heading>, stack: seq<nat>, level: nat): (r: seq<nat>)
    requires forall i :: 0 <= i < |stack| ==> stack[i] < |headings|
    ensures r <= stack
  {
    if |stack| > 0 && headings[stack[|stack| - 1]].level >= level then Closed(headings, stack[..|stack| - 1], level)
    else stack
  }

  // The headings open after the first n, outermost first.
  function OpenAfter(headings: seq<Heading>, n: nat): (stack: seq<nat>)
    requires n <= |headings|
    ensures forall i :: 0 <= i < |stack| ==> stack[i] < n
  {
    if n == 0 then [] else Closed(headings, OpenAfter(headings, n - 1), headings[n - 1].level) + [n - 1]
  }

  // Heading j encloses the text after heading n - 1: nothing since then is at its level or above.
  ghost predicate Encloses(headings: seq<Heading>, j: nat, n: nat)
    requires n <= |headings|
  {
    j < n && forall k :: j < k < n ==> headings[j].level < headings[k].level
  }

  ghost predicate Nested(headings: seq<Heading>, stack: seq<nat>) {
    && (forall i :: 0 <= i < |stack| ==> stack[i] < |headings|)
    && (forall i, k :: 0 <= i < k < |stack| ==>
          stack[i] < stack[k] && headings[stack[i]].level < headings[stack[k]].level)
  }

  lemma NestedPrefix(headings: seq<Heading>, stack: seq<nat>, n: nat)
    requires Nested(headings, stack) && n <= |stack|
    ensures Nested(headings, stack[..n])
  {
    var s := stack[..n];
    assert forall i :: 0 <= i < |s| ==> s[i] == stack[i];
  }

  // In a nested stack the top is the deepest.
  lemma TopIsDeepest(headings: seq<Heading>, stack: seq<nat>, i: nat)
    requires Nested(headings, stack) && i < |stack|
    ensures headings[stack[i]].level <= headings[stack[|stack| - 1]].level
  {
    if i < |stack| - 1 {
      assert headings[stack[i]].level < headings[stack[|stack| - 1]].level;
    }
  }

  // What is kept lies above the new level, what is dropped at it or below.
  ghost predicate Divides(headings: seq<Heading>, stack: seq<nat>, kept: nat, level: nat) {
    && kept <= |stack| && (forall i :: 0 <= i < |stack| ==> stack[i] < |headings|)
    && (forall i :: 0 <= i < kept ==> headings[stack[i]].level < level)
    && (forall i :: kept <= i < |stack| ==> headings[stack[i]].level >= level)
  }

  lemma DividesOneMore(headings: seq<Heading>, stack: seq<nat>, kept: nat, level: nat)
    requires |stack| > 0 && Divides(headings, stack[..|stack| - 1], kept, level)
    requires stack[|stack| - 1] < |headings| && headings[stack[|stack| - 1]].level >= level
    ensures Divides(headings, stack, kept, level)
  {
    var s := stack[..|stack| - 1];
    assert forall i :: 0 <= i < |s| ==> s[i] == stack[i];
  }

  lemma {:induction false} ClosedKeepsLower(headings: seq<Heading>, stack: seq<nat>, level: nat)
    requires Nested(headings, stack)
    ensures Divides(headings, stack, |Closed(headings, stack, level)|, level)
  {
    if |stack| > 0 {
      var top := headings[stack[|stack| - 1]];
      if top.level >= level {
        NestedPrefix(headings, stack, |stack| - 1);
        ClosedKeepsLower(headings, stack[..|stack| - 1], level);
        DividesOneMore(headings, stack, |Closed(headings, stack, level)|, level);
      } else {
        forall i | 0 <= i < |stack| ensures headings[stack[i]].level < level {
          TopIsDeepest(headings, stack, i);
        }
      }
    }
  }

  // A heading stays open exactly when the next one is deeper.
  lemma EnclosesNext(headings: seq<Heading>, j: nat, n: nat)
    requires n < |headings|
    ensures Encloses(headings, j, n + 1)
      <==> j == n || (Encloses(headings, j, n) && headings[j].level < headings[n].level)
  {
    if j < n && Encloses(headings, j, n) && headings[j].level < headings[n].level {
      forall k | j < k < n + 1 ensures headings[j].level < headings[k].level {
        assert k == n || k < n;
      }
    }
  }

  lemma ClosedMembers(headings: seq<Heading>, stack: seq<nat>, level: nat, j: nat)
    requires Nested(headings, stack) && j < |headings|
    ensures j in Closed(headings, stack, level) <==> j in stack && headings[j].level < level
  {
    ClosedKeepsLower(headings, stack, level);
    var r := Closed(headings, stack, level);
    assert forall i :: 0 <= i < |r| ==> r[i] == stack[i];
  }

  lemma ClosedNested(headings: seq<Heading>, stack: seq<nat>, n: nat)
    requires n < |headings| && Nested(headings, stack) && forall i :: 0 <= i < |stack| ==> stack[i] < n
    ensures Nested(headings, Closed(headings, stack, headings[n].level) + [n])
  {
    ClosedKeepsLower(headings, stack, headings[n].level);
    var r := Closed(headings, stack, headings[n].level);
    NestedPrefix(headings, stack, |r|);
    assert r == stack[..|r|];
    NestedGrows(headings, r, n);
  }

  lemma NestedGrows(headings: seq<Heading>, stack: seq<nat>, n: nat)
    requires n < |headings| && Nested(headings, stack)
    requires forall i :: 0 <= i < |stack| ==> stack[i] < n && headings[stack[i]].level < headings[n].level
    ensures Nested(headings, stack + [n])
  {
  }

  /** The stack of labels is, in order, exactly the headings that enclose the text at hand. */
  lemma {:induction false} OpenIsEnclosing(headings: seq<Heading>, n: nat)
    requires n <= |headings|
    ensures AreEnclosing(headings, OpenAfter(headings, n), n)
  {
    if n > 0 {
      OpenIsEnclosing(headings, n - 1);
      EnclosingStep(headings, n);
    }
  }

  // The stack is nested, and holds exactly the headings that enclose the text after the first n.
  ghost predicate AreEnclosing(headings: seq<Heading>, stack: seq<nat>, n: nat)
    requires n <= |headings|
  {
    Nested(headings, stack) && forall j: nat :: j in stack <==> Encloses(headings, j, n)
  }

  lemma EnclosingStep(headings: seq<Heading>, n: nat)
    requires 0 < n <= |headings| && AreEnclosing(headings, OpenAfter(headings, n - 1), n - 1)
    ensures AreEnclosing(headings, OpenAfter(headings, n), n)
  {
    EnclosingNext(headings, OpenAfter(headings, n - 1), n - 1);
  }

  lemma EnclosingNext(headings: seq<Heading>, before: seq<nat>, n: nat)
    requires n < |headings| && AreEnclosing(headings, before, n)
    ensures AreEnclosing(headings, Closed(headings, before, headings[n].level) + [n], n + 1)
  {
    var after := Closed(headings, before, headings[n].level) + [n];
    assert forall i :: 0 <= i < |before| ==> before[i] in before;
    ClosedNested(headings, before, n);
    forall j: nat ensures j in after <==> Encloses(headings, j, n + 1) {
      if j <= n {
        ClosedMembers(headings, before, headings[n].level, j);
        EnclosesNext(headings, j, n);
      }
    }
  }

  function Labels(headings: seq<Heading>, stack: seq<nat>): (r: seq<string>)
    requires forall i :: 0 <= i < |stack| ==> stack[i] < |headings|
    ensures |r| == |stack|
  {
    seq(|stack|, i requires 0 <= i < |stack| => var h := headings[stack[i]]; Label(h.level, h.text))
  }

  function PathAfter(title: Option<string>, headings: seq<Heading>, n: nat): seq<string>
    requires n <= |headings|
  {
    WithTitle(title, Labels(headings, OpenAfter(headings, n)))
  }

  lemma OnlyLevelOneIsTop(level: nat, text: string)
    requires level >= 1
    ensures StartsWith(Label(level, text), "# ") <==> level == 1
  {
    if level == 1 {
      assert Hashes(1) == "#";
      assert Label(1, text)[..2] == "# ";
    } else {
      assert Hashes(level) == "#" + ("#" + Hashes(level - 2));
      assert Label(level, text)[1] == '#';
    }
  }

  /** The title leads a path exactly when no level-one heading encloses the text. */
  lemma TitleLeads(title: Option<string>, headings: seq<Heading>, n: nat, lines: nat)
    requires n <= |headings| && Ordered(headings, lines)
    ensures var labels := Labels(headings, OpenAfter(headings, n));
      PathAfter(title, headings, n) ==
        if Truthy(title) && !(exists j: nat :: Encloses(headings, j, n) && headings[j].level == 1)
        then [Label(1, title.value)] + labels else labels
  {
    var stack := OpenAfter(headings, n);
    OpenIsEnclosing(headings, n);
    if |stack| > 0 {
      OnlyLevelOneIsTop(headings[stack[0]].level, headings[stack[0]].text);
      assert Encloses(headings, stack[0], n);
      forall j: nat | Encloses(headings, j, n) && headings[j].level == 1 ensures headings[stack[0]].level == 1 {
        var i :| 0 <= i < |stack| && stack[i] == j;
      }
    }
  }

  // ---------- building sections ----------

  // A note to be chunked: its text, where its lines start, its title and its headings.
  datatype Note = Note(text: string, offsets: seq<nat>, title: Option<string>, headings: seq<Heading>) {
    ghost predicate Sound() {
      Ascending(offsets, text) && Ordered(headings, |offsets| - 1)
    }

    function Lines(): nat
      requires |offsets| > 0
    {
      |offsets| - 1
    }

    // The line on which the n-th heading opens, or the end of the note.
    function Opens(n: nat): nat
      requires |offsets| > 0
    {
      if n < |headings| then headings[n].open else Lines()
    }

    // Where the n-th heading opens in the text, and the prose before it.
    function Bound(n: nat): (p: nat)
      requires Sound()
      ensures p <= |text|
    {
      offsets[Opens(n)]
    }

    function ProseBefore(n: nat): string
      requires Sound()
    {
      Prose(Opens(n))
    }

    function Slice(a: nat, b: nat): string
      requires Sound() && a <= b <= Lines()
    {
      text[offsets[a]..offsets[b]]
    }

    // The body of the i-th heading.
    function SectionAt(i: nat): Section
      requires Sound() && i < |headings|
    {
      var from, to := headings[i].body, Opens(i + 1);
      Section(PathAfter(title, headings, i + 1), Slice(from, to), offsets[from], offsets[to])
    }

    function Preamble(): seq<Section>
      requires Sound()
    {
      var body := Slice(0, Opens(0));
      if Opens(0) > 0 && !Blank(body) then [Section(WithTitle(title, []), body, 0, offsets[Opens(0)])] else []
    }

    function FirstSections(n: nat): seq<Section>
      requires Sound() && n <= |headings|
    {
      if n == 0 then Preamble() else FirstSections(n - 1) + [SectionAt(n - 1)]
    }

    function Sections(): seq<Section>
      requires Sound()
    {
      FirstSections(|headings|)
    }

    predicate InHeading(line: nat) {
      exists i :: 0 <= i < |headings| && headings[i].open <= line < headings[i].body
    }

    function HeadingLines(): seq<bool>
      requires |offsets| > 0
    {
      seq(Lines(), l requires 0 <= l => InHeading(l))
    }

    // The first n lines of the text, without those of headings.
    function Prose(n: nat): string
      requires Sound() && n <= Lines()
    {
      Unmarked(text, offsets, HeadingLines(), n)
    }
  }

  // The first n lines, without the marked ones.
  function Unmarked(text: string, offsets: seq<nat>, marked: seq<bool>, n: nat): string
    requires Ascending(offsets, text) && n <= |marked| == |offsets| - 1
  {
    if n == 0 then ""
    else Unmarked(text, offsets, marked, n - 1)
         + (if marked[n - 1] then "" else text[offsets[n - 1]..offsets[n]])
  }

  function NoteOf(text: string, title: Option<string>, headings: seq<Heading>): Note {
    Note(text, Offsets(text), title, headings)
  }

  lemma NoteIsSound(text: string, title: Option<string>, headings: seq<Heading>)
    requires Ordered(headings, |Offsets(text)| - 1)
    ensures NoteOf(text, title, headings).Sound()
  {
    OffsetsExactly(text);
  }

  // The entries that the open headings stand for on the stack.
  function Entries(headings: seq<Heading>, stack: seq<nat>): (r: seq<(nat, string)>)
    requires forall i :: 0 <= i < |stack| ==> stack[i] < |headings|
    ensures |r| == |stack|
  {
    seq(|stack|, i requires 0 <= i < |stack| => var h := headings[stack[i]]; (h.level, Label(h.level, h.text)))
  }

  // Pops the closed headings off the stack, pushes the n-th and reads off the labels.
  method OpenHeading(stack: seq<(nat, string)>, headings: seq<Heading>, n: nat)
    returns (r: seq<(nat, string)>, labels: seq<string>)
    requires n < |headings| && stack == Entries(headings, OpenAfter(headings, n))
    ensures r == Entries(headings, OpenAfter(headings, n + 1))
    ensures labels == Labels(headings, OpenAfter(headings, n + 1))
  {
    var h := headings[n];
    r := stack;
    ghost var open: seq<nat> := OpenAfter(headings, n);
    while |r| > 0 && r[|r| - 1].0 >= h.level
      invariant forall i :: 0 <= i < |open| ==> open[i] < n
      invariant r == Entries(headings, open)
        && Closed(headings, open, h.level) == Closed(headings, OpenAfter(headings, n), h.level)
    {
      r := r[..|r| - 1];
      open := open[..|open| - 1];
    }
    r := r + [(h.level, Label(h.level, h.text))];
    labels := seq(|r|, i requires 0 <= i < |r| => r[i].1);
    assert OpenAfter(headings, n + 1) == open + [n];
  }

  // The text before the first heading.
  method BuildPreamble(note: Note) returns (sections: seq<Section>)
    requires note.Sound()
    ensures sections == note.Preamble()
  {
    sections := [];
    var first := if |note.headings| > 0 then note.headings[0].open else |note.offsets| - 1;
    if first > 0 {
      var start, end := note.offsets[0], note.offsets[first];
      var body := note.text[start..end];
      if !Blank(body) {
        sections := [Section(WithTitle(note.title, []), body, start, end)];
      }
    }
  }

  method BuildSections(text: string, title: Option<string>, headings: seq<Heading>) returns (sections: seq<Section>)
    requires Ordered(headings, |Offsets(text)| - 1)
    ensures NoteOf(text, title, headings).Sound() && sections == NoteOf(text, title, headings).Sections()
  {
    NoteIsSound(text, title, headings);
    var offsets := LineOffsets(text);
    var note := Note(text, offsets, title, headings);
    sections := BuildPreamble(note);
    var stack: seq<(nat, string)> := [];
    for n := 0 to |headings|
      invariant stack == Entries(headings, OpenAfter(headings, n))
      invariant sections == note.FirstSections(n)
    {
      var labels;
      stack, labels := OpenHeading(stack, headings, n);
      var to := if n + 1 < |headings| then headings[n + 1].open else |offsets| - 1;
      var start, end := offsets[headings[n].body], offsets[to];
      sections := sections + [Section(WithTitle(title, labels), text[start..end], start, end)];
    }
  }

  // ---------- no text is lost between headings ----------

  function Contents(sections: seq<Section>): (r: seq<string>)
    ensures |r| == |sections|
  {
    seq(|sections|, i requires 0 <= i < |sections| => sections[i].content)
  }

  lemma ContentsConcat(a: seq<Section>, b: seq<Section>)
    ensures InkOf(Contents(a + b)) == InkOf(Contents(a)) + InkOf(Contents(b))
  {
    assert Contents(a + b) == Contents(a) + Contents(b);
    InkOfConcat(Contents(a), Contents(b));
  }

  lemma ContentsOne(s: Section)
    ensures InkOf(Contents([s])) == Ink(s.content)
  {
    assert Contents([s]) == [s.content];
    InkOfOne(s.content);
  }

  lemma UnmarkedLine(text: string, offsets: seq<nat>, marked: seq<bool>, a: nat, b: nat)
    requires Ascending(offsets, text) && a < b <= |marked| == |offsets| - 1 && !marked[b - 1]
    requires Unmarked(text, offsets, marked, b - 1) == Unmarked(text, offsets, marked, a)
      + text[offsets[a]..offsets[b - 1]]
    ensures Unmarked(text, offsets, marked, b) == Unmarked(text, offsets, marked, a) + text[offsets[a]..offsets[b]]
  {
    var i, j, k := offsets[a], offsets[b - 1], offsets[b];
    assert text[i..k] == text[i..j] + text[j..k];
    Regroup(Unmarked(text, offsets, marked, a), text[i..j], text[j..k]);
  }

  lemma {:induction false} UnmarkedRun(text: string, offsets: seq<nat>, marked: seq<bool>, a: nat, b: nat)
    requires Ascending(offsets, text) && a <= b <= |marked| == |offsets| - 1 && forall l :: a <= l < b ==> !marked[l]
    ensures Unmarked(text, offsets, marked, b) == Unmarked(text, offsets, marked, a) + text[offsets[a]..offsets[b]]
  {
    if a < b {
      UnmarkedRun(text, offsets, marked, a, b - 1);
      UnmarkedLine(text, offsets, marked, a, b);
    } else {
      assert text[offsets[a]..offsets[b]] == "";
    }
  }

  lemma {:induction false} MarkedRun(text: string, offsets: seq<nat>, marked: seq<bool>, a: nat, b: nat)
    requires Ascending(offsets, text) && a <= b <= |marked| == |offsets| - 1 && forall l :: a <= l < b ==> marked[l]
    ensures Unmarked(text, offsets, marked, b) == Unmarked(text, offsets, marked, a)
  {
    if a < b {
      MarkedRun(text, offsets, marked, a, b - 1);
    }
  }

  lemma BodiesAreOutside(note: Note, i: nat)
    requires note.Sound() && i < |note.headings|
    ensures forall l :: note.headings[i].open <= l < note.headings[i].body ==> note.InHeading(l)
    ensures forall l :: note.headings[i].body <= l < note.Opens(i + 1) ==> !note.InHeading(l)
  {
    var headings := note.headings;
    forall l | headings[i].body <= l < note.Opens(i + 1) ensures !note.InHeading(l) {
      forall j | 0 <= j < |headings| ensures !(headings[j].open <= l < headings[j].body) {
        if j > i + 1 {
          assert headings[i + 1].body <= headings[j].open;
        }
      }
    }
  }

  // The prose between a heading and the next.
  lemma ProseOfSection(note: Note, n: nat)
    requires note.Sound() && 0 < n <= |note.headings|
    ensures Ink(note.ProseBefore(n)) == Ink(note.ProseBefore(n - 1)) + Ink(note.SectionAt(n - 1).content)
  {
    var h, to := note.headings[n - 1], note.Opens(n);
    BodiesAreOutside(note, n - 1);
    MarkedRun(note.text, note.offsets, note.HeadingLines(), h.open, h.body);
    UnmarkedRun(note.text, note.offsets, note.HeadingLines(), h.body, to);
    InkConcat(note.Prose(h.body), note.Slice(h.body, to));
  }

  lemma ProseOfPreamble(note: Note)
    requires note.Sound()
    ensures HoldProse(note, 0, note.Preamble())
  {
    var headings := note.headings;
    forall l | 0 <= l < note.Opens(0) ensures !note.InHeading(l) {
      forall i | 0 <= i < |headings| ensures !(headings[i].open <= l < headings[i].body) {
        assert i > 0 ==> headings[0].body <= headings[i].open;
      }
    }
    var body := note.Slice(0, note.Opens(0));
    UnmarkedRun(note.text, note.offsets, note.HeadingLines(), 0, note.Opens(0));
    assert note.ProseBefore(0) == body;
    BlankHasNoInk(body);
    if note.Preamble() != [] {
      ContentsOne(note.Preamble()[0]);
    }
  }

  // The sections hold the prose before the n-th heading.
  ghost predicate HoldProse(note: Note, n: nat, sections: seq<Section>)
    requires note.Sound()
  {
    InkOf(Contents(sections)) == Ink(note.ProseBefore(n))
  }

  lemma ProseNext(note: Note, n: nat, before: seq<Section>)
    requires note.Sound() && 0 < n <= |note.headings| && HoldProse(note, n - 1, before)
    ensures HoldProse(note, n, before + [note.SectionAt(n - 1)])
  {
    ProseOfSection(note, n);
    ContentsConcat(before, [note.SectionAt(n - 1)]);
    ContentsOne(note.SectionAt(n - 1));
  }

  lemma ProseStart(note: Note)
    requires note.Sound()
    ensures HoldProse(note, 0, note.FirstSections(0))
  {
    ProseOfPreamble(note);
  }

  lemma ProseStep(note: Note, n: nat)
    requires note.Sound() && 0 < n <= |note.headings| && HoldProse(note, n - 1, note.FirstSections(n - 1))
    ensures HoldProse(note, n, note.FirstSections(n))
  {
    ProseNext(note, n, note.FirstSections(n - 1));
  }

  lemma {:induction false} FirstSectionsKeepProse(note: Note, n: nat)
    requires note.Sound() && n <= |note.headings|
    ensures HoldProse(note, n, note.FirstSections(n))
  {
    if n == 0 {
      ProseStart(note);
    } else {
      FirstSectionsKeepProse(note, n - 1);
      ProseStep(note, n);
    }
  }

  /** Section building conserves text: the sections hold what the note says outside its heading lines. */
  lemma SectionsKeepProse(note: Note)
    requires note.Sound()
    ensures InkOf(Contents(note.Sections())) == Ink(note.Prose(note.Lines()))
  {
    FirstSectionsKeepProse(note, |note.headings|);
  }

  // Sections whose spans follow one another in a text, up to a position.
  ghost predicate Disjoint(sections: seq<Section>, bound: nat) {
    && (forall i :: 0 <= i < |sections| ==> sections[i].start <= sections[i].end <= bound)
    && (forall i, j :: 0 <= i < j < |sections| ==> sections[i].end <= sections[j].start)
  }

  predicate IsSlice(text: string, s: Section) {
    s.start <= s.end <= |text| && s.content == text[s.start..s.end]
  }

  // Where sections that are slices of the text, one after the other, end; -1 if they are not.
  ghost function EndOf(text: string, sections: seq<Section>): int
    decreases |sections|
  {
    if |sections| == 0 then 0
    else
      var s, before := sections[|sections| - 1], EndOf(text, sections[..|sections| - 1]);
      if 0 <= before <= s.start && IsSlice(text, s) then s.end else -1
  }

  ghost predicate Slices(text: string, sections: seq<Section>, bound: nat) {
    0 <= EndOf(text, sections) <= bound
  }

  lemma SlicesAppend(text: string, sections: seq<Section>, s: Section, bound: nat)
    requires Slices(text, sections, bound) && IsSlice(text, s) && bound <= s.start
    ensures Slices(text, sections + [s], s.end)
  {
    assert (sections + [s])[..|sections|] == sections;
  }

  lemma {:induction false} SlicesAreDisjoint(text: string, sections: seq<Section>, bound: nat)
    requires Slices(text, sections, bound)
    ensures Disjoint(sections, bound) && forall i :: 0 <= i < |sections| ==> IsSlice(text, sections[i])
    decreases |sections|
  {
    if |sections| > 0 {
      var n := |sections| - 1;
      SlicesAreDisjoint(text, sections[..n], sections[n].start);
      assert forall i :: 0 <= i < n ==> sections[i] == sections[..n][i];
    }
  }

  // Slices of the text before the n-th heading.
  ghost predicate SlicedTo(note: Note, n: nat, sections: seq<Section>)
    requires note.Sound()
  {
    Slices(note.text, sections, note.Bound(n))
  }

  lemma SectionIsSlice(note: Note, n: nat)
    requires note.Sound() && 0 < n <= |note.headings|
    ensures var s := note.SectionAt(n - 1);
      IsSlice(note.text, s) && note.Bound(n - 1) <= s.start && s.end == note.Bound(n)
  {
  }

  lemma PreambleIsSlice(note: Note)
    requires note.Sound()
    ensures SlicedTo(note, 0, note.Preamble())
  {
    var sections := note.Preamble();
    if sections != [] {
      assert sections[..0] == [];
    }
  }

  lemma SlicesNext(note: Note, n: nat, before: seq<Section>)
    requires note.Sound() && 0 < n <= |note.headings| && SlicedTo(note, n - 1, before)
    ensures SlicedTo(note, n, before + [note.SectionAt(n - 1)])
  {
    SectionIsSlice(note, n);
    SlicesAppend(note.text, before, note.SectionAt(n - 1), note.Bound(n - 1));
  }

  lemma {:induction false} FirstSectionsAreSlices(note: Note, n: nat) returns (sections: seq<Section>)
    requires note.Sound() && n <= |note.headings|
    ensures sections == note.FirstSections(n) && SlicedTo(note, n, sections)
  {
    if n == 0 {
      sections := note.Preamble();
      PreambleIsSlice(note);
    } else {
      var before := FirstSectionsAreSlices(note, n - 1);
      sections := before + [note.SectionAt(n - 1)];
      SlicesNext(note, n, before);
    }
  }

  /** Sections are disjoint slices of the text, in its order. */
  lemma SectionsAreSlices(note: Note)
    requires note.Sound()
    ensures Disjoint(note.Sections(), |note.text|)
    ensures forall i :: 0 <= i < |note.Sections()| ==> IsSlice(note.text, note.Sections()[i])
  {
    var sections := FirstSectionsAreSlices(note, |note.headings|);
    SlicesAreDisjoint(note.text, sections, note.Bound(|note.headings|));
  }
}
