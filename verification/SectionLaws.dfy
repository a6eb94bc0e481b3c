/** What the section of a heading is, in characters and lines. */
module SectionLaws {
  import opened Options
  import opened Text
  import opened MarkdownText
  import opened Sections

  // A label reads as that many "#" characters, a space and the text.
  ghost predicate Reads(heading: string, level: nat, text: string) {
    && |heading| == level + 1 + |text| && heading[level] == ' ' && heading[level + 1..] == text
    && (forall k :: 0 <= k < level ==> heading[k] == '#')
  }

  lemma {:induction false} HashesAre(level: nat)
    ensures |Hashes(level)| == level && forall k :: 0 <= k < level ==> Hashes(level)[k] == '#'
  {
    if level > 0 {
      HashesAre(level - 1);
    }
  }

  lemma LabelReads(level: nat, text: string)
    ensures Reads(Label(level, text), level, text)
  {
    HashesAre(level);
  }

  // The headings that enclose the text after the first n, in their order, all and only.
  ghost predicate EnclosingInOrder(headings: seq<Heading>, n: nat, at: seq<nat>)
    requires n <= |headings|
  {
    && (forall j: nat :: j in at <==> Encloses(headings, j, n))
    && (forall i, k :: 0 <= i < k < |at| ==> at[i] < at[k])
  }

  // One label for each of these headings.
  ghost predicate LabelsOf(headings: seq<Heading>, at: seq<nat>, labels: seq<string>) {
    && |labels| == |at| && forall k :: 0 <= k < |at| ==>
       at[k] < |headings| && Reads(labels[k], headings[at[k]].level, headings[at[k]].text)
  }

  // The path is the title, if it is due, and then the labels.
  ghost predicate IsPath(title: Option<string>, headings: seq<Heading>, n: nat, path: seq<string>)
    requires n <= |headings|
  {
    exists at: seq<nat>, labels: seq<string> ::
      && EnclosingInOrder(headings, n, at) && LabelsOf(headings, at, labels)
      && (if title.Some? && title.value != "" && forall k :: 0 <= k < |at| ==> headings[at[k]].level != 1
          then |path| > 0 && Reads(path[0], 1, title.value) && path[1..] == labels else path == labels)
  }

  lemma LabelsRead(headings: seq<Heading>, at: seq<nat>)
    requires forall i :: 0 <= i < |at| ==> at[i] < |headings|
    ensures LabelsOf(headings, at, Labels(headings, at))
  {
    var labels := Labels(headings, at);
    forall k | 0 <= k < |at| ensures Reads(labels[k], headings[at[k]].level, headings[at[k]].text) {
      LabelReads(headings[at[k]].level, headings[at[k]].text);
    }
  }

  lemma NoneAtLevelOne(headings: seq<Heading>, n: nat, at: seq<nat>)
    requires n <= |headings| && EnclosingInOrder(headings, n, at)
    ensures (exists j: nat :: Encloses(headings, j, n) && headings[j].level == 1)
            <==> exists k :: 0 <= k < |at| && at[k] < |headings| && headings[at[k]].level == 1
  {
    forall j: nat | Encloses(headings, j, n) ensures exists k :: 0 <= k < |at| && at[k] == j {
      assert j in at;
    }
    forall k | 0 <= k < |at| ensures Encloses(headings, at[k], n) {
      assert at[k] in at;
    }
  }

  lemma PathIs(title: Option<string>, headings: seq<Heading>, n: nat, lines: nat)
    requires n <= |headings| && Ordered(headings, lines)
    ensures IsPath(title, headings, n, PathAfter(title, headings, n))
  {
    var at := OpenAfter(headings, n);
    var labels := Labels(headings, at);
    OpenIsEnclosing(headings, n);
    TitleLeads(title, headings, n, lines);
    LabelsRead(headings, at);
    NoneAtLevelOne(headings, n, at);
    if Truthy(title) {
      LabelReads(1, title.value);
    }
    assert EnclosingInOrder(headings, n, at) && LabelsOf(headings, at, labels);
  }

  // The section of each heading, in order.
  ghost predicate SectionsOfHeadings(note: Note, each: seq<Section>)
    requires note.Sound()
  {
    |each| == |note.headings| && forall i :: 0 <= i < |each| ==> each[i] == note.SectionAt(i)
  }

  ghost predicate FirstOf(preamble: seq<Section>, each: seq<Section>, n: nat, sections: seq<Section>) {
    n <= |each| && sections == preamble + each[..n]
  }

  lemma OneMore(preamble: seq<Section>, each: seq<Section>, n: nat, before: seq<Section>, s: Section)
    requires 0 < n <= |each| && s == each[n - 1] && FirstOf(preamble, each, n - 1, before)
    ensures FirstOf(preamble, each, n, before + [s])
  {
    assert each[..n] == each[..n - 1] + [s];
  }

  lemma AllOfThem(preamble: seq<Section>, each: seq<Section>, sections: seq<Section>)
    requires FirstOf(preamble, each, |each|, sections)
    ensures sections == preamble + each
  {
    assert each[..|each|] == each;
  }

  lemma {:induction false} SectionsInOrder(note: Note, n: nat, each: seq<Section>) returns (sections: seq<Section>)
    requires note.Sound() && n <= |note.headings| && SectionsOfHeadings(note, each)
    ensures sections == note.FirstSections(n) && FirstOf(note.Preamble(), each, n, sections)
  {
    if n == 0 {
      sections := note.Preamble();
    } else {
      var before := SectionsInOrder(note, n - 1, each);
      sections := before + [note.SectionAt(n - 1)];
      OneMore(note.Preamble(), each, n, before, note.SectionAt(n - 1));
    }
  }

  // From the end of the heading's lines to the next heading.
  ghost predicate IsSpanOf(note: Note, i: nat, s: Section)
    requires note.Sound() && i < |note.headings|
  {
    && s.start == note.offsets[note.headings[i].body]
    && s.end == note.offsets[if i + 1 < |note.headings| then note.headings[i + 1].open else note.Lines()]
    && s.start <= s.end <= |note.text| && s.content == note.text[s.start..s.end]
  }

  lemma SpanStands(note: Note, i: nat)
    requires note.Sound() && i < |note.headings|
    ensures IsSpanOf(note, i, note.SectionAt(i))
  {
  }

  // The section's text and span, and its path.
  ghost predicate IsSectionOf(note: Note, i: nat, s: Section)
    requires note.Sound() && i < |note.headings|
  {
    && IsSpanOf(note, i, s)
    && IsPath(note.title, note.headings, i + 1, s.path)
  }

  lemma SectionStands(note: Note, i: nat)
    requires note.Sound() && i < |note.headings|
    ensures IsSectionOf(note, i, note.SectionAt(i))
  {
    SpanStands(note, i);
    PathIs(note.title, note.headings, i + 1, |note.offsets| - 1);
  }

  lemma EachSection(note: Note) returns (each: seq<Section>)
    requires note.Sound()
    ensures SectionsOfHeadings(note, each)
    ensures forall i :: 0 <= i < |each| ==> IsSectionOf(note, i, each[i])
  {
    each := seq(|note.headings|, i requires 0 <= i < |note.headings| => note.SectionAt(i));
    forall i | 0 <= i < |each| ensures IsSectionOf(note, i, each[i]) {
      SectionStands(note, i);
    }
  }

  /** Every heading has its section, in order and after the text before the first: the text from the end
      of the heading's lines to the next heading, under the title if no level-one heading encloses it and
      the labels of exactly the headings that do, from the outermost to its own. */
  lemma SectionOfHeading(note: Note) returns (each: seq<Section>)
    requires note.Sound()
    ensures note.Sections() == note.Preamble() + each && |each| == |note.headings|
    ensures forall i :: 0 <= i < |each| ==> IsSectionOf(note, i, each[i])
  {
    each := EachSection(note);
    var sections := SectionsInOrder(note, |each|, each);
    AllOfThem(note.Preamble(), each, sections);
  }

  /** The text before the first heading is a section of its own exactly when some of it is visible, and
      stands under the title alone, if there is one. */
  lemma PreambleIsExact(note: Note)
    requires note.Sound()
    ensures var end := note.offsets[if |note.headings| > 0 then note.headings[0].open else note.Lines()];
            && end <= |note.text| && (note.Preamble() != [] <==> Ink(note.text[..end]) != "")
            && (note.Preamble() != [] ==>
                  && |note.Preamble()| == 1 && note.Preamble()[0].content == note.text[..end]
                  && note.Preamble()[0].start == 0 && note.Preamble()[0].end == end
                  && if note.title.Some? && note.title.value != ""
                     then |note.Preamble()[0].path| == 1 && Reads(note.Preamble()[0].path[0], 1, note.title.value)
                     else note.Preamble()[0].path == [])
  {
    var end := note.offsets[note.Opens(0)];
    assert note.text[0..end] == note.text[..end];
    BlankHasNoInk(note.text[..end]);
    if Truthy(note.title) {
      LabelReads(1, note.title.value);
    }
  }
}
