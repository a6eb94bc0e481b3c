/** Exactly where a text is cut into lines, sentences and blocks. */
module TextLaws {
  import opened Options
  import opened Sequences
  import opened Text
  import opened MarkdownText
  import opened Blocks

  // The parts with the gaps around them: gap, part, gap, ..., part, gap.
  function Weave<T>(gaps: seq<seq<T>>, parts: seq<seq<T>>): seq<T>
    requires |gaps| == |parts| + 1
  {
    if |parts| == 0 then gaps[0] else gaps[0] + parts[0] + Weave(gaps[1..], parts[1..])
  }

  // The gaps when a part is put first: the one before it, and the one between it and the next.
  function GapsWith<T>(front: seq<T>, gap: seq<T>, gaps: seq<seq<T>>): (r: seq<seq<T>>)
    requires |gaps| > 0
    ensures |r| == |gaps| + 1
  {
    [front, gap + gaps[0]] + gaps[1..]
  }

  lemma WeaveGap<T>(gap: seq<T>, gaps: seq<seq<T>>, parts: seq<seq<T>>)
    requires |gaps| == |parts| + 1
    ensures Weave([gap + gaps[0]] + gaps[1..], parts) == gap + Weave(gaps, parts)
  {
    var more := [gap + gaps[0]] + gaps[1..];
    assert more[1..] == gaps[1..];
    if |parts| > 0 {
      var rest := Weave(gaps[1..], parts[1..]);
      assert gap + gaps[0] + parts[0] + rest == gap + (gaps[0] + parts[0] + rest);
    }
  }

  lemma WeaveMore<T>(part: seq<T>, gap: seq<T>, gaps: seq<seq<T>>, parts: seq<seq<T>>)
    requires |gaps| == |parts| + 1
    ensures Weave(GapsWith([], gap, gaps), [part] + parts) == part + (gap + Weave(gaps, parts))
  {
    var all := GapsWith([], gap, gaps);
    assert all[1..] == [gap + gaps[0]] + gaps[1..] && ([part] + parts)[1..] == parts;
    WeaveGap(gap, gaps, parts);
    assert [] + part == part;
  }

  // ---------- lines ----------

  predicate IsLineBreak(b: string) {
    b == "\r\n" || (|b| == 1 && IsBreak(b[0]))
  }

  // A lone carriage return has no newline after it: the two are one break.
  ghost predicate BreakAt(gaps: seq<string>, lines: seq<string>, i: nat)
    requires |gaps| == |lines| + 1 && 1 <= i < |gaps|
  {
    && (IsLineBreak(gaps[i]) || (i == |lines| && gaps[i] == "" && lines[i - 1] != ""))
    && (gaps[i] == "\r" && i < |lines| && lines[i] == "" ==> gaps[i + 1] == "" || gaps[i + 1][0] != '\n')
  }

  // Between two lines stands one line break, and nothing else; the last line may go without.
  ghost predicate AreLines(s: string, gaps: seq<string>, lines: seq<string>) {
    && |gaps| == |lines| + 1 && Weave(gaps, lines) == s && gaps[0] == ""
    && (forall i :: 1 <= i < |gaps| ==> BreakAt(gaps, lines, i))
    && (forall i :: 0 <= i < |lines| ==> forall c <- lines[i] :: !IsBreak(c))
  }

  lemma WeaveStarts<T>(gaps: seq<seq<T>>, parts: seq<seq<T>>)
    requires |gaps| == |parts| + 1
    ensures gaps[0] <= Weave(gaps, parts)
  {
  }

  lemma FirstOfLines(s: string, gaps: seq<string>, lines: seq<string>)
    requires AreLines(s, gaps, lines) && |lines| > 0 && lines[0] == "" && gaps[1] != ""
    ensures s != "" && s[0] == gaps[1][0]
  {
    WeaveStarts(gaps[1..], lines[1..]);
    assert s == Weave(gaps[1..], lines[1..]);
  }

  lemma LineAdded(line: string, b: string, rest: string, gaps: seq<string>, lines: seq<string>)
    requires AreLines(rest, gaps, lines) && IsLineBreak(b) && (b == "\r" && rest != "" ==> rest[0] != '\n')
    requires forall c <- line :: !IsBreak(c)
    ensures AreLines(line + (b + rest), GapsWith("", b, gaps), [line] + lines)
  {
    var all, more := GapsWith("", b, gaps), [line] + lines;
    WeaveMore(line, b, gaps, lines);
    if |lines| > 0 && lines[0] == "" && gaps[1] != "" {
      FirstOfLines(rest, gaps, lines);
    }
    assert b + gaps[0] == b;
    forall i | 1 <= i < |all| ensures BreakAt(all, more, i) {
      if i > 1 {
        assert BreakAt(gaps, lines, i - 1) && all[i] == gaps[i - 1] && more[i - 1] == lines[i - 2];
        assert i < |more| ==> more[i] == lines[i - 1] && all[i + 1] == gaps[i];
      } else if |more| > 1 {
        assert more[1] == lines[0] && all[2] == gaps[1];
      }
    }
  }

  // The line break at the start of a text.
  lemma BreakAtStart(t: string, n: nat)
    requires |t| > 0 && IsBreak(t[0]) && n == BreakLength(t)
    ensures IsLineBreak(t[..n]) && (t[..n] == "\r" && t[n..] != "" ==> t[n..][0] != '\n')
  {
    if n == 2 {
      assert t[..2] == [t[0], t[1]];
    }
  }

  lemma Slices(s: string, e: nat, n: nat)
    requires e + n <= |s|
    ensures s[e..][..n] == s[e..e + n] && s[e..][n..] == s[e + n..]
    ensures s == s[..e] + (s[e..e + n] + s[e + n..])
  {
  }

  lemma OneLine(s: string)
    requires s != "" && forall c <- s :: !IsBreak(c)
    ensures AreLines(s, ["", ""], [s])
  {
    assert ["", ""][1..] == [""] && [s][1..] == [] && Weave([""], []) == "";
  }

  lemma LinesUnfold(s: string, e: nat, n: nat)
    requires e == LineEnd(s) < |s| && n == BreakLength(s[e..])
    ensures SplitLines(s) == [s[..e]] + SplitLines(s[e + n..])
  {
  }

  // The first line of a text, its break, and the rest.
  lemma FirstLine(s: string) returns (line: string, b: string, rest: string)
    requires LineEnd(s) < |s|
    ensures s == line + (b + rest) && |rest| < |s| && SplitLines(s) == [line] + SplitLines(rest)
    ensures IsLineBreak(b) && (b == "\r" && rest != "" ==> rest[0] != '\n') && forall c <- line :: !IsBreak(c)
  {
    var e := LineEnd(s);
    var n := BreakLength(s[e..]);
    var t := s[e..];
    assert t[0] == s[e];
    BreakAtStart(t, n);
    Slices(s, e, n);
    LinesUnfold(s, e, n);
    line, b, rest := s[..e], t[..n], t[n..];
  }

  /** Splitting into lines cuts the text at each line break, two characters for a carriage return and
      newline, and nowhere else. */
  lemma {:induction false} LinesAreExact(s: string) returns (gaps: seq<string>)
    ensures AreLines(s, gaps, SplitLines(s))
    decreases |s|
  {
    if |s| == 0 {
      gaps := [""];
    } else if LineEnd(s) == |s| {
      gaps := ["", ""];
      OneLine(s);
    } else {
      var line, b, rest := FirstLine(s);
      var later := LinesAreExact(rest);
      LineAdded(line, b, rest, later, SplitLines(rest));
      gaps := GapsWith("", b, later);
    }
  }

  // ---------- sentences ----------

  // No white-space character after the end of a sentence.
  ghost predicate Uncut(unit: string) {
    forall k :: 0 < k < |unit| && IsSpace(unit[k]) ==> unit[k - 1] !in ".!?"
  }

  lemma UncutGrows(s: string, start: nat, i: nat)
    requires start <= i < |s| && Uncut(s[start..i]) && (start < i ==> !Gap(s, i))
    ensures Uncut(s[start..i + 1])
  {
    var u := s[start..i];
    assert s[start..i + 1] == u + [s[i]];
  }

  ghost predicate AllSpace(gap: string) {
    forall c <- gap :: IsSpace(c)
  }

  ghost predicate SentenceAt(gaps: seq<string>, units: seq<string>, i: nat)
    requires |gaps| == |units| + 1 && i < |units|
  {
    && Uncut(units[i])
    && (i < |units| - 1 ==>
          && units[i] != "" && units[i][|units[i]| - 1] in ".!?" && gaps[i + 1] != "" && AllSpace(gaps[i + 1])
          && (units[i + 1] == "" || !IsSpace(units[i + 1][0])))
  }

  // Between two sentences stands all the white space after the first, which ends in one of ".!?".
  ghost predicate AreSentences(s: string, gaps: seq<string>, units: seq<string>) {
    && |gaps| == |units| + 1 && Weave(gaps, units) == s && |units| > 0 && gaps[0] == "" && gaps[|units|] == ""
    && (forall i :: 0 <= i < |units| ==> SentenceAt(gaps, units, i))
  }

  lemma SentenceAdded(unit: string, gap: string, rest: string, gaps: seq<string>, units: seq<string>)
    requires AreSentences(rest, gaps, units) && (units[0] == "" || !IsSpace(units[0][0]))
    requires gap != "" && AllSpace(gap) && unit != "" && unit[|unit| - 1] in ".!?" && Uncut(unit)
    ensures AreSentences(unit + (gap + rest), GapsWith("", gap, gaps), [unit] + units)
  {
    var all, more := GapsWith("", gap, gaps), [unit] + units;
    WeaveMore(unit, gap, gaps, units);
    assert gap + gaps[0] == gap;
    forall i | 0 <= i < |more| ensures SentenceAt(all, more, i) {
      if i > 0 {
        assert SentenceAt(gaps, units, i - 1) && more[i] == units[i - 1];
        assert i < |more| - 1 ==> more[i + 1] == units[i] && all[i + 1] == gaps[i];
      }
    }
  }

  lemma LastSentence(unit: string)
    requires Uncut(unit)
    ensures AreSentences(unit, ["", ""], [unit])
  {
    assert ["", ""][1..] == [""] && [unit][1..] == [] && Weave([""], []) == "";
  }

  lemma {:induction false} SentencesFromAre(s: string, start: nat, i: nat) returns (gaps: seq<string>)
    requires start <= i <= |s| && (0 < start < |s| ==> !IsSpace(s[start])) && Uncut(s[start..i])
    ensures AreSentences(s[start..], gaps, SentencesFrom(s, start, i))
    ensures 0 < start ==> var u := SentencesFrom(s, start, i)[0]; u == "" || !IsSpace(u[0])
    decreases |s| - i
  {
    if i == |s| {
      gaps := ["", ""];
      assert s[start..i] == s[start..];
      LastSentence(s[start..]);
    } else if Gap(s, i) {
      var j := AfterSpace(s, i);
      var later := SentencesFromAre(s, j, j);
      assert start < i;
      SentenceAdded(s[start..i], s[i..j], s[j..], later, SentencesFrom(s, j, j));
      gaps := GapsWith("", s[i..j], later);
      assert s[start..] == s[start..i] + (s[i..j] + s[j..]);
    } else {
      UncutGrows(s, start, i);
      gaps := SentencesFromAre(s, start, i + 1);
    }
  }

  /** Splitting into sentences cuts a text at all the white space after each of ".!?", and nowhere else. */
  lemma SentencesAreExact(s: string) returns (gaps: seq<string>)
    ensures AreSentences(s, gaps, Sentences(s))
  {
    gaps := SentencesFromAre(s, 0, 0);
    assert s[0..] == s;
  }

  // ---------- blocks ----------

  ghost predicate AllBlank(lines: seq<string>) {
    forall i :: 0 <= i < |lines| ==> Blank(lines[i])
  }

  // Two paragraphs have a blank line between them.
  ghost predicate PartedAt(gaps: seq<Group>, groups: seq<Group>, i: nat)
    requires |gaps| == |groups| + 1 && i < |gaps|
  {
    AllBlank(gaps[i]) && (0 < i < |groups| && IsParagraph(groups[i - 1]) && IsParagraph(groups[i]) ==> gaps[i] != [])
  }

  // Around the groups stand blank lines only.
  ghost predicate AreGroups(lines: seq<string>, gaps: seq<Group>, groups: seq<Group>) {
    && |gaps| == |groups| + 1 && Weave(gaps, groups) == lines
    && (forall i :: 0 <= i < |gaps| ==> PartedAt(gaps, groups, i))
  }

  lemma GroupAdded(g: Group, gap: Group, rest: seq<string>, gaps: seq<Group>, groups: seq<Group>)
    requires AreGroups(rest, gaps, groups) && AllBlank(gap)
    requires IsParagraph(g) && |groups| > 0 && IsParagraph(groups[0]) ==> gap + gaps[0] != []
    ensures AreGroups(g + (gap + rest), GapsWith([], gap, gaps), [g] + groups)
  {
    var all, more := GapsWith([], gap, gaps), [g] + groups;
    WeaveMore(g, gap, gaps, groups);
    forall i | 0 <= i < |all| ensures PartedAt(all, more, i) {
      if i > 1 {
        assert PartedAt(gaps, groups, i - 1) && all[i] == gaps[i - 1] && more[i - 1] == groups[i - 2];
      } else if i == 1 {
        assert PartedAt(gaps, groups, 0);
      }
    }
  }

  lemma GapGrows(gap: Group, rest: seq<string>, gaps: seq<Group>, groups: seq<Group>)
    requires AreGroups(rest, gaps, groups) && AllBlank(gap)
    ensures AreGroups(gap + rest, [gap + gaps[0]] + gaps[1..], groups)
  {
    var all := [gap + gaps[0]] + gaps[1..];
    WeaveGap(gap, gaps, groups);
    forall i | 0 <= i < |all| ensures PartedAt(all, groups, i) {
      assert PartedAt(gaps, groups, i);
    }
  }

  lemma LastGroup(g: Group)
    ensures AreGroups(g, [[], []], [g]) && AreGroups([], [[]], [])
  {
    var none: Group := [];
    assert [none, none][1..] == [none] && [g][1..] == [] && Weave([none], []) == none;
  }

  // The open group is put before what comes after it.
  lemma FlushedGroups(buf: Group, gap: Group, rest: seq<string>, later: seq<Group>, groups: seq<Group>)
    returns (gaps: seq<Group>)
    requires AreGroups(rest, later, groups) && AllBlank(gap)
    requires IsParagraph(buf) && |groups| > 0 && IsParagraph(groups[0]) ==> gap != []
    ensures AreGroups(buf + (gap + rest), gaps, Flushed(buf) + groups) && (buf != [] ==> gaps[0] == [])
  {
    if buf == [] {
      GapGrows(gap, rest, later, groups);
      gaps := [gap + later[0]] + later[1..];
      assert Flushed(buf) + groups == groups && buf + (gap + rest) == gap + rest;
    } else {
      GroupAdded(buf, gap, rest, later, groups);
      gaps := GapsWith([], gap, later);
    }
  }

  // The fence ends with this line.
  lemma FenceEnds(buf: Group, line: string, rest: seq<string>, later: seq<Group>, groups: seq<Group>)
    returns (gaps: seq<Group>)
    requires AreGroups(rest, later, groups) && IsFence(buf + [line])
    ensures AreGroups(buf + ([line] + rest), gaps, Flushed(buf + [line]) + groups) && gaps[0] == []
  {
    gaps := FlushedGroups(buf + [line], [], rest, later, groups);
    assert buf + [line] + ([] + rest) == buf + ([line] + rest);
  }

  // A fence starts with this line.
  lemma FenceBegins(buf: Group, line: string, rest: seq<string>, later: seq<Group>, groups: seq<Group>)
    returns (gaps: seq<Group>)
    requires AreGroups([line] + rest, later, groups) && |groups| > 0 && [line] <= groups[0] && Opener(line).Some?
    ensures AreGroups(buf + ([line] + rest), gaps, Flushed(buf) + groups) && (buf != [] ==> gaps[0] == [])
  {
    assert groups[0][0] == line;
    gaps := FlushedGroups(buf, [], [line] + rest, later, groups);
    assert [] + ([line] + rest) == [line] + rest;
  }

  // The open group and the lines to come are all the lines.
  lemma {:induction false} GroupsAreParted(all: seq<string>, lines: seq<string>, buf: Group, fence: Option<string>)
    returns (gaps: seq<Group>)
    requires OpenGroup(buf, fence) && all == buf + lines
    ensures AreGroups(all, gaps, Groups(lines, buf, fence))
    ensures buf != [] ==> gaps[0] == [] && |Groups(lines, buf, fence)| > 0 && buf <= Groups(lines, buf, fence)[0]
    decreases |lines|
  {
    if |lines| == 0 {
      LastGroup(buf);
      gaps := if buf == [] then [[]] else [[], []];
      assert all == buf;
    } else {
      var line, rest := lines[0], lines[1..];
      assert lines == [line] + rest;
      OpenGrows(buf, line, fence);
      if fence.Some? && Fences(line, fence.value) {
        var later := GroupsAreParted(rest, rest, [], None);
        gaps := FenceEnds(buf, line, rest, later, Groups(rest, [], None));
      } else if fence.None? && Opener(line).Some? {
        var later := GroupsAreParted([line] + rest, rest, [line], Opener(line));
        gaps := FenceBegins(buf, line, rest, later, Groups(rest, [line], Opener(line)));
      } else if fence.None? && Blank(line) {
        var later := GroupsAreParted(rest, rest, [], None);
        gaps := FlushedGroups(buf, [line], rest, later, Groups(rest, [], None));
      } else {
        Regroup(buf, [line], rest);
        gaps := GroupsAreParted(all, rest, buf + [line], fence);
        StartsIn(buf, line, Groups(rest, buf + [line], fence)[0]);
      }
    }
  }

  lemma StartsIn(buf: Group, line: string, g: Group)
    requires buf + [line] <= g
    ensures buf <= g
  {
  }

  /** The blocks are the lines of the body between its blank lines: a paragraph goes on until a blank line or
      a fence, and what is between two blocks is blank. */
  lemma BlocksAreExact(body: string) returns (gaps: seq<Group>)
    ensures AreGroups(SplitLines(body), gaps, GroupsOf(body)) && WellGrouped(GroupsOf(body))
  {
    gaps := GroupsAreParted(SplitLines(body), SplitLines(body), [], None);
    BlocksAreParagraphsOrFences(body);
  }

  // The text has the marker at its first character that is not white space.
  ghost predicate MarkedAt(line: string, marker: string, k: nat) {
    k + |marker| <= |line| && line[k..k + |marker|] == marker && AllSpace(line[..k])
  }

  lemma {:induction false} LStripAt(line: string) returns (k: nat)
    ensures k <= |line| && LStrip(line, Space) == line[k..] && AllSpace(line[..k])
    ensures k < |line| ==> !IsSpace(line[k])
  {
    k := 0;
    if |line| > 0 && IsSpace(line[0]) {
      var n := LStripAt(line[1..]);
      k := n + 1;
      assert line[..k] == [line[0]] + line[1..][..n];
    }
  }

  /** A line opens a fence exactly when its first visible characters are three backticks or three tildes. */
  lemma FencesByCharacters(line: string)
    ensures Opener(line) == Some("```") <==> exists k :: MarkedAt(line, "```", k)
    ensures Opener(line) == Some("~~~") <==> exists k :: MarkedAt(line, "~~~", k)
  {
    FencesExactly(line, "```");
    FencesExactly(line, "~~~");
    forall i, k | MarkedAt(line, "```", i) && MarkedAt(line, "~~~", k) ensures i == k {
      MarkStarts(line, "```", i);
      MarkStarts(line, "~~~", k);
      FirstVisible(line, i, k);
    }
    forall k: nat | MarkedAt(line, "```", k) ensures line[k] == '`' {
      MarkStarts(line, "```", k);
    }
    forall k: nat | MarkedAt(line, "~~~", k) ensures line[k] == '~' {
      MarkStarts(line, "~~~", k);
    }
  }

  lemma FencesExactly(line: string, marker: string)
    requires IsMarker(marker)
    ensures Fences(line, marker) <==> exists k :: MarkedAt(line, marker, k)
  {
    var n := LStripAt(line);
    if Fences(line, marker) {
      assert line[n..][..3] == line[n..n + 3];
      assert MarkedAt(line, marker, n);
    }
    if k :| MarkedAt(line, marker, k) {
      MarkStarts(line, marker, k);
      FirstVisible(line, n, k);
      assert line[n..][..3] == marker;
    }
  }

  lemma SpaceBefore(line: string, n: nat, k: nat)
    requires k < n <= |line| && AllSpace(line[..n])
    ensures IsSpace(line[k])
  {
    assert line[..n][k] in line[..n];
  }

  // White space ends at one place.
  lemma FirstVisible(line: string, n: nat, k: nat)
    requires n <= |line| && k < |line| && AllSpace(line[..n]) && AllSpace(line[..k]) && !IsSpace(line[k])
    requires n < |line| ==> !IsSpace(line[n])
    ensures n == k
  {
    if n < k {
      SpaceBefore(line, k, n);
    } else if k < n {
      SpaceBefore(line, n, k);
    }
  }

  lemma MarkStarts(line: string, marker: string, k: nat)
    requires MarkedAt(line, marker, k) && IsMarker(marker)
    ensures k < |line| && line[k] == marker[0] && !IsSpace(line[k])
  {
    assert line[k] == line[k..k + |marker|][0];
  }

  // ---------- line offsets ----------

  // A newline stands at the end of the line and nowhere else in it.
  ghost predicate OneLineIn(text: string, a: nat, b: nat) {
    && a < b <= |text|
    && (forall i :: a <= i < b && text[i] == '\n' ==> i == b - 1)
    && (forall i :: a <= i < b && text[i] == '\r' ==> i == b - 1 || (i == b - 2 && text[i + 1] == '\n'))
    && (b < |text| ==> text[b - 1] == '\n' || (text[b - 1] == '\r' && text[b] != '\n'))
  }

  lemma NotBetween(offsets: seq<nat>, n: nat, p: nat)
    requires n + 1 < |offsets| && offsets[n] < p < offsets[n + 1]
    requires forall i, j :: 0 <= i < j < |offsets| ==> offsets[i] < offsets[j]
    ensures p !in offsets
  {
    forall i | 0 <= i < |offsets| ensures offsets[i] != p {
      assert i < n ==> offsets[i] < offsets[n];
      assert n + 1 < i ==> offsets[n + 1] < offsets[i];
    }
  }

  lemma OffsetBetween(text: string, n: nat, p: nat)
    requires n + 1 < |Offsets(text)| && Offsets(text)[n] < p < Offsets(text)[n + 1] && p < |text|
    ensures !EndsNewline(text, p)
  {
    OffsetsExactly(text);
    NotBetween(Offsets(text), n, p);
  }

  /** Consecutive offsets enclose one line, with the newline that ends it, of one or two characters. */
  lemma OffsetsEncloseLines(text: string, n: nat)
    requires n + 1 < |Offsets(text)|
    ensures OneLineIn(text, Offsets(text)[n], Offsets(text)[n + 1])
  {
    OffsetsExactly(text);
    var offsets := Offsets(text);
    var a, b := offsets[n], offsets[n + 1];
    assert b in offsets;
    forall i | a <= i < b - 1 ensures text[i] != '\n' && (text[i] == '\r' ==> text[i + 1] == '\n') {
      OffsetBetween(text, n, i + 1);
    }
    forall i | a <= i < b - 1 && text[i] == '\r' ensures i == b - 2 {
      assert text[i + 1] == '\n';
    }
  }
}
