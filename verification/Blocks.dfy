/** Paragraphs and fenced code: the blocks a body is split into. */
module Blocks {
  import opened Options
  import opened Sequences
  import opened Text
  import opened MarkdownText
  import opened Sections

  const BACKTICKS := "```"
  const TILDES := "~~~"

  predicate IsMarker(m: string) { m == BACKTICKS || m == TILDES }

  predicate Fences(line: string, marker: string) { StartsWith(LStrip(line, Space), marker) }

  // The fence marker a line starts with, if any.
  function Opener(line: string): (m: Option<string>)
    ensures m.Some? ==> IsMarker(m.value) && Fences(line, m.value)
    ensures m.None? ==> forall v :: IsMarker(v) ==> !Fences(line, v)
  {
    if Fences(line, BACKTICKS) then Some(BACKTICKS) else if Fences(line, TILDES) then Some(TILDES) else None
  }

  type Group = seq<string>

  function Flushed(buf: Group): seq<Group> {
    if |buf| == 0 then [] else [buf]
  }

  // The groups of lines still to come, given the open group and the marker of its fence.
  function Groups(lines: seq<string>, buf: Group, fence: Option<string>): seq<Group>
    decreases |lines|
  {
    if |lines| == 0 then Flushed(buf)
    else
      var line, rest := lines[0], lines[1..];
      if fence.Some? then
        if Fences(line, fence.value) then Flushed(buf + [line]) + Groups(rest, [], None)
        else Groups(rest, buf + [line], fence)
      else if Opener(line).Some? then Flushed(buf) + Groups(rest, [line], Opener(line))
      else if Blank(line) then Flushed(buf) + Groups(rest, [], None)
      else Groups(rest, buf + [line], None)
  }

  function Joined(groups: seq<Group>): (r: seq<string>)
    ensures |r| == |groups|
  {
    if |groups| == 0 then [] else [Join(groups[0], "\n")] + Joined(groups[1..])
  }

  function GroupsOf(body: string): seq<Group> { Groups(SplitLines(body), [], None) }

  function BlocksOf(body: string): seq<string> { Joined(GroupsOf(body)) }

  lemma {:induction false} JoinedConcat(a: seq<Group>, b: seq<Group>)
    ensures Joined(a + b) == Joined(a) + Joined(b)
  {
    if |a| == 0 {
      assert a + b == b;
    } else {
      assert (a + b)[1..] == a[1..] + b;
      JoinedConcat(a[1..], b);
    }
  }

  // Closes the open group; done are the groups so far, rest those to come.
  method Flush(blocks: seq<string>, buf: Group, ghost done: seq<Group>, ghost rest: seq<Group>) returns (r: seq<string>)
    requires blocks == Joined(done)
    ensures r == Joined(done + Flushed(buf)) && done + Flushed(buf) + rest == done + (Flushed(buf) + rest)
  {
    r := blocks;
    Regroup(done, Flushed(buf), rest);
    JoinedConcat(done, Flushed(buf));
    if |buf| > 0 {
      r := r + [Join(buf, "\n")];
      assert Joined([buf][1..]) == [];
    }
  }

  method SplitBlocks(body: string) returns (blocks: seq<string>)
    ensures blocks == BlocksOf(body)
  {
    var lines := SplitLines(body);
    var buf: Group := [];
    var fence: Option<string> := None;
    blocks := [];
    ghost var done: seq<Group> := [];
    for i := 0 to |lines|
      invariant blocks == Joined(done)
      invariant done + Groups(lines[i..], buf, fence) == GroupsOf(body)
    {
      var line := lines[i];
      ghost var rest := lines[i + 1..];
      assert lines[i..][1..] == rest;
      if fence.Some? {
        buf := buf + [line];
        if Fences(line, fence.value) {
          blocks := Flush(blocks, buf, done, Groups(rest, [], None));
          done := done + Flushed(buf);
          buf, fence := [], None;
        }
      } else if Opener(line).Some? {
        blocks := Flush(blocks, buf, done, Groups(rest, [line], Opener(line)));
        done := done + Flushed(buf);
        buf, fence := [line], Opener(line);
      } else if Blank(line) {
        blocks := Flush(blocks, buf, done, Groups(rest, [], None));
        done := done + Flushed(buf);
        buf := [];
      } else {
        buf := buf + [line];
      }
    }
    blocks := Flush(blocks, buf, done, []);
  }

  // ---------- no text is lost between blocks ----------

  lemma {:induction false} JoinedInk(groups: seq<Group>)
    ensures InkOf(Joined(groups)) == InkOf(Flatten(groups))
  {
    if |groups| > 0 {
      JoinedInk(groups[1..]);
      AllSpaceHasNoInk("\n");
      InkJoin(groups[0], "\n");
      InkOfConcat(groups[0], Flatten(groups[1..]));
      InkOfCons(Join(groups[0], "\n"), Joined(groups[1..]));
    }
  }

  lemma FlatFlushed(buf: Group, rest: seq<Group>)
    ensures Flatten(Flushed(buf) + rest) == buf + Flatten(rest)
  {
    if |buf| == 0 {
      assert Flushed(buf) + rest == rest;
    } else {
      assert (Flushed(buf) + rest)[1..] == rest;
    }
  }

  lemma InkMoves(buf: Group, line: string, rest: seq<string>)
    ensures InkOf(buf + [line]) + InkOf(rest) == InkOf(buf) + (Ink(line) + InkOf(rest))
  {
    InkOfConcat(buf, [line]);
    InkOfOne(line);
  }

  // Only blank lines are dropped.
  lemma {:induction false} GroupsKeepInk(lines: seq<string>, buf: Group, fence: Option<string>)
    ensures InkOf(Flatten(Groups(lines, buf, fence))) == InkOf(buf) + InkOf(lines)
    decreases |lines|
  {
    if |lines| == 0 {
      FlatFlushed(buf, []);
      assert Flushed(buf) + [] == Flushed(buf) && buf + [] == buf;
    } else {
      var line, rest := lines[0], lines[1..];
      InkMoves(buf, line, rest);
      if fence.Some? {
        if Fences(line, fence.value) {
          GroupsKeepInk(rest, [], None);
          FlushKeepsInk(buf + [line], Groups(rest, [], None));
        } else {
          GroupsKeepInk(rest, buf + [line], fence);
        }
      } else if Opener(line).Some? {
        GroupsKeepInk(rest, [line], Opener(line));
        FlushKeepsInk(buf, Groups(rest, [line], Opener(line)));
        InkOfOne(line);
      } else if Blank(line) {
        GroupsKeepInk(rest, [], None);
        FlushKeepsInk(buf, Groups(rest, [], None));
        BlankHasNoInk(line);
      } else {
        GroupsKeepInk(rest, buf + [line], None);
      }
    }
  }

  lemma FlushKeepsInk(buf: Group, rest: seq<Group>)
    ensures InkOf(Flatten(Flushed(buf) + rest)) == InkOf(buf) + InkOf(Flatten(rest))
  {
    FlatFlushed(buf, rest);
    InkOfConcat(buf, Flatten(rest));
  }

  /** Splitting into blocks conserves text. */
  lemma BlocksKeepInk(body: string)
    ensures InkOf(BlocksOf(body)) == Ink(body)
  {
    JoinedInk(GroupsOf(body));
    GroupsKeepInk(SplitLines(body), [], None);
    InkOfLines(body);
  }

  // ---------- what a block is ----------

  predicate IsParagraph(g: Group) {
    |g| > 0 && forall i :: 0 <= i < |g| ==> !Blank(g[i]) && Opener(g[i]).None?
  }

  // Opened by its first line, and not closed before its last.
  predicate IsFence(g: Group) {
    |g| > 0 && Opener(g[0]).Some? && forall i :: 1 <= i < |g| - 1 ==> !Fences(g[i], Opener(g[0]).value)
  }

  predicate IsClosed(g: Group) {
    |g| > 1 && Opener(g[0]).Some? && Fences(g[|g| - 1], Opener(g[0]).value)
  }

  // An open group: a paragraph so far, or a fence not closed yet.
  ghost predicate OpenGroup(buf: Group, fence: Option<string>) {
    if fence.Some? then IsFence(buf) && fence == Opener(buf[0]) && !IsClosed(buf) else buf == [] || IsParagraph(buf)
  }

  lemma OpenGrows(buf: Group, line: string, fence: Option<string>)
    requires OpenGroup(buf, fence)
    ensures fence.Some? ==> IsFence(buf + [line])
    ensures fence.Some? ==> if Fences(line, fence.value) then IsClosed(buf + [line]) else OpenGroup(buf + [line], fence)
    ensures fence.None? && Opener(line).None? && !Blank(line) ==> OpenGroup(buf + [line], None)
  {
    var g := buf + [line];
    if fence.Some? {
      assert g[0] == buf[0];
      forall i | 1 <= i < |g| - 1 ensures !Fences(g[i], fence.value) {
        assert g[i] == buf[i];
      }
    }
  }

  lemma FenceStarts(line: string)
    requires Opener(line).Some?
    ensures OpenGroup([line], Opener(line))
  {
  }

  ghost predicate WellGrouped(groups: seq<Group>) {
    forall i :: 0 <= i < |groups| ==>
      IsParagraph(groups[i]) || (IsFence(groups[i]) && (IsClosed(groups[i]) || i == |groups| - 1))
  }

  lemma FlushedIsWell(buf: Group, rest: seq<Group>)
    requires buf == [] || IsParagraph(buf) || (IsFence(buf) && (IsClosed(buf) || rest == []))
    requires WellGrouped(rest)
    ensures WellGrouped(Flushed(buf) + rest)
  {
    var all := Flushed(buf) + rest;
    var shift := |Flushed(buf)|;
    forall i | 0 <= i < |all| ensures IsParagraph(all[i]) || (IsFence(all[i]) && (IsClosed(all[i]) || i == |all| - 1)) {
      if i >= shift {
        assert all[i] == rest[i - shift];
      }
    }
  }

  lemma {:induction false} GroupsAreWell(lines: seq<string>, buf: Group, fence: Option<string>)
    requires OpenGroup(buf, fence)
    ensures WellGrouped(Groups(lines, buf, fence))
    decreases |lines|
  {
    if |lines| == 0 {
      FlushedIsWell(buf, []);
      assert Flushed(buf) + [] == Flushed(buf);
    } else {
      var line, rest := lines[0], lines[1..];
      OpenGrows(buf, line, fence);
      if fence.Some? {
        if Fences(line, fence.value) {
          GroupsAreWell(rest, [], None);
          FlushedIsWell(buf + [line], Groups(rest, [], None));
        } else {
          GroupsAreWell(rest, buf + [line], fence);
        }
      } else if Opener(line).Some? {
        FenceStarts(line);
        GroupsAreWell(rest, [line], Opener(line));
        FlushedIsWell(buf, Groups(rest, [line], Opener(line)));
      } else if Blank(line) {
        GroupsAreWell(rest, [], None);
        FlushedIsWell(buf, Groups(rest, [], None));
      } else {
        GroupsAreWell(rest, buf + [line], None);
      }
    }
  }

  /** Every block is a paragraph without blank lines or fences, or one fence up to its closing line or the end. */
  lemma BlocksAreParagraphsOrFences(body: string)
    ensures WellGrouped(GroupsOf(body))
    ensures forall g :: g in GroupsOf(body) ==> IsRun(SplitLines(body), g)
  {
    GroupsAreWell(SplitLines(body), [], None);
    GroupsAreRuns(SplitLines(body), 0, [], None);
    assert SplitLines(body)[0..] == SplitLines(body);
  }

  predicate RunAt(lines: seq<string>, g: Group, a: nat) {
    a + |g| <= |lines| && g == lines[a..a + |g|]
  }

  ghost predicate IsRun(lines: seq<string>, g: Group) {
    exists a: nat :: RunAt(lines, g, a)
  }

  // Blocks take whole runs of lines: inside a group no line is dropped, moved or changed.
  lemma {:induction false} GroupsAreRuns(lines: seq<string>, i: nat, buf: Group, fence: Option<string>)
    requires |buf| <= i <= |lines| && buf == lines[i - |buf|..i]
    ensures forall g :: g in Groups(lines[i..], buf, fence) ==> IsRun(lines, g)
    decreases |lines| - i
  {
    if i < |lines| {
      var line, rest := lines[i], lines[i + 1..];
      assert lines[i..][1..] == rest;
      assert buf + [line] == lines[i - |buf|..i + 1] && [line] == lines[i..i + 1];
      assert RunAt(lines, buf, i - |buf|) && RunAt(lines, buf + [line], i - |buf|);
      if fence.Some? && !Fences(line, fence.value) {
        GroupsAreRuns(lines, i + 1, buf + [line], fence);
      } else if fence.None? && Opener(line).Some? {
        GroupsAreRuns(lines, i + 1, [line], Opener(line));
      } else if fence.None? && !Blank(line) {
        GroupsAreRuns(lines, i + 1, buf + [line], None);
      } else {
        GroupsAreRuns(lines, i + 1, [], None);
      }
    } else {
      assert RunAt(lines, buf, i - |buf|);
    }
  }

  // ---------- a fence is recognised by its text ----------

  predicate LooksFenced(block: string) {
    Fences(block, BACKTICKS) || Fences(block, TILDES)
  }

  lemma {:induction false} LStripConcat(a: string, b: string)
    requires LStrip(a, Space) != ""
    ensures LStrip(a + b, Space) == LStrip(a, Space) + b
  {
    assert (a + b)[1..] == a[1..] + b;
    if IsSpace(a[0]) {
      LStripConcat(a[1..], b);
    }
  }

  // What follows the first line does not change which marker the block starts with.
  lemma FirstLineTells(line: string, tail: string, marker: string)
    requires LStrip(line, Space) != "" && IsMarker(marker) && (tail == "" || tail[0] == '\n')
    ensures Fences(line + tail, marker) <==> Fences(line, marker)
  {
    LStripConcat(line, tail);
    var x := LStrip(line, Space);
    if |x| < |marker| {
      assert tail != "" ==> (x + tail)[|x|] != marker[|x|];
    } else {
      assert (x + tail)[..|marker|] == x[..|marker|];
    }
  }

  lemma JoinSplitsOff(g: Group) returns (tail: string)
    requires |g| > 0
    ensures Join(g, "\n") == g[0] + tail && (tail == "" || tail[0] == '\n')
  {
    if |g| == 1 {
      tail := "";
    } else {
      tail := "\n" + Join(g[1..], "\n");
    }
  }

  lemma NotBlankStarts(line: string)
    requires !Blank(line)
    ensures LStrip(line, Space) != ""
  {
  }

  lemma MarkedStarts(line: string)
    requires Opener(line).Some?
    ensures LStrip(line, Space) != ""
  {
  }

  /** Splitting an oversized block tells fences from paragraphs as grouping did. */
  lemma FencesAreRecognised(g: Group)
    requires IsParagraph(g) || IsFence(g)
    ensures LooksFenced(Join(g, "\n")) <==> IsFence(g)
  {
    var tail := JoinSplitsOff(g);
    if Opener(g[0]).Some? {
      MarkedStarts(g[0]);
    } else {
      NotBlankStarts(g[0]);
    }
    FirstLineTells(g[0], tail, BACKTICKS);
    FirstLineTells(g[0], tail, TILDES);
  }
}
