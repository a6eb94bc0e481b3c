/** Packing blocks, sentences and lines into pieces of bounded size. */
module Packing {
  import opened Options
  import opened Sequences
  import opened Text
  import opened MarkdownText
  import opened Blocks

  // ---------- hard cuts ----------

  // The pieces that the cut loop emits from cur, and what it leaves.
  function CutPieces(cur: string, max: nat): seq<string>
    requires max >= 1
    decreases |cur|
  {
    if |cur| <= max then [] else [cur[..max]] + CutPieces(cur[max..], max)
  }

  function CutRest(cur: string, max: nat): string
    requires max >= 1
    decreases |cur|
  {
    if |cur| <= max then cur else CutRest(cur[max..], max)
  }

  method HardCut(cur: string, max: nat) returns (pieces: seq<string>, rest: string)
    requires max >= 1
    ensures pieces == CutPieces(cur, max) && rest == CutRest(cur, max)
  {
    pieces, rest := [], cur;
    while |rest| > max
      invariant pieces + CutPieces(rest, max) == CutPieces(cur, max) && CutRest(rest, max) == CutRest(cur, max)
      decreases |rest|
    {
      pieces := pieces + [rest[..max]];
      rest := rest[max..];
    }
  }

  // What the cut loop holds after n of its steps; a slice past the end is empty.
  function AfterCuts(cur: string, max: nat, n: nat): string
    decreases n
  {
    if n == 0 then cur else AfterCuts(if max <= |cur| then cur[max..] else "", max, n - 1)
  }

  lemma {:induction false} CutsShrink(cur: string, max: nat)
    requires max >= 1
    ensures exists n: nat :: |AfterCuts(cur, max, n)| <= max
    decreases |cur|
  {
    if |cur| <= max {
      assert |AfterCuts(cur, max, 0)| <= max;
    } else {
      CutsShrink(cur[max..], max);
      var n: nat :| |AfterCuts(cur[max..], max, n)| <= max;
      assert AfterCuts(cur, max, n + 1) == AfterCuts(cur[max..], max, n);
    }
  }

  lemma {:induction false} ZeroCutsNothing(cur: string, n: nat)
    ensures AfterCuts(cur, 0, n) == cur
  {
    if n > 0 {
      assert cur[0..] == cur;
      ZeroCutsNothing(cur, n - 1);
    }
  }

  /** The cut loop ends exactly when the maximum is at least one or there is nothing to cut. */
  lemma CutLoopEndsExactly(cur: string, max: nat)
    ensures (exists n: nat :: |AfterCuts(cur, max, n)| <= max) <==> max >= 1 || cur == ""
  {
    if max >= 1 {
      CutsShrink(cur, max);
    } else {
      assert AfterCuts(cur, max, 0) == cur;
      forall n: nat ensures AfterCuts(cur, max, n) == cur {
        ZeroCutsNothing(cur, n);
      }
    }
  }

  ghost predicate Fit(pieces: seq<string>, max: nat) {
    forall i :: 0 <= i < |pieces| ==> 1 <= |pieces[i]| <= max
  }

  lemma {:induction false} CutFits(cur: string, max: nat)
    requires max >= 1
    ensures Fit(CutPieces(cur, max), max) && |CutRest(cur, max)| <= max
    ensures |cur| <= max ==> CutPieces(cur, max) == [] && CutRest(cur, max) == cur
    decreases |cur|
  {
    if |cur| > max {
      CutFits(cur[max..], max);
    }
  }

  lemma {:induction false} CutKeepsInk(cur: string, max: nat)
    requires max >= 1
    ensures InkOf(CutPieces(cur, max)) + Ink(CutRest(cur, max)) == Ink(cur)
    decreases |cur|
  {
    if |cur| > max {
      CutKeepsInk(cur[max..], max);
      InkOfCons(cur[..max], CutPieces(cur[max..], max));
      InkConcat(cur[..max], cur[max..]);
      assert cur == cur[..max] + cur[max..];
    }
  }

  // ---------- sentences and lines of an oversized block ----------

  function Last(cur: string): seq<string> {
    if cur == "" then [] else [cur]
  }

  function Extended(cur: string, sep: string, unit: string): string {
    if cur == "" then unit else cur + sep + unit
  }

  // What is held after a unit arrives, before any cut.
  function Held(cur: string, sep: string, unit: string, max: nat): string {
    if |Extended(cur, sep, unit)| <= max then Extended(cur, sep, unit) else unit
  }

  // What is emitted for it to fit.
  function Emitted(cur: string, sep: string, unit: string, max: nat): seq<string> {
    if |Extended(cur, sep, unit)| <= max then [] else Last(cur)
  }

  function PackUnits(units: seq<string>, cur: string, sep: string, max: nat): seq<string>
    requires max >= 1
    decreases |units|
  {
    if |units| == 0 then Last(cur)
    else
      var held := Held(cur, sep, units[0], max);
      Emitted(cur, sep, units[0], max) + CutPieces(held, max) + PackUnits(units[1..], CutRest(held, max), sep, max)
  }

  function Units(block: string): seq<string> {
    if LooksFenced(block) then SplitLines(block) else Sentences(block)
  }

  function Separator(block: string): string {
    if LooksFenced(block) then "\n" else " "
  }

  function Oversized(block: string, max: nat): seq<string>
    requires max >= 1
  {
    PackUnits(Units(block), "", Separator(block), max)
  }

  lemma PackUnitsStep(units: seq<string>, i: nat, cur: string, sep: string, max: nat)
    requires max >= 1 && i < |units|
    ensures var held := Held(cur, sep, units[i], max);
      PackUnits(units[i..], cur, sep, max)
      == Emitted(cur, sep, units[i], max) + CutPieces(held, max)
      + PackUnits(units[i + 1..], CutRest(held, max), sep, max)
  {
    assert units[i..][1..] == units[i + 1..];
  }

  method SplitOversizedBlock(block: string, max: nat) returns (pieces: seq<string>)
    requires max >= 1
    ensures pieces == Oversized(block, max)
  {
    var fenced := LooksFenced(block);
    var units := if fenced then SplitLines(block) else Sentences(block);
    var sep := if fenced then "\n" else " ";
    pieces := [];
    var cur := "";
    for i := 0 to |units|
      invariant pieces + PackUnits(units[i..], cur, sep, max) == PackUnits(units, "", sep, max)
    {
      var unit := units[i];
      ghost var before, held := pieces, Held(cur, sep, unit, max);
      ghost var emitted := Emitted(cur, sep, unit, max);
      PackUnitsStep(units, i, cur, sep, max);
      var candidate := if cur == "" then unit else cur + sep + unit;
      if |candidate| <= max || cur == "" {
        cur := candidate;
      } else {
        pieces := pieces + [cur];
        cur := unit;
      }
      assert cur == held && pieces == before + emitted;
      var cut;
      cut, cur := HardCut(cur, max);
      pieces := pieces + cut;
      Regroup4(before, emitted, cut, PackUnits(units[i + 1..], cur, sep, max));
    }
    if cur != "" {
      pieces := pieces + [cur];
    }
  }

  lemma StepKeepsInk(cur: string, sep: string, unit: string, max: nat)
    requires Ink(sep) == ""
    ensures InkOf(Emitted(cur, sep, unit, max)) + Ink(Held(cur, sep, unit, max)) == Ink(cur) + Ink(unit)
  {
    InkAcross(cur, sep, unit);
    InkOfOne(cur);
  }

  lemma Shift(ahead: string, held: string, cur: string, unit: string, more: string)
    requires ahead + held == cur + unit
    ensures ahead + (held + more) == cur + (unit + more)
  {
    calc {
      ahead + (held + more);
      ahead + held + more;
      cur + unit + more;
      cur + (unit + more);
    }
  }

  lemma Rejoin(emitted: string, cut: string, rest: string, cur: string, unit: string, more: string)
    requires emitted + (cut + rest) == cur + unit
    ensures emitted + cut + (rest + more) == cur + (unit + more)
  {
    calc {
      emitted + cut + (rest + more);
      emitted + (cut + rest) + more;
      cur + unit + more;
      cur + (unit + more);
    }
  }

  lemma InkOf3(a: seq<string>, b: seq<string>, c: seq<string>)
    ensures InkOf(a + b + c) == InkOf(a) + InkOf(b) + InkOf(c)
  {
    InkOfConcat(a + b, c);
    InkOfConcat(a, b);
  }

  lemma {:induction false} PackUnitsKeepsInk(units: seq<string>, cur: string, sep: string, max: nat)
    requires max >= 1 && Ink(sep) == ""
    ensures InkOf(PackUnits(units, cur, sep, max)) == Ink(cur) + InkOf(units)
    decreases |units|
  {
    if |units| == 0 {
      InkOfOne(cur);
    } else {
      var held := Held(cur, sep, units[0], max);
      StepKeepsInk(cur, sep, units[0], max);
      CutKeepsInk(held, max);
      PackUnitsKeepsInk(units[1..], CutRest(held, max), sep, max);
      InkOf3(Emitted(cur, sep, units[0], max), CutPieces(held, max),
          PackUnits(units[1..], CutRest(held, max), sep, max));
      Rejoin(InkOf(Emitted(cur, sep, units[0], max)), InkOf(CutPieces(held, max)), Ink(CutRest(held, max)),
          Ink(cur), Ink(units[0]), InkOf(units[1..]));
    }
  }

  lemma {:induction false} PackUnitsFits(units: seq<string>, cur: string, sep: string, max: nat)
    requires max >= 1 && |cur| <= max
    ensures Fit(PackUnits(units, cur, sep, max), max)
    decreases |units|
  {
    if |units| > 0 {
      var held := Held(cur, sep, units[0], max);
      CutFits(held, max);
      PackUnitsFits(units[1..], CutRest(held, max), sep, max);
    }
  }

  // What is held so far ends up at the start of one piece.
  lemma {:induction false} HeldStaysWhole(units: seq<string>, cur: string, sep: string, max: nat)
    requires 0 < |cur| <= max
    ensures |PackUnits(units, cur, sep, max)| > 0 && cur <= PackUnits(units, cur, sep, max)[0]
    decreases |units|
  {
    if |units| > 0 && |Extended(cur, sep, units[0])| <= max {
      HeldStaysWhole(units[1..], Extended(cur, sep, units[0]), sep, max);
    }
  }

  // part stands in piece at position at.
  predicate StandsIn(part: string, piece: string, at: nat) {
    at + |part| <= |piece| && piece[at..at + |part|] == part
  }

  lemma StandsInLonger(part: string, piece: string, longer: string, at: nat)
    requires StandsIn(part, piece, at) && piece <= longer
    ensures StandsIn(part, longer, at)
  {
  }

  // Whole: some piece has the part in it.
  ghost predicate InSomePiece(part: string, pieces: seq<string>) {
    exists i, at: nat :: 0 <= i < |pieces| && StandsIn(part, pieces[i], at)
  }

  lemma InLaterPiece(part: string, ahead: seq<string>, rest: seq<string>)
    requires InSomePiece(part, rest)
    ensures InSomePiece(part, ahead + rest)
  {
    var i, at: nat :| 0 <= i < |rest| && StandsIn(part, rest[i], at);
    assert (ahead + rest)[|ahead| + i] == rest[i];
  }

  // A part that ends what is held is at the start of the first piece to come.
  lemma EndOfHeldIsWhole(part: string, front: string, rest: seq<string>)
    requires |rest| > 0 && front + part <= rest[0]
    ensures InSomePiece(part, rest)
  {
    assert StandsIn(part, front + part, |front|);
    StandsInLonger(part, front + part, rest[0], |front|);
  }

  lemma HeldEndsInUnit(cur: string, sep: string, unit: string, max: nat) returns (front: string)
    requires 0 < |unit| <= max
    ensures Held(cur, sep, unit, max) == front + unit && 0 < |Held(cur, sep, unit, max)| <= max
  {
    front := if cur != "" && |Extended(cur, sep, unit)| <= max then cur + sep else "";
  }

  lemma FirstUnitStaysWhole(units: seq<string>, cur: string, sep: string, max: nat)
    requires |units| > 0 && 0 < |units[0]| <= max
    ensures InSomePiece(units[0], PackUnits(units, cur, sep, max))
  {
    var held := Held(cur, sep, units[0], max);
    var front := HeldEndsInUnit(cur, sep, units[0], max);
    CutFits(held, max);
    HeldStaysWhole(units[1..], held, sep, max);
    var rest := PackUnits(units[1..], held, sep, max);
    EndOfHeldIsWhole(units[0], front, rest);
    InLaterPiece(units[0], Emitted(cur, sep, units[0], max) + CutPieces(held, max), rest);
  }

  /** A sentence or line that fits is never cut: it stands whole in one piece. */
  lemma {:induction false} UnitsStayWhole(units: seq<string>, cur: string, sep: string, max: nat, u: nat)
    requires |cur| <= max && u < |units| && 0 < |units[u]| <= max
    ensures InSomePiece(units[u], PackUnits(units, cur, sep, max))
    decreases |units|
  {
    if u == 0 {
      FirstUnitStaysWhole(units, cur, sep, max);
    } else {
      var held := Held(cur, sep, units[0], max);
      CutFits(held, max);
      UnitsStayWhole(units[1..], CutRest(held, max), sep, max, u - 1);
      InLaterPiece(units[u], Emitted(cur, sep, units[0], max) + CutPieces(held, max),
          PackUnits(units[1..], CutRest(held, max), sep, max));
    }
  }

  lemma OversizedKeepsInk(block: string, max: nat)
    requires max >= 1
    ensures InkOf(Oversized(block, max)) == Ink(block)
    ensures Fit(Oversized(block, max), max)
  {
    AllSpaceHasNoInk(Separator(block));
    PackUnitsKeepsInk(Units(block), "", Separator(block), max);
    PackUnitsFits(Units(block), "", Separator(block), max);
    InkOfLines(block);
    InkOfSentences(block);
  }

  // ---------- blocks of a body ----------

  // What is emitted when a block arrives, and what is held then.
  function Ahead(cur: string, block: string, max: nat): seq<string>
    requires max >= 1
  {
    if |block| > max then Last(cur) + Oversized(block, max) else Emitted(cur, "\n\n", block, max)
  }

  function HeldAfter(cur: string, block: string, max: nat): string {
    if |block| > max then "" else Held(cur, "\n\n", block, max)
  }

  function PackBlocks(blocks: seq<string>, cur: string, max: nat): seq<string>
    requires max >= 1 || blocks == []
    decreases |blocks|
  {
    if |blocks| == 0 then Last(cur)
    else
      Ahead(cur, blocks[0], max) + PackBlocks(blocks[1..], HeldAfter(cur, blocks[0], max), max)
  }

  lemma PackBlocksStep(blocks: seq<string>, i: nat, cur: string, max: nat)
    requires max >= 1 && i < |blocks|
    ensures PackBlocks(blocks[i..], cur, max)
      == Ahead(cur, blocks[i], max) + PackBlocks(blocks[i + 1..], HeldAfter(cur, blocks[i], max), max)
  {
    assert blocks[i..][1..] == blocks[i + 1..];
  }

  // A body can be split when pieces may hold a character or there is nothing to hold.
  predicate Splittable(body: string, max: nat) { max >= 1 || Blank(body) }

  lemma {:induction false} JoinedBlank(groups: seq<Group>)
    requires forall i :: 0 <= i < |groups| ==> IsParagraph(groups[i]) || IsFence(groups[i])
    requires InkOf(Joined(groups)) == ""
    ensures groups == []
  {
    if |groups| > 0 {
      var tail := JoinSplitsOff(groups[0]);
      InkConcat(groups[0][0], tail);
      FirstLineHasInk(groups[0]);
    }
  }

  lemma FirstLineHasInk(g: Group)
    requires IsParagraph(g) || IsFence(g)
    ensures Ink(g[0]) != ""
  {
    BlankHasNoInk(g[0]);
    if Opener(g[0]).Some? {
      MarkedStarts(g[0]);
      RStripKeepsHead(LStrip(g[0], Space), Space);
      LStripStarts(g[0], Space);
    }
  }

  // A blank body has no blocks.
  lemma BlankHasNoBlocks(body: string)
    requires Blank(body)
    ensures BlocksOf(body) == []
  {
    BlankHasNoInk(body);
    BlocksKeepInk(body);
    BlocksAreParagraphsOrFences(body);
    JoinedBlank(GroupsOf(body));
  }

  function Pieces(body: string, max: nat): seq<string>
    requires Splittable(body, max)
  {
    if |body| <= max then [body]
    else
      assert max >= 1 || BlocksOf(body) == [] by { if max == 0 { BlankHasNoBlocks(body); } }
      PackBlocks(BlocksOf(body), "", max)
  }

  // One block into the pieces.
  method PackBlock(pieces: seq<string>, cur: string, block: string, max: nat) returns (more: seq<string>, held: string)
    requires max >= 1 && |cur| <= max
    ensures more == pieces + Ahead(cur, block, max) && held == HeldAfter(cur, block, max) && |held| <= max
  {
    more, held := pieces, cur;
    if |block| > max {
      if cur != "" {
        more, held := more + [cur], "";
      }
      assert more == pieces + Last(cur) && held == "";
      var split := SplitOversizedBlock(block, max);
      more := more + split;
      Regroup(pieces, Last(cur), split);
    } else {
      var candidate := if cur == "" then block else cur + "\n\n" + block;
      if |candidate| <= max {
        held := candidate;
      } else {
        more, held := more + [cur], block;
      }
    }
  }

  method PackAll(blocks: seq<string>, max: nat) returns (pieces: seq<string>)
    requires max >= 1 || blocks == []
    ensures pieces == PackBlocks(blocks, "", max)
  {
    pieces := [];
    var cur := "";
    for i := 0 to |blocks|
      invariant pieces + PackBlocks(blocks[i..], cur, max) == PackBlocks(blocks, "", max)
      invariant |cur| <= max
    {
      ghost var before, ahead := pieces, Ahead(cur, blocks[i], max);
      PackBlocksStep(blocks, i, cur, max);
      pieces, cur := PackBlock(pieces, cur, blocks[i], max);
      Regroup(before, ahead, PackBlocks(blocks[i + 1..], cur, max));
    }
    if cur != "" {
      pieces := pieces + [cur];
    }
  }

  method SplitBody(body: string, max: nat) returns (pieces: seq<string>)
    requires Splittable(body, max)
    ensures pieces == Pieces(body, max)
  {
    if |body| <= max {
      return [body];
    }
    if max == 0 {
      BlankHasNoBlocks(body);
    }
    var blocks := SplitBlocks(body);
    pieces := PackAll(blocks, max);
  }

  lemma AheadKeepsInk(cur: string, block: string, max: nat)
    requires max >= 1
    ensures InkOf(Ahead(cur, block, max)) + Ink(HeldAfter(cur, block, max)) == Ink(cur) + Ink(block)
  {
    if |block| > max {
      InkOfOne(cur);
      OversizedKeepsInk(block, max);
      InkOfConcat(Last(cur), Oversized(block, max));
    } else {
      AllSpaceHasNoInk("\n\n");
      StepKeepsInk(cur, "\n\n", block, max);
    }
  }

  lemma {:induction false} PackBlocksKeepsInk(blocks: seq<string>, cur: string, max: nat)
    requires max >= 1
    ensures InkOf(PackBlocks(blocks, cur, max)) == Ink(cur) + InkOf(blocks)
    decreases |blocks|
  {
    if |blocks| == 0 {
      InkOfOne(cur);
    } else {
      var held, ahead, rest := HeldAfter(cur, blocks[0], max), Ahead(cur, blocks[0], max), blocks[1..];
      AheadKeepsInk(cur, blocks[0], max);
      PackBlocksKeepsInk(rest, held, max);
      InkOfConcat(ahead, PackBlocks(rest, held, max));
      Shift(InkOf(ahead), Ink(held), Ink(cur), Ink(blocks[0]), InkOf(rest));
    }
  }

  lemma {:induction false} PackBlocksFits(blocks: seq<string>, cur: string, max: nat)
    requires max >= 1 && |cur| <= max
    ensures Fit(PackBlocks(blocks, cur, max), max)
    decreases |blocks|
  {
    if |blocks| > 0 {
      if |blocks[0]| > max {
        OversizedKeepsInk(blocks[0], max);
        PackBlocksFits(blocks[1..], "", max);
      } else {
        PackBlocksFits(blocks[1..], Held(cur, "\n\n", blocks[0], max), max);
      }
    }
  }

  lemma {:induction false} HeldBlocksStayWhole(blocks: seq<string>, cur: string, max: nat)
    requires 0 < |cur| <= max
    ensures |PackBlocks(blocks, cur, max)| > 0 && cur <= PackBlocks(blocks, cur, max)[0]
    decreases |blocks|
  {
    if |blocks| > 0 && |blocks[0]| <= max && |Extended(cur, "\n\n", blocks[0])| <= max {
      HeldBlocksStayWhole(blocks[1..], Extended(cur, "\n\n", blocks[0]), max);
    }
  }

  lemma FirstBlockStaysWhole(blocks: seq<string>, cur: string, max: nat)
    requires |blocks| > 0 && 0 < |blocks[0]| <= max
    ensures InSomePiece(blocks[0], PackBlocks(blocks, cur, max))
  {
    var held := Held(cur, "\n\n", blocks[0], max);
    var front := HeldEndsInUnit(cur, "\n\n", blocks[0], max);
    HeldBlocksStayWhole(blocks[1..], held, max);
    var rest := PackBlocks(blocks[1..], held, max);
    EndOfHeldIsWhole(blocks[0], front, rest);
    InLaterPiece(blocks[0], Ahead(cur, blocks[0], max), rest);
  }

  lemma {:induction false} PackedBlocksStayWhole(blocks: seq<string>, cur: string, max: nat, b: nat)
    requires |cur| <= max && b < |blocks| && 0 < |blocks[b]| <= max
    ensures InSomePiece(blocks[b], PackBlocks(blocks, cur, max))
    decreases |blocks|
  {
    if b == 0 {
      FirstBlockStaysWhole(blocks, cur, max);
    } else {
      var held := HeldAfter(cur, blocks[0], max);
      PackedBlocksStayWhole(blocks[1..], held, max, b - 1);
      InLaterPiece(blocks[b], Ahead(cur, blocks[0], max), PackBlocks(blocks[1..], held, max));
    }
  }

  /** Splitting a body conserves its text, and no piece is longer than the maximum. */
  lemma PiecesKeepInk(body: string, max: nat)
    requires Splittable(body, max)
    ensures InkOf(Pieces(body, max)) == Ink(body)
    ensures forall i :: 0 <= i < |Pieces(body, max)| ==> |Pieces(body, max)[i]| <= max
  {
    if |body| <= max {
      InkOfOne(body);
    } else if max == 0 {
      BlankHasNoBlocks(body);
      BlankHasNoInk(body);
    } else {
      BlocksKeepInk(body);
      PackBlocksKeepsInk(BlocksOf(body), "", max);
      PackBlocksFits(BlocksOf(body), "", max);
    }
  }

  lemma {:induction false} BlocksAreNotEmpty(groups: seq<Group>, b: nat)
    requires b < |groups| && (IsParagraph(groups[b]) || IsFence(groups[b]))
    ensures Joined(groups)[b] == Join(groups[b], "\n") && Ink(Joined(groups)[b]) != ""
  {
    if b == 0 {
      var tail := JoinSplitsOff(groups[0]);
      InkConcat(groups[0][0], tail);
      FirstLineHasInk(groups[0]);
    } else {
      BlocksAreNotEmpty(groups[1..], b - 1);
    }
  }

  /** A block that fits stands whole inside one piece of an oversized body. */
  lemma BlocksStayWhole(body: string, max: nat, b: nat)
    requires |body| > max >= 1 && b < |BlocksOf(body)| && |BlocksOf(body)[b]| <= max
    ensures InSomePiece(BlocksOf(body)[b], Pieces(body, max))
  {
    BlocksAreParagraphsOrFences(body);
    BlocksAreNotEmpty(GroupsOf(body), b);
    PackedBlocksStayWhole(BlocksOf(body), "", max, b);
  }

  /** Packing is greedy: the next block joins the held piece exactly when both fit, and otherwise starts the next. */
  lemma PackingIsGreedy(blocks: seq<string>, cur: string, max: nat)
    requires 0 < |cur| <= max && |blocks| > 0 && 0 < |blocks[0]| <= max
    ensures var pieces := PackBlocks(blocks, cur, max);
      if |cur| + 2 + |blocks[0]| <= max then |pieces| > 0 && cur + "\n\n" + blocks[0] <= pieces[0]
      else |pieces| > 1 && pieces[0] == cur && blocks[0] <= pieces[1]
  {
    HeldBlocksStayWhole(blocks[1..], Held(cur, "\n\n", blocks[0], max), max);
  }

  // ---------- a maximum of zero ----------

  lemma {:induction false} FirstUnitStarts(s: string, i: nat)
    requires i <= |s| && |s| > 0
    ensures |SentencesFrom(s, 0, i)[0]| > 0
    decreases |s| - i
  {
    if i < |s| && !Gap(s, i) {
      FirstUnitStarts(s, i + 1);
    }
  }

  lemma FirstLineStarts(s: string)
    requires |s| > 0 && !IsBreak(s[0])
    ensures |SplitLines(s)| > 0 && |SplitLines(s)[0]| > 0
  {
  }

  lemma FirstUnitIsNotEmpty(block: string)
    requires |block| > 0 && !IsBreak(block[0])
    ensures |Units(block)| > 0 && Units(block)[0] != ""
  {
    FirstUnitStarts(block, 0);
    FirstLineStarts(block);
  }

  lemma FirstBlockStarts(body: string)
    requires !Blank(body)
    ensures var blocks := BlocksOf(body); |blocks| > 0 && |blocks[0]| > 0 && !IsBreak(blocks[0][0])
  {
    BlankHasNoInk(body);
    BlocksKeepInk(body);
    BlocksAreParagraphsOrFences(body);
    BlocksAreNotEmpty(GroupsOf(body), 0);
    var g := GroupsOf(body)[0];
    FirstLineHasInk(g);
    var tail := JoinSplitsOff(g);
    assert g in GroupsOf(body) && IsRun(SplitLines(body), g);
    var a: nat :| RunAt(SplitLines(body), g, a);
    assert g[0] == SplitLines(body)[a];
  }

  /** With a maximum of zero, a body with any text brings the cut loop a unit it never finishes cutting. */
  lemma ZeroMaximumNeverEnds(body: string)
    requires !Blank(body)
    ensures |BlocksOf(body)| > 0 && |BlocksOf(body)[0]| > 0 && |Units(BlocksOf(body)[0])| > 0
    ensures forall n: nat :: |AfterCuts(Units(BlocksOf(body)[0])[0], 0, n)| > 0
  {
    FirstBlockStarts(body);
    FirstUnitIsNotEmpty(BlocksOf(body)[0]);
    var unit := Units(BlocksOf(body)[0])[0];
    forall n: nat ensures |AfterCuts(unit, 0, n)| > 0 {
      ZeroCutsNothing(unit, n);
    }
  }
}
