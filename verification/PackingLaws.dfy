/** How units are packed into pieces: greedily, joined by the separator, cut only where they must be. */
module PackingLaws {
  import opened Sequences
  import opened Text
  import opened MarkdownText
  import opened Blocks
  import opened Packing

  // ---------- greedy runs ----------

  function FromText(run: seq<string>): seq<string> {
    if |run| > 0 && run[0] == "" then FromText(run[1..]) else run
  }

  // A run of units as one text; empty units before the first text are dropped.
  function RunText(run: seq<string>, sep: string): string {
    Join(FromText(run), sep)
  }

  // The texts of the runs that have one.
  function RunTexts(runs: seq<seq<string>>, sep: string): seq<string> {
    if |runs| == 0 then []
    else (if RunText(runs[0], sep) == "" then [] else [RunText(runs[0], sep)]) + RunTexts(runs[1..], sep)
  }

  // The next run starts with a unit for which there was no room in this one.
  ghost predicate NoRoom(run: seq<string>, next: seq<string>, sep: string, max: nat) {
    |next| > 0 && RunText(run, sep) != "" && |RunText(run, sep)| + |sep| + |next[0]| > max
  }

  ghost predicate Greedy(runs: seq<seq<string>>, sep: string, max: nat) {
    && (forall i :: 0 <= i < |runs| ==> |runs[i]| > 0 && |RunText(runs[i], sep)| <= max)
    && (forall i :: 0 <= i < |runs| - 1 ==> NoRoom(runs[i], runs[i + 1], sep, max))
  }

  // The pieces are the units in runs, and a new run starts only where the last one has no room.
  ghost predicate PackedGreedily(units: seq<string>, sep: string, max: nat, pieces: seq<string>) {
    exists runs :: Flatten(runs) == units && Greedy(runs, sep, max) && pieces == RunTexts(runs, sep)
  }

  lemma GreedyCons(run: seq<string>, runs: seq<seq<string>>, sep: string, max: nat)
    requires |run| > 0 && |RunText(run, sep)| <= max && Greedy(runs, sep, max)
    requires |runs| > 0 ==> NoRoom(run, runs[0], sep, max)
    ensures Greedy([run] + runs, sep, max)
  {
    var all := [run] + runs;
    forall i | 0 <= i < |all| - 1 ensures NoRoom(all[i], all[i + 1], sep, max) {
      assert all[i + 1] == runs[i];
      if i > 0 {
        assert NoRoom(runs[i - 1], runs[i], sep, max) && all[i] == runs[i - 1];
      }
    }
  }

  lemma JoinSnoc(run: seq<string>, unit: string, sep: string)
    requires |run| > 0
    ensures Join(run + [unit], sep) == Join(run, sep) + sep + unit
  {
    JoinAppend(run, [unit], sep);
  }

  lemma {:induction false} FromTextSnoc(run: seq<string>, unit: string)
    ensures FromText(run + [unit]) == if |FromText(run)| > 0 || unit != "" then FromText(run) + [unit] else []
  {
    if |run| > 0 {
      assert (run + [unit])[1..] == run[1..] + [unit];
      if run[0] == "" {
        FromTextSnoc(run[1..], unit);
      }
    } else {
      assert run + [unit] == [unit] && [unit][1..] == [];
    }
  }

  lemma {:induction false} FromTextHasText(run: seq<string>, sep: string)
    ensures RunText(run, sep) == "" <==> FromText(run) == []
    ensures FromText(run) != [] ==> FromText(run)[0] != ""
  {
    if |run| > 0 && run[0] == "" {
      FromTextHasText(run[1..], sep);
    }
  }

  lemma RunGrows(run: seq<string>, sep: string, unit: string)
    ensures RunText(run + [unit], sep) == Extended(RunText(run, sep), sep, unit)
  {
    FromTextSnoc(run, unit);
    FromTextHasText(run, sep);
    var from := FromText(run);
    if |from| > 0 {
      JoinSnoc(from, unit, sep);
    } else {
      assert from + [unit] == [unit];
    }
  }

  lemma NewRun(run: seq<string>, unit: string, rest: seq<string>, runs: seq<seq<string>>, sep: string)
    requires Flatten(runs) == [unit] + rest
    ensures Flatten([run] + runs) == run + ([unit] + rest)
    ensures RunTexts([run] + runs, sep) == Last(RunText(run, sep)) + RunTexts(runs, sep)
  {
    assert ([run] + runs)[1..] == runs;
  }

  // What packing makes of one unit that fits a piece, and of the others.
  lemma PackCons(unit: string, more: seq<string>, cur: string, sep: string, max: nat)
    requires max >= 1 && |unit| <= max && |cur| <= max
    ensures PackUnits([unit] + more, cur, sep, max)
            == Emitted(cur, sep, unit, max) + PackUnits(more, Held(cur, sep, unit, max), sep, max)
  {
    var held := Held(cur, sep, unit, max);
    CutFits(held, max);
    assert ([unit] + more)[0] == unit && ([unit] + more)[1..] == more;
    assert Emitted(cur, sep, unit, max) + [] == Emitted(cur, sep, unit, max);
  }

  ghost predicate AllFit(units: seq<string>, max: nat) {
    forall i :: 0 <= i < |units| ==> |units[i]| <= max
  }

  // The runs cut the units, and their texts are the pieces.
  ghost predicate RunsOf(units: seq<string>, runs: seq<seq<string>>, sep: string, max: nat, pieces: seq<string>) {
    Flatten(runs) == units && Greedy(runs, sep, max) && RunTexts(runs, sep) == pieces
  }

  lemma {:induction false} RunsFrom(run: seq<string>, rest: seq<string>, sep: string, max: nat)
    returns (runs: seq<seq<string>>)
    requires |run| > 0 && |RunText(run, sep)| <= max && AllFit(rest, max) && max >= 1
    ensures RunsOf(run + rest, runs, sep, max, PackUnits(rest, RunText(run, sep), sep, max))
    ensures |runs| > 0 && run <= runs[0]
    decreases |rest|
  {
    if |rest| == 0 {
      runs := [run];
      NothingMore(run, sep);
      assert run + rest == run;
    } else {
      var unit, more := rest[0], rest[1..];
      assert rest == [unit] + more;
      PackCons(unit, more, RunText(run, sep), sep, max);
      if |Extended(RunText(run, sep), sep, unit)| <= max {
        RunGrows(run, sep, unit);
        runs := RunsFrom(run + [unit], more, sep, max);
        Regroup(run, [unit], more);
        Starts(run, [unit], runs[0]);
        EmittedNothing(RunText(run, sep), sep, unit, max, PackUnits(more, RunText(run + [unit], sep), sep, max));
      } else {
        OneUnit(unit, sep);
        var later := RunsFrom([unit], more, sep, max);
        LaterRuns(run, unit, more, later, sep, max);
        runs := [run] + later;
      }
    }
  }

  lemma Starts(a: seq<string>, b: seq<string>, c: seq<string>)
    requires a + b <= c
    ensures a <= c
  {
  }

  lemma EmittedNothing(cur: string, sep: string, unit: string, max: nat, later: seq<string>)
    requires |Extended(cur, sep, unit)| <= max
    ensures Emitted(cur, sep, unit, max) + later == later && Held(cur, sep, unit, max) == Extended(cur, sep, unit)
  {
  }

  lemma NothingMore(run: seq<string>, sep: string)
    ensures Flatten([run]) == run && RunTexts([run], sep) == Last(RunText(run, sep))
  {
    assert [run][1..] == [];
  }

  // The next unit has no room, and starts a run of its own.
  lemma LaterRuns(run: seq<string>, unit: string, more: seq<string>, later: seq<seq<string>>, sep: string, max: nat)
    requires |run| > 0 && |RunText(run, sep)| <= max && |unit| <= max && max >= 1
    requires |Extended(RunText(run, sep), sep, unit)| > max && |later| > 0 && [unit] <= later[0]
    requires RunsOf([unit] + more, later, sep, max, PackUnits(more, unit, sep, max))
    ensures RunsOf(run + ([unit] + more), [run] + later, sep, max,
              Last(RunText(run, sep)) + PackUnits(more, unit, sep, max))
  {
    NewRun(run, unit, more, later, sep);
    assert later[0][0] == unit;
    GreedyCons(run, later, sep, max);
  }

  lemma OneUnit(unit: string, sep: string)
    ensures RunText([unit], sep) == unit
  {
    RunGrows([], sep, unit);
    assert [] + [unit] == [unit];
  }

  /** Units that all fit are packed greedily. */
  lemma FittingUnitsAreGreedy(units: seq<string>, sep: string, max: nat)
    requires max >= 1 && AllFit(units, max)
    ensures PackedGreedily(units, sep, max, PackUnits(units, "", sep, max))
  {
    var runs: seq<seq<string>> := [];
    if |units| > 0 {
      var unit, more := units[0], units[1..];
      OneUnit(unit, sep);
      runs := RunsFrom([unit], more, sep, max);
      assert [unit] + more == units;
      PackCons(unit, more, "", sep, max);
      assert RunsOf(units, runs, sep, max, PackUnits(units, "", sep, max));
    }
    assert Flatten(runs) == units && Greedy(runs, sep, max);
  }

  // ---------- units that do not fit ----------

  // A unit cut into pieces of the maximum and a last one.
  function Cuts(unit: string, max: nat): (cuts: seq<string>)
    requires max >= 1
  {
    CutPieces(unit, max) + [CutRest(unit, max)]
  }

  function CutUp(units: seq<string>, max: nat): seq<string>
    requires max >= 1
  {
    if |units| == 0 then [] else Cuts(units[0], max) + CutUp(units[1..], max)
  }

  /** A unit is cut into consecutive pieces, full ones and then one that is not empty unless it is. */
  lemma {:induction false} CutsAreFull(unit: string, max: nat)
    requires max >= 1
    ensures Flatten(Cuts(unit, max)) == unit
    ensures forall i :: 0 <= i < |CutPieces(unit, max)| ==> |CutPieces(unit, max)[i]| == max
    ensures |CutRest(unit, max)| <= max && (unit != "" ==> CutRest(unit, max) != "")
    decreases |unit|
  {
    if |unit| > max {
      CutsAreFull(unit[max..], max);
      assert Cuts(unit, max)[1..] == Cuts(unit[max..], max);
      assert unit[..max] + unit[max..] == unit;
    } else {
      assert Cuts(unit, max) == [unit] && [unit][1..] == [];
    }
  }

  lemma {:induction false} CutUpFits(units: seq<string>, max: nat)
    requires max >= 1
    ensures AllFit(CutUp(units, max), max)
  {
    if |units| > 0 {
      CutsAreFull(units[0], max);
      CutUpFits(units[1..], max);
    }
  }

  lemma CutsCons(unit: string, more: seq<string>, max: nat)
    requires |unit| > max >= 1
    ensures Cuts(unit, max) + more == [unit[..max]] + (Cuts(unit[max..], max) + more)
  {
  }

  lemma Regroup2<T>(a: seq<T>, b: seq<T>, c: seq<T>, d: seq<T>)
    ensures a + (b + c + d) == a + (b + c) + d
  {
  }

  // A unit without room is packed as its cuts are.
  lemma {:induction false} CutsPackAlike(unit: string, more: seq<string>, cur: string, sep: string, max: nat)
    requires max >= 1 && |sep| > 0 && |cur| <= max
    requires cur == "" || |Extended(cur, sep, unit)| > max
    ensures PackUnits(Cuts(unit, max) + more, cur, sep, max)
            == Last(cur) + CutPieces(unit, max) + PackUnits(more, CutRest(unit, max), sep, max)
    decreases |unit|
  {
    if |unit| <= max {
      PackCons(unit, more, cur, sep, max);
      assert Cuts(unit, max) == [unit];
      assert Last(cur) + [] == Last(cur);
    } else {
      var c, tail := unit[..max], unit[max..];
      CutsPackAlike(tail, more, c, sep, max);
      CutsCons(unit, more, max);
      FullPack(c, Cuts(tail, max) + more, cur, sep, max);
      Regroup2(Last(cur), [c], CutPieces(tail, max), PackUnits(more, CutRest(tail, max), sep, max));
    }
  }

  // A full piece shares with nothing before it.
  lemma FullPack(c: string, more: seq<string>, cur: string, sep: string, max: nat)
    requires |c| == max >= 1 && |sep| > 0 && |cur| <= max
    ensures PackUnits([c] + more, cur, sep, max) == Last(cur) + PackUnits(more, c, sep, max)
  {
    PackCons(c, more, cur, sep, max);
  }

  lemma UnitPacksAsCuts(unit: string, more: seq<string>, cur: string, sep: string, max: nat)
    requires max >= 1 && |sep| > 0 && |cur| <= max
    ensures var held := Held(cur, sep, unit, max);
            PackUnits(Cuts(unit, max) + more, cur, sep, max)
            == Emitted(cur, sep, unit, max) + CutPieces(held, max) + PackUnits(more, CutRest(held, max), sep, max)
  {
    if cur == "" || |Extended(cur, sep, unit)| > max {
      CutsPackAlike(unit, more, cur, sep, max);
    } else {
      CutFits(unit, max);
      CutFits(Held(cur, sep, unit, max), max);
      assert Cuts(unit, max) == [unit];
      PackCons(unit, more, cur, sep, max);
      assert Emitted(cur, sep, unit, max) + [] == Emitted(cur, sep, unit, max);
    }
  }

  lemma {:induction false} PacksAsCutUp(units: seq<string>, cur: string, sep: string, max: nat)
    requires max >= 1 && |sep| > 0 && |cur| <= max
    ensures PackUnits(units, cur, sep, max) == PackUnits(CutUp(units, max), cur, sep, max)
    decreases |units|
  {
    if |units| > 0 {
      var held := Held(cur, sep, units[0], max);
      CutFits(held, max);
      PacksAsCutUp(units[1..], CutRest(held, max), sep, max);
      UnitPacksAsCuts(units[0], CutUp(units[1..], max), cur, sep, max);
    }
  }

  /** The lines of an oversized fence are packed greedily into lines again, the sentences of an oversized
      paragraph into text with a space between them; only a unit over the maximum is cut. */
  lemma OversizedIsGreedy(block: string, max: nat)
    requires max >= 1
    ensures LooksFenced(block) ==> PackedGreedily(CutUp(SplitLines(block), max), "\n", max, Oversized(block, max))
    ensures !LooksFenced(block) ==> PackedGreedily(CutUp(Sentences(block), max), " ", max, Oversized(block, max))
  {
    var units, sep := Units(block), Separator(block);
    PacksAsCutUp(units, "", sep, max);
    CutUpFits(units, max);
    FittingUnitsAreGreedy(CutUp(units, max), sep, max);
  }

  // ---------- blocks ----------

  lemma {:induction false} FittingBlocksPackAsUnits(blocks: seq<string>, cur: string, max: nat)
    requires max >= 1 && |cur| <= max && AllFit(blocks, max)
    ensures PackBlocks(blocks, cur, max) == PackUnits(blocks, cur, "\n\n", max)
    decreases |blocks|
  {
    if |blocks| > 0 {
      var held := Held(cur, "\n\n", blocks[0], max);
      CutFits(held, max);
      FittingBlocksPackAsUnits(blocks[1..], held, max);
      assert Emitted(cur, "\n\n", blocks[0], max) + [] == Emitted(cur, "\n\n", blocks[0], max);
    }
  }

  /** Blocks that all fit are packed greedily, with a blank line between them. */
  lemma BlocksAreGreedy(blocks: seq<string>, max: nat)
    requires max >= 1 && AllFit(blocks, max)
    ensures PackedGreedily(blocks, "\n\n", max, PackBlocks(blocks, "", max))
  {
    FittingBlocksPackAsUnits(blocks, "", max);
    FittingUnitsAreGreedy(blocks, "\n\n", max);
  }

  /** So is a body that is too long, when each of its blocks fits. */
  lemma BodyIsPackedGreedily(body: string, max: nat)
    requires |body| > max >= 1 && AllFit(BlocksOf(body), max)
    ensures PackedGreedily(BlocksOf(body), "\n\n", max, Pieces(body, max))
  {
    BlocksAreGreedy(BlocksOf(body), max);
  }

  lemma PackBlocksCons(block: string, more: seq<string>, cur: string, max: nat)
    requires max >= 1
    ensures PackBlocks([block] + more, cur, max)
            == Ahead(cur, block, max) + PackBlocks(more, HeldAfter(cur, block, max), max)
  {
    assert ([block] + more)[0] == block && ([block] + more)[1..] == more;
  }

  lemma AlongWith(first: string, rest: seq<string>, tail: seq<string>, cur: string, max: nat, y: seq<string>,
                  z: seq<string>)
    requires max >= 1
    requires var held := HeldAfter(cur, first, max);
      PackBlocks(rest + tail, held, max) == PackBlocks(rest, held, max) + y + z
    ensures PackBlocks([first] + (rest + tail), cur, max) == PackBlocks([first] + rest, cur, max) + y + z
  {
    PackBlocksCons(first, rest, cur, max);
    PackBlocksCons(first, rest + tail, cur, max);
    Regroup4(Ahead(cur, first, max), PackBlocks(rest, HeldAfter(cur, first, max), max), y, z);
  }

  /** A block over the maximum shares no piece with a neighbour: it parts the packing in two. */
  lemma {:induction false} BigBlockStandsAlone(before: seq<string>, big: string, after: seq<string>, cur: string,
                                               max: nat)
    requires max >= 1 && |big| > max
    ensures PackBlocks(before + ([big] + after), cur, max)
            == PackBlocks(before, cur, max) + Oversized(big, max) + PackBlocks(after, "", max)
    decreases |before|
  {
    var tail := [big] + after;
    if |before| == 0 {
      PackBlocksCons(big, after, cur, max);
      assert before + tail == tail;
    } else {
      var first, rest := before[0], before[1..];
      BigBlockStandsAlone(rest, big, after, HeldAfter(cur, first, max), max);
      AlongWith(first, rest, tail, cur, max, Oversized(big, max), PackBlocks(after, "", max));
      Regroup([first], rest, tail);
      assert [first] + rest == before;
    }
  }
}
