/** Which neighbouring sections are merged, in lengths and newlines only. */
module MergeLaws {
  import opened Sequences
  import opened Text
  import opened MarkdownText
  import opened Sections
  import opened Merging

  // Together within the target, and one of them below the minimum.
  predicate Small(a: string, b: string, target: int, minimum: int) {
    |a| + |b| <= target && (|a| < minimum || |b| < minimum)
  }

  // Every section of the run was small beside what came before it.
  ghost predicate Joined(run: seq<Section>, target: int, minimum: int) {
    forall k :: 1 <= k < |run| ==> JoinedAt(run, k, target, minimum)
  }

  ghost predicate JoinedAt(run: seq<Section>, k: nat, target: int, minimum: int)
    requires 1 <= k < |run|
  {
    Small(Folded(run[..k]).content, run[k].content, target, minimum)
  }

  ghost predicate AllJoined(runs: seq<seq<Section>>, target: int, minimum: int) {
    forall i :: 0 <= i < |runs| ==> |runs[i]| > 0 && Joined(runs[i], target, minimum)
  }

  // Where one run ends and the next begins, the next section was not small beside the run.
  ghost predicate Apart(runs: seq<seq<Section>>, target: int, minimum: int)
    requires AllFull(runs)
  {
    forall i :: 0 <= i < |runs| - 1 ==> ApartAt(runs[i], runs[i + 1], target, minimum)
  }

  ghost predicate ApartAt(run: seq<Section>, next: seq<Section>, target: int, minimum: int)
    requires |run| > 0 && |next| > 0
  {
    !Small(Folded(run).content, next[0].content, target, minimum)
  }

  lemma JoinedGrows(run: seq<Section>, s: Section, target: int, minimum: int)
    requires |run| > 0 && Joined(run, target, minimum) && Small(Folded(run).content, s.content, target, minimum)
    ensures Joined(run + [s], target, minimum)
  {
    var more := run + [s];
    forall k | 1 <= k < |more| ensures JoinedAt(more, k, target, minimum) {
      if k < |run| {
        assert JoinedAt(run, k, target, minimum) && more[..k] == run[..k];
      } else {
        assert more[..k] == run;
      }
    }
  }

  lemma ApartCons(run: seq<Section>, runs: seq<seq<Section>>, target: int, minimum: int)
    requires |run| > 0 && AllFull(runs) && Apart(runs, target, minimum)
    requires |runs| > 0 ==> ApartAt(run, runs[0], target, minimum)
    ensures AllFull([run] + runs) && Apart([run] + runs, target, minimum)
  {
    var all := [run] + runs;
    forall i | 0 <= i < |all| - 1 ensures ApartAt(all[i], all[i + 1], target, minimum) {
      assert all[i + 1] == runs[i];
      if i > 0 {
        assert ApartAt(runs[i - 1], runs[i], target, minimum) && all[i] == runs[i - 1];
      }
    }
  }

  // The first run starts with what the first run had already.
  lemma {:induction false} FirstRun(run: seq<Section>, rest: seq<Section>, limits: Limits)
    requires |run| > 0
    ensures run <= Runs(run, rest, limits)[0]
    decreases |rest|
  {
    if |rest| > 0 && Merges(Folded(run), rest[0], limits) {
      FirstRun(run + [rest[0]], rest[1..], limits);
    }
  }

  lemma {:induction false} RunsAreRight(run: seq<Section>, rest: seq<Section>, limits: Limits)
    requires |run| > 0 && Joined(run, limits.target, limits.minimum)
    ensures AllJoined(Runs(run, rest, limits), limits.target, limits.minimum)
    ensures Apart(Runs(run, rest, limits), limits.target, limits.minimum)
    decreases |rest|
  {
    if |rest| > 0 {
      if Merges(Folded(run), rest[0], limits) {
        JoinedGrows(run, rest[0], limits.target, limits.minimum);
        RunsAreRight(run + [rest[0]], rest[1..], limits);
      } else {
        var later := Runs([rest[0]], rest[1..], limits);
        RunsAreRight([rest[0]], rest[1..], limits);
        FirstRun([rest[0]], rest[1..], limits);
        assert later[0][0] == rest[0];
        ApartCons(run, later, limits.target, limits.minimum);
      }
    }
  }

  lemma NothingLeft(runs: seq<seq<Section>>)
    requires AllFull(runs)
    ensures Flatten(runs) == [] ==> runs == []
  {
    if |runs| > 0 {
      assert |Flatten(runs)| == |runs[0]| + |Flatten(runs[1..])|;
    }
  }

  lemma FlattenHead(runs: seq<seq<Section>>, all: seq<Section>)
    requires |runs| > 0 && Flatten(runs) == all
    ensures runs[0] <= all && Flatten(runs[1..]) == all[|runs[0]|..]
  {
  }

  lemma TailIsRight(runs: seq<seq<Section>>, target: int, minimum: int)
    requires |runs| > 0 && AllJoined(runs, target, minimum) && Apart(runs, target, minimum)
    ensures AllJoined(runs[1..], target, minimum) && Apart(runs[1..], target, minimum)
  {
    var rest := runs[1..];
    assert forall i :: 0 <= i < |rest| ==> rest[i] == runs[i + 1];
    forall i | 0 <= i < |rest| - 1 ensures ApartAt(rest[i], rest[i + 1], target, minimum) {
      assert ApartAt(runs[i + 1], runs[i + 2], target, minimum);
    }
  }

  // The two ways on from a run: the sections of it so far are all of it, or the next one is in it too.
  lemma RunEnds(run: seq<Section>, rest: seq<Section>, runs: seq<seq<Section>>, target: int, minimum: int)
    requires |run| > 0 && |runs| > 0 && Flatten(runs) == run + rest && runs[0] == run
    requires AllJoined(runs, target, minimum) && Apart(runs, target, minimum)
    ensures runs == [run] + runs[1..] && Flatten(runs[1..]) == rest
    ensures AllJoined(runs[1..], target, minimum) && Apart(runs[1..], target, minimum)
    ensures |rest| == 0 <==> |runs| == 1
    ensures |rest| > 0 ==> [rest[0]] <= runs[1] && !Small(Folded(run).content, rest[0].content, target, minimum)
  {
    FlattenHead(runs, run + rest);
    assert (run + rest)[|run|..] == rest;
    TailIsRight(runs, target, minimum);
    NothingLeft(runs[1..]);
    if |rest| > 0 {
      NextRunIs(rest, runs[1..]);
      assert runs[1] == runs[1..][0] && ApartAt(runs[0], runs[1], target, minimum);
    }
  }

  lemma NextIsIn<T>(front: seq<T>, rest: seq<T>, longer: seq<T>)
    requires front < longer <= front + rest
    ensures |rest| > 0 && longer[|front|] == rest[0] && front + [rest[0]] <= longer
    ensures front + [rest[0]] + rest[1..] == front + rest
  {
    assert longer[|front|] == (front + rest)[|front|];
    assert longer[..|front| + 1] == front + [rest[0]];
  }

  lemma RunGoesOn(run: seq<Section>, rest: seq<Section>, runs: seq<seq<Section>>, target: int, minimum: int)
    requires |run| > 0 && |runs| > 0 && Flatten(runs) == run + rest && run < runs[0]
    requires AllJoined(runs, target, minimum)
    ensures |rest| > 0 && run + [rest[0]] <= runs[0] && run + [rest[0]] + rest[1..] == run + rest
    ensures Small(Folded(run).content, rest[0].content, target, minimum)
  {
    FlattenHead(runs, run + rest);
    var first := runs[0];
    NextIsIn(run, rest, first);
    assert JoinedAt(first, |run|, target, minimum) && first[..|run|] == run;
  }

  // No other partition has all its joins small and all its breaks not.
  lemma {:induction false} NoOtherRuns(run: seq<Section>, rest: seq<Section>, runs: seq<seq<Section>>, limits: Limits)
    requires |run| > 0 && |runs| > 0 && Flatten(runs) == run + rest && run <= runs[0]
    requires AllJoined(runs, limits.target, limits.minimum) && Apart(runs, limits.target, limits.minimum)
    ensures runs == Runs(run, rest, limits)
    decreases |rest|
  {
    if runs[0] == run {
      RunEnds(run, rest, runs, limits.target, limits.minimum);
      if |rest| > 0 {
        NoOtherRuns([rest[0]], rest[1..], runs[1..], limits);
      }
    } else {
      RunGoesOn(run, rest, runs, limits.target, limits.minimum);
      NoOtherRuns(run + [rest[0]], rest[1..], runs, limits);
    }
  }

  lemma NextRunIs(rest: seq<Section>, runs: seq<seq<Section>>)
    requires |rest| > 0 && AllFull(runs) && Flatten(runs) == rest
    ensures |runs| > 0 && [rest[0]] <= runs[0] && [rest[0]] + rest[1..] == rest
  {
    FlattenHead(runs, rest);
  }

  // The runs cut the sections; every join is small, and no break is.
  ghost predicate RightRuns(sections: seq<Section>, runs: seq<seq<Section>>, target: int, minimum: int) {
    Flatten(runs) == sections && AllJoined(runs, target, minimum) && Apart(runs, target, minimum)
  }

  /** Merging cuts the sections in the one way in which every join was of a pair that together keeps to
      the target and of which one is below the minimum, and no break is between such a pair. */
  lemma MergesExactlyTheSmall(sections: seq<Section>, runs: seq<seq<Section>>, limits: Limits)
    ensures runs == AllRuns(sections, limits) <==> RightRuns(sections, runs, limits.target, limits.minimum)
  {
    MergedKeepsInk(sections, limits);
    if |sections| > 0 {
      RunsAreRight([sections[0]], sections[1..], limits);
      if RightRuns(sections, runs, limits.target, limits.minimum) {
        NextRunIs(sections, runs);
        NoOtherRuns([sections[0]], sections[1..], runs, limits);
      }
    } else if RightRuns(sections, runs, limits.target, limits.minimum) {
      NothingLeft(runs);
    }
  }

  function Singles(sections: seq<Section>): (runs: seq<seq<Section>>)
    ensures |runs| == |sections| && forall i :: 0 <= i < |runs| ==> |runs[i]| == 1
  {
    if |sections| == 0 then [] else [[sections[0]]] + Singles(sections[1..])
  }

  lemma {:induction false} SinglesAre(sections: seq<Section>)
    ensures Flatten(Singles(sections)) == sections && FoldAll(Singles(sections)) == sections
    ensures forall i :: 0 <= i < |sections| ==> Singles(sections)[i] == [sections[i]]
  {
    if |sections| > 0 {
      SinglesAre(sections[1..]);
      assert [sections[0]] + sections[1..] == sections;
    }
  }

  /** Sections that all reach the minimum are left as they are. */
  lemma BigSectionsStay(sections: seq<Section>, limits: Limits)
    requires forall i :: 0 <= i < |sections| ==> limits.minimum <= |sections[i].content|
    ensures Merged(sections, limits) == sections
  {
    var runs := Singles(sections);
    SinglesAre(sections);
    forall i | 0 <= i < |runs| - 1 ensures ApartAt(runs[i], runs[i + 1], limits.target, limits.minimum) {
      assert runs[i] == [sections[i]] && runs[i + 1] == [sections[i + 1]];
    }
    MergesExactlyTheSmall(sections, runs, limits);
  }

  // The newlines at the end of a text, and at its start, are those from and those before this place.
  ghost predicate EndNewlines(s: string, k: nat) {
    k <= |s| && (forall i :: k <= i < |s| ==> s[i] == '\n') && (k > 0 ==> s[k - 1] != '\n')
  }

  ghost predicate StartNewlines(s: string, k: nat) {
    k <= |s| && (forall i :: 0 <= i < k ==> s[i] == '\n') && (k < |s| ==> s[k] != '\n')
  }

  lemma {:induction false} RStripIs(s: string) returns (k: nat)
    ensures EndNewlines(s, k) && RStrip(s, Newline) == s[..k]
  {
    k := |s|;
    if |s| > 0 && s[|s| - 1] == '\n' {
      var t := s[..|s| - 1];
      k := RStripIs(t);
      assert t[..k] == s[..k] && forall i :: k <= i < |t| ==> s[i] == t[i];
    } else {
      assert s[..k] == s;
    }
  }

  lemma {:induction false} LStripIs(s: string) returns (k: nat)
    ensures StartNewlines(s, k) && LStrip(s, Newline) == s[k..]
  {
    k := 0;
    if |s| > 0 && s[0] == '\n' {
      var t := s[1..];
      var n := LStripIs(t);
      k := n + 1;
      assert t[n..] == s[k..] && forall i :: 1 <= i < k ==> s[i] == t[i - 1];
    }
  }

  /** Two merged sections read as the first, one blank line, and the second: the newlines at the seam
      become two, and nothing else changes. */
  lemma OneBlankLineBetween(a: Section, b: Section) returns (i: nat, k: nat)
    ensures EndNewlines(a.content, i) && StartNewlines(b.content, k)
    ensures Combined(a, b).content == a.content[..i] + "\n\n" + b.content[k..]
    ensures Combined(a, b).start == a.start && Combined(a, b).end == b.end
  {
    i := RStripIs(a.content);
    k := LStripIs(b.content);
  }
}
