/** What the queue guarantees in every run from the empty table, and how long a lease lasts. */
module JobTheorems {
  import opened Options
  import opened JobTable
  import opened JobRuns

  /** In every reachable table at most one running row has a given dedup key, whatever its kind,
      at most one pending row has a given kind and key, and a row that may still run has an
      attempt left. */
  lemma EveryReachableTable(steps: seq<Step>)
    requires LegalRun(Init(), steps)
    ensures var t := Exec(Init(), steps).table;
            && (forall a, b :: (&& a in t && b in t && t[a].status == Running && t[b].status == Running
                                && SameKey(t[a], t[b])) ==> a == b)
            && (forall a, b :: (&& a in t && b in t && t[a].status == Pending && t[b].status == Pending
                                && SameLane(t[a], t[b])) ==> a == b)
            && (forall id <- t :: t[id].status == Pending || t[id].status == Running ==>
                  t[id].attempts < t[id].maxAttempts)
  {
    RunKeeps(Init(), steps);
    var t := Exec(Init(), steps).table;
    forall id | id in t ensures t[id].status == Pending || t[id].status == Running
        ==> t[id].attempts < t[id].maxAttempts {
      assert RowOk(t[id]);
    }
  }

  // ---------- leases ----------

  ghost predicate Holds(s: State, id: string, worker: string, beat: real) {
    id in s.table && HeldBy(s.table[id], worker) && s.table[id].lockedAt == Some(beat)
  }

  /** A held row can be reclaimed exactly when a claim runs later than its last beat plus the
      staleness window. */
  lemma ReclaimedOnlyWhenStale(s: State, id: string, worker: string, beat: real, now: real, staleAfter: real)
    requires Inv(s) && Holds(s, id, worker, beat)
    ensures Eligible(s.table, id, now, now - staleAfter) <==> now > beat + staleAfter
  {
    assert !KeyBusy(s.table, id);
  }

  // The worker's own lifecycle writes for the row.
  predicate OwnWrite(step: Step, id: string, worker: string) {
    || (step.CompleteJob? && step.id == id && step.worker == worker)
    || (step.FailWrite? && step.read.id == id && step.worker == worker)
    || (step.FailForGood? && step.id == id && step.worker == worker)
    || (step.ResetRunning? && step.worker == worker)
  }

  predicate Undisturbed(steps: seq<Step>, row: Job, id: string, worker: string) {
    forall step <- steps ::
      && !OwnWrite(step, id, worker)
      && (step.DropWorkspace? ==> !InWorkspace(row, step.user, step.workspace))
  }

  function NextBeat(step: Step, worker: string, beat: real): real {
    if step.RenewClaim? && step.worker == worker then step.now else beat
  }

  function LastBeat(steps: seq<Step>, worker: string, beat: real): real {
    if |steps| == 0 then beat else LastBeat(steps[1..], worker, NextBeat(steps[0], worker, beat))
  }

  // No claim of the run, by any worker, comes later than the last beat plus its window.
  predicate Timely(steps: seq<Step>, worker: string, beat: real) {
    |steps| == 0 ||
    (&& (steps[0].ClaimNext? ==> steps[0].now <= beat + steps[0].staleAfter)
     && Timely(steps[1..], worker, NextBeat(steps[0], worker, beat)))
  }

  lemma LeaseStep(s: State, step: Step, id: string, worker: string, beat: real)
    requires Inv(s) && Legal(s, step) && Holds(s, id, worker, beat)
    requires !OwnWrite(step, id, worker)
      && (step.DropWorkspace? ==> !InWorkspace(s.table[id], step.user, step.workspace))
    requires step.ClaimNext? ==> step.now <= beat + step.staleAfter
    ensures Holds(Apply(s, step), id, worker, NextBeat(step, worker, beat))
    ensures Identity(Apply(s, step).table[id]) == Identity(s.table[id])
  {
    if step.ClaimNext? {
      ReclaimedOnlyWhenStale(s, id, worker, beat, step.now, step.staleAfter);
      assert step.picked != Some(id);
    }
    AbortsExactly(s, step);
  }

  /** From a worker's claim to its own lifecycle write, the row stays running, locked by that
      worker, with the time of its last heartbeat, through any interleaving of other claims,
      renewals, late writes and user actions, as long as the heartbeat is timely. */
  lemma {:induction false} LeaseIsSafe(s: State, steps: seq<Step>, id: string, worker: string, beat: real)
    requires Inv(s) && LegalRun(s, steps) && Holds(s, id, worker, beat)
    requires Undisturbed(steps, s.table[id], id, worker) && Timely(steps, worker, beat)
    ensures Holds(Exec(s, steps), id, worker, LastBeat(steps, worker, beat))
    decreases |steps|
  {
    if |steps| > 0 {
      var s' := Apply(s, steps[0]);
      LeaseStep(s, steps[0], id, worker, beat);
      StepKeeps(s, steps[0]);
      LeaseIsSafe(s', steps[1..], id, worker, NextBeat(steps[0], worker, beat));
    }
  }

  /** Once another worker has reclaimed the row, every late write of the first one is a no-op. */
  lemma LateWritesAreSuperseded(s: State, step: Step, id: string, worker: string, other: string, beat: real)
    requires Inv(s) && Legal(s, step) && Holds(s, id, other, beat) && worker != other
    requires OwnWrite(step, id, worker) && !step.ResetRunning?
    ensures Apply(s, step).table == s.table
  {
  }

  /** The fence is per worker, not per claim: after a worker reclaims its own stale row, the
      late completion of its first run does take effect on the second. */
  lemma FenceIsPerWorker(s: State, id: string, worker: string, beat: real, now: real, staleAfter: real, late: real)
    requires Inv(s) && Holds(s, id, worker, beat) && Legal(s, ClaimNext(worker, now, staleAfter, Some(id)))
    ensures var reclaimed := Apply(s, ClaimNext(worker, now, staleAfter, Some(id)));
            && Holds(reclaimed, id, worker, now)
            && Apply(reclaimed, CompleteJob(id, worker, late)).table[id].status == Done
  {
    var step := ClaimNext(worker, now, staleAfter, Some(id));
    var reclaimed := Apply(s, step);
    AbortsExactly(s, step);
    StepKeeps(s, step);
    AbortsExactly(reclaimed, CompleteJob(id, worker, late));
  }

  // ---------- a stale job reclaimed ----------

  lemma StepThen(s: State, step: Step, rest: seq<Step>)
    requires Legal(s, step) && LegalRun(Apply(s, step), rest)
    ensures LegalRun(s, [step] + rest) && Exec(s, [step] + rest) == Exec(Apply(s, step), rest)
  {
    assert ([step] + rest)[1..] == rest;
  }

  // The only row of the table is picked when it is due, and nothing clashes with it.
  lemma OnlyRow(id: string, row: Job, now: real, cutoff: real)
    ensures UniquePending(map[id := row])
    ensures JobTable.Due(row, now, cutoff) ==> Picks(map[id := row], now, cutoff, Some(id))
  {
    var t := map[id := row];
    if JobTable.Due(row, now, cutoff) {
      assert Eligible(t, id, now, cutoff);
    }
  }

  const STALE_AFTER := 300.0

  // Enqueued at 0, claimed at 0 by a worker that then falls silent, and claimed again by `second`.
  function Reclaimed(lane: Lane, entry: Entry, id: string, first: string, second: string): seq<Step> {
    [EnqueueOne(lane, entry, id)]
    + ([ClaimNext(first, 0.0, STALE_AFTER, Some(id))] + ([ClaimNext(second, 301.0, STALE_AFTER, Some(id))] + []))
  }

  function ReclaimedState(lane: Lane, entry: Entry, id: string, first: string, second: string): State {
    State(map[id := Lock(Lock(NewRow(lane, entry), first, 0.0), second, 301.0)], {id}, {})
  }

  lemma ReclaimedReached(lane: Lane, entry: Entry, id: string, first: string, second: string)
    requires lane.maxAttempts >= 1 && lane.runAt == 0.0
    ensures LegalRun(Init(), Reclaimed(lane, entry, id, first, second))
    ensures Exec(Init(), Reclaimed(lane, entry, id, first, second)) == ReclaimedState(lane, entry, id, first, second)
  {
    var row := NewRow(lane, entry);
    var s1, s2 := State(map[id := row], {id}, {}), State(map[id := Lock(row, first, 0.0)], {id}, {});
    var c1, c2 := ClaimNext(first, 0.0, STALE_AFTER, Some(id)), ClaimNext(second, 301.0, STALE_AFTER, Some(id));
    OnlyRow(id, row, 0.0, 0.0 - STALE_AFTER);
    OnlyRow(id, Lock(row, first, 0.0), 301.0, 301.0 - STALE_AFTER);
    OnlyRow(id, Lock(Lock(row, first, 0.0), second, 301.0), 301.0, 301.0);
    assert Apply(Init(), EnqueueOne(lane, entry, id)) == s1;
    assert Apply(s1, c1) == s2;
    assert Apply(s2, c2) == ReclaimedState(lane, entry, id, first, second);
    StepThen(s2, c2, []);
    StepThen(s1, c1, [c2] + []);
    StepThen(Init(), EnqueueOne(lane, entry, id), [c1] + ([c2] + []));
  }

  /** It does happen: in this run from the empty table the worker's second claim holds the row, and
      the first run's late completion marks the job done. */
  lemma FirstRunCompletesSecond(lane: Lane, entry: Entry, id: string, worker: string, late: real)
    requires lane.maxAttempts >= 1 && lane.runAt == 0.0
    ensures LegalRun(Init(), Reclaimed(lane, entry, id, worker, worker))
    ensures var s := Exec(Init(), Reclaimed(lane, entry, id, worker, worker));
            && Holds(s, id, worker, 301.0)
            && id in Apply(s, CompleteJob(id, worker, late)).table
            && Apply(s, CompleteJob(id, worker, late)).table[id].status == Done
  {
    ReclaimedReached(lane, entry, id, worker, worker);
    var s := ReclaimedState(lane, entry, id, worker, worker);
    OnlyRow(id, s.table[id].(status := Done, updatedAt := late), late, late);
    assert Complete(s.table, id, worker, late) == map[id := s.table[id].(status := Done, updatedAt := late)];
  }

  // ---------- follow-ups wait ----------

  /** While one row with a dedup key runs, a pending row with that key stays pending: no claim
      may take it, and it has no lock holder for a late write to match. */
  lemma FollowUpWaits(s: State, step: Step, running: string, waiting: string)
    requires Inv(s) && Legal(s, step)
    requires running in s.table && waiting in s.table && s.table[running].status == Running
    requires s.table[waiting].status == Pending && SameKey(s.table[running], s.table[waiting])
    requires step.DropWorkspace? ==> !InWorkspace(s.table[waiting], step.user, step.workspace)
    ensures var t' := Apply(s, step).table;
            waiting in t' && t'[waiting].status == Pending && Identity(t'[waiting]) == Identity(s.table[waiting])
  {
    assert RowOk(s.table[waiting]);
    assert KeyBusy(s.table, waiting);
    AbortsExactly(s, step);
  }
}
