/** The queue over whole runs: what every reachable table satisfies, and when a step aborts. */
module JobRuns {
  import opened Options
  import opened JobTable

  /** A row as the read at the start of `fail` saw it. */
  datatype Seen = Seen(id: string, row: Job)

  datatype State = State(table: Table, used: set<string>, seen: set<Seen>)

  datatype Step =
    | EnqueueOne(lane: Lane, entry: Entry, id: string)
    | ClaimNext(worker: string, now: real, staleAfter: real, picked: Option<string>)
    | RenewClaim(worker: string, now: real)
    | CompleteJob(id: string, worker: string, now: real)
    | FailRead(id: string)
    | FailWrite(read: Seen, worker: string, error: string, now: real)
    | FailForGood(id: string, worker: string, error: string, now: real)
    | ResetRunning(worker: string, now: real)
    | RetryJob(id: string, user: string, now: real)
    | DismissJob(id: string, user: string)
    | Sweep(cutoff: real)
    | DropWorkspace(user: string, workspace: string)

  function Init(): State {
    State(map[], {}, {})
  }

  // New ids are unused, every job may run at least once, and a claim takes the row its
  // statement selects.
  ghost predicate Legal(s: State, step: Step) {
    match step
    case EnqueueOne(lane, _, id) => id !in s.used && lane.maxAttempts >= 1
    case ClaimNext(_, now, staleAfter, picked) => Picks(s.table, now, now - staleAfter, picked)
    case FailWrite(read, _, _, _) => read in s.seen
    case _ => true
  }

  // What the step's statements write, before the unique index has its say.
  ghost function Written(s: State, step: Step): Table
    requires Legal(s, step)
  {
    match step
    case EnqueueOne(lane, e, id) => Enqueue(s.table, lane, e, id)
    case ClaimNext(worker, now, _, picked) => Claim(s.table, worker, now, picked)
    case RenewClaim(worker, now) => Renew(s.table, worker, now)
    case CompleteJob(id, worker, now) => Complete(s.table, id, worker, now)
    case FailRead(id) => s.table
    case FailWrite(read, worker, error, now) => Fail(s.table, read.id, worker, read.row, error, now)
    case FailForGood(id, worker, error, now) => FailTerminal(s.table, id, worker, error, now)
    case ResetRunning(worker, now) => Reset(s.table, worker, now)
    case RetryJob(id, user, now) => Retry(s.table, id, user, now)
    case DismissJob(id, user) => Dismiss(s.table, id, user)
    case Sweep(cutoff) => SweepDone(s.table, cutoff)
    case DropWorkspace(user, workspace) => DeleteWorkspace(s.table, user, workspace)
  }

  ghost predicate Aborts(s: State, step: Step)
    requires Legal(s, step)
  {
    !UniquePending(Written(s, step))
  }

  ghost function Apply(s: State, step: Step): State
    requires Legal(s, step)
  {
    s.(table := if Aborts(s, step) then s.table else Written(s, step),
       used := if step.EnqueueOne? then s.used + {step.id} else s.used,
       seen := if step.FailRead? && step.id in s.table then s.seen + {Seen(step.id, s.table[step.id])} else s.seen)
  }

  ghost predicate LegalRun(s: State, steps: seq<Step>)
    decreases |steps|
  {
    |steps| == 0 || (Legal(s, steps[0]) && LegalRun(Apply(s, steps[0]), steps[1..]))
  }

  ghost function Exec(s: State, steps: seq<Step>): State
    requires LegalRun(s, steps)
    decreases |steps|
  {
    if |steps| == 0 then s else Exec(Apply(s, steps[0]), steps[1..])
  }

  // ---------- what every run keeps ----------

  // Single flight: across kinds, no two running rows share a dedup key.
  ghost predicate OneRunning(t: Table) {
    forall a, b :: (&& a in t && b in t && a != b && t[a].status == Running && t[b].status == Running)
                   ==> !SameKey(t[a], t[b])
  }

  ghost predicate RowOk(row: Job) {
    && row.maxAttempts >= 1
    && (row.status == Pending || row.status == Running ==> row.attempts < row.maxAttempts)
    && (row.status == Pending ==> row.lockedBy.None?)
    && (row.status == Running ==> row.lockedBy.Some? && row.lockedAt.Some?)
  }

  ghost predicate RowsOk(t: Table) {
    forall id <- t :: RowOk(t[id])
  }

  // What no statement ever changes in a row.
  function Identity(row: Job): (string, Option<string>, Option<string>, Payload, int) {
    (row.kind, row.userId, row.dedupKey, row.payload, row.maxAttempts)
  }

  ghost predicate SeenOk(s: State) {
    && (forall id <- s.table :: id in s.used)
    && (forall r <- s.seen :: r.id in s.used && (r.id in s.table ==> Identity(r.row) == Identity(s.table[r.id])))
  }

  ghost predicate Inv(s: State) {
    UniquePending(s.table) && OneRunning(s.table) && RowsOk(s.table) && SeenOk(s)
  }

  lemma EnqueueKeeps(t: Table, lane: Lane, e: Entry, id: string)
    requires UniquePending(t) && OneRunning(t) && RowsOk(t) && id !in t && lane.maxAttempts >= 1
    ensures var t' := Enqueue(t, lane, e, id); UniquePending(t') && OneRunning(t') && RowsOk(t')
  {
  }

  lemma ClaimKeeps(t: Table, worker: string, now: real, cutoff: real, picked: Option<string>)
    requires UniquePending(t) && OneRunning(t) && RowsOk(t) && Picks(t, now, cutoff, picked)
    ensures var t' := Claim(t, worker, now, picked); UniquePending(t') && OneRunning(t') && RowsOk(t')
  {
    if picked.Some? {
      var p := picked.value;
      assert forall r <- t :: r != p && t[r].status == Running ==> !SameKey(t[r], t[p]);
    }
  }

  lemma RenewKeeps(t: Table, worker: string, now: real)
    requires UniquePending(t) && OneRunning(t) && RowsOk(t)
    ensures var t' := Renew(t, worker, now); UniquePending(t') && OneRunning(t') && RowsOk(t')
  {
  }

  // Taking a row out of the pending and running states cannot break anything.
  lemma RetireKeeps(t: Table, id: string, row: Job)
    requires UniquePending(t) && OneRunning(t) && RowsOk(t)
    requires id in t && RowOk(row) && row.status != Pending && row.status != Running
    ensures UniquePending(t[id := row]) && OneRunning(t[id := row]) && RowsOk(t[id := row])
  {
  }

  // Putting a row back to pending clashes exactly with a follow-up already pending.
  lemma RequeueOne(t: Table, id: string, row: Job)
    requires UniquePending(t) && OneRunning(t) && RowsOk(t)
    requires id in t && RowOk(row) && row.status == Pending && Identity(row) == Identity(t[id])
    ensures UniquePending(t[id := row]) <==> !FollowUp(t, id)
    ensures OneRunning(t[id := row]) && RowsOk(t[id := row])
  {
    var t' := t[id := row];
    if k :| k in t && k != id && t[k].status == Pending && SameLane(t[id], t[k]) {
      assert t'[k] == t[k] && t'[id] == row && SameLane(row, t[k]);
    }
  }

  ghost predicate SomeFollowUp(t: Table, worker: string) {
    exists id :: id in t && HeldBy(t[id], worker) && FollowUp(t, id)
  }

  // Two rows reset together never clash with each other: they were both running.
  lemma ResetClash(t: Table, worker: string, now: real)
    requires UniquePending(t) && OneRunning(t) && RowsOk(t)
    ensures UniquePending(Reset(t, worker, now)) <==> !SomeFollowUp(t, worker)
    ensures OneRunning(Reset(t, worker, now)) && RowsOk(Reset(t, worker, now))
  {
    var t' := Reset(t, worker, now);
    if SomeFollowUp(t, worker) {
      var id :| id in t && HeldBy(t[id], worker) && FollowUp(t, id);
      var k :| k in t && k != id && t[k].status == Pending && SameLane(t[id], t[k]);
      assert t'[k] == t[k] && t'[id] == Requeue(t[id], now) && SameLane(t'[id], t'[k]);
    } else {
      forall a, b | a in t' && b in t' && a != b && t'[a].status == Pending && t'[b].status == Pending
        ensures !SameLane(t'[a], t'[b])
      {
        ResetPair(t, worker, a, b);
      }
    }
  }

  lemma ResetPair(t: Table, worker: string, a: string, b: string)
    requires UniquePending(t) && OneRunning(t) && a in t && b in t && a != b && !SomeFollowUp(t, worker)
    requires t[a].status == Pending || HeldBy(t[a], worker)
    requires t[b].status == Pending || HeldBy(t[b], worker)
    ensures !SameLane(t[a], t[b])
  {
    if t[a].status == Pending && HeldBy(t[b], worker) {
      assert !FollowUp(t, b);
    } else if t[b].status == Pending && HeldBy(t[a], worker) {
      assert !FollowUp(t, a);
    } else if HeldBy(t[a], worker) {
      assert !SameKey(t[a], t[b]);
    }
  }

  lemma DeleteKeeps(t: Table, t': Table)
    requires UniquePending(t) && OneRunning(t) && RowsOk(t)
    requires forall id <- t' :: id in t && t'[id] == t[id]
    ensures UniquePending(t') && OneRunning(t') && RowsOk(t')
  {
  }

  // ---------- when a step aborts ----------

  // The follow-up that makes a step's requeue clash with the index.
  ghost predicate Clashes(t: Table, step: Step) {
    match step
    case FailWrite(read, worker, _, _) =>
      Fenced(t, read.id, worker) && read.row.attempts + 1 < read.row.maxAttempts && FollowUp(t, read.id)
    case ResetRunning(worker, _) => SomeFollowUp(t, worker)
    case RetryJob(id, user, _) => Retryable(t, id, user) && FollowUp(t, id)
    case _ => false
  }

  lemma FailClash(t: Table, read: Seen, worker: string, error: string, now: real)
    requires UniquePending(t) && OneRunning(t) && RowsOk(t)
    requires read.id in t ==> Identity(read.row) == Identity(t[read.id])
    ensures var t' := Fail(t, read.id, worker, read.row, error, now);
            && (UniquePending(t') <==> !Clashes(t, FailWrite(read, worker, error, now)))
            && OneRunning(t') && RowsOk(t')
  {
    if Fenced(t, read.id, worker) {
      var row := Failure(t[read.id], read.row, worker, error, now);
      if row.status == Pending {
        RequeueOne(t, read.id, row);
      } else {
        RetireKeeps(t, read.id, row);
      }
    }
  }

  lemma RetryClash(t: Table, id: string, user: string, now: real)
    requires UniquePending(t) && OneRunning(t) && RowsOk(t)
    ensures var t' := Retry(t, id, user, now);
            && (UniquePending(t') <==> !Clashes(t, RetryJob(id, user, now)))
            && OneRunning(t') && RowsOk(t')
  {
    if Retryable(t, id, user) {
      RequeueOne(t, id, Requeue(t[id], now).(attempts := 0, lastError := None));
    }
  }

  /** Only a failure's requeue, a worker's reset and a user's retry can abort, and they do so
      exactly when a follow-up with that kind and key is already pending; the table is then
      unchanged. In particular an enqueue never aborts. */
  lemma AbortsExactly(s: State, step: Step)
    requires Inv(s) && Legal(s, step)
    ensures Aborts(s, step) <==> Clashes(s.table, step)
    ensures Aborts(s, step) ==> Apply(s, step).table == s.table
    ensures OneRunning(Written(s, step)) && RowsOk(Written(s, step))
  {
    var t := s.table;
    match step
    case EnqueueOne(lane, e, id) => EnqueueKeeps(t, lane, e, id);
    case ClaimNext(worker, now, staleAfter, picked) => ClaimKeeps(t, worker, now, now - staleAfter, picked);
    case RenewClaim(worker, now) => RenewKeeps(t, worker, now);
    case CompleteJob(id, worker, now) =>
      if Fenced(t, id, worker) { RetireKeeps(t, id, t[id].(status := Done, updatedAt := now)); }
    case FailRead(id) =>
    case FailWrite(read, worker, error, now) => FailClash(t, read, worker, error, now);
    case FailForGood(id, worker, error, now) =>
      if Fenced(t, id, worker) {
        RetireKeeps(t, id, t[id].(status := Failed, lastError := Some(error), updatedAt := now));
      }
    case ResetRunning(worker, now) => ResetClash(t, worker, now);
    case RetryJob(id, user, now) => RetryClash(t, id, user, now);
    case DismissJob(id, user) => DeleteKeeps(t, Dismiss(t, id, user));
    case Sweep(cutoff) => DeleteKeeps(t, SweepDone(t, cutoff));
    case DropWorkspace(user, workspace) => DeleteKeeps(t, DeleteWorkspace(t, user, workspace));
  }

  // Rows keep their identity, and only an enqueue adds one.
  lemma IdentityKept(s: State, step: Step)
    requires SeenOk(s) && Legal(s, step)
    ensures forall id <- Written(s, step) ::
              if id in s.table then Identity(Written(s, step)[id]) == Identity(s.table[id])
              else step.EnqueueOne? && id == step.id
  {
  }

  lemma StepKeeps(s: State, step: Step)
    requires Inv(s) && Legal(s, step)
    ensures Inv(Apply(s, step))
  {
    AbortsExactly(s, step);
    SeenKept(s, step);
  }

  lemma SeenKept(s: State, step: Step)
    requires SeenOk(s) && Legal(s, step)
    ensures SeenOk(Apply(s, step))
  {
    IdentityKept(s, step);
  }

  lemma {:induction false} RunKeeps(s: State, steps: seq<Step>)
    requires Inv(s) && LegalRun(s, steps)
    ensures Inv(Exec(s, steps))
    decreases |steps|
  {
    if |steps| > 0 {
      StepKeeps(s, steps[0]);
      RunKeeps(Apply(s, steps[0]), steps[1..]);
    }
  }
}
