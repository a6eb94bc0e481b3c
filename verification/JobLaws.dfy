/** What the queue's transactions do to a row, in the row's own columns, and in which order jobs run. */
module JobLaws {
  import opened Options
  import opened JobTable
  import opened JobRuns
  import opened JobTheorems

  // ---------- which job a claim takes ----------

  // Waiting and due, or run by a worker silent for longer than staleAfter, while no other running
  // row has the row's key.
  ghost predicate Ready(t: Table, id: string, now: real, staleAfter: real) {
    && id in t
    && ((t[id].status == Pending && t[id].nextRunAt <= now)
        || (t[id].status == Running && t[id].lockedAt.Some? && t[id].lockedAt.value + staleAfter < now))
    && (forall r :: r in t && r != id && t[r].status == Running && t[r].dedupKey.Some?
                    ==> t[r].dedupKey != t[id].dedupKey)
  }

  // Lower numbers are more urgent; within a number the earlier one goes first.
  predicate InOrder(priority: int, nextRunAt: real, priority': int, nextRunAt': real) {
    priority < priority' || (priority == priority' && nextRunAt <= nextRunAt')
  }

  /** A claim takes a ready job of the least priority number, and of those the one due earliest; it
      takes none exactly when none is ready. */
  lemma ClaimTakesMostUrgent(s: State, worker: string, now: real, staleAfter: real, picked: Option<string>)
    requires Legal(s, ClaimNext(worker, now, staleAfter, picked))
    ensures var t := s.table;
            && (picked == None <==> forall id :: !Ready(t, id, now, staleAfter))
            && (picked.Some? ==>
                  && Ready(t, picked.value, now, staleAfter)
                  && (forall id :: Ready(t, id, now, staleAfter) ==> t[picked.value].priority <= t[id].priority)
                  && (forall id :: Ready(t, id, now, staleAfter) && t[id].priority == t[picked.value].priority
                                   ==> t[picked.value].nextRunAt <= t[id].nextRunAt))
  {
    ReadyIsEligible(s.table, now, staleAfter);
    if picked.Some? {
      assert Ready(s.table, picked.value, now, staleAfter);
    } else {
      forall id ensures !Ready(s.table, id, now, staleAfter) {
        assert !Eligible(s.table, id, now, now - staleAfter);
      }
    }
  }

  lemma ReadyIsEligible(t: Table, now: real, staleAfter: real)
    ensures forall id :: Ready(t, id, now, staleAfter) <==> Eligible(t, id, now, now - staleAfter)
  {
    forall id ensures Ready(t, id, now, staleAfter) <==> Eligible(t, id, now, now - staleAfter) {
    }
  }

  /** The claimed row is running for the worker from now on, and nothing else changes. */
  lemma ClaimIsExact(s: State, worker: string, now: real, staleAfter: real, id: string)
    requires Inv(s) && Legal(s, ClaimNext(worker, now, staleAfter, Some(id)))
    ensures id in s.table
    ensures Apply(s, ClaimNext(worker, now, staleAfter, Some(id))).table
            == s.table[id := s.table[id]
                .(status := Running, lockedBy := Some(worker), lockedAt := Some(now), updatedAt := now)]
  {
    AbortsExactly(s, ClaimNext(worker, now, staleAfter, Some(id)));
  }

  // A run of claims at one moment, by any workers, each of which takes a job.
  ghost predicate ClaimsAt(steps: seq<Step>, now: real, staleAfter: real) {
    forall i :: 0 <= i < |steps| ==>
      steps[i].ClaimNext? && steps[i].now == now && steps[i].staleAfter == staleAfter && steps[i].picked.Some?
  }

  // A later claim finds no job that was not ready before.
  lemma ClaimOnlyTakes(s: State, worker: string, now: real, staleAfter: real, p: string, q: string)
    requires Inv(s) && Legal(s, ClaimNext(worker, now, staleAfter, Some(p))) && staleAfter >= 0.0
    ensures var t' := Apply(s, ClaimNext(worker, now, staleAfter, Some(p))).table;
            && t'.Keys == s.table.Keys
            && (Ready(t', q, now, staleAfter) ==> q != p && Ready(s.table, q, now, staleAfter))
            && (forall id <- t' :: t'[id].priority == s.table[id].priority && t'[id].nextRunAt == s.table[id].nextRunAt)
  {
    ClaimIsExact(s, worker, now, staleAfter, p);
  }

  lemma {:induction false} LaterClaimsWereReady(s: State, steps: seq<Step>, now: real, staleAfter: real, j: nat)
    requires Inv(s) && LegalRun(s, steps) && ClaimsAt(steps, now, staleAfter) && staleAfter >= 0.0 && j < |steps|
    ensures Ready(s.table, steps[j].picked.value, now, staleAfter)
    ensures j > 0 ==> steps[j].picked != steps[0].picked
    decreases |steps|
  {
    ClaimTakesMostUrgent(s, steps[0].worker, now, staleAfter, steps[0].picked);
    if j > 0 {
      var s' := Apply(s, steps[0]);
      StepKeeps(s, steps[0]);
      LaterClaimsWereReady(s', steps[1..], now, staleAfter, j - 1);
      ClaimOnlyTakes(s, steps[0].worker, now, staleAfter, steps[0].picked.value, steps[j].picked.value);
    }
  }

  // The first row is another one, and no less urgent.
  ghost predicate Precedes(t: Table, a: string, b: string) {
    a != b && a in t && b in t && InOrder(t[a].priority, t[a].nextRunAt, t[b].priority, t[b].nextRunAt)
  }

  lemma FirstClaimPrecedes(s: State, steps: seq<Step>, now: real, staleAfter: real, j: nat)
    requires Inv(s) && LegalRun(s, steps) && ClaimsAt(steps, now, staleAfter) && staleAfter >= 0.0 && 0 < j < |steps|
    ensures Precedes(s.table, steps[0].picked.value, steps[j].picked.value)
  {
    LaterClaimsWereReady(s, steps, now, staleAfter, j);
    ClaimTakesMostUrgent(s, steps[0].worker, now, staleAfter, steps[0].picked);
  }

  /** Jobs claimed one after the other are different ones, and go in order of urgency. */
  lemma {:induction false} ClaimsGoInOrder(s: State, steps: seq<Step>, now: real, staleAfter: real, i: nat, j: nat)
    requires Inv(s) && LegalRun(s, steps) && ClaimsAt(steps, now, staleAfter) && staleAfter >= 0.0 && i < j < |steps|
    ensures Precedes(s.table, steps[i].picked.value, steps[j].picked.value)
    decreases |steps|
  {
    if i == 0 {
      FirstClaimPrecedes(s, steps, now, staleAfter, j);
    } else {
      StepKeeps(s, steps[0]);
      ClaimsGoInOrder(Apply(s, steps[0]), steps[1..], now, staleAfter, i - 1, j - 1);
      ClaimOnlyTakes(s, steps[0].worker, now, staleAfter, steps[0].picked.value, steps[i].picked.value);
    }
  }

  // ---------- failing ----------

  // The seconds before the n-th retry.
  function Delay(n: nat): real
    requires n >= 1
  {
    if n == 1 then 2.0 else if 2.0 * Delay(n - 1) <= 300.0 then 2.0 * Delay(n - 1) else 300.0
  }

  lemma {:induction false} BackoffIsDelay(n: nat)
    requires n >= 1
    ensures Backoff(n, 2.0, 300.0) == Delay(n)
  {
    if n > 1 {
      BackoffIsDelay(n - 1);
      assert Pow2(n - 1) == 2.0 * Pow2(n - 2);
      PowPositive(n - 2);
    }
  }

  /** Delays double from two seconds up to five minutes. */
  lemma RetryDelays()
    ensures Backoff(1, 2.0, 300.0) == 2.0 && Backoff(2, 2.0, 300.0) == 4.0 && Backoff(3, 2.0, 300.0) == 8.0
    ensures Backoff(8, 2.0, 300.0) == 256.0
    ensures forall n: nat :: n >= 9 ==> Backoff(n, 2.0, 300.0) == 300.0
  {
    forall n: nat | n >= 1 ensures Backoff(n, 2.0, 300.0) == Delay(n) {
      BackoffIsDelay(n);
    }
    assert Delay(2) == 4.0 && Delay(3) == 8.0 && Delay(4) == 16.0 && Delay(5) == 32.0;
    assert Delay(6) == 64.0 && Delay(7) == 128.0 && Delay(8) == 256.0;
    forall n: nat | n >= 9 ensures Delay(n) == 300.0 {
      LongDelays(n);
    }
  }

  lemma {:induction false} LongDelays(n: nat)
    requires n >= 9
    ensures Delay(n) == 300.0
  {
    if n > 9 {
      LongDelays(n - 1);
    } else {
      assert Delay(2) == 4.0 && Delay(3) == 8.0 && Delay(4) == 16.0 && Delay(5) == 32.0;
      assert Delay(6) == 64.0 && Delay(7) == 128.0 && Delay(8) == 256.0;
    }
  }

  /** A failure that is written counts the attempt: the job waits for the retry's delay, unlocked, if
      one is left, and has failed for good if not. A worker that lost the job changes nothing. */
  lemma FailureIsExact(s: State, read: Seen, worker: string, error: string, now: real)
    requires Inv(s) && Legal(s, FailWrite(read, worker, error, now)) && read.id in s.table
    requires !FollowUp(s.table, read.id)
    ensures var id, t' := read.id, Apply(s, FailWrite(read, worker, error, now)).table;
            var row, tried := s.table[id], read.row.attempts + 1;
            && (row.lockedBy != Some(worker) ==> t' == s.table)
            && (row.lockedBy == Some(worker) && tried < row.maxAttempts ==>
                  t' == s.table[id := row.(status := Pending, attempts := tried, nextRunAt := now + Delay(tried),
                                           lockedBy := None, lockedAt := None, lastError := Some(error),
                                           updatedAt := now)])
            && (row.lockedBy == Some(worker) && tried >= row.maxAttempts ==>
                  t' == s.table[id := row.(status := Failed, attempts := tried, lastError := Some(error),
                                           updatedAt := now,
                                           nextRunAt := read.row.nextRunAt, lockedAt := read.row.lockedAt)])
  {
    BackoffIsDelay(read.row.attempts + 1);
    AbortsExactly(s, FailWrite(read, worker, error, now));
    assert Identity(read.row) == Identity(s.table[read.id]);
  }

  // One attempt of a job on its own: claimed, and failed by its worker.
  function Attempt(id: string, row: Job, worker: string, error: string, now: real): seq<Step> {
    var claimed := Lock(row, worker, now);
    [ClaimNext(worker, now, STALE_AFTER, Some(id))]
    + ([FailRead(id)] + ([FailWrite(Seen(id, claimed), worker, error, now)] + []))
  }

  // A claimed row after its failure.
  function AfterFailure(claimed: Job, error: string, now: real): Job {
    var tried := claimed.attempts + 1;
    var counted := claimed.(attempts := tried, lastError := Some(error), updatedAt := now);
    if tried < claimed.maxAttempts
    then counted.(status := Pending, nextRunAt := now + Delay(tried), lockedBy := None, lockedAt := None)
    else counted.(status := Failed)
  }

  // The row after the attempt.
  function Attempted(row: Job, worker: string, error: string, now: real): Job {
    AfterFailure(Lock(row, worker, now), error, now)
  }

  // A job that is alone, claimed.
  lemma ClaimedAlone(s: State, id: string, row: Job, worker: string, now: real)
    requires Inv(s) && s.table == map[id := row] && row.status == Pending && row.nextRunAt <= now
    ensures var claim := ClaimNext(worker, now, STALE_AFTER, Some(id));
            Legal(s, claim) && Inv(Apply(s, claim)) && Apply(s, claim).table == map[id := Lock(row, worker, now)]
  {
    OnlyRow(id, row, now, now - STALE_AFTER);
    ClaimIsExact(s, worker, now, STALE_AFTER, id);
    StepKeeps(s, ClaimNext(worker, now, STALE_AFTER, Some(id)));
  }

  // And failed by its worker.
  lemma FailedAlone(s: State, id: string, claimed: Job, worker: string, error: string, now: real)
    requires Inv(s) && s.table == map[id := claimed] && claimed.lockedBy == Some(worker)
    requires Legal(s, FailWrite(Seen(id, claimed), worker, error, now)) && claimed.status == Running
    ensures var s' := Apply(s, FailWrite(Seen(id, claimed), worker, error, now));
            Inv(s') && s'.table == map[id := AfterFailure(claimed, error, now)]
  {
    OnlyRow(id, claimed, now, now);
    FailureIsExact(s, Seen(id, claimed), worker, error, now);
    StepKeeps(s, FailWrite(Seen(id, claimed), worker, error, now));
  }

  lemma AttemptFails(s: State, id: string, worker: string, error: string, now: real)
    requires Inv(s) && id in s.table && s.table == map[id := s.table[id]]
    requires s.table[id].status == Pending && s.table[id].nextRunAt <= now
    ensures LegalRun(s, Attempt(id, s.table[id], worker, error, now))
    ensures Inv(Exec(s, Attempt(id, s.table[id], worker, error, now)))
    ensures Exec(s, Attempt(id, s.table[id], worker, error, now)).table
      == map[id := Attempted(s.table[id], worker, error, now)]
  {
    var row := s.table[id];
    var claim, claimed := ClaimNext(worker, now, STALE_AFTER, Some(id)), Lock(row, worker, now);
    var write := FailWrite(Seen(id, claimed), worker, error, now);
    ClaimedAlone(s, id, row, worker, now);
    var s1 := Apply(s, claim);
    StepKeeps(s1, FailRead(id));
    var s2 := Apply(s1, FailRead(id));
    FailedAlone(s2, id, claimed, worker, error, now);
    StepThen(s2, write, []);
    StepThen(s1, FailRead(id), [write] + []);
    StepThen(s, claim, [FailRead(id)] + ([write] + []));
  }

  // Attempts at the given moments, each by some worker.
  function Attempts(id: string, row: Job, worker: string, error: string, times: seq<real>): seq<Step>
    decreases |times|
  {
    if |times| == 0 then []
    else
      Attempt(id, row, worker, error, times[0])
      + Attempts(id, Attempted(row, worker, error, times[0]), worker, error, times[1..])
  }

  // Every attempt comes when the job is due again.
  ghost predicate InTime(row: Job, worker: string, error: string, times: seq<real>)
    decreases |times|
  {
    |times| == 0 ||
    (row.nextRunAt <= times[0] && InTime(Attempted(row, worker, error, times[0]), worker, error, times[1..]))
  }

  lemma {:induction false} RunThen(s: State, a: seq<Step>, b: seq<Step>)
    requires LegalRun(s, a) && LegalRun(Exec(s, a), b)
    ensures LegalRun(s, a + b) && Exec(s, a + b) == Exec(Exec(s, a), b)
    decreases |a|
  {
    if |a| == 0 {
      assert a + b == b;
    } else {
      assert (a + b)[1..] == a[1..] + b;
      RunThen(Apply(s, a[0]), a[1..], b);
    }
  }

  /** A job that fails whenever it runs is tried exactly maxAttempts times: it waits after every
      earlier failure and has failed for good after the last. */
  lemma {:induction false} TriedMaxAttemptsTimes(s: State, id: string, worker: string, error: string, times: seq<real>)
    requires Inv(s) && id in s.table && s.table == map[id := s.table[id]] && s.table[id].status == Pending
    requires |times| <= s.table[id].maxAttempts - s.table[id].attempts && InTime(s.table[id], worker, error, times)
    ensures LegalRun(s, Attempts(id, s.table[id], worker, error, times))
    ensures var t := Exec(s, Attempts(id, s.table[id], worker, error, times)).table;
            && id in t && t[id].attempts == s.table[id].attempts + |times|
            && (t[id].status == Failed <==> t[id].attempts == t[id].maxAttempts)
            && (t[id].status == Pending <==> t[id].attempts < t[id].maxAttempts)
    decreases |times|
  {
    if |times| > 0 {
      var row := s.table[id];
      var first, next := Attempt(id, row, worker, error, times[0]), Attempted(row, worker, error, times[0]);
      AttemptFails(s, id, worker, error, times[0]);
      var s' := Exec(s, first);
      if |times| > 1 {
        TriedMaxAttemptsTimes(s', id, worker, error, times[1..]);
      } else {
        assert times[1..] == [];
      }
      RunThen(s, first, Attempts(id, next, worker, error, times[1..]));
    } else {
      assert RowOk(s.table[id]);
    }
  }

  // ---------- debouncing ----------

  // The same job enqueued again and again.
  ghost function EnqueuedAgain(t: Table, lanes: seq<Lane>, e: Entry, ids: seq<string>): Table
    requires |lanes| == |ids|
  {
    if |lanes| == 0 then t
    else
      var n := |lanes| - 1;
      Enqueue(EnqueuedAgain(t, lanes[..n], e, ids[..n]), lanes[n], e, ids[n])
  }

  function LeastPriority(lanes: seq<Lane>): int
    requires |lanes| > 0
  {
    var last := lanes[|lanes| - 1].priority;
    if |lanes| == 1 then last
    else
      var before := LeastPriority(lanes[..|lanes| - 1]);
      if before <= last then before else last
  }

  lemma OnlyWaiting(t: Table, kind: string, key: string, id: string, row: Job)
    requires !SomeWaits(t, kind, key) && Waits(row, kind, key)
    ensures SomeWaits(t[id := row], kind, key) && Waiting(t[id := row], kind, key) == id
  {
    assert Waits(t[id := row][id], kind, key);
  }

  /** However often a keyed job is enqueued before it runs, it is one row: the first one's id, due when
      the last call said, and as urgent as the most urgent call. */
  lemma {:induction false} DebouncedToOne(t: Table, lanes: seq<Lane>, e: Entry, ids: seq<string>, kind: string)
    requires |lanes| == |ids| > 0 && e.dedupKey.Some? && !SomeWaits(t, kind, e.dedupKey.value)
    requires forall i :: 0 <= i < |lanes| ==> lanes[i].kind == kind
    ensures var last := lanes[|lanes| - 1];
            EnqueuedAgain(t, lanes, e, ids)
            == t[ids[0] := NewRow(lanes[0], e).(nextRunAt := last.runAt, priority := LeastPriority(lanes),
                                              updatedAt := last.now)]
  {
    var n := |lanes| - 1;
    if n == 0 {
      assert lanes[..0] == [] && ids[..0] == [];
    } else {
      DebouncedToOne(t, lanes[..n], e, ids[..n], kind);
      var before := lanes[n - 1];
      var row := NewRow(lanes[0], e)
        .(nextRunAt := before.runAt, priority := LeastPriority(lanes[..n]), updatedAt := before.now);
      OnlyWaiting(t, kind, e.dedupKey.value, ids[0], row);
    }
  }

  /** Enqueuing re-arms the one pending row of that kind and key, if there is one: a later call moves its
      time and can make it more urgent, and changes nothing else. Without such a row, or without a key, a
      new row is added. */
  lemma EnqueueIsExact(s: State, lane: Lane, e: Entry, id: string) returns (at: string)
    requires Inv(s) && id !in s.table
    ensures var t, t' := s.table, Enqueue(s.table, lane, e, id);
            && EnqueuedId(t, lane, e, id) == at && t'.Keys == t.Keys + {at} && at in t'
            && (forall k <- t :: k != at ==> t'[k] == t[k])
            && (at in t <==> e.dedupKey.Some? && exists k :: k in t && t[k].status == Pending && t[k].kind == lane.kind
                                                      && t[k].dedupKey == e.dedupKey)
            && (at in t ==> t[at].status == Pending && t[at].kind == lane.kind && t[at].dedupKey == e.dedupKey
                            && t'[at] == t[at].(nextRunAt := lane.runAt, updatedAt := lane.now,
                                                priority := t'[at].priority)
                            && t'[at].priority <= t[at].priority && t'[at].priority <= lane.priority
                            && t'[at].priority in {t[at].priority, lane.priority})
            && (at !in t ==> at == id && t'[at].dedupKey == e.dedupKey && t'[at].kind == lane.kind)
  {
    at := EnqueuedId(s.table, lane, e, id);
    if k :| e.dedupKey.Some? && k in s.table && s.table[k].status == Pending && s.table[k].kind == lane.kind
            && s.table[k].dedupKey == e.dedupKey {
      assert Waits(s.table[k], lane.kind, e.dedupKey.value);
    }
  }

  /** A new row carries what the caller gave, has not been tried, and is nobody's. */
  lemma NewRowIsExact(t: Table, lane: Lane, e: Entry, id: string)
    requires e.dedupKey.None? || !SomeWaits(t, lane.kind, e.dedupKey.value)
    ensures Enqueue(t, lane, e, id)
            == t[id := Job(kind := lane.kind, userId := e.userId, dedupKey := e.dedupKey, payload := e.payload,
                           status := Pending, attempts := 0, maxAttempts := lane.maxAttempts, nextRunAt := lane.runAt,
                           priority := lane.priority, lockedBy := None, lockedAt := None, lastError := None,
                           createdAt := lane.now, updatedAt := lane.now)]
    ensures EnqueuedId(t, lane, e, id) == id
  {
  }

  // ---------- the other transactions ----------

  // A row back in the queue: due now, unlocked, otherwise as it was.
  ghost predicate Requeued(row: Job, row': Job, now: real) {
    row' == row.(status := Pending, nextRunAt := now, lockedBy := None, lockedAt := None, updatedAt := now)
  }

  /** Resetting a worker requeues exactly its running rows, with the attempts they had. */
  lemma ResetIsExact(s: State, worker: string, now: real)
    requires Inv(s) && !SomeFollowUp(s.table, worker)
    ensures var t' := Apply(s, ResetRunning(worker, now)).table;
            && t'.Keys == s.table.Keys
            && forall id <- t' ::
                 if s.table[id].status == Running && s.table[id].lockedBy == Some(worker)
                 then Requeued(s.table[id], t'[id], now)
                 else t'[id] == s.table[id]
  {
    AbortsExactly(s, ResetRunning(worker, now));
  }

  /** A user may retry exactly a failed job of their own, which starts over with all its attempts. */
  lemma RetryIsExact(s: State, id: string, user: string, now: real)
    requires Inv(s) && id in s.table && !FollowUp(s.table, id)
    ensures var t', row := Apply(s, RetryJob(id, user, now)).table, s.table[id];
            && (row.userId == Some(user) && row.status == Failed ==>
                  id in t' && t' == s.table[id := t'[id]]
                      && Requeued(row.(attempts := 0, lastError := None), t'[id], now))
            && (!(row.userId == Some(user) && row.status == Failed) ==> t' == s.table)
  {
    AbortsExactly(s, RetryJob(id, user, now));
  }

  /** A user may dismiss exactly a finished job of their own; workspace deletion takes exactly the
      user's jobs of that workspace; the sweep takes exactly the jobs done before the cutoff. */
  lemma DeletionsAreExact(s: State, id: string, user: string, workspace: string, cutoff: real)
    requires Inv(s)
    ensures forall k :: k in Apply(s, DismissJob(id, user)).table <==>
              k in s.table && !(k == id && s.table[k].userId == Some(user) && s.table[k].status in {Done, Failed})
    ensures forall k :: k in Apply(s, DropWorkspace(user, workspace)).table <==>
              k in s.table && !(s.table[k].userId == Some(user) && s.table[k].payload.workspace == Some(workspace))
    ensures forall k :: k in Apply(s, Sweep(cutoff)).table <==>
              k in s.table && !(s.table[k].status == Done && s.table[k].updatedAt < cutoff)
    ensures forall k <- Apply(s, DismissJob(id, user)).table :: Apply(s, DismissJob(id, user)).table[k] == s.table[k]
    ensures forall k <- Apply(s, DropWorkspace(user, workspace)).table ::
              Apply(s, DropWorkspace(user, workspace)).table[k] == s.table[k]
    ensures forall k <- Apply(s, Sweep(cutoff)).table :: Apply(s, Sweep(cutoff)).table[k] == s.table[k]
  {
    AbortsExactly(s, DismissJob(id, user));
    AbortsExactly(s, DropWorkspace(user, workspace));
    AbortsExactly(s, Sweep(cutoff));
  }

  /** A heartbeat moves exactly the worker's running rows' time; a completion or final failure changes
      the row only while the worker still holds its lock. */
  lemma HoldersWritesAreExact(s: State, id: string, worker: string, error: string, now: real)
    requires Inv(s) && id in s.table
    ensures Apply(s, RenewClaim(worker, now)).table
            == map k | k in s.table ::
                 if s.table[k].status == Running && s.table[k].lockedBy == Some(worker)
                 then s.table[k].(lockedAt := Some(now), updatedAt := now) else s.table[k]
    ensures Apply(s, CompleteJob(id, worker, now)).table
            == if s.table[id].lockedBy == Some(worker)
               then s.table[id := s.table[id].(status := Done, updatedAt := now)]
               else s.table
    ensures Apply(s, FailForGood(id, worker, error, now)).table
            == if s.table[id].lockedBy == Some(worker)
               then s.table[id := s.table[id].(status := Failed, lastError := Some(error), updatedAt := now)]
               else s.table
  {
    AbortsExactly(s, RenewClaim(worker, now));
    AbortsExactly(s, CompleteJob(id, worker, now));
    AbortsExactly(s, FailForGood(id, worker, error, now));
  }
}
