/**
 The jobs table and what each transaction of the queue does to it. A row is pending,
 running, done or failed; the partial unique index on pending rows makes a transaction
 that would leave two of them with one (kind, dedup key) raise and change nothing.
 */
module JobTable {
  import opened Options

  datatype Status = Pending | Running | Done | Failed

  datatype Payload = Payload(body: string, workspace: Option<string>)

  datatype Job = Job(
    kind: string,
    userId: Option<string>,
    dedupKey: Option<string>,
    payload: Payload,
    status: Status,
    attempts: nat,
    maxAttempts: int,
    nextRunAt: real,
    priority: int,
    lockedBy: Option<string>,
    lockedAt: Option<real>,
    lastError: Option<string>,
    createdAt: real,
    updatedAt: real)

  type Table = map<string, Job>

  /** What one enqueue call shares between its entries, and one entry. */
  datatype Lane = Lane(kind: string, maxAttempts: int, runAt: real, priority: int, now: real)
  datatype Entry = Entry(payload: Payload, dedupKey: Option<string>, userId: Option<string>)

  // ---------- enqueue ----------

  function NewRow(lane: Lane, e: Entry): Job {
    Job(lane.kind, e.userId, e.dedupKey, e.payload, Pending, 0, lane.maxAttempts, lane.runAt, lane.priority,
        None, None, None, lane.now, lane.now)
  }

  // Re-arming keeps the row and never demotes it to a less urgent priority.
  function Rearm(row: Job, lane: Lane): Job {
    row.(nextRunAt := lane.runAt,
         priority := if row.priority <= lane.priority then row.priority else lane.priority,
         updatedAt := lane.now)
  }

  predicate Waits(row: Job, kind: string, key: string) {
    row.status == Pending && row.kind == kind && row.dedupKey == Some(key)
  }

  ghost predicate SomeWaits(t: Table, kind: string, key: string) {
    exists id :: id in t && Waits(t[id], kind, key)
  }

  ghost function Waiting(t: Table, kind: string, key: string): (id: string)
    requires SomeWaits(t, kind, key)
    ensures id in t && Waits(t[id], kind, key)
  {
    var id :| id in t && Waits(t[id], kind, key);
    id
  }

  ghost function Enqueue(t: Table, lane: Lane, e: Entry, id: string): Table {
    if e.dedupKey.Some? && SomeWaits(t, lane.kind, e.dedupKey.value) then
      var old_ := Waiting(t, lane.kind, e.dedupKey.value);
      t[old_ := Rearm(t[old_], lane)]
    else
      t[id := NewRow(lane, e)]
  }

  ghost function EnqueuedId(t: Table, lane: Lane, e: Entry, id: string): string {
    if e.dedupKey.Some? && SomeWaits(t, lane.kind, e.dedupKey.value) then Waiting(t, lane.kind, e.dedupKey.value)
    else id
  }

  // ---------- the index ----------

  predicate SameLane(a: Job, b: Job) {
    a.dedupKey.Some? && a.dedupKey == b.dedupKey && a.kind == b.kind
  }

  predicate UniquePending(t: Table) {
    forall a, b :: (&& a in t && b in t && a != b && t[a].status == Pending && t[b].status == Pending)
                   ==> !SameLane(t[a], t[b])
  }

  // A row other than id that is pending under id's kind and key.
  ghost predicate FollowUp(t: Table, id: string)
    requires id in t
  {
    exists k :: k in t && k != id && t[k].status == Pending && SameLane(t[id], t[k])
  }

  // ---------- claim and lease ----------

  predicate Due(row: Job, now: real, cutoff: real) {
    || (row.status == Pending && row.nextRunAt <= now)
    || (row.status == Running && row.lockedAt.Some? && row.lockedAt.value < cutoff)
  }

  predicate SameKey(a: Job, b: Job) {
    a.dedupKey.Some? && a.dedupKey == b.dedupKey
  }

  predicate KeyBusy(t: Table, id: string)
    requires id in t
  {
    exists r :: r in t && r != id && t[r].status == Running && SameKey(t[r], t[id])
  }

  predicate Eligible(t: Table, id: string, now: real, cutoff: real) {
    id in t && Due(t[id], now, cutoff) && !KeyBusy(t, id)
  }

  predicate NoLater(a: Job, b: Job) {
    a.priority < b.priority || (a.priority == b.priority && a.nextRunAt <= b.nextRunAt)
  }

  // The row a claim takes: eligible, and none eligible is strictly more urgent.
  ghost predicate Picks(t: Table, now: real, cutoff: real, picked: Option<string>) {
    match picked
    case None => forall id <- t :: !Eligible(t, id, now, cutoff)
    case Some(p) =>
      Eligible(t, p, now, cutoff)
      && forall id <- t :: Eligible(t, id, now, cutoff) ==> NoLater(t[p], t[id])
  }

  function Lock(row: Job, worker: string, now: real): Job {
    row.(status := Running, lockedBy := Some(worker), lockedAt := Some(now), updatedAt := now)
  }

  function Claim(t: Table, worker: string, now: real, picked: Option<string>): Table
    requires picked.Some? ==> picked.value in t
  {
    if picked.None? then t else t[picked.value := Lock(t[picked.value], worker, now)]
  }

  predicate HeldBy(row: Job, worker: string) {
    row.status == Running && row.lockedBy == Some(worker)
  }

  function Renew(t: Table, worker: string, now: real): Table {
    map id | id in t :: if HeldBy(t[id], worker) then t[id].(lockedAt := Some(now), updatedAt := now) else t[id]
  }

  // ---------- fenced lifecycle writes ----------

  predicate Fenced(t: Table, id: string, worker: string) {
    id in t && t[id].lockedBy == Some(worker)
  }

  function Complete(t: Table, id: string, worker: string, now: real): Table {
    if Fenced(t, id, worker) then t[id := t[id].(status := Done, updatedAt := now)] else t
  }

  function FailTerminal(t: Table, id: string, worker: string, error: string, now: real): Table {
    if Fenced(t, id, worker) then t[id := t[id].(status := Failed, lastError := Some(error), updatedAt := now)] else t
  }

  function Pow2(n: nat): real {
    if n == 0 then 1.0 else 2.0 * Pow2(n - 1)
  }

  function Backoff(attempts: nat, base: real, cap: real): (r: real)
    requires attempts >= 1
  {
    var raw := base * Pow2(attempts - 1);
    if cap <= raw then cap else raw
  }

  /** The delays before retries never shrink and never exceed the cap. */
  lemma BackoffGrows(attempts: nat, base: real, cap: real)
    requires attempts >= 1 && base >= 0.0
    ensures Backoff(attempts, base, cap) <= Backoff(attempts + 1, base, cap) <= cap
  {
    PowPositive(attempts - 1);
    assert Pow2(attempts) == 2.0 * Pow2(attempts - 1);
    assert base * Pow2(attempts) == base * Pow2(attempts - 1) + base * Pow2(attempts - 1);
    assert base * Pow2(attempts - 1) >= 0.0;
  }

  lemma PowPositive(n: nat)
    ensures Pow2(n) >= 1.0
  {
  }

  // The values a failure writes are computed from a row read before the write.
  function Failure(row: Job, seen: Job, worker: string, error: string, now: real): Job {
    var attempts := seen.attempts + 1;
    var counted := row.(attempts := attempts, lastError := Some(error), updatedAt := now);
    if attempts >= seen.maxAttempts then
      counted.(status := Failed, lockedBy := Some(worker), lockedAt := seen.lockedAt, nextRunAt := seen.nextRunAt)
    else
      counted.(status := Pending, lockedBy := None, lockedAt := None, nextRunAt := now + Backoff(attempts, 2.0, 300.0))
  }

  function Fail(t: Table, id: string, worker: string, seen: Job, error: string, now: real): Table {
    if Fenced(t, id, worker) then t[id := Failure(t[id], seen, worker, error, now)] else t
  }

  function Requeue(row: Job, now: real): Job {
    row.(status := Pending, nextRunAt := now, lockedBy := None, lockedAt := None, updatedAt := now)
  }

  function Reset(t: Table, worker: string, now: real): Table {
    map id | id in t :: if HeldBy(t[id], worker) then Requeue(t[id], now) else t[id]
  }

  // ---------- user actions and housekeeping ----------

  predicate Retryable(t: Table, id: string, user: string) {
    id in t && t[id].userId == Some(user) && t[id].status == Failed
  }

  function Retry(t: Table, id: string, user: string, now: real): Table {
    if Retryable(t, id, user) then t[id := Requeue(t[id], now).(attempts := 0, lastError := None)] else t
  }

  function Dismiss(t: Table, id: string, user: string): Table {
    if id in t && t[id].userId == Some(user) && (t[id].status == Done || t[id].status == Failed) then t - {id} else t
  }

  function SweepDone(t: Table, cutoff: real): Table {
    map id | id in t && !(t[id].status == Done && t[id].updatedAt < cutoff) :: t[id]
  }

  predicate InWorkspace(row: Job, user: string, workspace: string) {
    row.userId == Some(user) && row.payload.workspace == Some(workspace)
  }

  function DeleteWorkspace(t: Table, user: string, workspace: string): Table {
    map id | id in t && !InWorkspace(t[id], user, workspace) :: t[id]
  }
}
