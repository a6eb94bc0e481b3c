/**
 The versioned dirty set of link reconciliation. Marking a source bumps its generation and
 enqueues the workspace's job in one transaction; a worker snapshots the generations,
 rebuilds, and acknowledges only what it snapshotted.
 */
module LinkReconcile {
  import opened Options
  import opened JobTable
  import opened JobRuns
  import opened JobTheorems
  import JobRepository

  const ACK_BATCH := 400
  const RECONCILE_KIND := "reconcile_links"

  datatype Marker = Marker(owner: string, workspace: string, source: string)

  type Dirty = map<Marker, nat>

  // ---------- the transactions as values ----------

  predicate Targets(m: Marker, owner: string, workspace: string, sources: set<string>) {
    m.owner == owner && m.workspace == workspace && m.source in sources
  }

  function Bumped(d: Dirty, m: Marker): nat {
    if m in d then d[m] + 1 else 1
  }

  function MarkAll(d: Dirty, owner: string, workspace: string, sources: set<string>): Dirty {
    map m | m in d.Keys + (set s | s in sources :: Marker(owner, workspace, s)) ::
      if Targets(m, owner, workspace, sources) then Bumped(d, m) else d[m]
  }

  function ListDirty(d: Dirty, owner: string, workspace: string): map<string, nat> {
    var sources := set m | m in d && m.owner == owner && m.workspace == workspace :: m.source;
    map s | s in sources :: d[Marker(owner, workspace, s)]
  }

  // A marker is acknowledged only if its generation is still the snapshotted one.
  predicate Acked(d: Dirty, m: Marker, owner: string, workspace: string, generations: map<string, nat>)
    requires m in d
  {
    m.owner == owner && m.workspace == workspace && m.source in generations && generations[m.source] == d[m]
  }

  function Acknowledge(d: Dirty, owner: string, workspace: string, generations: map<string, nat>): Dirty {
    map m | m in d && !Acked(d, m, owner, workspace, generations) :: d[m]
  }

  function JobKey(owner: string, workspace: string): string {
    "reconcile:" + owner + ":" + workspace
  }

  function JobEntry(owner: string, workspace: string): Entry {
    Entry(Payload("targeted", Some(workspace)), Some(JobKey(owner, workspace)), Some(owner))
  }

  function JobLane(now: real): Lane {
    Lane(RECONCILE_KIND, 5, now, 0, now)
  }

  // ---------- the repository ----------

  class DirtyRepository {
    const jobs: JobRepository.Repository
    var dirty: Dirty

    constructor (jobs: JobRepository.Repository)
      ensures this.jobs == jobs && dirty == map[]
    {
      this.jobs, dirty := jobs, map[];
    }

    // The markers and the workspace's job in one transaction, or nothing if no source is named.
    method MarkAndEnqueue(owner: string, workspace: string, sources: set<string>, id: string, now: real)
      returns (jobId: Option<string>)
      requires UniquePending(jobs.table) && id !in jobs.table
      modifies this, jobs
      ensures dirty == MarkAll(old(dirty), owner, workspace, sources - {""})
      ensures sources - {""} == {} ==> jobId == None && jobs.table == old(jobs.table)
      ensures sources - {""} != {} ==>
                && jobId == Some(EnqueuedId(old(jobs.table), JobLane(now), JobEntry(owner, workspace), id))
                && jobs.table == Enqueue(old(jobs.table), JobLane(now), JobEntry(owner, workspace), id)
    {
      var named := sources - {""};
      if named == {} {
        return None;
      }
      MarkSources(owner, workspace, named);
      var made := jobs.EnqueueInSession(JobLane(now), JobEntry(owner, workspace), id);
      jobId := Some(made);
    }

    // The upserts of one transaction, one source at a time.
    method MarkSources(owner: string, workspace: string, sources: set<string>)
      modifies this
      ensures dirty == MarkAll(old(dirty), owner, workspace, sources)
    {
      var rest := sources;
      while rest != {}
        invariant rest <= sources && dirty == MarkAll(old(dirty), owner, workspace, sources - rest)
        decreases rest
      {
        var s :| s in rest;
        var m := Marker(owner, workspace, s);
        assert sources - (rest - {s}) == (sources - rest) + {s};
        assert m in dirty <==> m in old(dirty);
        dirty := dirty[m := Bumped(dirty, m)];
        rest := rest - {s};
      }
      assert sources - rest == sources;
    }

    // Deletes in batches; the batch size cannot matter, since each batch looks at its own markers.
    method AcknowledgeItems(owner: string, workspace: string, items: seq<(string, nat)>,
                            ghost generations: map<string, nat>)
      requires forall i, j :: 0 <= i < j < |items| ==> items[i].0 != items[j].0
      requires forall s :: s in generations <==> exists i :: 0 <= i < |items| && items[i].0 == s
      requires forall i :: 0 <= i < |items| ==> items[i].0 in generations && generations[items[i].0] == items[i].1
      modifies this
      ensures dirty == Acknowledge(old(dirty), owner, workspace, generations)
    {
      var start := 0;
      while start < |items|
        invariant start <= |items| && dirty == Without(old(dirty), owner, workspace, items[..start])
      {
        var end := if start + ACK_BATCH <= |items| then start + ACK_BATCH else |items|;
        var batch := items[start..end];
        WithoutAppend(old(dirty), owner, workspace, items[..start], batch);
        assert items[..start] + batch == items[..end];
        dirty := map m | m in dirty && !Matched(dirty[m], m, owner, workspace, batch) :: dirty[m];
        start := end;
      }
      assert items[..|items|] == items;
      forall m | m in old(dirty)
        ensures Matched(old(dirty)[m], m, owner, workspace, items)
          <==> Acked(old(dirty), m, owner, workspace, generations)
      {
      }
    }
  }

  predicate Matched(generation: nat, m: Marker, owner: string, workspace: string, items: seq<(string, nat)>) {
    m.owner == owner && m.workspace == workspace && exists i :: 0 <= i < |items| && items[i] == (m.source, generation)
  }

  function Without(d: Dirty, owner: string, workspace: string, items: seq<(string, nat)>): Dirty {
    map m | m in d && !Matched(d[m], m, owner, workspace, items) :: d[m]
  }

  lemma WithoutAppend(d: Dirty, owner: string, workspace: string, xs: seq<(string, nat)>, ys: seq<(string, nat)>)
    ensures Without(d, owner, workspace, xs + ys) == Without(Without(d, owner, workspace, xs), owner, workspace, ys)
  {
    forall m | m in d
      ensures Matched(d[m], m, owner, workspace, xs + ys)
              <==> Matched(d[m], m, owner, workspace, xs) || Matched(d[m], m, owner, workspace, ys)
    {
      MatchedAppend(d[m], m, owner, workspace, xs, ys);
    }
  }

  lemma MatchedAppend(g: nat, m: Marker, owner: string, workspace: string, xs: seq<(string, nat)>, ys: seq<(string,
                      nat)>)
    ensures Matched(g, m, owner, workspace, xs + ys)
      <==> Matched(g, m, owner, workspace, xs) || Matched(g, m, owner, workspace, ys)
  {
    var zs := xs + ys;
    if i :| 0 <= i < |xs| && xs[i] == (m.source, g) {
      assert zs[i] == xs[i];
    }
    if i :| 0 <= i < |ys| && ys[i] == (m.source, g) {
      assert zs[|xs| + i] == ys[i];
    }
  }

  // ---------- the dirty set and the queue together ----------

  datatype System = System(dirty: Dirty, jobs: JobRuns.State)

  /** A reconcile job at work: its row, the worker that claimed it, and its workspace. */
  datatype Run = Run(id: string, worker: string, owner: string, workspace: string)

  datatype Move =
    | Mark(owner: string, workspace: string, sources: set<string>, jobId: string, now: real)
    | Ack(run: Run, generations: map<string, nat>)
    | Clear(owner: string, workspace: string)
    | Queue(step: JobRuns.Step)

  // The transaction does nothing when no named source is left.
  predicate Marks(move: Move, owner: string, workspace: string) {
    move.Mark? && move.owner == owner && move.workspace == workspace && move.sources - {""} != {}
  }

  function QueueStep(move: Move): Option<JobRuns.Step> {
    match move
    case Mark(owner, workspace, sources, jobId, now) =>
      if sources - {""} == {} then None else Some(EnqueueOne(JobLane(now), JobEntry(owner, workspace), jobId))
    case Queue(step) => Some(step)
    case _ => None
  }

  // User ids are drawn from an alphabet without a colon, and only marks enqueue reconcile jobs.
  ghost predicate Allowed(sys: System, move: Move) {
    && (QueueStep(move).Some? ==> Legal(sys.jobs, QueueStep(move).value))
    && (move.Mark? ==> ':' !in move.owner)
    && (move.Queue? && move.step.EnqueueOne? ==> move.step.lane.kind != RECONCILE_KIND)
  }

  ghost function After(sys: System, move: Move): System
    requires Allowed(sys, move)
  {
    var jobs := if QueueStep(move).Some? then Apply(sys.jobs, QueueStep(move).value) else sys.jobs;
    match move
    case Mark(owner, workspace, sources, _, _) => System(MarkAll(sys.dirty, owner, workspace, sources - {""}), jobs)
    case Ack(run, generations) => System(Acknowledge(sys.dirty, run.owner, run.workspace, generations), jobs)
    case Clear(owner, workspace) =>
      System(map m | m in sys.dirty && !(m.owner == owner && m.workspace == workspace) :: sys.dirty[m], jobs)
    case Queue(_) => System(sys.dirty, jobs)
  }

  ghost predicate AllowedRun(sys: System, moves: seq<Move>)
    decreases |moves|
  {
    |moves| == 0 || (Allowed(sys, moves[0]) && AllowedRun(After(sys, moves[0]), moves[1..]))
  }

  ghost function Outcome(sys: System, moves: seq<Move>): System
    requires AllowedRun(sys, moves)
    decreases |moves|
  {
    if |moves| == 0 then sys else Outcome(After(sys, moves[0]), moves[1..])
  }

  // Nothing acknowledges or clears this workspace.
  predicate SoleRun(moves: seq<Move>, owner: string, workspace: string) {
    forall move <- moves ::
      !(move.Ack? && move.run.owner == owner && move.run.workspace == workspace)
      && !(move.Clear? && move.owner == owner && move.workspace == workspace)
  }

  function Hits(move: Move, m: Marker): nat {
    if move.Mark? && Targets(m, move.owner, move.workspace, move.sources - {""}) then 1 else 0
  }

  // How often the moves marked m.
  function MarkCount(moves: seq<Move>, m: Marker): nat {
    if |moves| == 0 then 0 else Hits(moves[0], m) + MarkCount(moves[1..], m)
  }

  function Generation(d: Dirty, m: Marker): nat {
    if m in d then d[m] else 0
  }

  // Without acknowledgements in between, the generation counts the marks.
  lemma {:induction false} GenerationCounts(sys: System, moves: seq<Move>, m: Marker)
    requires AllowedRun(sys, moves) && SoleRun(moves, m.owner, m.workspace)
    ensures var d := Outcome(sys, moves).dirty;
            && Generation(d, m) == Generation(sys.dirty, m) + MarkCount(moves, m)
            && (m in d <==> m in sys.dirty || MarkCount(moves, m) > 0)
    decreases |moves|
  {
    if |moves| > 0 {
      assert moves[0] in moves && forall move <- moves[1..] :: move in moves;
      GenerationCounts(After(sys, moves[0]), moves[1..], m);
    }
  }

  // The run acknowledges markers of its snapshot, at the generations it saw.
  predicate FromSnapshot(acked: map<string, nat>, snapshot: map<string, nat>) {
    forall s <- acked :: s in snapshot && acked[s] == snapshot[s]
  }

  /** The acknowledgement ending a run removes exactly the acknowledged markers that were not
      marked again since the snapshot; every other marker keeps its generation. */
  lemma AcknowledgesExactly(sys: System, moves: seq<Move>, owner: string, workspace: string, acked: map<string,
                            nat>, m: Marker)
    requires AllowedRun(sys, moves) && SoleRun(moves, owner, workspace)
    requires FromSnapshot(acked, ListDirty(sys.dirty, owner, workspace))
    ensures var before := Outcome(sys, moves).dirty;
            var after := Acknowledge(before, owner, workspace, acked);
            && (m in after ==> m in before && after[m] == before[m])
            && (m in before && m !in after
                <==> m.owner == owner && m.workspace == workspace && m.source in acked && MarkCount(moves, m) == 0)
  {
    if m.owner == owner && m.workspace == workspace {
      GenerationCounts(sys, moves, m);
      if m.source in acked {
        assert m == Marker(owner, workspace, m.source);
        assert m in sys.dirty;
      }
    }
  }

  // ---------- whom a reconcile job works for ----------

  // The row names its user and workspace, and they are those of its key.
  predicate IsReconcileRow(row: Job) {
    && row.userId.Some? && ':' !in row.userId.value && row.payload.workspace.Some?
    && row.payload == JobEntry(row.userId.value, row.payload.workspace.value).payload
    && row.dedupKey == Some(JobKey(row.userId.value, row.payload.workspace.value))
  }

  ghost predicate PayloadsOk(t: Table) {
    forall id <- t :: t[id].kind == RECONCILE_KIND ==> IsReconcileRow(t[id])
  }

  lemma PayloadsKept(sys: System, move: Move)
    requires Allowed(sys, move) && Inv(sys.jobs) && PayloadsOk(sys.jobs.table)
    ensures PayloadsOk(After(sys, move).jobs.table)
  {
    if QueueStep(move).Some? {
      var step := QueueStep(move).value;
      IdentityKept(sys.jobs, step);
      var t, w := sys.jobs.table, Written(sys.jobs, step);
      forall id | id in w && w[id].kind == RECONCILE_KIND ensures IsReconcileRow(w[id]) {
        if id in t {
          assert Identity(w[id]) == Identity(t[id]);
        } else {
          assert w[id] == NewRow(step.lane, step.entry);
        }
      }
    }
  }

  /** In every run from empty tables the queue's invariants hold, and every reconcile job works for
      the user and workspace of its key. */
  lemma {:induction false} RunKeepsPayloads(sys: System, moves: seq<Move>)
    requires AllowedRun(sys, moves) && Inv(sys.jobs) && PayloadsOk(sys.jobs.table)
    ensures Inv(Outcome(sys, moves).jobs) && PayloadsOk(Outcome(sys, moves).jobs.table)
    decreases |moves|
  {
    if |moves| > 0 {
      PayloadsKept(sys, moves[0]);
      if QueueStep(moves[0]).Some? {
        StepKeeps(sys.jobs, QueueStep(moves[0]).value);
      }
      RunKeepsPayloads(After(sys, moves[0]), moves[1..]);
    }
  }

  lemma KeyAt(owner: string, workspace: string, i: nat)
    requires i <= |owner|
    ensures |JobKey(owner, workspace)| == 11 + |owner| + |workspace|
    ensures JobKey(owner, workspace)[10 + i] == if i < |owner| then owner[i] else ':'
  {
    assert |"reconcile:"| == 10;
  }

  // A longer owner under the same key has the colon that ends the shorter one.
  lemma ColonInside(owner: string, workspace: string, o: string, w: string)
    requires JobKey(owner, workspace) == JobKey(o, w) && |owner| < |o|
    ensures ':' in o
  {
    KeyAt(owner, workspace, |owner|);
    KeyAt(o, w, |owner|);
    assert o[|owner|] == ':';
  }

  lemma NoLongerOwner(owner: string, workspace: string, o: string, w: string)
    requires ':' !in o && JobKey(owner, workspace) == JobKey(o, w)
    ensures |o| <= |owner|
  {
    if |owner| < |o| {
      ColonInside(owner, workspace, o, w);
    }
  }

  lemma KeyTells(owner: string, workspace: string, o: string, w: string)
    requires ':' !in owner && ':' !in o && JobKey(owner, workspace) == JobKey(o, w)
    ensures owner == o && workspace == w
  {
    NoLongerOwner(owner, workspace, o, w);
    NoLongerOwner(o, w, owner, workspace);
    var n, key := |owner|, JobKey(owner, workspace);
    assert |"reconcile:"| == 10;
    assert key[10..10 + n] == owner && JobKey(o, w)[10..10 + n] == o;
    assert key[11 + n..] == workspace && JobKey(o, w)[11 + n..] == w;
  }

  // ---------- one run at a time ----------

  // The worker holds the run's row, and the row is that of the workspace's job.
  ghost predicate HoldsRow(t: Table, run: Run) {
    && run.id in t && HeldBy(t[run.id], run.worker) && t[run.id].kind == RECONCILE_KIND
    && t[run.id].userId == Some(run.owner) && t[run.id].payload.workspace == Some(run.workspace)
    && t[run.id].dedupKey == Some(JobKey(run.owner, run.workspace))
  }

  ghost predicate RunHeld(sys: System, run: Run) {
    Inv(sys.jobs) && PayloadsOk(sys.jobs.table) && HoldsRow(sys.jobs.table, run)
  }

  // A deletion touches no row with this key.
  predicate Spares(t: Table, step: JobRuns.Step, key: string) {
    step.DropWorkspace? ==>
      forall id <- t :: t[id].dedupKey == Some(key) ==> !InWorkspace(t[id], step.user, step.workspace)
  }

  // The step is not the run's own write, and no claim comes later than its beat plus the window.
  predicate StepSpares(t: Table, step: JobRuns.Step, run: Run) {
    && !OwnWrite(step, run.id, run.worker) && Spares(t, step, JobKey(run.owner, run.workspace))
    && (step.ClaimNext? && run.id in t && t[run.id].lockedAt.Some?
       ==> step.now <= t[run.id].lockedAt.value + step.staleAfter)
  }

  // The queue's side of the moves leaves the run its lease, and the workspace its jobs.
  ghost predicate LeaseKept(sys: System, moves: seq<Move>, run: Run)
    requires AllowedRun(sys, moves)
    decreases |moves|
  {
    |moves| == 0 ||
    (&& (QueueStep(moves[0]).Some? ==> StepSpares(sys.jobs.table, QueueStep(moves[0]).value, run))
     && LeaseKept(After(sys, moves[0]), moves[1..], run))
  }

  // Whoever acknowledges for the workspace holds a running row with its key; the run itself
  // does not, and the workspace is not deleted.
  ghost predicate OthersHold(sys: System, moves: seq<Move>, run: Run)
    requires AllowedRun(sys, moves)
    decreases |moves|
  {
    |moves| == 0 ||
    (&& (moves[0].Ack? && moves[0].run.owner == run.owner && moves[0].run.workspace == run.workspace
         ==> HoldsRow(sys.jobs.table, moves[0].run) && moves[0].run != run)
     && !(moves[0].Clear? && moves[0].owner == run.owner && moves[0].workspace == run.workspace)
     && OthersHold(After(sys, moves[0]), moves[1..], run))
  }

  lemma HeldStep(sys: System, move: Move, run: Run)
    requires Allowed(sys, move) && RunHeld(sys, run)
    requires QueueStep(move).Some? ==> StepSpares(sys.jobs.table, QueueStep(move).value, run)
    ensures RunHeld(After(sys, move), run)
  {
    PayloadsKept(sys, move);
    if QueueStep(move).Some? {
      var step := QueueStep(move).value;
      assert RowOk(sys.jobs.table[run.id]);
      LeaseStep(sys.jobs, step, run.id, run.worker, sys.jobs.table[run.id].lockedAt.value);
      StepKeeps(sys.jobs, step);
    }
  }

  // No two runs hold rows with one key.
  lemma HoldersAreOne(t: Table, run: Run, other: Run)
    requires OneRunning(t) && HoldsRow(t, run) && HoldsRow(t, other)
    requires run.owner == other.owner && run.workspace == other.workspace
    ensures run == other
  {
    assert SameKey(t[run.id], t[other.id]);
  }

  /** Single-flight claiming makes the run the only one: while it keeps its lease, no other run
      that holds its own row can acknowledge for the workspace. */
  lemma {:induction false} SingleFlightIsSole(sys: System, moves: seq<Move>, run: Run)
    requires AllowedRun(sys, moves) && RunHeld(sys, run) && LeaseKept(sys, moves, run) && OthersHold(sys, moves, run)
    ensures SoleRun(moves, run.owner, run.workspace)
    ensures RunHeld(Outcome(sys, moves), run)
    decreases |moves|
  {
    if |moves| > 0 {
      if moves[0].Ack? && moves[0].run.owner == run.owner && moves[0].run.workspace == run.workspace {
        HoldersAreOne(sys.jobs.table, run, moves[0].run);
      }
      HeldStep(sys, moves[0], run);
      SingleFlightIsSole(After(sys, moves[0]), moves[1..], run);
    }
  }

  // ---------- no mark is lost ----------

  ghost predicate FollowUpPending(sys: System, owner: string, workspace: string) {
    SomeWaits(sys.jobs.table, RECONCILE_KIND, JobKey(owner, workspace))
  }

  lemma PendingStep(sys: System, move: Move, run: Run)
    requires Allowed(sys, move) && RunHeld(sys, run)
    requires QueueStep(move).Some? ==> StepSpares(sys.jobs.table, QueueStep(move).value, run)
    requires FollowUpPending(sys, run.owner, run.workspace) || Marks(move, run.owner, run.workspace)
    ensures FollowUpPending(After(sys, move), run.owner, run.workspace)
  {
    if FollowUpPending(sys, run.owner, run.workspace) {
      if QueueStep(move).Some? {
        var key := JobKey(run.owner, run.workspace);
        var waiting := Waiting(sys.jobs.table, RECONCILE_KIND, key);
        FollowUpWaits(sys.jobs, QueueStep(move).value, run.id, waiting);
        assert Waits(After(sys, move).jobs.table[waiting], RECONCILE_KIND, key);
      }
    } else {
      NewFollowUp(sys, move, run.owner, run.workspace);
    }
  }

  lemma NewFollowUp(sys: System, move: Move, owner: string, workspace: string)
    requires Allowed(sys, move) && Inv(sys.jobs) && Marks(move, owner, workspace)
    requires !FollowUpPending(sys, owner, workspace)
    ensures FollowUpPending(After(sys, move), owner, workspace)
  {
    var step := QueueStep(move).value;
    AbortsExactly(sys.jobs, step);
    var t' := After(sys, move).jobs.table;
    assert t' == sys.jobs.table[move.jobId := NewRow(JobLane(move.now), JobEntry(owner, workspace))];
    assert Waits(t'[move.jobId], RECONCILE_KIND, JobKey(owner, workspace));
  }

  lemma {:induction false} FollowUpReady(sys: System, moves: seq<Move>, run: Run)
    requires AllowedRun(sys, moves) && RunHeld(sys, run) && LeaseKept(sys, moves, run)
    requires FollowUpPending(sys, run.owner, run.workspace)
      || exists i :: 0 <= i < |moves| && Marks(moves[i], run.owner, run.workspace)
    ensures FollowUpPending(Outcome(sys, moves), run.owner, run.workspace)
    decreases |moves|
  {
    if |moves| > 0 {
      HeldStep(sys, moves[0], run);
      if FollowUpPending(sys, run.owner, run.workspace) || Marks(moves[0], run.owner, run.workspace) {
        PendingStep(sys, moves[0], run);
      } else {
        var i :| 0 <= i < |moves| && Marks(moves[i], run.owner, run.workspace);
        assert moves[1..][i - 1] == moves[i];
      }
      FollowUpReady(After(sys, moves[0]), moves[1..], run);
    }
  }

  // A pending job to reconcile this workspace, which can be claimed as soon as it is due.
  ghost predicate Claimable(t: Table, id: string, owner: string, workspace: string) {
    && id in t && t[id].status == Pending && t[id].kind == RECONCILE_KIND
    && t[id].userId == Some(owner) && t[id].payload == JobEntry(owner, workspace).payload
    && forall now, cutoff :: t[id].nextRunAt <= now ==> Eligible(t, id, now, cutoff)
  }

  lemma FollowUpIsOurs(t: Table, id: string, owner: string, workspace: string)
    requires PayloadsOk(t) && id in t && Waits(t[id], RECONCILE_KIND, JobKey(owner, workspace)) && ':' !in owner
    ensures t[id].userId == Some(owner) && t[id].payload == JobEntry(owner, workspace).payload
  {
    KeyTells(owner, workspace, t[id].userId.value, t[id].payload.workspace.value);
  }

  // The run's own completion leaves the follow-up pending, with nothing in its way.
  lemma CompletionFreesFollowUp(sys: System, run: Run, now: real)
    requires RunHeld(sys, run) && FollowUpPending(sys, run.owner, run.workspace)
    ensures var t := After(sys, Queue(CompleteJob(run.id, run.worker, now))).jobs.table;
            exists id :: Claimable(t, id, run.owner, run.workspace)
  {
    var step := CompleteJob(run.id, run.worker, now);
    var key := JobKey(run.owner, run.workspace);
    var id := Waiting(sys.jobs.table, RECONCILE_KIND, key);
    AbortsExactly(sys.jobs, step);
    var t := Apply(sys.jobs, step).table;
    assert t == sys.jobs.table[run.id := sys.jobs.table[run.id].(status := Done, updatedAt := now)];
    assert Waits(t[id], RECONCILE_KIND, key);
    forall k | k in t && t[k].status == Running ensures !SameKey(t[k], t[id]) {
      assert k != run.id && !SameKey(sys.jobs.table[k], sys.jobs.table[run.id]);
    }
    PayloadsKept(sys, Queue(step));
    FollowUpIsOurs(t, id, run.owner, run.workspace);
    assert !KeyBusy(t, id);
    assert Claimable(t, id, run.owner, run.workspace);
  }

  // A run from its snapshot to its completion: what happens before and after it acknowledges.
  ghost predicate WholeRun(sys: System, moves: seq<Move>, later: seq<Move>, run: Run, acked: map<string, nat>) {
    && RunHeld(sys, run) && FromSnapshot(acked, ListDirty(sys.dirty, run.owner, run.workspace))
    && AllowedRun(sys, moves) && LeaseKept(sys, moves, run) && OthersHold(sys, moves, run)
    && AllowedRun(AtAck(sys, moves, run, acked), later)
    && LeaseKept(AtAck(sys, moves, run, acked), later, run) && OthersHold(AtAck(sys, moves, run, acked), later, run)
  }

  ghost function AtAck(sys: System, moves: seq<Move>, run: Run, acked: map<string, nat>): System
    requires AllowedRun(sys, moves)
  {
    After(Outcome(sys, moves), Ack(run, acked))
  }

  ghost function AtEnd(sys: System, moves: seq<Move>, later: seq<Move>, run: Run, acked: map<string, nat>): System
    requires WholeRun(sys, moves, later, run, acked)
  {
    Outcome(AtAck(sys, moves, run, acked), later)
  }

  ghost function Completed(sys: System, moves: seq<Move>, later: seq<Move>, run: Run, acked: map<string, nat>,
                           now: real): System
    requires WholeRun(sys, moves, later, run, acked)
  {
    After(AtEnd(sys, moves, later, run, acked), Queue(CompleteJob(run.id, run.worker, now)))
  }

  lemma StillHeld(sys: System, moves: seq<Move>, later: seq<Move>, run: Run, acked: map<string, nat>)
    requires WholeRun(sys, moves, later, run, acked)
    ensures RunHeld(AtAck(sys, moves, run, acked), run) && RunHeld(AtEnd(sys, moves, later, run, acked), run)
    ensures SoleRun(moves, run.owner, run.workspace) && SoleRun(later, run.owner, run.workspace)
  {
    SingleFlightIsSole(sys, moves, run);
    SingleFlightIsSole(AtAck(sys, moves, run, acked), later, run);
  }

  /** When a run ends, a marker of its workspace is left if and only if it was marked since the
      snapshot, or was there and the run did not acknowledge it. */
  lemma LeftExactly(sys: System, moves: seq<Move>, later: seq<Move>, run: Run, acked: map<string, nat>, now: real,
                    m: Marker)
    requires WholeRun(sys, moves, later, run, acked) && m.owner == run.owner && m.workspace == run.workspace
    ensures m in Completed(sys, moves, later, run, acked, now).dirty
            <==> MarkCount(moves + later, m) > 0 || (m in sys.dirty && m.source !in acked)
  {
    StillHeld(sys, moves, later, run, acked);
    MarkCountAppend(moves, later, m);
    LeftAtAck(sys, moves, run, acked, m);
    GenerationCounts(AtAck(sys, moves, run, acked), later, m);
  }

  lemma LeftAtAck(sys: System, moves: seq<Move>, run: Run, acked: map<string, nat>, m: Marker)
    requires AllowedRun(sys, moves) && SoleRun(moves, run.owner, run.workspace)
    requires FromSnapshot(acked, ListDirty(sys.dirty, run.owner, run.workspace)) && m.owner == run.owner
      && m.workspace == run.workspace
    ensures m in AtAck(sys, moves, run, acked).dirty
      <==> MarkCount(moves, m) > 0 || (m in sys.dirty && m.source !in acked)
  {
    AcknowledgesExactly(sys, moves, run.owner, run.workspace, acked, m);
    GenerationCounts(sys, moves, m);
  }

  lemma PendingAtEnd(sys: System, moves: seq<Move>, later: seq<Move>, run: Run, acked: map<string, nat>, m: Marker)
    requires WholeRun(sys, moves, later, run, acked) && m.owner == run.owner && m.workspace == run.workspace
    requires MarkCount(moves + later, m) > 0
    ensures FollowUpPending(AtEnd(sys, moves, later, run, acked), run.owner, run.workspace)
  {
    StillHeld(sys, moves, later, run, acked);
    MarkCountAppend(moves, later, m);
    if MarkCount(moves, m) > 0 {
      var i := MarkedBy(moves, m);
      FollowUpReady(sys, moves, run);
    } else {
      var i := MarkedBy(later, m);
    }
    FollowUpReady(AtAck(sys, moves, run, acked), later, run);
  }

  /** A source marked while a run is at work, before or after the run acknowledges its snapshot,
      is never forgotten: when the run has completed, the marker is still there, and a job with the
      marker's user and workspace is pending that can be claimed as soon as it is due. */
  lemma NoMarkIsLost(sys: System, moves: seq<Move>, later: seq<Move>, run: Run, acked: map<string, nat>, now: real,
                     m: Marker)
    requires WholeRun(sys, moves, later, run, acked) && m.owner == run.owner && m.workspace == run.workspace
    requires MarkCount(moves + later, m) > 0
    ensures m in Completed(sys, moves, later, run, acked, now).dirty
    ensures var t := Completed(sys, moves, later, run, acked, now).jobs.table;
            exists id :: Claimable(t, id, run.owner, run.workspace)
  {
    LeftExactly(sys, moves, later, run, acked, now, m);
    StillHeld(sys, moves, later, run, acked);
    PendingAtEnd(sys, moves, later, run, acked, m);
    CompletionFreesFollowUp(AtEnd(sys, moves, later, run, acked), run, now);
  }

  lemma {:induction false} MarkCountAppend(a: seq<Move>, b: seq<Move>, m: Marker)
    ensures MarkCount(a + b, m) == MarkCount(a, m) + MarkCount(b, m)
  {
    if |a| == 0 {
      assert a + b == b;
    } else {
      assert (a + b)[1..] == a[1..] + b;
      MarkCountAppend(a[1..], b, m);
    }
  }

  lemma {:induction false} MarkedBy(moves: seq<Move>, m: Marker) returns (i: nat)
    requires MarkCount(moves, m) > 0
    ensures i < |moves| && Marks(moves[i], m.owner, m.workspace)
  {
    if Hits(moves[0], m) == 1 {
      i := 0;
    } else {
      i := MarkedBy(moves[1..], m);
      i := i + 1;
    }
  }

  // ---------- when a mark can be lost ----------

  ghost predicate Removes(sys: System, move: Move, m: Marker)
    requires Allowed(sys, move)
  {
    m in sys.dirty && m !in After(sys, move).dirty
  }

  // The marker was removed on the way.
  ghost predicate GoneIn(sys: System, moves: seq<Move>, m: Marker)
    requires AllowedRun(sys, moves)
    decreases |moves|
  {
    |moves| > 0 && (Removes(sys, moves[0], m) || GoneIn(After(sys, moves[0]), moves[1..], m))
  }

  // How often it was marked since it was last removed, or since the start.
  ghost function MarksSince(sys: System, moves: seq<Move>, m: Marker): nat
    requires AllowedRun(sys, moves)
    decreases |moves|
  {
    if |moves| == 0 then 0
    else if GoneIn(After(sys, moves[0]), moves[1..], m) then MarksSince(After(sys, moves[0]), moves[1..], m)
    else if Removes(sys, moves[0], m) then MarkCount(moves[1..], m)
    else MarkCount(moves, m)
  }

  // Whatever acknowledges or clears, the generation counts the marks since the last removal.
  lemma {:induction false} GenerationExactly(sys: System, moves: seq<Move>, m: Marker)
    requires AllowedRun(sys, moves)
    ensures var d, gone, marks := Outcome(sys, moves).dirty, GoneIn(sys, moves, m), MarksSince(sys, moves, m);
            && Generation(d, m) == (if gone then 0 else Generation(sys.dirty, m)) + marks
            && (m in d <==> (m in sys.dirty && !gone) || marks > 0)
    decreases |moves|
  {
    if |moves| > 0 {
      GenerationExactly(After(sys, moves[0]), moves[1..], m);
      NotGoneIsCounted(After(sys, moves[0]), moves[1..], m);
    }
  }

  lemma {:induction false} NotGoneIsCounted(sys: System, moves: seq<Move>, m: Marker)
    requires AllowedRun(sys, moves)
    ensures !GoneIn(sys, moves, m) ==> MarksSince(sys, moves, m) == MarkCount(moves, m)
  {
  }

  /** With any other acknowledgements and deletions in between, acknowledging a snapshotted marker
      removes it if and only if it was not marked since, or it was removed meanwhile and the marks
      since the last removal number exactly the snapshotted generation. */
  lemma RemovedExactly(sys: System, moves: seq<Move>, run: Run, acked: map<string, nat>, m: Marker)
    requires AllowedRun(sys, moves) && FromSnapshot(acked, ListDirty(sys.dirty, run.owner, run.workspace))
    requires m.owner == run.owner && m.workspace == run.workspace && m.source in acked
    ensures Removes(Outcome(sys, moves), Ack(run, acked), m)
            <==> if GoneIn(sys, moves, m) then MarksSince(sys, moves, m) == acked[m.source] > 0
                 else MarkCount(moves, m) == 0
  {
    GenerationExactly(sys, moves, m);
    NotGoneIsCounted(sys, moves, m);
    assert m == Marker(run.owner, run.workspace, m.source) && m in sys.dirty;
  }

  lemma MoveThen(sys: System, move: Move, rest: seq<Move>)
    requires Allowed(sys, move) && AllowedRun(After(sys, move), rest)
    ensures AllowedRun(sys, [move] + rest) && Outcome(sys, [move] + rest) == Outcome(After(sys, move), rest)
  {
    assert ([move] + rest)[1..] == rest;
  }

  /** The workspace of a lost lease, its one dirty note, and the two workers that ran its job. */
  datatype Lost = Lost(owner: string, workspace: string, source: string, id: string, first: string, second: string,
                       other: string)
  {
    function M(): Marker {
      Marker(owner, workspace, source)
    }

    function Lane(): Lane {
      JobLane(0.0)
    }

    function Entry(): Entry {
      JobEntry(owner, workspace)
    }

    function Start(): seq<Move> {
      [Mark(owner, workspace, {source}, id, 0.0)] + ([Queue(ClaimNext(first, 0.0, STALE_AFTER, Some(id)))] + [])
    }

    // Marked, claimed by the first worker, which takes its snapshot of generation 1 here.
    function Snapshot(): System {
      System(map[M() := 1], State(map[id := Lock(NewRow(Lane(), Entry()), first, 0.0)], {id}, {}))
    }

    // After the second worker has reclaimed the row and acknowledged.
    function Acked(): System {
      System(map[], State(map[id := Lock(Lock(NewRow(Lane(), Entry()), first, 0.0), second, 301.0)], {id}, {}))
    }

    // Then the row goes stale; the second worker reclaims it and acknowledges; the note is marked again.
    function Moves(): seq<Move> {
      [Queue(ClaimNext(second, 301.0, STALE_AFTER, Some(id)))]
      + ([Ack(Run(id, second, owner, workspace), map[source := 1])]
      + ([Mark(owner, workspace, {source}, other, 302.0)] + []))
    }
  }

  lemma LostSnapshotReached(l: Lost)
    requires ':' !in l.owner && l.source != ""
    ensures AllowedRun(System(map[], Init()), l.Start()) && Outcome(System(map[], Init()), l.Start()) == l.Snapshot()
  {
    var mark, claim := Mark(l.owner, l.workspace, {l.source}, l.id, 0.0),
        Queue(ClaimNext(l.first, 0.0, STALE_AFTER, Some(l.id)));
    var init := System(map[], Init());
    var row := NewRow(l.Lane(), l.Entry());
    var marked := System(map[l.M() := 1], State(map[l.id := row], {l.id}, {}));
    assert {l.source} - {""} == {l.source};
    OnlyRow(l.id, row, 0.0, 0.0 - STALE_AFTER);
    OnlyRow(l.id, Lock(row, l.first, 0.0), 0.0, 0.0);
    assert After(init, mark) == marked;
    assert After(marked, claim) == l.Snapshot();
    MoveThen(marked, claim, []);
    MoveThen(init, mark, [claim] + []);
  }

  // A mark leaves a running row alone.
  lemma MarkLeavesRunning(sys: System, move: Move, id: string)
    requires Allowed(sys, move) && move.Mark? && id in sys.jobs.table && sys.jobs.table[id].status == Running
      && id != move.jobId
    ensures id in After(sys, move).jobs.table && After(sys, move).jobs.table[id] == sys.jobs.table[id]
  {
  }

  lemma LostMarks(l: Lost)
    requires l.source != ""
    ensures MarkCount(l.Moves(), l.M()) == 1
  {
    var claim, ack := Queue(ClaimNext(l.second, 301.0, STALE_AFTER, Some(l.id))),
        Ack(Run(l.id, l.second, l.owner, l.workspace), map[l.source := 1]);
    var mark := Mark(l.owner, l.workspace, {l.source}, l.other, 302.0);
    assert {l.source} - {""} == {l.source};
    assert MarkCount([mark] + [], l.M()) == 1 by { assert ([mark] + [])[1..] == []; }
    MarkCountAppend([ack], [mark] + [], l.M());
    MarkCountAppend([claim], [ack] + ([mark] + []), l.M());
    assert [ack][1..] == [] && [claim][1..] == [];
    assert MarkCount([ack], l.M()) == 0 && MarkCount([claim], l.M()) == 0;
  }

  // The second worker reclaims the row and acknowledges.
  lemma LostReclaim(l: Lost)
    ensures var claim := Queue(ClaimNext(l.second, 301.0, STALE_AFTER, Some(l.id)));
            var ack := Ack(Run(l.id, l.second, l.owner, l.workspace), map[l.source := 1]);
            && Allowed(l.Snapshot(), claim) && Allowed(After(l.Snapshot(), claim), ack)
            && After(After(l.Snapshot(), claim), ack) == l.Acked()
  {
    var claim := Queue(ClaimNext(l.second, 301.0, STALE_AFTER, Some(l.id)));
    var row := Lock(NewRow(l.Lane(), l.Entry()), l.first, 0.0);
    OnlyRow(l.id, row, 301.0, 301.0 - STALE_AFTER);
    OnlyRow(l.id, Lock(row, l.second, 301.0), 301.0, 301.0);
    assert After(l.Snapshot(), claim).dirty == map[l.M() := 1];
    assert After(l.Snapshot(), claim).jobs == l.Acked().jobs;
  }

  lemma LostMoves(l: Lost) returns (end: System)
    requires ':' !in l.owner && l.source != "" && l.other != l.id
    ensures AllowedRun(l.Snapshot(), l.Moves()) && Outcome(l.Snapshot(), l.Moves()) == end
    ensures end.dirty == map[l.M() := 1] && l.id in end.jobs.table && end.jobs.table[l.id].lockedBy == Some(l.second)
  {
    var claim := Queue(ClaimNext(l.second, 301.0, STALE_AFTER, Some(l.id)));
    var ack := Ack(Run(l.id, l.second, l.owner, l.workspace), map[l.source := 1]);
    var mark := Mark(l.owner, l.workspace, {l.source}, l.other, 302.0);
    assert {l.source} - {""} == {l.source};
    LostReclaim(l);
    end := After(l.Acked(), mark);
    MarkLeavesRunning(l.Acked(), mark, l.id);
    MoveThen(l.Acked(), mark, []);
    MoveThen(After(l.Snapshot(), claim), ack, [mark] + []);
    MoveThen(l.Snapshot(), claim, [ack] + ([mark] + []));
  }

  /** A lost lease can lose a mark: after this run from empty tables, the first worker, which no
      longer holds the row, acknowledges its snapshot and deletes a marker set after it. */
  lemma LostLeaseLosesAMark(l: Lost)
    requires ':' !in l.owner && l.source != "" && l.other != l.id && l.first != l.second
    ensures AllowedRun(System(map[], Init()), l.Start()) && Outcome(System(map[], Init()), l.Start()) == l.Snapshot()
    ensures ListDirty(l.Snapshot().dirty, l.owner, l.workspace) == map[l.source := 1]
    ensures AllowedRun(l.Snapshot(), l.Moves()) && MarkCount(l.Moves(), l.M()) == 1
    ensures !HoldsRow(Outcome(l.Snapshot(), l.Moves()).jobs.table, Run(l.id, l.first, l.owner, l.workspace))
    ensures Removes(Outcome(l.Snapshot(), l.Moves()),
      Ack(Run(l.id, l.first, l.owner, l.workspace), map[l.source := 1]), l.M())
  {
    LostSnapshotReached(l);
    var end := LostMoves(l);
    LostMarks(l);
  }

  /** Two runs at once would lose a mark: the other run's acknowledgement restarts the
      generations, and a later mark then looks like the snapshotted one. */
  lemma TwoRunsLoseAMark(d: Dirty, owner: string, workspace: string, source: string)
    requires Generation(d, Marker(owner, workspace, source)) == 1
    ensures var m := Marker(owner, workspace, source);
            var other := Acknowledge(d, owner, workspace, map[source := 1]);
            var marked := MarkAll(other, owner, workspace, {source});
            && m in marked
            && m !in Acknowledge(marked, owner, workspace, ListDirty(d, owner, workspace))
  {
    var m := Marker(owner, workspace, source);
    assert m in d;
    var other := Acknowledge(d, owner, workspace, map[source := 1]);
    assert Acked(d, m, owner, workspace, map[source := 1]) && m !in other;
    var marked := MarkAll(other, owner, workspace, {source});
    assert m in marked && marked[m] == 1;
    assert ListDirty(d, owner, workspace)[source] == 1;
  }
}
