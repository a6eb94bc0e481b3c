/** What marking leaves in the queue, row by row. */
module ReconcileLaws {
  import opened Options
  import opened JobTable
  import opened JobRuns
  import opened LinkReconcile

  // The row that waits for the workspace after a mark: due at once, in the default lane or a more urgent one.
  ghost predicate MarkedRow(row: Job, owner: string, workspace: string, now: real) {
    && row.status == Pending && row.kind == "reconcile_links"
    && row.dedupKey == Some("reconcile:" + owner + ":" + workspace)
    && row.nextRunAt == now && row.updatedAt == now && row.priority <= 0
  }

  // A row that nobody has tried, with the default number of attempts.
  ghost predicate Untried(row: Job, owner: string, workspace: string, now: real) {
    && row.userId == Some(owner) && row.payload == Payload("targeted", Some(workspace))
    && row.attempts == 0 && row.maxAttempts == 5 && row.priority == 0 && row.createdAt == now
  }

  lemma MarkWrites(sys: System, move: Move, owner: string, workspace: string)
    requires Allowed(sys, move) && Inv(sys.jobs) && Marks(move, owner, workspace)
    ensures After(sys, move).jobs.table
            == Enqueue(sys.jobs.table, JobLane(move.now), JobEntry(owner, workspace), move.jobId)
  {
    AbortsExactly(sys.jobs, QueueStep(move).value);
  }

  /** After every mark of a workspace exactly one row waits for it, due at the time of the mark: the row
      that waited already, as it was but for its time and priority, or else a new one that is the mark's
      own. No other row is touched. */
  lemma MarkedJobIsDue(sys: System, move: Move, owner: string, workspace: string) returns (id: string)
    requires Allowed(sys, move) && Inv(sys.jobs) && Marks(move, owner, workspace)
    ensures var t, t' := sys.jobs.table, After(sys, move).jobs.table;
            && t'.Keys == t.Keys + {id} && id in t' && MarkedRow(t'[id], owner, workspace, move.now)
            && (forall other <- t :: other != id ==> t'[other] == t[other])
            && (forall other <- t' :: other != id ==>
                  !Waits(t'[other], "reconcile_links", "reconcile:" + owner + ":" + workspace))
            && (if id in t then
                  t'[id] == t[id].(nextRunAt := move.now, updatedAt := move.now, priority := t'[id].priority)
                  && (t'[id].priority == t[id].priority || t'[id].priority == 0 < t[id].priority)
                else id == move.jobId && Untried(t'[id], owner, workspace, move.now))
  {
    var t, key := sys.jobs.table, JobKey(owner, workspace);
    MarkWrites(sys, move, owner, workspace);
    id := if SomeWaits(t, RECONCILE_KIND, key) then Waiting(t, RECONCILE_KIND, key) else move.jobId;
  }

  /** So a mark that no run of the workspace is in the way of can be worked on at once. */
  lemma MarkedJobIsClaimable(sys: System, move: Move, owner: string, workspace: string, cutoff: real)
    returns (id: string)
    requires Allowed(sys, move) && Inv(sys.jobs) && Marks(move, owner, workspace)
    requires forall r <- sys.jobs.table ::
      sys.jobs.table[r].status == Running ==> sys.jobs.table[r].dedupKey != Some(JobKey(owner, workspace))
    ensures Eligible(After(sys, move).jobs.table, id, move.now, cutoff)
    ensures MarkedRow(After(sys, move).jobs.table[id], owner, workspace, move.now)
  {
    id := MarkedJobIsDue(sys, move, owner, workspace);
    var t, t' := sys.jobs.table, After(sys, move).jobs.table;
    forall r | r in t' && r != id && t'[r].status == Running ensures !SameKey(t'[r], t'[id]) {
      assert r in t && t'[r] == t[r];
    }
  }

  // ---------- one workspace's markers ----------

  /** A snapshot holds exactly the workspace's marked sources, at their generations. */
  lemma SnapshotIsExact(d: Dirty, owner: string, workspace: string, source: string)
    ensures source in ListDirty(d, owner, workspace) <==> Marker(owner, workspace, source) in d
    ensures source in ListDirty(d, owner, workspace) ==>
              ListDirty(d, owner, workspace)[source] == d[Marker(owner, workspace, source)]
  {
  }

  // The move is about the markers of this workspace.
  predicate Concerns(move: Move, owner: string, workspace: string) {
    match move
    case Mark(o, w, _, _, _) => o == owner && w == workspace
    case Ack(run, _) => run.owner == owner && run.workspace == workspace
    case Clear(o, w) => o == owner && w == workspace
    case Queue(_) => false
  }

  /** Whatever is marked, acknowledged or cleared elsewhere, a workspace's markers stay as they are. */
  lemma {:induction false} WorkspacesAreApart(sys: System, moves: seq<Move>, owner: string, workspace: string)
    requires AllowedRun(sys, moves) && forall move <- moves :: !Concerns(move, owner, workspace)
    ensures ListDirty(Outcome(sys, moves).dirty, owner, workspace) == ListDirty(sys.dirty, owner, workspace)
    decreases |moves|
  {
    if |moves| > 0 {
      var next := After(sys, moves[0]);
      assert moves[0] in moves && forall move <- moves[1..] :: move in moves;
      WorkspacesAreApart(next, moves[1..], owner, workspace);
      AnotherWorkspace(sys, moves[0], owner, workspace);
    }
  }

  lemma AnotherWorkspace(sys: System, move: Move, owner: string, workspace: string)
    requires Allowed(sys, move) && !Concerns(move, owner, workspace)
    ensures ListDirty(After(sys, move).dirty, owner, workspace) == ListDirty(sys.dirty, owner, workspace)
  {
    var d, d' := sys.dirty, After(sys, move).dirty;
    assert forall m: Marker :: m.owner == owner && m.workspace == workspace ==> (m in d' <==> m in d);
    forall source ensures source in ListDirty(d', owner, workspace) <==> source in ListDirty(d, owner, workspace) {
      SnapshotIsExact(d, owner, workspace, source);
      SnapshotIsExact(d', owner, workspace, source);
    }
  }

  /** Clearing a workspace leaves it no marker. */
  lemma ClearedIsEmpty(sys: System, owner: string, workspace: string)
    ensures ListDirty(After(sys, Clear(owner, workspace)).dirty, owner, workspace) == map[]
  {
    forall source ensures source !in ListDirty(After(sys, Clear(owner, workspace)).dirty, owner, workspace) {
      SnapshotIsExact(After(sys, Clear(owner, workspace)).dirty, owner, workspace, source);
    }
  }
}
