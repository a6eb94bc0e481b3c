# Kajet Turbo: a Dafny model of its protocols, calendars and text algorithms

Kajet Turbo keeps Markdown notes in Git workspaces and serves them over HTTP and MCP. This
project models the parts of it where a short statement hides a hard argument, and proves the
statements for every input and every run. Random ids enter as unused values, the clock as a
parameter of each step, and a database transaction is one atomic step unless said otherwise.

* **OAuth token families** (`OAuthStore`, `OAuthProtocol`, `OAuthTheorems`, `OAuthOutcomes`). The
  repository is a class over three tables. The provider is a state machine in which the read of a
  code or token, the later write, sweeps and revocations interleave freely. Access tokens carry no
  family id; a log of what was minted in which family states what revocation must achieve. Proved
  for every run: revocation is complete exactly when a refresh row of the family is left or nothing
  is live; what each exchange, load, revocation and sweep leaves; single use; one grant per family;
  a deleted family stays deleted.
* **The job queue** (`JobTable`, `JobRuns`, `JobTheorems`, `JobLaws`, `JobRepository`). Every
  transaction is a function on the table; the partial unique index makes a transaction that would
  leave two pending rows with one (kind, dedup key) change nothing. `fail` reads its row in a step of
  its own. Proved: the invariants of every reachable table, exactly when a step aborts, lease safety,
  the order in which jobs go, and that the batched fan-out equals enqueuing one by one.
* **Link reconciliation and the outbox** (`LinkReconcile`, `ReconcileLaws`, `Outbox`). The dirty set
  runs in one system with the queue: marks, a snapshot, an acknowledgement. The outbox is a table
  with a watermark cursor per connection.
* **Periods and collections** (`Decimals`, `Calendar`, `Periods`, `PeriodLaws`, `Templates`,
  `Readings`, `Collections`, `Recognition`, `CollectionEntries`, `CollectionLaws`,
  `AdjacentOrdinals`). Gregorian and ISO-week arithmetic from year 1 to year 9999, keys as strings,
  templates as a printer and a backtracking matcher.
* **The Markdown chunker** (`MarkdownText`, `Sections`, `Merging`, `Blocks`, `Packing`, `Chunking`,
  with `TextLaws`, `SectionLaws`, `MergeLaws`, `PackingLaws` and `ChunkLaws`). Headings enter as
  ordered, disjoint line ranges; everything after the parser is modelled, down to the line offsets,
  the sentence split and the hard cut.
* **Shared forms against simple ones** (`Text`, `Folders`, `FolderLaws`, `LinkIndex`, `LinkLaws`,
  `FileHistory`). Wikilink resolution through lazy title maps against a scan, and the single history
  walk against one walk per path.

`OAuthOutcomes` and the modules ending in `Laws` say what the functions of the other modules decide in
terms of their own: columns, lengths, characters, path segments and dates.

Where the code does less than its documentation says, the model follows the code:

* An access token can outlive every refresh row of its family, because the sweep removes refresh
  rows at the family's expiry while an access token minted in the last hour is still live;
  `OAuthTheorems.AccessTokenCanOutliveItsFamily` gives the run and
  `OAuthTheorems.RevocationIsComplete` the exact condition; `OAuthTheorems.GapIsBounded` bounds it.
* The comment at `src/kajet_turbo/markdown/chunking.py:108-109` says merges stay under `target`.
  The joining blank line is not counted, so they can exceed it by up to two characters;
  `Merging.WithinTargetExactly` says when.
* The guard at `src/kajet_turbo/markdown/chunking.py:221` admits `hard_max` 0, where the cut loop
  makes no progress on any note with text outside its heading lines. `Chunking.ReadyExactly` and
  `Chunking.OtherwiseNeverEnds` make that exact, and `Chunking.ChunkMarkdown` requires the rest.
* Sibling lookup takes the static folder prefix from the raw template, so an escaped brace in it
  hides an entry's own siblings and a taken path is allocated again.
  `CollectionEntries.AllocatesFreeExactly` is the exact condition, and
  `CollectionEntries.BracedIsTaken` a failing template.
* A template in which other ordinals share a run of digits with its last one, or enclose a date
  field in a run, does not recognise all its own entries: `Recognition.RecognisedExactly`. With two
  adjacent ordinals at the end it recognises exactly the entries up to ordinal nine, and allocation
  jumps: `AdjacentOrdinals.AdjacentOrdinalsBreak`, `AdjacentOrdinals.AllocationJumps`.
* An outbox row that becomes visible with a timestamp behind a connection's watermark is never
  sent on it; see `Outbox.LateEventsAreNeverSent`, and `Outbox.ALateEventIsLost` for a run.
* A worker that reclaims its own stale row shares the fence with its first run; see
  `JobTheorems.FenceIsPerWorker`, and `JobTheorems.FirstRunCompletesSecond` for a run.

## Model

| member | source | states |
|---|---|---|
| `OAuthStore.OAuthRepository.SaveTokenPair` | src/kajet_turbo/repositories/oauth.py:209-221 | both rows are stored, or the transaction fails and nothing changed |
| `OAuthStore.OAuthRepository.RotateTokenPair` | src/kajet_turbo/repositories/oauth.py:223-274 | the old row is consumed only while unconsumed and unexpired, its access tokens go and the successor pair is stored; a consumed or expired row deletes its family; a missing row changes nothing |
| `OAuthStore.OAuthRepository.DeleteFamilyRows` | src/kajet_turbo/repositories/oauth.py:86-102 | exactly the family's refresh rows and the access rows they back are deleted, and counted |
| `OAuthStore.OAuthRepository.RevokeByAccessToken` | src/kajet_turbo/repositories/oauth.py:545-587 | revokes the family of the backing refresh row, or only the access row when that row is gone; `OAuthOutcomes.AccessRevocationIsComplete` says what that achieves |
| `OAuthStore.OAuthRepository.RevokeByRefreshToken` | src/kajet_turbo/repositories/oauth.py:523-543 | revokes the token's family if the token is stored |
| `OAuthStore.OAuthRepository.DeleteAuthCode` | src/kajet_turbo/repositories/oauth.py:379-388 | says whether this call deleted the code, so only one caller can redeem it |
| `OAuthStore.OAuthRepository.InsertRefreshToken` | src/kajet_turbo/repositories/oauth.py:50-84 | inserts the refresh half of a pair, or fails on a used token |
| `OAuthStore.OAuthRepository.InsertAccessToken` | src/kajet_turbo/repositories/oauth.py:50-84 | inserts the access half, or fails on a used token |
| `OAuthProtocol.RotationGrows` | src/kajet_turbo/auth.py:310-351 | a successor built from a row read earlier has the founding client, user, expiry and family |
| `OAuthProtocol.NoAccessLeft` | src/kajet_turbo/repositories/oauth.py:223-265 | consuming a refresh token leaves no access token of its family |
| `OAuthProtocol.SweepKeeps` | src/kajet_turbo/repositories/oauth.py:609-625 | one expiry per family: the sweep takes all of a family's refresh rows or none |
| `OAuthProtocol.RevokeByAccessKeeps` | src/kajet_turbo/repositories/oauth.py:545-587 | revocation through an access token keeps whole families |
| `OAuthProtocol.RotationKeeps` | src/kajet_turbo/repositories/oauth.py:223-274 | rotation keeps one unconsumed token and one access token per family |
| `OAuthProtocol.IssueKeeps` | src/kajet_turbo/auth.py:231-265 | founding a family keeps the token invariants |
| `OAuthProtocol.ExchangeKeeps` | src/kajet_turbo/auth.py:310-351 | every outcome of the second phase of an exchange keeps them |
| `OAuthProtocol.FinishLoadKeeps` | src/kajet_turbo/auth.py:277-308 | the first phase, which revokes the family of a consumed token, keeps them |
| `OAuthProtocol.StepKeepsTokens` | src/kajet_turbo/auth.py:277-351 | every step of the protocol keeps the token invariants |
| `OAuthProtocol.StepKeepsHeld` | src/kajet_turbo/auth.py:277-308 | rows held between the two phases of an exchange were issued, with the contents held |
| `OAuthProtocol.StepKeepsCodes` | src/kajet_turbo/auth.py:191-227 | every step keeps codes single-use: redeemed once, spent by one family |
| `OAuthProtocol.RunKeeps` | src/kajet_turbo/auth.py:191-351 | the invariants hold after every legal run |
| `OAuthTheorems.RevocationIsComplete` | src/kajet_turbo/repositories/oauth.py:86-102 | deleting a family leaves no access token ever minted in it if and only if a refresh row was left or none was live, and touches no other family |
| `OAuthTheorems.GapIsBounded` | src/kajet_turbo/auth.py:231-265 | an access token ends at most an access lifetime after its family, so a sweep that late leaves the family none |
| `OAuthTheorems.SingleUse` | src/kajet_turbo/repositories/oauth.py:223-274 | in every run a refresh token is rotated at most once, and a family has at most one unconsumed refresh and one live access token |
| `OAuthTheorems.OneGrantPerFamily` | src/kajet_turbo/auth.py:231-265 | all refresh rows a family ever had share client, user and expiry, and scopes stay within the founding grant |
| `OAuthTheorems.OneFamilyPerCode` | src/kajet_turbo/auth.py:211-227 | an authorization code founds at most one family |
| `OAuthTheorems.DeletedStaysDeleted` | src/kajet_turbo/auth.py:310-351 | a deleted family never gains a row again, not even from an exchange that loaded its token before |
| `OAuthTheorems.ReplayRevokes` | src/kajet_turbo/auth.py:310-351 | presenting a rotated token in the second phase deletes its family and issues nothing |
| `OAuthTheorems.RotatedIsReadConsumed` | src/kajet_turbo/auth.py:277-288 | a rotated token that is still stored is read as a consumed row |
| `OAuthTheorems.LoadedReplayRevokes` | src/kajet_turbo/auth.py:288-296 | finishing the load of a consumed row, whatever happened since the read, deletes its family, hands nothing on, and leaves no access token exactly when a refresh row was left or none was live |
| `OAuthTheorems.AccessTokenCanOutliveItsFamily` | src/kajet_turbo/repositories/oauth.py:609-625 | the run in which an access token survives its family's refresh rows and the family's revocation |
| `OAuthOutcomes.AccessRevocationIsComplete` | src/kajet_turbo/repositories/oauth.py:545-587 | revoking a stored access token ends its whole family, refresh rows and access tokens, while the family has a refresh row, and takes exactly that token when it has none; no other family is touched |
| `OAuthOutcomes.RefreshRevocationIsComplete` | src/kajet_turbo/repositories/oauth.py:523-543 | revoking a stored refresh token, consumed or not, ends its whole family and touches no other; a token that is not stored changes nothing |
| `OAuthOutcomes.UserIsForgotten` | src/kajet_turbo/repositories/oauth.py:589-607 | deleting a user's tokens takes exactly the tokens of the families that user founded and the user's codes |
| `OAuthOutcomes.SweepIsExact` | src/kajet_turbo/repositories/oauth.py:609-625 | a sweep takes exactly the refresh rows of families whose expiry has come and the access tokens and codes that have ended |
| `OAuthOutcomes.IssueSucceeds` | src/kajet_turbo/auth.py:231-265 | a redeemed code always becomes a family of one refresh and one access token with the code's client, user and scopes, for thirty days and one hour |
| `OAuthOutcomes.ExchangeRotatesExactly` | src/kajet_turbo/auth.py:310-351 | an exchange rotates if and only if the scopes asked for were granted and the token is stored, unused and its family not over; then one successor replaces it and the family's access token; otherwise nothing is issued, and an unusable stored token ends its family |
| `OAuthOutcomes.AnswerIsExact` | src/kajet_turbo/repositories/oauth.py:223-274 | a rotation answers missing, reused or expired exactly for a token that is not stored, was rotated before, or is unused in a family that is over, and never fails |
| `OAuthOutcomes.LoadIsExact` | src/kajet_turbo/auth.py:277-308 | a load hands the token on if and only if it was unused when read and its family is not over, and otherwise ends the family if the token is still stored |
| `OAuthOutcomes.ReadsAreOwn` | src/kajet_turbo/auth.py:191-209 | a client reads only its own codes and tokens, an expired code is deleted when read, and no other code is |
| `OAuthOutcomes.RedeemIsExact` | src/kajet_turbo/auth.py:211-227 | redeeming succeeds if and only if the code is still stored, and takes exactly it out of the store |
| `JobTable.BackoffGrows` | src/kajet_turbo/repositories/jobs.py:39-41 | retry delays never shrink and never exceed the cap |
| `JobLaws.RetryDelays` | src/kajet_turbo/repositories/jobs.py:39-41 | the delays are 2, 4, 8, ... 256 seconds and then 300 |
| `JobRuns.RequeueOne` | src/kajet_turbo/repositories/jobs.py:366-422 | putting a row back to pending breaks the index exactly when a follow-up is pending |
| `JobRuns.ResetClash` | src/kajet_turbo/repositories/jobs.py:444-459 | resetting a worker's rows breaks the index exactly when one of them has a pending follow-up; the rows never clash with each other |
| `JobRuns.FailClash` | src/kajet_turbo/repositories/jobs.py:366-422 | a failed run's requeue aborts exactly on a pending follow-up |
| `JobRuns.RetryClash` | src/kajet_turbo/repositories/jobs.py:479-496 | a retry aborts exactly on a pending follow-up |
| `JobRuns.AbortsExactly` | src/kajet_turbo/models.py:402-408 | a step aborts if and only if it is a requeue, reset or retry whose key already has a follow-up; an enqueue never does |
| `JobRuns.ClaimKeeps` | src/kajet_turbo/repositories/jobs.py:50-72 | claiming, stale reclaim included, keeps one running row per dedup key |
| `JobRuns.StepKeeps` | src/kajet_turbo/repositories/jobs.py:300-545 | every step keeps the table's invariants |
| `JobRuns.RunKeeps` | src/kajet_turbo/repositories/jobs.py:78-545 | and so does every run |
| `JobTheorems.EveryReachableTable` | src/kajet_turbo/repositories/jobs.py:50-72 | one running row per dedup key across kinds, one pending row per kind and key, and an attempt left for every row that may run |
| `JobTheorems.ReclaimedOnlyWhenStale` | src/kajet_turbo/repositories/jobs.py:50-72 | a held row is claimable exactly when the claim comes later than its last beat plus the staleness window |
| `JobTheorems.LeaseStep` | src/kajet_turbo/repositories/jobs.py:322-343 | no step but the worker's own write or a late claim takes a held row away |
| `JobTheorems.LeaseIsSafe` | src/kajet_turbo/worker.py:135-151 | with timely beats, a claimed row stays running and locked by its worker until that worker's own write, whatever interleaves |
| `JobTheorems.LateWritesAreSuperseded` | src/kajet_turbo/repositories/jobs.py:345-442 | after another worker reclaims the row, the first worker's writes change nothing |
| `JobTheorems.FenceIsPerWorker` | src/kajet_turbo/repositories/jobs.py:345-364 | a late completion of a worker's first run takes effect on its own second claim |
| `JobTheorems.FirstRunCompletesSecond` | src/kajet_turbo/repositories/jobs.py:345-364 | the run from the empty table in which a worker's first run completes its second claim |
| `JobTheorems.FollowUpWaits` | src/kajet_turbo/repositories/jobs.py:60-66 | while a row with a dedup key runs, a pending row with the key stays pending |
| `JobLaws.ClaimTakesMostUrgent` | src/kajet_turbo/repositories/jobs.py:50-72 | a claim takes a ready row of the least priority number, and of those the one due earliest; it takes none if and only if none is ready |
| `JobLaws.ClaimIsExact` | src/kajet_turbo/repositories/jobs.py:300-320 | the claimed row is running and locked by the worker, and nothing else changes |
| `JobLaws.ClaimsGoInOrder` | src/kajet_turbo/repositories/jobs.py:50-72 | of the claims of one moment, by any workers, each takes a row of its own, and rows go in order of priority number and then of due time |
| `JobLaws.FailureIsExact` | src/kajet_turbo/repositories/jobs.py:366-422 | a written failure counts the attempt and then waits for exactly the backoff delay, unlocked, or has failed for good; a worker that lost the row changes nothing |
| `JobLaws.TriedMaxAttemptsTimes` | src/kajet_turbo/repositories/jobs.py:366-422 | a job that fails whenever it runs is tried exactly `max_attempts` times, and waits after each attempt but the last |
| `JobLaws.EnqueueIsExact` | src/kajet_turbo/repositories/jobs.py:78-153 | an enqueue re-arms the pending row of the same kind and key if and only if there is one, moving its time and making it no less urgent; else it adds a row; no other row changes |
| `JobLaws.DebouncedToOne` | src/kajet_turbo/repositories/jobs.py:115-153 | however often a keyed job is enqueued before it runs it is one row, due when the last call said and as urgent as the most urgent call |
| `JobLaws.NewRowIsExact` | src/kajet_turbo/repositories/jobs.py:78-114 | a new row carries what the caller gave, pending, untried and unlocked |
| `JobLaws.ResetIsExact` | src/kajet_turbo/repositories/jobs.py:444-459 | a reset requeues exactly the worker's running rows, due now |
| `JobLaws.RetryIsExact` | src/kajet_turbo/repositories/jobs.py:479-496 | a retry requeues exactly a failed job of the user's own, with all its attempts again |
| `JobLaws.DeletionsAreExact` | src/kajet_turbo/repositories/jobs.py:498-545 | dismissal, sweep and workspace deletion delete exactly the rows they name, and change no other |
| `JobLaws.HoldersWritesAreExact` | src/kajet_turbo/repositories/jobs.py:322-364 | a heartbeat moves exactly the worker's running rows, and a completion takes effect only while the worker has the lock |
| `JobRepository.OrderDoesNotMatter` | src/kajet_turbo/repositories/jobs.py:186-273 | adding unkeyed rows first and keyed rows after gives the table of the original order |
| `JobRepository.OneByOneIds` | src/kajet_turbo/repositories/jobs.py:78-153 | the id each one-by-one enqueue returns is the row that waits under its key in the end |
| `JobRepository.BatchIsOneByOne` | src/kajet_turbo/repositories/jobs.py:186-273 | a batch filled position by position has the table and the ids of the one-by-one enqueues |
| `JobRepository.PriorityNeverRegresses` | src/kajet_turbo/repositories/jobs.py:115-153 | an enqueue never makes a row less urgent, and leaves its identity alone |
| `JobRepository.ChunkOf` | src/kajet_turbo/repositories/jobs.py:222-273 | the entries of one batch, in order |
| `JobRepository.FillIds` | src/kajet_turbo/repositories/jobs.py:222-273 | fills exactly the batch's positions with the ids the upsert returned |
| `JobRepository.Repository.Upsert` | src/kajet_turbo/repositories/jobs.py:115-153 | inserts, or re-arms the one pending row with the key, and returns its id |
| `JobRepository.Repository.EnqueueInSession` | src/kajet_turbo/repositories/jobs.py:78-153 | the table and id of one enqueue, keyed or not |
| `JobRepository.Repository.AddPlainEntries` | src/kajet_turbo/repositories/jobs.py:186-222 | adds the unkeyed entries and keeps the positions of the keyed ones |
| `JobRepository.Repository.UpsertChunk` | src/kajet_turbo/repositories/jobs.py:222-273 | one batch's rows and the key-to-id map it returns, repeated keys included |
| `JobRepository.Repository.WriteChunk` | src/kajet_turbo/repositories/jobs.py:222-273 | one batch, written and its ids filled in |
| `JobRepository.Repository.WriteChunks` | src/kajet_turbo/repositories/jobs.py:222-273 | all batches: the keyed entries in order, every position filled |
| `JobRepository.Repository.EnqueueMany` | src/kajet_turbo/repositories/jobs.py:186-273 | the batched fan-out equals one-by-one enqueues in table and ids, for any length and pattern of keys |
| `JobRepository.Repository.ClaimJob` | src/kajet_turbo/repositories/jobs.py:300-320 | locks an eligible row that no eligible row precedes, or finds that none is eligible; `JobLaws.ClaimTakesMostUrgent` says in columns what precedes |
| `JobRepository.Repository.CommitRows` | src/kajet_turbo/models.py:402-408 | commits a table that respects the index, else raises and keeps the old one |
| `JobRepository.Repository.FailJob` | src/kajet_turbo/repositories/jobs.py:366-422 | requeues with backoff, fails for good after the last attempt, or reports missing, superseded or clash |
| `JobRepository.Repository.ResetRunningToPending` | src/kajet_turbo/repositories/jobs.py:444-459 | requeues all of a worker's running rows and says how many, or none if the index rejects it |
| `LinkReconcile.DirtyRepository.MarkAndEnqueue` | src/kajet_turbo/repositories/link_reconcile.py:19-62 | markers and the workspace's job in one transaction, or nothing when no source is named |
| `LinkReconcile.DirtyRepository.MarkSources` | src/kajet_turbo/repositories/link_reconcile.py:27-44 | inserts each source at generation 1 or bumps it, whatever the order |
| `LinkReconcile.DirtyRepository.AcknowledgeItems` | src/kajet_turbo/repositories/link_reconcile.py:77-102 | deletes exactly the markers still at their acknowledged generation, whatever the 400-row batches |
| `LinkReconcile.WithoutAppend` | src/kajet_turbo/repositories/link_reconcile.py:77-102 | deleting in two batches is deleting in one |
| `LinkReconcile.GenerationCounts` | src/kajet_turbo/repositories/link_reconcile.py:19-62 | between acknowledgements a marker's generation counts its marks |
| `LinkReconcile.RunKeepsPayloads` | src/kajet_turbo/repositories/link_reconcile.py:46-52 | in every run a reconcile job carries the user and workspace its key names |
| `LinkReconcile.KeyTells` | src/kajet_turbo/repositories/link_reconcile.py:50-50 | with user ids that have no colon, a dedup key names one user and one workspace |
| `ReconcileLaws.MarkedJobIsDue` | src/kajet_turbo/repositories/link_reconcile.py:19-62 | after every mark exactly one row waits for the workspace, due at the mark's own time: the row that waited before, changed in time and priority only, or a new one; no other row is touched |
| `ReconcileLaws.MarkedJobIsClaimable` | src/kajet_turbo/repositories/jobs.py:50-72 | with no run of the workspace in the way, it can be claimed at once |
| `ReconcileLaws.SnapshotIsExact` | src/kajet_turbo/repositories/link_reconcile.py:64-75 | a snapshot holds exactly the workspace's marked sources, at their generations |
| `ReconcileLaws.WorkspacesAreApart` | src/kajet_turbo/repositories/link_reconcile.py:19-102 | in every run, moves about other workspaces leave a workspace's markers as they are |
| `ReconcileLaws.ClearedIsEmpty` | src/kajet_turbo/repositories/link_reconcile.py:104-120 | clearing a workspace leaves it no marker |
| `LinkReconcile.AcknowledgesExactly` | src/kajet_turbo/repositories/link_reconcile.py:77-102 | with one run at a time, acknowledging removes a marker if and only if it was acknowledged and not marked since the snapshot |
| `LinkReconcile.SingleFlightIsSole` | src/kajet_turbo/repositories/jobs.py:60-66 | while a run keeps its lease, no other run that holds its own row can acknowledge for the workspace |
| `LinkReconcile.FollowUpReady` | src/kajet_turbo/repositories/jobs.py:60-66 | a mark made during a run leaves a pending follow-up job, whatever other workspaces are deleted |
| `LinkReconcile.CompletionFreesFollowUp` | src/kajet_turbo/repositories/jobs.py:345-364 | the run's completion leaves a follow-up for its user and workspace that can be claimed once due |
| `LinkReconcile.LeftExactly` | src/kajet_turbo/services/reconcile_links_handler.py:108-164 | when a run has completed, a marker is left if and only if it was marked since the snapshot, or was there and not acknowledged |
| `LinkReconcile.NoMarkIsLost` | src/kajet_turbo/models.py:143-149 | a source marked after the snapshot, before or after the acknowledgement, still has its marker when the run has completed, and a job with the marker's user and workspace is pending that can be claimed once due |
| `LinkReconcile.RemovedExactly` | src/kajet_turbo/repositories/link_reconcile.py:77-102 | whatever acknowledges in between, a re-marked marker is deleted if and only if it was removed meanwhile and the marks since number the snapshotted generation |
| `LinkReconcile.LostLeaseLosesAMark` | src/kajet_turbo/repositories/link_reconcile.py:77-102 | the run from empty tables in which a worker that lost its lease deletes a marker set after its snapshot |
| `LinkReconcile.TwoRunsLoseAMark` | src/kajet_turbo/repositories/link_reconcile.py:77-102 | two runs at once would lose a mark, which is why single flight matters |
| `Outbox.InsertByTime` | src/kajet_turbo/repositories/events.py:58-98 | keeps a result ordered by timestamp |
| `Outbox.ReadSince` | src/kajet_turbo/repositories/events.py:58-98 | exactly the owner's events of the wanted kinds at or after the watermark and not excluded, in timestamp order |
| `Outbox.Connection.constructor` | src/kajet_turbo/api/ws.py:59-75 | a connection starts with nothing handled |
| `Outbox.Connection.Deliver` | src/kajet_turbo/api/ws.py:76-134 | a batch advances the watermark and the ids sent at it, event by event, malformed ones included |
| `Outbox.RunKeeps` | src/kajet_turbo/api/ws.py:63-134 | in every run the cursor remembers exactly the events handled at its watermark, and has sent exactly those handled events that decode, all of them the listener's own |
| `Outbox.SentOnceInOrder` | src/kajet_turbo/api/ws.py:63-134 | no event is sent twice on a connection, and events are sent in timestamp order |
| `Outbox.SentIsOwn` | src/kajet_turbo/repositories/events.py:58-98 | in every run a connection is sent only decodable events of its own owner and kinds, as they were published |
| `Outbox.KeptUntilSwept` | src/kajet_turbo/repositories/events.py:100-113 | in every run a stored event stays, unchanged, until a sweep whose cutoff is later than its timestamp |
| `Outbox.OrderlyRunsSkipNone` | src/kajet_turbo/repositories/events.py:32-98 | with publications visible in timestamp order and none swept unread, no relevant event falls behind the cursor |
| `Outbox.NothingIsSkipped` | src/kajet_turbo/api/ws.py:63-134 | then, after one more full poll, a published event has been sent if and only if it is of the listener's owner and kinds and its payload decodes |
| `Outbox.PollHandlesAll` | src/kajet_turbo/api/ws.py:112-134 | the delivery loop over a read is what its single sends do |
| `Outbox.PollSendsExactly` | src/kajet_turbo/repositories/events.py:58-98 | in any run, after a poll a stored event has been sent if and only if it is of the listener's owner and kinds, decodes, and was sent before or is not older than the watermark |
| `Outbox.LateEventsAreNeverSent` | src/kajet_turbo/api/ws.py:63-134 | an event that becomes visible behind the watermark is never sent on that connection |
| `Outbox.ALateEventIsLost` | src/kajet_turbo/api/ws.py:63-134 | a run from the start after which a stored, relevant, well-formed event is never sent |
| `FileHistory.FollowsBySegments` | src/kajet_turbo/repositories/git.py:81-92 | a changed path counts for a followed one if and only if its segments start with the followed path's, whole ones |
| `FileHistory.HistoryIsNewest` | src/kajet_turbo/repositories/git.py:485-541 | the answer for a path is the commits with a change at or below it, in order, and one is passed over only when `limit` of them come before |
| `FileHistory.WalkMisses` | src/kajet_turbo/repositories/git.py:485-541 | a walk over all paths skips no commit that touches one of them |
| `FileHistory.ExhaustedIsFinal` | src/kajet_turbo/repositories/git.py:485-541 | a path whose budget is spent has its whole answer |
| `FileHistory.Matched` | src/kajet_turbo/repositories/git.py:485-541 | exactly the still followed paths that a commit touches, each once |
| `FileHistory.Credit` | src/kajet_turbo/repositories/git.py:485-541 | each matched path gains the commit and loses one from its budget |
| `FileHistory.FileHistories` | src/kajet_turbo/repositories/git.py:485-541 | the shared walk gives each path what a walk of its own gives: the newest `limit` commits with a change whose segments start with the path's |
| `FileHistory.HeadShas` | src/kajet_turbo/repositories/git.py:543-551 | the first commit with a change at or below each path, or none when there is none |
| `Calendar.OrdinalOrder` | src/kajet_turbo/periods.py:59-89 | day numbers order dates as year, month and day do |
| `Calendar.IsoCalendarIsWeekOf` | src/kajet_turbo/periods.py:133-141 | the ISO date names the Monday-to-Sunday week that holds the day |
| `Calendar.IsoYearIsThursdays` | src/kajet_turbo/periods.py:162-169 | an ISO year is the Gregorian year of the week's Thursday |
| `Calendar.LeapYearFormula` | src/kajet_turbo/periods.py:59-89 | counting the lengths of years is the leap-year formula of the Gregorian calendar |
| `Calendar.MonthFormula` | src/kajet_turbo/periods.py:59-89 | and counting the lengths of months is the formula of 153 days for five months |
| `Calendar.KnownThursday` | src/kajet_turbo/periods.py:133-141 | 1 January 1970 is the Thursday with number 719163, in week 1 of 1970 |
| `Calendar.KnownSaturday` | src/kajet_turbo/periods.py:133-141 | 1 January 2005 is the Saturday of week 53 of 2004 |
| `PeriodLaws.KeyNamesFirstDate` | src/kajet_turbo/periods.py:120-141 | parsing a period's key gives the period's first date |
| `PeriodLaws.KeysSortChronologically` | src/kajet_turbo/periods.py:133-141 | within a kind, string order of keys is chronological order, and equal keys are one period |
| `PeriodLaws.ContainingIsPeriod` | src/kajet_turbo/periods.py:43-57 | the period containing a date is well formed and starts at its first date |
| `PeriodLaws.NextIsNext` | src/kajet_turbo/periods.py:59-73 | `next` is the period numbered one higher, and fails exactly on the calendar's last |
| `PeriodLaws.PrevIsPrev` | src/kajet_turbo/periods.py:75-89 | `prev` is the period numbered one lower, and fails exactly on the calendar's first |
| `PeriodLaws.NextAndPrevAreInverse` | src/kajet_turbo/periods.py:59-89 | each undoes the other wherever it succeeds |
| `PeriodLaws.PeriodsPartition` | src/kajet_turbo/periods.py:43-89 | a date is in a period if and only if the period starts by then and its successor, if any, later |
| `PeriodLaws.ParsePeriodKeyInverts` | src/kajet_turbo/periods.py:147-159 | parsing accepts exactly the keys of periods and gives the period back |
| `PeriodLaws.WeekBelongsToItsThursday` | src/kajet_turbo/periods.py:162-169 | a week's key year and its month are those of its Thursday |
| `PeriodLaws.ContainsDay` | src/kajet_turbo/periods.py:96-118 | a period contains a day if and only if it is the period of its kind containing that date |
| `PeriodLaws.YearContainsWeek` | src/kajet_turbo/periods.py:96-118 | a year contains a week if and only if it holds the week's Thursday |
| `PeriodLaws.ContainsExactly` | src/kajet_turbo/periods.py:96-118 | a period contains another if and only if they are the same, or it is of a coarser kind and holds the other's first day, or a week's Thursday; a month and a week raise |
| `Templates.MatchIsSound` | src/kajet_turbo/collections.py:170-195 | a match cuts the whole string into the template's literals and fields |
| `Templates.MatchIsComplete` | src/kajet_turbo/collections.py:170-209 | a string that can be cut is matched, with the longest first ordinal |
| `Templates.OneReading` | src/kajet_turbo/collections.py:170-195 | a template whose ordinals are told apart by a non-digit can be cut in one way only |
| `Templates.RenderedIsMatched` | src/kajet_turbo/collections.py:62-72 | what such a template renders is matched, and the captures are the rendered texts |
| `Templates.CapturedIsRendered` | src/kajet_turbo/collections.py:137-161 | the capture of a field is the text it was rendered with |
| `Readings.SameCapture` | src/kajet_turbo/collections.py:170-195 | a field whose last use no run of digits lets move has the same capture in every reading |
| `Readings.MatchSplits` | src/kajet_turbo/collections.py:170-195 | a match reads a front of the template and then matches the rest as it would alone |
| `Readings.SwallowIsMatched` | src/kajet_turbo/collections.py:198-209 | in a run of several ordinals the greedy match lets the first swallow all it can |
| `Readings.Misread` | src/kajet_turbo/collections.py:137-161 | every field that can move is misread for some ordinal, whatever the date |
| `Collections.RecoverFrom` | src/kajet_turbo/collections.py:137-161 | date recovery answers a date of the calendar, rejects, or cannot tell |
| `Collections.RecoveredDate` | src/kajet_turbo/collections.py:137-161 | from a rendered entry, recovery answers its date, its period's first date, or the first of its month or year |
| `CollectionLaws.EntryTexts` | src/kajet_turbo/collections.py:49-60 | an entry shows its date, its period's key, the year and month it counts for (those of the Thursday for a week), and its ordinal without leading zeros, 1 when there is none |
| `Collections.RenderedValuesFit` | src/kajet_turbo/collections.py:49-60 | every placeholder renders within the form its pattern expects, for every grain |
| `Collections.RenderedIsMember` | src/kajet_turbo/collections.py:100-135 | every entry a readable definition renders for any date and ordinal is recognised |
| `Collections.MembershipIsExact` | src/kajet_turbo/collections.py:100-135 | a path is recognised if and only if some date and ordinal render it |
| `CollectionLaws.SampledMembership` | src/kajet_turbo/collections.py:100-135 | where no date can be recovered, a path is recognised if and only if it is an entry of the sampled window |
| `Recognition.RecognisedExactly` | src/kajet_turbo/collections.py:100-161 | all entries of a date are recognised if and only if the definition is readable: no other ordinal shares a run of digits with the last one, and no ordinals enclose the last use of a field the date comes from |
| `Recognition.SeparatedIsReadable` | src/kajet_turbo/collections.py:170-195 | templates whose ordinals a non-digit tells apart are readable |
| `CollectionEntries.OneOrdinalIsSeparated` | src/kajet_turbo/collections.py:170-195 | a template with at most one ordinal has one reading |
| `CollectionEntries.OnePerSideIsSeparated` | src/kajet_turbo/collections.py:170-195 | so has one with an ordinal in the folder and one in the title |
| `CollectionEntries.OneOrdinalIsRecognised` | src/kajet_turbo/collections.py:100-161 | with at most one ordinal and a date to recover, every entry is recognised, for every grain, date and ordinal |
| `CollectionEntries.AddRenders` | src/kajet_turbo/collections.py:344-373 | adds exactly the paths that a period's sampled ordinals render |
| `CollectionEntries.RenderBetween` | src/kajet_turbo/collections.py:344-373 | the loop visits the periods from the first to the last once each, in order, and stops |
| `CollectionEntries.RenderSet` | src/kajet_turbo/collections.py:344-373 | the sampled window holds exactly the paths its periods render, and each period is visited once |
| `CollectionLaws.WindowIsExact` | src/kajet_turbo/collections.py:344-373 | the window holds a path if and only if a date within five calendar years of today renders it, with an ordinal from 1 to 20 where a date may have many, and there is no window when that leaves the calendar |
| `CollectionEntries.SiblingReadsAtLeast` | src/kajet_turbo/collections.py:74-98 | the sibling pattern reads from an entry with ordinal n a number that is at least n |
| `CollectionEntries.SiblingReadsExactly` | src/kajet_turbo/collections.py:74-98 | where the filled pattern has one reading, it reads exactly n |
| `CollectionEntries.ScopeCoversEntry` | src/kajet_turbo/collections.py:412-428 | the sibling scope covers an entry's own folder if and only if the static prefix has no brace |
| `CollectionLaws.ScopeIsStatic` | src/kajet_turbo/collections.py:412-428 | the scope is the whole folder when it has no placeholder, and otherwise the whole segments of what it renders before the first one |
| `CollectionEntries.UnderBySegments` | src/kajet_turbo/services/collections.py:305-323 | a folder is in scope if and only if its segments start with the prefix's, whole ones |
| `CollectionEntries.NextOrdinal` | src/kajet_turbo/services/collections.py:305-323 | one more than the highest number the sibling pattern reads in scope |
| `CollectionEntries.AllocatesAbove` | src/kajet_turbo/services/collections.py:305-323 | which exceeds the ordinal of every entry of the date |
| `CollectionEntries.AllocatesNext` | src/kajet_turbo/services/collections.py:305-323 | where the filled pattern has one reading and reads only entries of the date, it is the highest existing ordinal plus one |
| `CollectionEntries.BraceAllocatesOne` | src/kajet_turbo/services/collections.py:305-323 | with a brace in the static prefix, a collection of entries always allocates 1 |
| `CollectionEntries.AllocatesFreeExactly` | src/kajet_turbo/services/collections.py:305-323 | the allocated path is free whatever notes there are if and only if the template has an ordinal and no brace in its static prefix |
| `CollectionEntries.BracedIsTaken` | src/kajet_turbo/collections.py:412-428 | the template `a{{b}}/{date}` allocates the path of its first entry again |
| `AdjacentOrdinals.AdjacentOrdinalsBreak` | src/kajet_turbo/collections.py:137-161 | with two adjacent ordinals at the end, an entry is recognised if and only if its ordinal has one digit |
| `AdjacentOrdinals.AllocationJumps` | src/kajet_turbo/services/collections.py:305-323 | with two adjacent ordinals, allocation goes from 12 to 122 |
| `MarkdownText.FindNewline` | src/kajet_turbo/markdown/_tokens.py:43-55 | the end of the next `\r\n`, `\r` or `\n` |
| `MarkdownText.LineOffsets` | src/kajet_turbo/markdown/_tokens.py:43-55 | computes the line offsets |
| `MarkdownText.OffsetsExactly` | src/kajet_turbo/markdown/_tokens.py:43-55 | the offsets are exactly the line starts and the end of the text, ascending, each once |
| `TextLaws.OffsetsEncloseLines` | src/kajet_turbo/markdown/_tokens.py:43-55 | two consecutive offsets enclose one line, with the one or two characters of the newline that ends it |
| `MarkdownText.InkOfLines` | src/kajet_turbo/markdown/chunking.py:120-123 | splitting into lines loses only white space |
| `MarkdownText.InkOfSentences` | src/kajet_turbo/markdown/chunking.py:16-19 | splitting into sentences loses only white space |
| `MarkdownText.SentencesEndSentences` | src/kajet_turbo/markdown/chunking.py:16-19 | every unit but the last ends in a full stop, exclamation or question mark |
| `TextLaws.LinesAreExact` | src/kajet_turbo/markdown/chunking.py:120-123 | a body is cut at each line break, a carriage return with its newline as one, and nowhere else |
| `TextLaws.SentencesAreExact` | src/kajet_turbo/markdown/chunking.py:16-19 | a paragraph is cut at all the white space after each `.`, `!` or `?`, and nowhere else |
| `Sections.OpenHeading` | src/kajet_turbo/markdown/chunking.py:78-86 | pops the headings a new one closes, pushes it and reads off the labels |
| `Sections.OpenIsEnclosing` | src/kajet_turbo/markdown/chunking.py:78-86 | the stack is exactly the headings with no later heading at their level or above, outermost first |
| `Sections.TitleLeads` | src/kajet_turbo/markdown/chunking.py:60-65 | a non-empty title leads the path if and only if no level-one heading encloses the text |
| `Sections.BuildPreamble` | src/kajet_turbo/markdown/chunking.py:69-75 | the text before the first heading, dropped when blank |
| `Sections.BuildSections` | src/kajet_turbo/markdown/chunking.py:56-88 | one section per heading with its body, path and span |
| `Sections.SectionsKeepProse` | src/kajet_turbo/markdown/chunking.py:56-88 | the sections hold exactly the visible text of the lines outside headings |
| `Sections.SectionsAreSlices` | src/kajet_turbo/markdown/chunking.py:82-86 | sections are disjoint slices of the text, in its order |
| `SectionLaws.PreambleIsExact` | src/kajet_turbo/markdown/chunking.py:68-75 | the text before the first heading is a section if and only if some of it is visible, under the title alone |
| `SectionLaws.SectionOfHeading` | src/kajet_turbo/markdown/chunking.py:52-88 | every heading has its section, in order: the text from its lines to the next heading, under the title if it is due and the labels of exactly its enclosing headings, each as many `#` as its level, a space and its text |
| `Merging.CommonPrefix` | src/kajet_turbo/markdown/chunking.py:91-97 | computes the shared prefix of two paths |
| `Merging.SharedIsLongest` | src/kajet_turbo/markdown/chunking.py:91-97 | which is the longest common prefix |
| `Merging.MergeNext` | src/kajet_turbo/markdown/chunking.py:105-116 | folds a section into the last one or appends it |
| `Merging.MergeSmall` | src/kajet_turbo/markdown/chunking.py:100-117 | merging in place folds greedy runs of neighbours, which `MergeLaws.MergesExactlyTheSmall` describes by lengths |
| `Merging.MergedKeepsInk` | src/kajet_turbo/markdown/chunking.py:100-117 | the runs are the sections in order, and merging conserves text |
| `Merging.FoldedStandsForRun` | src/kajet_turbo/markdown/chunking.py:112-114 | a merged section spans its run under the longest path all of it shares |
| `Merging.CeilingIsTargetPlusTwo` | src/kajet_turbo/markdown/chunking.py:108-114 | a merged section exceeds the target by at most two characters |
| `Merging.WithinTargetExactly` | src/kajet_turbo/markdown/chunking.py:108-114 | a merge keeps to the target if and only if the newlines dropped make room for the blank line added |
| `Merging.MergeExceedsTarget` | src/kajet_turbo/markdown/chunking.py:108-114 | a note whose two sections, three characters in all, are merged under a target of three into four |
| `MergeLaws.MergesExactlyTheSmall` | src/kajet_turbo/markdown/chunking.py:100-117 | merging is the one way to cut the sections into runs in which every join keeps to the target and has a side below the minimum, and no break could have been such a join |
| `MergeLaws.BigSectionsStay` | src/kajet_turbo/markdown/chunking.py:111-111 | sections that all reach the minimum are left as they are |
| `MergeLaws.OneBlankLineBetween` | src/kajet_turbo/markdown/chunking.py:112-114 | at a seam the newlines of both sides become one blank line, and nothing else changes |
| `Blocks.Opener` | src/kajet_turbo/markdown/chunking.py:143-143 | the marker a line opens a fence with, and none exactly when it starts with neither |
| `TextLaws.FencesByCharacters` | src/kajet_turbo/markdown/chunking.py:143-143 | a line opens a fence if and only if its first visible characters are three backticks or three tildes |
| `Blocks.SplitBlocks` | src/kajet_turbo/markdown/chunking.py:120-153 | the blocks of a body, as the line groups joined |
| `Blocks.BlocksKeepInk` | src/kajet_turbo/markdown/chunking.py:120-153 | only blank lines are dropped between blocks |
| `Blocks.BlocksAreParagraphsOrFences` | src/kajet_turbo/markdown/chunking.py:120-153 | each block is a run of lines: a paragraph without blank or fence lines, or one fence up to its first closing line or the end |
| `Blocks.FencesAreRecognised` | src/kajet_turbo/markdown/chunking.py:156-163 | splitting an oversized block tells fences from paragraphs as grouping did |
| `TextLaws.BlocksAreExact` | src/kajet_turbo/markdown/chunking.py:120-153 | the blocks are the body's lines between its blank ones: a paragraph goes on to a blank line or a fence, a fence to its closing line or the end |
| `Packing.HardCut` | src/kajet_turbo/markdown/chunking.py:173-175 | the cut loop, which ends for every maximum of at least one |
| `Packing.CutLoopEndsExactly` | src/kajet_turbo/markdown/chunking.py:173-175 | it ends if and only if the maximum is at least one or nothing is left |
| `Packing.CutKeepsInk` | src/kajet_turbo/markdown/chunking.py:173-175 | hard cuts conserve text |
| `Packing.SplitOversizedBlock` | src/kajet_turbo/markdown/chunking.py:156-178 | packs lines or sentences greedily, cutting those that are too long |
| `Packing.OversizedKeepsInk` | src/kajet_turbo/markdown/chunking.py:156-178 | which conserves text, in non-empty pieces no longer than the maximum |
| `Packing.UnitsStayWhole` | src/kajet_turbo/markdown/chunking.py:156-178 | a sentence or line that fits stands whole in one piece |
| `Packing.PackBlock` | src/kajet_turbo/markdown/chunking.py:189-201 | what one block emits and what is held after it |
| `Packing.SplitBody` | src/kajet_turbo/markdown/chunking.py:181-204 | a body whole if it fits, else its blocks packed |
| `Packing.PiecesKeepInk` | src/kajet_turbo/markdown/chunking.py:181-204 | splitting a body conserves text, in pieces no longer than the maximum |
| `Packing.BlocksStayWhole` | src/kajet_turbo/markdown/chunking.py:181-204 | a block that fits stands whole in one piece |
| `Packing.PackingIsGreedy` | src/kajet_turbo/markdown/chunking.py:196-201 | a block joins the held piece if and only if both fit, and otherwise starts the next |
| `PackingLaws.OversizedIsGreedy` | src/kajet_turbo/markdown/chunking.py:156-178 | the lines of an oversized fence are packed greedily and joined by newlines, the sentences of an oversized paragraph by spaces |
| `PackingLaws.CutsAreFull` | src/kajet_turbo/markdown/chunking.py:173-175 | a unit over the maximum is cut into consecutive full pieces and a last one that is not empty |
| `PackingLaws.BodyIsPackedGreedily` | src/kajet_turbo/markdown/chunking.py:181-204 | a body that is too long has its blocks packed greedily, with a blank line between them, when each fits |
| `PackingLaws.BigBlockStandsAlone` | src/kajet_turbo/markdown/chunking.py:189-195 | a block over the maximum shares no piece with a neighbour |
| `Packing.ZeroMaximumNeverEnds` | src/kajet_turbo/markdown/chunking.py:221-225 | with `hard_max` 0, any text reaches the cut loop with a unit that no number of cuts finishes |
| `Chunking.AppendPieces` | src/kajet_turbo/markdown/chunking.py:238-250 | appends the visible pieces, numbered on |
| `Chunking.ChunkMarkdown` | src/kajet_turbo/markdown/chunking.py:207-251 | rejects sizes out of order, and otherwise, wherever the call ends, builds, merges, splits and numbers |
| `Chunking.ReadyExactly` | src/kajet_turbo/markdown/chunking.py:221-237 | every section can be split if and only if `hard_max` is at least 1 or the note has no text outside its heading lines |
| `Chunking.OtherwiseNeverEnds` | src/kajet_turbo/markdown/chunking.py:221-237 | on any other note the code passes over blank sections and reaches the cut loop with a unit that no number of cuts finishes |
| `Chunking.ChunksKeepText` | src/kajet_turbo/markdown/chunking.py:207-251 | the non-blank characters of all chunks, in order, are those of the note's lines outside headings |
| `Chunking.ChunksAreProper` | src/kajet_turbo/markdown/chunking.py:231-251 | every chunk has text, is at most `hard_max` long, and ordinals are 0, 1, 2, ... |
| `Chunking.ChunkStandsForRun` | src/kajet_turbo/markdown/chunking.py:217-219 | a chunk spans a run of sections under the longest path they share |
| `Chunking.ChunkSpansAreOrdered` | src/kajet_turbo/markdown/chunking.py:217-219 | of two chunks the later has the same span or a later, disjoint one |
| `Chunking.BlockStaysInChunk` | src/kajet_turbo/markdown/chunking.py:181-251 | a paragraph or fence that fits stands whole in one chunk |
| `Chunking.SmallSectionIsOneChunk` | src/kajet_turbo/markdown/chunking.py:185-186 | a section within the maximum is one chunk |
| `ChunkLaws.SmallSectionIsItsContent` | src/kajet_turbo/markdown/chunking.py:231-251 | that chunk is the section's content without the newlines around it |
| `ChunkLaws.SplitSectionsAreRuns` | src/kajet_turbo/markdown/chunking.py:227-237 | what is split are the runs of the note's sections that are joined under the caller's own target and minimum |
| `Folders.NormalSegment` | src/kajet_turbo/workspace.py:119-127 | a segment in normal form is non-empty, slash-free and stripped |
| `Folders.NormalizeNormal` | src/kajet_turbo/workspace.py:130-140 | normalization leaves a path of normal segments alone |
| `FolderLaws.FilenameIsSafe` | src/kajet_turbo/workspace.py:119-127 | every name becomes one of 1 to 200 characters, none forbidden, no two spaces in a row, no white space first, and no device name |
| `FolderLaws.NormalExactly` | src/kajet_turbo/workspace.py:119-127 | the names that stay as they are, are exactly those that also end in neither a dot nor white space |
| `FolderLaws.NormalizedTwice` | src/kajet_turbo/workspace.py:119-127 | normalizing twice is normalizing once if and only if the cut leaves no dot or white space at the end |
| `FolderLaws.NormalizedIsSafe` | src/kajet_turbo/workspace.py:130-140 | a normal folder has the file name of each segment asked for, in order; there is none if and only if a segment is `..` |
| `LinkIndex.SplitOfJoin` | src/kajet_turbo/markdown/link_index.py:32-49 | a target joined from normal segments and a title splits back into them |
| `LinkIndex.MatchesBySegments` | src/kajet_turbo/markdown/link_index.py:62-65 | a folder matches if and only if its segments are the last ones of the note's folder |
| `LinkLaws.TargetNames` | src/kajet_turbo/markdown/link_index.py:104-128 | a target names the notes whose path ends in its segments; only when there are none, and it is allowed, those whose casefolded path ends in its casefolded segments |
| `LinkLaws.ClimbingNamesNothing` | src/kajet_turbo/markdown/link_index.py:32-44 | a target whose folder climbs out with `..` names no stored note, casefolded or not |
| `LinkLaws.SplitIsBare` | src/kajet_turbo/markdown/link_index.py:32-44 | splitting gives a title without slashes or white space around it, and a folder of safe names unless it climbs out |
| `LinkIndex.ComputeSharedDepth` | src/kajet_turbo/markdown/link_index.py:52-59 | the length of the longest shared lead of two paths |
| `LinkIndex.BetterTotal` | src/kajet_turbo/markdown/link_index.py:104-139 | the rank is total and strict on notes with different paths |
| `LinkIndex.BetterTransitive` | src/kajet_turbo/markdown/link_index.py:104-139 | and transitive |
| `LinkIndex.RankingIsUnique` | src/kajet_turbo/markdown/link_index.py:104-139 | a set of candidates has one ranking, so listing order cannot matter |
| `LinkIndex.SortByRank` | src/kajet_turbo/markdown/link_index.py:104-139 | the candidates in rank order |
| `LinkIndex.FullPathDenotes` | src/kajet_turbo/markdown/link_index.py:104-139 | a full path denotes its note in every index that has it, from any folder, with or without the fallback |
| `LinkLaws.DenotesThePreferred` | src/kajet_turbo/markdown/link_index.py:128-139 | a note is denoted if and only if every other candidate is worse: not at the target's own path when it is, or else sharing less of the source folder, or else deeper, or else later by folder and title |
| `LinkLaws.ChosenIsNearest` | src/kajet_turbo/markdown/link_index.py:128-139 | the chosen note has the target's own path if any candidate has; if not, no candidate shares a longer lead with the source folder |
| `LinkLaws.OwnFolderWins` | src/kajet_turbo/markdown/link_index.py:128-139 | a candidate in the source's own folder wins over every candidate elsewhere, subfolders included, but a note at the target's own path |
| `LinkIndex.Index.constructor` | src/kajet_turbo/markdown/link_index.py:86-93 | the title map holds exactly the listed notes |
| `LinkIndex.Index.CasefoldIndex` | src/kajet_turbo/markdown/link_index.py:95-102 | the lazily filled map groups exactly the same notes by casefolded title |
| `LinkIndex.Index.Lookup` | src/kajet_turbo/markdown/link_index.py:104-128 | the candidates a plain scan finds, and whether the fallback was used |
| `LinkIndex.Index.ResolveDetailed` | src/kajet_turbo/markdown/link_index.py:104-139 | the ranking of a plain scan, or nothing when the scan finds nothing; `LinkLaws.DenotesThePreferred` says in segments what ranks first |
| `LinkIndex.Index.Resolve` | src/kajet_turbo/markdown/link_index.py:141-145 | the best note of a plain scan |
| `LinkIndex.Index.ShortestTarget` | src/kajet_turbo/markdown/link_index.py:147-165 | the written link denotes its note from the same folder, with or without the fallback, and no shorter allowed suffix does |
| `LinkIndex.Index.TrySuffix` | src/kajet_turbo/markdown/link_index.py:147-165 | whether one suffix of a note's path resolves back to it |

## Left out

- `upsert_access_token`, `upsert_refresh_token` and `delete_refresh_token` are left out: the provider does not call them and they bypass the family discipline.
- Password hashing, key sealing, PKCE, redirect checks and token randomness: foreign calls, replaced by the assumption that generated ids are unused.
- OAuth client registration and the HTTP endpoints around the provider: routing.
- The access token lifetime, 3600 seconds, comes from a library constant and is fixed in the model.
- SQLAlchemy and SQLite: each transaction is one atomic step on maps; among equally ranked rows a query may return any order, and the model allows every one.
- Dulwich: the repository's history is a sequence of commits with the paths each changed.
- `run_job` logging, metrics and handler dispatch: a run is its claim and its lifecycle write.
- The heartbeat's thread scheduling: `JobTheorems.LeaseIsSafe` takes as hypothesis that no claim comes later than the last beat plus the staleness window, which is what the interval guards of `run_worker` are for.
- Chunking.ChunkMarkdown: requires that the call ends; on the rest of what the guard admits the code runs forever, as `Chunking.OtherwiseNeverEnds` shows.
- LinkReconcile.NoMarkIsLost: runs that acknowledge are taken to hold their rows then, which is single flight; `LinkReconcile.RemovedExactly` says exactly what one that lost its lease can delete, and `LinkReconcile.LostLeaseLosesAMark` gives a run.
- The link-reconcile handler's stability passes: a run is a snapshot, an opaque rebuild, and an acknowledgement of part of that snapshot.
- Templates.MatchIsSound: `\d` matches ASCII digits only; other Unicode digits are rejected later by the comparison with the rendered path.
- Collections.RenderedIsMember: format specs and conversions in placeholders are not modelled, and a year-grain template has no `{month}`, as the schema demands.
- Loading and validating collection YAML, `collides` and `dropped_members`: schema checks and sampling.
- The Markdown parser: headings enter as ordered, disjoint line ranges with levels 1 to 6.
- `embedded_text` and the embedding pipeline: string concatenation and network calls.
- Sections and merged sections are values: the source copies each section before it changes one in place, so no aliasing is lost.
- Folders.NormalizeNormal: holds on paths already in normal form, because cutting a name at 200 characters can leave a trailing space or dot and is not idempotent.
- Unicode casefolding: an arbitrary function on strings; `LinkLaws.TargetNames` and `LinkLaws.ClimbingNamesNothing` ask that it works segment by segment and folds nothing to `..`.
- `rewrite_wikilinks` and `extract_wikilinks`, flock and RLock plumbing, notices, profiles, sessions, the query cache, the frontend and migrations: easy facts or plumbing.
