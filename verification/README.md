# IP risk agent: a verified model

A Dafny model of the parts of the IP risk agent that carry state over whole runs, with proofs of what they
keep. `dafny verify dfyconfig.toml` checks all of it.

- **Desktop capture and delivery** (`ChangeEvents`, `Watcher`, `WatcherRuns`, `WatcherHistory`,
  `WatcherLateness`, `WatcherDisk`, `LocalWatcher`, `DeliveryQueue`, `RetryingQueue`, `EndToEnd`,
  `EndToEndOverflow`): file events are debounced per path, a delete and a later create of equal content
  become a move, and a queue delivers the events one at a time with retries. Time is a natural number and
  file content is an input. Timers are deadlines that fire in deadline order, ties in any order; that order
  across the two durations is an assumption about the timer loop, and `WatcherLateness` replaces it by a
  bound on how late a callback may run. `Capture` and `RetryingDesktopEventQueue` are the classes; their
  methods are proved against the state machines over which the run theorems are stated.
- **Risk exclusion and revival** (`RiskLedger`, `RiskSteps`, `RiskRuns`, `RiskUnitOfWork`): risks and their
  append-only history under detection, exclusion, revival, review, sighting and absence.
- **Maintenance** (`Paging`, `Cursor`, `Base64`, `Json`, `Cleanup`, `CleanupRuns`, `Scheduler`): pages over
  several sorted stores behind an opaque cursor, and the cleanup that deletes what it pages over, with other
  writers between any two page reads and deletions.
- **Device enrolment** (`DeviceStore`, `DeviceAuth`, `DeviceRaces`, `DeviceRaceRuns`, `DeviceLookups`):
  challenges, credentials and revocation. `DeviceAuth` is the service over the in-memory store, which never
  suspends, so that a call is one step from its first look at the devices to its last write. `DeviceRaces`
  is the service over the store that writes several documents, where every read and write is a step, any
  calls overlap, and one exchange at a time is a hypothesis where it is used; `DeviceRaceRuns` builds the
  runs of it that go wrong. `DeviceLookups` adds the lookups by credential, whose two reads are steps of
  their own.
- **Workspace erasure** (`Eraser`): attempts that may stop after any single deletion.
- **Worker pipeline** (`Pipeline`, `PipelineAnswers`, `Completeness`): one run against collaborators that
  may answer or raise anything, as a chain of stages and an exception ladder, which `PipelineAnswers`
  relates to the collaborators' answers read off one after the other.
- **Rate limiter** (`RateLimit`): sliding-window buckets.
- **Registration** (`StableKey`, `FileIds`, `DriveMounts`): identity keys over a hash whose digests hold no
  colon and no white space and do not collide, and Drive mount calls one after the other and overlapping.

The classes and methods follow the source's loops and updates; each is proved equal to a function of the old
state, and the theorems are about runs of those functions. What an operation selects, removes, refuses or
reports is also stated in the fields of its inputs (`WatcherHistory`, `RiskSteps`, `PipelineAnswers` and the
lemmas named `...Exactly`, `...InFields` and `...FirstThingAmiss`). `Options` and `Text` are helpers.

Where the code does not keep what its documentation, or its shape, suggests, the model keeps the code and
the theorem states when the property holds:

- Replay agrees with the cache only if the move window is shorter than the debounce. The product's durations
  are, and any configuration that is not has a run that ends with a file lost. If callbacks may run late and
  out of order, the margin between the two durations is exactly the lateness they tolerate.
- An event refused by a full queue is lost, because the watcher updated its cache before offering it; every
  capacity has a history that ends with the server showing other content than the disk. With anything
  refused, the server is right at a path exactly when the last accepted event about it says what the
  watcher's last one said.
- A change that the path filter, the root guard or the size limit keeps out leaves the receiver wrong,
  unless what is pending or cached comes out right anyway; the guard is exact.
- Revival restores the earlier judgement only if the last exclusion is also listed last; the listing breaks
  ties of time by event id, so exclusions at one instant can be read in the wrong order.
- An analysis that repeats an earlier observation appends no event; if the risk had been excluded since, it
  comes back and the history does not say so.
- A lookup by credential reads an entry and then a device, and nobody compares the credential the device
  holds. A completely revoked credential is let in by a lookup that has its device enrolled again between
  its two reads; comparing would rule that out.
- A revocation takes no lock. Over the document store it can overlap a re-enrolment so that the earlier
  credential authenticates the active device again; the condition is a stale write on an active device.
- The lock of the exchange is one process's. Two processes can get two credentials out of one challenge, or
  enrol one new device for two owners.
- The first look for a newer change is outside the pipeline's `try`: if it raises, the claimed job ends
  without a recorded failure. A missing-adapter error after the fetch ends the job without cleanup.
- A stored credential reference that the vault refuses stops every erasure attempt in front of it. A
  surviving document loses its secret if one that goes refers to the same one.
- Each erasure attempt reads the mounts anew. A record that one attempt removed is gone although the next
  would have left it, if another workspace mounted the connection in between; otherwise retries agree.
- A connection activated between the cleanup's read and its deletion is deleted; a deletion hits a document
  that is no candidate only if another writer put it there after the read, and then always.
- The files tracked for a folder are read outside the lock, so overlapping calls can drop each other's
  files. Registration keys ignore trailing white space in the folder id.
- An empty credential has no document key, where the in-memory store answers that no device has it.

## Model

| member | source | states |
|---|---|---|
| `WatcherRuns.ReplayIsCachePlusInFlight` | apps/desktop/watcher/watcher.ts:162-233 | With the move window shorter than the debounce, in every run the replayed log is exactly the cache together with the deletes still in flight, the two are disjoint, and every DELETE and MOVE names a path the replay holds |
| `WatcherRuns.FaithfulExactlyWhenWindowIsShorter` | apps/desktop/watcher/watcher.ts:102-104 | Replay reaches the cache in every settled run if and only if the move window is shorter than the debounce |
| `WatcherRuns.ProductIsFaithful` | apps/desktop/watcher/watcher.ts:86 | The shipped durations, 3000 ms and 2000 ms, meet that condition |
| `WatcherRuns.LateDeleteBreaksReplay` | apps/desktop/watcher/watcher.ts:187-191 | For every configuration that does not: a run whose late DELETE wipes out a file that exists again |
| `WatcherRuns.NoFlushWhileDeleteRuns` | apps/desktop/watcher/watcher.ts:169-233 | No event of a path is flushed while that path's own delete timer runs |
| `WatcherRuns.DeletesAreConserved` | apps/desktop/watcher/watcher.ts:187-215 | For any two durations, the flushed deletes of known paths are as many as the DELETE events, the MOVE events away and the timers still running, even when deleted files share a hash |
| `WatcherRuns.EveryRunCanSettle` | apps/desktop/watcher/watcher.ts:162-233 | Once raw events stop, every run extends by callbacks alone, and boundedly many, to a settled one |
| `WatcherHistory.LogIsReported` | apps/desktop/watcher/watcher.ts:162-268 | For any two durations and callbacks at any time, the log is what the steps of the run alone amount to, told without timers, cache or remembered deletes: which raw event each flush answers, which content was held, which removal a new file matches |
| `WatcherHistory.MoveExactlyWhenRemovedLast` | apps/desktop/watcher/watcher.ts:195-224 | A flushed new file is reported as the move of a path if and only if, of all flushed removals, delete timers that ran and new files with its content, the last was the removal of that path; otherwise it is one CREATE, and a flushed change is one UPDATE |
| `WatcherHistory.EndedTimersNeverRun` | apps/desktop/watcher/watcher.ts:187-204 | A removal that has become a move is never reported as a delete, and none is reported twice |
| `WatcherHistory.NothingRunsEarly` | apps/desktop/watcher/watcher.ts:187-233 | A path is flushed no earlier than a debounce after its last admitted event, and a removal reported no earlier than a move window after its flush |
| `Watcher.StepKeepsInv` | apps/desktop/watcher/watcher.ts:162-233 | Whatever the two durations are, cache, remembered deletes, timers and log stay consistent over every raw event, timer and flush, as long as no flush finds its own path's delete timer running |
| `Watcher.NoTimerOnFlush` | apps/desktop/watcher/watcher.ts:187-191 | The timing argument itself: with the window the shorter duration and callbacks in deadline order, a due flush finds no delete timer of its own path |
| `WatcherLateness.FaithfulExactlyWithinTheMargin` | apps/desktop/watcher/watcher.ts:187-233 | With due callbacks in any order, as a stalled timer loop may run them, each late by less than a given slack, replay reaches the cache in every settled run if and only if the debounce exceeds the move window by at least that slack |
| `WatcherLateness.OvertakenDeleteBreaksReplay` | apps/desktop/watcher/watcher.ts:187-191 | Otherwise a run in which a flush overtakes its own path's delete timer and the file is lost |
| `WatcherLateness.LateFlushIsOnTime` | apps/desktop/watcher/watcher.ts:187-233 | The reason, without any order: by the time a flush is due its path's delete timer has run |
| `WatcherLateness.ProductToleratesASecond` | apps/desktop/watcher/watcher.ts:86 | The shipped durations tolerate exactly callbacks less than a second late |
| `WatcherDisk.SettledReplayIsDisk` | apps/desktop/watcher/watcher.ts:195-224 | Replaying the log of a settled run shows a path as it is on disk if and only if the path's latest change was admitted or came out right anyway, which what is pending or cached decides beforehand; and the whole disk if and only if that holds of every path |
| `WatcherDisk.ShownThroughoutExactlyWhenNoneSlips` | apps/desktop/watcher/watcher.ts:235-268 | Over every disk run, the watcher is at every point bound to show the disk if and only if no refused change meets that guard |
| `WatcherDisk.RefusedRewriteStaysStale` | apps/desktop/watcher/watcher.ts:256-265 | A refused rewrite with any other content leaves the receiver with the old content |
| `LocalWatcher.Capture.HandleRawEvent` | apps/desktop/watcher/watcher.ts:235-268 | For any two durations, the handler takes the watcher to the specified next state: an event kept out changes nothing, an admitted one is debounced |
| `LocalWatcher.Capture.ScheduleFlush` | apps/desktop/watcher/watcher.ts:226-233 | Scheduling replaces the path's pending entry and restarts its debounce |
| `LocalWatcher.Capture.FlushPath` | apps/desktop/watcher/watcher.ts:162-224 | For any two durations, a flush takes the watcher to the specified next state, for a path that is pending or not, cached or not, readable or not, and keeps the invariant when it is on time |
| `LocalWatcher.Capture.FlushDeleted` | apps/desktop/watcher/watcher.ts:169-193 | A flushed delete of a cached path starts one timer and remembers it under its hash; an unknown path is dropped |
| `LocalWatcher.Capture.FlushContents` | apps/desktop/watcher/watcher.ts:195-224 | A flushed create of awaited content becomes a MOVE from the remembered path and stops that timer; a create or update of any other content is reported as it is |
| `LocalWatcher.Capture.DeleteTimerFired` | apps/desktop/watcher/watcher.ts:187-190 | A firing timer reports the delete and forgets the hash |
| `ChangeEvents.ApplyTwice` | apps/desktop/main/desktop-event-queue.ts:51-60 | Applying an event twice in a row is applying it once, which is what makes redelivery harmless |
| `DeliveryQueue.EveryInterleaving` | apps/desktop/main/desktop-event-queue.ts:29-74 | In every interleaving of offers, successes, failures, delays and finalizers: acknowledged followed by pending is what was accepted, in order; at most one drain runs; a non-empty queue has one running or about to restart; the length stays within capacity; waits stay between 500 and 30000 ms and do not shrink before a success |
| `DeliveryQueue.AcceptedOnlyGrows` | apps/desktop/main/desktop-event-queue.ts:29-58 | Accepted and acknowledged events are never taken back |
| `DeliveryQueue.ServerSeesInOrder` | apps/desktop/main/desktop-event-queue.ts:51-74 | The server receives the accepted events in order, each acknowledged one at least once, with repeats of the head only |
| `DeliveryQueue.RepeatsAreHarmless` | apps/desktop/main/desktop-event-queue.ts:51-74 | The replay of such a reception is the replay of the events delivered once each |
| `DeliveryQueue.BackoffGrowsWithinBounds` | apps/desktop/main/desktop-event-queue.ts:60 | The waiting times grow with the failures and stay within their bounds |
| `DeliveryQueue.WaitsDouble` | apps/desktop/main/desktop-event-queue.ts:60 | After a success the first wait is 500 ms and each later one twice the one before, up to 30 s |
| `DeliveryQueue.AttemptsAreFailuresSinceSuccess` | apps/desktop/main/desktop-event-queue.ts:55-70 | In every interleaving the attempt count is the number of failed reports since the last one that succeeded |
| `RetryingQueue.RetryingDesktopEventQueue.EnqueueEvent` | apps/desktop/main/desktop-event-queue.ts:29-38 | Enqueueing refuses exactly when full, and otherwise takes the queue to the specified state with a drain running |
| `RetryingQueue.RetryingDesktopEventQueue.StartDrain` | apps/desktop/main/desktop-event-queue.ts:44-49 | A drain is started only when none is running |
| `RetryingQueue.RetryingDesktopEventQueue.ReportSucceeded` | apps/desktop/main/desktop-event-queue.ts:55-58 | A success removes the head and resets the attempt count |
| `RetryingQueue.RetryingDesktopEventQueue.ReportRejected` | apps/desktop/main/desktop-event-queue.ts:59-72 | A failure keeps the head, counts the attempt, tells the sink on the first and every eighth one, and waits |
| `RetryingQueue.RetryingDesktopEventQueue.DelayElapsed` | apps/desktop/main/desktop-event-queue.ts:71-73 | After the wait the loop goes on with the same head, or ends when nothing is pending |
| `RetryingQueue.RetryingDesktopEventQueue.DrainSettled` | apps/desktop/main/desktop-event-queue.ts:34-37 | The finalizer frees the drain and starts another when events arrived meanwhile |
| `EndToEnd.ServerShowsAPrefix` | apps/desktop/main/desktop-event-queue.ts:51-74 | With nothing refused, the server's replayed map is at every moment the replay of some prefix of the watcher's log, at most one event ahead of the acknowledgements |
| `EndToEnd.ServerConvergesToDisk` | apps/desktop/watcher/watcher.ts:200-223 | With the queue empty and all timers quiet, the server shows the cache, and a path as it is on disk if and only if its latest change did not slip past the watcher |
| `EndToEnd.NothingLostExactlyWhenNothingRefused` | apps/desktop/main/desktop-event-queue.ts:30-32 | The queue has accepted the whole log if and only if it never was full at an enqueue: the watcher updates its cache first, so a refused event is lost |
| `EndToEnd.ServerShowsThePathExactlyWhen` | apps/desktop/main/desktop-event-queue.ts:30-32 | However many events were refused, with the queue empty and all timers quiet the server shows the cache at a path if and only if the last accepted event about the path says the same as the watcher's last one; it does wherever the latest event was accepted, and there the server shows the disk if and only if nothing slipped |
| `EndToEnd.ReplayIsLastWord` | apps/desktop/main/desktop-event-queue.ts:51-60 | What a replayed log shows at a path is what its last event about that path says, moves included |
| `EndToEndOverflow.OverflowLosesAChange` | apps/desktop/main/desktop-event-queue.ts:30-32 | For every capacity there is a history in which an event meets a full queue, and after draining and settling the server still differs from the cache and the disk, although nothing slipped past the watcher |
| `RiskRuns.StepKeepsInv` | backend/src/ip_risk_agent/application/risk_exclusion.py:60-104 | Every detection, exclusion, revival, review, sighting, repeated sighting that appends nothing, and absence keeps the ledger invariant: ordered times, a resolved time on every RESOLVED risk, and an EXCLUDED risk's last exclusion record describing the risk as it still is |
| `RiskRuns.UnrecordedExactlyWhenRepeated` | backend/src/ip_risk_agent/application/risk_reconcile/service.py:1001-1013 | A disposition changes without a record in the history if and only if an analysis repeats an observation of an excluded risk |
| `RiskRuns.RepeatedReportHidesARevival` | backend/src/ip_risk_agent/application/risk_reconcile/service.py:328-426 | Such a run: the excluded risk comes back and the history still ends with its exclusion |
| `RiskRuns.SavesAreAllowed` | backend/src/ip_risk_agent/application/repositories/in_memory.py:597-627 | In every such step each saved risk obeys the repository's rule on identity and review version, and only the addressed risk changes |
| `RiskRuns.HistoryKnowsThePredecessor` | backend/src/ip_risk_agent/application/risk_exclusion.py:44-51 | In every run, the last exclusion record of an EXCLUDED risk names the disposition and revision the risk truly held before, taken from the run itself |
| `RiskRuns.ScanReadsLatest` | backend/src/ip_risk_agent/application/risk_exclusion.py:239-269 | The backward scan reads the last exclusion appended if and only if the repository also lists it last, which ties of time and event id can prevent |
| `RiskRuns.RevivalRestores` | backend/src/ip_risk_agent/application/risk_exclusion.py:198-236 | In every run, reviving at the recorded revision restores the disposition held before the exclusion when that record is listed last; another or a missing revision gives UNREVIEWED |
| `RiskRuns.RevivalRestoresExactly` | backend/src/ip_risk_agent/application/risk_exclusion.py:239-269 | At the recorded revision the judgement comes back if and only if no exclusion record tied in time with the last one appended has a greater event id, or the tied record with the greatest id reads as the same judgement |
| `RiskRuns.LaterExclusionIsListedLast` | backend/src/ip_risk_agent/application/risk_exclusion.py:79-80 | An exclusion later than the risk's last sighting is always listed last |
| `RiskRuns.TiedExclusionsLoseTheJudgement` | backend/src/ip_risk_agent/application/repositories/in_memory.py:701-706 | A run with tied times in which an accepted judgement is lost on revival, against the documented promise |
| `RiskLedger.ScanFindsLatest` | backend/src/ip_risk_agent/application/risk_exclusion.py:252-258 | The scan answers for an exclusion that no other exclusion comes after in the listing order |
| `RiskLedger.ListedInOrder` | backend/src/ip_risk_agent/application/repositories/in_memory.py:701-706 | A risk's events are listed by time and event id |
| `RiskSteps.ClosingLeaves` | backend/src/ip_risk_agent/application/risk_exclusion.py:74-102 | An exclusion leaves a resolved, EXCLUDED risk one version on, resolved at the latest of the given time, its first and its last sighting, and records what was held, at which revision, and that time |
| `RiskSteps.RevivalLeaves` | backend/src/ip_risk_agent/application/risk_exclusion.py:204-234 | A revival leaves an EXISTING risk one version on that is not EXCLUDED, seen and updated at the latest of the given time, its last sighting and its last update, and records what came back |
| `RiskSteps.ReviewTakesEffectExactlyWhen` | backend/src/ip_risk_agent/application/risk_review/service.py:104-146 | A user's choice takes effect, on that one risk and with one record, if and only if it was made on the current version, is not the judgement already held, and neither is EXCLUDED; otherwise nothing changes |
| `RiskSteps.SightingIsRecordedExactlyOnce` | backend/src/ip_risk_agent/application/risk_reconcile/service.py:318-426 | Every sighting saves the risk at the new revision, an excluded one as new and unreviewed; it is recorded if and only if the risk has no event of that id yet |
| `RiskSteps.AbsenceResolvesExactlyWhen` | backend/src/ip_risk_agent/application/risk_reconcile/service.py:505-539 | An absence resolves a risk and records it if and only if it was not resolved, and leaves its judgement |
| `RiskSteps.DetectionAddsOne` | backend/src/ip_risk_agent/application/risk_reconcile/service.py:296-316 | A detection adds one new, unreviewed risk of that revision with one record, and changes no other |
| `RiskSteps.SuccessorsAreAllowed` | backend/src/ip_risk_agent/application/repositories/in_memory.py:597-629 | What the repository takes in the place of a risk, field by field: same identity and first sighting, the version one higher if and only if the disposition differs, times in order |
| `RiskUnitOfWork.ExclusionIsExact` | backend/src/ip_risk_agent/application/risk_exclusion.py:60-104 | A bulk exclusion changes exactly the selected, not yet excluded risks and appends exactly one record for each, in listing order |
| `RiskUnitOfWork.ExclusionInFields` | backend/src/ip_risk_agent/application/risk_exclusion.py:60-128 | A bulk exclusion closes a row if and only if its workspace is the given one, its artifact among the given ones and it is not EXCLUDED, and leaves every other row as it was |
| `RiskUnitOfWork.RevivalInFields` | backend/src/ip_risk_agent/application/risk_exclusion.py:198-214 | A bulk revival brings a row back if and only if its workspace and artifact are the given ones and it is EXCLUDED, and leaves every other row as it was |
| `RiskUnitOfWork.ExcludingTwiceEqualsOnce` | backend/src/ip_risk_agent/application/risk_exclusion.py:74-78 | Excluding the same set again changes neither risks nor history |
| `RiskUnitOfWork.ExcludeKeepsInv` | backend/src/ip_risk_agent/application/risk_exclusion.py:60-104 | A bulk exclusion keeps the ledger invariant |
| `RiskUnitOfWork.ReviveKeepsInv` | backend/src/ip_risk_agent/application/risk_exclusion.py:168-236 | A bulk revival keeps the ledger invariant |
| `RiskUnitOfWork.RevivalIsExact` | backend/src/ip_risk_agent/application/risk_exclusion.py:198-236 | A bulk revival gives each selected risk what reviving it alone gives, leaves every other risk as it was, and appends exactly one record per risk that comes back, in listing order |
| `RiskUnitOfWork.UnitOfWork.Save` | backend/src/ip_risk_agent/application/repositories/in_memory.py:597-627 | A save replaces exactly that risk, or refuses an unknown risk, another identity or a wrong version and changes nothing |
| `RiskUnitOfWork.UnitOfWork.AppendEvent` | backend/src/ip_risk_agent/application/repositories/in_memory.py:693-699 | Appending adds one event, or refuses a used id or an unknown risk and changes nothing |
| `RiskUnitOfWork.UnitOfWork.ExcludeRisks` | backend/src/ip_risk_agent/application/risk_exclusion.py:60-128 | The loop over the listed risks closes exactly the not yet excluded rows of the workspace whose artifact is among the given ones, is never refused by the repository, and returns the closed ids in the order of their records |
| `RiskUnitOfWork.UnitOfWork.ExcludeMountRisks` | backend/src/ip_risk_agent/application/risk_exclusion.py:131-158 | Excluding a mount closes exactly the not yet excluded rows of the workspace whose artifact belongs to that mount, leaves every other row, and returns the closed ids in the order of their records |
| `RiskUnitOfWork.UnitOfWork.ReviveRisk` | backend/src/ip_risk_agent/application/risk_exclusion.py:201-235 | Reviving one risk pairs the saved risk with one appended event |
| `RiskUnitOfWork.UnitOfWork.ReviveArtifactRisks` | backend/src/ip_risk_agent/application/risk_exclusion.py:168-236 | The loop over the listed risks brings back exactly the EXCLUDED rows of that workspace and artifact, leaves every other row, and returns the revived ids in the order of their records |
| `RiskUnitOfWork.ScanHistory` | backend/src/ip_risk_agent/application/risk_exclusion.py:252-269 | The loop from the newest event backwards computes the specified scan |
| `Paging.PageSplits` | backend/src/ip_risk_agent/composition/scheduler_operations.py:261-293 | A page is exactly the next stretch of what remains from a position, and a page with a continuation is full |
| `Paging.AfterResumes` | backend/src/ip_risk_agent/gcp/operational_firestore.py:172-188 | Resuming after a record's id skips exactly the records up to it |
| `Paging.SweepVisitsEverythingOnce` | backend/src/ip_risk_agent/composition/scheduler_operations.py:261-293 | Following the continuation from none to none visits every record of every source once, in order, in finitely many pages of at most the limit |
| `Cursor.CursorRoundTrip` | backend/src/ip_risk_agent/composition/scheduler_operations.py:305-339 | A cursor decodes to exactly the position it was made for, and is rejected by every other operation |
| `Cursor.CursorHolds` | backend/src/ip_risk_agent/composition/scheduler_operations.py:305-311 | A cursor is the encoding of its version, operation, source and last document read, or null |
| `Cursor.TakenExactlyWhenItSaysSo` | backend/src/ip_risk_agent/composition/scheduler_operations.py:314-339 | Any string is taken for a cursor of an operation if and only if its payload says version 1, that operation and a source, and of a last document nothing else than its name or null; then it leads exactly there |
| `Cursor.CursorsAreDistinct` | backend/src/ip_risk_agent/composition/scheduler_operations.py:305-311 | Different positions or operations never share a cursor |
| `Base64.DecodeInvertsEncode` | backend/src/ip_risk_agent/composition/scheduler_operations.py:311-319 | Unpadded base64url (section 5 of RFC 4648) decodes to the bytes it was made of |
| `Base64.TestVectors` | backend/src/ip_risk_agent/composition/scheduler_operations.py:305-312 | The test vectors of section 10 of RFC 4648, and the two symbols of the URL-safe alphabet |
| `Json.ParseInvertsObject` | backend/src/ip_risk_agent/composition/scheduler_operations.py:306-310 | A printed flat object (section 4 of RFC 8259) reads back as its members |
| `Json.ParseInvertsArray` | backend/src/ip_risk_agent/core/common.py:71-75 | A printed array of strings (section 5 of RFC 8259), escapes and surrogate pairs included, reads back as its items |
| `Scheduler.ReadSources` | backend/src/ip_risk_agent/composition/scheduler_operations.py:270-293 | The loop over the sources reads exactly the specified page |
| `Scheduler.PageSources` | backend/src/ip_risk_agent/composition/scheduler_operations.py:261-293 | One call decodes its cursor, reads that page and encodes where it stopped, or answers with an error |
| `Scheduler.CursorsResumeThePage` | backend/src/ip_risk_agent/composition/scheduler_operations.py:261-339 | The cursor a call hands out makes the next call go on exactly where the page stopped |
| `Scheduler.RefusedExactlyWhenTheCursorIsBad` | backend/src/ip_risk_agent/composition/scheduler_operations.py:267-269 | A call is refused if and only if its cursor does not decode or names a source that there is not |
| `Scheduler.CallsVisitEverythingOnce` | backend/src/ip_risk_agent/composition/scheduler_operations.py:261-339 | Sending each call's cursor string back, from none until none, visits every record of every source once, in order, in finitely many pages of at most the limit |
| `Scheduler.MaintenanceStore.Delete` | backend/src/ip_risk_agent/gcp/operational_firestore.py:329-332 | A deletion removes exactly the document of that id, or fails and changes nothing |
| `Scheduler.MaintenanceStore.CleanOne` | backend/src/ip_risk_agent/composition/scheduler_operations.py:152-158 | One record: a candidate's document goes by its id unless the deletion fails, which is all that counts as a failure |
| `Scheduler.MaintenanceStore.CleanRecords` | backend/src/ip_risk_agent/composition/scheduler_operations.py:150-158 | With nobody else writing, the loop removes the candidates of the page whose deletion does not fail, and counts exactly the failed deletions and all other records |
| `Scheduler.MaintenanceStore.CleanupExpired` | backend/src/ip_risk_agent/composition/scheduler_operations.py:131-163 | One call decodes the cursor or refuses; of its page it removes exactly the documents whose time of expiry is not later than the clock, of the connections only PENDING ones, and whose deletion does not fail; and it returns the counts and the cursor for the rest |
| `Cleanup.CallsShrinkTheSweep` | backend/src/ip_risk_agent/composition/scheduler_operations.py:261-293 | Every call ends the sweep or leaves a whole page fewer ahead of it, although it deletes while paging |
| `Cleanup.CallRemovesExactly` | backend/src/ip_risk_agent/composition/scheduler_operations.py:144-158 | With nobody else writing, a document goes if and only if it is on the page, has a time of expiry that is not later than the clock, is PENDING if it is a connection, and its deletion does not fail |
| `Cleanup.FailuresAreCounted` | backend/src/ip_risk_agent/composition/scheduler_operations.py:150-158 | The failures counted are exactly the expired records whose deletion fails |
| `CleanupRuns.FinishedSweepRemovesEveryCandidate` | backend/src/ip_risk_agent/composition/scheduler_operations.py:131-163 | A full sweep, with other writers between any two of its page reads and deletions, has removed every document that was a candidate when it began, that they left alone, and whose deletion did not fail |
| `CleanupRuns.FinishedSweepRemovesWhatHadExpired` | backend/src/ip_risk_agent/composition/scheduler_operations.py:296-302 | In fields: every state and challenge, and every PENDING connection, that had expired when the sweep began and that others leave alone is gone after it |
| `CleanupRuns.OnlyTheExpiredGo` | backend/src/ip_risk_agent/composition/scheduler_operations.py:144-158 | In every interleaving a document that goes had expired by the clock of its page and was PENDING if a connection, or stands in the place of one read there that had |
| `CleanupRuns.RemovesOnlyCandidatesExactlyWhenNoneOvertaken` | backend/src/ip_risk_agent/composition/scheduler_operations.py:152-158 | Over every such run, deletions remove only candidates if and only if at none the record in hand was a candidate while the document stored under its id by then is not |
| `CleanupRuns.ActiveConnectionsGoOnlyWhenOvertaken` | backend/src/ip_risk_agent/composition/scheduler_operations.py:296-302 | So of the connections only PENDING ones go, unless overtaken |
| `CleanupRuns.OvertakenByAWriteSinceTheRead` | backend/src/ip_risk_agent/composition/scheduler_operations.py:144-156 | A deletion is overtaken only by another writer, who wrote that very document after the record had been read |
| `CleanupRuns.RecordsInHandWereRead` | backend/src/ip_risk_agent/composition/scheduler_operations.py:270-293 | Every record in hand was read during the run, and only other writers put anything else in its place |
| `CleanupRuns.ActivatedMeanwhileIsRemoved` | backend/src/ip_risk_agent/composition/scheduler_operations.py:152-156 | A run in which an expired connection, activated between its read and its deletion, is removed |
| `CleanupRuns.CallAlone` | backend/src/ip_risk_agent/composition/scheduler_operations.py:131-163 | With nobody else writing, those steps come to exactly the undisturbed call of the store |
| `DeviceStore.SaveKeepsInverse` | backend/src/ip_risk_agent/composition/device_auth.py:80-85 | A save keeps devices and credential index inverse if and only if it takes no other device's credential |
| `DeviceStore.DocumentsMatchMemory` | backend/src/ip_risk_agent/gcp/operational_firestore.py:426-444 | From any state, the document writes of a save end where the in-memory save does |
| `DeviceStore.EntriesStayCurrentInsideASave` | backend/src/ip_risk_agent/gcp/operational_firestore.py:426-444 | At every point inside those writes, with no other save under way, a credential entry leads only to a device whose current credential it is |
| `DeviceStore.RetryCompletesTheSave` | backend/src/ip_risk_agent/gcp/operational_firestore.py:426-444 | A save stopped after any write and repeated ends as if it had not been stopped |
| `DeviceStore.LookupsAgree` | backend/src/ip_risk_agent/gcp/operational_firestore.py:446-463 | After any sequence of saves, with nothing written between a lookup's two reads, both forms answer every lookup alike, except that an empty credential has no document key |
| `DeviceStore.LookupIsTwoReads` | backend/src/ip_risk_agent/gcp/operational_firestore.py:447-461 | A lookup finds a device if and only if the entry of its first read names one that its second read finds, and has no document key if and only if the credential or the entry is empty |
| `DeviceStore.FirestoreDeviceAuthStore.SaveDevice` | backend/src/ip_risk_agent/gcp/operational_firestore.py:426-444 | The conditional delete and the two puts, stopped after any of them, leave exactly the specified intermediate state |
| `DeviceStore.FirestoreDeviceAuthStore.DeviceWith` | backend/src/ip_risk_agent/gcp/operational_firestore.py:447-453 | Both reads, with nothing written between them, answer the specified lookup of one store |
| `DeviceStore.FirestoreDeviceAuthStore.ReadEntry` | backend/src/ip_risk_agent/gcp/operational_firestore.py:450-452 | The first read answers the entry of the credential as it is then |
| `DeviceStore.FirestoreDeviceAuthStore.ReadDevice` | backend/src/ip_risk_agent/gcp/operational_firestore.py:455-461 | The second read answers the device of that id as it is then |
| `DeviceAuth.TrailIsHonest` | backend/src/ip_risk_agent/composition/device_auth.py:136-212 | Over the in-memory store, whose calls do not suspend between their first look at the devices and their last write, in every run with fresh tokens index and devices are inverse, and every stored credential comes from a recorded exchange |
| `DeviceAuth.ChallengeYieldsAtMostOneCredential` | backend/src/ip_risk_agent/composition/device_auth.py:145-174 | There, a challenge yields at most one credential, and only before it expires |
| `DeviceAuth.OwnerNeverChanges` | backend/src/ip_risk_agent/composition/device_auth.py:154-159 | A device, once enrolled, stays enrolled with the same owner |
| `DeviceAuth.EarlierCredentialIsDead` | backend/src/ip_risk_agent/composition/device_auth.py:202-218 | There, after a re-enrolment or a revocation the earlier credential authenticates nothing for the rest of the run |
| `DeviceAuth.DeadCredentialsStayDead` | backend/src/ip_risk_agent/composition/device_auth.py:176-183 | There, a generated token that authenticates nothing never will again |
| `DeviceAuth.ExchangeEnrols` | backend/src/ip_risk_agent/composition/device_auth.py:136-174 | A refused exchange changes nothing; an accepted one authenticates its device at once, under the challenge's owner |
| `DeviceAuth.ExchangeIsRefusedForTheFirstThingAmiss` | backend/src/ip_risk_agent/composition/device_auth.py:145-174 | In every run an exchange takes effect if and only if its challenge was issued, less than its time to live ago, and not exchanged since, the session is valid, the device is not another owner's, and id and name are not blank; otherwise it is refused for the first of these |
| `DeviceAuth.ExchangeStoresTheDevice` | backend/src/ip_risk_agent/composition/device_auth.py:160-174 | It leaves the device as asked for under the owner and session of the challenge as issued, and every other device and challenge as it was |
| `DeviceAuth.RevocationTakesEffectExactlyWhenOwned` | backend/src/ip_risk_agent/composition/device_auth.py:202-218 | A revocation by an owner takes effect if and only if the device is that owner's, and only makes it inactive |
| `DeviceAuth.AuthenticationIsTraceable` | backend/src/ip_risk_agent/composition/device_auth.py:176-186 | Whatever authenticates was minted for that device from a challenge of the device's own owner |
| `DeviceAuth.InMemoryDeviceAuth.Save` | backend/src/ip_risk_agent/composition/device_auth.py:80-85 | The dictionary updates perform the specified save |
| `DeviceAuth.InMemoryDeviceAuth.IssueFor` | backend/src/ip_risk_agent/composition/device_auth.py:122-134 | Issuing stores one open challenge |
| `DeviceAuth.InMemoryDeviceAuth.ExchangeFor` | backend/src/ip_risk_agent/composition/device_auth.py:136-174 | The exchange refuses for the specified reason or enrols, and keeps the invariant |
| `DeviceAuth.InMemoryDeviceAuth.RevokeOwnedBy` | backend/src/ip_risk_agent/composition/device_auth.py:202-218 | Over the in-memory store, only the owner's revocation takes effect, and it kills the credential |
| `DeviceRaces.EntriesStayCurrentExactlyWhenNoWriteIsStale` | backend/src/ip_risk_agent/gcp/operational_firestore.py:426-444 | Over the document store with every read and every single write a step and any calls overlapping, credential entries lead to a device that holds them at every point if and only if no write is stale: a device document while an entry for another credential is left, or an entry for a credential the device no longer holds |
| `DeviceRaces.RetiredStayDeadExactlyWhenNoWriteRevives` | backend/src/ip_risk_agent/composition/device_auth.py:202-218 | There, replaced and revoked credentials lead to no active device at any point if and only if no stale write meets an active device; `DeviceLookups` has the lookups whose two reads lie apart |
| `DeviceRaceRuns.OverlapRevivesACredential` | backend/src/ip_risk_agent/composition/device_auth.py:202-212 | Whenever a device is active and a challenge of its owner is open, a revocation overlapping one re-enrolment brings the earlier credential back to life, the lock of the exchange notwithstanding |
| `DeviceRaceRuns.AnEarlierCredentialAuthenticates` | backend/src/ip_risk_agent/composition/device_auth.py:202-212 | Such a run from an empty store, with at most one exchange at a time throughout |
| `DeviceRaces.ReplacedOrRevokedIsRetired` | backend/src/ip_risk_agent/gcp/operational_firestore.py:434-444 | Writing a device again, or revoked with the credential it holds, retires that credential |
| `DeviceRaces.RetiredForGood` | backend/src/ip_risk_agent/gcp/operational_firestore.py:434-444 | A retired credential stays retired for the rest of the run |
| `DeviceRaces.ChallengesYieldOnceExactlyWhenConsumedOnce` | backend/src/ip_risk_agent/composition/device_auth.py:145-174 | In every interleaving no challenge yields two credentials if and only if no exchange consumes one that has been consumed since it was read |
| `DeviceRaces.LockedChallengeYieldsAtMostOne` | backend/src/ip_risk_agent/composition/device_auth.py:145-174 | With at most one exchange at a time, which one process with its lock ensures, a challenge yields at most one credential, before it expires, whatever revocations overlap |
| `DeviceRaces.LockedOwnerNeverChanges` | backend/src/ip_risk_agent/composition/device_auth.py:154-159 | With at most one exchange at a time no device is ever written over for another owner, so every device stays and keeps its owner |
| `DeviceRaces.OwnersNeverChangeExactlyWhenNoneIsWrittenOver` | backend/src/ip_risk_agent/composition/device_auth.py:154-159 | In every interleaving, between any two points every device stays and keeps its owner if and only if no device document is written over one of another owner |
| `DeviceRaceRuns.TwoProcessesTakeOneDevice` | backend/src/ip_risk_agent/composition/device_auth.py:120 | Two processes, each with a lock of its own, enrol one new device for two owners, and it changes hands |
| `DeviceRaceRuns.TwoProcessesSpendOneChallenge` | backend/src/ip_risk_agent/composition/device_auth.py:120 | Two processes, each with a lock of its own, that both pass their checks get two credentials out of one challenge |
| `DeviceRaces.StepKeepsInv` | backend/src/ip_risk_agent/gcp/operational_firestore.py:426-444 | Every single step keeps the bookkeeping of tokens, entries, devices and calls under way |
| `DeviceLookups.AdmissionIsForItsDevice` | backend/src/ip_risk_agent/composition/device_auth.py:176-183 | With the two reads of a lookup as steps among all others, a device that is let in is the one the credential was handed out for, is active and holds the credential of its latest enrolment, neither replaced nor revoked; and that is the credential looked up unless the latter is retired by then |
| `DeviceLookups.RetiredLetNothingInExactlyWhen` | backend/src/ip_risk_agent/gcp/operational_firestore.py:447-453 | Over every run, retired credentials lead to no active device at any point and let nothing in by a lookup begun after they were retired, if and only if no write revives and no such lookup has an enrolment of its device, as the latest write of it, between its reads |
| `DeviceLookups.NoneIsLateExactlyWhenNoneFindsAnother` | backend/src/ip_risk_agent/composition/device_auth.py:181-183 | No credential retired before its lookup began lets anything in if and only if no such lookup's second read finds an active device that holds another credential |
| `DeviceLookups.HoldersAreNeverLate` | backend/src/ip_risk_agent/composition/device_auth.py:181-186 | In every run a lookup that lets in a device holding the very credential presented was begun before that was retired, so comparing the two, which the code does not, would be enough |
| `DeviceLookups.LookupAcrossAnEnrolment` | backend/src/ip_risk_agent/gcp/operational_firestore.py:447-453 | Whenever the entry of a retired credential is still stored and its device can be enrolled again, a lookup across that enrolment lets the retired credential in, with the lock respected and no stale write |
| `DeviceLookups.RevokedCredentialIsLetIn` | backend/src/ip_risk_agent/gcp/operational_firestore.py:447-453 | Such a run from an empty store: a completely revoked credential, dead at every point, is let in |
| `DeviceLookups.LookupAlone` | backend/src/ip_risk_agent/gcp/operational_firestore.py:447-453 | A lookup with nothing between its reads lets in exactly the active device that the credential leads to then |
| `Eraser.References` | backend/src/ip_risk_agent/gcp/operational_eraser.py:112-135 | One pass over the mounts finds the workspace's mounts and exactly the connections it mounts and no other workspace does |
| `Eraser.SharedConnectionsNeverDecide` | backend/src/ip_risk_agent/gcp/operational_eraser.py:154-160 | A connection another workspace still mounts is never a ground for deletion: hiding every such field changes no decision |
| `Eraser.AttemptMakesProgress` | backend/src/ip_risk_agent/gcp/operational_eraser.py:64-110 | Stopped anywhere, an attempt has removed only what is to go, no document before its secret, and has not moved the goal |
| `Eraser.HistoryMakesProgress` | backend/src/ip_risk_agent/gcp/operational_eraser.py:64-110 | The same over any number of interrupted attempts in any stream orders |
| `Eraser.FinishedReachesTheGoal` | backend/src/ip_risk_agent/gcp/operational_eraser.py:64-88 | An attempt that finishes leaves nothing that belongs to the workspace, exactly the secrets no such document referred to, and everything else untouched |
| `Eraser.FinishedRemovesExactly` | backend/src/ip_risk_agent/gcp/operational_eraser.py:64-88 | In fields: after a finished attempt a document of its collections is gone if and only if its own fields or its record's name the workspace, the id of one of its mounts, or by connection or canonical connection one that the workspace mounts and no other does; every other document is as it was |
| `Eraser.FinishedRemovesSecretsExactly` | backend/src/ip_risk_agent/gcp/operational_eraser.py:90-110 | A secret is gone if and only if a pending connection that went refers to it, by its own reference or by its record's where it has none, and the vault issued that name |
| `Eraser.FinishesExactlyWhenItsReferencesWereIssued` | backend/src/ip_risk_agent/gcp/secret_vault.py:102-109 | An undisturbed attempt finishes if and only if there is no vault or it issued every well-formed reference of a pending connection that leads to the workspace |
| `Eraser.SurvivorsKeepUnsharedSecrets` | backend/src/ip_risk_agent/gcp/operational_eraser.py:90-110 | A finished attempt leaves every surviving document its secret if and only if none shares it with a document that goes |
| `Eraser.SharedSecretIsLost` | backend/src/ip_risk_agent/gcp/operational_eraser.py:77-84 | Two workspaces' connections with one reference, of which the survivor loses its secret |
| `Eraser.RetryEndsAsIfUninterrupted` | backend/src/ip_risk_agent/gcp/operational_eraser.py:64-110 | With the mounts unchanged, after any interrupted attempts one that finishes ends in the state of an uninterrupted first run |
| `Eraser.RetryAgreesExactlyWhenNothingWentWrongly` | backend/src/ip_risk_agent/gcp/operational_eraser.py:64-135 | With the mounts read anew by every attempt, so that each has a scope of its own, an attempt that finishes ends where an uninterrupted first run under its scope would have ended if and only if nothing had gone before that such a run would have left |
| `Eraser.RetryAgreesWhileMountsAreKept` | backend/src/ip_risk_agent/gcp/operational_eraser.py:112-135 | So it does as long as the workspace keeps its mounts and nobody else mounts a connection that was its alone |
| `Eraser.LaterScopeIsWiderExactlyWhen` | backend/src/ip_risk_agent/gcp/operational_eraser.py:112-135 | That condition on the mounts is exactly when the later attempt reaches all that the earlier one did |
| `Eraser.MountedMeanwhileIsGone` | backend/src/ip_risk_agent/gcp/operational_eraser.py:117-122 | Otherwise a runtime record is gone that the last attempt would have left, its connection being mounted by another workspace by then |
| `Eraser.FinishesExactlyWhenNothingIsRefused` | backend/src/ip_risk_agent/gcp/operational_eraser.py:100-110 | An undisturbed attempt finishes if and only if the vault refuses no reference of a pending connection in reach |
| `Eraser.RefusedDocumentIsNeverErased` | backend/src/ip_risk_agent/gcp/secret_vault.py:102-109 | A connection with a reference outside the vault's names outlives every history of attempts, so such a workspace is never erased completely |
| `Eraser.OperationalEraser.EraseOne` | backend/src/ip_risk_agent/gcp/operational_eraser.py:69-85 | One document: its secret first, then itself, stopped after either or where the vault raises |
| `Eraser.OperationalEraser.EraseCollection` | backend/src/ip_risk_agent/gcp/operational_eraser.py:69-87 | The loop over one collection performs the specified attempt, and counts exactly what has gone from it |
| `Eraser.OperationalEraser.Erase` | backend/src/ip_risk_agent/gcp/operational_eraser.py:64-88 | All collections in turn perform the specified attempt over the concatenated streams; a finished one over all documents has removed exactly those that lead to the workspace by name, mount or unshared connection, and returns, for each collection, how many have gone |
| `Completeness.AcceptedExactlyWhenComplete` | backend/src/ip_risk_agent/composition/analyzer_completeness.py:42-67 | For an accepted request, the result checks pass if and only if the results hold every requested analyzer exactly once, no other, and all name this artifact |
| `Completeness.CountingDetectsRepeats` | backend/src/ip_risk_agent/composition/analyzer_completeness.py:46-56 | Comparing the length with the size of the set detects exactly the repeated entries |
| `Completeness.StartedFacadeRunsConfiguredAnalyzers` | backend/src/ip_risk_agent/composition/analyzer_completeness.py:15-50 | A facade that starts runs exactly the requests for one or more configured analyzers, none twice |
| `Completeness.StartsExactlyWithTheActiveAnalyzers` | backend/src/ip_risk_agent/composition/analyzer_completeness.py:15-29 | The facade starts if and only if one or more analyzers are configured and they are the active ones |
| `Pipeline.ClaimedRunEndsExactlyOnce` | backend/src/ip_risk_agent/composition/pipeline.py:89-288 | For every behaviour of the collaborators, a claimed run completes with a terminal status, is denied, or records exactly one failure under the code it answers; it escapes unrecorded if and only if the first look for a newer change raises |
| `Pipeline.CleanupExactlyWhenDone` | backend/src/ip_risk_agent/composition/pipeline.py:205-288 | Cleanup happens once if and only if the adapter has it, the snapshot was fetched, the run is not to be retried and it did not end on a missing adapter; otherwise never |
| `Pipeline.AnalyzersNeverStartAfterANewerChange` | backend/src/ip_risk_agent/composition/pipeline.py:105-115 | The analyzers start only after both looks for a newer change said no |
| `Pipeline.NewerChangeEndsTheRun` | backend/src/ip_risk_agent/composition/pipeline.py:174-183 | Any yes ends the run as superseded without starting the analyzers |
| `Pipeline.OnlyCompleteSetsAreHandedOver` | backend/src/ip_risk_agent/composition/pipeline.py:184-189 | Every result handed over belongs to a complete result set for the gated artifact |
| `Pipeline.CallsComeInOrder` | backend/src/ip_risk_agent/composition/pipeline.py:105-288 | In every run the calls after the first look come in the order fetch, access receipt, gate, second look, analyzers, hand-over, explanation, failure record, cleanup, and only the hand-over repeats |
| `Pipeline.CompletedRunDeliversEverything` | backend/src/ip_risk_agent/composition/pipeline.py:184-204 | A completed run has handed over every result of a complete set and answers the job status the last one left |
| `PipelineAnswers.RunsAnswerByTheFirstThingAmiss` | backend/src/ip_risk_agent/composition/pipeline.py:89-288 | For every behaviour of the collaborators a claimed run answers what the first thing amiss asks for, with its code and whether to retry: another artifact, another revision, a denial, a newer change, an incomplete set, an error; and completes with the last job status when nothing is |
| `PipelineAnswers.CallsAreMadeExactlyWhenReached` | backend/src/ip_risk_agent/composition/pipeline.py:105-193 | Each call is made if and only if all before it went well; nothing is recorded, gated, analyzed or explained for a snapshot that is not the very revision of the very artifact claimed |
| `PipelineAnswers.ResultsAreHandedOverInOrder` | backend/src/ip_risk_agent/composition/pipeline.py:184-190 | The results of a complete set are handed over in their order, up to and including the first one refused, and of any other set none |
| `PipelineAnswers.UnclaimedRunsDoNothing` | backend/src/ip_risk_agent/composition/pipeline.py:95-103 | Without a claim no call is made, and an unknown change, an error and a duplicate are told apart |
| `Pipeline.Prepare` | backend/src/ip_risk_agent/composition/pipeline.py:117-184 | From the adapter lookup to the analyzers' results the calls follow the specified chain of stages; nothing is recorded, gated or analyzed unless the snapshot is the claimed one, another identity raises and another revision supersedes |
| `Pipeline.AcceptAll` | backend/src/ip_risk_agent/composition/pipeline.py:185-189 | The loop hands over the results in order until one is refused, keeping the last status and the affected risks |
| `Pipeline.HandOver` | backend/src/ip_risk_agent/composition/pipeline.py:185-204 | Hand-over, explanation and conclusion follow the specified stages |
| `Pipeline.Settle` | backend/src/ip_risk_agent/composition/pipeline.py:205-288 | The exception ladder answers every verdict as specified |
| `Pipeline.Execute` | backend/src/ip_risk_agent/composition/pipeline.py:89-288 | One run makes exactly the specified calls and answers |
| `RateLimit.EveryWindowIsBounded` | backend/src/ip_risk_agent/api/runtime.py:114-147 | For non-decreasing request times, every window of every client, wherever it ends, holds at most the configured number of accepted requests |
| `RateLimit.RefusedExactlyWhenFull` | backend/src/ip_risk_agent/api/runtime.py:119-126 | A request is refused if and only if its own window already holds exactly that number |
| `RateLimit.SpacedTimesNeverCrowd` | backend/src/ip_risk_agent/api/runtime.py:121-124 | The reason: accepted times that far apart in number are a window apart in time |
| `RateLimit.ClosedLimiterKeepsNothing` | backend/src/ip_risk_agent/api/runtime.py:126-127 | A limiter that allows nothing remembers no client |
| `RateLimit.LocalRateLimit.Admit` | backend/src/ip_risk_agent/api/runtime.py:119-127 | Popping the expired front, then deciding, performs the specified step |
| `StableKey.PayloadReadsBack` | backend/src/ip_risk_agent/core/common.py:66-75 | The payload decodes to the version, the namespace and the parts, up to trimming |
| `StableKey.KeysAreInjective` | backend/src/ip_risk_agent/core/common.py:66-76 | Unless the two payloads collide under the hash, two keys agree if and only if namespace and parts do, up to trimming |
| `StableKey.RegistrationKeysAreDistinct` | backend/src/ip_risk_agent/composition/source_registration.py:526-535 | Unless the two payloads collide, Drive registration keys agree if and only if the folders agree up to trailing and the workspaces up to surrounding white space |
| `StableKey.RegistrationKeyHolds` | backend/src/ip_risk_agent/composition/source_registration.py:526-535 | What a Drive registration key is a digest of: version, name, folder up to trailing and workspace up to surrounding white space, under fixed labels |
| `StableKey.ConnectionIdHolds` | backend/src/ip_risk_agent/application/public_facade/service.py:740-743 | What the id of a Drive connection is a digest of |
| `StableKey.SourceWorkspaceIdHolds` | backend/src/ip_risk_agent/application/public_facade/service.py:744-747 | What the id of a source workspace is a digest of |
| `StableKey.TrailingBlankSharesAKey` | backend/src/ip_risk_agent/composition/source_registration.py:526-535 | Two folder ids that differ in a trailing blank share a key, whatever the hash |
| `StableKey.SourceWorkspaceDeterminesTheKey` | backend/src/ip_risk_agent/application/public_facade/service.py:740-751 | Under an ideal hash one source workspace belongs to one Risk Workspace and one registration key, although its own key joins two ids with plain text |
| `StableKey.ExtendedIsIdeal` | backend/src/ip_risk_agent/core/common.py:76 | Any hash of 64 characters agrees with an ideal one on all payloads that are met, as long as no two of those collide, so what is proved of ideal hashes is proved of SHA-256 up to such a collision |
| `StableKey.SpelledIsIdeal` | backend/src/ip_risk_agent/core/common.py:76 | Ideal hashes exist |
| `DriveMounts.TrackedIsTheUnionExactlyWhenNoneOverwrites` | backend/src/ip_risk_agent/composition/source_registration.py:539-597 | Over any interleaving of calls, the tracked files of every key are at every point the union of the accepted requests if and only if no accepted call finishes over files it neither saw nor brings |
| `DriveMounts.OverlapLosesAFile` | backend/src/ip_risk_agent/composition/source_registration.py:539-597 | Two overlapping calls, both accepted, after which the first one's file is no longer tracked |
| `DriveMounts.StepKeepsInv` | backend/src/ip_risk_agent/composition/source_registration.py:617-639 | In every interleaving bindings lead to source workspaces of their own key, and nothing is tracked that was not accepted |
| `DriveMounts.SequentialCallsTrackTheUnion` | backend/src/ip_risk_agent/composition/source_registration.py:467-639 | Over any sequence of calls the tracked files of a key are the union of the accepted requests |
| `DriveMounts.TrackedNeverShrinks` | backend/src/ip_risk_agent/composition/source_registration.py:467-639 | They never shrink |
| `DriveMounts.AnswerIsWhatWasAdded` | backend/src/ip_risk_agent/composition/source_registration.py:541-611 | An accepted call answers, sorted, exactly the files it added, or all of its files when it added none |
| `DriveMounts.CallAddsItsFiles` | backend/src/ip_risk_agent/composition/source_registration.py:467-639 | A call adds its files, when accepted, to its own key and changes no other |
| `DriveMounts.OnlyEntitledCallsMount` | backend/src/ip_risk_agent/composition/source_registration.py:839-867 | A call is accepted only for the owner and workspace of a usable Drive connection, which a mount leaves active; an expired or revoked connection stays so |
| `DriveMounts.CallsAnswerByTheFirstThingAmiss` | backend/src/ip_risk_agent/composition/source_registration.py:467-613 | What every call is answered: unusable files, no such Drive connection, one that is expired, revoked or past its expiry while pending, another owner or workspace, a blank key, a connection gone by the second look, a refused registration; and a mount when nothing is amiss, from a PENDING connection before its expiry as from an active one |
| `DriveMounts.MountsAnswerByTheFirstThingAmiss` | backend/src/ip_risk_agent/composition/source_registration.py:695-835 | The second half of a call answers the same way for itself: no such Drive connection, one that is not usable by then, another owner or workspace, a refused registration; else a mount |
| `DriveMounts.StoresAfterACall` | backend/src/ip_risk_agent/composition/source_registration.py:539-639 | What a call leaves: its connection active under its canonical id, marked expired, or as it was; where it mounts its binding and the merged files; and nothing else changed |
| `DriveMounts.ConflictNeverHappens` | backend/src/ip_risk_agent/composition/source_registration.py:555-563 | The conflict answer for tracked files without a binding is never given |
| `DriveMounts.ConnectionsConverge` | backend/src/ip_risk_agent/composition/source_registration.py:526-535 | Unless the two payloads collide, accepted calls through any two connections register under one key if and only if folder and workspace agree, up to the white space keys ignore |
| `DriveMounts.DriveIdsAreSound` | backend/src/ip_risk_agent/composition/source_registration.py:741-790 | Under an ideal hash the identities the service builds meet what the run theorems require of them |
| `DriveMounts.SoundNamesExist` | backend/src/ip_risk_agent/composition/source_registration.py:741-790 | Such identities exist, also with a hash of 64 characters while no two payloads met collide |
| `DriveMounts.SourceRegistration.RequirePending` | backend/src/ip_risk_agent/composition/source_registration.py:839-867 | The lookup refuses missing, foreign, expired and revoked connections and marks the one it finds expired |
| `DriveMounts.SourceRegistration.TrackedFiles` | backend/src/ip_risk_agent/composition/source_registration.py:617-639 | The tracked files are those of the source workspace the key is bound to |
| `DriveMounts.SourceRegistration.MountFolder` | backend/src/ip_risk_agent/composition/source_registration.py:695-835 | Registering, binding and activating take the stores to the specified state |
| `DriveMounts.SourceRegistration.CreateDriveMount` | backend/src/ip_risk_agent/composition/source_registration.py:467-613 | The whole call takes the stores to the specified state with the specified answer |
| `FileIds.SortedIsTheSet` | backend/src/ip_risk_agent/composition/source_registration.py:507 | Sorting keeps exactly the distinct ids, in order |
| `Text.LessExactlyWhenFirstDifferenceIs` | backend/src/ip_risk_agent/application/repositories/in_memory.py:701-706 | The order of ids: at the first difference the smaller one ends or has the smaller character |
| `Text.TrimIsTheCore` | backend/src/ip_risk_agent/core/common.py:36-43 | Trimming takes all white space off both ends and nothing else |

## Left out

- Watcher: chokidar, hashing, path filters, root and symlink guards are inputs (a raw event is admitted or not, a file is readable or not); `close()` and the warm-up with `emitExisting` off are not modelled, the product always has it on.
- Queue: a re-entrant enqueue from the synchronous part of a report, a rejecting delay, a throwing failure sink, and the HTTP and staging steps behind `report`; a file that cannot be read any more is silently dropped there (apps/desktop/main/desktop-event-reporter.ts:87-94).
- Risk ledger: evidence, priorities, explanations, notifications and attribution; a stored disposition that is no known value is modelled as a missing one.
- Scheduler: watch renewal, reconciliation, source health and licence revalidation share the paging and would only add easy members; the store's own limit of 500 and its allow-list of collections are not modelled. The methods of `MaintenanceStore` state a call with nobody else writing; `CleanupRuns` has the interleavings.
- Cursor: `json.loads` also accepts white space, `true` and `1.0` for the version, and lone surrogates, and the base64 decoder skips characters outside its alphabet; the model decodes what the encoder can print and rejects the rest, and payload bytes beyond ASCII are rejected.
- Device store: mount bindings, which no property above needs; the single-use OAuth states (`consume_unexpired`) repeat the challenge argument in one transaction.
- Device enrolment: hashing is ideal, so a token stands for its digest; header parsing and the session validator are inputs; in `DeviceRaces` the check of the owner before a revocation is not repeated, and in `DeviceLookups` what a lookup lets in is decided at its second read, before the session check that follows.
- Eraser: documents and secrets written by others while an erasure is under way or being retried; a failing read or delete is a stop; the reference scan is one pass over a list of mounts; identifiers stored as numbers are not modelled; the number of erased credentials is returned beside the per-collection counts.
- Pipeline: log lines, exception messages, cancellation, and a `fail_analysis` that raises; an explanation may raise like any other call and then ends the run as retryable.
- EveryWindowIsBounded: times are exact reals, so the rounding of `now - window` in floating point is not modelled, and request times do not decrease.
- StableKey: the digest is of the payload's characters, not of its UTF-8 bytes; an ideal hash has digests of any length, since no injective one has a fixed length, and `ExtendedIsIdeal` says what that means for 64 characters.
- Drive mounts: the control plane's own checks are one answer, registered or not; credentials, display names, audit events and tracking lists written by anyone else are left out, and ids are those the keys name. Creating pending connections is a step that adds one under a fresh id.
- GitHub mounts, settings validation, the React UI, connectors, analyzers, and the scripts for evaluation and corpora.
