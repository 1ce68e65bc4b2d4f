# Skeleton Home media: verified core

This project models the self-contained algorithms and protocols of the Skeleton Home media
repository in Dafny and proves what they keep over all inputs and all runs. `dafny verify
dfyconfig.toml` checks it.

| module | models |
|---|---|
| `JobFiles`, `JobQueue`, `QueueRuns`, `QueueService`, `QueueLeases`, `QueueLimit` | the lease-based file queue: five state directories, moves that write the target and then remove the source, a process that may die between any two file effects |
| `VideoWorker` | the worker as the queue's client |
| `ReleaseMonitor`, `ReleaseKeys` | the stored row of a monitored series, driven by set, automatic check, tick, acknowledgement and release of a claim |
| `TraktSync` | the pending table of watch progress: any interleaving of the player with any number of flushes, their transactions, rollbacks and deaths |
| `JsonScanner`, `Base64`, `PlayerJs` | the balanced-JSON scanner and the playlist descrambler of the resolver |
| `CueCoverage`, `RollingCaptions` | covered time, merging of repeated cues, and compaction of rolling captions |
| `FrameSelection`, `FrameExample` | the choice of frame timestamps |
| `ArtifactStore` | manifests, readback verification and write-once finalization |
| `ChannelOrder` | display order, editing and zapping of television channels |
| `Candidates` | normalization of search results |
| `StableSort`, `TextOrder`, `Wrappers` | Python's `sorted`, its order on strings, and optional values and errors |

The imperative parts of the repository are methods and classes here, each proved equal to a
function of its inputs or of the old state; the lemmas are about those functions. Every queue call is
a *plan*, a list of moves with a reply; a crash leaves a prefix of the plan's file effects. The clock,
the network, hashes, case folding and text clean-up are parameters.

## Findings

Some promises do not hold of the code as written. Each is kept as the code has it, with the input
that shows it and the exact condition where there is one.

* A frame grid point that rounds to the millisecond of a cue is counted twice and can push another
  cue out, although cues and scenes fit the limit (`SharedMillisecondDropsCue`; exact condition in
  `TimesKeptIff`, and `FewClaimantsAllKept` for a caller).
* Building a caption line cleans its text once more, so compaction can lose speech: markup that was
  encoded once, as in `&lt;div&gt; element`, is words of its cue and is stripped from its line, and a
  cue of nothing else raises (`DecodedMarkupIsLost`). The line selection loses nothing
  (`NoWordIsDropped`); exact conditions are in `OneCueKeptIff` and `SpeechKeptIff`.
* `normalize_segments` is not idempotent: rebuilding a merged cue cleans its text once more. One pass
  is enough on a family of texts exactly when cleaning never changes a folding in it
  (`NormalizeIdempotentIff`; `ListNormalizesOnce` for one list).
* `normalize_segments` accepts some lists whose starts go back, when a merge hides the step
  (`AcceptedOutOfOrder`): exactly when a cue was merged into one that started strictly before it
  (`HiddenStepIff`). Without adjacent repetitions the order check is exact (`UnrepeatedAcceptedIff`).
* Lease expiry ignores `max_attempts`, so the bound on attempts is the limit plus the expiries, and
  it is met (`ExpiryIgnoresLimit`, `AttemptsAreBounded`, `BoundIsMet`).
* A claim that dies between its write and its unlink leaves a pending copy that another worker can
  claim during the lease (`HalfDoneClaimIsReclaimed`; a lease is exclusive exactly without such a
  copy, `ExclusiveIff`). A completion that dies there lets the finished job be claimed again when its
  lease ends (`HalfDoneCompletionIsReclaimed`).
* The Trakt outbox keeps time in whole seconds: an update queued in the same second as the one being
  posted is deleted unsent, and only then (`OvertakenIsKeptIff`). Two flushes that overlap can leave
  Trakt with the older update last, and nothing else can (`OverlapEndsStale`, `UpToDateIff`). The one-hour cap on the retry delay is never
  reached (`DelaysDouble`).
* The release monitor announces one release twice when a tick has an empty occurrence id
  (`SeparatedIff`), accepts acknowledgements that answer nothing and repeats them when theirs is empty
  (`AcksAnswerIff`, `EmptyOccurrenceRepeatsAcks`; without a claim only then, `UnclaimedAck`), and
  acknowledges an earlier release after a later one when a job falls back to a key beyond the
  pattern (`AcksGoBack`; exact conditions in `AcksIncreaseIff` and `NotBelowIff`). It announces stale
  numbers when a fallback found a season without an episode, or the reverse (`StaleColumns`; exact
  condition in `NumbersMatchIff`).
* A leftover `.part` file makes `finalize` promote a target and then fail, now and at every later call
  for that revision (`FreshFinalizeIff`, `LeftoverSpoilsRevision`).
* The playlist decoder reports a missing separator when the payload is shorter than two characters,
  as that of no bytes at all can be (`DecodeUndoesSend`).

## Model

| member | source | states |
|---|---|---|
| `JobFiles.RunIsPrefix` | skeleton_media/video_understanding/queue.py:162-181 | a process that dies leaves exactly a prefix of its file effects on the disk |
| `JobQueue.FileQueue.Enqueue` | skeleton_media/video_understanding/queue.py:115-155 | validates, returns the one existing copy, rejects two copies, otherwise writes a new pending record; cut short at any effect |
| `JobQueue.FileQueue.Claim` | skeleton_media/video_understanding/queue.py:157-182 | validates the worker, recovers expired leases, then takes the first due pending record in id order: its move, its reply, and what a death in between leaves |
| `JobQueue.FileQueue.RecoverExpiredLocked` | skeleton_media/video_understanding/queue.py:263-284 | moves back exactly the processing records whose lease has run out, in id order, and counts them |
| `JobQueue.FileQueue.Recover` | skeleton_media/video_understanding/queue.py:248-250 | one recovery pass as a call of its own |
| `JobQueue.FileQueue.Heartbeat` | skeleton_media/video_understanding/queue.py:184-193 | only the owner of a processing record renews its lease; otherwise the error and no effect |
| `JobQueue.FileQueue.Complete` | skeleton_media/video_understanding/queue.py:195-213 | only the owner moves the record to done |
| `JobQueue.FileQueue.Fail` | skeleton_media/video_understanding/queue.py:215-246 | reason check first; the owner moves the record back with its delay, or to quarantine when permanent or at the attempt limit, as `FailEnds` and `RetryWaits` spell out |
| `JobQueue.FileQueue.FindCopies` | skeleton_media/video_understanding/queue.py:291-301 | collects the copies of an id over the directories in their order |
| `JobQueue.FileQueue.Counts` | skeleton_media/video_understanding/queue.py:259-261 | the count of a state is the number of records in its directory, for all five states |
| `JobQueue.FileQueue.DoMove` | skeleton_media/video_understanding/queue.py:177-181 | target write first, source removal second, either of which may be the last effect |
| `JobQueue.ClaimInTurn` | skeleton_media/video_understanding/queue.py:162-181 | recovery and claim of one call compose: what the two parts leave is what the one plan leaves, alive or dead |
| `QueueRuns.RunMove` | skeleton_media/video_understanding/queue.py:177-181 | a move cut short leaves one of three disks: untouched, both copies, complete |
| `QueueRuns.PlansAreLegal` | skeleton_media/video_understanding/queue.py:115-284 | in every state of the disk, every call only ever makes legal moves of records that are there |
| `QueueRuns.NoRecordIsLost` | skeleton_media/video_understanding/queue.py:162-246 | over any run, dying anywhere: an id once stored never has zero copies and no done or quarantined file is removed |
| `QueueRuns.RunsKeepCoherent` | skeleton_media/video_understanding/queue.py:135-284 | over any run, dying anywhere: every file's state field names its directory, and worker and lease are set exactly while processing |
| `QueueRuns.RunsKeepJobs` | skeleton_media/video_understanding/queue.py:135-284 | over any run, dying anywhere: every copy of a record keeps the job and the time it was queued with |
| `QueueRuns.WritesAreStamped` | skeleton_media/video_understanding/queue.py:139-284 | every record a call writes is stamped with that call's clock |
| `QueueRuns.CallDoublesAtMostOne` | skeleton_media/video_understanding/queue.py:162-246 | from one copy each, one call that dies anywhere leaves at most one id with two copies |
| `QueueRuns.CrashDoublesOne` | skeleton_media/video_understanding/queue.py:177-181 | the same for any list of legal moves, and none doubled when the process survives |
| `QueueRuns.RunsKeepOrder` | skeleton_media/video_understanding/queue.py:115-284 | crash-free runs keep one copy per id, coherence, and attempts that count claims and stay bounded |
| `QueueRuns.AttemptsAreBounded` | skeleton_media/video_understanding/queue.py:168-284 | over any run from the empty queue, dying anywhere, no copy has more attempts than claims begun, nor more than the limit and the expiries begun allow (one less while pending); without deaths attempts equal the claims |
| `QueueLimit.BoundIsMet` | skeleton_media/video_understanding/queue.py:157-284 | for every job and every n a crash-free run from the empty queue with n lease expiries and the limit plus n attempts: the bound is met |
| `QueueRuns.RetriesEnd` | skeleton_media/video_understanding/queue.py:230-246 | without expiry a record claimed as often as allowed is held, done or quarantined |
| `QueueRuns.CountsAddUp` | skeleton_media/video_understanding/queue.py:259-261 | with one copy each the five counts add up to the number of ids |
| `QueueService.ClaimTakesFirstReady` | skeleton_media/video_understanding/queue.py:157-182 | a claim hands out the smallest id that is pending and due or held under an expired lease, for the lease asked for; nothing exactly when there is none |
| `QueueService.RecoveryMakesAvailable` | skeleton_media/video_understanding/queue.py:263-284 | recovery makes exactly the expired records due and leaves every other record's availability alone |
| `QueueService.EnqueueAgain` | skeleton_media/video_understanding/queue.py:135-138 | queueing a key again returns the stored record, whatever its state, and does nothing |
| `QueueService.EnqueueWritesOnce` | skeleton_media/video_understanding/queue.py:133-155 | once a key has a record no later enqueue of it writes, after any run with any crashes |
| `QueueService.QueuedIsReadyFrom` | skeleton_media/video_understanding/queue.py:139-155 | a queued job is ready from the moment asked for, or at once, and not before |
| `QueueService.TwoCopiesIff` | skeleton_media/video_understanding/queue.py:291-301 | queueing raises for a duplicate exactly when the id stands in two directories, and writes nothing then |
| `QueueService.TokenIff` | skeleton_media/video_understanding/queue.py:21-21 | operations, workers and reasons are one to 128 letters, digits and four signs |
| `QueueService.IllFormedCalls` | skeleton_media/video_understanding/queue.py:115-219 | an empty or too long key, an ill-formed operation, worker or reason is answered with its error and changes nothing |
| `QueueService.HeartbeatRenews` | skeleton_media/video_understanding/queue.py:184-193 | after a heartbeat the lease has run out exactly from its clock plus the time asked for |
| `QueueService.OnlyTheOwnerActs` | skeleton_media/video_understanding/queue.py:184-289 | heartbeat, complete and fail act exactly for the worker of a processing record; otherwise not found or wrong owner, and no change |
| `QueueService.FailEnds` | skeleton_media/video_understanding/queue.py:230-246 | a failed record is quarantined exactly when the failure is permanent or the attempts are used up, else pending again; it keeps attempts and job and gets the reason |
| `QueueService.RetryWaits` | skeleton_media/video_understanding/queue.py:230-232 | a retried record is ready exactly from the failure plus its delay, and a claim hands it out exactly from then on when no smaller id is ready |
| `QueueService.RetryDelaysDouble` | skeleton_media/video_understanding/queue.py:230-232 | waits double from 30 seconds to one hour, reached by exactly the attempts from the eighth on |
| `QueueService.ClaimHandsOutIff` | skeleton_media/video_understanding/queue.py:157-182 | a claim hands out a given record exactly when it is ready and no smaller id is |
| `QueueService.ExpiryIgnoresLimit` | skeleton_media/video_understanding/queue.py:263-284 | on any disk the smallest ready record, when its lease has run out, is handed out with one more attempt, however many it has used |
| `QueueService.FinalIsNeverClaimed` | skeleton_media/video_understanding/queue.py:115-284 | in every crash-free run a done or quarantined record is never handed out again |
| `QueueLeases.LeaseHolds` | skeleton_media/video_understanding/queue.py:162-193 | a call that does not end the lease neither moves, changes nor hands out a held record, crash or not |
| `QueueLeases.LeaseIsExclusive` | skeleton_media/video_understanding/queue.py:162-193 | over any run with heartbeats and deaths in which claims and recoveries read a clock below the lease stored at that moment and the holder does not finish: the holder keeps the record, nobody else moves it, only its lease changes |
| `QueueLeases.ExclusiveIff` | skeleton_media/video_understanding/queue.py:157-182 | nothing can hand out an owned record before its lease ends exactly when no pending copy comes due before |
| `QueueLeases.HalfDoneClaimIsReclaimed` | skeleton_media/video_understanding/queue.py:177-181 | on any disk a claim that dies before its last unlink lets the next claimant take the same record during the lease |
| `QueueLeases.HalfDoneCompletionIsReclaimed` | skeleton_media/video_understanding/queue.py:200-213 | a completion that dies before its unlink leaves the job done and still held; after the lease it is handed out again exactly when no smaller id is ready |
| `QueueLeases.ReadySometimeIff` | skeleton_media/video_understanding/queue.py:157-284 | in coherent directories a record can be handed out at some time exactly when it has a pending or a processing copy |
| `QueueLeases.FormerOwnerIsRejected` | skeleton_media/video_understanding/queue.py:184-246 | once a worker does not own a record, until it takes that very record again, its heartbeat, complete and fail on it are rejected, over any run with crashes and with other claims of its own |
| `QueueLeases.RecoveryClears` | skeleton_media/video_understanding/queue.py:265-268 | a recovery pass leaves no expired lease among the records it lists |
| `QueueLeases.RecoveryRevokes` | skeleton_media/video_understanding/queue.py:263-284 | a completed recovery ends every expired ownership |
| `VideoWorker.Worker.RunOnce` | skeleton_media/video_understanding/worker.py:43-103 | one pass is recover, claim, heartbeats, complete or fail; the record ends where the receipt says, done only when processed, given up only after a permanent refusal or at the limit, with the reason; begun with nothing processing it ends so, after a sequential run; an idle pass means nothing pending is due, any other that ends has claimed |
| `VideoWorker.Worker.Next` | skeleton_media/video_understanding/worker.py:45-48 | recover then claim: the claimed record is owned by this worker |
| `VideoWorker.Worker.KeepAlive` | skeleton_media/video_understanding/worker.py:49-50 | heartbeats during processing keep the ownership |
| `VideoWorker.Worker.Finish` | skeleton_media/video_understanding/worker.py:51-77 | complete on success, fail with the exception's code and its permanence, or with the fixed code; the outcome and status follow: a failure is retried exactly when it is not permanent and below the limit |
| `VideoWorker.EndingPlan` | skeleton_media/video_understanding/worker.py:51-77 | a finished job is done; a failed one gets its code and is parked exactly after a permanent refusal or at the attempt limit, else retried |
| `VideoWorker.PermanentIff` | skeleton_media/video_understanding/worker.py:16-24 | the codes that are never retried are those with one of the seven prefixes |
| `VideoWorker.SequentialExpiresNothing` | skeleton_media/video_understanding/worker.py:105-137 | when claims and recoveries come only while nothing is processing, no lease ever expires |
| `VideoWorker.WorkerDrivesToFinal` | skeleton_media/video_understanding/worker.py:105-137 | over every such run each record is claimed at most the allowed times, and claimed that often it is done or quarantined |
| `VideoWorker.WellRunConcat` | skeleton_media/video_understanding/worker.py:113-137 | passes join: crash-free sequential runs that leave nothing processing make one |
| `VideoWorker.Worker.Arrive` | skeleton_media/video_understanding/worker.py:112-118 | jobs queued between passes keep such a run going |
| `VideoWorker.ClaimsAreFew` | skeleton_media/video_understanding/worker.py:105-137 | over every such run from the empty queue all claims together are at most the allowed times for each record |
| `VideoWorker.IdleMeansFinal` | skeleton_media/video_understanding/worker.py:116-118 | after an idle pass of such a run every record is final or due later |
| `VideoWorker.Worker.RunForever` | skeleton_media/video_understanding/worker.py:105-137 | the loop over any passes with any outcomes and arrivals makes such a run: from the empty queue each record is claimed at most the allowed times, no more passes work than that for each record, and a last idle pass leaves every record final or due later |
| `ReleaseMonitor.SourceMax` | skeleton_media/cast/media_release_monitor.py:85-92 | the pair `BestIsLargest` shows largest, found in one pass |
| `ReleaseMonitor.BestIsLargest` | skeleton_media/cast/media_release_monitor.py:85-92 | which is the largest pair among the sources that are not trailers |
| `ReleaseMonitor.FallbackIs` | skeleton_media/cast/media_release_monitor.py:85-133 | without a page the numbers come from the largest pair of a full source, and are a key exactly when both are positive |
| `ReleaseMonitor.Monitor.SetForJob` | skeleton_media/cast/media_release_monitor.py:119-141 | the new row: upsert column by column, baseline from page or sources, pending baseline when no source is there |
| `ReleaseMonitor.Monitor.EnsureAutoForJob` | skeleton_media/cast/media_release_monitor.py:144-154 | the new row: arms again only a title switched on explicitly, switches off one that was not, and makes no row |
| `ReleaseMonitor.SetOutcome` | skeleton_media/cast/media_release_monitor.py:119-141 | what a set leaves: on exactly for a series that was asked for; a stored baseline stays, else page or fallback gives one; it becomes pending exactly when nothing is and there is no full source |
| `ReleaseMonitor.AutoOutcome` | skeleton_media/cast/media_release_monitor.py:144-154 | what an automatic check leaves: a set for an enabled title without a full source and with nothing pending, nothing for any other switched on, and off for the rest |
| `ReleaseMonitor.OnMeansAsked` | skeleton_media/cast/media_release_monitor.py:119-154 | in every run a title is on only when the last set asked for it, of a series: automatic checks never switch one on |
| `ReleaseMonitor.Monitor.TickOnce` | skeleton_media/cast/media_release_monitor.py:165-199 | the new row and the notification, of which `TickLooks` and `NotifiesIff` speak |
| `ReleaseMonitor.TickLooks` | skeleton_media/cast/media_release_monitor.py:165-184 | a tick looks exactly when the last look is twenty hours old; it takes a missing baseline from the page, and a release as pending exactly when nothing is, it is not the notified one and it is later than the baseline; the state says whether it is out yet |
| `ReleaseMonitor.NotifiesIff` | skeleton_media/cast/media_release_monitor.py:185-198 | in every run a call notifies exactly when it is a tick that finds the localization of a watched title whose pending release is out, unclaimed and not yet notified; it announces that release and claims it under its own id |
| `ReleaseMonitor.Monitor.AckAlert` | skeleton_media/cast/media_release_monitor.py:201-205 | accepted only for the pending key under the claiming occurrence; pending becomes baseline and notified |
| `ReleaseMonitor.Monitor.ReleaseClaim` | skeleton_media/cast/media_release_monitor.py:207-210 | frees exactly the claim of that occurrence |
| `ReleaseMonitor.CloseOutcome` | skeleton_media/cast/media_release_monitor.py:201-210 | what an acknowledgement and a release of a claim leave, or that they change nothing |
| `ReleaseMonitor.RunsAreSound` | skeleton_media/cast/media_release_monitor.py:119-210 | in every run a claim stands for a pending key that is not the one last notified; and the pending key is not below the baseline when fallback keys are within the pattern |
| `ReleaseMonitor.StepFollows` | skeleton_media/cast/media_release_monitor.py:119-210 | what any call can do to claim, pending and notified key, by its event |
| `ReleaseMonitor.MonitorIsSafe` | skeleton_media/cast/media_release_monitor.py:119-210 | over every run, each under its own condition: notifications are separated by an acknowledgement or release (ticks have ids); acknowledgements answer open notifications (acknowledgements have ids); acknowledged keys strictly increase (moreover fallback keys are within the pattern); numbers match keys (fallbacks without a key have none) |
| `ReleaseMonitor.SeparatedIff` | skeleton_media/cast/media_release_monitor.py:188-198 | over all runs with tick ids from a set, notifications are separated exactly when the empty id is not in it |
| `ReleaseMonitor.AcksAnswerIff` | skeleton_media/cast/media_release_monitor.py:201-205 | over all runs with acknowledgement ids from a set, each answers an open notification exactly when the empty id is not in it |
| `ReleaseMonitor.AcksIncreaseIff` | skeleton_media/cast/media_release_monitor.py:82-210 | over all runs with acknowledgement ids from a set and one job of any kind, acknowledged keys increase exactly when the empty id is not in the set and the job's fallback key is within the pattern |
| `ReleaseMonitor.NotBelowIff` | skeleton_media/cast/media_release_monitor.py:82-184 | over all runs with one job of any kind, what is pending is never below the baseline exactly when its fallback key is within the pattern |
| `ReleaseMonitor.AcksGoBack` | skeleton_media/cast/media_release_monitor.py:130-205 | for every fallback beyond the pattern, the run of six calls that acknowledges it and then the special S00E01 |
| `ReleaseMonitor.NextReleaseIsLater` | skeleton_media/cast/media_release_monitor.py:177-178 | the check of one tick behind `AcksIncreaseIff`: an acknowledged row takes later releases only, exactly when its key is within the pattern |
| `ReleaseMonitor.EmptyOccurrenceRepeatsAcks` | skeleton_media/cast/media_release_monitor.py:201-205 | for every page a run with empty acknowledgement ids that acknowledges one key twice and answers no notification |
| `ReleaseMonitor.StaleColumns` | skeleton_media/cast/media_release_monitor.py:119-198 | for every series whose fallback has no key: the run that announces the page's release with the numbers the fallback left |
| `ReleaseMonitor.NumbersMatchIff` | skeleton_media/cast/media_release_monitor.py:119-198 | in every run notifications carry the numbers of their keys exactly when every fallback without a key has no numbers; one job that breaks it suffices |
| `ReleaseKeys.PatternReads` | skeleton_media/cast/media_release_monitor.py:82-83 | a key is compared by its two numbers exactly when the pattern reads its text, and they are the numbers read; any other compares as (0, 0) |
| `ReleaseKeys.KeyTextsDiffer` | skeleton_media/cast/media_release_monitor.py:82-112 | keys with the same text are the same, so the model may compare keys for texts |
| `ReleaseKeys.StoredKeysHaveNumbers` | skeleton_media/cast/media_release_monitor.py:119-205 | in every run the stored keys are such keys or absent |
| `TraktSync.Outbox.EnqueueProgress` | skeleton_media/cast/trakt_sync.py:57-82 | queues only named recordings that are not live; the row replaces what was pending, with attempts reset |
| `TraktSync.EntryIs` | skeleton_media/cast/trakt_sync.py:57-82 | the update: percent of the duration watched, within 0 and 100, and the action by completion, reason and pause |
| `TraktSync.QueuedIsDue` | skeleton_media/cast/trakt_sync.py:71-81 | a queued update is due at once with no attempts behind it, and other keys are untouched |
| `TraktSync.SelectionIff` | skeleton_media/cast/trakt_sync.py:136-136 | what a flush reads: exactly as many due rows as the limit allows, the oldest, each once and in order |
| `TraktSync.Outbox.Flush` | skeleton_media/cast/trakt_sync.py:132-151 | an uninterrupted flush: table and accepted posts after the answers, stopping on refused credentials |
| `TraktSync.FlushIsARun` | skeleton_media/cast/trakt_sync.py:132-151 | that flush is a run of the step protocol with the same table and the same posts |
| `TraktSync.FlushOutcome` | skeleton_media/cast/trakt_sync.py:139-150 | per selected row: gone if accepted, same update with one more attempt and a delay if refused, untouched behind refused credentials |
| `TraktSync.DiskChanges` | skeleton_media/cast/trakt_sync.py:71-151 | the table changes only by a queued update or a commit, never by a flush that dies, which leaves no write lock behind |
| `TraktSync.PendingIsLatest` | skeleton_media/cast/trakt_sync.py:75-81 | over any interleaving a pending row is the latest update of its key |
| `TraktSync.LatestIsKept` | skeleton_media/cast/trakt_sync.py:75-151 | over any interleaving with rollbacks the latest update is pending or its stamp was accepted, so it was itself accepted when stamps differ; nothing is sent that was not queued |
| `TraktSync.OvertakenIsKeptIff` | skeleton_media/cast/trakt_sync.py:136-143 | the update queued while another of its key is being posted survives exactly when the stamps differ |
| `TraktSync.DrainedMeansUpToDate` | skeleton_media/cast/trakt_sync.py:132-151 | with one flush at a time and growing stamps, updates of a key are accepted in order and a key with nothing pending ends on its latest update |
| `TraktSync.OverlapEndsStale` | skeleton_media/cast/trakt_sync.py:132-151 | a run of two overlapping flushes that ends with the older update accepted last and nothing pending |
| `TraktSync.UpToDateIff` | skeleton_media/cast/trakt_sync.py:132-151 | over all runs with growing stamps and at most n flushes under way, drained keys end on their latest update exactly when n is at most one |
| `JsonScanner.BalancedJsonValue` | skeleton_media/cast/resolver.py:1487-1514 | returns the text up to the first return of the depth to zero, or the right one of its two errors |
| `JsonScanner.ScanReturnsRendering` | skeleton_media/cast/resolver.py:1487-1514 | for every JSON array or object (RFC 8259 sections 4, 5 and 7) before any text and after any text, the first return to depth zero is the end of its rendering |
| `JsonScanner.ValueIsNeutral` | skeleton_media/cast/resolver.py:1494-1512 | every rendered value leaves depth, quote and escape state as it found them, never below its level |
| `JsonScanner.StringIsNeutral` | skeleton_media/cast/resolver.py:1499-1508 | so does every string, with brackets, quotes and escapes in it |
| `JsonScanner.QuotedIsNeutral` | skeleton_media/cast/resolver.py:1499-1508 | and every script string in either quote sign, with signs of the other kind in it |
| `JsonScanner.ContainerDepths` | skeleton_media/cast/resolver.py:1494-1512 | a bracketed neutral text has depth zero at its end and nowhere before |
| `JsonScanner.ClosesFirstIsUnique` | skeleton_media/cast/resolver.py:1487-1514 | the specification has at most one answer |
| `JsonScanner.ScanRendering` | skeleton_media/cast/resolver.py:1487-1514 | the scanner returns exactly the rendering |
| `Base64.DecodeUndoesEncode` | skeleton_media/cast/resolver.py:1278-1281 | padding repair and decoding undo encoding (section 4 of RFC 4648) for every byte string |
| `Base64.DecodeExtendsStrict` | skeleton_media/cast/resolver.py:1279-1281 | the forgiving decoder agrees with section 4 of RFC 4648 wherever that accepts |
| `Base64.JunkIsDiscarded` | skeleton_media/cast/resolver.py:1281-1281 | an ASCII character outside the alphabet changes nothing, wherever it stands |
| `Base64.PaddingEnds` | skeleton_media/cast/resolver.py:1281-1281 | a padding sign ends the text exactly when it completes a group; elsewhere it is discarded |
| `Base64.EncodeShape` | skeleton_media/cast/resolver.py:1278-1281 | an encoding holds alphabet characters, never one more than a multiple of four, and at least two for a non-empty input |
| `Base64.UnpaddedUndoesRepair` | skeleton_media/cast/resolver.py:1278-1279 | repaired padding is a multiple of four and comes off again |
| `PlayerJs.DescramblePiece` | skeleton_media/cast/resolver.py:1264-1276 | the piece as the sender cut it, by `DescrambleUndoesWire`, or unchanged when it cannot be scrambled |
| `PlayerJs.JoinDescrambled` | skeleton_media/cast/resolver.py:1264-1278 | the loop computes the text for which `PayloadDescrambles` gives back the sender's chunks |
| `PlayerJs.DecodePlaylist` | skeleton_media/cast/resolver.py:1250-1287 | header, separator, split, descrambling, padding, forgiving decoding and the readers after it, with each error in its place |
| `PlayerJs.DescrambleUndoesWire` | skeleton_media/cast/resolver.py:1264-1276 | a scrambled piece (head, junk, body, junk, digit) descrambles to head and body |
| `PlayerJs.ClearPieceSurvives` | skeleton_media/cast/resolver.py:1264-1276 | a clear piece is unchanged exactly when it does not look scrambled |
| `PlayerJs.ChunkCanBeSent` | skeleton_media/cast/resolver.py:1264-1276 | every separator-free chunk has a sendable form |
| `PlayerJs.SplitFirst` | skeleton_media/cast/resolver.py:1263-1264 | splitting takes off the first separator-free piece |
| `PlayerJs.PayloadDescrambles` | skeleton_media/cast/resolver.py:1263-1278 | joining, splitting and descrambling give back the chunks |
| `PlayerJs.DecodeUndoesSend` | skeleton_media/cast/resolver.py:1250-1287 | for every byte string, every cut into sendable pieces and every separator the readers get exactly those bytes, except when the payload is shorter than two characters |
| `CueCoverage.UnionDuration` | skeleton_media/video_understanding/transcript.py:387-399 | sort and sweep return the size of the union of the intervals, in any order, inverted ones included |
| `CueCoverage.CoverageWithinLargestEnd` | skeleton_media/video_understanding/transcript.py:226-230 | covered time never exceeds the largest end |
| `CueCoverage.NormalizeSegments` | skeleton_media/video_understanding/transcript.py:185-212 | the list whose covered time for each origin and text, order and fixed points are proved below, or the first of its three errors |
| `CueCoverage.NormalizePreservesCoverage` | skeleton_media/video_understanding/transcript.py:185-212 | merging keeps the covered time exactly |
| `CueCoverage.NormalizeKeepsOrigins` | skeleton_media/video_understanding/transcript.py:193-210 | for every language, provider and provenance its cues cover the same time before and after: cues of different origins are never merged |
| `CueCoverage.NormalizeKeepsWords` | skeleton_media/video_understanding/transcript.py:193-210 | and so for every folded text of an origin, over families where cleaning never changes a folding: cues of different words are never merged |
| `CueCoverage.KeptAreCues` | skeleton_media/video_understanding/transcript.py:188-210 | every kept cue is one of the list, but for its end and a text cleaned again |
| `CueCoverage.NormalizedInOrder` | skeleton_media/video_understanding/transcript.py:190-191 | accepted output starts in order |
| `CueCoverage.NormalizeFixedPoints` | skeleton_media/video_understanding/transcript.py:185-212 | exactly the lists in order without adjacent repetition are unchanged |
| `CueCoverage.NormalizeIdempotentIff` | skeleton_media/video_understanding/transcript.py:200-209 | over any family of texts closed under cleaning, every list is normalized by one pass exactly when cleaning a text of the family again never changes its folding |
| `CueCoverage.ListNormalizesOnce` | skeleton_media/video_understanding/transcript.py:200-209 | a list is normalized by one pass when no re-cleaning of its own texts changes a folding; when one does, some list of such texts is not |
| `CueCoverage.RecleanedTextBreaks` | skeleton_media/video_understanding/transcript.py:200-209 | every text whose folding changes has a list on which a second pass differs |
| `CueCoverage.SortedInputAccepted` | skeleton_media/video_understanding/transcript.py:190-191 | lists in order are never rejected for their order |
| `CueCoverage.UnrepeatedAcceptedIff` | skeleton_media/video_understanding/transcript.py:185-212 | without adjacent repetitions exactly the lists in order are accepted |
| `CueCoverage.HiddenStepIff` | skeleton_media/video_understanding/transcript.py:190-210 | after any accepted list in order, some cue that steps back is accepted too, exactly when the last cue was merged into one that started strictly before it |
| `CueCoverage.MergeHidesIff` | skeleton_media/video_understanding/transcript.py:190-210 | for a cue and its repetition, some cue behind the repetition is accepted exactly when the repetition started strictly later |
| `CueCoverage.AcceptedOutOfOrder` | skeleton_media/video_understanding/transcript.py:190-210 | a list out of order that is accepted because a merge hides the step |
| `RollingCaptions.FindOverlap` | skeleton_media/video_understanding/transcript.py:276-281 | the longest admissible overlap of tail and cue, zero when below two words |
| `RollingCaptions.HandleCue` | skeleton_media/video_understanding/transcript.py:263-298 | one cue makes exactly the step of which `StepKeepsSpeech` and `EmittedLines` speak, or the error of a line that cleans to nothing or too much |
| `RollingCaptions.CompactRollingCaptions` | skeleton_media/video_understanding/transcript.py:243-299 | the two range errors, the error of the first line that cannot be built, otherwise the output of `SpeechIsKept` and `RepetitionIsKept` |
| `RollingCaptions.RunBuildsSelection` | skeleton_media/video_understanding/transcript.py:282-294 | the output is the selected lines, each cleaned once more; the run fails exactly when one cannot be built, with the error of the first |
| `RollingCaptions.LineErrors` | skeleton_media/video_understanding/transcript.py:36-41 | a line is built exactly from words that make a text of one to 20000 characters |
| `RollingCaptions.NoWordIsDropped` | skeleton_media/video_understanding/transcript.py:260-299 | whatever the cues, the lines as selected, before that clean-up, lose no word of any cue |
| `RollingCaptions.RepetitionIsKept` | skeleton_media/video_understanding/transcript.py:263-298 | a cue further than the gap behind the last one, before its start, or of another language or provider is emitted whole, whatever it repeats, and unmarked |
| `RollingCaptions.BreakForgets` | skeleton_media/video_understanding/transcript.py:263-275 | what follows such a cue is compacted as if the list began with it |
| `RollingCaptions.StepKeepsSpeech` | skeleton_media/video_understanding/transcript.py:263-298 | right after a cue whose words survive cleaning the emitted stream ends with all of its tokens, and only grew |
| `RollingCaptions.RunKeepsTail` | skeleton_media/video_understanding/transcript.py:295-297 | for such cues the tail is a bounded suffix of the emitted stream |
| `RollingCaptions.SpeechIsKept` | skeleton_media/video_understanding/transcript.py:260-299 | for every list of cues whose words survive cleaning, no line fails and no cue's speech is missing from the final stream |
| `RollingCaptions.OneCueKeptIff` | skeleton_media/video_understanding/transcript.py:282-294 | a lone cue is kept exactly when its words cleaned again make a text that ends with all its tokens |
| `RollingCaptions.SpeechKeptIff` | skeleton_media/video_understanding/transcript.py:260-299 | over any family of texts closed under dropping leading words, where cleaning puts no words before kept ones: all speech of all lists is kept exactly when every text survives |
| `RollingCaptions.DecodedMarkupIsLost` | skeleton_media/video_understanding/transcript.py:73-78 | the cue with the words `<div>` and `element` loses its first word, and one of `<div>` alone stops the compaction |
| `RollingCaptions.EmittedLines` | skeleton_media/video_understanding/transcript.py:282-294 | each emitted line is a source cue with the clean-up of what follows an overlap of no or at least two words, said by the lines right before it; marked exactly when something was removed |
| `RollingCaptions.GrowingPhraseIsSaidOnce` | skeleton_media/video_understanding/transcript.py:251-254 | a growing phrase whose words survive cleaning is emitted once |
| `FrameSelection.CollectCandidates` | skeleton_media/video_understanding/vision.py:114-125 | the candidates of `CandidatesWithin`: the grid and the in-range times, each once |
| `FrameSelection.TakeSamples` | skeleton_media/video_understanding/vision.py:132-134 | the samples whose positions `SampleIndicesIncrease` shows distinct |
| `FrameSelection.Thin` | skeleton_media/video_understanding/vision.py:129-135 | priority moments first, then samples, sorted, without repetition, within the limit |
| `FrameSelection.SelectFrameTimestamps` | skeleton_media/video_understanding/vision.py:93-135 | both errors first, nothing in quick mode, otherwise the selection of `FramesAreSound` |
| `FrameSelection.SampleIndicesIncrease` | skeleton_media/video_understanding/vision.py:132-134 | sampled positions are in range without the clamp and strictly increase |
| `FrameSelection.GridSizes` | skeleton_media/video_understanding/vision.py:108-113 | the grid has one point for each 90, 45 or 60 seconds, rounded, at least 6, 12 or 8 of them, and at most the limit |
| `FrameSelection.RoundsTo` | skeleton_media/video_understanding/vision.py:109-126 | rounding goes to the nearest whole number, from the middle to the even one |
| `FrameSelection.GridIsEven` | skeleton_media/video_understanding/vision.py:114-119 | grid points run from the beginning to the end in equal steps; a single one is the middle |
| `FrameSelection.TopUpIsSpread` | skeleton_media/video_understanding/vision.py:130-135 | what the priority moments leave of the limit is filled with moments of the rest at even positions |
| `FrameSelection.SelectionIsSound` | skeleton_media/video_understanding/vision.py:127-135 | in order, within the limit, made of candidates, without repetition when thinned |
| `FrameSelection.FramesAreSound` | skeleton_media/video_understanding/vision.py:93-135 | for every request: in order, within the media, at most the limit |
| `FrameSelection.CandidatesWithin` | skeleton_media/video_understanding/vision.py:114-125 | candidates lie within the media and contain every in-range time |
| `FrameSelection.PriorityKeptIff` | skeleton_media/video_understanding/vision.py:127-135 | every priority moment is kept exactly when nothing is thinned or the cut is harmless |
| `FrameSelection.TimeKeptIff` | skeleton_media/video_understanding/vision.py:126-135 | an in-range time gets a frame exactly when nothing is thinned or fewer than the limit claim an earlier millisecond that some time asks for |
| `FrameSelection.TimesKeptIff` | skeleton_media/video_understanding/vision.py:93-135 | for all times, whole milliseconds or not: all in-range ones get a frame exactly when grid and times fit the limit or that holds before each |
| `FrameSelection.FewClaimantsAllKept` | skeleton_media/video_understanding/vision.py:93-135 | all are kept when the distinct in-range times and the grid points sharing a millisecond with one are at most the limit |
| `FrameSelection.ThinningUsesTheLimit` | skeleton_media/video_understanding/vision.py:130-135 | without shared milliseconds thinning leaves exactly the limit |
| `FrameExample.SharedMillisecondDropsCue` | skeleton_media/video_understanding/vision.py:126-130 | three cues, a limit of four, and the last cue gets no frame |
| `ArtifactStore.CanonicalIffRearranged` | skeleton_media/video_understanding/manifest.py:66-80 | two manifests have one canonical form exactly when headers agree and entries rearrange each other |
| `ArtifactStore.CountMismatches` | skeleton_media/video_understanding/manifest.py:109-116 | the number of listed files observed with another hash or size; zero exactly when none is |
| `ArtifactStore.VerifyInventory` | skeleton_media/video_understanding/manifest.py:101-123 | all counters, and verified exactly when the inventory agrees |
| `ArtifactStore.AgreesIffEqual` | skeleton_media/video_understanding/manifest.py:105-118 | agreement is equality of the observed map and the listed map |
| `ArtifactStore.Inventoried` | skeleton_media/video_understanding/artifact_store.py:137-161 | lists every file that counts, once |
| `ArtifactStore.ListingsRearrange` | skeleton_media/video_understanding/artifact_store.py:144-161 | all listings of one tree rearrange each other |
| `ArtifactStore.ReadBackIffNoPart` | skeleton_media/video_understanding/artifact_store.py:163-177 | readback agrees with the listing exactly when no partial file is left |
| `ArtifactStore.PrivateArtifactStore.Finalize` | skeleton_media/video_understanding/artifact_store.py:74-135 | listing, promotion or replay, conflict and readback, with the state each leaves |
| `ArtifactStore.EarlyErrors` | skeleton_media/video_understanding/artifact_store.py:86-125 | symbolic links, an empty set, identities that collide and an occupied manifest each have their error and leave the store alone; past them a new target is a copy under the manifest's hash and an old one is a conflict exactly under another hash |
| `ArtifactStore.PrivateArtifactStore.VerifyTarget` | skeleton_media/video_understanding/artifact_store.py:163-180 | symbolic link first, then readback mismatch, then manifest hash; no error exactly when all agree |
| `ArtifactStore.TargetsAreWriteOnce` | skeleton_media/video_understanding/artifact_store.py:105-125 | over any run a promoted target never changes |
| `ArtifactStore.ListingOrderIsIrrelevant` | skeleton_media/video_understanding/artifact_store.py:86-135 | the order of the listing never shows |
| `ArtifactStore.NormalReturnIsVerified` | skeleton_media/video_understanding/artifact_store.py:105-135 | a normal return means the readback matched; replay exactly when the target was there with that hash |
| `ArtifactStore.FreshFinalizeIff` | skeleton_media/video_understanding/artifact_store.py:121-135 | a new revision is finalized exactly when no partial file is left over |
| `ArtifactStore.SpoiledForever` | skeleton_media/video_understanding/artifact_store.py:105-126 | a target that holds a partial file is never returned: after any calls, none for its revision ends normally |
| `ArtifactStore.LeftoverSpoilsRevision` | skeleton_media/video_understanding/artifact_store.py:105-126 | so a partial file left over at the first call spoils its revision for good |
| `ArtifactStore.SecondFinalizeReplays` | skeleton_media/video_understanding/artifact_store.py:105-116 | finalizing the same workspace later is a replay under the same hash, whatever came between |
| `ChannelOrder.OrderedChannels` | skeleton_media/cast/iptv.py:91-125 | the rows of which `DisplayIs`, `RowsAre` and `NumbersAreConsecutive` speak, hidden ones only for the editor |
| `ChannelOrder.DisplayIs` | skeleton_media/cast/iptv.py:94-113 | the display order: listed channels by first mention, the others after them, equals as the catalog has them |
| `ChannelOrder.RowsAre` | skeleton_media/cast/iptv.py:114-121 | each channel has a row at its position, hidden exactly when its key is, and then without a number |
| `ChannelOrder.VisibleRowsAre` | skeleton_media/cast/iptv.py:122-122 | the viewer sees exactly the visible rows, in their order |
| `ChannelOrder.NumbersAreConsecutive` | skeleton_media/cast/iptv.py:114-121 | visible channels are numbered from one in display order |
| `ChannelOrder.OrderIsAsListed` | skeleton_media/cast/iptv.py:94-113 | when preferences begin with all catalog keys, the display order is that list, channels that share a key standing together; exactly so when keys are distinct |
| `ChannelOrder.Television.SavePreferences` | skeleton_media/cast/iptv.py:221-246 | each rejection leaves the preferences alone; otherwise the new order and hidden keys |
| `ChannelOrder.EditAcceptedIff` | skeleton_media/cast/iptv.py:227-234 | repeated keys, then unknown keys, then an empty screen are rejected, and nothing else is |
| `ChannelOrder.EditIsHonoured` | skeleton_media/cast/iptv.py:221-247 | for every catalog, repetitions of a shared key apart: the editor shows the submitted order, then unmentioned channels as before, exactly so when keys are distinct; visible are exactly the submitted; retired keys keep their order |
| `ChannelOrder.Television.Step` | skeleton_media/cast/iptv.py:343-354 | one step from the stored channel; an error when nothing is visible |
| `ChannelOrder.StepFrom` | skeleton_media/cast/iptv.py:347-354 | a step starts from the first visible channel with the stored key or the stored id |
| `ChannelOrder.StepFromNowhere` | skeleton_media/cast/iptv.py:351-353 | when nothing shown is playing a step forward leads to the first visible channel, a step back to the last |
| `ChannelOrder.StepMoves` | skeleton_media/cast/iptv.py:343-354 | from a visible channel a step leads to its neighbour, around the ends |
| `ChannelOrder.LandsIff` | skeleton_media/cast/iptv.py:251-261 | whatever the ids, a step lands on its target exactly when no earlier channel of the whole list has that id for its id, key or former id |
| `ChannelOrder.BackUndoesForward` | skeleton_media/cast/iptv.py:343-354 | a step back undoes a step forward |
| `ChannelOrder.ForwardVisitsAll` | skeleton_media/cast/iptv.py:343-354 | as many forward steps as there are visible channels visit every one and return |
| `ChannelOrder.ForwardVisitsOnce` | skeleton_media/cast/iptv.py:343-354 | and none twice on the way |
| `Candidates.NormalizeCandidates` | skeleton_media/cast/media_search.py:350-368 | the list characterized by `NormalizedHoldsTheBest` |
| `Candidates.NormalizedHoldsTheBest` | skeleton_media/cast/media_search.py:350-368 | sorted by rank, one element a key, holding exactly the first of the best ranked playable releases of each key that has one |
| `Candidates.NormalizeIsIdempotent` | skeleton_media/cast/media_search.py:350-368 | normalizing twice is normalizing once |
| `Candidates.OrderIsIrrelevant` | skeleton_media/cast/media_search.py:366-368 | with ranks that tell candidates apart the result does not depend on input order |
| `Candidates.PairOrderIrrelevantIff` | skeleton_media/cast/media_search.py:366-368 | for two playable releases arrival order is invisible exactly when their ranks differ or they are the same |
| `Candidates.RankIsTotal` | skeleton_media/cast/media_search.py:520-527 | ranks are total, and equal exactly when all five parts are |
| `Candidates.RankPrefers` | skeleton_media/cast/media_search.py:520-527 | first the lower order, then the greater height, then the greater bitrate, then provider and source as text |

## Left out

What the models do not capture:

- Times are whole milliseconds (`CueCoverage`, `RollingCaptions`) or exact reals (queue, frames, ranks); binary rounding of floats, infinities and non-numeric cue times are not modelled.
- Queue records: JSON encoding, payload validation and re-validation on reading, file permissions and fsync; the record id is the file's name; the lock is modelled as calls that do not overlap.
- Worker: the pipeline is an arbitrary outcome and heartbeats happen at arbitrary instants of a pass; other processes queue jobs between passes and not during one; polling and the stop event are left out.
- VideoWorker.WorkerDrivesToFinal: needs that no other process claims or recovers meanwhile; with others and with crashes, `AttemptsAreBounded` gives the bound.
- Release monitor: one title, calls that do not overlap; the scraped page is an arbitrary snapshot within its own pattern; TMDB identity errors, titles, schedules, the rows of films and columns nobody reads again.
- ReleaseMonitor.MonitorIsSafe: safety only, because a pending key equal to the notified one never clears.
- Trakt: payloads, credentials, HTTP errors that raise (they are a flush that dies), rounding of the progress, the log of sent posts; what the query returns among equally old rows is arbitrary.
- Resolver: the UTF-8 and JSON readers after the bytes are known are a parameter; separator digits outside ASCII; JSON numbers and literals are any bracket-free and quote-free tokens; `_cinemar_playlist_files` is a plain tree walk.
- Transcript: parsing of VTT, SRT and JSON transcripts, timestamps, quality reasons and recognizer comparison; folding and clean-up are arbitrary functions.
- RollingCaptions.HandleCue: the clean-up is an arbitrary function on lists of words, so it is assumed to depend on the words alone, not on the white space between them.
- RollingCaptions.SpeechKeptIff: the words `(<!>y` clean to `(` and `y`, all tokens kept and an empty one before; for families with such words only `SpeechIsKept` and `OneCueKeptIff` apply. A word like `a&nbsp;b`, which cleans to two other words, is covered, as one that does not survive.
- Frames: probing, extraction, OCR, and the greedy removal of near-duplicate frames.
- Artifacts: SHA-256 is a function parameter; the manifest's media types and path validation, symbolic links created between listing and readback, and failing file operations.
- Channels: names, programme guide, sources and playback; a stepping channel is always found under its own id, so `StepMoves` and what follows need ids that are unambiguous across new, stable and legacy ids (`LandsIff` is exact for one step).
- Search: providers, timeouts, the circuit breaker, release tracking and facets.
- Resume history of the player, the input-hold broker of the remote, and the installers, servers and clients around all this: easy or effects only.
