# Verified model of the conversation archive

The system accepts captured messages at least once and aims to archive each exactly once. Browser extensions queue
captures offline and send them in batches; the backend resolves each message's identity, keeps an append-only version
history, and writes every accepted capture to object storage through a job queue. This project models that path and the
components beside it in Dafny and proves properties of every call, every reachable state and every run.

`dafny verify dfyconfig.toml` checks everything. Nothing here executes the original program.

| component | pure model and its properties | the same statements over mutable state |
|---|---|---|
| message ingestion | `Identity`, `Ingestion`, `NewestFirst`, `IngestEffects`, `ArchiveInvariant`, `ArchiveSteps`, `ArchiveRuns`, `Deduplication`, `SecondVersion`, `ExactlyOnce`, `StatementEffects` | `IngestService` |
| job queue and worker | `Jobs`, `JobRuns` | `JobQueue` |
| transactional outbox (ingestion, jobs and object storage together) | `Outbox`, `OutboxRuns`, `OutboxJobs`, `OutboxDelivery` | |
| sliding-window rate limiter | `RateLimit`, `RateAnswers` | `RateLimiter` |
| client offline queue and flush loop | `OfflineQueue`, `OfflineRuns`, `OfflineAnswers` | `OfflineStore` |
| image metadata stripping | `Bytes`, `Png`, `PngChunks`, `Jpeg`, `JpegSegments`, `Exif` | the loops `Png.Walk`, `Jpeg.Walk` |
| attachment lifecycle and its finalization jobs | `Attachments`, `AttachmentJobs`, `AttachmentAnswers` | `AttachmentService` |
| exports | `Exports`, `ExportOrder` | `Exports.RunExport` and its helpers |
| monthly partitions | `Partitions` | `Partitions.Catalog` |

How the source is represented:

* Tables are sequences and a row's id is its position; PostgreSQL transactions are single steps, except that a claim's
  `SELECT ... FOR UPDATE SKIP LOCKED` and its update are two steps with other sessions between them. Ties in a claim's
  order fall to table position.
* Object storage is a map. The archive handler's put is a step of its own, outside the database commit; a worker may
  crash between any two steps, and a completion may arrive after its lock was lost.
* Hashes are constructors of what was hashed, hence injective. Text normalisation, text cleaning, content sniffing and
  file-name cleaning are arbitrary functions of the environment. Time is a number. Random backoff is an arbitrary delay.
* A class method computes a function of the old state, named in its `ensures`. What such a function does is stated
  again without it, in the columns of the rows it reads and writes: `IngestEffects` and `StatementEffects` for the archive,
  the lemmas named `...Exactly` for jobs, the `...Answers` modules for attachments, the limiter and the offline queue,
  `PngChunks` and `JpegSegments` for bytes on disk, and `OutboxDelivery` from the delivery to the stored object.

What turned out false of the code is stated with its exact condition:

* a replay is a no-op exactly when it names a conversation captured before (`ExactlyOnce.ReplayIsNoOpExactly`); a key
  reused for an unknown conversation creates that conversation (`ExactlyOnce.ReusedKeyCreatesConversation`);
* re-delivering stored content under a new key writes a second version exactly when the payload's source id names a
  message that lacks the content (`Deduplication.RowsWrittenExactly`); `SecondVersion.RedeliveryCanAddVersion` is such a run;
* a replayed conversation upsert is applied before it is recognised as one: it is a no-op exactly when the conversation
  has an owner, a browser source and no weaker coverage and shows every title, url, model and update time the upsert
  carries (`ExactlyOnce.UpsertReplayIsNoOpExactly`); a late replay puts old ones back
  (`ExactlyOnce.LateUpsertRestoresDetails`);
* `attempts <= max_attempts` fails exactly when a job is recovered from a stale lock with its attempts already used up and
  later claimed again (`JobRuns.AttemptsExceedExactly`, with a run in `JobRuns.RecoveryExceedsMaxAttempts`); the bound that
  always holds is `JobRuns.AttemptAccounting`;
* stripping a JPEG twice differs from stripping it once exactly when the first pass kept a standalone marker last and copied
  no tail (`Jpeg.IdempotentExactly`, with an input in `Jpeg.NotIdempotentInGeneral`);
* `exif.py` documents its JPEG markers as APP1, APP2, APP13 and comments, but its set also holds `0xE13 & 0xFF`, which is the
  marker `0x13`: the code strips what it documents exactly when no parsed segment has that marker
  (`Jpeg.StripsAsDocumentedExactly`, with an input in `Jpeg.ExtraMarkerIsStripped`).

## Model

| member | source | states |
|---|---|---|
| Identity.FingerprintsAgree | services/backend/app/core/crypto.py:65-100 | two captures fingerprint alike iff conversation, role and normalised text agree, both positions lie in one run of five and both timestamps in one aligned five-minute window, a missing timestamp counting as the epoch |
| Ingestion.CoverageMergeLaws | services/backend/app/services/ingest.py:338-358 | the six coverages in their order; browser claims only raise coverage, never assert compliance coverage, and commute and repeat without effect |
| IngestEffects.AcceptedWrites | services/backend/app/services/ingest.py:579-724 | an accepted delivery writes exactly one next-numbered version of the right message with its text, parts and flags, one event recording it, its message (branch, completion and all), conversation and branch rows, its key's ids, and only its archive, snapshot and (if partial) reconcile jobs, each with its task, priority and eight attempts; every other row and job stays |
| IngestEffects.DuplicateWrites | services/backend/app/services/ingest.py:611-656 | content seen again writes no event, message or version: at most the matching version turns from partial to reconciled, its message complete and a snapshot job live, iff the new capture is complete; its conversation is touched as by any capture and every other row stays |
| IngestEffects.ReplayWrites | services/backend/app/services/ingest.py:529-553 | a delivery under a claimed key is answered with its conversation and the stored ids, and writes nothing but that conversation as any capture touches it |
| Deduplication.RecognisedExactly | services/backend/app/services/ingest.py:432-476 | an item is recognised by source id before fingerprint before content, by content as the message lowest in the transcript, and not at all where no layer matches |
| Deduplication.OutcomeExactly | services/backend/app/services/ingest.py:508-756 | each of the five answers to a delivery has exactly one condition: wrong declared hash, claimed key, content already held, a part index repeated among the first 500, or none of these |
| Deduplication.StoredIsIdentified | services/backend/app/services/ingest.py:432-476 | whatever message an item was stored under identifies that item from then on by source id, fingerprint or content |
| Deduplication.RowsWrittenExactly | services/backend/app/services/ingest.py:432-476 | under a fresh key a message row is written iff nothing recognises the item, and a version iff that or a source id overrides the content |
| Deduplication.RedeliveryIsSafe | services/backend/app/services/ingest.py:432-656 | once stored, a payload under any key, after any run with any pruning of keys, never makes a second message, and without a source id never a second version |
| SecondVersion.RedeliveryCanAddVersion | services/backend/app/services/ingest.py:440-453 | a run of four deliveries under four keys in which a payload stored as a duplicate comes back and becomes a second version |
| ExactlyOnce.ReplayIsNoOpExactly | services/backend/app/services/ingest.py:529-553 | a replay changes nothing but last_captured_at iff its conversation has been captured before, and always answers with the ids stored for the key |
| ExactlyOnce.ReusedKeyCreatesConversation | services/backend/app/services/ingest.py:529-553 | a claimed key naming an unknown conversation is answered as a replay yet adds the conversation |
| ExactlyOnce.ExactlyOnceEffect | services/backend/app/services/ingest.py:508-756 | over any run of deliveries, upserts, imports, reconcile jobs and prunings in which a repeated message key names its own conversation and repeated upserts show nothing new, dropping the repeats leaves every table and the jobs the same up to last_captured_at |
| ExactlyOnce.ReplaysAnswerAlike | services/backend/app/services/ingest.py:125-185 | every later delivery under a claimed key answers with the ids of the first, whatever deliveries, upserts, imports, reconcile jobs and prunings of older keys came between |
| ExactlyOnce.UpsertReplayIsNoOpExactly | services/backend/app/services/ingest.py:361-388 | a replayed upsert changes nothing but last_captured_at iff its conversation exists with an owner, a browser source, no weaker coverage, and shows each title, url, model and source update time carried, an empty string counting as not carried |
| ExactlyOnce.LateUpsertRestoresDetails | services/backend/app/services/ingest.py:374-388 | after a newer upsert has overwritten a conversation's title, url, model or update time, re-delivering an older one puts back whatever it carries |
| ExactlyOnce.RolledBackItemsLeaveNoTrace | services/backend/app/services/ingest.py:768-814 | a batch equals its unfaulted items delivered in order: rolled-back items leave nothing, not even a key, and only a policy error aborts |
| ExactlyOnce.StatusesTellOutcomes | services/backend/app/services/ingest.py:768-814 | in a batch not aborted every item is told exactly what delivering it after the unfaulted items before it came to, or the fault that struck it |
| ExactlyOnce.FailedItemsChangeNothing | services/backend/app/services/ingest.py:508-530 | an item is rejected iff its declared hash is wrong, and a rejected or conflicting item changes nothing |
| ArchiveSteps.IngestKeepsInv | services/backend/app/services/ingest.py:579-708 | one delivery keeps: version numbers exactly 1..version_count, current version the newest, no repeated content in a message, unique fingerprints and source ids, exact message counts, one event per version |
| ArchiveSteps.UpsertKeepsInv | services/backend/app/services/ingest.py:361-406 | a conversation upsert keeps the same invariant |
| ArchiveSteps.ReconcileChangesNothing | services/backend/app/workers/handlers.py:258-301 | in every archive meeting the invariant the reconcile job is a no-op, so it can never move the current version off the newest |
| ArchiveRuns.RunKeepsInv | services/backend/app/services/ingest.py:579-708 | the structural invariant holds after every run of deliveries, upserts, imports, prunings and reconcile jobs |
| ArchiveRuns.RunExtends | services/backend/app/services/ingest.py:620-708 | along any run history is append-only: stored text, hashes and numbers never change, status moves only from partial to reconciled, complete messages stay complete |
| ArchiveRuns.CurrentVersionAdvances | services/backend/app/services/ingest.py:700-705 | the current version of a message only ever moves to a later number |
| IngestService.Session.IngestMessage | services/backend/app/services/ingest.py:508-756 | the in-place statements compute one delivery's specified archive and outcome |
| IngestService.Session.IngestMessageBatch | services/backend/app/services/ingest.py:768-814 | the savepoint loop computes the specified batch result |
| IngestService.Session.Upsert | services/backend/app/services/ingest.py:361-406 | the in-place conversation upsert computes its specification |
| IngestService.Session.GetOrCreate | services/backend/app/services/ingest.py:257-328 | finds or creates the conversation, overwriting title, url (cut at 2048), model and update time where carried, and filling coverage, owner and sources |
| StatementEffects.UpsertWrites | services/backend/app/services/ingest.py:361-406 | an upsert replaces or creates its conversation column by column (empty texts ignored, url cut at 2048, owner and creation time kept), and under a fresh key records one event, its key and its archive and snapshot jobs; under a claimed key nothing more |
| StatementEffects.ImportWrites | services/backend/app/services/compliance_import.py:196-235 | a compliance import asserts compliance coverage and its source, claims nothing for the browser, and records no event, key or job |
| StatementEffects.PruningFrees | services/backend/app/services/retention.py:186-190 | pruning forgets exactly the keys older than the cutoff, after which a delivery under such a key is no replay |
| StatementEffects.ReconcileWrites | services/backend/app/workers/handlers.py:258-301 | in any archive at all, the reconcile job acts exactly on an incomplete message with a complete version: the highest-numbered one becomes current, partial versions reconciled, the conversation stale, nothing else |
| IngestService.Session.ReconcilePartial | services/backend/app/workers/handlers.py:258-301 | the search newest first for a complete version and the loop marking the partial ones compute the specification; on any archive meeting the invariant nothing changes |
| NewestFirst.FirstCompleteIsNewest | services/backend/app/workers/handlers.py:273-284 | reading a message's versions by descending number, the first complete one is the complete one of highest number |
| Jobs.SelectionIsDueFirst | services/backend/app/services/jobs.py:104-116 | in the columns: a claim selects only pending, due, unlocked rows, in order of priority, due time and creation, and leaves one out only when the limit was reached by rows not after it |
| Jobs.ClaimRowsEffect | services/backend/app/services/jobs.py:117-141 | claiming changes exactly the selected rows, each running since now for its worker under its own new token with one attempt more and nothing else changed |
| Jobs.EnqueueKeepsInv | services/backend/app/services/jobs.py:51-90 | enqueueing keeps at most one live job per dedupe key and locks in step with status |
| Jobs.EnqueueExactly | services/backend/app/services/jobs.py:51-90 | a row is added iff no pending or running row has the key, pending, unlocked, unattempted and due as asked |
| Jobs.CompletionExactly | services/backend/app/services/jobs.py:158-181 | a completion frees its row as succeeded iff it holds the row's token, and otherwise changes nothing |
| Jobs.FailureExactly | services/backend/app/services/jobs.py:184-210 | a failure with the row's token reschedules after the delay while attempts are left, else fails it, or buries what cannot be retried; without the token nothing changes |
| Jobs.RecoveryExactly | services/backend/app/services/jobs.py:213-243 | recovery takes exactly the running rows locked before the cutoff or without a lock time, pending again and due now; rows locked at the cutoff or later, and rows not running, are unchanged |
| Jobs.BackoffCeilingShape | services/backend/app/services/jobs.py:42-48 | the backoff ceiling starts at five seconds, doubles with every attempt until it is one hour, which is from attempt ten on, and never falls |
| JobRuns.StepKeepsInv | services/backend/app/services/jobs.py:93-243 | every step keeps: running iff holding a token, tokens unshared, one live job per dedupe key, open claims disjoint and pending |
| JobRuns.FinishedForever | services/backend/app/services/jobs.py:158-210 | succeeded, failed and dead rows never change again, whatever run follows |
| JobRuns.AttemptAccounting | services/backend/app/services/jobs.py:117-135 | attempts equals the claims made, is at most max_attempts plus recoveries, and strictly less while pending |
| JobRuns.FinishedAfterMaxAttempts | services/backend/app/services/jobs.py:199-205 | without recovery a job is claimed at most max_attempts times and is then finished for good |
| JobRuns.AttemptsExceedExactly | services/backend/app/services/jobs.py:117-238 | in every run a job's attempts exceed max_attempts iff it was recovered from a stale lock with its attempts used up and claimed again afterwards |
| JobRuns.RecoveryExceedsMaxAttempts | services/backend/app/services/jobs.py:224-238 | a run in which a recovery 301 seconds on lets a one-attempt job run twice |
| JobRuns.IssuedClaimsAreFresh | services/backend/app/models/jobs.py:117-117 | no two claims of a run share a token, nor job and attempt number |
| JobRuns.LateSettlementsChangeNothing | services/backend/app/services/jobs.py:158-195 | once consumed, a token is gone for good and completing or failing with it changes nothing |
| JobRuns.TokenConsumedAtMostOnce | services/backend/app/services/jobs.py:158-243 | each token is consumed at most once by completion, failure or recovery |
| JobRuns.BeginningLocksDue | services/backend/app/services/jobs.py:104-116 | beginning a claim locks, as of its own time, the first rows that are pending, due and locked by no other session, and changes no row |
| JobRuns.LockHeldExactly | services/backend/app/services/jobs.py:158-243 | along every run a running job keeps its row and lock iff no step settles it with its token and no recovery has a cutoff later than its lock time |
| JobRuns.ClaimLastsExactly | services/backend/app/services/jobs.py:117-243 | hence a job claimed at a time keeps its token iff nobody settles it with that token and no recovery reaches past that time |
| JobQueue.JobTable.ClaimJobs | services/backend/app/services/jobs.py:93-141 | the claim loop claims exactly the selection, skipping other sessions' locks, and keeps the invariant |
| JobQueue.JobTable.FailJob | services/backend/app/services/jobs.py:184-210 | reschedules or buries under the token guard, and changes nothing for anyone else's token |
| JobQueue.JobTable.RecoverStaleJobs | services/backend/app/services/jobs.py:213-243 | returns exactly the running rows locked before the cutoff to pending without their tokens, and counts them |
| JobQueue.Worker.Execute | services/backend/app/workers/worker.py:77-131 | a claimed job ends done, rescheduled within its backoff range or buried, as its handler ended, and the attempt is logged under the number it was claimed with |
| JobQueue.Worker.RunOnce | services/backend/app/workers/worker.py:64-75 | claims, then settles and logs every claimed job, and touches no other |
| OutboxRuns.StepKeepsInv | services/backend/app/workers/handlers.py:55-109 | every step of ingestion, claim, put, commit, crash, lock loss and recovery keeps archive, queue, store and handlers consistent |
| OutboxRuns.NoEventForgotten | services/backend/app/workers/handlers.py:55-109 | in every interleaving each version has exactly one event, an archived event's own document is in storage, and an unarchived event has an archive job neither succeeded nor dead |
| OutboxDelivery.AcceptedIsStoredAsSent | services/backend/app/workers/handlers.py:78-109 | in every state of every run after an accepted delivery, what is stored for its event is exactly that payload under its key, conversation and message, and it is there once the event is archived |
| OutboxDelivery.UpsertIsStoredAsSent | services/backend/app/workers/handlers.py:78-109 | the same for a conversation upsert under a fresh key |
| OutboxJobs.UnarchivedIsTriedToTheEnd | services/backend/app/services/jobs.py:184-210 | an unarchived event's archive job is pending, running, or failed only after all its attempts |
| OutboxJobs.RunProjects | services/backend/app/workers/worker.py:64-131 | every run of the outbox is, on the job table, a run of the job system with the same recoveries of every job |
| OutboxJobs.OutboxAttemptsBounded | services/backend/app/services/jobs.py:117-135 | in every outbox run a job's attempts stay within max_attempts plus that job's recoveries, strictly while pending |
| OutboxJobs.RecordedAttemptsNeverRepeat | services/backend/app/services/jobs.py:144-155 | attempt rows committed by handlers never repeat a job's attempt number, in any interleaving with crashes |
| OutboxJobs.JobsNameWork | services/backend/app/services/ingest.py:409-425 | in every run a job does the work its dedupe key names, so a live job found under a key is the one wanted |
| RateLimit.ChecksCountTheWindow | services/backend/app/core/ratelimit.py:58-77 | until the cold half is evicted, the pruned deque answers as counting all past admissions in [now - window, now] would |
| RateLimit.EveryWindowIsBounded | services/backend/app/core/ratelimit.py:58-77 | until then every closed interval of window length admits at most `limit` cost per key |
| RateAnswers.MemoryIsBoundedInNumbers | services/backend/app/core/ratelimit.py:46-64 | never more than 102048 tracked keys, and no deque longer than the limit |
| RateLimit.WaitingIsHonoured | services/backend/app/core/ratelimit.py:66-74 | a denied cost-1 caller that waits retry_after alone on its key is admitted, whatever other keys do |
| RateAnswers.WaitIsExact | services/backend/app/core/ratelimit.py:66-77 | until an eviction, a denial leaves nothing and its wait is the whole seconds, rounded up past the next, until the oldest admission in the window leaves it (the window itself if it holds none); an admission asks for none |
| RateAnswers.NoShorterWaitHelps | services/backend/app/core/ratelimit.py:66-74 | and after any shorter whole wait the same call would still be over the limit |
| RateAnswers.CleaningKeepsExactly | services/backend/app/core/ratelimit.py:46-62 | other keys stay between cleanings; every 2048th call keeps exactly the keys hit within the window, less a coldest half when they are more than 100000 |
| RateLimiter.SlidingWindowLimiter.Check | services/backend/app/core/ratelimit.py:58-77 | the popleft and append loops over the table are one step of the specified limiter |
| RateLimiter.SlidingWindowLimiter.Prune | services/backend/app/core/ratelimit.py:46-56 | drops exactly the stale keys, and then a coldest half if too many remain |
| RateLimiter.Strictest | services/backend/app/core/ratelimit.py:113-121 | allowed iff all verdicts are; the longest wait among denials, else the least remaining |
| OfflineQueue.ListingIsUnique | apps/chrome-extension/src/modules/offline-queue.ts:49-54 | a store has exactly one listing in age order |
| OfflineAnswers.ListedByAge | apps/chrome-extension/src/modules/offline-queue.ts:49-54 | the listing goes by creation time, then sequence number, then id |
| OfflineQueue.SurvivorsAreLongest | apps/chrome-extension/src/modules/offline-queue.ts:197-228 | the survivors are the longest suffix of the age order meeting the age, count and byte bounds together |
| OfflineQueue.EnforcedIsLongestSuffix | apps/chrome-extension/src/modules/offline-queue.ts:197-234 | what enforcing the limits leaves in the store is listed by exactly that suffix |
| OfflineAnswers.EnforcingCutsOldest | apps/chrome-extension/src/modules/offline-queue.ts:197-234 | enforcing leaves all rows from the first place on from which age, count and byte bounds are met, or none |
| OfflineAnswers.EnqueueAnswers | apps/chrome-extension/src/modules/offline-queue.ts:104-138 | an item is refused, without any change, iff it alone is over the byte bound or its key is queued; else it is stored and the bounds enforced |
| OfflineQueue.EnforcingTwiceIsOnce | apps/chrome-extension/src/modules/offline-queue.ts:197-234 | enforcing the same limits again evicts nothing |
| OfflineQueue.NewestSurvivesItsEnqueue | apps/chrome-extension/src/modules/offline-queue.ts:104-138 | a newest item within the byte budget is never the victim of its own enqueue when maxItems >= 1 |
| OfflineQueue.DueIsPicked | apps/chrome-extension/src/modules/offline-queue.ts:140-147 | a flush takes the oldest due items, up to its limit, in age order |
| OfflineQueue.DispatchSettlesRows | apps/chrome-extension/src/background/sync-engine.ts:119-145 | rows not dispatched are untouched; a dispatched one is gone or waits with one more attempt, exactly as its reply says |
| OfflineAnswers.TallyCountsReplies | apps/chrome-extension/src/background/sync-engine.ts:110-147 | succeeded, retried and dropped each count exactly the replies they name, and back-pressure is reported iff one not given up at once asked for it |
| OfflineRuns.FlushConserves | apps/chrome-extension/src/background/sync-engine.ts:110-147 | attempted = succeeded + retried + dropped, the queue shrinks by exactly succeeded + dropped, and rows not due are as before |
| OfflineRuns.StepKeepsQueue | apps/chrome-extension/src/modules/offline-queue.ts:104-179 | every enqueue, sweep and flush keeps keys unique, attempts below maxAttempts, and the count and byte caps |
| OfflineRuns.RunKeepsQueue | apps/chrome-extension/src/modules/offline-queue.ts:104-234 | hence along every run from an empty store |
| OfflineRuns.DispatchesAreBounded | apps/chrome-extension/src/modules/offline-queue.ts:162-179 | along every run dispatches plus attempts still available never exceed maxAttempts per accepted item, so without new items only finitely many occur |
| OfflineStore.QueueStore.EnforceLimits | apps/chrome-extension/src/modules/offline-queue.ts:197-234 | the eviction loops with their running byte total leave exactly the longest fitting suffix and count the evicted |
| OfflineStore.QueueStore.Enqueue | apps/chrome-extension/src/modules/offline-queue.ts:104-138 | refuses what is too large or already queued, else stores it and enforces the limits |
| OfflineStore.QueueStore.TakeDue | apps/chrome-extension/src/modules/offline-queue.ts:140-147 | returns the due items in age order, cut at the limit |
| OfflineStore.QueueStore.Reschedule | apps/chrome-extension/src/modules/offline-queue.ts:162-179 | one attempt more and a later due time, or dropped when attempts run out |
| OfflineStore.SyncEngine.Flush | apps/chrome-extension/src/background/sync-engine.ts:110-147 | the dispatch loop computes the specified store and tally |
| Png.ParsePrint | services/backend/app/services/exif.py:55-73 | a printed chunk stream parses back whatever follows its IEND |
| Png.ParsedIsPrefix | services/backend/app/services/exif.py:55-73 | parsing loses nothing it passes: its chunks, printed, are the front of the input |
| PngChunks.NothingStrippedRemains | services/backend/app/services/exif.py:19-73 | reading back the output of arbitrary bytes with the signature finds no tEXt, iTXt, zTXt, eXIf or tIME chunk |
| Png.StripIsIdempotent | services/backend/app/services/exif.py:55-73 | on arbitrary bytes a second pass changes nothing |
| Png.StripWellFormed | services/backend/app/services/exif.py:55-73 | signature plus well-formed chunks ending in their only IEND become the signature plus the kept chunks byte for byte |
| PngChunks.StripsExactlyMetadata | services/backend/app/services/exif.py:55-73 | byte by byte: of signature and whole chunks up to their only IEND exactly the tEXt, iTXt, zTXt, eXIf and tIME chunks go, the others stay in order, and what follows IEND is cut off |
| PngChunks.StripsCutFile | services/backend/app/services/exif.py:55-73 | the same for a file that ends before its IEND, whose incomplete last chunk goes too |
| Png.StripPng | services/backend/app/services/exif.py:55-73 | the single pass equals parse, filter, print on every input, and returns bytes without the signature as they are |
| Jpeg.ParsedIsPrefix | services/backend/app/services/exif.py:22-52 | pieces and tail, printed, are the input up to at most three dropped bytes |
| Jpeg.StripNeverGrows | services/backend/app/services/exif.py:22-52 | on every input the output is no longer than the input |
| Jpeg.NothingStrippedRemains | services/backend/app/services/exif.py:22-52 | on every input with SOI, no piece a parser reads back from the output has a stripped marker |
| Jpeg.StripWellFormed | services/backend/app/services/exif.py:22-52 | SOI, whole segments and a scan become SOI, the kept segments in order and the scan unchanged, and stay so |
| JpegSegments.StripsExactlyRemoved | services/backend/app/services/exif.py:22-52 | byte by byte: of SOI, standalone markers, whole segments and a scan exactly the segments E1, E2, ED, FE and 13 go, everything else stays in order |
| JpegSegments.StripsUpToVerbatim | services/backend/app/services/exif.py:29-52 | the same up to wherever a marker is due and none, or a segment that does not fit, is found: from there on everything is copied |
| Jpeg.IdempotentExactly | services/backend/app/services/exif.py:29-38 | a second pass changes nothing iff the first ended at a verbatim tail, kept nothing, or kept a segment last |
| Jpeg.NotIdempotentInGeneral | services/backend/app/services/exif.py:29-29 | on FF D8 FF D0 FF E1 00 02 the first pass leaves SOI and the restart marker, the second SOI alone |
| Jpeg.StripsAsDocumentedExactly | services/backend/app/services/exif.py:16-17 | stripping APP1, APP2, APP13 and comments alone would give the same output iff no parsed segment has the marker 0x13 |
| Jpeg.ExtraMarkerIsStripped | services/backend/app/services/exif.py:16-17 | on FF D8 FF 13 00 02 the code drops a segment it does not document |
| Jpeg.StripJpeg | services/backend/app/services/exif.py:22-52 | the single pass equals parse, filter, print on every input |
| Exif.StripMetadata | services/backend/app/services/exif.py:76-86 | JPEG gets the JPEG stripper, PNG the PNG one, others are copied; stripped iff the bytes differ |
| Exif.CuratedIsStableExactly | services/backend/app/services/exif.py:76-86 | stripping the curated copy again changes nothing iff it is not a JPEG whose first pass kept a standalone marker last and no tail |
| Attachments.RunKeepsInv | services/backend/app/services/attachments.py:110-394 | every run keeps client ids unique, keys in their own stage, and every clean row vouched for |
| Attachments.CleanMeansVerified | services/backend/app/workers/handlers.py:147-242 | in every run a clean attachment's clean key holds bytes with the declared hash and size, and its curated copy is those bytes stripped |
| Attachments.CleanIsForever | services/backend/app/services/attachments.py:138-143 | a clean row, declared hash included, and its stored bytes never change again |
| Attachments.OnlyVerifiedBytesBecomeClean | services/backend/app/workers/handlers.py:157-195 | a row becomes clean iff finalization finds quarantined bytes of the declared size, hash and an agreeing type |
| AttachmentAnswers.CompletionAnswers | services/backend/app/services/attachments.py:200-271 | each of the nine answers to a completion has exactly one condition, in the columns of the row and the stored object |
| AttachmentAnswers.CompletionWrites | services/backend/app/services/attachments.py:200-271 | a completion writes only the state, and the verified size, that its answer calls for, in its own row |
| AttachmentAnswers.OnlyCompletedUploadsAreQuarantined | services/backend/app/services/attachments.py:221-258 | a row enters quarantine iff its owner, or anyone if it has none, completes it as declared, in time, with the declared number of bytes there |
| AttachmentAnswers.OthersCompleteNothing | services/backend/app/services/attachments.py:221-225 | a completion by anyone but the owner changes no row, object or job |
| AttachmentAnswers.OwnersStay | services/backend/app/services/attachments.py:149-157 | along every run an attachment keeps the owner it was created with |
| AttachmentAnswers.AcceptedQueuesFinalization | services/backend/app/services/attachments.py:262-269 | an accepted completion adds exactly one finalize job with its priority, attempts and key, unless a live one is there |
| AttachmentAnswers.InitRefusals | services/backend/app/services/attachments.py:80-108 | the three refusals, each under its condition and without a change |
| AttachmentAnswers.InitAddsRow | services/backend/app/services/attachments.py:149-197 | an unknown client id adds one row, as declared and owned by the caller, with an upload key unless only metadata is recorded |
| AttachmentAnswers.InitFindsRow | services/backend/app/services/attachments.py:138-197 | a known one is answered as it is when settled, else declared anew for the same owner |
| AttachmentAnswers.FinalizationAnswers | services/backend/app/workers/handlers.py:147-195 | each of the six ends of a finalization has exactly one condition |
| AttachmentAnswers.FinalizationWrites | services/backend/app/workers/handlers.py:197-250 | passing bytes are copied to the clean key, with a stripped copy beside them iff stripping removes something; failing bytes reject the row; nothing else is written |
| AttachmentAnswers.FinalizationSettles | services/backend/app/workers/worker.py:96-131 | the finalize job is done, dead, tried again after its delay, or failed, as its handler ended, and only for the lock holder |
| AttachmentAnswers.SweepExpiresExactly | services/backend/app/services/attachments.py:376-394 | a sweep expires exactly the pending rows whose upload window closed more than an hour ago |
| AttachmentAnswers.DeclaredUploadBecomesClean | services/backend/app/services/attachments.py:110-271 | init, upload of what was declared, timely completion by the owner and finalization end in a clean row with exactly those bytes |
| AttachmentJobs.QuarantinedIsTriedToTheEnd | services/backend/app/services/jobs.py:184-210 | in every interleaving of requests, sweeps, claims, finalizations, lost locks and recoveries, a quarantined attachment's finalization job is pending, running, or failed only after all its attempts |
| AttachmentJobs.CourseProjects | services/backend/app/workers/handlers.py:147-250 | whatever the job table does, the attachments only ever make their own steps, so what holds along every run of theirs holds here |
| AttachmentService.AttachmentTable.InitAttachment | services/backend/app/services/attachments.py:110-197 | the in-place init computes its specification, refusals in order |
| AttachmentService.AttachmentTable.CompleteAttachment | services/backend/app/services/attachments.py:200-271 | the in-place completion computes its specification, checks in order, and enqueues the finalize job exactly when it accepts |
| AttachmentService.AttachmentTable.FinalizeAttachment | services/backend/app/workers/handlers.py:147-250 | the in-place finalization computes its specification |
| AttachmentService.AttachmentTable.ExpireStalePending | services/backend/app/services/attachments.py:376-394 | expires exactly the pending rows past their lifetime and counts them |
| Exports.RunExport | services/backend/app/services/exports.py:228-270 | parts numbered 1..n, at most 5000 records each, full unless their split ends, holding all records split by split in name order, with exact totals |
| Exports.ConversationsNeverSpanSplits | services/backend/app/services/exports.py:228-270 | a conversation that yields a record is written exactly once, in a part of its single split, and nothing else is |
| Exports.EveryRecordInItsSplitOnce | services/backend/app/services/exports.py:248-270 | every record is written as often as built, in its own split's parts and no other's |
| Exports.TotalsAgree | services/backend/app/services/exports.py:244-270 | the parts hold exactly the records built |
| Exports.CutBucket | services/backend/app/services/exports.py:308-310 | a bucket is cut in order into full parts with one remainder |
| Exports.LessIsLexicographic | services/backend/app/services/exports.py:248-248 | split names are ordered as in a dictionary |
| ExportOrder.BuiltInOrder | services/backend/app/services/exports.py:228-246 | records are built conversation by conversation in the order given |
| ExportOrder.SplitKeepsOrder | services/backend/app/services/exports.py:228-246 | each split keeps its records in the order they were built |
| ExportOrder.GatheredGoesByName | services/backend/app/services/exports.py:248-270 | the splits follow one another in the order of their names |
| ExportOrder.TotalBytesIsSum | services/backend/app/services/exports.py:248-270 | the byte total is the sum over the parts |
| Partitions.MonthBoundsIsIteration | services/backend/alembic/versions/0001_initial_initial_schema.py:29-37 | the closed form equals next_month iterated, and each month ends where the next starts |
| Partitions.MonthsTile | services/backend/app/services/partitions.py:47-65 | after creation every date of the span lies in exactly one partition of each table |
| Partitions.PartitionsNeverOverlap | services/backend/app/services/partitions.py:35-40 | no two monthly partitions of a table share a date |
| Partitions.CreatedExactly | services/backend/app/services/partitions.py:47-65 | creation leaves exactly the partitions there were and one per table and month asked for |
| Partitions.NamesGoByTable | services/backend/app/services/partitions.py:47-65 | the names answered go table by table and month by month |
| Partitions.DropsWholeOldMonthsOnly | services/backend/app/services/partitions.py:85-105 | a date loses its partition iff that whole month ends by the cutoff; no date from the cutoff on does |
| Partitions.DroppedExactly | services/backend/app/services/partitions.py:85-105 | a partition goes iff it is one of the table's months and that month ends by the cutoff; what is left is unchanged |
| Partitions.Catalog.EnsurePartitions | services/backend/app/services/partitions.py:47-65 | the nested loops create the current month and the next ones of every table and name them in order |
| Partitions.Catalog.DropPartitionsOlderThan | services/backend/app/services/partitions.py:85-105 | drops exactly the listed months that end by the cutoff, and nothing in a dry run |

## Left out

- Several organisations and workspaces, roles, policy gates, audit rows, logging, configuration and HTTP: one tenant, and an outcome instead of a response.
- Concurrent ingestion transactions racing on a unique index: transactions are serial, and a repeated part index is the one insert conflict modelled.
- Columns that carry no behaviour here (HTML, citations, token counts, message model names, the employee hash, capture metadata).
- Real hashing, normalisation, HTML cleaning, file-name cleaning, compression and content sniffing; content sniffing and cleaning are arbitrary functions.
- SQLAlchemy's identity map: failing a job tests the stored row's token.
- Handlers other than archiving, reconciling and finalizing: their job rows are present, their effects are not; of handler effects that survive a failure only the archive handler's put is modelled.
- Deleting succeeded jobs, retention sweeps, legal hold and hard deletes: easy beside key pruning.
- The optional `kinds` filter of a claim, which the worker does not use.
- Snapshot freshness: several paths set the flag without a job, so "stale implies a live job" is not an invariant.
- The compliance poller, capture-event and feedback endpoints, and the periodic scheduler.
- Backoff jitter: only its range enters the model.
- The composite limiter's wiring: it runs up to four limiters, each as modelled; RateLimiter.Strictest is its verdict.
- Floating-point rounding in the limiter's clock arithmetic: times are reals.
- A flush interleaved with enqueues, store failures and concurrent flushes: one flush at a time, each enqueue one step.
- That no message is ever lost end to end: a batch answered with success is removed even if some of its items were retryable.
- OfflineStore.QueueStore.EnforceLimits: rows are deleted oldest first as they are found doomed rather than from a collected list of ids.
- OfflineQueue.NewestSurvivesItsEnqueue: asks that the new item come last in age order, which a clock set back can break.
- Storage versions and scan results of attachments.
- OutboxRuns.NoEventForgotten: an archive job that failed with its attempts used up stays failed, so its event then waits for an operator.
- JobQueue.Worker.RunOnce: no other session acts between its claim and its settlements; `JobRuns` and `Outbox` cover the interleavings.
- AttachmentService.AttachmentTable.InitAttachment: the conversation it finds or creates on the way is given, not written.
- AttachmentService.AttachmentTable.CompleteAttachment: linking to a message is not modelled.
- AttachmentJobs.QuarantinedIsTriedToTheEnd: an attachment whose finalization failed with its attempts used up stays quarantined until someone acts.
- Attachments.CleanMeansVerified: finalization is one step; an upload between its read and its copy is not modelled.
- Exports.RunExport: the split of a conversation is an arbitrary function of its id (the ratios are floating point); eligibility, record contents and the manifest are not modelled.
- Partitions.Catalog.DropPartitionsOlderThan: takes the catalog query's result as its input; moving rows out of the default partition is not modelled.
