# A verified model of the chat, knowledge and credit core

This project models the parts of the backend whose correctness depends on many steps together, and proves what they
promise. It is written in Dafny 4.11; `dafny verify dfyconfig.toml` checks all of it.

- **Knowledge ingestion** (`TaskRepo`, `TaskOutboxRepo`, `KnowledgeRepo`, `IngestionProtocol`, `IngestionRuns`,
  `IngestionLeases`, `IngestionRecovery`, `IngestionVerdicts`, `IngestionSweeps`, `IngestionEnabling`,
  `IngestionScenarios`). Four tables (jobs, publish events, files, chunks) are changed by uploads, workers, the relay,
  the reconciler and manual replays. Each conditional UPDATE is an operation with its WHERE clause and its VALUES clause;
  each transaction that commits is one atomic step; steps interleave arbitrarily, clocks are parameters, and rows read
  outside a transaction's locks are parameters that may be out of date. The repositories and the reconciler are also
  given as classes that change their tables in place and roll back, proved against those steps. What the transactions
  decide and leave is stated on columns, and what leases are worth on the instants the steps of a run carry.
- **Chat generation requests** (`ChatGeneration`, `ChatOutcomes`). One request row, seven fenced statements, CHECK
  constraints that may still refuse a row, and runs of any calls in any order: delivery, recorded outcomes, retries, due
  times and leases.
- **Credits** (`CreditArithmetic`, `CreditLedger`, `CreditSpending`, `CreditService`). The balance, the transaction log,
  the usage records and the token counter of one user, with concurrent duplicate spends whose existence checks run before
  the lock. Amounts of usage are exact rationals.
- **Citation markers** (`CitationMarkers`, `CitationFilter`, `CitationDeletion`, `CitationSplicing`, `CitationValidator`). The
  batch cleaner and the streaming filter over every text and every way to cut it into chunks.
- **Chunking** (`TextShape`, `Chunking`, `ChunkingFences`, `ChunkingRegions`, `SectionPaths`, `ChunkingService`). Headings,
  section paths, fences, paragraphs and fixed windows; what is preserved is stated on the text with its white space erased.
- **Retrieval** (`StableSort`, `HybridFusion`, `VectorIndexService`, `RetrievalEvidence`, `Rerank`). Reciprocal rank
  fusion, what is found and how strongly in distances and rank values, and the application of reranker scores.
- **Rate limiting** (`RateLimit`). The Redis script as one step, with the caller's clock and the server's clock apart.

Some expected properties turned out to need a condition; the model keeps the code and proves exactly when they hold.

- The reconciler's READY branch tests no lease and reads the file before it writes. Finished jobs keep READY files if
  and only if that read is still current (`ReconcileCompletionIsSafeIffFileStillReady`).
- A PENDING job whose file was deleted and whose event is settled is selected by none of the scans (`WhoPicksUpAJob`);
  four steps lead there (`AStrandedJobIsReachable`).
- A reset that saw an active event does not look at it again: the event it leaves is active exactly when it was not
  settled in between (`RetryCommitsEverything`, `AResetCanLeaveASettledEvent`). The gap branch fails a pair even when its
  event has become active again (`GapFailureDespiteActiveEvent`, `AGapFailureCanOvertakeAReplay`).
- The INSERT of an outbox event inside a reset or a gap repair can raise an IntegrityError that the reconciler does not
  catch; the sweep then ends early, which the outcome `Crashed` stands for. It takes a job from before the outbox table:
  every other job has its event from the start (`EventsAreNeverMissing`, `TwoReconcilersCrashOnAnOlderJob`).
- A chat request that is finalized as failed with an error code of spaces passes the argument check and violates the
  CHECK constraint (`WhenTheTableRefuses`, `ABlankErrorCodeIsRefused`).
- For a fractional credit-to-token ratio the balance pre-check accepts estimates that the spend then refuses
  (`WhenTheEstimateIsSafe`, `FractionalRatioCanFailAfterThePrecheck`).
- A check-in adds its amount by an UPDATE and once more to the loaded account, which the session writes back. Balance and
  transaction log agree if and only if the UPDATE leaves the loaded object unrefreshed, or the amount is 0
  (`CheckinKeeps`, `RunKeepsLedgerOk`).
- The streaming filter keeps an invalid marker that is cut right after its bracket or beyond ten characters
  (`StreamEqualsBatchIff`, `AMarkerCutAfterItsBracketSurvives`).
- Cleaning citations is idempotent exactly when skipping invalid markers nowhere spells a new one
  (`CleaningIsIdempotentIff`).
- The limiter keeps its limits exactly when no request arrives after the expiry that an earlier request of its window
  has set (`TimelyIsExact`).
- The section path is the chain of enclosing headings exactly when every heading nests (`StacksAreOutlinesIff`).
- The filter also holds back a bracket, a letter and a dot, which no further text can make a marker (`OpenMarkersAre`,
  `WhatIsHeld`); this delays text and loses none.

Where the code and its comments differ, the model follows the code: the comment on the marker buffer speaks of a margin
for markers of eight characters, but markers of up to eleven survive any cut after their first character.

## Model

| member | source | states |
|---|---|---|
| `TaskRepo.TaskTable.CreateIngestion` | backend/repositories/task_repo.py:35-57 | the INSERT: a PENDING row with attempt 0, refused exactly when the partial unique index finds another active job of the file |
| `TaskRepo.TaskTable.TryClaimKbIngestionTask` | backend/repositories/task_repo.py:162-193 | the claim moves exactly one PENDING row of that file and returns its new attempt number; otherwise nothing changes |
| `TaskRepo.TaskTable.TryHeartbeatKbIngestionTask` | backend/repositories/task_repo.py:195-218 | renews the lease of the holding attempt only; otherwise nothing changes |
| `TaskRepo.TaskTable.TryCompleteKbIngestionTask` | backend/repositories/task_repo.py:220-246 | completes under the current attempt only, and clears lease and error |
| `TaskRepo.TaskTable.TryReconcileCompletedKbIngestionTask` | backend/repositories/task_repo.py:248-277 | completes an active row of the expected status and attempt, without a lease test; other statuses raise |
| `TaskRepo.TaskTable.TryPrepareFailedKbIngestionReplay` | backend/repositories/task_repo.py:279-305 | reopens a FAILED row and keeps its attempt number |
| `TaskRepo.TaskTable.TryFailKbIngestionTask` | backend/repositories/task_repo.py:307-336 | fails a row of an allowed status, checking the attempt only when one is given; the error is truncated to 5000 characters |
| `TaskRepo.TaskTable.TryResetExpiredKbIngestionTask` | backend/repositories/task_repo.py:338-374 | reopens a PROCESSING row only on an expired (or legacy-stale) lease and keeps its attempt number |
| `TaskRepo.TaskTable.TryFailExpiredKbIngestionTask` | backend/repositories/task_repo.py:376-411 | fails a PROCESSING row only on an expired (or legacy-stale) lease |
| `TaskOutboxRepo.ShapeIsInductive` | backend/repositories/task_outbox_repo.py:72-351 | per status, due time and lease fields agree; every statement keeps this |
| `TaskOutboxRepo.DueTestsCoincide` | backend/repositories/task_outbox_repo.py:46-313 | under that shape the due tests of five differently written queries coincide, and the due rows split exactly into claimable and exhausted ones |
| `TaskOutboxRepo.DueTestsNeedTheShape` | backend/repositories/task_outbox_repo.py:276-313 | without the shape they differ, by a concrete row |
| `TaskOutboxRepo.ClaimsAreLocal` | backend/repositories/task_outbox_repo.py:91-138 | a batch claim leaves every row outside its selection as it was |
| `TaskOutboxRepo.TheSelectionIsUnique` | backend/repositories/task_outbox_repo.py:91-138 | the locking SELECT has one possible answer: the limit oldest due rows that nobody else holds, oldest first |
| `TaskOutboxRepo.OutboxTable.Create` | backend/repositories/task_outbox_repo.py:72-89 | inserts a fresh event with no attempts, or reports the unique index violation |
| `TaskOutboxRepo.OutboxTable.ClaimDueBatch` | backend/repositories/task_outbox_repo.py:91-138 | the loop over the locked rows equals the single-row claim applied to each selected row in turn |
| `TaskOutboxRepo.OutboxTable.TryClaim` | backend/repositories/task_outbox_repo.py:140-179 | claims one due row below the publish budget and returns its new attempt number; otherwise nothing changes |
| `TaskOutboxRepo.OutboxTable.TryMarkPublished` | backend/repositories/task_outbox_repo.py:218-245 | settles a publication under the current attempt and lease owner only |
| `TaskOutboxRepo.OutboxTable.TryReleaseForRetry` | backend/repositories/task_outbox_repo.py:247-274 | returns a publication to PENDING under the current attempt and owner only |
| `TaskOutboxRepo.OutboxTable.TryMarkDead` | backend/repositories/task_outbox_repo.py:276-313 | marks an active due row of the expected attempt dead |
| `TaskOutboxRepo.OutboxTable.TryPrepareReplay` | backend/repositories/task_outbox_repo.py:315-351 | reopens a settled row, resetting its budget only when asked; an active expected status raises |
| `KnowledgeRepo.KnowledgeTables.TryTransitionFileStatus` | backend/repositories/knowledge_repo.py:154-175 | moves the file only from one of the expected statuses |
| `KnowledgeRepo.KnowledgeTables.DeleteChunksForFile` | backend/repositories/knowledge_repo.py:205-207 | removes the chunks of that file and nothing else |
| `IngestionProtocol.EmptySystemIsFine` | backend/repositories/task_repo.py:35-57 | before the first job is created both invariants hold, so every run can start there |
| `IngestionProtocol.ParseRespects` | backend/application/knowledge/ingestion_workflow.py:56-64 | a worker that starts parsing keeps every local invariant of its job and its file |
| `IngestionProtocol.IndexRespects` | backend/application/knowledge/ingestion_workflow.py:127-156 | so does the indexing transaction, which alone makes a file READY together with its chunks |
| `IngestionProtocol.CleanupRespects` | backend/application/knowledge/ingestion_workflow.py:186-219 | so does the failure cleanup, which may take back READY |
| `IngestionProtocol.ReplayRespects` | backend/application/knowledge/outbox_relay.py:136-205 | so does a manual replay over task, file, chunks and event |
| `IngestionProtocol.ResetRespects` | backend/services/knowledge_ingestion_recovery_service.py:175-215 | so does the reset of an expired job over all four tables |
| `IngestionProtocol.FailPairRespects` | backend/services/knowledge_ingestion_recovery_service.py:357-394 | so does the failure of a job together with its file |
| `IngestionProtocol.TaskCasRespects` | backend/repositories/task_repo.py:195-336 | so does every single statement that neither claims nor reopens a job |
| `IngestionProtocol.ClaimRespects` | backend/repositories/task_repo.py:162-193 | so does the claim |
| `IngestionProtocol.OutboxRespects` | backend/repositories/task_outbox_repo.py:91-351 | so does every relay statement |
| `IngestionProtocol.RespectfulStepKeeps` | backend/services/knowledge_ingestion_recovery_service.py:84-464 | local respect on the rows a step touches gives the global invariant on all rows |
| `IngestionProtocol.CommitRespects` | backend/services/knowledge_ingestion_recovery_service.py:84-464 | every one of the eighteen remaining kinds of step respects its footprint |
| `IngestionProtocol.InvKept` | backend/services/knowledge_ingestion_recovery_service.py:84-464 | in every interleaving: row shapes, publish budget, at most one active job per file, and READY exactly when the file has chunks |
| `IngestionProtocol.WhoFinishes` | backend/repositories/task_repo.py:220-277 | only completion and the READY reconcile finish a job, and both find it active |
| `IngestionProtocol.FinishedKept` | backend/services/knowledge_ingestion_recovery_service.py:140-165 | a finished job keeps its file READY, as long as the reconciler acts on a file that is still READY |
| `IngestionProtocol.ReconcileCompletionIsSafeIffFileStillReady` | backend/services/knowledge_ingestion_recovery_service.py:140-165 | the READY branch, which tests no lease and reads the file earlier, keeps that property if and only if the file it read is still READY (or deleted) |
| `IngestionRuns.RunKeepsInv` | backend/services/knowledge_ingestion_recovery_service.py:84-464 | the invariant over every run of every length |
| `IngestionRuns.RunKeepsFinishedFilesReady` | backend/services/knowledge_ingestion_recovery_service.py:140-165 | finished jobs have READY files over every run without a stale READY read |
| `IngestionRuns.StepSpendsBudget` | backend/services/knowledge_ingestion_recovery_service.py:177-215 | a reset pays for a fresh publish budget with one of the resets left; a claim pays one publication |
| `IngestionRuns.ClaimsStayWithinBudget` | backend/repositories/task_outbox_repo.py:91-179 | claims of a job's event never exceed the budget left, plus one full budget for every manual replay |
| `IngestionRuns.TotalPublishClaims` | backend/services/knowledge_ingestion_recovery_service.py:177-215 | for a job created in the run: at most max_publish_attempts times max(1, max_ingestion_attempts) event claims, plus one budget per manual replay, although resets zero the counter |
| `IngestionRuns.AttemptsStayWithinBudget` | backend/repositories/task_repo.py:162-193 | attempt_count never passes max(1, max_ingestion_attempts) plus the manual replays |
| `IngestionRuns.StepLowersWork` | backend/services/knowledge_ingestion_recovery_service.py:84-464 | every committed step other than heartbeat and manual replay lowers a measure |
| `IngestionRuns.WorkRunsOut` | backend/services/knowledge_ingestion_recovery_service.py:84-464 | so the number of such steps of a run is bounded by the measure at its start |
| `IngestionRuns.EveryJobTerminates` | backend/services/knowledge_ingestion_recovery_service.py:84-464 | an explicit bound on the committed steps of a job, for every interleaving without manual replay |
| `IngestionRuns.StandingIsMonotone` | backend/repositories/task_repo.py:162-411 | a lost attempt stays lost, a superseded one superseded, a completed job completed |
| `IngestionRuns.LostAttemptsStayFenced` | backend/repositories/task_repo.py:195-246 | after a reset, a failure or a later claim no worker statement of the old attempt commits again |
| `IngestionRuns.SupersededAttemptsAreDead` | backend/repositories/task_repo.py:195-411 | after the next claim nothing carrying the old number commits, the reconciler's statements included |
| `IngestionRuns.WhereFencesBegin` | backend/repositories/task_repo.py:338-374 | a PROCESSING job returns to PENDING only by a reset on a stale lease; a claim supersedes every earlier number; a completed job is never left |
| `IngestionRuns.ClaimNumbersIncrease` | backend/repositories/task_repo.py:162-193 | successive claims of a job return strictly increasing numbers |
| `IngestionRuns.FailAfterReset` | backend/repositories/task_repo.py:307-374 | after a reset the old number still fails the job if and only if PENDING is among the allowed statuses |
| `IngestionRuns.LeaseIsLatestClaim` | backend/repositories/task_outbox_repo.py:140-274 | the lease owner of an event is the owner of its latest claim |
| `IngestionRuns.OnlyTheCurrentClaimSettles` | backend/repositories/task_outbox_repo.py:218-274 | with fresh lease owners, a claim followed by another one can no longer settle the publication |
| `IngestionRuns.AttemptNumberIsNoFence` | backend/repositories/task_outbox_repo.py:315-351 | the publish attempt number alone would not fence: after a reset the next claim carries it again, and only the owner tells them apart |
| `IngestionRuns.WhoPicksUpAJob` | backend/repositories/task_repo.py:413-471 | once all deadlines have passed, exactly one scan selects an active job, except a PENDING job without active event whose file was deleted, which none selects |
| `IngestionRuns.WhoPicksUpAFile` | backend/repositories/knowledge_repo.py:177-203 | an UPLOADED file either has an active job or is found by the orphan scan, never both |
| `IngestionRuns.LateCleanupLeavesFinishedJobWithFailedFile` | backend/services/knowledge_ingestion_recovery_service.py:140-165 | from every state with an indexed file, a stale READY read after the worker's cleanup leaves a completed job with a failed file |
| `IngestionLeases.AHandedOutLeaseHolds` | backend/repositories/task_repo.py:162-218 | over every run: once a claim, a heartbeat or a worker transaction has handed out a lease, no reset and no expiry of that attempt commits before the lease has run out, unless it was renewed |
| `IngestionLeases.ColumnsTellTheRun` | backend/repositories/task_repo.py:162-411 | start, heartbeat, lease, end and error of a job are those that the latest claim, renewal, completion or failure of the run carried |
| `IngestionLeases.EventsWaitUntilTheyAreDue` | backend/repositories/task_outbox_repo.py:91-313 | over every run: no relay claims an event again, or declares it dead, before the lease or the back-off that its latest step gave it |
| `IngestionEnabling.WorkerVerdict` | backend/application/knowledge/ingestion_workflow.py:56-219 | by columns: exactly when each worker step commits |
| `IngestionEnabling.WhatWorkersRecord` | backend/repositories/task_repo.py:162-336 | the whole job row after each worker step |
| `IngestionEnabling.WhatWorkersDoToFiles` | backend/application/knowledge/ingestion_workflow.py:56-219 | only three worker steps change a file, its chunks, or both, and how |
| `IngestionEnabling.RelayVerdict` | backend/repositories/task_outbox_repo.py:91-313 | by columns: exactly when each relay statement changes the event, and the whole row after it |
| `IngestionEnabling.ReplayVerdict` | backend/application/knowledge/outbox_relay.py:136-205 | exactly when a manual replay commits: DEAD event of the expected attempt, and a failed pair without active job or a queued job with an uploaded file; and what it leaves |
| `IngestionEnabling.WhatTheScansSelect` | backend/repositories/task_repo.py:413-471 | by columns: what the stale, gap, relay and orphan scans select |
| `IngestionEnabling.OrphanStepsAreTransactions` | backend/services/knowledge_ingestion_recovery_service.py:315-355 | the protocol steps about orphan files do what the reconciler does |
| `IngestionRecovery.RetryCommitsEverything` | backend/services/knowledge_ingestion_recovery_service.py:175-215 | a committed reset leaves a PENDING job without lease, an UPLOADED file without chunks, and an active event exactly when the outbox read was current in that respect |
| `IngestionRecovery.PairFailureCommitsEverything` | backend/services/knowledge_ingestion_recovery_service.py:357-394 | an exhausted pair commits job FAILED, file FAILED and no chunks, and leaves the events alone |
| `IngestionRecovery.GapFailureDespiteActiveEvent` | backend/services/knowledge_ingestion_recovery_service.py:272-308 | when exactly the gap branch fails the pair: the current event is not part of the condition |
| `IngestionScenarios.AStrandedJobIsReachable` | backend/repositories/task_repo.py:413-471 | a run from the empty system, upload, publish, delete the file, after which no scan ever selects the PENDING job |
| `IngestionScenarios.AResetCanLeaveASettledEvent` | backend/services/knowledge_ingestion_recovery_service.py:417-446 | a run in which the event is settled between the reconciler's read and its reset: a PENDING job with a settled event |
| `IngestionScenarios.AGapFailureCanOvertakeAReplay` | backend/services/knowledge_ingestion_recovery_service.py:288-308 | a run in which a manual replay comes between read and commit: job and file FAILED although the event is active again |
| `IngestionScenarios.ACrashNeedsAMissingEvent` | backend/services/knowledge_ingestion_recovery_service.py:417-464 | the uncaught IntegrityError needs an event that was missing when read and has been inserted since |
| `IngestionScenarios.EventsAreNeverMissing` | backend/services/knowledge_ingestion_recovery_service.py:417-464 | jobs created in a run have their event from the first commit on, so no read of theirs finds it missing |
| `IngestionScenarios.TwoReconcilersCrashOnAnOlderJob` | alembic/versions/2026_07_17_1115-2a7c9e4d1b63_add_knowledge_task_outbox.py:150-213 | from every state with a job older than the outbox table, two reconcilers that read the missing event reach the crash |
| `IngestionScenarios.ReadsOfFileIdsStayTrue` | backend/services/knowledge_ingestion_recovery_service.py:133-148 | over runs that do not reuse its file id, a job read with its file still points at that file, or the file is gone |
| `IngestionRecovery.ProcessingIsOneStep` | backend/services/knowledge_ingestion_recovery_service.py:133-215 | every outcome of the stale-job transaction is one protocol step, or leaves all rows unchanged |
| `IngestionRecovery.PendingIsOneStep` | backend/services/knowledge_ingestion_recovery_service.py:217-313 | so for the gap transaction |
| `IngestionRecovery.OrphanIsOneStep` | backend/services/knowledge_ingestion_recovery_service.py:315-355 | so for the orphan file transaction |
| `IngestionVerdicts.StaleJobVerdict` | backend/services/knowledge_ingestion_recovery_service.py:133-215 | on rows and reads alone: when exactly a stale job is retried, failed with its file, completed, failed alone, or hits the uncaught error; otherwise conflict |
| `IngestionVerdicts.StaleJobRows` | backend/services/knowledge_ingestion_recovery_service.py:133-215 | what each of these outcomes leaves of the job, its event, its file and the chunks, and that nothing else changes |
| `IngestionVerdicts.GapVerdict` | backend/services/knowledge_ingestion_recovery_service.py:217-313 | on rows and reads alone: when exactly a queued job without active event gets a new event, a replayed one, fails with its file, is completed, or fails alone |
| `IngestionVerdicts.GapRows` | backend/services/knowledge_ingestion_recovery_service.py:217-313 | and what each of these outcomes leaves |
| `IngestionVerdicts.OrphanVerdict` | backend/services/knowledge_ingestion_recovery_service.py:315-355 | when exactly an orphan file is failed or gets a job with its event, and what that leaves |
| `IngestionSweeps.StaleSweepVerdicts` | backend/services/knowledge_ingestion_recovery_service.py:112-118 | a sweep decides every stale job by the rows from before the sweep, and leaves each as its own transaction would |
| `IngestionSweeps.GapSweepVerdicts` | backend/services/knowledge_ingestion_recovery_service.py:119-124 | so does the sweep over the gaps |
| `IngestionSweeps.OrphanSweepVerdicts` | backend/services/knowledge_ingestion_recovery_service.py:125-130 | and the sweep over the orphan files |
| `IngestionSweeps.FullSweepVerdicts` | backend/services/knowledge_ingestion_recovery_service.py:84-131 | in a whole pass every job is decided by the rows from before the pass, and every orphan file by the rows the jobs have left |
| `IngestionRecovery.TallyAccountsForEveryItem` | backend/services/knowledge_ingestion_recovery_service.py:36-47 | each item is counted under exactly one outcome; only a failed pair and a created job raise two counters |
| `IngestionRecovery.SweepsReachEveryItem` | backend/services/knowledge_ingestion_recovery_service.py:84-131 | a sweep that is not ended by an uncaught IntegrityError processes every item it scanned |
| `IngestionRecovery.KnowledgeIngestionRecoveryService.FailTaskOnly` | backend/services/knowledge_ingestion_recovery_service.py:396-415 | one guarded failure of the job; a lost CAS changes nothing |
| `IngestionRecovery.KnowledgeIngestionRecoveryService.FailExpiredPair` | backend/services/knowledge_ingestion_recovery_service.py:357-394 | the three writes with rollback equal the all-or-nothing transaction |
| `IngestionRecovery.KnowledgeIngestionRecoveryService.PrepareTaskOutbox` | backend/services/knowledge_ingestion_recovery_service.py:417-446 | creates, reopens or leaves the event alone, by the earlier read |
| `IngestionRecovery.KnowledgeIngestionRecoveryService.ReconcileProcessingTask` | backend/services/knowledge_ingestion_recovery_service.py:133-215 | all branches with their rollbacks equal the transaction function |
| `IngestionRecovery.KnowledgeIngestionRecoveryService.RetryExpired` | backend/services/knowledge_ingestion_recovery_service.py:175-215 | task, chunks, file and event in the source's order; any lost CAS rolls everything back |
| `IngestionRecovery.KnowledgeIngestionRecoveryService.ReconcilePendingTask` | backend/services/knowledge_ingestion_recovery_service.py:217-313 | all branches with their rollbacks equal the transaction function |
| `IngestionRecovery.KnowledgeIngestionRecoveryService.ReconcileOrphanFile` | backend/services/knowledge_ingestion_recovery_service.py:315-355 | fails an ownerless file, otherwise creates job and event together or nothing |
| `IngestionRecovery.KnowledgeIngestionRecoveryService.RecoverStaleIngestions` | backend/services/knowledge_ingestion_recovery_service.py:84-131 | the three loops leave the database of the whole sweep and the tally of its outcomes |
| `ChatGeneration.CreationEstablishesInv` | backend/repositories/chat_repo.py:72-102 | a created request satisfies the invariant if and only if it has a recovery time |
| `ChatGeneration.InvKept` | backend/repositories/chat_repo.py:196-504 | every call keeps: all table checks, nonterminal iff recovery_due_at is set, recovery_due_at equals lease_expires_at while RUNNING, dispatch count 0 in PREPARED and between 1 and the limit in QUEUED and RUNNING |
| `ChatGeneration.WhenTheTableRefuses` | alembic/versions/2026_07_17_0830-5f4c2a9d8e71_add_chat_generation_requests.py:102-147 | an admitted statement violates a CHECK constraint in exactly three situations, among them an error code of spaces only |
| `ChatGeneration.ABlankErrorCodeIsRefused` | backend/repositories/chat_repo.py:408-462 | a run of three calls to such a refusal: the request stays RUNNING |
| `ChatGeneration.LiveLeaseIsNeverFailed` | backend/repositories/chat_repo.py:273-340 | recovery fails a running request only when its lease has expired |
| `ChatGeneration.RunKeepsInv` | backend/repositories/chat_repo.py:196-504 | the invariant over every run |
| `ChatGeneration.StatementsMoveForward` | backend/repositories/chat_repo.py:196-504 | a successful call carries the current attempt and moves (attempt, stage) forward; each kind starts and ends at its own stage |
| `ChatGeneration.RunsMoveForward` | backend/repositories/chat_repo.py:196-504 | progress never goes back, and a succeeded request never changes |
| `ChatGeneration.AtMostOnceExecution` | backend/repositories/chat_repo.py:342-462 | per attempt at most one worker claim and at most one terminal outcome succeed, in every interleaving |
| `ChatGeneration.EndedAttemptsStayEnded` | backend/repositories/chat_repo.py:273-504 | once an attempt has ended, only the retry that opens the next one still succeeds under its number |
| `ChatGeneration.OneTokenPerAttempt` | backend/repositories/chat_repo.py:196-462 | worker calls and redispatches that succeed carry the token their attempt was queued with |
| `ChatGeneration.DeliveryIsBounded` | backend/repositories/chat_repo.py:196-271 | an attempt is handed to the broker at most max(1, limit) times, and the counter tells how often |
| `ChatOutcomes.TabsAreBlankToPythonOnly` | backend/repositories/chat_repo.py:294 | the argument check strips all white space, the CHECK constraint spaces only: a code of tabs is blank to the one and not to the other |
| `ChatOutcomes.CallsApplyExactlyWhen` | backend/repositories/chat_repo.py:196-504 | by columns: exactly when each of the seven calls changes the request |
| `ChatOutcomes.WhenARetryApplies` | backend/repositories/chat_repo.py:464-504 | over every run: a retry within scope applies exactly when its attempt was ended by a recovery, or finalized as failed by a call that allowed a retry, and has not been retried since |
| `ChatOutcomes.OutcomesAreRecorded` | backend/repositories/chat_repo.py:408-462 | status, end, error, reply and retryability that a terminal call gave stay on the row as given until the attempt is retried |
| `ChatOutcomes.ErrorsBelongToFailures` | backend/repositories/chat_repo.py:196-504 | only failed requests carry an error or may be retried, only ended ones have an end |
| `ChatOutcomes.EveryAttemptStartsAfresh` | backend/repositories/chat_repo.py:464-504 | a request waiting to be queued is a new request but for its attempt number and reply |
| `ChatOutcomes.RecoveryWaitsForTheDueTime` | backend/repositories/chat_repo.py:146-340 | over every run: recovery neither redispatches nor fails a request before the due time, or the lease, that the latest call gave it |
| `ChatOutcomes.RowsKeepTheirOwner` | backend/repositories/chat_repo.py:408-462 | user and session never change, and the reply is the latest one a worker gave |
| `ChatOutcomes.ClaimsAreForTheirRequest` | backend/repositories/chat_repo.py:342-378 | a claim succeeds for its own user, session and reply only, under the task and token its attempt was queued with |
| `ChatOutcomes.InstantsTellTheRun` | backend/repositories/chat_repo.py:196-406 | queueing, start, heartbeat and lease of a running request are those of its latest calls |
| `ChatGeneration.ChatRequestRow.TryQueueGenerationRequest` | backend/repositories/chat_repo.py:196-231 | the statement in place: verdict and new row |
| `ChatGeneration.ChatRequestRow.TryReserveGenerationRequestRedispatch` | backend/repositories/chat_repo.py:233-271 | the statement in place, with its argument checks |
| `ChatGeneration.ChatRequestRow.TryFailDueGenerationRequest` | backend/repositories/chat_repo.py:273-340 | the statement in place, with its argument checks and optional fences |
| `ChatGeneration.ChatRequestRow.TryClaimGenerationRequest` | backend/repositories/chat_repo.py:342-378 | the statement in place |
| `ChatGeneration.ChatRequestRow.TryHeartbeatGenerationRequest` | backend/repositories/chat_repo.py:380-406 | the statement in place |
| `ChatGeneration.ChatRequestRow.TryFinalizeGenerationRequest` | backend/repositories/chat_repo.py:408-462 | the statement in place, with its argument checks |
| `ChatGeneration.ChatRequestRow.TryRetryGenerationRequest` | backend/repositories/chat_repo.py:464-504 | the statement in place; returns the next attempt |
| `CreditArithmetic.CreditsCoverTheUsage` | backend/services/credit_service.py:211-267 | with enough credits the charge covers the usage and overshoots by less than one credit |
| `CreditArithmetic.MixedChargeIsExact` | backend/services/credit_service.py:257-276 | otherwise credits and tokens make up the rounded-up token value exactly, at least one token is due, and the clamp of a negative part is unreachable |
| `CreditArithmetic.WhenTheEstimateIsSafe` | backend/services/credit_service.py:84-109 | exactly when every usage up to an estimate can be spent |
| `CreditArithmetic.IntegralRatioMakesThePrecheckSafe` | backend/services/credit_service.py:89-107 | for an integral ratio the pre-check accepts exactly the estimates that satisfy that condition |
| `CreditArithmetic.FractionalRatioCanFailAfterThePrecheck` | backend/services/credit_service.py:89-107 | for a fractional ratio the pre-check can accept what the spend then refuses, by a concrete account |
| `CreditLedger.CheckinKeeps` | backend/services/credit_service.py:133-188 | a check-in keeps balance at least 0, unique keys and messages and rows shaped by source; it keeps balance = sum of amounts minus the cost of usage records without spend row if and only if the UPDATE does not refresh the loaded account or the amount is 0 |
| `CreditLedger.ChargeKeeps` | backend/services/credit_service.py:251-342 | every charge keeps all that and the difference between the two sides, and the guarded decrement never refuses |
| `CreditLedger.SpendKeeps` | backend/services/credit_service.py:190-342 | so does a spend with arbitrary stale existence checks, duplicates rolled back by the unique indexes |
| `CreditLedger.RecoveryRestoresEquality` | backend/services/credit_service.py:230-249 | the recovery branch leaves the balance alone and lowers the missing cost by that message's; plain equality returns exactly when it was the only one missing |
| `CreditLedger.SumsPartition` | backend/repositories/credit_repo.py:180-228 | the four ledger sums of the repository partition the total |
| `CreditLedger.ExpiryLeavesTheValidGrants` | backend/services/credit_service.py:356-400 | one expiry leaves exactly min(balance, unexpired positive grants), plus a surplus where check-ins were written twice; its two guards differ by surplus and missing cost only |
| `CreditLedger.ExpireKeeps` | backend/services/credit_service.py:344-400 | an expiry keeps the ledger and every protected sum |
| `CreditLedger.ExpiriesCompose` | backend/services/credit_service.py:344-400 | expiring at t1 then at t2 >= t1 equals expiring at t2 alone, in balance and in the total marked; repeating an expiry changes nothing |
| `CreditLedger.LossKeeps` | backend/services/credit_service.py:230-249 | losing a spend row keeps the ledger, the missing cost accounting for it |
| `CreditLedger.RunKeepsSound` | backend/services/credit_service.py:133-400 | over every interleaving of check-ins, spends, expiries and lost rows: balance at least 0, unique keys and messages, and a surplus that grows only by check-ins written twice |
| `CreditLedger.RunKeepsLedgerOk` | backend/services/credit_service.py:133-400 | so balance = sum of amounts minus missing cost holds throughout if and only if no check-in of the run is written twice |
| `CreditLedger.AMessageIsChargedOnce` | backend/services/credit_service.py:217-249 | however its spends interleave and whatever rows get lost, a message is charged at most once |
| `CreditLedger.TokensAreAccountedFor` | backend/repositories/user_repo.py:140-161 | the token counter is what the usage records account for and never passes the limit |
| `CreditLedger.AcceptedEstimatesAreCharged` | backend/services/credit_service.py:72-109 | for an integral ratio, a spend of at most the accepted estimate is never refused on an unchanged account, whatever its existence checks read; balance and token counter stay in bounds |
| `CreditSpending.WhenASpendIsCharged` | backend/services/credit_service.py:190-304 | on the ledger and the reads: exactly when a spend is charged, refused for its tokens, rolled back as a duplicate, recovered, or already settled |
| `CreditSpending.ASpendPaysItsUsage` | backend/services/credit_service.py:257-335 | by differences: a charge takes the usage in credits rounded up, or all credits and the rest of its token value, at least one token; row and usage record carry these amounts |
| `CreditSpending.ARecoveryBooksTheRecordedCost` | backend/services/credit_service.py:230-249 | the recovery adds the lost row with the recorded cost and nothing else |
| `CreditSpending.WhatACheckinGrants` | backend/services/credit_service.py:133-188 | refused exactly when the log has a check-in of the day; otherwise the amount is granted until the valid days have passed, and no other day is affected |
| `CreditSpending.OneCheckinADay` | backend/services/credit_service.py:133-188 | over every run, two check-ins that succeed are of different days |
| `CreditService.CreditAccount.TryDecrementBalance` | backend/repositories/credit_repo.py:68-80 | subtracts only what the balance covers |
| `CreditService.CreditAccount.TryIncrementUsedTokensWithLimit` | backend/repositories/user_repo.py:140-161 | counts only what stays within the limit |
| `CreditService.CreditAccount.AddTransaction` | backend/repositories/credit_repo.py:82-105 | appends the row unless its idempotency key is taken |
| `CreditService.CreditAccount.CreateUsageRecord` | backend/repositories/credit_repo.py:116-138 | appends the record unless its message has one |
| `CreditService.CreditAccount.EnsureSufficientBalance` | backend/services/credit_service.py:72-109 | the mixed pre-check |
| `CreditService.CreditAccount.DailyCheckin` | backend/services/credit_service.py:133-188 | once per day; statement, change by hand and write-back of the loaded account commit the check-in transaction's ledger |
| `CreditService.CreditAccount.SpendForModelUsage` | backend/services/credit_service.py:190-249 | the committed ledger and outcome are the spend transaction's, for any earlier reads |
| `CreditService.CreditAccount.ChargeLocked` | backend/services/credit_service.py:251-342 | decrement, count, record and book, with rollback at every failure |
| `CreditService.CreditAccount.ExpireCreditsForAccount` | backend/services/credit_service.py:344-400 | the committed ledger is the expiry transaction's, and the result says whether anything expired |
| `CitationMarkers.MarkersAreRecognised` | backend/services/citation_validator.py:11 | the recogniser finds every marker of the grammar, with its exact length |
| `CitationMarkers.MarkerShape` | backend/services/citation_validator.py:11 | what it finds is a marker of the grammar, with brackets at its two ends only |
| `CitationMarkers.MarkerIsLocal` | backend/services/citation_validator.py:11 | whether a marker starts somewhere depends on no text behind it |
| `CitationMarkers.CutMarkerIsOpen` | backend/services/citation_validator.py:112 | every cut-off marker of at least two characters matches the partial pattern |
| `CitationMarkers.OpenMarkersAre` | backend/services/citation_validator.py:112 | the partial pattern accepts exactly what can still become a marker, and a letter followed by a dot, which cannot |
| `CitationFilter.PublishedPiece` | backend/services/citation_validator.py:118-136 | cleaning a published piece on its own agrees with cleaning the whole, when nothing of it had to be held |
| `CitationFilter.HeldCutIsHarmless` | backend/services/citation_validator.py:146-168 | a cut at the end of a held tail changes nothing |
| `CitationFilter.StreamIsFiltered` | backend/services/citation_validator.py:108-144 | for every text and every way to cut it, the stream is the text less its invalid markers, keeping those cut where the filter does not hold |
| `CitationFilter.StreamEqualsBatchIff` | backend/services/citation_validator.py:50-168 | the stream equals validate_citations if and only if no invalid marker is cut after one character or after more than ten |
| `CitationFilter.ShortMarkersSurviveTheCuts` | backend/services/citation_validator.py:111-168 | so with markers of at most eleven characters and no chunk ending right after a marker's bracket |
| `CitationDeletion.OnlyInvalidMarkersAreDeleted` | backend/services/citation_validator.py:50-168 | position by position: a character is missing exactly when it lies in a complete invalid marker that was not spared |
| `CitationFilter.AMarkerCutAfterItsBracketSurvives` | backend/services/citation_validator.py:108-168 | every invalid marker cut right after its bracket survives the stream |
| `CitationFilter.WhatIsHeld` | backend/services/citation_validator.py:146-168 | the filter holds back exactly such a tail of two to ten characters, or one followed by a line feed |
| `CitationDeletion.KnownMarkersStay` | backend/services/citation_validator.py:31-65 | a marker stays where it stands exactly when it is the bracketed id of a known reference |
| `CitationSplicing.SpellingIsCleaning` | backend/services/citation_validator.py:50-65 | reading a text and skipping its complete invalid markers is reading the cleaned text |
| `CitationSplicing.CleaningIsIdempotentIff` | backend/services/citation_validator.py:50-65 | cleaning is idempotent if and only if no bracket of the text, read on with complete invalid markers skipped, spells an invalid marker; otherwise a second pass deletes more |
| `CitationSplicing.WithoutUnfinishedMarkersOnceIsEnough` | backend/services/citation_validator.py:50-65 | in particular when no invalid marker stands right behind an unfinished one |
| `CitationSplicing.CleaningIsNotIdempotent` | backend/services/citation_validator.py:50-65 | a concrete text that is cleaned twice |
| `CitationValidator.MatchesAreAllTheMarkers` | backend/services/citation_validator.py:54 | the non-overlapping matches are all the markers of the text |
| `CitationValidator.RemovalShortens` | backend/services/citation_validator.py:87-103 | each removed marker costs at least four characters; with none removed the text is unchanged |
| `CitationValidator.CleanMarkers` | backend/services/citation_validator.py:50-65 | the loop over the matches computes the cleaned text |
| `CitationValidator.RemoveInvalid` | backend/services/citation_validator.py:87-98 | the loop computes the cleaned text and the number of invalid markers |
| `CitationValidator.ValidateCitations` | backend/services/citation_validator.py:68-105 | cleaned text and both counters; nothing removed exactly when the text is unchanged |
| `CitationValidator.StreamingCitationFilter.Push` | backend/services/citation_validator.py:118-136 | publishes exactly its part of what the whole stream publishes, whatever follows; None exactly when everything is held back |
| `CitationValidator.StreamingCitationFilter.Flush` | backend/services/citation_validator.py:138-144 | cleans and empties the buffer |
| `CitationValidator.StreamingCitationFilter.FindPotentialSplit` | backend/services/citation_validator.py:146-168 | finds the tail to hold back |
| `CitationValidator.FilterStream` | backend/services/citation_validator.py:108-144 | pushing every chunk and flushing publishes the stream that the theorems are about |
| `Chunking.Configure` | backend/services/chunking_service.py:32-34 | size at least 200, overlap between 0 and half the size, and valid settings are kept |
| `Chunking.WindowsCover` | backend/services/chunking_service.py:136-170 | windows cover the text, advance by at least two characters, overlap by exactly chunk_overlap and never exceed the size, so the guard against standing still is dead |
| `Chunking.WindowEndsAtTheLastBoundary` | backend/services/chunking_service.py:145-157 | a window that does not reach the end ends right after the last line end, full stop or space of its second half, and at full size when there is none |
| `Chunking.FixedWindowCovers` | backend/services/chunking_service.py:136-170 | the pieces of a window cut read the text to its end, each repeating at most chunk_overlap characters |
| `Chunking.CoveringWithoutSlackSpells` | backend/services/chunking_service.py:136-170 | reading without repetition is spelling the text exactly |
| `Chunking.BlocksErase` | backend/services/chunking_service.py:114-134 | paragraph blocks drop nothing but white space, through fences |
| `Chunking.SectionsErase` | backend/services/chunking_service.py:48-81 | Markdown sections drop nothing but white space |
| `Chunking.MergeCovers` | backend/services/chunking_service.py:83-112 | merging blocks keeps every size bound and reads all blocks in order |
| `Chunking.ParagraphsAreMergedGreedily` | backend/services/chunking_service.py:99-112 | blocks that fit are merged greedily: chunks are consecutive groups of blocks, and no group could have taken the next block as well |
| `Chunking.NothingIsLost` | backend/services/chunking_service.py:36-134 | for every text: chunks are non-empty and fit the size, and up to white space they spell the text exactly unless a block was too long, else with bounded repetition |
| `ChunkingFences.BlankLinesSeparate` | backend/services/chunking_service.py:120-128 | outside fences a blank line separates: the blocks before and after it are independent |
| `ChunkingFences.HeadingsOpenSections` | backend/services/chunking_service.py:63-78 | outside fences a heading opens a section that starts with its line |
| `ChunkingFences.FencedRegionsStayWhole` | backend/services/chunking_service.py:83-134 | a fenced region stays in one block, and in one chunk if that block fits, whatever the other blocks |
| `ChunkingFences.FencedRegionsStayInOneSection` | backend/services/chunking_service.py:63-80 | heading-like lines inside a fence open no section |
| `ChunkingFences.FenceLines` | backend/services/chunking_service.py:26 | a fence line is white space followed by three backquotes or three tildes |
| `ChunkingFences.HeadingLines` | backend/services/chunking_service.py:25 | a heading line is one to six number signs, white space, and something after it |
| `TextShape.LineEndingsAreNormalised` | backend/services/chunking_service.py:37 | every carriage return with its line feed becomes a line feed |
| `ChunkingRegions.StripKeepsBlocks` | backend/services/chunking_service.py:55-61 | stripping a section changes none of its blocks |
| `ChunkingRegions.JoiningKeepsBlocks` | backend/services/chunking_service.py:55-61 | joining its lines and splitting them again changes none either |
| `ChunkingRegions.FencedRegionsStayInOneChunk` | backend/services/chunking_service.py:36-134 | a fenced region of any text, Markdown or not, is in one block, and in one chunk if that block fits |
| `SectionPaths.OnePathPerSection` | backend/services/chunking_service.py:48-81 | every section has one path |
| `SectionPaths.PathsAreStacks` | backend/services/chunking_service.py:67-76 | every path shows the heading stack after some prefix of the headings |
| `SectionPaths.StacksAreOutlinesIff` | backend/services/chunking_service.py:72-76 | the stack is the outline of the headings throughout if and only if every heading nests: what the stack keeps in front of it has lower levels |
| `SectionPaths.OrderlyHeadingsNest` | backend/services/chunking_service.py:72-76 | in particular when no heading skips a level |
| `SectionPaths.HeadingsShowTheirTitle` | backend/services/chunking_service.py:67-73 | level and title of a heading line, with or without closing number signs |
| `SectionPaths.ThePathShowsTheTitles` | backend/services/chunking_service.py:76 | the path lists the titles from the outermost to the innermost |
| `ChunkingService.PayloadsCarryTheirPath` | backend/services/chunking_service.py:55-61 | a chunk carries the path of the section it was cut from |
| `ChunkingService.ChunksShowTheOutline` | backend/services/chunking_service.py:48-81 | when all headings nest, every chunk shows the outline at a heading of the text |
| `ChunkingService.ChunkingService.ParagraphBlocks` | backend/services/chunking_service.py:114-134 | the loop over lines computes the blocks |
| `ChunkingService.ChunkingService.SplitFixedWindow` | backend/services/chunking_service.py:136-170 | the loop terminates and computes the pieces, its guard never taken |
| `ChunkingService.ChunkingService.SplitParagraphs` | backend/services/chunking_service.py:83-112 | the merging loop with its flushes computes the paragraph chunks, all with the section path |
| `ChunkingService.ChunkingService.SplitMarkdown` | backend/services/chunking_service.py:48-81 | the loop over lines, fences and the heading stack computes the chunks of all sections with their paths |
| `ChunkingService.ChunkingService.SplitText` | backend/services/chunking_service.py:36-46 | contents and section paths in order, indexed 0 to n-1 |
| `RateLimit.TheSetIsTheWindow` | backend/middleware/rate_limit.py:33-38 | when a call arrives, the cleaned sorted set has exactly as many entries as there are admitted requests in the window |
| `RateLimit.RefusedExactlyWhenTheWindowIsFull` | backend/middleware/rate_limit.py:38-49 | a request is refused if and only if `limit` admitted requests lie in the window that ends with it |
| `RateLimit.NeverMoreThanTheLimit` | backend/middleware/rate_limit.py:26-50 | over every run, every interval (t - window, t] holds at most `limit` admitted requests |
| `RateLimit.AnExpiredKeyForgets` | backend/middleware/rate_limit.py:43-44 | any two requests in one window whose second arrives after the expiry set by the first both pass a limit of one |
| `RateLimit.TimelyIsExact` | backend/middleware/rate_limit.py:26-50 | every limit is kept, whichever of the requests share a key, if and only if no request arrives after the expiry an earlier one in its window set |
| `RateLimit.AgreeingClocksKeepEveryLimit` | backend/middleware/rate_limit.py:26-50 | in particular every limit is kept when, within a window, the server clock gains no more than a second |
| `RateLimit.NoExpiryWithoutEntries` | backend/middleware/rate_limit.py:33-44 | a set that has become empty keeps no expiry |
| `RateLimit.SlidingWindow.Evaluate` | backend/middleware/rate_limit.py:26-50 | the script: admission, count and new sorted set |
| `Rerank.ByScoreIsOrdered` | backend/services/rag_service.py:413-420 | the sorted triples are a permutation in the order of (-score, position) |
| `Rerank.WalkTakesTheBest` | backend/services/rag_service.py:417-430 | every ranking passed over follows a taken one of the same candidate |
| `Rerank.EveryCandidateOnceInOrder` | backend/services/rag_service.py:403-440 | for every ranking list: each candidate exactly once, with its best score, scored ones first in descending score and ranking order, then the others in order |
| `Rerank.ApplyRankings` | backend/services/rag_service.py:403-440 | the two loops return that arrangement up to the limit, and one candidate for a limit below one |
| `Rerank.SelectRerankFallbackCandidates` | backend/services/rag_service.py:26-46 | keeps the order and has a web hit whenever there is one, by replacing the last candidate only |
| `StableSort.Sorts` | backend/services/rag_service.py:417-420 | the sort both rankings use: a permutation by descending key that keeps the order of equal keys |
| `HybridFusion.ShareOfTheOnlyHit` | backend/services/vector_index_service.py:420-450 | in a channel without repetition a chunk gets weight / (60 + rank) |
| `HybridFusion.ShareBounds` | backend/services/vector_index_service.py:460-479 | a channel contributes at most weight / 61, exactly that to its first chunk only |
| `HybridFusion.DominanceInBothChannels` | backend/services/vector_index_service.py:420-450 | a chunk not behind another one in either channel scores no less |
| `HybridFusion.DistanceIsRelative` | backend/services/vector_index_service.py:475-480 | the distance is what the score lacks of the best possible one, lies in [0, 1), and is 0 exactly for a chunk that is first in both channels |
| `HybridFusion.EvidenceIsTheBestSimilarity` | backend/services/vector_index_service.py:483-486 | the evidence is the larger similarity of the channels that found the chunk and reaches the minimum |
| `HybridFusion.RankedIsTheTop` | backend/services/vector_index_service.py:452-456 | the ranking is a repetition-free descending prefix of all chunks, ties in the order first seen, and what it leaves out scores no more |
| `VectorIndexService.BestHitIsBest` | backend/services/vector_index_service.py:501-514 | the entry kept for a chunk is the first with the highest evidence, with the channels of all its hits |
| `VectorIndexService.WhatHybridSearchReturns` | backend/services/vector_index_service.py:387-490 | the fused list: length, order, distinctness, distance, evidence and exact channels |
| `VectorIndexService.ALoneChannelIsSorted` | backend/services/vector_index_service.py:492-546 | a lone channel gives its own chunks by descending evidence, and what the limit leaves out has no more |
| `RetrievalEvidence.EvidenceIsMonotone` | backend/services/vector_index_service.py:549-580 | the nearer of two distances and the higher of two ranks have more evidence |
| `RetrievalEvidence.WhoSurvives` | backend/services/vector_index_service.py:397-406 | in distances and ranks: exactly which hits reach the minimum |
| `RetrievalEvidence.WhatALoneChannelReturns` | backend/services/vector_index_service.py:408-415 | when the other channel has nothing to offer: exactly the hits with enough evidence, each with its own distance, score and evidence, best first, cut at the limit |
| `RetrievalEvidence.EveryHitShowsItsEvidence` | backend/services/vector_index_service.py:387-490 | every hit names the channels that found its chunk with enough evidence and carries the best of their evidence |
| `RetrievalEvidence.WhoIsFound` | backend/services/vector_index_service.py:387-490 | with room for all, the search finds exactly the chunks that one channel found with enough evidence |
| `RetrievalEvidence.WithoutWeightThereIsNoEvidence` | backend/services/vector_index_service.py:460-473 | without a positive weight every fused hit shows distance one and no evidence |
| `VectorIndexService.AccumulateVector` | backend/services/vector_index_service.py:420-434 | the first dictionary loop gives the direct formula for every chunk, repeated chunks included |
| `VectorIndexService.AccumulateFulltext` | backend/services/vector_index_service.py:436-450 | so does the second |
| `VectorIndexService.FuseHybridHits` | backend/services/vector_index_service.py:387-490 | dictionaries, sort and conversion equal the direct formula |
| `VectorIndexService.AddHit` | backend/services/vector_index_service.py:501-514 | one entry: replaced by higher evidence, channels merged |
| `VectorIndexService.BuildSingleChannelHybridHits` | backend/services/vector_index_service.py:492-546 | the dictionary, sorted and cut, equals the per-chunk definition |

## Left out

- HTTP routing, authentication, tracing, logging, settings, object storage, embedding, language model and reranker calls, and tokenisation: their results are arbitrary inputs.
- SQLAlchemy, PostgreSQL and Redis themselves: a conditional UPDATE or a script is one atomic step, a unit of work commits or rolls back, unique indexes act when a row is written, and row locks exclude each other.
- Rows of `task_jobs` other than KB_INGESTION, with mark_processing, mark_completed and mark_failed, which bump no attempt number and belong to other jobs.
- Uploads that find an identical finished file: they insert a job that is already completed.
- The relay service's loop, its back-off times and its tallies; its statements and the replay transaction are steps of the protocol.
- The payload and event type of outbox rows: a job has one event.
- Column length limits other than the truncation of error texts; created_at columns; progress values between 5 and 100.
- Actor and workspace scoping of chat statements: one Boolean guard. The dispatch context, reserved credits and client request id of a chat request, and the unique index on its task id across requests.
- Account creation and the error for a missing user; the transaction rows of source adjust, which no code of the repository writes.
- The paged loop of expire_credits over accounts: each account is its own transaction, which is what is modelled.
- Rounding of binary floating point in rates, similarities and fusion scores: all real arithmetic is exact.
- SQLAlchemy's choice whether an UPDATE refreshes loaded objects: a Boolean of the model.
- The test of the file suffix: a Boolean of the model.
- Runs in which a clock of the limiter goes backwards or two requests draw the same member.
- Extraction of reference ids from a search context; the set of valid ids is an arbitrary input.
- Client address resolution and the error response of the limiter.
- RankedIsTheTop: limits are non-negative there; for a negative limit only the slice itself is modelled.
- WhatHybridSearchReturns: needs positive weights and chunks that occur once per channel; without them the direct formula of FuseHybridHits still holds.
