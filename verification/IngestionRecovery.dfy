/**
  KnowledgeIngestionRecoveryService: the reconciler's transactions over the three repositories.

  Every method below works on the tables in the source's order and rolls the transaction back by hand when a CAS
  is lost. The rows it was handed (`seen`, `fileSeen`, `outboxSeen`) were read earlier and may be out of date.
  */
module IngestionRecovery {
  import opened Wrappers
  import opened TaskRepo
  import opened TaskOutboxRepo
  import opened KnowledgeRepo
  import opened IngestionProtocol

  const STALE_INGESTION_ERROR := "知识文件入库租约超时"
  const DISPATCH_EXHAUSTED_ERROR := "知识文件入库派发预算已耗尽"
  const MISSING_FILE_ERROR := "知识文件记录不存在，任务已终止"

  // Crashed: the IntegrityError of an outbox INSERT, which the reconciler does not catch.
  datatype Outcome =
    | JobCompleted | JobFailed | PairFailed | Retried | OutboxCreated | OutboxReplayed
    | JobCreated | OrphanFailed | Conflict | Crashed
  {
    predicate Commits() { !Conflict? && !Crashed? }
  }

  // ----- the transactions as functions of the database

  function FailOnlyTx(db: Db, t: TaskId, seen: TaskRow, error: string, now: Time): (Outcome, Db) {
    var op := Fail({Pending, Processing}, Some(seen.attemptCount), error, now);
    if Hits(db.tasks, t, op) then (JobFailed, TaskCas(db, t, op, now).value) else (Conflict, db)
  }

  function CompleteTx(db: Db, t: TaskId, seen: TaskRow, status: TaskStatus, now: Time): (Outcome, Db) {
    var op := ReconcileCompleted(status, seen.attemptCount, now);
    if Hits(db.tasks, t, op) then (JobCompleted, TaskCas(db, t, op, now).value) else (Conflict, db)
  }

  function PairTx(db: Db, t: TaskId, f: FileId, op: TaskOp, now: Time): (Outcome, Db) {
    var after := FailPairTx(db, t, f, op, now);
    if after.Some? then (PairFailed, after.value) else (Conflict, db)
  }

  // The INSERT of `_prepare_task_outbox` after a read that found no event.
  predicate InsertClashes(db: Db, t: TaskId, outboxSeen: Option<OutboxRow>) {
    outboxSeen.None? && t in db.outboxes
  }

  function RetryTx(db: Db, t: TaskId, f: FileId, seen: TaskRow, fileSeen: FileStatus, outboxSeen: Option<OutboxRow>,
                   now: Time, legacy: Time): (Outcome, Db) {
    var after := ResetTx(db, t, f, seen.attemptCount, fileSeen, outboxSeen, now, legacy, STALE_INGESTION_ERROR);
    var rowsMove := Hits(db.tasks, t, ResetExpired(seen.attemptCount, now, legacy, STALE_INGESTION_ERROR))
                    && FileHits(db.files, f, {fileSeen});
    if after.Some? then (Retried, after.value)
    else if rowsMove && InsertClashes(db, t, outboxSeen) then (Crashed, db)
    else (Conflict, db)
  }

  function ProcessingTx(c: Config, db: Db, t: TaskId, seen: TaskRow, fileSeen: Option<FileStatus>,
                        outboxSeen: Option<OutboxRow>, now: Time, legacy: Time): (Outcome, Db)
    requires fileSeen.Some? ==> seen.fileId.Some?
  {
    match fileSeen
    case None => FailOnlyTx(db, t, seen, MISSING_FILE_ERROR, now)
    case Some(Ready) => CompleteTx(db, t, seen, Processing, now)
    case Some(FileFailed) => FailOnlyTx(db, t, seen, STALE_INGESTION_ERROR, now)
    case Some(status) =>
      if seen.attemptCount >= c.maxIngestionAttempts then
        PairTx(db, t, seen.fileId.value, FailExpired(seen.attemptCount, now, legacy, STALE_INGESTION_ERROR, now), now)
      else RetryTx(db, t, seen.fileId.value, seen, status, outboxSeen, now, legacy)
  }

  function PendingTx(c: Config, db: Db, t: TaskId, seen: TaskRow, fileSeen: Option<FileStatus>,
                     outboxSeen: Option<OutboxRow>, now: Time): (Outcome, Db)
    requires fileSeen.Some? ==> seen.fileId.Some?
  {
    match fileSeen
    case None => FailOnlyTx(db, t, seen, MISSING_FILE_ERROR, now)
    case Some(Ready) => CompleteTx(db, t, seen, Pending, now)
    case Some(FileFailed) => FailOnlyTx(db, t, seen, STALE_INGESTION_ERROR, now)
    case Some(_) =>
      if outboxSeen.None? then
        if t in db.outboxes then (Crashed, db)
        else (OutboxCreated, db.(outboxes := db.outboxes[t := NewEvent(now)]))
      else if outboxSeen.value.status.Published? && outboxSeen.value.attemptCount < c.maxPublishAttempts then
        var replayed := OutboxCas(db, t, ReopenEvent(Published, outboxSeen.value.attemptCount, now, false));
        if replayed.Some? then (OutboxReplayed, replayed.value) else (Conflict, db)
      else PairTx(db, t, seen.fileId.value, Fail({Pending}, Some(seen.attemptCount), DISPATCH_EXHAUSTED_ERROR, now), now)
  }

  function OrphanTx(db: Db, t: TaskId, f: FileId, owner: Option<nat>, now: Time): (Outcome, Db) {
    if owner.None? then
      if FileHits(db.files, f, {Uploaded}) then (OrphanFailed, FileCas(db, f, {Uploaded}, FileFailed, now).value)
      else (Conflict, db)
    else
      var created := CreateJobTx(db, t, f, now);
      if created.Some? then (JobCreated, created.value) else (Conflict, db)
  }

  // ----- what they promise

  // A reset is all or nothing: PENDING job without a lease, UPLOADED file without chunks, and an event that is
  // active exactly when the outbox read was current in that respect, so with a current read no job is stranded.
  lemma RetryCommitsEverything(db: Db, t: TaskId, f: FileId, seen: TaskRow, fileSeen: FileStatus,
                               outboxSeen: Option<OutboxRow>, now: Time, legacy: Time, db': Db)
    requires RetryTx(db, t, f, seen, fileSeen, outboxSeen, now, legacy) == (Retried, db')
    ensures t in db'.tasks && db'.tasks[t].status.Pending? && db'.tasks[t].leaseExpiresAt.None?
    ensures db'.tasks[t].attemptCount == seen.attemptCount && db.tasks[t].Stale(now, legacy)
    ensures f in db'.files && db'.files[f].status.Uploaded? && f !in db'.chunks
    ensures outboxSeen.None? || !outboxSeen.value.status.Active() ==>
              t in db'.outboxes && db'.outboxes[t].status.Waiting? && db'.outboxes[t].attemptCount == 0
    ensures t in db'.outboxes && db'.outboxes[t].status.Active() <==>
            (outboxSeen.Some? && outboxSeen.value.status.Active() ==> t in db.outboxes && db.outboxes[t].status.Active())
  {
  }

  lemma PairFailureCommitsEverything(db: Db, t: TaskId, f: FileId, op: TaskOp, now: Time, db': Db)
    requires op.Fail? || op.FailExpired?
    requires PairTx(db, t, f, op, now) == (PairFailed, db')
    ensures t in db'.tasks && db'.tasks[t].status.Failed? && db'.tasks[t].leaseExpiresAt.None?
    ensures f in db'.files && db'.files[f].status.FileFailed? && f !in db'.chunks
    ensures db'.outboxes == db.outboxes
    ensures op.FailExpired? ==> db.tasks[t].Stale(op.leaseExpiredBefore, op.legacyUpdatedBefore)
  {
  }

  // The gap branch fails the pair even though an event is active again, exactly when the read did not show one.
  lemma GapFailureDespiteActiveEvent(c: Config, db: Db, t: TaskId, seen: TaskRow, fileSeen: FileStatus,
                                     row: OutboxRow, now: Time)
    requires seen.fileId.Some? && fileSeen in UNFINISHED_FILE
    ensures PendingTx(c, db, t, seen, Some(fileSeen), Some(row), now).0.PairFailed? <==>
            && !(row.status.Published? && row.attemptCount < c.maxPublishAttempts)
            && t in db.tasks && db.tasks[t].status.Pending? && db.tasks[t].attemptCount == seen.attemptCount
            && FileHits(db.files, seen.fileId.value, UNFINISHED_FILE)
  {
  }

  // What the earlier reads guarantee of the current rows: a job's file id never changes except to NULL when the
  // file is deleted, and file ids are not reused.
  ghost predicate SameFile(db: Db, t: TaskId, seen: TaskRow) {
    t in db.tasks && seen.fileId.Some? && seen.fileId.value in db.files ==> db.tasks[t].fileId == seen.fileId
  }

  // Every committed outcome is one step of the protocol; every other outcome leaves all rows as they were.
  ghost predicate IsStepOrNothing(c: Config, s: System, step: Step, result: (Outcome, Db)) {
    if result.0.Commits() then Commit(c, s, step) == Some(s.(db := result.1)) else result.1 == s.db
  }

  lemma FailOnlyIsOneStep(c: Config, s: System, t: TaskId, seen: TaskRow, error: string, now: Time)
    ensures IsStepOrNothing(c, s, FailTaskOnly(t, seen.attemptCount, now, error), FailOnlyTx(s.db, t, seen, error, now))
  {
  }

  lemma CompleteIsOneStep(c: Config, s: System, t: TaskId, seen: TaskRow, status: TaskStatus, now: Time)
    ensures IsStepOrNothing(c, s, CompleteReady(t, status, seen.attemptCount, now), CompleteTx(s.db, t, seen, status, now))
  {
  }

  lemma PairIsOneStep(c: Config, s: System, t: TaskId, seen: TaskRow, op: TaskOp, now: Time, step: Step)
    requires seen.fileId.Some? && SameFile(s.db, t, seen)
    requires || (op.FailExpired? && op.at == op.leaseExpiredBefore == now
                 && step == FailExpiredPair(t, op.expectedAttempt, now, op.legacyUpdatedBefore, op.error))
             || (op.Fail? && op == Fail({Pending}, Some(seen.attemptCount), op.error, now)
                 && step == GapFail(t, seen.attemptCount, now, op.error))
    ensures IsStepOrNothing(c, s, step, PairTx(s.db, t, seen.fileId.value, op, now))
  {
  }

  lemma RetryIsOneStep(c: Config, s: System, t: TaskId, seen: TaskRow, fileSeen: FileStatus,
                       outboxSeen: Option<OutboxRow>, now: Time, legacy: Time)
    requires seen.fileId.Some? && SameFile(s.db, t, seen)
    requires fileSeen in UNFINISHED_FILE && seen.attemptCount < c.maxIngestionAttempts
    ensures IsStepOrNothing(c, s, Reset(t, seen.attemptCount, fileSeen, outboxSeen, now, legacy, STALE_INGESTION_ERROR),
                            RetryTx(s.db, t, seen.fileId.value, seen, fileSeen, outboxSeen, now, legacy))
  {
    assert Hits(s.db.tasks, t, ResetExpired(seen.attemptCount, now, legacy, STALE_INGESTION_ERROR)) ==> t in s.db.tasks;
  }

  lemma ProcessingIsOneStep(c: Config, s: System, t: TaskId, seen: TaskRow, fileSeen: Option<FileStatus>,
                            outboxSeen: Option<OutboxRow>, now: Time, legacy: Time) returns (step: Step)
    requires (fileSeen.Some? ==> seen.fileId.Some?) && SameFile(s.db, t, seen)
    ensures IsStepOrNothing(c, s, step, ProcessingTx(c, s.db, t, seen, fileSeen, outboxSeen, now, legacy))
  {
    match fileSeen
    case None =>
      step := FailTaskOnly(t, seen.attemptCount, now, MISSING_FILE_ERROR);
      FailOnlyIsOneStep(c, s, t, seen, MISSING_FILE_ERROR, now);
    case Some(Ready) =>
      step := CompleteReady(t, Processing, seen.attemptCount, now);
      CompleteIsOneStep(c, s, t, seen, Processing, now);
    case Some(FileFailed) =>
      step := FailTaskOnly(t, seen.attemptCount, now, STALE_INGESTION_ERROR);
      FailOnlyIsOneStep(c, s, t, seen, STALE_INGESTION_ERROR, now);
    case Some(status) =>
      if seen.attemptCount >= c.maxIngestionAttempts {
        step := FailExpiredPair(t, seen.attemptCount, now, legacy, STALE_INGESTION_ERROR);
        PairIsOneStep(c, s, t, seen, FailExpired(seen.attemptCount, now, legacy, STALE_INGESTION_ERROR, now), now, step);
      } else {
        step := Reset(t, seen.attemptCount, status, outboxSeen, now, legacy, STALE_INGESTION_ERROR);
        RetryIsOneStep(c, s, t, seen, status, outboxSeen, now, legacy);
      }
  }

  lemma PendingIsOneStep(c: Config, s: System, t: TaskId, seen: TaskRow, fileSeen: Option<FileStatus>,
                         outboxSeen: Option<OutboxRow>, now: Time) returns (step: Step)
    requires (fileSeen.Some? ==> seen.fileId.Some?) && SameFile(s.db, t, seen) && t in s.db.tasks
    ensures IsStepOrNothing(c, s, step, PendingTx(c, s.db, t, seen, fileSeen, outboxSeen, now))
  {
    match fileSeen
    case None =>
      step := FailTaskOnly(t, seen.attemptCount, now, MISSING_FILE_ERROR);
      FailOnlyIsOneStep(c, s, t, seen, MISSING_FILE_ERROR, now);
    case Some(Ready) =>
      step := CompleteReady(t, Pending, seen.attemptCount, now);
      CompleteIsOneStep(c, s, t, seen, Pending, now);
    case Some(FileFailed) =>
      step := FailTaskOnly(t, seen.attemptCount, now, STALE_INGESTION_ERROR);
      FailOnlyIsOneStep(c, s, t, seen, STALE_INGESTION_ERROR, now);
    case Some(_) =>
      if outboxSeen.None? {
        step := GapCreate(t, now);
      } else if outboxSeen.value.status.Published? && outboxSeen.value.attemptCount < c.maxPublishAttempts {
        step := GapReplay(t, outboxSeen.value.attemptCount, now);
      } else {
        step := GapFail(t, seen.attemptCount, now, DISPATCH_EXHAUSTED_ERROR);
        PairIsOneStep(c, s, t, seen, Fail({Pending}, Some(seen.attemptCount), DISPATCH_EXHAUSTED_ERROR, now), now, step);
      }
  }

  lemma OrphanIsOneStep(c: Config, s: System, t: TaskId, f: FileId, owner: Option<nat>, now: Time) returns (step: Step)
    ensures IsStepOrNothing(c, s, step, OrphanTx(s.db, t, f, owner, now))
  {
    step := if owner.None? then OrphanFail(f, now) else OrphanCreate(t, f, now);
  }

  // ----- the result counters

  datatype Counters = Counters(
    createdTask: nat, createdOutbox: nat, replayedOutbox: nat, retriedTask: nat,
    completedTask: nat, failedFile: nat, failedTask: nat, conflict: nat)

  const NO_COUNTS := Counters(0, 0, 0, 0, 0, 0, 0, 0)

  function Counted(n: Counters, o: Outcome): Counters {
    match o
    case JobCompleted => n.(completedTask := n.completedTask + 1)
    case JobFailed => n.(failedTask := n.failedTask + 1)
    case PairFailed => n.(failedTask := n.failedTask + 1, failedFile := n.failedFile + 1)
    case Retried => n.(retriedTask := n.retriedTask + 1)
    case OutboxCreated => n.(createdOutbox := n.createdOutbox + 1)
    case OutboxReplayed => n.(replayedOutbox := n.replayedOutbox + 1)
    case JobCreated => n.(createdTask := n.createdTask + 1, createdOutbox := n.createdOutbox + 1)
    case OrphanFailed => n.(failedFile := n.failedFile + 1)
    case Conflict => n.(conflict := n.conflict + 1)
    case Crashed => n
  }

  function TallyFrom(start: Counters, outcomes: seq<Outcome>): Counters {
    if outcomes == [] then start else Counted(TallyFrom(start, outcomes[..|outcomes| - 1]), outcomes[|outcomes| - 1])
  }

  function Tally(outcomes: seq<Outcome>): Counters {
    TallyFrom(NO_COUNTS, outcomes)
  }

  lemma {:induction false} TallyContinues(start: Counters, x: seq<Outcome>, y: seq<Outcome>)
    ensures TallyFrom(TallyFrom(start, x), y) == TallyFrom(start, x + y)
  {
    if y == [] {
      assert x + y == x;
    } else {
      assert (x + y)[..|x + y| - 1] == x + y[..|y| - 1];
      TallyContinues(start, x, y[..|y| - 1]);
    }
  }

  // How often an outcome occurs.
  function Occurrences(outcomes: seq<Outcome>, o: Outcome): nat {
    if outcomes == [] then 0 else Occurrences(outcomes[..|outcomes| - 1], o) + if outcomes[|outcomes| - 1] == o then 1 else 0
  }

  // Each item is counted under exactly one outcome; only a failed pair and a created job raise two counters.
  lemma {:induction false} TallyAccountsForEveryItem(outcomes: seq<Outcome>)
    requires Crashed !in outcomes
    ensures
      var n := Tally(outcomes);
      && n.completedTask == Occurrences(outcomes, JobCompleted) && n.retriedTask == Occurrences(outcomes, Retried)
      && n.replayedOutbox == Occurrences(outcomes, OutboxReplayed) && n.conflict == Occurrences(outcomes, Conflict)
      && n.createdTask == Occurrences(outcomes, JobCreated)
      && n.failedTask == Occurrences(outcomes, JobFailed) + Occurrences(outcomes, PairFailed)
      && n.failedFile == Occurrences(outcomes, OrphanFailed) + Occurrences(outcomes, PairFailed)
      && n.createdOutbox == Occurrences(outcomes, OutboxCreated) + n.createdTask
      && |outcomes| == n.completedTask + n.retriedTask + n.replayedOutbox + n.conflict + n.failedTask + n.failedFile
                       + n.createdOutbox - Occurrences(outcomes, PairFailed)
  {
    if outcomes != [] {
      var init, last := outcomes[..|outcomes| - 1], outcomes[|outcomes| - 1];
      assert outcomes == init + [last];
      TallyAccountsForEveryItem(init);
    }
  }

  // ----- the service

  datatype TaskItem = TaskItem(t: TaskId, seen: TaskRow, fileSeen: Option<FileStatus>, outboxSeen: Option<OutboxRow>)
  datatype OrphanItem = OrphanItem(f: FileId, owner: Option<nat>, newTask: TaskId)

  // A missing file id was read as a missing file.
  predicate ReadTogether(item: TaskItem) {
    item.fileSeen.Some? ==> item.seen.fileId.Some?
  }

  // A sweep is its transactions one after the other, until one of them raises.
  function SweepProcessing(c: Config, db: Db, items: seq<TaskItem>, now: Time, legacy: Time): (r: (seq<Outcome>, Db))
    requires forall i :: 0 <= i < |items| ==> ReadTogether(items[i])
  {
    if items == [] then ([], db)
    else
      var last := items[|items| - 1];
      assert ReadTogether(items[|items| - 1]);
      var (outcomes, db1) := SweepProcessing(c, db, items[..|items| - 1], now, legacy);
      if Crashed in outcomes then (outcomes, db1)
      else
        var (outcome, db2) := ProcessingTx(c, db1, last.t, last.seen, last.fileSeen, last.outboxSeen, now, legacy);
        (outcomes + [outcome], db2)
  }

  function SweepPending(c: Config, db: Db, items: seq<TaskItem>, now: Time): (seq<Outcome>, Db)
    requires forall i :: 0 <= i < |items| ==> ReadTogether(items[i])
  {
    if items == [] then ([], db)
    else
      var last := items[|items| - 1];
      assert ReadTogether(items[|items| - 1]);
      var (outcomes, db1) := SweepPending(c, db, items[..|items| - 1], now);
      if Crashed in outcomes then (outcomes, db1)
      else
        var (outcome, db2) := PendingTx(c, db1, last.t, last.seen, last.fileSeen, last.outboxSeen, now);
        (outcomes + [outcome], db2)
  }

  // The whole sweep: stale jobs, then gaps, then orphan files.
  function FullSweep(c: Config, db: Db, stale: seq<TaskItem>, gaps: seq<TaskItem>, orphans: seq<OrphanItem>,
                     now: Time, legacy: Time): (seq<Outcome>, Db)
    requires forall i :: 0 <= i < |stale| ==> ReadTogether(stale[i])
    requires forall i :: 0 <= i < |gaps| ==> ReadTogether(gaps[i])
  {
    var (first, db1) := SweepProcessing(c, db, stale, now, legacy);
    if Crashed in first then (first, db1)
    else
      var (second, db2) := SweepPending(c, db1, gaps, now);
      if Crashed in second then (first + second, db2)
      else
        var (third, db3) := SweepOrphans(db2, orphans, now);
        (first + second + third, db3)
  }

  lemma {:induction false} SweepsReachEveryItem(
    c: Config, db: Db, stale: seq<TaskItem>, gaps: seq<TaskItem>, orphans: seq<OrphanItem>, now: Time, legacy: Time)
    requires forall i :: 0 <= i < |stale| ==> ReadTogether(stale[i])
    requires forall i :: 0 <= i < |gaps| ==> ReadTogether(gaps[i])
    ensures Crashed !in SweepProcessing(c, db, stale, now, legacy).0 ==> |SweepProcessing(c, db, stale, now, legacy).0| == |stale|
    ensures Crashed !in SweepPending(c, db, gaps, now).0 ==> |SweepPending(c, db, gaps, now).0| == |gaps|
    ensures Crashed !in SweepOrphans(db, orphans, now).0 && |SweepOrphans(db, orphans, now).0| == |orphans|
    decreases |stale| + |gaps| + |orphans|
  {
    if stale != [] {
      SweepsReachEveryItem(c, db, stale[..|stale| - 1], [], [], now, legacy);
    }
    if gaps != [] {
      SweepsReachEveryItem(c, db, [], gaps[..|gaps| - 1], [], now, legacy);
    }
    if orphans != [] {
      SweepsReachEveryItem(c, db, [], [], orphans[..|orphans| - 1], now, legacy);
    }
  }

  function SweepOrphans(db: Db, items: seq<OrphanItem>, now: Time): (seq<Outcome>, Db) {
    if items == [] then ([], db)
    else
      var last := items[|items| - 1];
      var (outcomes, db1) := SweepOrphans(db, items[..|items| - 1], now);
      var (outcome, db2) := OrphanTx(db1, last.newTask, last.f, last.owner, now);
      (outcomes + [outcome], db2)
  }

  class KnowledgeIngestionRecoveryService {
    const taskRepo: TaskTable
    const outboxRepo: OutboxTable
    const knowledgeRepo: KnowledgeTables
    const config: Config

    constructor (taskRepo: TaskTable, outboxRepo: OutboxTable, knowledgeRepo: KnowledgeTables, config: Config)
      ensures this.taskRepo == taskRepo && this.outboxRepo == outboxRepo
      ensures this.knowledgeRepo == knowledgeRepo && this.config == config
    {
      this.taskRepo, this.outboxRepo, this.knowledgeRepo, this.config := taskRepo, outboxRepo, knowledgeRepo, config;
    }

    function Database(): Db
      reads taskRepo, outboxRepo, knowledgeRepo
    {
      Db(taskRepo.rows, outboxRepo.rows, knowledgeRepo.files, knowledgeRepo.chunks)
    }

    method Rollback(saved: Db)
      modifies taskRepo, outboxRepo, knowledgeRepo
      ensures Database() == saved
    {
      taskRepo.rows := saved.tasks;
      outboxRepo.rows := saved.outboxes;
      knowledgeRepo.files := saved.files;
      knowledgeRepo.chunks := saved.chunks;
    }

    method FailTaskOnly(t: TaskId, seen: TaskRow, error: string, now: Time) returns (outcome: Outcome)
      modifies taskRepo
      ensures (outcome, Database()) == FailOnlyTx(old(Database()), t, seen, error, now)
    {
      var failed := taskRepo.TryFailKbIngestionTask(t, {Pending, Processing}, Some(seen.attemptCount), error, now, now);
      outcome := if failed then JobFailed else Conflict;
    }

    method CompleteReadyTask(t: TaskId, seen: TaskRow, status: TaskStatus, now: Time) returns (outcome: Outcome)
      requires status.Active()
      modifies taskRepo
      ensures (outcome, Database()) == CompleteTx(old(Database()), t, seen, status, now)
    {
      var completed := taskRepo.TryReconcileCompletedKbIngestionTask(t, status, seen.attemptCount, now, now);
      outcome := if completed == Hit then JobCompleted else Conflict;
    }

    method FailExpiredPair(t: TaskId, f: FileId, seen: TaskRow, now: Time, legacy: Time) returns (outcome: Outcome)
      modifies taskRepo, outboxRepo, knowledgeRepo
      ensures (outcome, Database())
              == PairTx(old(Database()), t, f, FailExpired(seen.attemptCount, now, legacy, STALE_INGESTION_ERROR, now), now)
    {
      var saved := Database();
      var failed := taskRepo.TryFailExpiredKbIngestionTask(t, seen.attemptCount, now, legacy, STALE_INGESTION_ERROR, now, now);
      if !failed {
        return Conflict;
      }
      knowledgeRepo.DeleteChunksForFile(f);
      var fileFailed := knowledgeRepo.TryTransitionFileStatus(f, {Uploaded, Parsing, Chunking}, FileFailed, now);
      if !fileFailed {
        Rollback(saved);
        return Conflict;
      }
      return PairFailed;
    }

    // `_prepare_task_outbox` with reset_publish_attempts set; the caller rolls back unless it returns Retried.
    method PrepareTaskOutbox(t: TaskId, outboxSeen: Option<OutboxRow>, now: Time) returns (outcome: Outcome)
      modifies outboxRepo
      ensures outcome.Retried? || outcome.Conflict? || outcome.Crashed?
      ensures outcome.Crashed? <==> InsertClashes(old(Database()), t, outboxSeen)
      ensures var after := PrepareOutbox(old(Database()), t, outboxSeen, now);
              (outcome.Retried? <==> after.Some?) && (after.Some? ==> Database() == after.value)
    {
      if outboxSeen.None? {
        var created := outboxRepo.Create(t, now);
        return if created then Retried else Crashed;
      }
      var status := outboxSeen.value.status;
      if status == Published || status == Dead {
        var prepared := outboxRepo.TryPrepareReplay(t, status, outboxSeen.value.attemptCount, now, true);
        if prepared != Hit {
          return Conflict;
        }
      }
      return Retried;
    }

    method ReconcileProcessingTask(item: TaskItem, now: Time, legacy: Time) returns (outcome: Outcome)
      requires item.fileSeen.Some? ==> item.seen.fileId.Some?
      modifies taskRepo, outboxRepo, knowledgeRepo
      ensures (outcome, Database())
              == ProcessingTx(config, old(Database()), item.t, item.seen, item.fileSeen, item.outboxSeen, now, legacy)
    {
      var t, seen := item.t, item.seen;
      if item.fileSeen.None? {
        outcome := FailTaskOnly(t, seen, MISSING_FILE_ERROR, now);
        return;
      }
      var f, fileStatus := seen.fileId.value, item.fileSeen.value;
      if fileStatus == Ready {
        outcome := CompleteReadyTask(t, seen, Processing, now);
        return;
      }
      if fileStatus == FileFailed {
        outcome := FailTaskOnly(t, seen, STALE_INGESTION_ERROR, now);
        return;
      }
      if seen.attemptCount >= config.maxIngestionAttempts {
        outcome := FailExpiredPair(t, f, seen, now, legacy);
        return;
      }
      outcome := RetryExpired(t, f, seen, fileStatus, item.outboxSeen, now, legacy);
    }

    method RetryExpired(t: TaskId, f: FileId, seen: TaskRow, fileStatus: FileStatus, outboxSeen: Option<OutboxRow>,
                        now: Time, legacy: Time)
      returns (outcome: Outcome)
      modifies taskRepo, outboxRepo, knowledgeRepo
      ensures (outcome, Database()) == RetryTx(old(Database()), t, f, seen, fileStatus, outboxSeen, now, legacy)
    {
      var saved := Database();
      var reset := taskRepo.TryResetExpiredKbIngestionTask(t, seen.attemptCount, now, legacy, STALE_INGESTION_ERROR, now);
      if !reset {
        return Conflict;
      }
      ghost var db1 := Database();
      assert TaskCas(saved, t, ResetExpired(seen.attemptCount, now, legacy, STALE_INGESTION_ERROR), now) == Some(db1);
      knowledgeRepo.DeleteChunksForFile(f);
      var fileReset := knowledgeRepo.TryTransitionFileStatus(f, {fileStatus}, Uploaded, now);
      if !fileReset {
        Rollback(saved);
        return Conflict;
      }
      assert FileCas(WithoutChunks(db1, f), f, {fileStatus}, Uploaded, now) == Some(Database());
      assert Database().outboxes == saved.outboxes;
      outcome := PrepareTaskOutbox(t, outboxSeen, now);
      if outcome != Retried {
        Rollback(saved);
      }
    }

    method ReconcilePendingTask(item: TaskItem, now: Time) returns (outcome: Outcome)
      requires item.fileSeen.Some? ==> item.seen.fileId.Some?
      modifies taskRepo, outboxRepo, knowledgeRepo
      ensures (outcome, Database())
              == PendingTx(config, old(Database()), item.t, item.seen, item.fileSeen, item.outboxSeen, now)
    {
      var t, seen := item.t, item.seen;
      if item.fileSeen.None? {
        outcome := FailTaskOnly(t, seen, MISSING_FILE_ERROR, now);
        return;
      }
      var f, fileStatus := seen.fileId.value, item.fileSeen.value;
      if fileStatus == Ready {
        outcome := CompleteReadyTask(t, seen, Pending, now);
        return;
      }
      if fileStatus == FileFailed {
        outcome := FailTaskOnly(t, seen, STALE_INGESTION_ERROR, now);
        return;
      }
      if item.outboxSeen.None? {
        var created := outboxRepo.Create(t, now);
        return if created then OutboxCreated else Crashed;
      }
      var outbox := item.outboxSeen.value;
      if outbox.status == Published && outbox.attemptCount < config.maxPublishAttempts {
        var replayed := outboxRepo.TryPrepareReplay(t, Published, outbox.attemptCount, now, false);
        return if replayed == Hit then OutboxReplayed else Conflict;
      }
      var saved := Database();
      var failed := taskRepo.TryFailKbIngestionTask(
        t, {Pending}, Some(seen.attemptCount), DISPATCH_EXHAUSTED_ERROR, now, now);
      if !failed {
        return Conflict;
      }
      knowledgeRepo.DeleteChunksForFile(f);
      var fileFailed := knowledgeRepo.TryTransitionFileStatus(f, {Uploaded, Parsing, Chunking}, FileFailed, now);
      if !fileFailed {
        Rollback(saved);
        return Conflict;
      }
      return PairFailed;
    }

    // Both INSERTs can raise an IntegrityError (primary key, foreign key, active-job index, event constraint);
    // here it is caught and counts as a conflict.
    method ReconcileOrphanFile(item: OrphanItem, now: Time) returns (outcome: Outcome)
      modifies taskRepo, outboxRepo, knowledgeRepo
      ensures (outcome, Database()) == OrphanTx(old(Database()), item.newTask, item.f, item.owner, now)
    {
      if item.owner.None? {
        var failed := knowledgeRepo.TryTransitionFileStatus(item.f, {Uploaded}, FileFailed, now);
        return if failed then OrphanFailed else Conflict;
      }
      if item.f !in knowledgeRepo.files {
        return Conflict;
      }
      var saved := Database();
      var created := taskRepo.CreateIngestion(item.newTask, item.f, now);
      if !created {
        return Conflict;
      }
      var eventCreated := outboxRepo.Create(item.newTask, now);
      if !eventCreated {
        Rollback(saved);
        return Conflict;
      }
      return JobCreated;
    }

    // An uncaught IntegrityError ends the sweep: nothing after it runs.
    method ReconcileStaleTasks(items: seq<TaskItem>, now: Time, legacy: Time, start: Counters)
      returns (result: Counters, outcomes: seq<Outcome>)
      requires forall i :: 0 <= i < |items| ==> ReadTogether(items[i])
      modifies taskRepo, outboxRepo, knowledgeRepo
      ensures (outcomes, Database()) == SweepProcessing(config, old(Database()), items, now, legacy)
      ensures result == TallyFrom(start, outcomes)
    {
      result, outcomes := start, [];
      for i := 0 to |items|
        invariant (outcomes, Database()) == SweepProcessing(config, old(Database()), items[..i], now, legacy)
        invariant result == TallyFrom(start, outcomes)
      {
        assert items[..i + 1][..i] == items[..i];
        if Crashed !in outcomes {
          var outcome := ReconcileProcessingTask(items[i], now, legacy);
          assert (outcomes + [outcome])[..|outcomes|] == outcomes;
          outcomes := outcomes + [outcome];
          result := Counted(result, outcome);
        }
      }
      assert items[..|items|] == items;
    }

    method ReconcilePendingGaps(items: seq<TaskItem>, now: Time, start: Counters)
      returns (result: Counters, outcomes: seq<Outcome>)
      requires forall i :: 0 <= i < |items| ==> ReadTogether(items[i])
      modifies taskRepo, outboxRepo, knowledgeRepo
      ensures (outcomes, Database()) == SweepPending(config, old(Database()), items, now)
      ensures result == TallyFrom(start, outcomes)
    {
      result, outcomes := start, [];
      for i := 0 to |items|
        invariant (outcomes, Database()) == SweepPending(config, old(Database()), items[..i], now)
        invariant result == TallyFrom(start, outcomes)
      {
        assert items[..i + 1][..i] == items[..i];
        if Crashed !in outcomes {
          var outcome := ReconcilePendingTask(items[i], now);
          assert (outcomes + [outcome])[..|outcomes|] == outcomes;
          outcomes := outcomes + [outcome];
          result := Counted(result, outcome);
        }
      }
      assert items[..|items|] == items;
    }

    method ReconcileOrphanFiles(items: seq<OrphanItem>, now: Time, start: Counters)
      returns (result: Counters, outcomes: seq<Outcome>)
      modifies taskRepo, outboxRepo, knowledgeRepo
      ensures (outcomes, Database()) == SweepOrphans(old(Database()), items, now)
      ensures result == TallyFrom(start, outcomes)
    {
      result, outcomes := start, [];
      for i := 0 to |items|
        invariant (outcomes, Database()) == SweepOrphans(old(Database()), items[..i], now)
        invariant result == TallyFrom(start, outcomes)
      {
        assert items[..i + 1][..i] == items[..i];
        var outcome := ReconcileOrphanFile(items[i], now);
        assert (outcomes + [outcome])[..|outcomes|] == outcomes;
        outcomes := outcomes + [outcome];
        result := Counted(result, outcome);
      }
      assert items[..|items|] == items;
    }

    method RecoverStaleIngestions(
      staleTasks: seq<TaskItem>, pendingGaps: seq<TaskItem>, orphanFiles: seq<OrphanItem>, now: Time, legacy: Time)
      returns (result: Counters, scannedTasks: nat, scannedOrphans: nat, outcomes: seq<Outcome>)
      requires forall i :: 0 <= i < |staleTasks| ==> ReadTogether(staleTasks[i])
      requires forall i :: 0 <= i < |pendingGaps| ==> ReadTogether(pendingGaps[i])
      modifies taskRepo, outboxRepo, knowledgeRepo
      ensures (outcomes, Database()) == FullSweep(config, old(Database()), staleTasks, pendingGaps, orphanFiles, now, legacy)
      ensures result == Tally(outcomes) && scannedTasks == |staleTasks| + |pendingGaps| && scannedOrphans == |orphanFiles|
      ensures Crashed !in outcomes ==> |outcomes| == scannedTasks + scannedOrphans
    {
      scannedTasks, scannedOrphans := |staleTasks| + |pendingGaps|, |orphanFiles|;
      SweepsReachEveryItem(config, Database(), staleTasks, [], [], now, legacy);
      result, outcomes := ReconcileStaleTasks(staleTasks, now, legacy, NO_COUNTS);
      if Crashed in outcomes {
        return;
      }
      SweepsReachEveryItem(config, Database(), [], pendingGaps, [], now, legacy);
      var gapOutcomes;
      result, gapOutcomes := ReconcilePendingGaps(pendingGaps, now, result);
      TallyContinues(NO_COUNTS, outcomes, gapOutcomes);
      outcomes := outcomes + gapOutcomes;
      if Crashed in gapOutcomes {
        return;
      }
      SweepsReachEveryItem(config, Database(), [], [], orphanFiles, now, legacy);
      var orphanOutcomes;
      result, orphanOutcomes := ReconcileOrphanFiles(orphanFiles, now, result);
      TallyContinues(NO_COUNTS, outcomes, orphanOutcomes);
      outcomes := outcomes + orphanOutcomes;
    }
  }
}
