/**
  Which outcome each of the reconciler's transactions has, and what it leaves, stated on the rows alone: the rows it
  was handed, the rows it finds, and their columns.
  */
module IngestionVerdicts {
  import opened Wrappers
  import opened TaskRepo
  import opened TaskOutboxRepo
  import opened KnowledgeRepo
  import opened IngestionProtocol
  import opened IngestionRecovery

  // ----- what the tables still say about a job that was read earlier

  predicate Running(db: Db, t: TaskId, attempt: int) {
    t in db.tasks && db.tasks[t].status == Processing && db.tasks[t].attemptCount == attempt
  }

  predicate Queued(db: Db, t: TaskId, attempt: int) {
    t in db.tasks && db.tasks[t].status == Pending && db.tasks[t].attemptCount == attempt
  }

  // Running, and its lease has run out; a job without a lease is judged by its last update.
  predicate Abandoned(db: Db, t: TaskId, attempt: int, now: Time, legacy: Time) {
    && Running(db, t, attempt)
    && match db.tasks[t].leaseExpiresAt
       case Some(lease) => lease <= now
       case None => db.tasks[t].updatedAt <= legacy
  }

  predicate FileIn(db: Db, f: FileId, statuses: set<FileStatus>) {
    f in db.files && db.files[f].status in statuses
  }

  predicate Unfinished(fileSeen: Option<FileStatus>) {
    fileSeen == Some(Uploaded) || fileSeen == Some(Parsing) || fileSeen == Some(Chunking)
  }

  predicate EventUnderWay(row: OutboxRow) {
    row.status == Waiting || row.status == Publishing
  }

  // The settled event read earlier is still the same.
  predicate StillSettled(db: Db, t: TaskId, row: OutboxRow) {
    t in db.outboxes && db.outboxes[t].status == row.status && db.outboxes[t].attemptCount == row.attemptCount
  }

  // ----- what the transactions leave

  function At<K(==), V>(rows: map<K, V>, key: K): Option<V> {
    if key in rows then Some(rows[key]) else None
  }

  // The row is queued again under its attempt number, with nothing left of that attempt.
  predicate QueuedAgain(before: TaskRow, after: TaskRow, error: string, now: Time) {
    after == TaskRow(before.fileId, Pending, 0, before.attemptCount, Some(error), None, None, None, None, now)
  }

  predicate Stopped(before: TaskRow, after: TaskRow, error: string, now: Time) {
    after == TaskRow(before.fileId, Failed, 0, before.attemptCount, Some(error), before.startedAt, Some(now),
                     before.heartbeatAt, None, now)
  }

  predicate Finished(before: TaskRow, after: TaskRow, now: Time) {
    after == TaskRow(before.fileId, Completed, 100, before.attemptCount, None, before.startedAt, Some(now), Some(now), None, now)
  }

  // Due at once, without an owner, and with `attempts` publications spent.
  predicate Announced(event: Option<OutboxRow>, attempts: nat, now: Time) {
    && event.Some? && event.value.status == Waiting && event.value.attemptCount == attempts
    && event.value.nextAttemptAt == Some(now) && event.value.leaseOwner.None? && event.value.leaseExpiresAt.None?
    && event.value.publishedAt.None? && event.value.lastError.None?
  }

  // The file has changed its status and has no chunks any more.
  predicate FileEmptied(db: Db, db': Db, f: FileId, status: FileStatus, now: Time) {
    f in db.files && f in db'.files && db'.files[f] == FileRow(status, db.files[f].owner, now) && f !in db'.chunks
  }

  predicate SameTask(db: Db, db': Db, t: TaskId) {
    At(db'.tasks, t) == At(db.tasks, t)
  }

  predicate SameEvent(db: Db, db': Db, t: TaskId) {
    At(db'.outboxes, t) == At(db.outboxes, t)
  }

  predicate SameFileRows(db: Db, db': Db, f: Option<FileId>) {
    f.Some? ==> At(db'.files, f.value) == At(db.files, f.value) && At(db'.chunks, f.value) == At(db.chunks, f.value)
  }

  // The job, its event, its file and the file's chunks after each outcome; `exhausted` explains a failed pair.
  predicate Leaves(db: Db, db': Db, item: TaskItem, outcome: Outcome, exhausted: string, now: Time) {
    var t, f := item.t, item.seen.fileId;
    match outcome
    case Retried =>
      && f.Some? && FileEmptied(db, db', f.value, Uploaded, now)
      && t in db.tasks && t in db'.tasks && QueuedAgain(db.tasks[t], db'.tasks[t], STALE_INGESTION_ERROR, now)
      && if item.outboxSeen.Some? && EventUnderWay(item.outboxSeen.value) then SameEvent(db, db', t)
         else Announced(At(db'.outboxes, t), 0, now)
    case PairFailed =>
      && f.Some? && FileEmptied(db, db', f.value, FileFailed, now) && SameEvent(db, db', t)
      && t in db.tasks && t in db'.tasks && Stopped(db.tasks[t], db'.tasks[t], exhausted, now)
    case JobCompleted =>
      && t in db.tasks && t in db'.tasks && Finished(db.tasks[t], db'.tasks[t], now)
      && SameEvent(db, db', t) && SameFileRows(db, db', f)
    case JobFailed =>
      && t in db.tasks && t in db'.tasks
      && Stopped(db.tasks[t], db'.tasks[t], if item.fileSeen == None then MISSING_FILE_ERROR else STALE_INGESTION_ERROR, now)
      && SameEvent(db, db', t) && SameFileRows(db, db', f)
    case OutboxCreated =>
      SameTask(db, db', t) && SameFileRows(db, db', f) && Announced(At(db'.outboxes, t), 0, now)
    case OutboxReplayed =>
      && item.outboxSeen.Some? && Announced(At(db'.outboxes, t), item.outboxSeen.value.attemptCount, now)
      && SameTask(db, db', t) && SameFileRows(db, db', f)
    case _ => SameTask(db, db', t) && SameEvent(db, db', t) && SameFileRows(db, db', f)
  }

  // Nothing else changes.
  ghost predicate LeavesOthers(db: Db, db': Db, item: TaskItem) {
    && (forall u: TaskId :: u != item.t ==> SameTask(db, db', u) && SameEvent(db, db', u))
    && (forall g: FileId :: Some(g) != item.seen.fileId ==> SameFileRows(db, db', Some(g)))
  }

  // ----- stale jobs

  // The file as it was read selects the branch; the rows as they are now decide its outcome.
  predicate StaleJobOutcome(c: Config, db: Db, item: TaskItem, now: Time, legacy: Time, outcome: Outcome) {
    var t, a, f := item.t, item.seen.attemptCount, item.seen.fileId;
    var resettable := Unfinished(item.fileSeen) && a < c.maxIngestionAttempts && Abandoned(db, t, a, now, legacy)
                      && f.Some? && FileIn(db, f.value, {item.fileSeen.value});
    && (outcome == Retried <==> resettable && match item.outboxSeen
                                              case None => t !in db.outboxes
                                              case Some(row) => EventUnderWay(row) || StillSettled(db, t, row))
    && (outcome == Crashed <==> resettable && item.outboxSeen == None && t in db.outboxes)
    && (outcome == PairFailed <==>
          && Unfinished(item.fileSeen) && a >= c.maxIngestionAttempts && Abandoned(db, t, a, now, legacy)
          && f.Some? && FileIn(db, f.value, {Uploaded, Parsing, Chunking}))
    && (outcome == JobCompleted <==> item.fileSeen == Some(Ready) && Running(db, t, a))
    && (outcome == JobFailed <==>
          (item.fileSeen == None || item.fileSeen == Some(FileFailed)) && (Running(db, t, a) || Queued(db, t, a)))
    && outcome in {Retried, Crashed, PairFailed, JobCompleted, JobFailed, Conflict}
  }

  lemma StaleJobVerdict(c: Config, db: Db, item: TaskItem, now: Time, legacy: Time)
    requires ReadTogether(item)
    ensures StaleJobOutcome(c, db, item, now, legacy,
                            ProcessingTx(c, db, item.t, item.seen, item.fileSeen, item.outboxSeen, now, legacy).0)
  {
    hide RetryTx, PairTx, FailOnlyTx, CompleteTx, Abandoned, Running, Queued;
    var t, a, f := item.t, item.seen.attemptCount, item.seen.fileId;
    RunningIsNotQueued(db, t, a, now, legacy);
    FailOnlyDecision(db, item, MISSING_FILE_ERROR, now);
    FailOnlyDecision(db, item, STALE_INGESTION_ERROR, now);
    CompleteDecision(db, item, Processing, now);
    if Unfinished(item.fileSeen) {
      ExpiredPairDecision(db, t, f.value, a, now, legacy);
      RetryDecision(db, item, item.fileSeen.value, now, legacy);
    }
  }

  lemma RunningIsNotQueued(db: Db, t: TaskId, a: int, now: Time, legacy: Time)
    ensures !(Running(db, t, a) && Queued(db, t, a)) && (Abandoned(db, t, a, now, legacy) ==> Running(db, t, a))
  {
  }

  lemma FailOnlyDecision(db: Db, item: TaskItem, error: string, now: Time)
    ensures FailOnlyTx(db, item.t, item.seen, error, now).0
            == if Running(db, item.t, item.seen.attemptCount) || Queued(db, item.t, item.seen.attemptCount)
               then JobFailed else Conflict
  {
  }

  lemma CompleteDecision(db: Db, item: TaskItem, status: TaskStatus, now: Time)
    requires status.Active()
    ensures CompleteTx(db, item.t, item.seen, status, now).0
            == if (if status.Pending? then Queued(db, item.t, item.seen.attemptCount)
                   else Running(db, item.t, item.seen.attemptCount))
               then JobCompleted else Conflict
  {
  }

  lemma ExpiredPairDecision(db: Db, t: TaskId, f: FileId, a: int, now: Time, legacy: Time)
    ensures PairTx(db, t, f, FailExpired(a, now, legacy, STALE_INGESTION_ERROR, now), now).0
            == if Abandoned(db, t, a, now, legacy) && FileIn(db, f, {Uploaded, Parsing, Chunking}) then PairFailed else Conflict
  {
  }

  lemma RetryDecision(db: Db, item: TaskItem, fileSeen: FileStatus, now: Time, legacy: Time)
    requires item.seen.fileId.Some?
    ensures
      var t, f, a := item.t, item.seen.fileId.value, item.seen.attemptCount;
      RetryTx(db, t, f, item.seen, fileSeen, item.outboxSeen, now, legacy).0
      == if !(Abandoned(db, t, a, now, legacy) && FileIn(db, f, {fileSeen})) then Conflict
         else match item.outboxSeen
           case None => if t in db.outboxes then Crashed else Retried
           case Some(row) => if EventUnderWay(row) || StillSettled(db, t, row) then Retried else Conflict
  {
  }

  lemma StaleJobRows(c: Config, db: Db, item: TaskItem, now: Time, legacy: Time)
    requires ReadTogether(item)
    ensures
      var (outcome, db') := ProcessingTx(c, db, item.t, item.seen, item.fileSeen, item.outboxSeen, now, legacy);
      Leaves(db, db', item, outcome, STALE_INGESTION_ERROR, now) && LeavesOthers(db, db', item)
  {
    hide RetryTx, PairTx, FailOnlyTx, CompleteTx, Leaves, LeavesOthers;
    var t, seen := item.t, item.seen;
    match item.fileSeen
    case None => FailedRows(db, item, MISSING_FILE_ERROR, STALE_INGESTION_ERROR, now);
    case Some(Ready) => CompletedRows(db, item, Processing, STALE_INGESTION_ERROR, now);
    case Some(FileFailed) => FailedRows(db, item, STALE_INGESTION_ERROR, STALE_INGESTION_ERROR, now);
    case Some(status) =>
      if seen.attemptCount >= c.maxIngestionAttempts {
        var expiry := FailExpired(seen.attemptCount, now, legacy, STALE_INGESTION_ERROR, now);
        ExhaustedRows(db, item, expiry, STALE_INGESTION_ERROR, now);
      } else {
        RetriedRows(db, item, status, now, legacy);
      }
  }

  lemma FailedRows(db: Db, item: TaskItem, error: string, exhausted: string, now: Time)
    requires error == if item.fileSeen == None then MISSING_FILE_ERROR else STALE_INGESTION_ERROR
    ensures var (outcome, db') := FailOnlyTx(db, item.t, item.seen, error, now);
            Leaves(db, db', item, outcome, exhausted, now) && LeavesOthers(db, db', item)
  {
  }

  lemma CompletedRows(db: Db, item: TaskItem, status: TaskStatus, exhausted: string, now: Time)
    ensures var (outcome, db') := CompleteTx(db, item.t, item.seen, status, now);
            Leaves(db, db', item, outcome, exhausted, now) && LeavesOthers(db, db', item)
  {
  }

  lemma ExhaustedRows(db: Db, item: TaskItem, op: TaskOp, exhausted: string, now: Time)
    requires item.seen.fileId.Some? && (op.FailExpired? || op.Fail?) && op.at == now
    requires op.error == exhausted && |exhausted| <= ERROR_LOG_LIMIT
    ensures var (outcome, db') := PairTx(db, item.t, item.seen.fileId.value, op, now);
            Leaves(db, db', item, outcome, exhausted, now) && LeavesOthers(db, db', item)
  {
  }

  lemma RetriedRows(db: Db, item: TaskItem, fileSeen: FileStatus, now: Time, legacy: Time)
    requires item.seen.fileId.Some?
    ensures
      var (outcome, db') := RetryTx(db, item.t, item.seen.fileId.value, item.seen, fileSeen, item.outboxSeen, now, legacy);
      Leaves(db, db', item, outcome, STALE_INGESTION_ERROR, now) && LeavesOthers(db, db', item)
  {
    var t, f := item.t, item.seen.fileId.value;
    var (outcome, db') := RetryTx(db, t, f, item.seen, fileSeen, item.outboxSeen, now, legacy);
    if outcome == Retried {
      var db1 := TaskCas(db, t, ResetExpired(item.seen.attemptCount, now, legacy, STALE_INGESTION_ERROR), now).value;
      var db2 := FileCas(WithoutChunks(db1, f), f, {fileSeen}, Uploaded, now).value;
      PreparedRows(db2, t, item.outboxSeen, now, db');
    }
  }

  lemma PreparedRows(db: Db, t: TaskId, seen: Option<OutboxRow>, now: Time, db': Db)
    requires PrepareOutbox(db, t, seen, now) == Some(db')
    ensures db' == db.(outboxes := db'.outboxes) && forall u: TaskId :: u != t ==> SameEvent(db, db', u)
    ensures if seen.Some? && EventUnderWay(seen.value) then SameEvent(db, db', t) else Announced(At(db'.outboxes, t), 0, now)
  {
  }

  // ----- PENDING jobs without an active event

  predicate GapOutcome(c: Config, db: Db, item: TaskItem, outcome: Outcome) {
    var t, a, f := item.t, item.seen.attemptCount, item.seen.fileId;
    var replayable := item.outboxSeen.Some? && item.outboxSeen.value.status == Published
                      && item.outboxSeen.value.attemptCount < c.maxPublishAttempts;
    && (outcome == OutboxCreated <==> Unfinished(item.fileSeen) && item.outboxSeen == None && t !in db.outboxes)
    && (outcome == Crashed <==> Unfinished(item.fileSeen) && item.outboxSeen == None && t in db.outboxes)
    && (outcome == OutboxReplayed <==> Unfinished(item.fileSeen) && replayable && StillSettled(db, t, item.outboxSeen.value))
    && (outcome == PairFailed <==>
          && Unfinished(item.fileSeen) && item.outboxSeen.Some? && !replayable && Queued(db, t, a)
          && f.Some? && FileIn(db, f.value, {Uploaded, Parsing, Chunking}))
    && (outcome == JobCompleted <==> item.fileSeen == Some(Ready) && Queued(db, t, a))
    && (outcome == JobFailed <==>
          (item.fileSeen == None || item.fileSeen == Some(FileFailed)) && (Running(db, t, a) || Queued(db, t, a)))
    && outcome in {OutboxCreated, Crashed, OutboxReplayed, PairFailed, JobCompleted, JobFailed, Conflict}
  }

  lemma GapVerdict(c: Config, db: Db, item: TaskItem, now: Time)
    requires ReadTogether(item)
    ensures GapOutcome(c, db, item, PendingTx(c, db, item.t, item.seen, item.fileSeen, item.outboxSeen, now).0)
  {
    hide PairTx, FailOnlyTx, CompleteTx, Running, Queued;
    var t, a, f := item.t, item.seen.attemptCount, item.seen.fileId;
    RunningIsNotQueued(db, t, a, now, 0);
    FailOnlyDecision(db, item, MISSING_FILE_ERROR, now);
    FailOnlyDecision(db, item, STALE_INGESTION_ERROR, now);
    CompleteDecision(db, item, Pending, now);
    if Unfinished(item.fileSeen) {
      QueuedPairDecision(db, t, f.value, a, now);
    }
  }

  lemma QueuedPairDecision(db: Db, t: TaskId, f: FileId, a: int, now: Time)
    ensures PairTx(db, t, f, Fail({Pending}, Some(a), DISPATCH_EXHAUSTED_ERROR, now), now).0
            == if Queued(db, t, a) && FileIn(db, f, {Uploaded, Parsing, Chunking}) then PairFailed else Conflict
  {
  }

  lemma GapRows(c: Config, db: Db, item: TaskItem, now: Time)
    requires ReadTogether(item)
    ensures
      var (outcome, db') := PendingTx(c, db, item.t, item.seen, item.fileSeen, item.outboxSeen, now);
      Leaves(db, db', item, outcome, DISPATCH_EXHAUSTED_ERROR, now) && LeavesOthers(db, db', item)
  {
    hide PairTx, FailOnlyTx, CompleteTx, OutboxCas, Leaves, LeavesOthers;
    var t, seen := item.t, item.seen;
    match item.fileSeen
    case None => FailedRows(db, item, MISSING_FILE_ERROR, DISPATCH_EXHAUSTED_ERROR, now);
    case Some(Ready) => CompletedRows(db, item, Pending, DISPATCH_EXHAUSTED_ERROR, now);
    case Some(FileFailed) => FailedRows(db, item, STALE_INGESTION_ERROR, DISPATCH_EXHAUSTED_ERROR, now);
    case Some(_) =>
      RepairedRows(db, item, now);
      var failure := Fail({Pending}, Some(seen.attemptCount), DISPATCH_EXHAUSTED_ERROR, now);
      ExhaustedRows(db, item, failure, DISPATCH_EXHAUSTED_ERROR, now);
  }

  lemma RepairedRows(db: Db, item: TaskItem, now: Time)
    ensures LeavesOthers(db, db, item)
    ensures Leaves(db, db, item, Conflict, DISPATCH_EXHAUSTED_ERROR, now)
    ensures Leaves(db, db, item, Crashed, DISPATCH_EXHAUSTED_ERROR, now)
    ensures
      var created := db.(outboxes := db.outboxes[item.t := NewEvent(now)]);
      Leaves(db, created, item, OutboxCreated, DISPATCH_EXHAUSTED_ERROR, now) && LeavesOthers(db, created, item)
    ensures item.outboxSeen.Some? && item.outboxSeen.value.status.Published? ==>
              var replayed := OutboxCas(db, item.t, ReopenEvent(Published, item.outboxSeen.value.attemptCount, now, false));
              replayed.Some? ==>
                && Leaves(db, replayed.value, item, OutboxReplayed, DISPATCH_EXHAUSTED_ERROR, now)
                && LeavesOthers(db, replayed.value, item)
  {
  }

  // ----- files without a job

  ghost predicate NoActiveJob(db: Db, f: FileId) {
    forall t: TaskId :: t in db.tasks && db.tasks[t].fileId == Some(f) ==>
                          db.tasks[t].status != Pending && db.tasks[t].status != Processing
  }

  predicate OrphanOutcome(db: Db, item: OrphanItem, outcome: Outcome, free: bool) {
    && (outcome == OrphanFailed <==> item.owner == None && FileIn(db, item.f, {Uploaded}))
    && (outcome == JobCreated <==>
          && item.owner != None && item.f in db.files && free
          && item.newTask !in db.tasks && item.newTask !in db.outboxes)
    && outcome in {OrphanFailed, JobCreated, Conflict}
  }

  predicate OrphanLeaves(db: Db, db': Db, item: OrphanItem, outcome: Outcome, now: Time) {
    match outcome
    case OrphanFailed =>
      && item.f in db.files && At(db'.files, item.f) == Some(FileRow(FileFailed, db.files[item.f].owner, now))
      && SameTask(db, db', item.newTask) && SameEvent(db, db', item.newTask)
    case JobCreated =>
      && At(db'.tasks, item.newTask) == Some(TaskRow(Some(item.f), Pending, 0, 0, None, None, None, None, None, now))
      && Announced(At(db'.outboxes, item.newTask), 0, now) && At(db'.files, item.f) == At(db.files, item.f)
    case _ =>
      && SameTask(db, db', item.newTask) && SameEvent(db, db', item.newTask)
      && At(db'.files, item.f) == At(db.files, item.f)
  }

  // Nothing else changes, and a job that appears is one on the item's file.
  ghost predicate OrphanLeavesOthers(db: Db, db': Db, item: OrphanItem) {
    && (forall u: TaskId :: u != item.newTask ==> SameTask(db, db', u) && SameEvent(db, db', u))
    && (forall g: FileId :: g != item.f ==> At(db'.files, g) == At(db.files, g))
    && db'.chunks == db.chunks
    && (SameTask(db, db', item.newTask)
        || (item.newTask !in db.tasks && item.newTask in db'.tasks && db'.tasks[item.newTask].fileId == Some(item.f)))
  }

  lemma OrphanVerdict(db: Db, item: OrphanItem, now: Time)
    ensures
      var (outcome, db') := OrphanTx(db, item.newTask, item.f, item.owner, now);
      && OrphanOutcome(db, item, outcome, NoActiveJob(db, item.f))
      && OrphanLeaves(db, db', item, outcome, now) && OrphanLeavesOthers(db, db', item)
  {
    assert Occupied(db.tasks, item.f) <==> !NoActiveJob(db, item.f);
  }
}
