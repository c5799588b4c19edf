/**
  The ingestion protocol: every committed transaction of the upload, the workers, the relay, the reconciler and
  the manual replay, as one atomic step over the job, event, file and chunk tables.

  `Commit` gives the state after a step that commits; a step that finds a lost CAS, a taken unique index or a
  program point its worker has not reached does not commit. Rows that a transaction read earlier, outside its
  own locks, are parameters of its step and may be out of date.
  */
module IngestionProtocol {
  import opened Wrappers
  import opened TaskRepo
  import opened TaskOutboxRepo
  import opened KnowledgeRepo

  datatype Config = Config(maxIngestionAttempts: nat, maxPublishAttempts: nat)

  datatype Db = Db(
    tasks: map<TaskId, TaskRow>,
    outboxes: map<TaskId, OutboxRow>,
    files: map<FileId, FileRow>,
    chunks: map<FileId, nat>)

  // How far the worker that holds a job's current attempt has come.
  datatype Phase = Claimed | Parsed | Indexed | CleanedUp

  datatype System = System(db: Db, phases: map<TaskId, Phase>)

  const UNFINISHED_FILE: set<FileStatus> := {Uploaded, Parsing, Chunking}

  datatype Step =
    | Upload(t: TaskId, f: FileId, owner: Option<nat>, now: Time)
    | DeleteFile(f: FileId)
    | WorkerClaim(t: TaskId, f: FileId, now: Time, lease: Time)
    | WorkerHeartbeat(t: TaskId, attempt: int, now: Time, lease: Time)
    | WorkerParse(t: TaskId, attempt: int, now: Time, lease: Time)
    | WorkerIndex(t: TaskId, attempt: int, now: Time, lease: Time, chunkCount: nat)
    | WorkerCleanup(t: TaskId, attempt: int, now: Time, lease: Time)
    | WorkerComplete(t: TaskId, attempt: int, now: Time)
    | WorkerFail(t: TaskId, attempt: int, now: Time, error: string)
    | Relay(t: TaskId, op: OutboxOp)
    | ManualReplay(t: TaskId, publishAttempt: int, now: Time)
    | Reset(t: TaskId, attempt: int, fileSeen: FileStatus, outboxSeen: Option<OutboxRow>, now: Time, legacy: Time, error: string)
    | FailExpiredPair(t: TaskId, attempt: int, now: Time, legacy: Time, error: string)
    | CompleteReady(t: TaskId, taskStatus: TaskStatus, attempt: int, now: Time)
    | FailTaskOnly(t: TaskId, attempt: int, now: Time, error: string)
    | GapCreate(t: TaskId, now: Time)
    | GapReplay(t: TaskId, publishAttempt: int, now: Time)
    | GapFail(t: TaskId, attempt: int, now: Time, error: string)
    | OrphanFail(f: FileId, now: Time)
    | OrphanCreate(t: TaskId, f: FileId, now: Time)

  // ----- single statements lifted to the database

  function TaskCas(db: Db, t: TaskId, op: TaskOp, clock: Time): Option<Db> {
    if Hits(db.tasks, t, op) then Some(db.(tasks := Updated(db.tasks, t, op, clock))) else None
  }

  function OutboxCas(db: Db, t: TaskId, op: OutboxOp): Option<Db> {
    if OutboxHits(db.outboxes, t, op) then Some(db.(outboxes := OutboxUpdated(db.outboxes, t, op))) else None
  }

  function FileCas(db: Db, f: FileId, expected: set<FileStatus>, target: FileStatus, clock: Time): Option<Db> {
    if FileHits(db.files, f, expected) then Some(db.(files := FileMoved(db.files, f, expected, target, clock))) else None
  }

  function WithoutChunks(db: Db, f: FileId): Db {
    db.(chunks := db.chunks - {f})
  }

  // The file a job points at, if the row is still there.
  function FileOf(db: Db, t: TaskId): Option<FileId> {
    if t in db.tasks && db.tasks[t].fileId.Some? && db.tasks[t].fileId.value in db.files then db.tasks[t].fileId else None
  }

  // ----- multi-row transactions

  // `_prepare_task_outbox` after its read returned `seen`: create, reopen with a fresh budget, or leave alone.
  function PrepareOutbox(db: Db, t: TaskId, seen: Option<OutboxRow>, now: Time): Option<Db> {
    match seen
    case None => if t in db.outboxes then None else Some(db.(outboxes := db.outboxes[t := NewEvent(now)]))
    case Some(row) =>
      if row.status.Active() then Some(db)
      else OutboxCas(db, t, ReopenEvent(row.status, row.attemptCount, now, true))
  }

  function ResetTx(db: Db, t: TaskId, f: FileId, attempt: int, fileSeen: FileStatus, outboxSeen: Option<OutboxRow>,
                   now: Time, legacy: Time, error: string): Option<Db> {
    match TaskCas(db, t, ResetExpired(attempt, now, legacy, error), now)
    case None => None
    case Some(db1) =>
      match FileCas(WithoutChunks(db1, f), f, {fileSeen}, Uploaded, now)
      case None => None
      case Some(db2) => PrepareOutbox(db2, t, outboxSeen, now)
  }

  function FailPairTx(db: Db, t: TaskId, f: FileId, op: TaskOp, now: Time): Option<Db> {
    match TaskCas(db, t, op, now)
    case None => None
    case Some(db1) => FileCas(WithoutChunks(db1, f), f, UNFINISHED_FILE, FileFailed, now)
  }

  function CreateJobTx(db: Db, t: TaskId, f: FileId, now: Time): Option<Db> {
    if t in db.tasks || t in db.outboxes || f !in db.files || Occupied(db.tasks, f) then None
    else Some(db.(tasks := db.tasks[t := NewTask(f, now)], outboxes := db.outboxes[t := NewEvent(now)]))
  }

  function ManualReplayTx(db: Db, t: TaskId, publishAttempt: int, now: Time): Option<Db> {
    match FileOf(db, t)
    case None => None
    case Some(f) =>
      var ready :=
        if db.tasks[t].status.Failed? then
          if Occupied(db.tasks, f) then None
          else match TaskCas(db, t, PrepareReplay(db.tasks[t].attemptCount), now)
            case None => None
            case Some(db1) => FileCas(WithoutChunks(db1, f), f, {FileFailed}, Uploaded, now)
        else if db.tasks[t].status.Pending? && db.files[f].status.Uploaded? then Some(db)
        else None;
      match ready
      case None => None
      case Some(db2) => OutboxCas(db2, t, ReopenEvent(Dead, publishAttempt, now, true))
  }

  // ----- worker transactions: each one first renews its lease

  function Renewed(s: System, t: TaskId, attempt: int, now: Time, lease: Time): Option<Db> {
    TaskCas(s.db, t, Heartbeat(attempt, now, lease), now)
  }

  function ParseTx(s: System, t: TaskId, attempt: int, now: Time, lease: Time): Option<System> {
    match Renewed(s, t, attempt, now, lease)
    case None => None
    case Some(db1) =>
      if !(t in s.phases && s.phases[t].Claimed? && FileOf(s.db, t).Some?) then None
      else match FileCas(db1, FileOf(s.db, t).value, {Uploaded}, Parsing, now)
        case None => None
        case Some(db2) => Some(System(db2, s.phases[t := Parsed]))
  }

  // PARSING -> CHUNKING, replace the chunks, CHUNKING -> READY: one transaction, so CHUNKING is never committed.
  function IndexTx(s: System, t: TaskId, attempt: int, now: Time, lease: Time, chunkCount: nat): Option<System> {
    match Renewed(s, t, attempt, now, lease)
    case None => None
    case Some(db1) =>
      if !(t in s.phases && s.phases[t].Parsed? && FileOf(s.db, t).Some? && chunkCount > 0) then None
      else
        var f := FileOf(s.db, t).value;
        match FileCas(db1, f, {Parsing}, Chunking, now)
        case None => None
        case Some(db2) =>
          match FileCas(db2.(chunks := db2.chunks[f := chunkCount]), f, {Chunking}, Ready, now)
          case None => None
          case Some(db3) => Some(System(db3, s.phases[t := Indexed]))
  }

  // The cleanup commits even when the file has already failed or is gone.
  function CleanupTx(s: System, t: TaskId, attempt: int, now: Time, lease: Time): Option<System> {
    match Renewed(s, t, attempt, now, lease)
    case None => None
    case Some(db1) =>
      if !(t in s.phases && (s.phases[t].Parsed? || s.phases[t].Indexed?)) then None
      else
        var db2 := if FileOf(s.db, t).None? then db1
                   else WithoutChunks(db1, FileOf(s.db, t).value).(
                     files := FileMoved(db1.files, FileOf(s.db, t).value, UNFINISHED_FILE + {Ready}, FileFailed, now));
        Some(System(db2, s.phases[t := CleanedUp]))
  }

  // ----- the step relation

  function Commit(c: Config, s: System, step: Step): Option<System> {
    match step
    case Upload(t, f, owner, now) =>
      if f in s.db.files || f in s.db.chunks then None
      else Lift(s, CreateJobTx(s.db.(files := s.db.files[f := FileRow(Uploaded, owner, now)]), t, f, now))
    case DeleteFile(f) =>
      Some(s.(db := s.db.(files := s.db.files - {f}, chunks := s.db.chunks - {f}, tasks := Detached(s.db.tasks, f))))
    case WorkerClaim(t, f, now, lease) =>
      (match TaskCas(s.db, t, Claim(f, now, lease), now)
       case None => None
       case Some(db1) => Some(System(db1, s.phases[t := Claimed])))
    case WorkerHeartbeat(t, a, now, lease) => Lift(s, Renewed(s, t, a, now, lease))
    case WorkerParse(t, a, now, lease) => ParseTx(s, t, a, now, lease)
    case WorkerIndex(t, a, now, lease, n) => IndexTx(s, t, a, now, lease, n)
    case WorkerCleanup(t, a, now, lease) => CleanupTx(s, t, a, now, lease)
    case WorkerComplete(t, a, now) =>
      if t in s.phases && s.phases[t].Indexed? then Lift(s, TaskCas(s.db, t, Complete(a, now), now)) else None
    case WorkerFail(t, a, now, error) => Lift(s, TaskCas(s.db, t, Fail({Processing}, Some(a), error, now), now))
    case Relay(t, op) =>
      if op.ReopenEvent? || (op.ClaimEvent? && op.maxAttempts != c.maxPublishAttempts) then None
      else Lift(s, OutboxCas(s.db, t, op))
    case ManualReplay(t, a, now) => Lift(s, ManualReplayTx(s.db, t, a, now))
    case Reset(t, a, fileSeen, outboxSeen, now, legacy, error) =>
      if FileOf(s.db, t).None? || a >= c.maxIngestionAttempts || fileSeen !in UNFINISHED_FILE then None
      else Lift(s, ResetTx(s.db, t, FileOf(s.db, t).value, a, fileSeen, outboxSeen, now, legacy, error))
    case FailExpiredPair(t, a, now, legacy, error) =>
      if FileOf(s.db, t).None? then None
      else Lift(s, FailPairTx(s.db, t, FileOf(s.db, t).value, FailExpired(a, now, legacy, error, now), now))
    case CompleteReady(t, st, a, now) => Lift(s, TaskCas(s.db, t, ReconcileCompleted(st, a, now), now))
    case FailTaskOnly(t, a, now, error) => Lift(s, TaskCas(s.db, t, Fail({Pending, Processing}, Some(a), error, now), now))
    case GapCreate(t, now) => if t in s.db.tasks then Lift(s, PrepareOutbox(s.db, t, None, now)) else None
    case GapReplay(t, a, now) =>
      if a < c.maxPublishAttempts then Lift(s, OutboxCas(s.db, t, ReopenEvent(Published, a, now, false))) else None
    case GapFail(t, a, now, error) =>
      if FileOf(s.db, t).None? then None
      else Lift(s, FailPairTx(s.db, t, FileOf(s.db, t).value, Fail({Pending}, Some(a), error, now), now))
    case OrphanFail(f, now) => Lift(s, FileCas(s.db, f, {Uploaded}, FileFailed, now))
    case OrphanCreate(t, f, now) => Lift(s, CreateJobTx(s.db, t, f, now))
  }

  function Lift(s: System, db: Option<Db>): Option<System> {
    if db.Some? then Some(s.(db := db.value)) else None
  }

  // ON DELETE SET NULL of task_jobs.knowledge_file_id
  function Detached(tasks: map<TaskId, TaskRow>, f: FileId): map<TaskId, TaskRow> {
    map t | t in tasks :: if tasks[t].fileId == Some(f) then tasks[t].(fileId := None) else tasks[t]
  }

  // ----- what every step keeps

  // Field shapes, publish budget and references of one job.
  ghost predicate JobOk(c: Config, s: System, t: TaskId) {
    && (t in s.db.tasks ==> TaskShape(s.db.tasks[t]))
    && (t in s.db.tasks && s.db.tasks[t].fileId.Some? ==> s.db.tasks[t].fileId.value in s.db.files)
    && (t in s.db.outboxes ==>
          && t in s.db.tasks && OutboxShape(s.db.outboxes[t])
          && s.db.outboxes[t].attemptCount <= c.maxPublishAttempts)
  }

  // A file has searchable chunks exactly when it is READY.
  ghost predicate FileOk(s: System, f: FileId) {
    && (f in s.db.chunks ==> f in s.db.files && s.db.chunks[f] > 0)
    && (f in s.db.files ==> (s.db.files[f].status.Ready? <==> f in s.db.chunks) && !s.db.files[f].status.Chunking?)
  }

  ghost predicate ReadyIn(s: System, f: FileId) {
    f in s.db.files && s.db.files[f].status.Ready?
  }

  // A worker that has indexed its file and still holds the job finds the file READY.
  ghost predicate WorkerOk(s: System, t: TaskId) {
    t in s.db.tasks && s.db.tasks[t].status.Processing? ==>
      && t in s.phases
      && (s.phases[t].Indexed? && s.db.tasks[t].fileId.Some? ==> ReadyIn(s, s.db.tasks[t].fileId.value))
  }

  ghost predicate ActiveOn(s: System, t: TaskId, f: FileId) {
    t in s.db.tasks && s.db.tasks[t].status.Active() && s.db.tasks[t].fileId == Some(f)
  }

  ghost predicate OneActiveJobPerFile(s: System) {
    forall t: TaskId, u: TaskId, f: FileId | ActiveOn(s, t, f) && ActiveOn(s, u, f) :: t == u
  }

  ghost predicate Inv(c: Config, s: System) {
    && (forall t :: JobOk(c, s, t))
    && (forall f :: FileOk(s, f))
    && (forall t :: WorkerOk(s, t))
    && OneActiveJobPerFile(s)
  }

  ghost predicate FinishedOn(s: System, t: TaskId, f: FileId) {
    t in s.db.tasks && s.db.tasks[t].status.Completed? && s.db.tasks[t].fileId == Some(f)
  }

  // The worker of the current attempt has got past its claim.
  ghost predicate UnderWay(s: System, t: TaskId) {
    t in s.db.tasks && s.db.tasks[t].status.Processing? && t in s.phases && !s.phases[t].Claimed?
  }

  // Every finished job's file, if it was not deleted, is READY, and no worker under way shares it.
  ghost predicate FinishedMeansReady(s: System) {
    forall t: TaskId, f: FileId | FinishedOn(s, t, f) ::
      ReadyIn(s, f) && forall u: TaskId :: UnderWay(s, u) ==> s.db.tasks[u].fileId != Some(f)
  }

  lemma EmptySystemIsFine(c: Config)
    ensures Inv(c, System(Db(map[], map[], map[], map[]), map[]))
    ensures FinishedMeansReady(System(Db(map[], map[], map[], map[]), map[]))
  {
  }

  // ----- the footprint of a step, and what it must respect there

  // Only the job `t` and the file `f` change, and a job keeps its file.
  ghost predicate Footprint(s: System, s': System, t: Option<TaskId>, f: Option<FileId>) {
    && s.db.tasks.Keys <= s'.db.tasks.Keys && s.db.files.Keys <= s'.db.files.Keys
    && (forall u :: u in s'.db.tasks && Some(u) != t ==> u in s.db.tasks && s'.db.tasks[u] == s.db.tasks[u])
    && (forall u :: u in s'.db.outboxes && Some(u) != t ==> u in s.db.outboxes && s'.db.outboxes[u] == s.db.outboxes[u])
    && (forall g :: g in s'.db.files && Some(g) != f ==> g in s.db.files && s'.db.files[g] == s.db.files[g])
    && (forall g :: g in s'.db.chunks && Some(g) != f ==> g in s.db.chunks && s'.db.chunks[g] == s.db.chunks[g])
    && (forall g :: g in s.db.chunks && Some(g) != f ==> g in s'.db.chunks)
    && (forall u :: u in s.phases && Some(u) != t ==> u in s'.phases && s'.phases[u] == s.phases[u])
    && (t.Some? && t.value in s.db.tasks ==> s'.db.tasks[t.value].fileId == s.db.tasks[t.value].fileId)
  }

  // A job becomes active only when it was, or when no active job holds its file.
  ghost predicate LocalActive(s: System, s': System, t: TaskId) {
    t in s'.db.tasks && s'.db.tasks[t].status.Active() && s'.db.tasks[t].fileId.Some? ==>
      || (t in s.db.tasks && s.db.tasks[t].status.Active())
      || !Occupied(s.db.tasks, s'.db.tasks[t].fileId.value)
  }

  // A file leaves READY only through a worker under way on it.
  ghost predicate LocalReady(s: System, s': System, t: Option<TaskId>, f: FileId) {
    ReadyIn(s, f) && !ReadyIn(s', f) ==> t.Some? && UnderWay(s, t.value) && s.db.tasks[t.value].fileId == Some(f)
  }

  // A worker gets under way only on a file that is not READY.
  ghost predicate LocalPhase(s: System, s': System, t: TaskId) {
    && WorkerOk(s', t)
    && (UnderWay(s', t) && s'.db.tasks[t].fileId.Some? ==> UnderWay(s, t) || !ReadyIn(s, s'.db.tasks[t].fileId.value))
  }

  ghost predicate Respects(c: Config, s: System, s': System, t: Option<TaskId>, f: Option<FileId>) {
    && Footprint(s, s', t, f)
    && (t.Some? ==> JobOk(c, s', t.value) && LocalActive(s, s', t.value) && LocalPhase(s, s', t.value))
    && (f.Some? ==> FileOk(s', f.value) && LocalReady(s, s', t, f.value))
  }

  lemma ParseRespects(c: Config, s: System, t: TaskId, a: int, now: Time, lease: Time, s': System)
    requires JobOk(c, s, t) && WorkerOk(s, t) && ParseTx(s, t, a, now, lease) == Some(s')
    requires FileOf(s.db, t).Some? ==> FileOk(s, FileOf(s.db, t).value)
    ensures Respects(c, s, s', Some(t), FileOf(s.db, t))
  {
  }

  lemma IndexRespects(c: Config, s: System, t: TaskId, a: int, now: Time, lease: Time, n: nat, s': System)
    requires JobOk(c, s, t) && WorkerOk(s, t) && IndexTx(s, t, a, now, lease, n) == Some(s')
    requires FileOf(s.db, t).Some? ==> FileOk(s, FileOf(s.db, t).value)
    ensures Respects(c, s, s', Some(t), FileOf(s.db, t))
  {
  }

  lemma CleanupRespects(c: Config, s: System, t: TaskId, a: int, now: Time, lease: Time, s': System)
    requires JobOk(c, s, t) && WorkerOk(s, t) && CleanupTx(s, t, a, now, lease) == Some(s')
    requires FileOf(s.db, t).Some? ==> FileOk(s, FileOf(s.db, t).value)
    ensures Respects(c, s, s', Some(t), FileOf(s.db, t))
  {
  }

  // A transaction that writes no more than one task row, its event, one file row and that file's chunks.
  ghost predicate Writes(db: Db, db': Db, t: TaskId, f: FileId) {
    && t in db.tasks && t in db'.tasks && db'.tasks == db.tasks[t := db'.tasks[t]]
    && db'.tasks[t].fileId == db.tasks[t].fileId
    && (db'.outboxes == db.outboxes || (t in db'.outboxes && db'.outboxes == db.outboxes[t := db'.outboxes[t]]))
    && f in db.files && f in db'.files && db'.files == db.files[f := db'.files[f]]
    && (db'.chunks == db.chunks || db'.chunks == db.chunks - {f})
  }

  lemma WritesAreAFootprint(s: System, db: Db, t: TaskId, f: FileId)
    requires Writes(s.db, db, t, f)
    ensures Footprint(s, s.(db := db), Some(t), Some(f))
  {
  }

  lemma ReplayWrites(db: Db, t: TaskId, a: int, now: Time, db': Db)
    requires ManualReplayTx(db, t, a, now) == Some(db')
    ensures FileOf(db, t).Some? && Writes(db, db', t, FileOf(db, t).value)
    ensures db'.tasks[t] == db.tasks[t] || (db'.tasks[t] == PrepareReplay(db.tasks[t].attemptCount).After(db.tasks[t], now)
                                             && !Occupied(db.tasks, FileOf(db, t).value))
    ensures t in db.outboxes && db'.outboxes == db.outboxes[t := ReopenEvent(Dead, a, now, true).After(db.outboxes[t])]
    ensures db'.files[FileOf(db, t).value].status.Uploaded?
    ensures db'.chunks == db.chunks ==> db'.files == db.files || FileOf(db, t).value !in db.chunks
    ensures db'.tasks[t].status.Pending? && (db'.tasks != db.tasks ==> db.tasks[t].status.Failed?)
    ensures db.files[FileOf(db, t).value].status.Uploaded? || db.files[FileOf(db, t).value].status.FileFailed?
  {
  }

  lemma ReplayRespects(c: Config, s: System, t: TaskId, a: int, now: Time, db: Db)
    requires JobOk(c, s, t) && WorkerOk(s, t) && ManualReplayTx(s.db, t, a, now) == Some(db)
    requires FileOf(s.db, t).Some? ==> FileOk(s, FileOf(s.db, t).value)
    ensures Respects(c, s, s.(db := db), Some(t), FileOf(s.db, t))
  {
    ReplayWrites(s.db, t, a, now, db);
    WritesAreAFootprint(s, db, t, FileOf(s.db, t).value);
    hide Footprint, ManualReplayTx;
  }

  lemma ResetWrites(db: Db, t: TaskId, f: FileId, a: int, fileSeen: FileStatus, seen: Option<OutboxRow>,
                    now: Time, legacy: Time, error: string, db': Db)
    requires FileOf(db, t) == Some(f) && ResetTx(db, t, f, a, fileSeen, seen, now, legacy, error) == Some(db')
    ensures Writes(db, db', t, f)
    ensures ResetExpired(a, now, legacy, error).Admits(db.tasks[t])
    ensures db'.tasks[t] == ResetExpired(a, now, legacy, error).After(db.tasks[t], now)
    ensures db.files[f].status == fileSeen && db'.files[f].status.Uploaded? && db'.chunks == db.chunks - {f}
    ensures || (t !in db.outboxes && db'.outboxes == db.outboxes[t := NewEvent(now)])
            || db'.outboxes == db.outboxes
            || (t in db.outboxes && seen.Some?
                && var reopen := ReopenEvent(seen.value.status, seen.value.attemptCount, now, true);
                   reopen.Admits(db.outboxes[t]) && db'.outboxes[t] == reopen.After(db.outboxes[t]))
  {
    var db1 := TaskCas(db, t, ResetExpired(a, now, legacy, error), now).value;
    var db2 := FileCas(WithoutChunks(db1, f), f, {fileSeen}, Uploaded, now).value;
    assert db2.outboxes == db.outboxes && db'.tasks == db2.tasks && db'.files == db2.files && db'.chunks == db2.chunks;
  }

  lemma ResetRespects(c: Config, s: System, t: TaskId, f: FileId, a: int, fileSeen: FileStatus,
                      outboxSeen: Option<OutboxRow>, now: Time, legacy: Time, error: string, db: Db)
    requires JobOk(c, s, t) && WorkerOk(s, t) && FileOf(s.db, t) == Some(f) && fileSeen in UNFINISHED_FILE
    requires ResetTx(s.db, t, f, a, fileSeen, outboxSeen, now, legacy, error) == Some(db)
    requires FileOk(s, f)
    ensures Respects(c, s, s.(db := db), Some(t), Some(f))
  {
    ResetWrites(s.db, t, f, a, fileSeen, outboxSeen, now, legacy, error, db);
    WritesAreAFootprint(s, db, t, f);
    hide Footprint, ResetTx;
  }

  lemma FailPairRespects(c: Config, s: System, t: TaskId, f: FileId, op: TaskOp, now: Time, db: Db)
    requires JobOk(c, s, t) && WorkerOk(s, t) && FileOf(s.db, t) == Some(f)
    requires op.FailExpired? || (op.Fail? && op.expectedStatuses <= {Pending, Processing})
    requires FailPairTx(s.db, t, f, op, now) == Some(db)
    requires FileOk(s, f)
    ensures Respects(c, s, s.(db := db), Some(t), Some(f))
  {
  }

  lemma CreateRespects(c: Config, s: System, t: TaskId, f: FileId, now: Time, db: Db)
    requires JobOk(c, s, t) && WorkerOk(s, t) && CreateJobTx(s.db, t, f, now) == Some(db)
    requires FileOk(s, f)
    ensures Respects(c, s, s.(db := db), Some(t), None)
  {
  }

  // One statement on the job's own row that neither claims it nor reopens it.
  lemma TaskCasRespects(c: Config, s: System, t: TaskId, op: TaskOp, now: Time, db: Db)
    requires JobOk(c, s, t) && WorkerOk(s, t) && TaskCas(s.db, t, op, now) == Some(db)
    requires op.Heartbeat? || op.Complete? || op.ReconcileCompleted? || (op.Fail? && op.expectedStatuses <= {Pending, Processing})
    ensures Respects(c, s, s.(db := db), Some(t), None)
  {
  }

  lemma ClaimRespects(c: Config, s: System, t: TaskId, op: TaskOp, now: Time, db: Db)
    requires JobOk(c, s, t) && WorkerOk(s, t) && op.Claim? && TaskCas(s.db, t, op, now) == Some(db)
    ensures Respects(c, s, System(db, s.phases[t := Claimed]), Some(t), None)
  {
  }

  lemma OutboxRespects(c: Config, s: System, t: TaskId, op: OutboxOp, db: Db)
    requires JobOk(c, s, t) && WorkerOk(s, t) && OutboxCas(s.db, t, op) == Some(db)
    requires op.ClaimEvent? ==> op.maxAttempts == c.maxPublishAttempts
    ensures Respects(c, s, s.(db := db), Some(t), None)
  {
  }

  lemma AdoptFile(c: Config, s: System, f: FileId, row: FileRow, s0: System)
    requires Inv(c, s) && f !in s.db.files && f !in s.db.chunks && row.status.Uploaded?
    requires s0 == s.(db := s.db.(files := s.db.files[f := row]))
    ensures Inv(c, s0) && (FinishedMeansReady(s) ==> FinishedMeansReady(s0))
  {
    forall t ensures JobOk(c, s0, t) && WorkerOk(s0, t) {
      assert JobOk(c, s, t) && WorkerOk(s, t);
    }
    forall g ensures FileOk(s0, g) {
      assert FileOk(s, g);
    }
    forall t: TaskId, u: TaskId, g: FileId | ActiveOn(s0, t, g) && ActiveOn(s0, u, g) ensures t == u {
      assert ActiveOn(s, t, g) && ActiveOn(s, u, g);
    }
    if FinishedMeansReady(s) {
      forall t: TaskId, g: FileId | FinishedOn(s0, t, g)
        ensures ReadyIn(s0, g) && forall u: TaskId :: UnderWay(s0, u) ==> s0.db.tasks[u].fileId != Some(g)
      {
        assert FinishedOn(s, t, g) && JobOk(c, s, t);
        forall u: TaskId | UnderWay(s0, u) ensures s0.db.tasks[u].fileId != Some(g) {
          assert UnderWay(s, u);
        }
      }
    }
  }

  lemma DeletionKeeps(c: Config, s: System, f: FileId, s': System)
    requires Inv(c, s) && Commit(c, s, DeleteFile(f)) == Some(s')
    ensures Inv(c, s') && (FinishedMeansReady(s) ==> FinishedMeansReady(s'))
  {
    forall t ensures JobOk(c, s', t) && WorkerOk(s', t) {
      assert JobOk(c, s, t) && WorkerOk(s, t);
    }
    forall g ensures FileOk(s', g) {
      assert FileOk(s, g);
    }
    forall t: TaskId, u: TaskId, g: FileId | ActiveOn(s', t, g) && ActiveOn(s', u, g) ensures t == u {
      assert ActiveOn(s, t, g) && ActiveOn(s, u, g);
    }
    if FinishedMeansReady(s) {
      forall t: TaskId, g: FileId | FinishedOn(s', t, g)
        ensures ReadyIn(s', g) && forall u: TaskId :: UnderWay(s', u) ==> s'.db.tasks[u].fileId != Some(g)
      {
        assert FinishedOn(s, t, g);
        forall u: TaskId | UnderWay(s', u) ensures s'.db.tasks[u].fileId != Some(g) {
          assert UnderWay(s, u);
        }
      }
    }
  }

  function TaskOf(step: Step): Option<TaskId> {
    if step.DeleteFile? || step.OrphanFail? then None else Some(step.t)
  }

  lemma RespectfulStepKeeps(c: Config, s: System, s': System, t: Option<TaskId>, f: Option<FileId>)
    requires Inv(c, s) && Respects(c, s, s', t, f)
    ensures Inv(c, s')
  {
    forall u ensures JobOk(c, s', u) {
      assert JobOk(c, s, u);
    }
    forall g ensures FileOk(s', g) {
      assert FileOk(s, g);
    }
    forall u ensures WorkerOk(s', u) {
      if Some(u) != t && u in s'.db.tasks && s'.db.tasks[u].status.Processing? {
        assert WorkerOk(s, u) && JobOk(c, s, u);
        if s'.db.tasks[u].fileId.Some? && f == s'.db.tasks[u].fileId && s'.phases[u].Indexed? && !ReadyIn(s', f.value) {
          assert ActiveOn(s, u, f.value) && ActiveOn(s, t.value, f.value);
          assert false;
        }
      }
    }
    forall u: TaskId, v: TaskId, g: FileId | ActiveOn(s', u, g) && ActiveOn(s', v, g) ensures u == v {
      if u != v {
        OldHolder(c, s, s', t, f, u, v, g);
        OldHolder(c, s, s', t, f, v, u, g);
      }
    }
  }

  // Of two jobs active on a file after the step, each was active on it before it.
  lemma OldHolder(c: Config, s: System, s': System, t: Option<TaskId>, f: Option<FileId>, u: TaskId, v: TaskId, g: FileId)
    requires Respects(c, s, s', t, f) && ActiveOn(s', u, g) && ActiveOn(s', v, g) && u != v
    ensures ActiveOn(s, u, g)
  {
    if Some(u) == t {
      assert ActiveOn(s, v, g);
    }
  }

  lemma GapCreateRespects(c: Config, s: System, t: TaskId, now: Time, s': System)
    requires JobOk(c, s, t) && WorkerOk(s, t) && Commit(c, s, GapCreate(t, now)) == Some(s')
    ensures Respects(c, s, s', Some(t), None)
  {
  }

  lemma OrphanFailRespects(c: Config, s: System, f: FileId, now: Time, s': System)
    requires FileOk(s, f) && Commit(c, s, OrphanFail(f, now)) == Some(s')
    ensures Respects(c, s, s', None, Some(f))
  {
  }

  lemma CommitRespects(c: Config, s: System, step: Step, s': System) returns (f: Option<FileId>)
    requires Inv(c, s) && Commit(c, s, step) == Some(s') && !step.Upload? && !step.DeleteFile?
    ensures Respects(c, s, s', TaskOf(step), f)
  {
    hide Respects, JobOk, WorkerOk, FileOk, TaskCas, OutboxCas, ParseTx, IndexTx, CleanupTx, ResetTx, FailPairTx,
      ManualReplayTx, CreateJobTx;
    f := None;
    if !step.OrphanFail? {
      assert JobOk(c, s, step.t) && WorkerOk(s, step.t);
      if FileOf(s.db, step.t).Some? {
        assert FileOk(s, FileOf(s.db, step.t).value);
      }
    }
    var db := s'.db;
    match step
    case WorkerClaim(t, g, now, lease) => ClaimRespects(c, s, t, Claim(g, now, lease), now, db);
    case WorkerHeartbeat(t, a, now, lease) => TaskCasRespects(c, s, t, Heartbeat(a, now, lease), now, db);
    case WorkerParse(t, a, now, lease) => f := FileOf(s.db, t); ParseRespects(c, s, t, a, now, lease, s');
    case WorkerIndex(t, a, now, lease, n) => f := FileOf(s.db, t); IndexRespects(c, s, t, a, now, lease, n, s');
    case WorkerCleanup(t, a, now, lease) => f := FileOf(s.db, t); CleanupRespects(c, s, t, a, now, lease, s');
    case WorkerComplete(t, a, now) => TaskCasRespects(c, s, t, Complete(a, now), now, db);
    case WorkerFail(t, a, now, error) => TaskCasRespects(c, s, t, Fail({Processing}, Some(a), error, now), now, db);
    case Relay(t, op) => OutboxRespects(c, s, t, op, db);
    case ManualReplay(t, a, now) => f := FileOf(s.db, t); ReplayRespects(c, s, t, a, now, db);
    case Reset(t, a, fileSeen, seen, now, legacy, error) =>
      f := FileOf(s.db, t); ResetRespects(c, s, t, FileOf(s.db, t).value, a, fileSeen, seen, now, legacy, error, db);
    case FailExpiredPair(t, a, now, legacy, error) =>
      f := FileOf(s.db, t); FailPairRespects(c, s, t, FileOf(s.db, t).value, FailExpired(a, now, legacy, error, now), now, db);
    case CompleteReady(t, st, a, now) => TaskCasRespects(c, s, t, ReconcileCompleted(st, a, now), now, db);
    case FailTaskOnly(t, a, now, error) => TaskCasRespects(c, s, t, Fail({Pending, Processing}, Some(a), error, now), now, db);
    case GapCreate(t, now) => GapCreateRespects(c, s, t, now, s');
    case GapReplay(t, a, now) => OutboxRespects(c, s, t, ReopenEvent(Published, a, now, false), db);
    case GapFail(t, a, now, error) =>
      f := FileOf(s.db, t); FailPairRespects(c, s, t, FileOf(s.db, t).value, Fail({Pending}, Some(a), error, now), now, db);
    case OrphanFail(g, now) => f := Some(g); assert FileOk(s, g); OrphanFailRespects(c, s, g, now, s');
    case OrphanCreate(t, g, now) => assert FileOk(s, g); CreateRespects(c, s, t, g, now, db);
  }

  lemma InvKept(c: Config, s: System, step: Step, s': System)
    requires Inv(c, s) && Commit(c, s, step) == Some(s')
    ensures Inv(c, s')
    decreases step.Upload?
  {
    if step.DeleteFile? {
      DeletionKeeps(c, s, step.f, s');
    } else if step.Upload? {
      var s0 := s.(db := s.db.(files := s.db.files[step.f := FileRow(Uploaded, step.owner, step.now)]));
      AdoptFile(c, s, step.f, FileRow(Uploaded, step.owner, step.now), s0);
      InvKept(c, s0, OrphanCreate(step.t, step.f, step.now), s');
    } else {
      var f := CommitRespects(c, s, step, s');
      RespectfulStepKeeps(c, s, s', TaskOf(step), f);
    }
  }

  ghost predicate IsFinished(s: System, t: TaskId) {
    t in s.db.tasks && s.db.tasks[t].status.Completed?
  }

  // Only the two completing statements finish a job, and both find it active.
  lemma WhoFinishes(c: Config, s: System, step: Step, s': System, t: TaskId)
    requires Commit(c, s, step) == Some(s') && IsFinished(s', t) && !IsFinished(s, t)
    ensures step.WorkerComplete? || step.CompleteReady?
    ensures step.t == t && t in s.db.tasks && s.db.tasks[t].status.Active()
    ensures s'.db.files == s.db.files && s'.db.tasks[t].fileId == s.db.tasks[t].fileId
  {
  }

  ghost predicate ReadsCurrentFile(s: System, step: Step) {
    step.CompleteReady? && FileOf(s.db, step.t).Some? ==> ReadyIn(s, FileOf(s.db, step.t).value)
  }

  lemma FinishedKept(c: Config, s: System, step: Step, s': System)
    requires Inv(c, s) && FinishedMeansReady(s) && Commit(c, s, step) == Some(s')
    requires ReadsCurrentFile(s, step)
    ensures FinishedMeansReady(s')
    decreases step.Upload?
  {
    if step.DeleteFile? {
      DeletionKeeps(c, s, step.f, s');
    } else if step.Upload? {
      var s0 := s.(db := s.db.(files := s.db.files[step.f := FileRow(Uploaded, step.owner, step.now)]));
      AdoptFile(c, s, step.f, FileRow(Uploaded, step.owner, step.now), s0);
      FinishedKept(c, s0, OrphanCreate(step.t, step.f, step.now), s');
    } else {
      var f := CommitRespects(c, s, step, s');
      forall t: TaskId, g: FileId | FinishedOn(s', t, g)
        ensures ReadyIn(s', g) && forall u: TaskId :: UnderWay(s', u) ==> s'.db.tasks[u].fileId != Some(g)
      {
        if !IsFinished(s, t) {
          WhoFinishes(c, s, step, s', t);
          assert JobOk(c, s, t) && WorkerOk(s, t) && ActiveOn(s, t, g);
        } else {
          assert FinishedOn(s, t, g);
        }
        StillReady(c, s, s', TaskOf(step), f, t, g);
      }
    }
  }

  lemma StillReady(c: Config, s: System, s': System, t: Option<TaskId>, f: Option<FileId>, done: TaskId, g: FileId)
    requires Inv(c, s) && FinishedMeansReady(s) && Respects(c, s, s', t, f) && FinishedOn(s', done, g)
    requires FinishedOn(s, done, g) || (ActiveOn(s, done, g) && ReadyIn(s, g) && s'.db.files == s.db.files)
    ensures ReadyIn(s', g) && forall u: TaskId :: UnderWay(s', u) ==> s'.db.tasks[u].fileId != Some(g)
  {
    forall u: TaskId | UnderWay(s', u) ensures s'.db.tasks[u].fileId != Some(g) {
      assert WorkerOk(s, u);
      if s'.db.tasks[u].fileId == Some(g) && UnderWay(s, u) && !FinishedOn(s, done, g) {
        assert ActiveOn(s, u, g);
      }
    }
  }

  // The READY branch of the reconciler tests neither the lease nor the file again. It keeps the property
  // exactly when the file it read as READY still is (or has been deleted).
  lemma ReconcileCompletionIsSafeIffFileStillReady(c: Config, s: System, step: Step, s': System)
    requires Inv(c, s) && FinishedMeansReady(s) && step.CompleteReady? && Commit(c, s, step) == Some(s')
    ensures FinishedMeansReady(s') <==> ReadsCurrentFile(s, step)
  {
    if ReadsCurrentFile(s, step) {
      FinishedKept(c, s, step, s');
    } else {
      assert JobOk(c, s, step.t);
      assert FinishedOn(s', step.t, FileOf(s.db, step.t).value);
    }
  }
}
