/** When exactly the steps of workers, relay and operators commit, and what they do to events and files, by columns. */
module IngestionEnabling {
  import opened Wrappers
  import opened TaskRepo
  import opened TaskOutboxRepo
  import opened KnowledgeRepo
  import opened IngestionProtocol
  import opened IngestionVerdicts
  import IngestionRecovery
  import IngestionRuns

  predicate InPhase(s: System, t: TaskId, phases: set<Phase>) {
    t in s.phases && s.phases[t] in phases
  }

  // The job's file row is there and has one of the statuses.
  predicate OwnFileIn(s: System, t: TaskId, statuses: set<FileStatus>) {
    t in s.db.tasks && s.db.tasks[t].fileId.Some? && FileIn(s.db, s.db.tasks[t].fileId.value, statuses)
  }

  predicate Publishes(o: OutboxRow, attempt: int, owner: string) {
    o.status == Publishing && o.attemptCount == attempt && o.leaseOwner == Some(owner)
  }

  predicate Reached(column: Option<Time>, at: Time) {
    match column case Some(time) => time <= at case None => false
  }

  function Shortened(error: string): string {
    if |error| <= 5000 then error else error[..5000]
  }

  predicate WorkerMay(s: System, step: Step) {
    match step
    case WorkerClaim(t, f, _, _) => t in s.db.tasks && s.db.tasks[t].status == Pending && s.db.tasks[t].fileId == Some(f)
    case WorkerHeartbeat(t, a, _, _) => Running(s.db, t, a)
    case WorkerParse(t, a, _, _) => Running(s.db, t, a) && InPhase(s, t, {Claimed}) && OwnFileIn(s, t, {Uploaded})
    case WorkerIndex(t, a, _, _, n) => Running(s.db, t, a) && InPhase(s, t, {Parsed}) && OwnFileIn(s, t, {Parsing}) && n > 0
    case WorkerCleanup(t, a, _, _) => Running(s.db, t, a) && InPhase(s, t, {Parsed, Indexed})
    case WorkerComplete(t, a, _) => Running(s.db, t, a) && InPhase(s, t, {Indexed})
    case WorkerFail(t, a, _, _) => Running(s.db, t, a)
    case _ => false
  }

  predicate ByWorker(step: Step) {
    || step.WorkerClaim? || step.WorkerHeartbeat? || step.WorkerParse? || step.WorkerIndex? || step.WorkerCleanup?
    || step.WorkerComplete? || step.WorkerFail?
  }

  lemma WorkerVerdict(c: Config, s: System, step: Step)
    requires ByWorker(step)
    ensures Commit(c, s, step).Some? <==> WorkerMay(s, step)
  {
  }

  // What workers record: a claim counts the attempt, starts its instants and forgets the last error; every later
  // transaction renews heartbeat and lease; and the end of a job says when and why.
  lemma WhatWorkersRecord(c: Config, s: System, step: Step, s': System)
    requires ByWorker(step) && Commit(c, s, step) == Some(s')
    ensures step.t in s.db.tasks && step.t in s'.db.tasks
    ensures
      var before, after := s.db.tasks[step.t], s'.db.tasks[step.t];
      && s'.db.tasks == s.db.tasks[step.t := after]
      && match step
         case WorkerClaim(_, _, now, lease) =>
           after == TaskRow(before.fileId, Processing, 5, before.attemptCount + 1, None, Some(now), None, Some(now),
                            Some(lease), now)
         case WorkerComplete(_, _, now) => Finished(before, after, now)
         case WorkerFail(_, _, now, error) => Stopped(before, after, Shortened(error), now)
         case _ => after == before.(heartbeatAt := Some(step.now), leaseExpiresAt := Some(step.lease), updatedAt := step.now)
  {
  }

  // Only these three change a file or its chunks: parsing starts on an UPLOADED file, indexing makes it READY with its
  // chunks, and the cleanup fails it and takes the chunks away.
  lemma WhatWorkersDoToFiles(c: Config, s: System, step: Step, s': System)
    requires ByWorker(step) && Commit(c, s, step) == Some(s')
    ensures
      match step
      case WorkerParse(t, _, now, _) =>
        && s'.db.chunks == s.db.chunks
        && var f := s.db.tasks[t].fileId.value;
           s'.db.files == s.db.files[f := FileRow(Parsing, s.db.files[f].owner, now)]
      case WorkerIndex(t, _, now, _, n) =>
        var f := s.db.tasks[t].fileId.value;
        && s'.db.files == s.db.files[f := FileRow(Ready, s.db.files[f].owner, now)] && s'.db.chunks == s.db.chunks[f := n]
      case WorkerCleanup(t, _, now, _) =>
        if OwnFileIn(s, t, {Uploaded, Parsing, Chunking, Ready}) then
          var f := s.db.tasks[t].fileId.value;
          && s'.db.files == s.db.files[f := FileRow(FileFailed, s.db.files[f].owner, now)] && s'.db.chunks == s.db.chunks - {f}
        else
          && s'.db.files == s.db.files
          && s'.db.chunks == if OwnFileIn(s, t, {FileFailed}) then s.db.chunks - {s.db.tasks[t].fileId.value} else s.db.chunks
      case _ => s'.db.files == s.db.files && s'.db.chunks == s.db.chunks
    ensures s'.db.outboxes == s.db.outboxes
  {
    match step
    case WorkerIndex(t, a, now, lease, n) =>
      assert s.db.tasks[t].fileId.value in s.db.files;
      assert FileOf(s.db, t) == s.db.tasks[t].fileId;
      IndexedFile(s.db, s.db.tasks[t].fileId.value, now);
    case WorkerCleanup(t, a, now, lease) =>
      if FileOf(s.db, t).Some? {
        CleanedFile(s.db, s.db.tasks[t].fileId.value, now);
      }
    case _ =>
  }

  lemma CleanedFile(db: Db, f: FileId, now: Time)
    requires f in db.files
    ensures FileMoved(db.files, f, UNFINISHED_FILE + {Ready}, FileFailed, now)
            == if FileIn(db, f, {Uploaded, Parsing, Chunking, Ready})
               then db.files[f := FileRow(FileFailed, db.files[f].owner, now)] else db.files
    ensures FileIn(db, f, {Uploaded, Parsing, Chunking, Ready}) != FileIn(db, f, {FileFailed})
  {
    assert !db.files[f].status.FileFailed? ==> db.files[f].status in {Uploaded, Parsing, Chunking, Ready};
  }

  lemma IndexedFile(db: Db, f: FileId, now: Time)
    requires FileIn(db, f, {Parsing})
    ensures FileMoved(FileMoved(db.files, f, {Parsing}, Chunking, now), f, {Chunking}, Ready, now)
            == db.files[f := FileRow(Ready, db.files[f].owner, now)]
  {
  }

  // A claim takes an event that is due and has publications left; settling needs its owner; a due event can be
  // declared dead by anyone who has seen its current attempt.
  predicate RelayMay(c: Config, o: OutboxRow, op: OutboxOp) {
    match op
    case ClaimEvent(due, _, _, max) =>
      && max == c.maxPublishAttempts && o.attemptCount < max
      && ((o.status == Waiting && Reached(o.nextAttemptAt, due)) || (o.status == Publishing && Reached(o.leaseExpiresAt, due)))
    case MarkPublished(a, owner, _) => Publishes(o, a, owner)
    case ReleaseForRetry(a, owner, _, _) => Publishes(o, a, owner)
    case MarkDead(a, due, _) =>
      && (o.status == Waiting || o.status == Publishing) && o.attemptCount == a
      && (Reached(o.nextAttemptAt, due) || Reached(o.leaseExpiresAt, due))
    case ReopenEvent(_, _, _, _) => false
  }

  // What the relay leaves of the event.
  predicate RelayLeaves(before: OutboxRow, after: OutboxRow, op: OutboxOp) {
    match op
    case ClaimEvent(_, owner, lease, _) =>
      after == OutboxRow(Publishing, before.attemptCount + 1, Some(lease), Some(owner), Some(lease), before.publishedAt,
                         before.lastError)
    case MarkPublished(_, _, at) => after == OutboxRow(Published, before.attemptCount, None, None, None, Some(at), None)
    case ReleaseForRetry(_, _, next, error) =>
      after == OutboxRow(Waiting, before.attemptCount, Some(next), None, None, before.publishedAt, Some(Shortened(error)))
    case MarkDead(_, _, error) =>
      after == OutboxRow(Dead, before.attemptCount, None, None, None, before.publishedAt, Some(Shortened(error)))
    case _ => false
  }

  lemma RelayVerdict(c: Config, s: System, t: TaskId, op: OutboxOp)
    ensures Commit(c, s, Relay(t, op)).Some? <==> t in s.db.outboxes && RelayMay(c, s.db.outboxes[t], op)
    ensures Commit(c, s, Relay(t, op)).Some? ==>
              var s' := Commit(c, s, Relay(t, op)).value;
              && t in s'.db.outboxes && RelayLeaves(s.db.outboxes[t], s'.db.outboxes[t], op)
              && s' == s.(db := s.db.(outboxes := s.db.outboxes[t := s'.db.outboxes[t]]))
  {
  }

  // An operator replays a dead event of a failed job whose file has failed and has no active job, or of a job that is
  // still queued for an uploaded file; the event gets a fresh budget, and a failed pair is queued again.
  lemma ReplayVerdict(c: Config, s: System, t: TaskId, a: int, now: Time)
    ensures
      var failed := t in s.db.tasks && s.db.tasks[t].status == Failed && OwnFileIn(s, t, {FileFailed})
                    && NoActiveJob(s.db, s.db.tasks[t].fileId.value);
      var queued := t in s.db.tasks && s.db.tasks[t].status == Pending && OwnFileIn(s, t, {Uploaded});
      var next := Commit(c, s, ManualReplay(t, a, now));
      && (next.Some? <==> (failed || queued) && t in s.db.outboxes && s.db.outboxes[t].status == Dead
                          && s.db.outboxes[t].attemptCount == a)
      && (next.Some? ==>
            var s' := next.value;
            && Announced(At(s'.db.outboxes, t), 0, now) && s'.phases == s.phases
            && t in s'.db.tasks && s'.db.tasks == s.db.tasks[t := s'.db.tasks[t]]
            && if failed then
                 && s'.db.tasks[t] == TaskRow(s.db.tasks[t].fileId, Pending, 0, s.db.tasks[t].attemptCount, None, None, None,
                                              None, None, now)
                 && FileEmptied(s.db, s'.db, s.db.tasks[t].fileId.value, Uploaded, now)
               else s'.db.tasks == s.db.tasks && s'.db.files == s.db.files && s'.db.chunks == s.db.chunks)
  {
    if t in s.db.tasks && s.db.tasks[t].fileId.Some? {
      assert Occupied(s.db.tasks, s.db.tasks[t].fileId.value) <==> !NoActiveJob(s.db, s.db.tasks[t].fileId.value);
    }
  }

  // ----- what the scans select

  // The scans select what the reconciler and the relay then act on: jobs whose lease has run out, queued jobs with a
  // file and no active event, events that are due, and uploaded files without an active job.
  lemma WhatTheScansSelect(c: Config, s: System, t: TaskId, f: FileId, at: Time, legacy: Time)
    ensures IngestionRuns.StaleScan(s, t, at, legacy) <==>
            t in s.db.tasks && Abandoned(s.db, t, s.db.tasks[t].attemptCount, at, legacy)
    ensures IngestionRuns.GapScan(s, t, at) <==>
            && t in s.db.tasks && s.db.tasks[t].status == Pending && s.db.tasks[t].fileId != None
            && s.db.tasks[t].updatedAt <= at
            && (t in s.db.outboxes ==> s.db.outboxes[t].status == Published || s.db.outboxes[t].status == Dead)
    ensures IngestionRuns.RelayScan(c, s, t, at) <==>
            && t in s.db.outboxes
            && ((s.db.outboxes[t].status == Waiting && Reached(s.db.outboxes[t].nextAttemptAt, at))
                || (s.db.outboxes[t].status == Publishing && Reached(s.db.outboxes[t].leaseExpiresAt, at)))
    ensures IngestionRuns.OrphanScan(s, f, at) <==>
            FileIn(s.db, f, {Uploaded}) && s.db.files[f].updatedAt <= at && NoActiveJob(s.db, f)
  {
    assert Occupied(s.db.tasks, f) <==> !NoActiveJob(s.db, f);
  }

  // A step of the protocol about an orphan file is the reconciler's transaction.
  lemma OrphanStepsAreTransactions(c: Config, s: System, step: Step, s': System)
    requires Commit(c, s, step) == Some(s') && (step.OrphanFail? || step.OrphanCreate?)
    ensures step.OrphanFail? ==> forall t: TaskId ::
              IngestionRecovery.OrphanTx(s.db, t, step.f, None, step.now) == (IngestionRecovery.OrphanFailed, s'.db)
    ensures step.OrphanCreate? ==> forall owner: nat ::
              IngestionRecovery.OrphanTx(s.db, step.t, step.f, Some(owner), step.now) == (IngestionRecovery.JobCreated, s'.db)
  {
  }
}
