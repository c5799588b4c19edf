/**
  The KB_INGESTION rows of `task_jobs` and the conditional UPDATE statements of the task repository.

  A `TaskOp` is one UPDATE with its parameters: `Admits` is its WHERE clause (without the id) and `After`
  its VALUES clause. `TaskTable` is the table itself; each of its methods performs one statement in place.
  */
module TaskRepo {
  import opened Wrappers

  type TaskId = nat
  type FileId = nat

  datatype TaskStatus = Pending | Processing | Completed | Failed | Canceled {
    predicate Active() { Pending? || Processing? }
  }

  datatype TaskRow = TaskRow(
    fileId: Option<FileId>,
    status: TaskStatus,
    progress: int,
    attemptCount: nat,
    errorLog: Option<string>,
    startedAt: Option<Time>,
    finishedAt: Option<Time>,
    heartbeatAt: Option<Time>,
    leaseExpiresAt: Option<Time>,
    updatedAt: Time)
  {
    // The lease test shared by the stale scan, the reset and the expiry statement.
    predicate Stale(dueAt: Time, legacyOlderThan: Time) {
      NotAfter(leaseExpiresAt, dueAt) || (leaseExpiresAt.None? && updatedAt <= legacyOlderThan)
    }
  }

  const ERROR_LOG_LIMIT := 5000

  datatype TaskOp =
    | Claim(fileId: FileId, claimedAt: Time, newLease: Time)
    | Heartbeat(expectedAttempt: int, beatAt: Time, newLease: Time)
    | Complete(expectedAttempt: int, at: Time)
    | ReconcileCompleted(expectedStatus: TaskStatus, expectedAttempt: int, at: Time)
    | PrepareReplay(expectedAttempt: int)
    | Fail(expectedStatuses: set<TaskStatus>, optionalAttempt: Option<int>, error: string, at: Time)
    | ResetExpired(expectedAttempt: int, leaseExpiredBefore: Time, legacyUpdatedBefore: Time, error: string)
    | FailExpired(expectedAttempt: int, leaseExpiredBefore: Time, legacyUpdatedBefore: Time, error: string, at: Time)
  {
    predicate Admits(t: TaskRow) {
      match this
      case Claim(f, _, _) => t.fileId == Some(f) && t.status.Pending?
      case Heartbeat(a, _, _) => t.status.Processing? && t.attemptCount == a
      case Complete(a, _) => t.status.Processing? && t.attemptCount == a
      case ReconcileCompleted(st, a, _) => st.Active() && t.status == st && t.attemptCount == a
      case PrepareReplay(a) => t.status.Failed? && t.attemptCount == a
      case Fail(sts, a, _, _) => t.status in sts && (a.Some? ==> t.attemptCount == a.value)
      case ResetExpired(a, due, legacy, _) => t.status.Processing? && t.attemptCount == a && t.Stale(due, legacy)
      case FailExpired(a, due, legacy, _, _) => t.status.Processing? && t.attemptCount == a && t.Stale(due, legacy)
    }

    function After(t: TaskRow, clock: Time): TaskRow {
      var t := t.(updatedAt := clock);
      match this
      case Claim(_, at, lease) =>
        t.(status := Processing, progress := 5, attemptCount := t.attemptCount + 1, errorLog := None,
           startedAt := Some(at), finishedAt := None, heartbeatAt := Some(at), leaseExpiresAt := Some(lease))
      case Heartbeat(_, at, lease) => t.(heartbeatAt := Some(at), leaseExpiresAt := Some(lease))
      case Complete(_, at) => Done(t, at)
      case ReconcileCompleted(_, _, at) => Done(t, at)
      case PrepareReplay(_) => Requeued(t, None)
      case Fail(_, _, error, at) => Broken(t, error, at)
      case ResetExpired(_, _, _, error) => Requeued(t, Some(Truncated(error, ERROR_LOG_LIMIT)))
      case FailExpired(_, _, _, error, at) => Broken(t, error, at)
    }
  }

  function Done(t: TaskRow, at: Time): TaskRow {
    t.(status := Completed, progress := 100, finishedAt := Some(at), heartbeatAt := Some(at),
       leaseExpiresAt := None, errorLog := None)
  }

  function Broken(t: TaskRow, error: string, at: Time): TaskRow {
    t.(status := Failed, progress := 0, errorLog := Some(Truncated(error, ERROR_LOG_LIMIT)),
       finishedAt := Some(at), leaseExpiresAt := None)
  }

  function Requeued(t: TaskRow, error: Option<string>): TaskRow {
    t.(status := Pending, progress := 0, errorLog := error, startedAt := None, finishedAt := None,
       heartbeatAt := None, leaseExpiresAt := None)
  }

  predicate Hits(rows: map<TaskId, TaskRow>, id: TaskId, op: TaskOp) {
    id in rows && op.Admits(rows[id])
  }

  function Updated(rows: map<TaskId, TaskRow>, id: TaskId, op: TaskOp, clock: Time): map<TaskId, TaskRow> {
    if Hits(rows, id, op) then rows[id := op.After(rows[id], clock)] else rows
  }

  function NewTask(fileId: FileId, clock: Time): TaskRow {
    TaskRow(Some(fileId), Pending, 0, 0, None, None, None, None, None, clock)
  }

  // The partial unique index: at most one PENDING or PROCESSING job per file.
  predicate Occupied(rows: map<TaskId, TaskRow>, fileId: FileId) {
    exists id :: id in rows && rows[id].fileId == Some(fileId) && rows[id].status.Active()
  }

  // What the statements keep of a row: fields agree with its status.
  predicate TaskShape(t: TaskRow) {
    && (t.status.Processing? ==> t.attemptCount >= 1)
    && (t.leaseExpiresAt.Some? ==> t.status.Processing?)
    && (t.finishedAt.Some? <==> t.status.Completed? || t.status.Failed?)
    && (t.status.Completed? <==> t.progress == 100)
    && !t.status.Canceled?
  }

  class TaskTable {
    var rows: map<TaskId, TaskRow>

    constructor ()
      ensures rows == map[]
    {
      rows := map[];
    }

    // INSERT of a PENDING job; false stands for the IntegrityError of the primary key or of the active-job index.
    method CreateIngestion(id: TaskId, fileId: FileId, clock: Time) returns (created: bool)
      modifies this
      ensures created <==> id !in old(rows) && !Occupied(old(rows), fileId)
      ensures rows == if created then old(rows)[id := NewTask(fileId, clock)] else old(rows)
    {
      var clash := exists other :: other in rows && rows[other].fileId == Some(fileId) && rows[other].status.Active();
      if clash || id in rows {
        return false;
      }
      rows := rows[id := TaskRow(Some(fileId), Pending, 0, 0, None, None, None, None, None, clock)];
      return true;
    }

    method TryClaimKbIngestionTask(id: TaskId, fileId: FileId, claimedAt: Time, leaseExpiresAt: Time, clock: Time)
      returns (attempt: Option<int>)
      modifies this
      ensures rows == Updated(old(rows), id, Claim(fileId, claimedAt, leaseExpiresAt), clock)
      ensures attempt.Some? <==> Hits(old(rows), id, Claim(fileId, claimedAt, leaseExpiresAt))
      ensures attempt.Some? ==> attempt.value == rows[id].attemptCount == old(rows)[id].attemptCount + 1
    {
      if id !in rows || rows[id].fileId != Some(fileId) || rows[id].status != Pending {
        return None;
      }
      var row := rows[id];
      row := row.(status := Processing, progress := 5, attemptCount := row.attemptCount + 1, errorLog := None);
      row := row.(startedAt := Some(claimedAt), finishedAt := None, heartbeatAt := Some(claimedAt));
      row := row.(leaseExpiresAt := Some(leaseExpiresAt), updatedAt := clock);
      rows := rows[id := row];
      return Some(row.attemptCount);
    }

    method TryHeartbeatKbIngestionTask(id: TaskId, expectedAttempt: int, at: Time, lease: Time, clock: Time)
      returns (ok: bool)
      modifies this
      ensures rows == Updated(old(rows), id, Heartbeat(expectedAttempt, at, lease), clock)
      ensures ok <==> Hits(old(rows), id, Heartbeat(expectedAttempt, at, lease))
    {
      ok := id in rows && rows[id].status == Processing && rows[id].attemptCount == expectedAttempt;
      if ok {
        rows := rows[id := rows[id].(heartbeatAt := Some(at), leaseExpiresAt := Some(lease), updatedAt := clock)];
      }
    }

    method TryCompleteKbIngestionTask(id: TaskId, expectedAttempt: int, finishedAt: Time, clock: Time)
      returns (ok: bool)
      modifies this
      ensures rows == Updated(old(rows), id, Complete(expectedAttempt, finishedAt), clock)
      ensures ok <==> Hits(old(rows), id, Complete(expectedAttempt, finishedAt))
    {
      ok := id in rows && rows[id].status == Processing && rows[id].attemptCount == expectedAttempt;
      if ok {
        var row := rows[id].(status := Completed, progress := 100, finishedAt := Some(finishedAt));
        row := row.(heartbeatAt := Some(finishedAt), leaseExpiresAt := None, errorLog := None, updatedAt := clock);
        rows := rows[id := row];
      }
    }

    method TryReconcileCompletedKbIngestionTask(
      id: TaskId, expectedStatus: TaskStatus, expectedAttempt: int, finishedAt: Time, clock: Time)
      returns (outcome: CasOutcome)
      modifies this
      ensures rows == Updated(old(rows), id, ReconcileCompleted(expectedStatus, expectedAttempt, finishedAt), clock)
      ensures outcome.ValueError? <==> !expectedStatus.Active()
      ensures outcome.Hit? <==> Hits(old(rows), id, ReconcileCompleted(expectedStatus, expectedAttempt, finishedAt))
    {
      if expectedStatus != Pending && expectedStatus != Processing {
        return ValueError;
      }
      if id !in rows || rows[id].status != expectedStatus || rows[id].attemptCount != expectedAttempt {
        return Miss;
      }
      var row := rows[id].(status := Completed, progress := 100, finishedAt := Some(finishedAt));
      row := row.(heartbeatAt := Some(finishedAt), leaseExpiresAt := None, errorLog := None, updatedAt := clock);
      rows := rows[id := row];
      return Hit;
    }

    method TryPrepareFailedKbIngestionReplay(id: TaskId, expectedAttempt: int, clock: Time) returns (ok: bool)
      modifies this
      ensures rows == Updated(old(rows), id, PrepareReplay(expectedAttempt), clock)
      ensures ok <==> Hits(old(rows), id, PrepareReplay(expectedAttempt))
    {
      ok := id in rows && rows[id].status == Failed && rows[id].attemptCount == expectedAttempt;
      if ok {
        var row := rows[id].(status := Pending, progress := 0, errorLog := None, startedAt := None);
        row := row.(finishedAt := None, heartbeatAt := None, leaseExpiresAt := None, updatedAt := clock);
        rows := rows[id := row];
      }
    }

    method TryFailKbIngestionTask(
      id: TaskId, expectedStatuses: set<TaskStatus>, expectedAttempt: Option<int>, errorLog: string,
      finishedAt: Time, clock: Time)
      returns (ok: bool)
      modifies this
      ensures rows == Updated(old(rows), id, Fail(expectedStatuses, expectedAttempt, errorLog, finishedAt), clock)
      ensures ok <==> Hits(old(rows), id, Fail(expectedStatuses, expectedAttempt, errorLog, finishedAt))
    {
      ok := id in rows && rows[id].status in expectedStatuses;
      if expectedAttempt.Some? {
        ok := ok && rows[id].attemptCount == expectedAttempt.value;
      }
      if ok {
        var row := rows[id].(status := Failed, progress := 0, errorLog := Some(Truncated(errorLog, ERROR_LOG_LIMIT)));
        rows := rows[id := row.(finishedAt := Some(finishedAt), leaseExpiresAt := None, updatedAt := clock)];
      }
    }

    method TryResetExpiredKbIngestionTask(
      id: TaskId, expectedAttempt: int, leaseExpiredBefore: Time, legacyUpdatedBefore: Time, errorLog: string,
      clock: Time)
      returns (ok: bool)
      modifies this
      ensures rows == Updated(old(rows), id,
                              ResetExpired(expectedAttempt, leaseExpiredBefore, legacyUpdatedBefore, errorLog), clock)
      ensures ok <==> Hits(old(rows), id, ResetExpired(expectedAttempt, leaseExpiredBefore, legacyUpdatedBefore, errorLog))
    {
      ok := id in rows && rows[id].status == Processing && rows[id].attemptCount == expectedAttempt
            && rows[id].Stale(leaseExpiredBefore, legacyUpdatedBefore);
      if ok {
        var row := rows[id].(status := Pending, progress := 0, errorLog := Some(Truncated(errorLog, ERROR_LOG_LIMIT)));
        row := row.(startedAt := None, finishedAt := None, heartbeatAt := None, leaseExpiresAt := None);
        rows := rows[id := row.(updatedAt := clock)];
      }
    }

    method TryFailExpiredKbIngestionTask(
      id: TaskId, expectedAttempt: int, leaseExpiredBefore: Time, legacyUpdatedBefore: Time, errorLog: string,
      finishedAt: Time, clock: Time)
      returns (ok: bool)
      modifies this
      ensures
        var op := FailExpired(expectedAttempt, leaseExpiredBefore, legacyUpdatedBefore, errorLog, finishedAt);
        rows == Updated(old(rows), id, op, clock) && (ok <==> Hits(old(rows), id, op))
    {
      ok := id in rows && rows[id].status == Processing && rows[id].attemptCount == expectedAttempt
            && rows[id].Stale(leaseExpiredBefore, legacyUpdatedBefore);
      if ok {
        var row := rows[id].(status := Failed, progress := 0, errorLog := Some(Truncated(errorLog, ERROR_LOG_LIMIT)));
        rows := rows[id := row.(finishedAt := Some(finishedAt), leaseExpiresAt := None, updatedAt := clock)];
      }
    }
  }
}
