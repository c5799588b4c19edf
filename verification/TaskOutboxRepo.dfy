/**
  `task_outbox`, the durable at-least-once publish records (one per job), and the statements of its repository.

  As in TaskRepo, an `OutboxOp` is one conditional UPDATE: `Admits` its WHERE clause, `After` its VALUES clause.
  */
module TaskOutboxRepo {
  import opened Wrappers
  import opened Characters
  import opened TaskRepo

  datatype OutboxStatus = Waiting | Publishing | Published | Dead {
    predicate Active() { Waiting? || Publishing? }
  }

  datatype OutboxRow = OutboxRow(
    status: OutboxStatus,
    attemptCount: nat,
    nextAttemptAt: Option<Time>,
    leaseOwner: Option<string>,
    leaseExpiresAt: Option<Time>,
    publishedAt: Option<Time>,
    lastError: Option<string>)

  const LAST_ERROR_LIMIT := 5000

  function NewEvent(nextAttemptAt: Time): OutboxRow {
    OutboxRow(Waiting, 0, Some(nextAttemptAt), None, None, None, None)
  }

  datatype OutboxOp =
    | ClaimEvent(dueAt: Time, owner: string, lease: Time, maxAttempts: int)
    | MarkPublished(expectedAttempt: int, owner: string, at: Time)
    | ReleaseForRetry(expectedAttempt: int, owner: string, next: Time, error: string)
    | MarkDead(expectedAttempt: int, dueBefore: Time, error: string)
    | ReopenEvent(expectedStatus: OutboxStatus, expectedAttempt: int, next: Time, resetAttempts: bool)
  {
    predicate Admits(o: OutboxRow) {
      match this
      case ClaimEvent(due, _, _, max) => ClaimDue(o, due) && o.attemptCount < max
      case MarkPublished(a, owner, _) => o.status.Publishing? && o.attemptCount == a && o.leaseOwner == Some(owner)
      case ReleaseForRetry(a, owner, _, _) => o.status.Publishing? && o.attemptCount == a && o.leaseOwner == Some(owner)
      case MarkDead(a, due, _) => o.status.Active() && o.attemptCount == a && DeadDue(o, due)
      case ReopenEvent(st, a, _, _) => !st.Active() && o.status == st && o.attemptCount == a
    }

    function After(o: OutboxRow): OutboxRow {
      match this
      case ClaimEvent(_, owner, lease, _) =>
        o.(status := Publishing, attemptCount := o.attemptCount + 1, leaseOwner := Some(owner),
           leaseExpiresAt := Some(lease), nextAttemptAt := Some(lease))
      case MarkPublished(_, _, at) =>
        Unleased(o).(status := Published, nextAttemptAt := None, publishedAt := Some(at), lastError := None)
      case ReleaseForRetry(_, _, next, error) =>
        Unleased(o).(status := Waiting, nextAttemptAt := Some(next), lastError := Some(Truncated(error, LAST_ERROR_LIMIT)))
      case MarkDead(_, _, error) =>
        Unleased(o).(status := Dead, nextAttemptAt := None, lastError := Some(Truncated(error, LAST_ERROR_LIMIT)))
      case ReopenEvent(_, _, next, reset) =>
        Unleased(o).(status := Waiting, nextAttemptAt := Some(next), publishedAt := None, lastError := None,
                     attemptCount := if reset then 0 else o.attemptCount)
    }
  }

  function Unleased(o: OutboxRow): OutboxRow {
    o.(leaseOwner := None, leaseExpiresAt := None)
  }

  // The due tests, each as its own statement writes it.
  predicate OldestDue(o: OutboxRow, at: Time) {
    || (o.status.Waiting? && o.nextAttemptAt.Some? && o.nextAttemptAt.value <= at)
    || (o.status.Publishing? && o.leaseExpiresAt.Some? && o.leaseExpiresAt.value <= at)
  }

  predicate ClaimDue(o: OutboxRow, at: Time) {
    (o.status.Waiting? && NotAfter(o.nextAttemptAt, at)) || (o.status.Publishing? && NotAfter(o.leaseExpiresAt, at))
  }

  predicate ExhaustedDue(o: OutboxRow, at: Time) {
    && o.status.Active()
    && ((o.status.Waiting? && NotAfter(o.nextAttemptAt, at)) || (o.status.Publishing? && NotAfter(o.leaseExpiresAt, at)))
  }

  predicate DeadDue(o: OutboxRow, at: Time) {
    NotAfter(o.nextAttemptAt, at) || NotAfter(o.leaseExpiresAt, at)
  }

  // The fields agree with the status; this includes the table's two CHECK constraints.
  predicate OutboxShape(o: OutboxRow) {
    match o.status
    case Waiting => o.nextAttemptAt.Some? && o.leaseOwner.None? && o.leaseExpiresAt.None?
    case Publishing =>
      o.leaseOwner.Some? && o.leaseExpiresAt.Some? && o.nextAttemptAt == o.leaseExpiresAt && o.attemptCount >= 1
    case Published => o.nextAttemptAt.None? && o.leaseOwner.None? && o.leaseExpiresAt.None? && o.publishedAt.Some?
    case Dead => o.nextAttemptAt.None? && o.leaseOwner.None? && o.leaseExpiresAt.None?
  }

  lemma ShapeIsInductive(op: OutboxOp, o: OutboxRow, next: Time)
    ensures OutboxShape(NewEvent(next))
    ensures OutboxShape(o) && op.Admits(o) ==> OutboxShape(op.After(o))
  {
  }

  // Under the shape the tests of the oldest-due query, both claims, the exhausted scan and the dead mark agree
  // on every active row, and the due rows split exactly into claimable and exhausted ones.
  lemma DueTestsCoincide(o: OutboxRow, at: Time, maxAttempts: int, owner: string, lease: Time, error: string)
    requires OutboxShape(o)
    ensures OldestDue(o, at) <==> ClaimDue(o, at)
    ensures ExhaustedDue(o, at) <==> ClaimDue(o, at)
    ensures o.status.Active() && DeadDue(o, at) <==> ClaimDue(o, at)
    ensures ClaimDue(o, at) <==> o.status.Active() && o.nextAttemptAt.value <= at
    ensures ClaimDue(o, at) <==>
            (ClaimEvent(at, owner, lease, maxAttempts).Admits(o) != (ExhaustedDue(o, at) && o.attemptCount >= maxAttempts))
    ensures ExhaustedDue(o, at) ==> MarkDead(o.attemptCount, at, error).Admits(o)
  {
  }

  // Without the shape the tests differ: a waiting row with a left-over lease is dead-markable but not claimable.
  lemma DueTestsNeedTheShape()
    ensures exists o: OutboxRow, at: Time :: o.status.Active() && DeadDue(o, at) && !ClaimDue(o, at)
  {
    var o := OutboxRow(Waiting, 3, Some(10), Some("relay"), Some(1), None, None);
    assert DeadDue(o, 5) && !ClaimDue(o, 5);
  }

  predicate OutboxHits(rows: map<TaskId, OutboxRow>, id: TaskId, op: OutboxOp) {
    id in rows && op.Admits(rows[id])
  }

  function OutboxUpdated(rows: map<TaskId, OutboxRow>, id: TaskId, op: OutboxOp): map<TaskId, OutboxRow> {
    if OutboxHits(rows, id, op) then rows[id := op.After(rows[id])] else rows
  }

  // A batch is the single-row claim statement applied to each selected row in turn.
  function ClaimedInTurn(rows: map<TaskId, OutboxRow>, ids: seq<TaskId>, op: OutboxOp): map<TaskId, OutboxRow> {
    if ids == [] then rows
    else OutboxUpdated(ClaimedInTurn(rows, ids[..|ids| - 1], op), ids[|ids| - 1], op)
  }

  // What `SELECT .. ORDER BY next_attempt_at, id FOR UPDATE SKIP LOCKED LIMIT n` may answer.
  ghost predicate DueSelection(
    rows: map<TaskId, OutboxRow>, locked: set<TaskId>, ids: seq<TaskId>, op: OutboxOp, limit: int)
  {
    && |ids| <= limit
    && (forall i :: 0 <= i < |ids| ==> OutboxHits(rows, ids[i], op) && ids[i] !in locked)
    && (forall i, j :: 0 <= i < j < |ids| ==> ids[i] != ids[j] && Earlier(rows, ids[i], ids[j]))
    && (forall id :: OutboxHits(rows, id, op) && id !in locked && id !in ids ==>
          |ids| == limit && forall i :: 0 <= i < |ids| ==> Earlier(rows, ids[i], id))
  }

  predicate Earlier(rows: map<TaskId, OutboxRow>, a: TaskId, b: TaskId) {
    && a in rows && b in rows && rows[a].nextAttemptAt.Some? && rows[b].nextAttemptAt.Some?
    && (rows[a].nextAttemptAt.value < rows[b].nextAttemptAt.value
        || (rows[a].nextAttemptAt == rows[b].nextAttemptAt && a < b))
  }

  // There is only one such answer: the `limit` oldest of the due rows that nobody else holds, oldest first.
  lemma TheSelectionIsUnique(
    rows: map<TaskId, OutboxRow>, locked: set<TaskId>, a: seq<TaskId>, b: seq<TaskId>, op: OutboxOp, limit: int)
    requires DueSelection(rows, locked, a, op, limit) && DueSelection(rows, locked, b, op, limit)
    ensures a == b && |a| <= limit
  {
    SameUpTo(rows, locked, a, b, op, limit, Smaller(|a|, |b|));
    if |b| <= |a| {
      assert b[..|b|] == b;
      NothingIsMissing(rows, locked, a, b, op, limit);
    } else {
      assert a[..|a|] == a;
      NothingIsMissing(rows, locked, b, a, op, limit);
    }
    assert a[..|a|] == a && b[..|b|] == b;
  }

  lemma NothingIsMissing(
    rows: map<TaskId, OutboxRow>, locked: set<TaskId>, a: seq<TaskId>, b: seq<TaskId>, op: OutboxOp, limit: int)
    requires DueSelection(rows, locked, a, op, limit) && DueSelection(rows, locked, b, op, limit)
    requires |b| <= |a| && a[..|b|] == b
    ensures |a| == |b|
  {
    if |b| < |a| {
      NotAmongTheFirst(rows, locked, a, |b|, op, limit);
      FullWithout(rows, locked, b, a[|b|], op, limit);
    }
  }

  lemma NotAmongTheFirst(
    rows: map<TaskId, OutboxRow>, locked: set<TaskId>, ids: seq<TaskId>, n: nat, op: OutboxOp, limit: int)
    requires DueSelection(rows, locked, ids, op, limit) && n < |ids|
    ensures ids[n] !in ids[..n] && OutboxHits(rows, ids[n], op) && ids[n] !in locked && n < limit
  {
  }

  lemma FullWithout(
    rows: map<TaskId, OutboxRow>, locked: set<TaskId>, ids: seq<TaskId>, id: TaskId, op: OutboxOp, limit: int)
    requires DueSelection(rows, locked, ids, op, limit) && OutboxHits(rows, id, op) && id !in locked && id !in ids
    ensures |ids| == limit
  {
  }

  lemma {:induction false} SameUpTo(
    rows: map<TaskId, OutboxRow>, locked: set<TaskId>, a: seq<TaskId>, b: seq<TaskId>, op: OutboxOp, limit: int, n: nat)
    requires DueSelection(rows, locked, a, op, limit) && DueSelection(rows, locked, b, op, limit)
    requires n <= |a| && n <= |b|
    ensures a[..n] == b[..n]
  {
    hide DueSelection;
    if n > 0 {
      SameUpTo(rows, locked, a, b, op, limit, n - 1);
      forall k | 0 <= k < n - 1 ensures a[k] == b[k] {
        assert a[k] == a[..n - 1][k] && b[k] == b[..n - 1][k];
      }
      SameNext(rows, locked, a, b, op, limit, n - 1);
    }
  }

  lemma SameNext(
    rows: map<TaskId, OutboxRow>, locked: set<TaskId>, a: seq<TaskId>, b: seq<TaskId>, op: OutboxOp, limit: int, n: nat)
    requires DueSelection(rows, locked, a, op, limit) && DueSelection(rows, locked, b, op, limit)
    requires n < |a| && n < |b| && forall k :: 0 <= k < n ==> a[k] == b[k]
    ensures a[n] == b[n]
  {
    hide DueSelection, Earlier;
    ComesLater(rows, locked, a, b, op, limit, n);
    ComesLater(rows, locked, b, a, op, limit, n);
    NotBothEarlier(rows, a[n], b[n]);
  }

  lemma NotBothEarlier(rows: map<TaskId, OutboxRow>, x: TaskId, y: TaskId)
    ensures !(Earlier(rows, x, y) && Earlier(rows, y, x))
  {
  }

  // The other selection's row at the first difference comes earlier.
  lemma ComesLater(
    rows: map<TaskId, OutboxRow>, locked: set<TaskId>, a: seq<TaskId>, b: seq<TaskId>, op: OutboxOp, limit: int, n: nat)
    requires DueSelection(rows, locked, a, op, limit) && DueSelection(rows, locked, b, op, limit)
    requires n < |a| && n < |b| && forall k :: 0 <= k < n ==> a[k] == b[k]
    ensures a[n] != b[n] ==> Earlier(rows, b[n], a[n])
  {
    if a[n] in b {
      var m :| 0 <= m < |b| && b[m] == a[n];
      assert m >= n;
    }
  }

  // The rows the batch has not reached yet are as they were.
  lemma ClaimsAreLocal(rows: map<TaskId, OutboxRow>, ids: seq<TaskId>, op: OutboxOp, id: TaskId)
    requires id !in ids
    ensures id in ClaimedInTurn(rows, ids, op) <==> id in rows
    ensures id in rows ==> ClaimedInTurn(rows, ids, op)[id] == rows[id]
  {
  }

  class OutboxTable {
    var rows: map<TaskId, OutboxRow>

    constructor ()
      ensures rows == map[]
    {
      rows := map[];
    }

    // INSERT of a fresh event; false stands for the IntegrityError of the (task_id, event_type) constraint.
    method Create(id: TaskId, nextAttemptAt: Time) returns (created: bool)
      modifies this
      ensures created <==> id !in old(rows)
      ensures rows == if created then old(rows)[id := NewEvent(nextAttemptAt)] else old(rows)
    {
      if id in rows {
        return false;
      }
      rows := rows[id := OutboxRow(Waiting, 0, Some(nextAttemptAt), None, None, None, None)];
      return true;
    }

    // `selected` and `locked` are the answer of the locking SELECT and the rows other relays hold.
    method ClaimDueBatch(
      dueAt: Time, owner: string, leaseExpiresAt: Time, maxAttempts: int, limit: int,
      selected: seq<TaskId>, ghost locked: set<TaskId>)
      returns (claimed: Option<seq<TaskId>>)
      requires 1 <= limit <= 500 ==>
                 DueSelection(rows, locked, selected, ClaimEvent(dueAt, owner, leaseExpiresAt, maxAttempts), limit)
      modifies this
      ensures claimed.None? <==> StripsToNothing(owner) || maxAttempts < 1 || !(1 <= limit <= 500)
      ensures claimed.None? ==> rows == old(rows)
      ensures claimed.Some? ==>
                && claimed.value == selected
                && rows == ClaimedInTurn(old(rows), selected, ClaimEvent(dueAt, owner, leaseExpiresAt, maxAttempts))
    {
      var blank := forall i :: 0 <= i < |owner| ==> IsSpace(owner[i]);
      if blank || maxAttempts < 1 || limit < 1 || limit > 500 {
        return None;
      }
      ghost var op := ClaimEvent(dueAt, owner, leaseExpiresAt, maxAttempts);
      ghost var before := rows;
      for i := 0 to |selected|
        invariant rows == ClaimedInTurn(before, selected[..i], op)
      {
        ClaimsAreLocal(before, selected[..i], op, selected[i]);
        var row := rows[selected[i]];
        row := row.(status := Publishing, attemptCount := row.attemptCount + 1, leaseOwner := Some(owner));
        row := row.(leaseExpiresAt := Some(leaseExpiresAt), nextAttemptAt := Some(leaseExpiresAt));
        rows := rows[selected[i] := row];
        assert selected[..i + 1][..i] == selected[..i];
      }
      assert selected[..|selected|] == selected;
      return Some(selected);
    }

    method TryClaim(id: TaskId, dueAt: Time, owner: string, leaseExpiresAt: Time, maxAttempts: int)
      returns (claimed: Option<OutboxRow>)
      modifies this
      ensures rows == OutboxUpdated(old(rows), id, ClaimEvent(dueAt, owner, leaseExpiresAt, maxAttempts))
      ensures claimed.Some? <==> OutboxHits(old(rows), id, ClaimEvent(dueAt, owner, leaseExpiresAt, maxAttempts))
      ensures claimed.Some? ==> claimed.value == rows[id]
    {
      if id !in rows || !ClaimDue(rows[id], dueAt) || rows[id].attemptCount >= maxAttempts {
        return None;
      }
      var row := rows[id].(status := Publishing, attemptCount := rows[id].attemptCount + 1, leaseOwner := Some(owner));
      row := row.(leaseExpiresAt := Some(leaseExpiresAt), nextAttemptAt := Some(leaseExpiresAt));
      rows := rows[id := row];
      return Some(row);
    }

    method TryMarkPublished(id: TaskId, expectedAttempt: int, owner: string, publishedAt: Time) returns (ok: bool)
      modifies this
      ensures rows == OutboxUpdated(old(rows), id, MarkPublished(expectedAttempt, owner, publishedAt))
      ensures ok <==> OutboxHits(old(rows), id, MarkPublished(expectedAttempt, owner, publishedAt))
    {
      ok := id in rows && rows[id].status == Publishing && rows[id].attemptCount == expectedAttempt
            && rows[id].leaseOwner == Some(owner);
      if ok {
        var row := rows[id].(status := Published, nextAttemptAt := None, leaseOwner := None, leaseExpiresAt := None);
        rows := rows[id := row.(publishedAt := Some(publishedAt), lastError := None)];
      }
    }

    method TryReleaseForRetry(id: TaskId, expectedAttempt: int, owner: string, nextAttemptAt: Time, lastError: string)
      returns (ok: bool)
      modifies this
      ensures rows == OutboxUpdated(old(rows), id, ReleaseForRetry(expectedAttempt, owner, nextAttemptAt, lastError))
      ensures ok <==> OutboxHits(old(rows), id, ReleaseForRetry(expectedAttempt, owner, nextAttemptAt, lastError))
    {
      ok := id in rows && rows[id].status == Publishing && rows[id].attemptCount == expectedAttempt
            && rows[id].leaseOwner == Some(owner);
      if ok {
        var row := rows[id].(status := Waiting, nextAttemptAt := Some(nextAttemptAt), leaseOwner := None);
        rows := rows[id := row.(leaseExpiresAt := None, lastError := Some(Truncated(lastError, LAST_ERROR_LIMIT)))];
      }
    }

    method TryMarkDead(id: TaskId, expectedAttempt: int, dueBefore: Time, lastError: string) returns (ok: bool)
      modifies this
      ensures rows == OutboxUpdated(old(rows), id, MarkDead(expectedAttempt, dueBefore, lastError))
      ensures ok <==> OutboxHits(old(rows), id, MarkDead(expectedAttempt, dueBefore, lastError))
    {
      ok := id in rows && (rows[id].status == Waiting || rows[id].status == Publishing)
            && rows[id].attemptCount == expectedAttempt && DeadDue(rows[id], dueBefore);
      if ok {
        var row := rows[id].(status := Dead, nextAttemptAt := None, leaseOwner := None, leaseExpiresAt := None);
        rows := rows[id := row.(lastError := Some(Truncated(lastError, LAST_ERROR_LIMIT)))];
      }
    }

    method TryPrepareReplay(
      id: TaskId, expectedStatus: OutboxStatus, expectedAttempt: int, nextAttemptAt: Time, resetAttempts: bool)
      returns (outcome: CasOutcome)
      modifies this
      ensures rows == OutboxUpdated(old(rows), id, ReopenEvent(expectedStatus, expectedAttempt, nextAttemptAt, resetAttempts))
      ensures outcome.ValueError? <==> expectedStatus.Active()
      ensures outcome.Hit? <==>
              OutboxHits(old(rows), id, ReopenEvent(expectedStatus, expectedAttempt, nextAttemptAt, resetAttempts))
    {
      if expectedStatus != Published && expectedStatus != Dead {
        return ValueError;
      }
      if id !in rows || rows[id].status != expectedStatus || rows[id].attemptCount != expectedAttempt {
        return Miss;
      }
      var row := rows[id].(status := Waiting, nextAttemptAt := Some(nextAttemptAt), leaseOwner := None);
      row := row.(leaseExpiresAt := None, publishedAt := None, lastError := None);
      if resetAttempts {
        row := row.(attemptCount := 0);
      }
      rows := rows[id := row];
      return Hit;
    }
  }
}
