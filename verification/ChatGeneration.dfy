/**
  One durable chat generation request and the conditional UPDATE statements of the chat repository.

  PREPARED -> QUEUED -> RUNNING -> SUCCEEDED or FAILED; a retryable FAILED request opens its next attempt.
  An `Op` is one call: `Raises` is its argument check, `Admits` its WHERE clause, `After` its VALUES clause; the
  table's CHECK constraints can still refuse the new row.
  */
module ChatGeneration {
  import opened Wrappers
  import opened Characters

  datatype Status = Prepared | Queued | Running | Succeeded | Failed {
    predicate Terminal() { Succeeded? || Failed? }
  }

  datatype Request = Request(
    userId: nat,
    sessionId: nat,
    assistantMessageId: Option<nat>,
    status: Status,
    attempt: int,
    taskId: Option<string>,
    leaseToken: Option<string>,
    dispatchAttempts: int,
    retryable: bool,
    errorCode: Option<string>,
    errorMessage: Option<string>,
    queuedAt: Option<Time>,
    startedAt: Option<Time>,
    heartbeatAt: Option<Time>,
    leaseExpiresAt: Option<Time>,
    recoveryDueAt: Option<Time>,
    finishedAt: Option<Time>)

  function Created(userId: nat, sessionId: nat, messageId: Option<nat>, recoveryDueAt: Option<Time>): Request {
    Request(userId, sessionId, messageId, Prepared, 1, None, None, 0, false, None, None,
            None, None, None, None, recoveryDueAt, None)
  }

  // `inScope` stands for the actor scope: ownership, a live session and tenant membership.
  datatype Op =
    | Queue(inScope: bool, expectedAttempt: int, task: string, token: string, at: Time, nextDue: Time)
    | Redispatch(expectedAttempt: int, task: string, token: string, expectedDispatches: int, maxDispatches: int,
                 dueBefore: Time, nextDue: Time)
    | FailDue(expectedStatus: Status, expectedAttempt: int, expectedDispatches: int, taskFence: Option<string>,
              tokenFence: Option<string>, dueBefore: Time, at: Time, code: string, message: string)
    | Claim(user: nat, session: nat, reply: nat, expectedAttempt: int, task: string, token: string, at: Time, lease: Time)
    | Heartbeat(expectedAttempt: int, token: string, at: Time, lease: Time)
    | Finalize(expectedAttempt: int, token: string, target: Status, at: Time, newReply: Option<nat>,
               mayRetry: bool, optionalCode: Option<string>, optionalMessage: Option<string>)
    | Retry(inScope: bool, expectedAttempt: int, nextDue: Time)
  {
    predicate Raises() {
      match this
      case Redispatch(_, _, _, expected, max, _, _) => expected < 1 || max < 1
      case FailDue(st, _, _, task, token, _, _, code, _) =>
        || st.Terminal()
        || StripsToNothing(code)
        || (st.Prepared? && (task.Some? || token.Some?))
        || (!st.Prepared? && (task == Some("") || token == Some("")))
      case Finalize(_, _, target, _, _, mayRetry, code, message) =>
        || !target.Terminal()
        || (target.Succeeded? && (mayRetry || code.Some? || message.Some?))
        || (target.Failed? && (code.None? || code.value == ""))
      case _ => false
    }

    predicate Admits(r: Request) {
      match this
      case Queue(inScope, a, _, _, _, _) => r.status.Prepared? && r.attempt == a && inScope
      case Redispatch(a, task, token, expected, max, due, _) =>
        && r.status.Queued? && r.attempt == a && r.taskId == Some(task) && r.leaseToken == Some(token)
        && r.dispatchAttempts == expected && r.dispatchAttempts < max && NotAfter(r.recoveryDueAt, due)
      case FailDue(st, a, expected, task, token, due, _, _, _) =>
        && r.status == st && r.attempt == a && r.dispatchAttempts == expected && NotAfter(r.recoveryDueAt, due)
        && r.taskId == task && r.leaseToken == token
      case Claim(user, session, reply, a, task, token, _, _) =>
        && r.userId == user && r.sessionId == session && r.assistantMessageId == Some(reply) && r.status.Queued?
        && r.attempt == a && r.taskId == Some(task) && r.leaseToken == Some(token)
      case Heartbeat(a, token, _, _) => r.status.Running? && r.attempt == a && r.leaseToken == Some(token)
      case Finalize(a, token, _, _, _, _, _, _) => r.status.Running? && r.attempt == a && r.leaseToken == Some(token)
      case Retry(inScope, a, _) => r.status.Failed? && r.retryable && r.attempt == a && inScope
    }

    function After(r: Request): Request {
      match this
      case Queue(_, _, task, token, at, due) =>
        r.(status := Queued, taskId := Some(task), leaseToken := Some(token), dispatchAttempts := r.dispatchAttempts + 1,
           queuedAt := Some(at), recoveryDueAt := Some(due), retryable := false, errorCode := None,
           errorMessage := None, finishedAt := None)
      case Redispatch(_, _, _, _, _, _, due) =>
        r.(dispatchAttempts := r.dispatchAttempts + 1, recoveryDueAt := Some(due))
      case FailDue(_, _, _, _, _, _, at, code, message) =>
        r.(status := Failed, retryable := true, errorCode := Some(code), errorMessage := Some(message),
           recoveryDueAt := None, finishedAt := Some(at))
      case Claim(_, _, _, _, _, _, at, lease) =>
        r.(status := Running, startedAt := Some(at), heartbeatAt := Some(at), leaseExpiresAt := Some(lease),
           recoveryDueAt := Some(lease))
      case Heartbeat(_, _, at, lease) =>
        r.(heartbeatAt := Some(at), leaseExpiresAt := Some(lease), recoveryDueAt := Some(lease))
      case Finalize(_, _, target, at, reply, mayRetry, code, message) =>
        r.(status := target, finishedAt := Some(at), recoveryDueAt := None, retryable := target.Failed? && mayRetry,
           errorCode := if target.Failed? then code else None, errorMessage := if target.Failed? then message else None,
           assistantMessageId := if reply.Some? then reply else r.assistantMessageId)
      case Retry(_, _, due) =>
        r.(status := Prepared, attempt := r.attempt + 1, dispatchAttempts := 0, taskId := None, leaseToken := None,
           retryable := false, errorCode := None, errorMessage := None, queuedAt := None, startedAt := None,
           heartbeatAt := None, leaseExpiresAt := None, recoveryDueAt := Some(due), finishedAt := None)
    }
  }

  // ----- the CHECK constraints

  predicate NotBlank(column: Option<string>) {
    column.Some? && NotBlankColumn(column.value)
  }

  predicate Checks(r: Request) {
    && r.attempt >= 1
    && r.dispatchAttempts >= 0
    && (r.status.Failed? || !r.retryable)
    && (r.status.Terminal() <==> r.finishedAt.Some?)
    && (r.status.Failed? ==> NotBlank(r.errorCode))
    && (r.status.Succeeded? ==> r.assistantMessageId.Some?)
    && (r.status.Queued? || r.status.Running? ==> NotBlank(r.taskId) && NotBlank(r.leaseToken))
  }

  datatype Verdict = Applied | NoRow | ArgumentError | IntegrityError

  function Judge(r: Request, op: Op): Verdict {
    if op.Raises() then ArgumentError
    else if !op.Admits(r) then NoRow
    else if !Checks(op.After(r)) then IntegrityError
    else Applied
  }

  function Next(r: Request, op: Op): Request {
    if Judge(r, op).Applied? then op.After(r) else r
  }

  // ----- what every statement keeps

  predicate Inv(r: Request, redispatchLimit: int) {
    && Checks(r)
    && (!r.status.Terminal() <==> r.recoveryDueAt.Some?)
    && (r.status.Running? ==> r.leaseExpiresAt.Some? && r.recoveryDueAt == r.leaseExpiresAt)
    && (r.status.Prepared? ==> r.dispatchAttempts == 0 && r.taskId.None? && r.leaseToken.None?)
    && (r.status.Queued? || r.status.Running? ==> r.dispatchAttempts >= 1)
    && r.dispatchAttempts <= Larger(1, redispatchLimit)
  }

  predicate WithinLimit(op: Op, redispatchLimit: int) {
    op.Redispatch? ==> op.maxDispatches <= redispatchLimit
  }

  lemma CreationEstablishesInv(userId: nat, sessionId: nat, messageId: Option<nat>, due: Option<Time>, limit: int)
    ensures Inv(Created(userId, sessionId, messageId, due), limit) <==> due.Some?
  {
  }

  lemma InvKept(r: Request, op: Op, limit: int)
    requires Inv(r, limit) && WithinLimit(op, limit)
    ensures Inv(Next(r, op), limit)
  {
  }

  // The constraints refuse an admitted statement in exactly these cases: a blank task or lease token, an error code
  // of spaces only (the finalize guard tests for the empty string, the column test for blanks), or a success
  // without any reply message.
  lemma WhenTheTableRefuses(r: Request, op: Op, limit: int)
    requires Inv(r, limit) && WithinLimit(op, limit) && !op.Raises() && op.Admits(r)
    ensures Judge(r, op).IntegrityError? <==>
            || (op.Queue? && !(NotBlankColumn(op.task) && NotBlankColumn(op.token)))
            || (op.Finalize? && op.target.Failed? && !NotBlankColumn(op.optionalCode.value))
            || (op.Finalize? && op.target.Succeeded? && op.newReply.None? && r.assistantMessageId.None?)
  {
    if op.FailDue? {
      var i :| 0 <= i < |op.code| && !IsSpace(op.code[i]);
      assert op.code[i] != ' ';
    }
  }

  // Such a refusal from the first call on: queue, claim, and finalize as failed with the error code " ".
  lemma ABlankErrorCodeIsRefused(userId: nat, sessionId: nat, reply: nat, due: Time)
    returns (rows: seq<Request>, ops: seq<Op>)
    ensures IsRun(rows, ops) && rows[0] == Created(userId, sessionId, Some(reply), Some(due)) && |ops| == 3
    ensures rows[2].status.Running? && ops[2].Finalize? && !ops[2].Raises() && ops[2].Admits(rows[2])
    ensures Judge(rows[2], ops[2]).IntegrityError? && rows[3] == rows[2]
  {
    var queue := Queue(true, 1, "task", "token", 1, 2);
    var claim := Claim(userId, sessionId, reply, 1, "task", "token", 3, 4);
    var fail := Finalize(1, "token", Failed, 4, None, true, Some(" "), None);
    var created := Created(userId, sessionId, Some(reply), Some(due));
    assert "task"[0] != ' ' && "token"[0] != ' ';
    var queued := queue.After(created);
    assert Next(created, queue) == queued;
    var running := claim.After(queued);
    assert Next(queued, claim) == running;
    rows, ops := [created, queued, running, running], [queue, claim, fail];
  }

  // Recovery never fails a worker whose lease is still running.
  lemma LiveLeaseIsNeverFailed(r: Request, op: Op, limit: int)
    requires Inv(r, limit) && op.FailDue? && Judge(r, op).Applied? && r.status.Running?
    ensures r.leaseExpiresAt.Some? && r.leaseExpiresAt.value <= op.dueBefore
  {
  }

  // ----- runs: any calls in any order, successful or not

  ghost predicate IsRun(rows: seq<Request>, ops: seq<Op>) {
    |rows| == |ops| + 1 && forall i :: 0 <= i < |ops| ==> rows[i + 1] == Next(rows[i], ops[i])
  }

  ghost predicate Succeeds(rows: seq<Request>, ops: seq<Op>, i: int)
    requires IsRun(rows, ops)
  {
    0 <= i < |ops| && Judge(rows[i], ops[i]).Applied?
  }

  lemma {:induction false} RunKeepsInv(rows: seq<Request>, ops: seq<Op>, limit: int, n: nat)
    requires IsRun(rows, ops) && Inv(rows[0], limit) && n < |rows|
    requires forall i :: 0 <= i < |ops| ==> WithinLimit(ops[i], limit)
    ensures Inv(rows[n], limit)
  {
    if n > 0 {
      RunKeepsInv(rows, ops, limit, n - 1);
      InvKept(rows[n - 1], ops[n - 1], limit);
    }
  }

  // How far the request has come: the attempt first, then the stage within it.
  function Progress(r: Request): int {
    4 * r.attempt + match r.status case Prepared => 0 case Queued => 1 case Running => 2 case _ => 3
  }

  lemma StatementsMoveForward(r: Request, op: Op)
    ensures Progress(r) <= Progress(Next(r, op))
    ensures Judge(r, op).Applied? ==>
              && op.expectedAttempt == r.attempt
              && (op.Queue? ==> Progress(r) == 4 * r.attempt && Progress(Next(r, op)) == 4 * r.attempt + 1)
              && (op.Claim? ==> Progress(r) == 4 * r.attempt + 1 && Progress(Next(r, op)) == 4 * r.attempt + 2)
              && (op.FailDue? || op.Finalize? ==> Progress(r) < 4 * r.attempt + 3 && Progress(Next(r, op)) == 4 * r.attempt + 3)
              && (op.Retry? ==> Progress(r) == 4 * r.attempt + 3 && Progress(Next(r, op)) == 4 * r.attempt + 4)
              && (!op.Retry? ==> Progress(r) < 4 * r.attempt + 3)
  {
  }

  lemma {:induction false} RunsMoveForward(rows: seq<Request>, ops: seq<Op>, i: nat, j: nat)
    requires IsRun(rows, ops) && i <= j < |rows|
    ensures Progress(rows[i]) <= Progress(rows[j])
    ensures rows[i].status.Succeeded? ==> rows[j] == rows[i]
  {
    if i < j {
      RunsMoveForward(rows, ops, i, j - 1);
      StatementsMoveForward(rows[j - 1], ops[j - 1]);
    }
  }

  // At most one worker claims an attempt, and at most one terminal outcome is recorded for it.
  lemma AtMostOnceExecution(rows: seq<Request>, ops: seq<Op>, i: nat, j: nat)
    requires IsRun(rows, ops) && i < j && Succeeds(rows, ops, i) && Succeeds(rows, ops, j)
    requires (ops[i].Claim? && ops[j].Claim?) || ((ops[i].FailDue? || ops[i].Finalize?) && (ops[j].FailDue? || ops[j].Finalize?))
    ensures ops[i].expectedAttempt < ops[j].expectedAttempt
  {
    StatementsMoveForward(rows[i], ops[i]);
    StatementsMoveForward(rows[j], ops[j]);
    RunsMoveForward(rows, ops, i + 1, j);
  }

  // Once an attempt has ended, the only call carrying its number that still succeeds is the retry that opens the
  // next attempt; after that retry, or after a success, there is none.
  lemma EndedAttemptsStayEnded(rows: seq<Request>, ops: seq<Op>, i: nat, j: nat)
    requires IsRun(rows, ops) && i < j && Succeeds(rows, ops, i) && Succeeds(rows, ops, j)
    requires ops[i].FailDue? || ops[i].Finalize? || ops[i].Retry?
    ensures ops[j].expectedAttempt == ops[i].expectedAttempt ==> ops[j].Retry? && !ops[i].Retry? && rows[i + 1].status.Failed?
  {
    StatementsMoveForward(rows[i], ops[i]);
    StatementsMoveForward(rows[j], ops[j]);
    RunsMoveForward(rows, ops, i + 1, j);
  }

  // A worker statement that succeeds carries the token its attempt was queued with.
  lemma {:induction false} OneTokenPerAttempt(rows: seq<Request>, ops: seq<Op>, i: nat, n: nat)
    requires IsRun(rows, ops) && i < n < |rows| && Succeeds(rows, ops, i) && ops[i].Queue?
    ensures rows[n].attempt == ops[i].expectedAttempt ==>
              rows[n].leaseToken == Some(ops[i].token) && rows[n].taskId == Some(ops[i].task)
    ensures n < |ops| && Succeeds(rows, ops, n) && ops[n].expectedAttempt == ops[i].expectedAttempt ==>
              && !ops[n].Queue?
              && (ops[n].Claim? || ops[n].Heartbeat? || ops[n].Finalize? || ops[n].Redispatch? ==> ops[n].token == ops[i].token)
  {
    if i + 1 < n {
      OneTokenPerAttempt(rows, ops, i, n - 1);
      StatementsMoveForward(rows[n - 1], ops[n - 1]);
    }
    StatementsMoveForward(rows[i], ops[i]);
    RunsMoveForward(rows, ops, i + 1, n);
  }

  // ----- bounded delivery

  predicate HandsOver(op: Op) {
    op.Queue? || op.Redispatch?
  }

  // Messages handed to the broker for attempt `a`: the queueing and every redispatch.
  ghost function Dispatches(rows: seq<Request>, ops: seq<Op>, a: int, n: nat): nat
    requires IsRun(rows, ops) && n <= |ops|
  {
    if n == 0 then 0
    else Dispatches(rows, ops, a, n - 1)
         + if Succeeds(rows, ops, n - 1) && HandsOver(ops[n - 1]) && ops[n - 1].expectedAttempt == a then 1 else 0
  }

  lemma {:induction false} DeliveryIsBounded(rows: seq<Request>, ops: seq<Op>, limit: int, a: int, n: nat)
    requires IsRun(rows, ops) && Inv(rows[0], limit) && rows[0].status.Prepared? && rows[0].attempt == 1 && n <= |ops|
    requires forall i :: 0 <= i < |ops| ==> WithinLimit(ops[i], limit)
    ensures Dispatches(rows, ops, a, n) <= Larger(1, limit)
    ensures rows[n].attempt == a ==> Dispatches(rows, ops, a, n) == rows[n].dispatchAttempts
    ensures rows[n].attempt < a ==> Dispatches(rows, ops, a, n) == 0
  {
    RunKeepsInv(rows, ops, limit, n);
    if n > 0 {
      DeliveryIsBounded(rows, ops, limit, a, n - 1);
      RunKeepsInv(rows, ops, limit, n - 1);
      StatementsMoveForward(rows[n - 1], ops[n - 1]);
    }
  }

  // ----- the row in the table

  class ChatRequestRow {
    var row: Request

    constructor (userId: nat, sessionId: nat, messageId: Option<nat>, recoveryDueAt: Option<Time>)
      ensures row == Created(userId, sessionId, messageId, recoveryDueAt)
    {
      row := Request(userId, sessionId, messageId, Prepared, 1, None, None, 0, false, None, None,
                     None, None, None, None, recoveryDueAt, None);
    }

    // The end of an UPDATE: the table accepts the new row or raises.
    method Store(updated: Request) returns (verdict: Verdict)
      modifies this
      ensures verdict == if Checks(updated) then Applied else IntegrityError
      ensures row == if Checks(updated) then updated else old(row)
    {
      if !Checks(updated) {
        return IntegrityError;
      }
      row := updated;
      return Applied;
    }

    method TryQueueGenerationRequest(
      inScope: bool, expectedAttempt: int, task: string, token: string, queuedAt: Time, recoveryDueAt: Time)
      returns (verdict: Verdict)
      modifies this
      ensures verdict == Judge(old(row), Queue(inScope, expectedAttempt, task, token, queuedAt, recoveryDueAt))
      ensures row == Next(old(row), Queue(inScope, expectedAttempt, task, token, queuedAt, recoveryDueAt))
    {
      if row.status != Prepared || row.attempt != expectedAttempt || !inScope {
        return NoRow;
      }
      var updated := row.(status := Queued, taskId := Some(task), leaseToken := Some(token));
      updated := updated.(dispatchAttempts := row.dispatchAttempts + 1, queuedAt := Some(queuedAt));
      updated := updated.(recoveryDueAt := Some(recoveryDueAt), retryable := false, finishedAt := None);
      verdict := Store(updated.(errorCode := None, errorMessage := None));
    }

    method TryReserveGenerationRequestRedispatch(
      expectedAttempt: int, task: string, token: string, expectedDispatches: int, maxDispatches: int,
      dueBefore: Time, nextRecoveryDueAt: Time)
      returns (verdict: Verdict, dispatchAttempts: Option<int>)
      modifies this
      ensures
        var op := Redispatch(expectedAttempt, task, token, expectedDispatches, maxDispatches, dueBefore, nextRecoveryDueAt);
        verdict == Judge(old(row), op) && row == Next(old(row), op)
      ensures dispatchAttempts == if verdict.Applied? then Some(old(row).dispatchAttempts + 1) else None
    {
      if expectedDispatches < 1 || maxDispatches < 1 {
        return ArgumentError, None;
      }
      if row.status != Queued || row.attempt != expectedAttempt || row.taskId != Some(task) || row.leaseToken != Some(token)
         || row.dispatchAttempts != expectedDispatches || row.dispatchAttempts >= maxDispatches
         || row.recoveryDueAt.None? || row.recoveryDueAt.value > dueBefore {
        return NoRow, None;
      }
      var reserved := row.dispatchAttempts + 1;
      verdict := Store(row.(dispatchAttempts := reserved, recoveryDueAt := Some(nextRecoveryDueAt)));
      dispatchAttempts := if verdict == Applied then Some(reserved) else None;
    }

    method TryFailDueGenerationRequest(
      expectedStatus: Status, expectedAttempt: int, expectedDispatches: int, task: Option<string>, token: Option<string>,
      dueBefore: Time, finishedAt: Time, errorCode: string, errorMessage: string)
      returns (verdict: Verdict)
      modifies this
      ensures
        var op := FailDue(expectedStatus, expectedAttempt, expectedDispatches, task, token, dueBefore, finishedAt,
                          errorCode, errorMessage);
        verdict == Judge(old(row), op) && row == Next(old(row), op)
    {
      if expectedStatus != Prepared && expectedStatus != Queued && expectedStatus != Running {
        return ArgumentError;
      }
      if StripsToNothing(errorCode) {
        return ArgumentError;
      }
      if row.status != expectedStatus || row.attempt != expectedAttempt || row.dispatchAttempts != expectedDispatches
         || row.recoveryDueAt.None? || row.recoveryDueAt.value > dueBefore {
        verdict := NoRow;
      } else {
        verdict := Applied;
      }
      if expectedStatus == Prepared {
        if task.Some? || token.Some? {
          return ArgumentError;
        }
      } else if task == Some("") || token == Some("") {
        return ArgumentError;
      }
      if verdict == Applied && row.taskId == task && row.leaseToken == token {
        var updated := row.(status := Failed, retryable := true, errorCode := Some(errorCode));
        updated := updated.(errorMessage := Some(errorMessage), recoveryDueAt := None, finishedAt := Some(finishedAt));
        verdict := Store(updated);
      } else {
        verdict := NoRow;
      }
    }

    method TryClaimGenerationRequest(
      userId: nat, sessionId: nat, replyId: nat, expectedAttempt: int, task: string, token: string,
      startedAt: Time, leaseExpiresAt: Time)
      returns (verdict: Verdict)
      modifies this
      ensures
        var op := Claim(userId, sessionId, replyId, expectedAttempt, task, token, startedAt, leaseExpiresAt);
        verdict == Judge(old(row), op) && row == Next(old(row), op)
    {
      if row.userId != userId || row.sessionId != sessionId || row.assistantMessageId != Some(replyId)
         || row.status != Queued || row.attempt != expectedAttempt || row.taskId != Some(task) || row.leaseToken != Some(token) {
        return NoRow;
      }
      var updated := row.(status := Running, startedAt := Some(startedAt), heartbeatAt := Some(startedAt));
      verdict := Store(updated.(leaseExpiresAt := Some(leaseExpiresAt), recoveryDueAt := Some(leaseExpiresAt)));
    }

    method TryHeartbeatGenerationRequest(expectedAttempt: int, token: string, heartbeatAt: Time, leaseExpiresAt: Time)
      returns (verdict: Verdict)
      modifies this
      ensures verdict == Judge(old(row), Heartbeat(expectedAttempt, token, heartbeatAt, leaseExpiresAt))
      ensures row == Next(old(row), Heartbeat(expectedAttempt, token, heartbeatAt, leaseExpiresAt))
    {
      if row.status != Running || row.attempt != expectedAttempt || row.leaseToken != Some(token) {
        return NoRow;
      }
      var updated := row.(heartbeatAt := Some(heartbeatAt), leaseExpiresAt := Some(leaseExpiresAt));
      verdict := Store(updated.(recoveryDueAt := Some(leaseExpiresAt)));
    }

    method TryFinalizeGenerationRequest(
      expectedAttempt: int, token: string, target: Status, finishedAt: Time, replyId: Option<nat>,
      retryable: bool, errorCode: Option<string>, errorMessage: Option<string>)
      returns (verdict: Verdict)
      modifies this
      ensures
        var op := Finalize(expectedAttempt, token, target, finishedAt, replyId, retryable, errorCode, errorMessage);
        verdict == Judge(old(row), op) && row == Next(old(row), op)
    {
      if target != Succeeded && target != Failed {
        return ArgumentError;
      }
      if target == Succeeded {
        if retryable || errorCode.Some? || errorMessage.Some? {
          return ArgumentError;
        }
      } else if errorCode.None? || errorCode.value == "" {
        return ArgumentError;
      }
      if row.status != Running || row.attempt != expectedAttempt || row.leaseToken != Some(token) {
        return NoRow;
      }
      var updated := row.(status := target, finishedAt := Some(finishedAt), recoveryDueAt := None);
      updated := updated.(retryable := if target == Failed then retryable else false);
      updated := updated.(errorCode := if target == Failed then errorCode else None);
      updated := updated.(errorMessage := if target == Failed then errorMessage else None);
      if replyId.Some? {
        updated := updated.(assistantMessageId := replyId);
      }
      verdict := Store(updated);
    }

    method TryRetryGenerationRequest(inScope: bool, expectedAttempt: int, recoveryDueAt: Time)
      returns (verdict: Verdict, nextAttempt: Option<int>)
      modifies this
      ensures verdict == Judge(old(row), Retry(inScope, expectedAttempt, recoveryDueAt))
      ensures row == Next(old(row), Retry(inScope, expectedAttempt, recoveryDueAt))
      ensures nextAttempt == if verdict.Applied? then Some(old(row).attempt + 1) else None
    {
      if row.status != Failed || !row.retryable || row.attempt != expectedAttempt || !inScope {
        return NoRow, None;
      }
      var updated := row.(status := Prepared, attempt := row.attempt + 1, dispatchAttempts := 0, retryable := false);
      updated := updated.(taskId := None, leaseToken := None, errorCode := None, errorMessage := None);
      updated := updated.(queuedAt := None, startedAt := None, heartbeatAt := None, leaseExpiresAt := None);
      updated := updated.(recoveryDueAt := Some(recoveryDueAt), finishedAt := None);
      verdict := Store(updated);
      nextAttempt := if verdict == Applied then Some(updated.attempt) else None;
    }
  }
}
