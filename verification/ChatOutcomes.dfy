/**
  What the calls of a run leave behind in a chat request: recorded outcomes, retries, due times and leases, each stated
  in what the calls carried.
  */
module ChatOutcomes {
  import opened Wrappers
  import opened Characters
  import opened ChatGeneration

  // ----- which calls apply

  predicate Due(r: Request, before: Time) {
    match r.recoveryDueAt case Some(due) => due <= before case None => false
  }

  predicate Carries(r: Request, task: string, token: string) {
    r.taskId == Some(task) && r.leaseToken == Some(token)
  }

  predicate WorksOn(r: Request, attempt: int, token: string) {
    r.status == Running && r.attempt == attempt && r.leaseToken == Some(token)
  }

  // A successful outcome carries no error and needs a reply; a failed one carries an error code.
  predicate OutcomeIsComplete(r: Request, target: Status, reply: Option<nat>, mayRetry: bool, code: Option<string>,
                              message: Option<string>) {
    || (target == Succeeded && !mayRetry && code == None && message == None && (reply.Some? || r.assistantMessageId.Some?))
    || (target == Failed && code.Some? && NotBlankColumn(code.value))
  }

  predicate MayApply(r: Request, op: Op) {
    match op
    case Queue(inScope, a, task, token, _, _) =>
      inScope && r.status == Prepared && r.attempt == a && NotBlankColumn(task) && NotBlankColumn(token)
    case Redispatch(a, task, token, expected, max, due, _) =>
      && r.status == Queued && r.attempt == a && Carries(r, task, token) && Due(r, due)
      && r.dispatchAttempts == expected < max
    case FailDue(status, a, expected, task, token, due, _, code, _) =>
      && (status == Prepared || status == Queued || status == Running) && !StripsToNothing(code)
      && r.status == status && r.attempt == a && r.dispatchAttempts == expected && Due(r, due)
      && r.taskId == task && r.leaseToken == token && task != Some("") && token != Some("")
    case Claim(user, session, reply, a, task, token, _, _) =>
      && r.status == Queued && r.attempt == a && Carries(r, task, token)
      && r.userId == user && r.sessionId == session && r.assistantMessageId == Some(reply)
    case Heartbeat(a, token, _, _) => WorksOn(r, a, token)
    case Finalize(a, token, target, _, reply, mayRetry, code, message) =>
      WorksOn(r, a, token) && OutcomeIsComplete(r, target, reply, mayRetry, code, message)
    case Retry(inScope, a, _) => inScope && r.status == Failed && r.retryable && r.attempt == a
  }

  lemma CallsApplyExactlyWhen(r: Request, op: Op, limit: int)
    requires Inv(r, limit) && WithinLimit(op, limit)
    ensures Judge(r, op).Applied? <==> MayApply(r, op)
  {
    if op.FailDue? && !StripsToNothing(op.code) {
      var i :| 0 <= i < |op.code| && !IsSpace(op.code[i]);
      assert op.code[i] != ' ';
    }
  }

  // The argument check and the CHECK constraint differ: an error code of tabs is blank to the one and not to the other.
  lemma TabsAreBlankToPythonOnly(text: string)
    requires text != "" && forall i :: 0 <= i < |text| ==> text[i] == '\t'
    ensures StripsToNothing(text) && NotBlankColumn(text)
  {
    assert text[0] != ' ';
  }

  // ----- outcomes and retries

  // The calls that end an attempt so that it may be retried: a recovery, or a worker that says so.
  predicate EndsRetryably(op: Op, attempt: int) {
    && (op.FailDue? || (op.Finalize? && op.target == Failed && op.mayRetry))
    && op.expectedAttempt == attempt
  }

  // Attempt `a` was ended retryably before n, and nobody has retried it since.
  ghost predicate WaitsForRetry(rows: seq<Request>, ops: seq<Op>, a: int, n: nat)
    requires IsRun(rows, ops) && n <= |ops|
  {
    exists i :: EndedAt(rows, ops, a, i) && i < n && forall k :: i < k < n ==> !(ops[k].Retry? && Succeeds(rows, ops, k))
  }

  ghost predicate EndedAt(rows: seq<Request>, ops: seq<Op>, a: int, i: int)
    requires IsRun(rows, ops)
  {
    Succeeds(rows, ops, i) && EndsRetryably(ops[i], a)
  }

  lemma {:induction false} RetryableRows(rows: seq<Request>, ops: seq<Op>, a: int, n: nat)
    requires IsRun(rows, ops) && rows[0].status.Prepared? && n <= |ops|
    ensures WaitsForRetry(rows, ops, a, n) <==> rows[n].status.Failed? && rows[n].retryable && rows[n].attempt == a
  {
    if n > 0 {
      RetryableRows(rows, ops, a, n - 1);
      RetryableStep(rows[n - 1], ops[n - 1], a);
      WaitingOneMore(rows, ops, a, n);
    }
  }

  lemma WaitingOneMore(rows: seq<Request>, ops: seq<Op>, a: int, n: nat)
    requires IsRun(rows, ops) && 0 < n <= |ops|
    ensures WaitsForRetry(rows, ops, a, n) <==>
            || EndedAt(rows, ops, a, n - 1)
            || (WaitsForRetry(rows, ops, a, n - 1) && !(ops[n - 1].Retry? && Succeeds(rows, ops, n - 1)))
  {
    if WaitsForRetry(rows, ops, a, n - 1) && !(ops[n - 1].Retry? && Succeeds(rows, ops, n - 1)) {
      var i :| EndedAt(rows, ops, a, i) && i < n - 1
               && forall k :: i < k < n - 1 ==> !(ops[k].Retry? && Succeeds(rows, ops, k));
      assert forall k :: i < k < n ==> !(ops[k].Retry? && Succeeds(rows, ops, k));
    }
    if WaitsForRetry(rows, ops, a, n) {
      var i :| EndedAt(rows, ops, a, i) && i < n && forall k :: i < k < n ==> !(ops[k].Retry? && Succeeds(rows, ops, k));
      assert i == n - 1 || (i < n - 1 && WaitsForRetry(rows, ops, a, n - 1));
    }
  }

  lemma RetryableStep(r: Request, op: Op, a: int)
    ensures
      var waits, waits' := r.status.Failed? && r.retryable && r.attempt == a,
                           Next(r, op).status.Failed? && Next(r, op).retryable && Next(r, op).attempt == a;
      waits' <==> (Judge(r, op).Applied? && EndsRetryably(op, a)) || (waits && !(op.Retry? && Judge(r, op).Applied?))
  {
  }

  lemma {:induction false} RunKeepsChecks(rows: seq<Request>, ops: seq<Op>, n: nat)
    requires IsRun(rows, ops) && Checks(rows[0]) && n < |rows|
    ensures Checks(rows[n])
  {
    if n > 0 {
      RunKeepsChecks(rows, ops, n - 1);
    }
  }

  // A retry within scope applies exactly when its attempt was ended by a recovery, or by a worker that declared the
  // failure retryable, and has not been retried since.
  lemma WhenARetryApplies(rows: seq<Request>, ops: seq<Op>, j: nat)
    requires IsRun(rows, ops) && rows[0].status.Prepared? && Checks(rows[0])
    requires j < |ops| && ops[j].Retry? && ops[j].inScope
    ensures Succeeds(rows, ops, j) <==> WaitsForRetry(rows, ops, ops[j].expectedAttempt, j)
  {
    RunKeepsChecks(rows, ops, j);
    RetryableRows(rows, ops, ops[j].expectedAttempt, j);
  }

  // The outcome a call recorded stays on the row, as the call gave it, until the attempt is retried.
  lemma {:induction false} OutcomesAreRecorded(rows: seq<Request>, ops: seq<Op>, i: nat, n: nat)
    requires IsRun(rows, ops) && i < n < |rows| && Succeeds(rows, ops, i) && rows[n].attempt == ops[i].expectedAttempt
    ensures ops[i].Finalize? ==>
              && rows[n].status == ops[i].target && rows[n].finishedAt == Some(ops[i].at)
              && rows[n].retryable == ops[i].mayRetry
              && rows[n].errorCode == ops[i].optionalCode && rows[n].errorMessage == ops[i].optionalMessage
              && rows[n].assistantMessageId == (if ops[i].newReply.Some? then ops[i].newReply else rows[i].assistantMessageId)
    ensures ops[i].FailDue? ==>
              && rows[n].status == Failed && rows[n].finishedAt == Some(ops[i].at) && rows[n].retryable
              && rows[n].errorCode == Some(ops[i].code) && rows[n].errorMessage == Some(ops[i].message)
              && rows[n].assistantMessageId == rows[i].assistantMessageId
  {
    StatementsMoveForward(rows[i], ops[i]);
    if i + 1 < n {
      RunsMoveForward(rows, ops, i + 1, n - 1);
      StatementsMoveForward(rows[n - 1], ops[n - 1]);
      OutcomesAreRecorded(rows, ops, i, n - 1);
    }
  }

  // Only a failed request carries an error or may be retried, and only an ended one has an end.
  lemma {:induction false} ErrorsBelongToFailures(rows: seq<Request>, ops: seq<Op>, n: nat)
    requires IsRun(rows, ops) && n <= |ops|
    requires rows[0] == Created(rows[0].userId, rows[0].sessionId, rows[0].assistantMessageId, rows[0].recoveryDueAt)
    ensures rows[n].status != Failed ==> rows[n].errorCode == None && rows[n].errorMessage == None && !rows[n].retryable
    ensures rows[n].status != Failed && rows[n].status != Succeeded ==> rows[n].finishedAt == None
  {
    if n > 0 {
      ErrorsBelongToFailures(rows, ops, n - 1);
    }
  }

  // Before an attempt is queued its row is that of a new request, but for the attempt number: nothing of an earlier
  // attempt is left, except the reply.
  lemma {:induction false} EveryAttemptStartsAfresh(rows: seq<Request>, ops: seq<Op>, n: nat)
    requires IsRun(rows, ops) && n <= |ops| && rows[n].status.Prepared?
    requires rows[0] == Created(rows[0].userId, rows[0].sessionId, rows[0].assistantMessageId, rows[0].recoveryDueAt)
    ensures rows[n] == Created(rows[0].userId, rows[0].sessionId, rows[n].assistantMessageId, rows[n].recoveryDueAt).(
                         attempt := rows[n].attempt)
  {
    RowsKeepTheirOwner(rows, ops, n);
    if n > 0 && !(Succeeds(rows, ops, n - 1) && ops[n - 1].Retry?) {
      EveryAttemptStartsAfresh(rows, ops, n - 1);
    }
  }

  // ----- due times and leases

  // The earliest instant at which the call lets recovery act on the request next.
  function DueAfter(op: Op): Option<Time> {
    match op
    case Queue(_, _, _, _, _, due) => Some(due)
    case Redispatch(_, _, _, _, _, _, due) => Some(due)
    case Claim(_, _, _, _, _, _, _, lease) => Some(lease)
    case Heartbeat(_, _, _, lease) => Some(lease)
    case Retry(_, _, due) => Some(due)
    case _ => None
  }

  lemma {:induction false} DueTimeStays(rows: seq<Request>, ops: seq<Op>, i: nat, n: nat)
    requires IsRun(rows, ops) && i < n < |rows| && Succeeds(rows, ops, i) && DueAfter(ops[i]).Some?
    requires forall k :: i < k < n && Succeeds(rows, ops, k) ==> DueAfter(ops[k]).None?
    ensures rows[n].status.Terminal() || rows[n].recoveryDueAt == DueAfter(ops[i])
  {
    if i + 1 < n {
      DueTimeStays(rows, ops, i, n - 1);
    }
  }

  // Recovery neither redispatches nor fails a request before the due time that the latest call has set; for a running
  // request that is the lease its worker was given by its claim or its latest heartbeat.
  lemma RecoveryWaitsForTheDueTime(rows: seq<Request>, ops: seq<Op>, i: nat, j: nat)
    requires IsRun(rows, ops) && i < j && Succeeds(rows, ops, i) && DueAfter(ops[i]).Some?
    requires forall k :: i < k < j && Succeeds(rows, ops, k) ==> DueAfter(ops[k]).None?
    requires Succeeds(rows, ops, j) && (ops[j].FailDue? || ops[j].Redispatch?)
    ensures DueAfter(ops[i]).value <= ops[j].dueBefore
  {
    DueTimeStays(rows, ops, i, j);
  }

  // ----- who works on a request

  // The reply that the request carries: the one it was created with, or the latest one a worker has given.
  ghost function LatestReply(rows: seq<Request>, ops: seq<Op>, n: nat): Option<nat>
    requires IsRun(rows, ops) && n <= |ops|
  {
    if n == 0 then rows[0].assistantMessageId
    else if Succeeds(rows, ops, n - 1) && ops[n - 1].Finalize? && ops[n - 1].newReply.Some? then ops[n - 1].newReply
    else LatestReply(rows, ops, n - 1)
  }

  lemma {:induction false} RowsKeepTheirOwner(rows: seq<Request>, ops: seq<Op>, n: nat)
    requires IsRun(rows, ops) && n <= |ops|
    ensures rows[n].userId == rows[0].userId && rows[n].sessionId == rows[0].sessionId
    ensures rows[n].assistantMessageId == LatestReply(rows, ops, n)
  {
    if n > 0 {
      RowsKeepTheirOwner(rows, ops, n - 1);
    }
  }

  ghost predicate QueuedAt(rows: seq<Request>, ops: seq<Op>, i: int, attempt: int, task: Option<string>, token: Option<string>)
    requires IsRun(rows, ops)
  {
    && Succeeds(rows, ops, i) && ops[i].Queue? && ops[i].expectedAttempt == attempt
    && task == Some(ops[i].task) && token == Some(ops[i].token)
  }

  lemma {:induction false} QueuedByACall(rows: seq<Request>, ops: seq<Op>, n: nat)
    requires IsRun(rows, ops) && rows[0].status.Prepared? && n <= |ops|
    requires rows[n].status.Queued? || rows[n].status.Running?
    ensures exists i :: i < n && QueuedAt(rows, ops, i, rows[n].attempt, rows[n].taskId, rows[n].leaseToken)
  {
    if Succeeds(rows, ops, n - 1) && ops[n - 1].Queue? {
      assert QueuedAt(rows, ops, n - 1, rows[n].attempt, rows[n].taskId, rows[n].leaseToken);
    } else {
      QueuedByACall(rows, ops, n - 1);
    }
  }

  // A claim succeeds for the request's own user, session and reply only, under the task and token its attempt was
  // queued with.
  lemma ClaimsAreForTheirRequest(rows: seq<Request>, ops: seq<Op>, j: nat)
    requires IsRun(rows, ops) && rows[0].status.Prepared? && Succeeds(rows, ops, j) && ops[j].Claim?
    ensures ops[j].user == rows[0].userId && ops[j].session == rows[0].sessionId
    ensures LatestReply(rows, ops, j) == Some(ops[j].reply)
    ensures exists i :: i < j && QueuedAt(rows, ops, i, ops[j].expectedAttempt, Some(ops[j].task), Some(ops[j].token))
  {
    RowsKeepTheirOwner(rows, ops, j);
    QueuedByACall(rows, ops, j);
  }

  // ----- what the instants say

  datatype Kind = Queueing | Claiming | Beating

  predicate IsA(op: Op, kind: Kind) {
    match kind
    case Queueing => op.Queue?
    case Claiming => op.Claim?
    case Beating => op.Claim? || op.Heartbeat?
  }

  ghost predicate Latest(rows: seq<Request>, ops: seq<Op>, i: int, n: nat, kind: Kind)
    requires IsRun(rows, ops) && n <= |ops|
  {
    i < n && Succeeds(rows, ops, i) && IsA(ops[i], kind) && forall k :: i < k < n && Succeeds(rows, ops, k) ==> !IsA(ops[k], kind)
  }

  predicate ToldBy(r: Request, op: Op, kind: Kind) {
    match kind
    case Queueing => op.Queue? ==> r.queuedAt == Some(op.at)
    case Claiming => op.Claim? ==> r.startedAt == Some(op.at)
    case Beating => op.Claim? || op.Heartbeat? ==> r.heartbeatAt == Some(op.at) && r.leaseExpiresAt == Some(op.lease)
  }

  predicate Shows(r: Request, kind: Kind) {
    r.status.Running? || (kind.Queueing? && r.status.Queued?)
  }

  // The instants of a kind are those of the row before, unless the call is of the kind.
  lemma StepTells(r: Request, op: Op, kind: Kind)
    requires Shows(Next(r, op), kind)
    ensures if Judge(r, op).Applied? && IsA(op, kind) then ToldBy(Next(r, op), op, kind)
            else Shows(r, kind) && forall other :: ToldBy(r, other, kind) ==> ToldBy(Next(r, op), other, kind)
  {
  }

  // A running request shows when it was queued and claimed, and the heartbeat and lease of its worker's latest call.
  lemma {:induction false} InstantsTellTheRun(rows: seq<Request>, ops: seq<Op>, kind: Kind, n: nat)
    requires IsRun(rows, ops) && rows[0].status.Prepared? && n <= |ops| && Shows(rows[n], kind)
    ensures exists i :: Latest(rows, ops, i, n, kind) && ToldBy(rows[n], ops[i], kind)
  {
    hide Judge, Next, ToldBy;
    if n > 0 {
      StepTells(rows[n - 1], ops[n - 1], kind);
      if Succeeds(rows, ops, n - 1) && IsA(ops[n - 1], kind) {
        assert Latest(rows, ops, n - 1, n, kind);
      } else {
        InstantsTellTheRun(rows, ops, kind, n - 1);
        var i :| Latest(rows, ops, i, n - 1, kind) && ToldBy(rows[n - 1], ops[i], kind);
        assert Latest(rows, ops, i, n, kind);
      }
    }
  }
}
