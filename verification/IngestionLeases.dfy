/**
  What a lease is worth over a run, and what the columns of a row say about the steps that wrote them.

  Every property here speaks of the instants and texts that the steps of a run carry, not of the columns between them.
  */
module IngestionLeases {
  import opened Wrappers
  import opened TaskRepo
  import opened TaskOutboxRepo
  import opened KnowledgeRepo
  import opened IngestionProtocol
  import opened IngestionRuns

  // ----- job leases

  // Steps that hand the job's worker a lease: the claim, the heartbeat, and each transaction of the worker.
  predicate Renews(step: Step, t: TaskId) {
    && (step.WorkerClaim? || step.WorkerHeartbeat? || step.WorkerParse? || step.WorkerIndex? || step.WorkerCleanup?)
    && step.t == t
  }

  predicate TakesAway(step: Step, t: TaskId) {
    (step.Reset? || step.FailExpiredPair?) && step.t == t
  }

  predicate Finishes(step: Step, t: TaskId) {
    (step.WorkerComplete? || step.CompleteReady?) && step.t == t
  }

  predicate Fails(step: Step, t: TaskId) {
    (step.WorkerFail? || step.FailTaskOnly? || step.GapFail? || step.FailExpiredPair?) && step.t == t
  }

  // Under way on the attempt of `before`, with the same three instants.
  predicate SameHold(before: Option<TaskRow>, after: TaskRow) {
    && before.Some? && before.value.status == after.status && before.value.attemptCount == after.attemptCount
    && before.value.leaseExpiresAt == after.leaseExpiresAt && before.value.heartbeatAt == after.heartbeatAt
    && before.value.startedAt == after.startedAt
  }

  predicate SameEnd(before: Option<TaskRow>, after: TaskRow) {
    && before.Some? && before.value.status == after.status && before.value.finishedAt == after.finishedAt
    && before.value.errorLog == after.errorLog
  }

  predicate Records(step: Step, t: TaskId, before: Option<TaskRow>, after: TaskRow) {
    match after.status
    case Processing =>
      if Renews(step, t) then
        && after.leaseExpiresAt == Some(step.lease) && after.heartbeatAt == Some(step.now)
        && (if step.WorkerClaim? then after.startedAt == Some(step.now)
            else
              && before.Some? && before.value.status.Processing? && after.startedAt == before.value.startedAt
              && after.attemptCount == before.value.attemptCount)
      else SameHold(before, after)
    case Completed =>
      if Finishes(step, t) then after.finishedAt == Some(step.now) && after.errorLog == None else SameEnd(before, after)
    case Failed =>
      if Fails(step, t) then
        && after.finishedAt == Some(step.now)
        && after.errorLog == Some(if |step.error| <= 5000 then step.error else step.error[..5000])
      else SameEnd(before, after)
    case _ => true
  }

  lemma StepWrites(c: Config, s: System, step: Step, s': System, t: TaskId)
    requires Commit(c, s, step) == Some(s') && t in s'.db.tasks
    ensures Records(step, t, Task(s, t), s'.db.tasks[t])
  {
    if step.Reset? || step.ManualReplay? {
      ReopeningWrites(c, s, step, s', t);
    } else if step.FailExpiredPair? || step.GapFail? {
      PairFailureWrites(c, s, step, s', t);
    } else if step.WorkerParse? || step.WorkerIndex? || step.WorkerCleanup? {
      WorkerWrites(c, s, step, s', t);
    } else if TaskOf(step) == Some(t) {
      OwnStepWrites(c, s, step, s', t);
    } else {
      OtherJobsKeepTheirRows(c, s, step, s', t);
    }
  }

  lemma ReopeningWrites(c: Config, s: System, step: Step, s': System, t: TaskId)
    requires Commit(c, s, step) == Some(s') && t in s'.db.tasks && (step.Reset? || step.ManualReplay?)
    ensures Records(step, t, Task(s, t), s'.db.tasks[t])
  {
    if step.Reset? {
      ResetWrites(s.db, step.t, FileOf(s.db, step.t).value, step.attempt, step.fileSeen, step.outboxSeen, step.now,
                  step.legacy, step.error, s'.db);
    } else {
      ReplayWrites(s.db, step.t, step.publishAttempt, step.now, s'.db);
    }
    hide Commit, ResetTx, ManualReplayTx;
  }

  lemma PairFailureWrites(c: Config, s: System, step: Step, s': System, t: TaskId)
    requires Commit(c, s, step) == Some(s') && t in s'.db.tasks && (step.FailExpiredPair? || step.GapFail?)
    ensures Records(step, t, Task(s, t), s'.db.tasks[t])
  {
  }

  lemma WorkerWrites(c: Config, s: System, step: Step, s': System, t: TaskId)
    requires Commit(c, s, step) == Some(s') && t in s'.db.tasks
    requires step.WorkerParse? || step.WorkerIndex? || step.WorkerCleanup?
    ensures Records(step, t, Task(s, t), s'.db.tasks[t])
  {
  }

  lemma OtherJobsKeepTheirRows(c: Config, s: System, step: Step, s': System, t: TaskId)
    requires Commit(c, s, step) == Some(s') && t in s'.db.tasks && TaskOf(step) != Some(t)
    requires !step.Reset? && !step.ManualReplay? && !step.FailExpiredPair? && !step.GapFail?
    ensures t in s.db.tasks && (s'.db.tasks[t] == s.db.tasks[t] || s'.db.tasks[t] == s.db.tasks[t].(fileId := None))
  {
  }

  lemma OwnStepWrites(c: Config, s: System, step: Step, s': System, t: TaskId)
    requires Commit(c, s, step) == Some(s') && t in s'.db.tasks && TaskOf(step) == Some(t) && !step.Reset? && !step.ManualReplay?
    requires !step.FailExpiredPair? && !step.GapFail? && !step.WorkerParse? && !step.WorkerIndex? && !step.WorkerCleanup?
    ensures Records(step, t, Task(s, t), s'.db.tasks[t])
  {
  }

  // A lease that was handed out protects its attempt: no reset and no expiry of that attempt commits before the lease
  // has run out, unless a later renewal replaced it.
  lemma AHandedOutLeaseHolds(c: Config, states: seq<System>, steps: seq<Step>, t: TaskId, i: nat, j: nat)
    requires IsRun(c, states, steps) && i < j < |steps| && Renews(steps[i], t) && TakesAway(steps[j], t)
    requires t in states[i + 1].db.tasks && steps[j].attempt == states[i + 1].db.tasks[t].attemptCount
    requires forall k :: i < k < j ==> !Renews(steps[k], t)
    ensures steps[j].now >= steps[i].lease
  {
    TheLeaseStays(c, states, steps, t, i, j);
    LeaseIsTested(c, states[j], steps[j], states[j + 1], t);
  }

  lemma {:induction false} TheLeaseStays(c: Config, states: seq<System>, steps: seq<Step>, t: TaskId, i: nat, n: nat)
    requires IsRun(c, states, steps) && i < n < |states| && Renews(steps[i], t)
    requires forall k :: i < k < n ==> !Renews(steps[k], t)
    ensures t in states[i + 1].db.tasks && t in states[n].db.tasks
    ensures states[n].db.tasks[t].status.Processing? ==> states[n].db.tasks[t].leaseExpiresAt == Some(steps[i].lease)
  {
    hide Commit;
    if n == i + 1 {
      StepMovesTask(c, states[i], steps[i], states[n], t);
    } else {
      TheLeaseStays(c, states, steps, t, i, n - 1);
      StepMovesTask(c, states[n - 1], steps[n - 1], states[n], t);
    }
    StepWrites(c, states[n - 1], steps[n - 1], states[n], t);
  }

  lemma LeaseIsTested(c: Config, s: System, step: Step, s': System, t: TaskId)
    requires Commit(c, s, step) == Some(s') && TakesAway(step, t)
    ensures t in s.db.tasks && s.db.tasks[t].status.Processing? && s.db.tasks[t].attemptCount == step.attempt
    ensures s.db.tasks[t].leaseExpiresAt.Some? ==> s.db.tasks[t].leaseExpiresAt.value <= step.now
  {
  }

  // ----- what the columns of a job say

  datatype Kind = Claiming | Renewal | Completion | Failure

  predicate IsA(step: Step, kind: Kind, t: TaskId) {
    match kind
    case Claiming => step.WorkerClaim? && step.t == t
    case Renewal => Renews(step, t)
    case Completion => Finishes(step, t)
    case Failure => Fails(step, t)
  }

  // Step i is the last of its kind among the first n.
  ghost predicate Latest(steps: seq<Step>, i: int, n: nat, kind: Kind, t: TaskId)
    requires n <= |steps|
  {
    0 <= i < n && IsA(steps[i], kind, t) && forall k :: i < k < n ==> !IsA(steps[k], kind, t)
  }

  ghost predicate ToldBy(row: TaskRow, step: Step, kind: Kind) {
    match kind
    case Claiming => step.WorkerClaim? ==> row.startedAt == Some(step.now)
    case Renewal =>
      step.WorkerClaim? || step.WorkerHeartbeat? || step.WorkerParse? || step.WorkerIndex? || step.WorkerCleanup? ==>
        row.leaseExpiresAt == Some(step.lease) && row.heartbeatAt == Some(step.now)
    case Completion => step.WorkerComplete? || step.CompleteReady? ==> row.finishedAt == Some(step.now) && row.errorLog == None
    case Failure =>
      step.WorkerFail? || step.FailTaskOnly? || step.GapFail? || step.FailExpiredPair? ==>
        && row.finishedAt == Some(step.now)
        && row.errorLog == Some(if |step.error| <= 5000 then step.error else step.error[..5000])
  }

  predicate Concerns(row: TaskRow, kind: Kind) {
    match kind
    case Claiming => row.status.Processing?
    case Renewal => row.status.Processing?
    case Completion => row.status.Completed?
    case Failure => row.status.Failed?
  }

  // In a run that creates the job, its instants and its error are those of the latest step of each kind: lease and
  // heartbeat of the latest renewal, the start of the latest claim, end and error of the step that ended it.
  lemma {:induction false} ColumnsTellTheRun(c: Config, states: seq<System>, steps: seq<Step>, t: TaskId, kind: Kind, n: nat)
    requires IsRun(c, states, steps) && n < |states| && t !in states[0].db.tasks && t in states[n].db.tasks
    requires Concerns(states[n].db.tasks[t], kind)
    ensures exists i :: Latest(steps, i, n, kind, t) && ToldBy(states[n].db.tasks[t], steps[i], kind)
  {
    hide Commit;
    var step, row := steps[n - 1], states[n].db.tasks[t];
    StepWrites(c, states[n - 1], step, states[n], t);
    if IsA(step, kind, t) {
      assert Latest(steps, n - 1, n, kind, t);
    } else {
      ColumnsTellTheRun(c, states, steps, t, kind, n - 1);
      var i :| Latest(steps, i, n - 1, kind, t) && ToldBy(states[n - 1].db.tasks[t], steps[i], kind);
      assert Latest(steps, i, n, kind, t);
    }
  }

  // ----- publication leases and back-off

  // The earliest instant at which the step lets the event be claimed, or declared dead, next.
  function DueAfter(step: Step): Option<Time> {
    match step
    case Upload(_, _, _, now) => Some(now)
    case OrphanCreate(_, _, now) => Some(now)
    case GapCreate(_, now) => Some(now)
    case GapReplay(_, _, now) => Some(now)
    case ManualReplay(_, _, now) => Some(now)
    case Relay(_, ClaimEvent(_, _, lease, _)) => Some(lease)
    case Relay(_, ReleaseForRetry(_, _, next, _)) => Some(next)
    case _ => None
  }

  // No relay claims an event again, or gives it up, before its lease or its back-off has passed.
  lemma EventsWaitUntilTheyAreDue(c: Config, states: seq<System>, steps: seq<Step>, t: TaskId, i: nat, j: nat)
    requires IsRun(c, states, steps) && i < j < |steps| && TaskOf(steps[i]) == TaskOf(steps[j]) == Some(t)
    requires DueAfter(steps[i]).Some? && steps[j].Relay? && (steps[j].op.ClaimEvent? || steps[j].op.MarkDead?)
    requires forall k :: i < k < j ==> Event(states[k + 1], t) == Event(states[k], t)
    ensures DueAfter(steps[i]).value <= if steps[j].op.ClaimEvent? then steps[j].op.dueAt else steps[j].op.dueBefore
  {
    hide Commit;
    StepMovesEvent(c, states[i], steps[i], states[i + 1], t);
    StepMovesEvent(c, states[j], steps[j], states[j + 1], t);
    EventStays(states, t, i + 1, j);
  }

  lemma {:induction false} EventStays(states: seq<System>, t: TaskId, i: nat, n: nat)
    requires i <= n < |states| && forall k :: i <= k < n ==> Event(states[k + 1], t) == Event(states[k], t)
    ensures Event(states[n], t) == Event(states[i], t)
  {
    if i < n {
      EventStays(states, t, i, n - 1);
      assert Event(states[n - 1 + 1], t) == Event(states[n - 1], t);
    }
  }
}
