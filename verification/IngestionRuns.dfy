/** What holds over whole runs of the ingestion protocol: budgets, termination, fencing, and no stranded job. */
module IngestionRuns {
  import opened Wrappers
  import opened TaskRepo
  import opened TaskOutboxRepo
  import opened KnowledgeRepo
  import opened IngestionProtocol

  ghost predicate IsRun(c: Config, states: seq<System>, steps: seq<Step>) {
    && |states| == |steps| + 1
    && forall i :: 0 <= i < |steps| ==> Commit(c, states[i], steps[i]) == Some(states[i + 1])
  }

  lemma {:induction false} RunKeepsInv(c: Config, states: seq<System>, steps: seq<Step>, i: nat)
    requires IsRun(c, states, steps) && Inv(c, states[0]) && i < |states|
    ensures Inv(c, states[i])
  {
    if i > 0 {
      RunKeepsInv(c, states, steps, i - 1);
      InvKept(c, states[i - 1], steps[i - 1], states[i]);
    }
  }

  lemma {:induction false} RunKeepsFinishedFilesReady(c: Config, states: seq<System>, steps: seq<Step>, i: nat)
    requires IsRun(c, states, steps) && Inv(c, states[0]) && FinishedMeansReady(states[0]) && i < |states|
    requires forall j :: 0 <= j < |steps| ==> ReadsCurrentFile(states[j], steps[j])
    ensures FinishedMeansReady(states[i])
  {
    if i > 0 {
      RunKeepsFinishedFilesReady(c, states, steps, i - 1);
      RunKeepsInv(c, states, steps, i - 1);
      FinishedKept(c, states[i - 1], steps[i - 1], states[i]);
    }
  }

  // ----- retry budgets

  function Positive(x: int): nat {
    if x > 0 then x else 0
  }

  // How many more resets the job can get before someone replays it by hand.
  function ResetsLeft(c: Config, db: Db, t: TaskId): nat {
    if t !in db.tasks then Positive(c.maxIngestionAttempts - 1)
    else
      match db.tasks[t].status
      case Pending => Positive(c.maxIngestionAttempts - 1 - db.tasks[t].attemptCount)
      case Failed => Positive(c.maxIngestionAttempts - 1 - db.tasks[t].attemptCount)
      case Processing => Positive(c.maxIngestionAttempts - db.tasks[t].attemptCount)
      case _ => 0
  }

  function PublishesLeft(c: Config, db: Db, t: TaskId): nat {
    if t in db.outboxes then Positive(c.maxPublishAttempts - db.outboxes[t].attemptCount) else c.maxPublishAttempts
  }

  function ClaimBudget(c: Config, db: Db, t: TaskId): nat {
    Times(ResetsLeft(c, db, t), c.maxPublishAttempts) + PublishesLeft(c, db, t)
  }

  predicate IsEventClaim(step: Step, t: TaskId) {
    step.Relay? && step.t == t && step.op.ClaimEvent?
  }

  predicate IsReplay(step: Step, t: TaskId) {
    step.ManualReplay? && step.t == t
  }

  function EventClaims(steps: seq<Step>, t: TaskId): nat {
    if steps == [] then 0
    else EventClaims(steps[..|steps| - 1], t) + if IsEventClaim(steps[|steps| - 1], t) then 1 else 0
  }

  function Replays(steps: seq<Step>, t: TaskId): nat {
    if steps == [] then 0
    else Replays(steps[..|steps| - 1], t) + if IsReplay(steps[|steps| - 1], t) then 1 else 0
  }

  // ----- what one step does to one job

  function Task(s: System, t: TaskId): Option<TaskRow> {
    if t in s.db.tasks then Some(s.db.tasks[t]) else None
  }

  function Event(s: System, t: TaskId): Option<OutboxRow> {
    if t in s.db.outboxes then Some(s.db.outboxes[t]) else None
  }

  predicate SameStanding(x: Option<TaskRow>, y: Option<TaskRow>) {
    x.Some? == y.Some? && (x.Some? ==> x.value.status == y.value.status && x.value.attemptCount == y.value.attemptCount)
  }

  predicate Ends(x: Option<TaskRow>, y: Option<TaskRow>, status: TaskStatus) {
    && x.Some? && y.Some? && x.value.status.Active() && y.value.status == status
    && x.value.attemptCount == y.value.attemptCount
  }

  predicate TaskMove(c: Config, step: Step, x: Option<TaskRow>, y: Option<TaskRow>) {
    match step
    case Upload(_, _, _, _) => x.None? && y.Some? && y.value.status.Pending? && y.value.attemptCount == 0
    case OrphanCreate(_, _, _) => x.None? && y.Some? && y.value.status.Pending? && y.value.attemptCount == 0
    case WorkerClaim(_, _, _, _) =>
      && x.Some? && y.Some? && x.value.status.Pending? && y.value.status.Processing?
      && y.value.attemptCount == x.value.attemptCount + 1
    case WorkerComplete(_, a, _) => Ends(x, y, Completed) && x.value.status.Processing? && x.value.attemptCount == a
    case CompleteReady(_, st, a, _) => Ends(x, y, Completed) && x.value.status == st && x.value.attemptCount == a
    case WorkerFail(_, a, _, _) => Ends(x, y, Failed) && x.value.status.Processing? && x.value.attemptCount == a
    case FailExpiredPair(_, a, _, _, _) => Ends(x, y, Failed) && x.value.status.Processing? && x.value.attemptCount == a
    case FailTaskOnly(_, a, _, _) => Ends(x, y, Failed) && x.value.attemptCount == a
    case GapFail(_, a, _, _) => Ends(x, y, Failed) && x.value.status.Pending? && x.value.attemptCount == a
    case Reset(_, a, _, _, now, legacy, _) =>
      && x.Some? && y.Some? && x.value.status.Processing? && y.value.status.Pending? && x.value.Stale(now, legacy)
      && x.value.attemptCount == y.value.attemptCount == a < c.maxIngestionAttempts
    case ManualReplay(_, _, _) =>
      && x.Some? && y.Some? && (x.value.status.Failed? || x.value.status.Pending?) && y.value.status.Pending?
      && x.value.attemptCount == y.value.attemptCount
    case WorkerHeartbeat(_, a, _, _) => SameStanding(x, y) && x.Some? && x.value.status.Processing? && x.value.attemptCount == a
    case WorkerParse(_, a, _, _) => SameStanding(x, y) && x.Some? && x.value.status.Processing? && x.value.attemptCount == a
    case WorkerIndex(_, a, _, _, _) => SameStanding(x, y) && x.Some? && x.value.status.Processing? && x.value.attemptCount == a
    case WorkerCleanup(_, a, _, _) => SameStanding(x, y) && x.Some? && x.value.status.Processing? && x.value.attemptCount == a
    case _ => x == y
  }

  predicate EventMove(c: Config, step: Step, x: Option<OutboxRow>, y: Option<OutboxRow>) {
    match step
    case Upload(_, _, _, now) => x.None? && y == Some(NewEvent(now))
    case OrphanCreate(_, _, now) => x.None? && y == Some(NewEvent(now))
    case GapCreate(_, now) => x.None? && y == Some(NewEvent(now))
    case Relay(_, op) =>
      && x.Some? && op.Admits(x.value) && y == Some(op.After(x.value))
      && !op.ReopenEvent? && (op.ClaimEvent? ==> op.maxAttempts == c.maxPublishAttempts)
    case GapReplay(_, a, now) =>
      && a < c.maxPublishAttempts
      && x.Some? && ReopenEvent(Published, a, now, false).Admits(x.value)
      && y == Some(ReopenEvent(Published, a, now, false).After(x.value))
    case ManualReplay(_, a, now) =>
      && x.Some? && ReopenEvent(Dead, a, now, true).Admits(x.value) && y == Some(ReopenEvent(Dead, a, now, true).After(x.value))
    case Reset(_, _, _, seen, now, _, _) =>
      if seen.None? then x.None? && y == Some(NewEvent(now))
      else if seen.value.status.Active() then x == y
      else
        && x.Some? && x.value.status == seen.value.status && x.value.attemptCount == seen.value.attemptCount
        && y == Some(ReopenEvent(seen.value.status, seen.value.attemptCount, now, true).After(x.value))
    case _ => x == y
  }

  lemma StepMovesTask(c: Config, s: System, step: Step, s': System, t: TaskId)
    requires Commit(c, s, step) == Some(s')
    ensures if TaskOf(step) == Some(t) then TaskMove(c, step, Task(s, t), Task(s', t)) else SameStanding(Task(s, t), Task(s', t))
  {
    if step.Reset? || step.ManualReplay? || step.FailExpiredPair? || step.GapFail? {
      RecoveryMovesTask(c, s, step, s', t);
    } else if TaskOf(step) != Some(t) {
      OtherJobsStand(c, s, step, s', t);
    } else if step.WorkerParse? || step.WorkerIndex? || step.WorkerCleanup? {
      WorkerMovesTask(c, s, step, s', t);
    }
  }

  lemma OtherJobsStand(c: Config, s: System, step: Step, s': System, t: TaskId)
    requires Commit(c, s, step) == Some(s') && TaskOf(step) != Some(t)
    requires !(step.Reset? || step.ManualReplay? || step.FailExpiredPair? || step.GapFail?)
    ensures SameStanding(Task(s, t), Task(s', t))
  {
  }

  lemma RecoveryMovesTask(c: Config, s: System, step: Step, s': System, t: TaskId)
    requires Commit(c, s, step) == Some(s')
    requires step.Reset? || step.ManualReplay? || step.FailExpiredPair? || step.GapFail?
    ensures if TaskOf(step) == Some(t) then TaskMove(c, step, Task(s, t), Task(s', t)) else SameStanding(Task(s, t), Task(s', t))
  {
    if step.Reset? {
      ResetMoves(c, s, step, s', t);
    } else if step.ManualReplay? {
      ReplayMoves(c, s, step, s', t);
    }
  }

  lemma ResetMoves(c: Config, s: System, step: Step, s': System, t: TaskId)
    requires Commit(c, s, step) == Some(s') && step.Reset?
    ensures if step.t == t then TaskMove(c, step, Task(s, t), Task(s', t)) else SameStanding(Task(s, t), Task(s', t))
    ensures if step.t == t then EventMove(c, step, Event(s, t), Event(s', t)) else Event(s, t) == Event(s', t)
  {
  }

  lemma ReplayMoves(c: Config, s: System, step: Step, s': System, t: TaskId)
    requires Commit(c, s, step) == Some(s') && step.ManualReplay?
    ensures if step.t == t then TaskMove(c, step, Task(s, t), Task(s', t)) else SameStanding(Task(s, t), Task(s', t))
    ensures if step.t == t then EventMove(c, step, Event(s, t), Event(s', t)) else Event(s, t) == Event(s', t)
  {
  }

  lemma WorkerMovesTask(c: Config, s: System, step: Step, s': System, t: TaskId)
    requires Commit(c, s, step) == Some(s') && TaskOf(step) == Some(t)
    requires step.WorkerParse? || step.WorkerIndex? || step.WorkerCleanup?
    ensures TaskMove(c, step, Task(s, t), Task(s', t))
  {
  }

  lemma StepMovesEvent(c: Config, s: System, step: Step, s': System, t: TaskId)
    requires Commit(c, s, step) == Some(s')
    ensures if TaskOf(step) == Some(t) then EventMove(c, step, Event(s, t), Event(s', t)) else Event(s, t) == Event(s', t)
  {
    if step.Reset? {
      ResetMoves(c, s, step, s', t);
    } else if step.ManualReplay? {
      ReplayMoves(c, s, step, s', t);
    }
  }

  // One step spends what it claims: a reset pays for the fresh publish budget with one of the resets left.
  lemma StepSpendsBudget(c: Config, s: System, step: Step, s': System, t: TaskId)
    requires Inv(c, s) && Commit(c, s, step) == Some(s')
    ensures ResetsLeft(c, s'.db, t) <= ResetsLeft(c, s.db, t)
    ensures ResetsLeft(c, s'.db, t) == ResetsLeft(c, s.db, t) ==>
              PublishesLeft(c, s'.db, t) + (if IsEventClaim(step, t) then 1 else 0)
              <= PublishesLeft(c, s.db, t) + (if IsReplay(step, t) then c.maxPublishAttempts else 0)
    ensures ResetsLeft(c, s'.db, t) < ResetsLeft(c, s.db, t) ==> !IsEventClaim(step, t)
  {
    hide Commit;
    assert JobOk(c, s, t);
    hide Inv;
    StepMovesTask(c, s, step, s', t);
    StepMovesEvent(c, s, step, s', t);
  }

  // Multiplication as repeated addition keeps the run proofs linear.
  function Times(count: nat, unit: nat): nat {
    if count == 0 then 0 else Times(count - 1, unit) + unit
  }

  lemma {:induction false} TimesIsProduct(count: nat, unit: nat)
    ensures Times(count, unit) == count * unit
  {
    if count > 0 {
      TimesIsProduct(count - 1, unit);
    }
  }

  lemma {:induction false} Spend(before: nat, after: nat, unit: nat)
    requires after <= before
    ensures after < before ==> Times(after, unit) + unit <= Times(before, unit)
  {
    if after + 1 < before {
      Spend(before - 1, after, unit);
    }
  }

  lemma StepSpendsClaimBudget(c: Config, s: System, step: Step, s': System, t: TaskId)
    requires Inv(c, s) && Commit(c, s, step) == Some(s')
    ensures ClaimBudget(c, s'.db, t) + (if IsEventClaim(step, t) then 1 else 0)
            <= ClaimBudget(c, s.db, t) + (if IsReplay(step, t) then c.maxPublishAttempts else 0)
  {
    StepSpendsBudget(c, s, step, s', t);
    Spend(ResetsLeft(c, s.db, t), ResetsLeft(c, s'.db, t), c.maxPublishAttempts);
  }

  function Granted(c: Config, steps: seq<Step>, t: TaskId): nat {
    Times(Replays(steps, t), c.maxPublishAttempts)
  }

  lemma CountOneMore(c: Config, steps: seq<Step>, t: TaskId, n: nat)
    requires 0 < n <= |steps|
    ensures EventClaims(steps[..n], t) == EventClaims(steps[..n - 1], t) + if IsEventClaim(steps[n - 1], t) then 1 else 0
    ensures Granted(c, steps[..n], t)
            == Granted(c, steps[..n - 1], t) + if IsReplay(steps[n - 1], t) then c.maxPublishAttempts else 0
  {
    assert steps[..n][..n - 1] == steps[..n - 1];
  }

  lemma {:induction false} ClaimsStayWithinBudget(c: Config, states: seq<System>, steps: seq<Step>, t: TaskId, n: nat)
    requires IsRun(c, states, steps) && Inv(c, states[0]) && n <= |steps|
    ensures EventClaims(steps[..n], t) + ClaimBudget(c, states[n].db, t)
            <= ClaimBudget(c, states[0].db, t) + Granted(c, steps[..n], t)
  {
    if n > 0 {
      ClaimsStayWithinBudget(c, states, steps, t, n - 1);
      RunKeepsInv(c, states, steps, n - 1);
      StepSpendsClaimBudget(c, states[n - 1], steps[n - 1], states[n], t);
      CountOneMore(c, steps, t, n);
    }
  }

  // All the publications ever claimed for a job: resets zero the publish counter, yet the product bounds them.
  lemma TotalPublishClaims(c: Config, states: seq<System>, steps: seq<Step>, t: TaskId)
    requires IsRun(c, states, steps) && Inv(c, states[0]) && t !in states[0].db.tasks
    ensures EventClaims(steps, t) <= (Larger(1, c.maxIngestionAttempts) + Replays(steps, t)) * c.maxPublishAttempts
  {
    var first := Positive(c.maxIngestionAttempts - 1);
    assert steps[..|steps|] == steps;
    assert ClaimBudget(c, states[0].db, t) == Times(first, c.maxPublishAttempts) + c.maxPublishAttempts by {
      assert JobOk(c, states[0], t);
    }
    ClaimsStayWithinBudget(c, states, steps, t, |steps|);
    TimesAddUp(first, Replays(steps, t), c.maxPublishAttempts);
    assert first + 1 == Larger(1, c.maxIngestionAttempts);
  }

  lemma TimesAddUp(x: nat, y: nat, unit: nat)
    ensures Times(x, unit) + unit + Times(y, unit) == (x + 1 + y) * unit
  {
    TimesIsProduct(x, unit);
    TimesIsProduct(y, unit);
  }

  // ----- the ingestion attempt counter

  function AttemptCap(c: Config, s: System, t: TaskId): int {
    if t !in s.db.tasks then Larger(1, c.maxIngestionAttempts)
    else Larger(s.db.tasks[t].attemptCount + (if s.db.tasks[t].status.Pending? then 1 else 0), c.maxIngestionAttempts)
  }

  lemma {:induction false} AttemptsStayWithinBudget(c: Config, states: seq<System>, steps: seq<Step>, t: TaskId, n: nat)
    requires IsRun(c, states, steps) && n <= |steps|
    ensures AttemptCap(c, states[n], t) <= AttemptCap(c, states[0], t) + Replays(steps[..n], t)
    ensures t !in states[0].db.tasks && t in states[n].db.tasks ==>
              states[n].db.tasks[t].attemptCount <= Larger(1, c.maxIngestionAttempts) + Replays(steps[..n], t)
  {
    if n > 0 {
      AttemptsStayWithinBudget(c, states, steps, t, n - 1);
      StepMovesTask(c, states[n - 1], steps[n - 1], states[n], t);
      assert steps[..n][..n - 1] == steps[..n - 1];
    }
  }

  // ----- termination

  // Every committed step about the job except a heartbeat or a manual replay.
  predicate Productive(step: Step, t: TaskId) {
    TaskOf(step) == Some(t) && !step.WorkerHeartbeat? && !step.ManualReplay?
  }

  function ProductiveSteps(steps: seq<Step>, t: TaskId): nat {
    if steps == [] then 0
    else ProductiveSteps(steps[..|steps| - 1], t) + if Productive(steps[|steps| - 1], t) then 1 else 0
  }

  function PhaseRank(s: System, t: TaskId): nat {
    if t !in s.phases then 3
    else match s.phases[t] case Claimed => 3 case Parsed => 2 case Indexed => 1 case CleanedUp => 0
  }

  function TaskWork(c: Config, s: System, t: TaskId): nat {
    if t !in s.db.tasks then 5 * Positive(c.maxIngestionAttempts - 1) + 6
    else
      match s.db.tasks[t].status
      case Pending => 5 * Positive(c.maxIngestionAttempts - 1 - s.db.tasks[t].attemptCount) + 5
      case Processing => 5 * Positive(c.maxIngestionAttempts - s.db.tasks[t].attemptCount) + PhaseRank(s, t) + 1
      case _ => 0
  }

  function EventWork(c: Config, s: System, t: TaskId): nat {
    if t !in s.db.outboxes then 4 * c.maxPublishAttempts + 3
    else
      4 * Positive(c.maxPublishAttempts - s.db.outboxes[t].attemptCount) +
      match s.db.outboxes[t].status case Publishing => 3 case Published => 2 case Waiting => 1 case Dead => 0
  }

  function WorkLeft(c: Config, s: System, t: TaskId): nat {
    Times(TaskWork(c, s, t), 4 * c.maxPublishAttempts + 4) + EventWork(c, s, t)
  }

  lemma StepMovesPhase(c: Config, s: System, step: Step, s': System, t: TaskId)
    requires Commit(c, s, step) == Some(s')
    ensures TaskOf(step) == Some(t) && step.WorkerClaim? ==> PhaseRank(s', t) == 3
    ensures TaskOf(step) == Some(t) && (step.WorkerParse? || step.WorkerIndex? || step.WorkerCleanup?) ==>
              PhaseRank(s', t) < PhaseRank(s, t)
    ensures TaskOf(step) != Some(t) || !(step.WorkerClaim? || step.WorkerParse? || step.WorkerIndex? || step.WorkerCleanup?) ==>
              PhaseRank(s', t) == PhaseRank(s, t)
  {
  }

  // Relay steps and the two outbox repairs: they concern the event alone.
  predicate OnEvent(step: Step) {
    step.Relay? || step.GapCreate? || step.GapReplay?
  }

  lemma EventStepUsesUpWork(c: Config, s: System, step: Step, s': System, t: TaskId)
    requires JobOk(c, s, t) && Commit(c, s, step) == Some(s') && TaskOf(step) == Some(t) && OnEvent(step)
    ensures TaskWork(c, s', t) == TaskWork(c, s, t) && EventWork(c, s', t) + 1 <= EventWork(c, s, t)
  {
    hide Commit;
    StepMovesTask(c, s, step, s', t);
    StepMovesEvent(c, s, step, s', t);
    StepMovesPhase(c, s, step, s', t);
  }

  lemma TaskStepUsesUpWork(c: Config, s: System, step: Step, s': System, t: TaskId)
    requires JobOk(c, s, t) && Commit(c, s, step) == Some(s') && !IsReplay(step, t)
    requires TaskOf(step) != Some(t) || !OnEvent(step)
    ensures TaskWork(c, s', t) + (if Productive(step, t) then 1 else 0) <= TaskWork(c, s, t)
    ensures !Productive(step, t) ==> EventWork(c, s', t) == EventWork(c, s, t)
  {
    hide Commit;
    StepMovesTask(c, s, step, s', t);
    StepMovesPhase(c, s, step, s', t);
    if !Productive(step, t) {
      StepMovesEvent(c, s, step, s', t);
    }
  }

  lemma EventWorkIsBounded(c: Config, s: System, t: TaskId)
    requires JobOk(c, s, t)
    ensures EventWork(c, s, t) <= 4 * c.maxPublishAttempts + 3
  {
  }

  lemma StepUsesUpWork(c: Config, s: System, step: Step, s': System, t: TaskId)
    requires Inv(c, s) && Commit(c, s, step) == Some(s') && !IsReplay(step, t)
    ensures TaskWork(c, s', t) <= TaskWork(c, s, t) && EventWork(c, s', t) <= 4 * c.maxPublishAttempts + 3
    ensures TaskWork(c, s', t) == TaskWork(c, s, t) ==>
              EventWork(c, s', t) + (if Productive(step, t) then 1 else 0) <= EventWork(c, s, t)
  {
    hide Commit, TaskWork, EventWork;
    assert JobOk(c, s, t);
    InvKept(c, s, step, s');
    assert JobOk(c, s', t);
    hide Inv, JobOk;
    EventWorkIsBounded(c, s', t);
    if TaskOf(step) == Some(t) && OnEvent(step) {
      EventStepUsesUpWork(c, s, step, s', t);
    } else {
      TaskStepUsesUpWork(c, s, step, s', t);
    }
  }

  lemma StepLowersWork(c: Config, s: System, step: Step, s': System, t: TaskId)
    requires Inv(c, s) && Commit(c, s, step) == Some(s') && !IsReplay(step, t)
    ensures WorkLeft(c, s', t) + (if Productive(step, t) then 1 else 0) <= WorkLeft(c, s, t)
  {
    hide Commit, Inv, TaskWork, EventWork, Productive;
    StepUsesUpWork(c, s, step, s', t);
    Spend(TaskWork(c, s, t), TaskWork(c, s', t), 4 * c.maxPublishAttempts + 4);
  }

  lemma {:induction false} WorkRunsOut(c: Config, states: seq<System>, steps: seq<Step>, t: TaskId, n: nat)
    requires IsRun(c, states, steps) && Inv(c, states[0]) && n <= |steps|
    requires forall i :: 0 <= i < |steps| ==> !IsReplay(steps[i], t)
    ensures ProductiveSteps(steps[..n], t) + WorkLeft(c, states[n], t) <= WorkLeft(c, states[0], t)
  {
    if n > 0 {
      WorkRunsOut(c, states, steps, t, n - 1);
      RunKeepsInv(c, states, steps, n - 1);
      StepLowersWork(c, states[n - 1], steps[n - 1], states[n], t);
      assert steps[..n][..n - 1] == steps[..n - 1];
    }
  }

  // A job created in the run sees at most this many committed steps, however the parties interleave.
  lemma EveryJobTerminates(c: Config, states: seq<System>, steps: seq<Step>, t: TaskId)
    requires IsRun(c, states, steps) && Inv(c, states[0]) && t !in states[0].db.tasks
    requires forall i :: 0 <= i < |steps| ==> !IsReplay(steps[i], t)
    ensures ProductiveSteps(steps, t)
            <= (5 * Positive(c.maxIngestionAttempts - 1) + 7) * (4 * c.maxPublishAttempts + 4)
  {
    hide Commit, ProductiveSteps;
    assert JobOk(c, states[0], t);
    hide Inv, JobOk;
    WorkRunsOut(c, states, steps, t, |steps|);
    assert steps[..|steps|] == steps;
    TimesIsProduct(5 * Positive(c.maxIngestionAttempts - 1) + 7, 4 * c.maxPublishAttempts + 4);
  }

  // ----- fencing

  function AttemptOf(step: Step): Option<int> {
    match step
    case WorkerHeartbeat(_, a, _, _) => Some(a)
    case WorkerParse(_, a, _, _) => Some(a)
    case WorkerIndex(_, a, _, _, _) => Some(a)
    case WorkerCleanup(_, a, _, _) => Some(a)
    case WorkerComplete(_, a, _) => Some(a)
    case WorkerFail(_, a, _, _) => Some(a)
    case Reset(_, a, _, _, _, _, _) => Some(a)
    case FailExpiredPair(_, a, _, _, _) => Some(a)
    case CompleteReady(_, _, a, _) => Some(a)
    case FailTaskOnly(_, a, _, _) => Some(a)
    case GapFail(_, a, _, _) => Some(a)
    case _ => None
  }

  predicate ByWorker(step: Step) {
    || step.WorkerHeartbeat? || step.WorkerParse? || step.WorkerIndex? || step.WorkerCleanup?
    || step.WorkerComplete? || step.WorkerFail?
  }

  // The attempt `a` of the job no longer holds it.
  predicate Lost(s: System, t: TaskId, a: int) {
    t in s.db.tasks && (s.db.tasks[t].attemptCount > a || (s.db.tasks[t].attemptCount == a && !s.db.tasks[t].status.Processing?))
  }

  predicate Superseded(s: System, t: TaskId, a: int) {
    t in s.db.tasks && s.db.tasks[t].attemptCount > a
  }

  lemma {:induction false} StandingIsMonotone(c: Config, states: seq<System>, steps: seq<Step>, t: TaskId, a: int, i: nat, j: nat)
    requires IsRun(c, states, steps) && i <= j < |states|
    ensures Lost(states[i], t, a) ==> Lost(states[j], t, a)
    ensures Superseded(states[i], t, a) ==> Superseded(states[j], t, a)
    ensures IsFinished(states[i], t) ==> IsFinished(states[j], t)
  {
    hide Commit;
    if i < j {
      StandingIsMonotone(c, states, steps, t, a, i, j - 1);
      StepMovesTask(c, states[j - 1], steps[j - 1], states[j], t);
    }
  }

  // Once a reset, a failure or a later claim took the job away, no worker statement of that attempt commits again.
  lemma LostAttemptsStayFenced(c: Config, states: seq<System>, steps: seq<Step>, t: TaskId, a: int, i: nat, j: nat)
    requires IsRun(c, states, steps) && i <= j < |steps| && Lost(states[i], t, a)
    ensures !(ByWorker(steps[j]) && steps[j].t == t && AttemptOf(steps[j]) == Some(a))
  {
    StandingIsMonotone(c, states, steps, t, a, i, j);
    StepMovesTask(c, states[j], steps[j], states[j + 1], t);
  }

  // After the next claim nothing at all that carries the old number commits, the reconciler's statements included.
  lemma SupersededAttemptsAreDead(c: Config, states: seq<System>, steps: seq<Step>, t: TaskId, a: int, i: nat, j: nat)
    requires IsRun(c, states, steps) && i <= j < |steps| && Superseded(states[i], t, a)
    ensures !(TaskOf(steps[j]) == Some(t) && AttemptOf(steps[j]) == Some(a))
  {
    StandingIsMonotone(c, states, steps, t, a, i, j);
    StepMovesTask(c, states[j], steps[j], states[j + 1], t);
  }

  // Where the two fences begin: a reset is only possible on a stale lease and leaves the attempt lost;
  // a claim supersedes every number handed out before; nothing moves a finished job.
  lemma WhereFencesBegin(c: Config, s: System, step: Step, s': System, t: TaskId, a: int)
    requires Commit(c, s, step) == Some(s') && TaskOf(step) == Some(t)
    ensures step.Reset? ==> s.db.tasks[t].Stale(step.now, step.legacy) && Lost(s', t, step.attempt)
    ensures step.WorkerClaim? ==> Lost(s, t, s.db.tasks[t].attemptCount) && Superseded(s', t, s.db.tasks[t].attemptCount)
    ensures t in s.db.tasks && t in s'.db.tasks && s.db.tasks[t].status.Processing? && s'.db.tasks[t].status.Pending? ==>
              step.Reset?
    ensures IsFinished(s, t) ==> AttemptOf(step).None? && !step.ManualReplay? && !step.WorkerClaim?
  {
    StepMovesTask(c, s, step, s', t);
  }

  lemma ClaimNumbersIncrease(c: Config, states: seq<System>, steps: seq<Step>, t: TaskId, i: nat, j: nat)
    requires IsRun(c, states, steps) && i < j < |steps|
    requires steps[i].WorkerClaim? && steps[i].t == t && steps[j].WorkerClaim? && steps[j].t == t
    ensures t in states[i + 1].db.tasks && t in states[j + 1].db.tasks
    ensures states[i + 1].db.tasks[t].attemptCount < states[j + 1].db.tasks[t].attemptCount
  {
    StepMovesTask(c, states[i], steps[i], states[i + 1], t);
    StepMovesTask(c, states[j], steps[j], states[j + 1], t);
    StandingIsMonotone(c, states, steps, t, states[i].db.tasks[t].attemptCount, i + 1, j);
  }

  // A reset job is PENDING under the old number, so an attempt-checked failure of that number still commits
  // exactly when the caller allows PENDING.
  lemma FailAfterReset(
    t: TaskRow, a: int, due: Time, legacy: Time, error: string, clock: Time, allowed: set<TaskStatus>, at: Time)
    requires ResetExpired(a, due, legacy, error).Admits(t)
    ensures Fail(allowed, Some(a), error, at).Admits(ResetExpired(a, due, legacy, error).After(t, clock)) <==> Pending in allowed
  {
  }

  // ----- publication leases

  predicate Settles(step: Step, t: TaskId) {
    step.Relay? && step.t == t && (step.op.MarkPublished? || step.op.ReleaseForRetry?)
  }

  // The lease owner of an event being published is the owner of the latest claim.
  lemma {:induction false} LeaseIsLatestClaim(c: Config, states: seq<System>, steps: seq<Step>, t: TaskId, n: nat)
    requires IsRun(c, states, steps) && n < |states| && t !in states[0].db.outboxes
    ensures t in states[n].db.outboxes && states[n].db.outboxes[t].leaseOwner.Some? ==>
              exists i :: 0 <= i < n && IsEventClaim(steps[i], t)
                          && states[n].db.outboxes[t].leaseOwner == Some(steps[i].op.owner)
                          && forall k :: i < k < n ==> !IsEventClaim(steps[k], t)
  {
    if n > 0 {
      LeaseIsLatestClaim(c, states, steps, t, n - 1);
      StepMovesEvent(c, states[n - 1], steps[n - 1], states[n], t);
      if IsEventClaim(steps[n - 1], t) {
        assert states[n].db.outboxes[t].leaseOwner == Some(steps[n - 1].op.owner);
      }
    }
  }

  // When relays draw fresh owner names, a claim that was followed by another can no longer settle the event.
  lemma OnlyTheCurrentClaimSettles(c: Config, states: seq<System>, steps: seq<Step>, t: TaskId, i: nat, k: nat, j: nat)
    requires IsRun(c, states, steps) && t !in states[0].db.outboxes
    requires forall x, y :: 0 <= x < y < |steps| && IsEventClaim(steps[x], t) && IsEventClaim(steps[y], t) ==>
               steps[x].op.owner != steps[y].op.owner
    requires i < k < j < |steps| && IsEventClaim(steps[i], t) && IsEventClaim(steps[k], t) && Settles(steps[j], t)
    ensures steps[j].op.owner != steps[i].op.owner
  {
    StepMovesEvent(c, states[j], steps[j], states[j + 1], t);
    LeaseIsLatestClaim(c, states, steps, t, j);
  }

  // The attempt number alone would not do: after a reset the next claim carries the same number again.
  lemma AttemptNumberIsNoFence(o: OutboxRow, due: Time, owner: string, other: string, at: Time, lease: Time, max: int)
    requires ClaimEvent(due, owner, lease, max).Admits(o) && o.attemptCount == 0 && at <= due
    ensures
      var claimed := ClaimEvent(due, owner, lease, max).After(o);
      var published := MarkPublished(claimed.attemptCount, owner, at).After(claimed);
      var reset := ReopenEvent(Published, claimed.attemptCount, at, true).After(published);
      && ClaimEvent(due, other, lease, max).Admits(reset)
      && ClaimEvent(due, other, lease, max).After(reset).attemptCount == claimed.attemptCount
      && (MarkPublished(claimed.attemptCount, owner, at).Admits(ClaimEvent(due, other, lease, max).After(reset))
          <==> owner == other)
  {
  }

  // ----- nobody is stranded

  predicate StaleScan(s: System, t: TaskId, due: Time, legacy: Time) {
    t in s.db.tasks && s.db.tasks[t].status.Processing? && s.db.tasks[t].Stale(due, legacy)
  }

  predicate GapScan(s: System, t: TaskId, olderThan: Time) {
    && t in s.db.tasks && s.db.tasks[t].status.Pending? && s.db.tasks[t].fileId.Some? && s.db.tasks[t].updatedAt <= olderThan
    && !(t in s.db.outboxes && s.db.outboxes[t].status.Active())
  }

  predicate RelayScan(c: Config, s: System, t: TaskId, due: Time) {
    && t in s.db.outboxes
    && ((ClaimDue(s.db.outboxes[t], due) && s.db.outboxes[t].attemptCount < c.maxPublishAttempts)
        || (ExhaustedDue(s.db.outboxes[t], due) && s.db.outboxes[t].attemptCount >= c.maxPublishAttempts))
  }

  ghost predicate OrphanScan(s: System, f: FileId, olderThan: Time) {
    f in s.db.files && s.db.files[f].status.Uploaded? && s.db.files[f].updatedAt <= olderThan && !Occupied(s.db.tasks, f)
  }

  // Every lease, due time and last update lies in the past.
  ghost predicate Elapsed(s: System, at: Time) {
    && (forall t :: t in s.db.tasks ==>
          s.db.tasks[t].updatedAt <= at && (s.db.tasks[t].leaseExpiresAt.Some? ==> s.db.tasks[t].leaseExpiresAt.value <= at))
    && (forall t :: t in s.db.outboxes ==> s.db.outboxes[t].nextAttemptAt.Some? ==> s.db.outboxes[t].nextAttemptAt.value <= at)
    && (forall f :: f in s.db.files ==> s.db.files[f].updatedAt <= at)
  }

  // Once every deadline has passed, exactly one scan picks up an active job: the stale scan a PROCESSING one,
  // the relay a PENDING one with an active event, the gap scan any other PENDING one. The one exception is a
  // PENDING job without an active event whose file was deleted: no scan of the repository selects it.
  lemma WhoPicksUpAJob(c: Config, s: System, t: TaskId, at: Time)
    requires Inv(c, s) && Elapsed(s, at) && t in s.db.tasks && s.db.tasks[t].status.Active()
    ensures StaleScan(s, t, at, at) <==> s.db.tasks[t].status.Processing?
    ensures s.db.tasks[t].status.Pending? ==>
              && !(GapScan(s, t, at) && RelayScan(c, s, t, at))
              && (GapScan(s, t, at) || RelayScan(c, s, t, at) <==>
                  s.db.tasks[t].fileId.Some? || (t in s.db.outboxes && s.db.outboxes[t].status.Active()))
    ensures s.db.tasks[t].status.Processing? ==> !GapScan(s, t, at)
  {
    assert JobOk(c, s, t);
    if t in s.db.outboxes {
      DueTestsCoincide(s.db.outboxes[t], at, c.maxPublishAttempts, "", 0, "");
    }
  }

  // An accepted file that is still UPLOADED either has an active job or is found by the orphan scan.
  lemma WhoPicksUpAFile(c: Config, s: System, f: FileId, at: Time)
    requires Inv(c, s) && Elapsed(s, at) && f in s.db.files && s.db.files[f].status.Uploaded?
    ensures OrphanScan(s, f, at) != exists t :: ActiveOn(s, t, f)
  {
    if Occupied(s.db.tasks, f) {
      var t :| t in s.db.tasks && s.db.tasks[t].fileId == Some(f) && s.db.tasks[t].status.Active();
      assert ActiveOn(s, t, f);
    }
  }

  // ----- a stale READY read

  // From every state in which a worker has indexed its file: the reconciler reads the file as READY, the worker's
  // cleanup then fails the file, and the reconciler still completes the job, whatever the renewed lease says.
  lemma LateCleanupLeavesFinishedJobWithFailedFile(c: Config, s: System, t: TaskId, f: FileId, now: Time, lease: Time)
    returns (cleaned: System, finished: System)
    requires Inv(c, s) && t in s.db.tasks && s.db.tasks[t].status.Processing? && s.db.tasks[t].fileId == Some(f)
    requires t in s.phases && s.phases[t].Indexed?
    ensures ReadyIn(s, f)
    ensures Commit(c, s, WorkerCleanup(t, s.db.tasks[t].attemptCount, now, lease)) == Some(cleaned)
    ensures Commit(c, cleaned, CompleteReady(t, Processing, s.db.tasks[t].attemptCount, now)) == Some(finished)
    ensures FinishedOn(finished, t, f) && finished.db.files[f].status.FileFailed? && !FinishedMeansReady(finished)
  {
    assert JobOk(c, s, t) && WorkerOk(s, t);
    cleaned := Commit(c, s, WorkerCleanup(t, s.db.tasks[t].attemptCount, now, lease)).value;
    finished := Commit(c, cleaned, CompleteReady(t, Processing, s.db.tasks[t].attemptCount, now)).value;
    assert FinishedOn(finished, t, f);
  }
}
