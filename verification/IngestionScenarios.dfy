/**
  Runs from the empty system that end where the protocol gives no guarantee, and what it takes to end there.
  The clock of these runs is a plain count; every outdated read is a row of an earlier state of the same run.
  */
module IngestionScenarios {
  import opened Wrappers
  import opened TaskRepo
  import opened TaskOutboxRepo
  import opened KnowledgeRepo
  import opened IngestionProtocol
  import opened IngestionRuns
  import opened IngestionRecovery

  const EMPTY_SYSTEM := System(Db(map[], map[], map[], map[]), map[])

  const UPLOAD := Upload(0, 0, Some(1), 1)

  // The state in which only job 0 and its file 0 exist.
  function OneJob(task: TaskRow, event: OutboxRow, file: FileRow, phases: map<TaskId, Phase>): System {
    System(Db(map[0 := task], map[0 := event], map[0 := file], map[]), phases)
  }

  ghost predicate Commits(c: Config, states: seq<System>, steps: seq<Step>, i: nat) {
    i < |steps| && i + 1 < |states| && Commit(c, states[i], steps[i]) == Some(states[i + 1])
  }

  const NEW_FILE := FileRow(Uploaded, Some(1), 1)

  lemma AfterUpload(c: Config)
    ensures Commit(c, EMPTY_SYSTEM, UPLOAD) == Some(OneJob(NewTask(0, 1), NewEvent(1), NEW_FILE, map[]))
  {
  }

  lemma AfterRelay(c: Config, task: TaskRow, event: OutboxRow, file: FileRow, phases: map<TaskId, Phase>, op: OutboxOp)
    requires op.Admits(event) && !op.ReopenEvent? && (op.ClaimEvent? ==> op.maxAttempts == c.maxPublishAttempts)
    ensures Commit(c, OneJob(task, event, file, phases), Relay(0, op))
            == Some(OneJob(task, op.After(event), file, phases))
  {
    assert map[0 := event][0 := op.After(event)] == map[0 := op.After(event)];
  }

  lemma AfterWorkerClaim(c: Config, task: TaskRow, event: OutboxRow, file: FileRow, now: Time, lease: Time)
    requires Claim(0, now, lease).Admits(task)
    ensures Commit(c, OneJob(task, event, file, map[]), WorkerClaim(0, 0, now, lease))
            == Some(OneJob(Claim(0, now, lease).After(task, now), event, file, map[0 := Claimed]))
  {
    assert map[0 := task][0 := Claim(0, now, lease).After(task, now)] == map[0 := Claim(0, now, lease).After(task, now)];
  }

  // Whatever the time.
  ghost predicate NoScanSelects(c: Config, s: System, t: TaskId) {
    && (forall at: Time, legacy: Time :: !StaleScan(s, t, at, legacy))
    && (forall at: Time :: !GapScan(s, t, at))
    && (forall at: Time :: !RelayScan(c, s, t, at))
  }

  lemma SettledWithoutAFile(c: Config, s: System, t: TaskId)
    requires t in s.db.tasks && s.db.tasks[t].status.Pending? && s.db.tasks[t].fileId.None?
    requires t in s.db.outboxes && !s.db.outboxes[t].status.Active()
    ensures NoScanSelects(c, s, t)
  {
  }

  // Upload, publish, delete the file before a worker claims the job: no scan ever selects the job.
  lemma AStrandedJobIsReachable(c: Config) returns (states: seq<System>, steps: seq<Step>, t: TaskId)
    requires c.maxPublishAttempts >= 1
    ensures IsRun(c, states, steps) && states[0] == EMPTY_SYSTEM && |steps| == 4
    ensures t in states[4].db.tasks && states[4].db.tasks[t].status.Pending?
    ensures NoScanSelects(c, states[4], t)
  {
    hide Commit;
    t := 0;
    var job := NewTask(0, 1);
    var claim, publish := ClaimEvent(2, "relay", 9, c.maxPublishAttempts), MarkPublished(1, "relay", 3);
    var claimed := claim.After(NewEvent(1));
    var published := publish.After(claimed);
    AfterUpload(c);
    AfterRelay(c, job, NewEvent(1), NEW_FILE, map[], claim);
    AfterRelay(c, job, claimed, NEW_FILE, map[], publish);
    var s3 := OneJob(job, published, NEW_FILE, map[]);
    var s4 := AfterDeletion(c, s3);
    states := [EMPTY_SYSTEM, OneJob(job, NewEvent(1), NEW_FILE, map[]), OneJob(job, claimed, NEW_FILE, map[]), s3, s4];
    steps := [UPLOAD, Relay(0, claim), Relay(0, publish), DeleteFile(0)];
    SettledWithoutAFile(c, s4, 0);
    hide OneJob;
    assert Commits(c, states, steps, 0) && Commits(c, states, steps, 1);
    assert Commits(c, states, steps, 2) && Commits(c, states, steps, 3);
  }

  lemma AfterDeletion(c: Config, s: System) returns (s': System)
    requires 0 in s.db.tasks && 0 in s.db.outboxes && s.db.tasks[0].fileId == Some(0)
    ensures Commit(c, s, DeleteFile(0)) == Some(s')
    ensures s'.db.outboxes == s.db.outboxes && 0 in s'.db.tasks && s'.db.tasks[0] == s.db.tasks[0].(fileId := None)
  {
    s' := Commit(c, s, DeleteFile(0)).value;
  }

  // The reconciler reads the event while it is being published, the relay settles it, and the reset commits without
  // looking again: a PENDING job whose event is settled.
  lemma AResetCanLeaveASettledEvent(c: Config) returns (states: seq<System>, steps: seq<Step>, t: TaskId)
    requires c.maxPublishAttempts >= 1 && c.maxIngestionAttempts >= 2
    ensures IsRun(c, states, steps) && states[0] == EMPTY_SYSTEM && |steps| == 5 && steps[4].Reset? && steps[4].t == t
    ensures t in states[3].db.outboxes && steps[4].outboxSeen == Some(states[3].db.outboxes[t])
    ensures t in states[5].db.tasks && states[5].db.tasks[t].status.Pending?
    ensures t in states[5].db.outboxes && !states[5].db.outboxes[t].status.Active()
  {
    hide Commit;
    t := 0;
    var job := NewTask(0, 1);
    var claim, publish := ClaimEvent(2, "relay", 9, c.maxPublishAttempts), MarkPublished(1, "relay", 5);
    var claimed := claim.After(NewEvent(1));
    var published := publish.After(claimed);
    var working := Claim(0, 3, 4).After(job, 3);
    AfterUpload(c);
    AfterRelay(c, job, NewEvent(1), NEW_FILE, map[], claim);
    AfterWorkerClaim(c, job, claimed, NEW_FILE, 3, 4);
    AfterRelay(c, working, claimed, NEW_FILE, map[0 := Claimed], publish);
    var s4 := OneJob(working, published, NEW_FILE, map[0 := Claimed]);
    var s5 := AfterReset(c, s4, claimed);
    states := [EMPTY_SYSTEM, OneJob(job, NewEvent(1), NEW_FILE, map[]), OneJob(job, claimed, NEW_FILE, map[]),
               OneJob(working, claimed, NEW_FILE, map[0 := Claimed]), s4, s5];
    steps := [UPLOAD, Relay(0, claim), WorkerClaim(0, 0, 3, 4), Relay(0, publish),
              Reset(0, 1, Uploaded, Some(claimed), 6, 0, STALE_INGESTION_ERROR)];
    hide OneJob;
    assert Commits(c, states, steps, 0) && Commits(c, states, steps, 1) && Commits(c, states, steps, 2);
    assert Commits(c, states, steps, 3) && Commits(c, states, steps, 4);
  }

  lemma AfterReset(c: Config, s: System, seen: OutboxRow) returns (s': System)
    requires c.maxIngestionAttempts >= 2 && seen.status.Active() && FileOf(s.db, 0) == Some(0)
    requires ResetExpired(1, 6, 0, STALE_INGESTION_ERROR).Admits(s.db.tasks[0]) && s.db.files[0].status.Uploaded?
    ensures Commit(c, s, Reset(0, 1, Uploaded, Some(seen), 6, 0, STALE_INGESTION_ERROR)) == Some(s')
    ensures 0 in s'.db.tasks && s'.db.tasks[0].status.Pending? && s'.db.outboxes == s.db.outboxes
  {
    s' := Commit(c, s, Reset(0, 1, Uploaded, Some(seen), 6, 0, STALE_INGESTION_ERROR)).value;
  }

  // The gap scan reads a dead event, an operator replays it, and the gap branch fails job and file all the same: the
  // active event now announces a failed job.
  lemma AGapFailureCanOvertakeAReplay(maxIngestionAttempts: nat)
    returns (states: seq<System>, steps: seq<Step>, t: TaskId)
    ensures
      var c := Config(maxIngestionAttempts, 1);
      && IsRun(c, states, steps) && states[0] == EMPTY_SYSTEM && |steps| == 5
      && t in states[3].db.tasks && t in states[3].db.outboxes && GapScan(states[3], t, 9)
      && PendingTx(c, states[4].db, t, states[3].db.tasks[t], Some(Uploaded), Some(states[3].db.outboxes[t]), 9)
         == (PairFailed, states[5].db)
      && steps[3].ManualReplay? && t in states[5].db.tasks && states[5].db.tasks[t].status.Failed?
      && t in states[5].db.outboxes && states[5].db.outboxes[t].status.Active()
  {
    hide Commit, PendingTx;
    t := 0;
    var c := Config(maxIngestionAttempts, 1);
    var job := NewTask(0, 1);
    var claim, exhaust := ClaimEvent(2, "relay", 3, 1), MarkDead(1, 4, "broker unreachable");
    var claimed := claim.After(NewEvent(1));
    var dead := exhaust.After(claimed);
    var reopened := ReopenEvent(Dead, 1, 5, true).After(dead);
    AfterUpload(c);
    AfterRelay(c, job, NewEvent(1), NEW_FILE, map[], claim);
    AfterRelay(c, job, claimed, NEW_FILE, map[], exhaust);
    AfterReplay(c, dead);
    var s5 := AfterGapFailure(c, reopened, dead);
    states := [EMPTY_SYSTEM, OneJob(job, NewEvent(1), NEW_FILE, map[]), OneJob(job, claimed, NEW_FILE, map[]),
               OneJob(job, dead, NEW_FILE, map[]), OneJob(job, reopened, NEW_FILE, map[]), s5];
    steps := [UPLOAD, Relay(0, claim), Relay(0, exhaust), ManualReplay(0, 1, 5),
              GapFail(0, 0, 9, DISPATCH_EXHAUSTED_ERROR)];
    hide OneJob;
    assert Commits(c, states, steps, 0) && Commits(c, states, steps, 1) && Commits(c, states, steps, 2);
    assert Commits(c, states, steps, 3) && Commits(c, states, steps, 4);
  }

  lemma AfterReplay(c: Config, dead: OutboxRow)
    requires dead.status.Dead? && dead.attemptCount == 1
    ensures Commit(c, OneJob(NewTask(0, 1), dead, NEW_FILE, map[]), ManualReplay(0, 1, 5))
            == Some(OneJob(NewTask(0, 1), ReopenEvent(Dead, 1, 5, true).After(dead), NEW_FILE, map[]))
  {
    var reopened := ReopenEvent(Dead, 1, 5, true).After(dead);
    assert map[0 := dead][0 := reopened] == map[0 := reopened];
    assert FileOf(OneJob(NewTask(0, 1), dead, NEW_FILE, map[]).db, 0) == Some(0);
  }

  lemma AfterGapFailure(c: Config, event: OutboxRow, seen: OutboxRow) returns (s': System)
    requires seen.status.Dead?
    ensures
      var s := OneJob(NewTask(0, 1), event, NEW_FILE, map[]);
      && Commit(c, s, GapFail(0, 0, 9, DISPATCH_EXHAUSTED_ERROR)) == Some(s')
      && PendingTx(c, s.db, 0, NewTask(0, 1), Some(Uploaded), Some(seen), 9) == (PairFailed, s'.db)
      && 0 in s'.db.tasks && s'.db.tasks[0].status.Failed? && s'.db.outboxes == map[0 := event]
  {
    var s := OneJob(NewTask(0, 1), event, NEW_FILE, map[]);
    s' := Commit(c, s, GapFail(0, 0, 9, DISPATCH_EXHAUSTED_ERROR)).value;
  }

  // ----- the uncaught IntegrityError

  // A sweep crashes only on a job whose event was missing when it was read and has been inserted since.
  lemma ACrashNeedsAMissingEvent(c: Config, db: Db, item: TaskItem, now: Time, legacy: Time)
    requires ReadTogether(item)
    ensures ProcessingTx(c, db, item.t, item.seen, item.fileSeen, item.outboxSeen, now, legacy).0.Crashed? ==>
              item.outboxSeen.None? && item.t in db.outboxes
    ensures PendingTx(c, db, item.t, item.seen, item.fileSeen, item.outboxSeen, now).0.Crashed? ==>
              item.outboxSeen.None? && item.t in db.outboxes
  {
  }

  ghost predicate EveryJobHasItsEvent(s: System) {
    forall t: TaskId :: t in s.db.tasks ==> t in s.db.outboxes
  }

  lemma StepKeepsTheEvents(c: Config, s: System, step: Step, s': System)
    requires EveryJobHasItsEvent(s) && Commit(c, s, step) == Some(s')
    ensures EveryJobHasItsEvent(s')
  {
    hide Commit;
    forall t: TaskId | t in s'.db.tasks ensures t in s'.db.outboxes {
      StepMovesTask(c, s, step, s', t);
      StepMovesEvent(c, s, step, s', t);
    }
  }

  // Jobs created in a run get their event in the same transaction and keep it: no read of theirs finds it missing,
  // so the crash takes a job from before the outbox table.
  lemma {:induction false} EventsAreNeverMissing(c: Config, states: seq<System>, steps: seq<Step>, n: nat)
    requires IsRun(c, states, steps) && EveryJobHasItsEvent(states[0]) && n < |states|
    ensures EveryJobHasItsEvent(states[n])
  {
    if n > 0 {
      EventsAreNeverMissing(c, states, steps, n - 1);
      StepKeepsTheEvents(c, states[n - 1], steps[n - 1], states[n]);
    }
  }

  // From every state with such a job: two reconcilers read the missing event, one inserts it, the other crashes.
  lemma TwoReconcilersCrashOnAnOlderJob(c: Config, db: Db, item: TaskItem, now: Time, later: Time)
    requires ReadTogether(item) && item.t !in db.outboxes && item.outboxSeen.None?
    requires item.fileSeen.Some? && item.fileSeen.value in UNFINISHED_FILE
    ensures
      var (first, db1) := PendingTx(c, db, item.t, item.seen, item.fileSeen, item.outboxSeen, now);
      && first.OutboxCreated? && db1.outboxes == db.outboxes[item.t := NewEvent(now)]
      && PendingTx(c, db1, item.t, item.seen, item.fileSeen, item.outboxSeen, later) == (Crashed, db1)
  {
  }

  // ----- what a reconciler's earlier reads still say

  // Once a job was read with its file, and unless that file id is given to another upload, the job still points at
  // the file or the file is gone.
  lemma {:induction false} ReadsOfFileIdsStayTrue(
    c: Config, states: seq<System>, steps: seq<Step>, t: TaskId, i: nat, j: nat)
    requires IsRun(c, states, steps) && Inv(c, states[0]) && i <= j < |states| && t in states[i].db.tasks
    requires forall k, f: FileId :: i <= k < j && states[i].db.tasks[t].fileId == Some(f) ==>
               !(steps[k].Upload? && steps[k].f == f)
    ensures t in states[j].db.tasks && SameFile(states[j].db, t, states[i].db.tasks[t])
  {
    if i == j {
    } else {
      ReadsOfFileIdsStayTrue(c, states, steps, t, i, j - 1);
      RunKeepsInv(c, states, steps, i);
      StepKeepsTheFile(c, states[j - 1], steps[j - 1], states[j], t);
    }
  }

  // A step leaves a job's file id alone, except that deleting the file clears it; and only an upload adds a file.
  lemma StepKeepsTheFile(c: Config, s: System, step: Step, s': System, t: TaskId)
    requires Commit(c, s, step) == Some(s') && t in s.db.tasks
    ensures t in s'.db.tasks
    ensures s'.db.tasks[t].fileId == s.db.tasks[t].fileId
         || (step.DeleteFile? && s.db.tasks[t].fileId == Some(step.f) && step.f !in s'.db.files)
    ensures forall f: FileId :: f in s'.db.files && f !in s.db.files ==> step.Upload? && step.f == f
  {
    match step
    case Reset(u, a, seen, row, now, legacy, error) =>
      ResetWrites(s.db, u, FileOf(s.db, u).value, a, seen, row, now, legacy, error, s'.db);
      hide ResetTx;
      WritesKeepTheFiles(s.db, s'.db, u, FileOf(s.db, u).value, t);
    case ManualReplay(u, a, now) =>
      ReplayWrites(s.db, u, a, now, s'.db);
      hide ManualReplayTx;
      WritesKeepTheFiles(s.db, s'.db, u, FileOf(s.db, u).value, t);
    case _ =>
      if TouchesTheFile(step) {
        FileStepsKeepTheFile(c, s, step, s', t);
      } else {
        OtherStepsKeepTheFile(c, s, step, s', t);
      }
  }

  lemma WritesKeepTheFiles(db: Db, db': Db, u: TaskId, f: FileId, t: TaskId)
    requires Writes(db, db', u, f) && t in db.tasks
    ensures t in db'.tasks && db'.tasks[t].fileId == db.tasks[t].fileId
    ensures forall g :: g in db'.files ==> g in db.files
  {
  }

  // Transactions that change a job or a phase together with its file.
  predicate TouchesTheFile(step: Step) {
    step.WorkerParse? || step.WorkerIndex? || step.WorkerCleanup? || step.FailExpiredPair? || step.GapFail?
  }

  lemma FileStepsKeepTheFile(c: Config, s: System, step: Step, s': System, t: TaskId)
    requires Commit(c, s, step) == Some(s') && t in s.db.tasks && TouchesTheFile(step)
    ensures t in s'.db.tasks && s'.db.tasks[t].fileId == s.db.tasks[t].fileId
    ensures forall f: FileId :: f in s'.db.files ==> f in s.db.files
  {
  }

  lemma OtherStepsKeepTheFile(c: Config, s: System, step: Step, s': System, t: TaskId)
    requires Commit(c, s, step) == Some(s') && t in s.db.tasks
    requires !step.Reset? && !step.ManualReplay? && !TouchesTheFile(step)
    ensures t in s'.db.tasks
    ensures s'.db.tasks[t].fileId == s.db.tasks[t].fileId
         || (step.DeleteFile? && s.db.tasks[t].fileId == Some(step.f) && step.f !in s'.db.files)
    ensures forall f: FileId :: f in s'.db.files && f !in s.db.files ==> step.Upload? && step.f == f
  {
  }
}
