/** A sweep of the reconciler decides each of its jobs and files as if it were the only one. */
module IngestionSweeps {
  import opened Wrappers
  import opened TaskRepo
  import opened TaskOutboxRepo
  import opened KnowledgeRepo
  import opened IngestionProtocol
  import opened IngestionRecovery
  import opened IngestionVerdicts

  // ----- jobs

  // Jobs active at one instant have different files.
  ghost predicate DistinctJobs(items: seq<TaskItem>) {
    forall i, j :: 0 <= i < j < |items| ==>
                     && items[i].t != items[j].t
                     && (items[i].seen.fileId.Some? ==> items[i].seen.fileId != items[j].seen.fileId)
  }

  predicate SameRows(db: Db, db': Db, item: TaskItem) {
    SameTask(db, db', item.t) && SameEvent(db, db', item.t) && SameFileRows(db, db', item.seen.fileId)
  }

  // Verdict and rows depend on the item's own rows only.
  lemma StaleVerdictIsLocal(c: Config, x: Db, y: Db, item: TaskItem, now: Time, legacy: Time, outcome: Outcome)
    requires SameRows(x, y, item)
    ensures StaleJobOutcome(c, x, item, now, legacy, outcome) ==> StaleJobOutcome(c, y, item, now, legacy, outcome)
  {
    assert Abandoned(x, item.t, item.seen.attemptCount, now, legacy) == Abandoned(y, item.t, item.seen.attemptCount, now, legacy);
  }

  lemma GapVerdictIsLocal(c: Config, x: Db, y: Db, item: TaskItem, outcome: Outcome)
    requires SameRows(x, y, item)
    ensures GapOutcome(c, x, item, outcome) ==> GapOutcome(c, y, item, outcome)
  {
  }

  lemma RowsAreLocal(x: Db, y: Db, x': Db, y': Db, item: TaskItem, outcome: Outcome, exhausted: string, now: Time)
    requires SameRows(x, y, item) && SameRows(x', y', item) && Leaves(x, x', item, outcome, exhausted, now)
    ensures Leaves(y, y', item, outcome, exhausted, now)
  {
  }

  // A sweep is local: items outside it see the rows they would have seen before it.
  ghost predicate Untouched(db: Db, db': Db, items: seq<TaskItem>) {
    && (forall u: TaskId :: (forall k :: 0 <= k < |items| ==> items[k].t != u) ==> SameTask(db, db', u) && SameEvent(db, db', u))
    && (forall g: FileId :: (forall k :: 0 <= k < |items| ==> items[k].seen.fileId != Some(g)) ==> SameFileRows(db, db', Some(g)))
  }

  lemma UntouchedOneMore(db: Db, db1: Db, db2: Db, items: seq<TaskItem>)
    requires items != [] && Untouched(db, db1, items[..|items| - 1]) && LeavesOthers(db1, db2, items[|items| - 1])
    ensures Untouched(db, db2, items)
  {
    hide At;
    var init, last := items[..|items| - 1], items[|items| - 1];
    forall u: TaskId | forall k :: 0 <= k < |items| ==> items[k].t != u
      ensures SameTask(db, db2, u) && SameEvent(db, db2, u)
    {
      assert forall k :: 0 <= k < |init| ==> init[k] == items[k];
      assert SameTask(db1, db2, u) && SameTask(db, db1, u);
    }
    forall g: FileId | forall k :: 0 <= k < |items| ==> items[k].seen.fileId != Some(g) ensures SameFileRows(db, db2, Some(g)) {
      assert forall k :: 0 <= k < |init| ==> init[k] == items[k];
      assert SameFileRows(db1, db2, Some(g)) && SameFileRows(db, db1, Some(g));
    }
  }

  lemma OthersSeeSameRows(db: Db, db': Db, items: seq<TaskItem>, item: TaskItem)
    requires Untouched(db, db', items)
    requires forall k :: 0 <= k < |items| ==>
                           && items[k].t != item.t
                           && (item.seen.fileId.Some? ==> items[k].seen.fileId != item.seen.fileId)
    ensures SameRows(db, db', item) && SameRows(db', db, item)
  {
    hide At;
    assert SameTask(db, db', item.t) && SameEvent(db, db', item.t);
    if item.seen.fileId.Some? {
      assert SameFileRows(db, db', Some(item.seen.fileId.value));
    }
  }

  // The sweep over stale jobs decides every job by the rows from before the sweep, and leaves each as its own
  // transaction would have.
  lemma {:induction false} StaleSweepVerdicts(c: Config, db: Db, items: seq<TaskItem>, now: Time, legacy: Time)
    requires (forall i :: 0 <= i < |items| ==> ReadTogether(items[i])) && DistinctJobs(items)
    ensures
      var (outcomes, db') := SweepProcessing(c, db, items, now, legacy);
      && |outcomes| <= |items| && Untouched(db, db', items)
      && (Crashed !in outcomes ==> |outcomes| == |items|)
      && (forall k :: 0 <= k < |outcomes| ==>
            && StaleJobOutcome(c, db, items[k], now, legacy, outcomes[k])
            && Leaves(db, db', items[k], outcomes[k], STALE_INGESTION_ERROR, now))
  {
    hide StaleJobOutcome, Leaves, LeavesOthers, Untouched, SameRows, ProcessingTx;
    if items == [] {
      NothingSwept(db);
    } else {
      var init, last := items[..|items| - 1], items[|items| - 1];
      StaleSweepVerdicts(c, db, init, now, legacy);
      var (outcomes, db1) := SweepProcessing(c, db, init, now, legacy);
      if Crashed in outcomes {
        UntouchedByMore(db, db1, items);
      } else {
        var (outcome, db2) := ProcessingTx(c, db1, last.t, last.seen, last.fileSeen, last.outboxSeen, now, legacy);
        StaleJobVerdict(c, db1, last, now, legacy);
        StaleJobRows(c, db1, last, now, legacy);
        OneMoreItem(db, db1, db2, items, outcomes, outcome, STALE_INGESTION_ERROR, now);
        OthersSeeSameRows(db, db1, init, last);
        StaleVerdictIsLocal(c, db1, db, last, now, legacy, outcome);
      }
    }
  }

  lemma NothingSwept(db: Db)
    ensures Untouched(db, db, [])
  {
  }

  lemma UntouchedByMore(db: Db, db': Db, items: seq<TaskItem>)
    requires items != [] && Untouched(db, db', items[..|items| - 1])
    ensures Untouched(db, db', items)
  {
    UntouchedOneMore(db, db', db', items);
  }

  lemma OneMoreItem(db: Db, db1: Db, db2: Db, items: seq<TaskItem>, outcomes: seq<Outcome>, outcome: Outcome,
                    exhausted: string, now: Time)
    requires items != [] && DistinctJobs(items) && |outcomes| == |items| - 1
    requires Untouched(db, db1, items[..|items| - 1]) && LeavesOthers(db1, db2, items[|items| - 1])
    requires forall k :: 0 <= k < |outcomes| ==> Leaves(db, db1, items[k], outcomes[k], exhausted, now)
    requires Leaves(db1, db2, items[|items| - 1], outcome, exhausted, now)
    ensures Untouched(db, db2, items)
    ensures forall k :: 0 <= k < |items| ==> Leaves(db, db2, items[k], (outcomes + [outcome])[k], exhausted, now)
  {
    hide Leaves, LeavesOthers, Untouched, SameRows;
    var init, last := items[..|items| - 1], items[|items| - 1];
    UntouchedOneMore(db, db1, db2, items);
    OthersSeeSameRows(db, db1, init, last);
    NothingChanges(db2, last);
    RowsAreLocal(db1, db, db2, db2, last, outcome, exhausted, now);
    forall k | 0 <= k < |outcomes| ensures Leaves(db, db2, items[k], outcomes[k], exhausted, now) {
      OthersKeepTheirRows(db1, db2, last, items[k]);
      NothingChanges(db, items[k]);
      RowsAreLocal(db, db, db1, db2, items[k], outcomes[k], exhausted, now);
    }
  }

  lemma NothingChanges(db: Db, item: TaskItem)
    ensures SameRows(db, db, item)
  {
  }

  lemma OthersKeepTheirRows(db: Db, db': Db, last: TaskItem, item: TaskItem)
    requires LeavesOthers(db, db', last) && item.t != last.t
    requires item.seen.fileId.Some? ==> item.seen.fileId != last.seen.fileId
    ensures SameRows(db, db', item)
  {
    hide At;
    if item.seen.fileId.Some? {
      assert SameFileRows(db, db', Some(item.seen.fileId.value));
    }
  }

  // So does the sweep over the gaps.
  lemma {:induction false} GapSweepVerdicts(c: Config, db: Db, items: seq<TaskItem>, now: Time)
    requires (forall i :: 0 <= i < |items| ==> ReadTogether(items[i])) && DistinctJobs(items)
    ensures
      var (outcomes, db') := SweepPending(c, db, items, now);
      && |outcomes| <= |items| && Untouched(db, db', items)
      && (Crashed !in outcomes ==> |outcomes| == |items|)
      && (forall k :: 0 <= k < |outcomes| ==>
            && GapOutcome(c, db, items[k], outcomes[k])
            && Leaves(db, db', items[k], outcomes[k], DISPATCH_EXHAUSTED_ERROR, now))
  {
    hide GapOutcome, Leaves, LeavesOthers, Untouched, SameRows, PendingTx;
    if items == [] {
      NothingSwept(db);
    } else {
      var init, last := items[..|items| - 1], items[|items| - 1];
      GapSweepVerdicts(c, db, init, now);
      var (outcomes, db1) := SweepPending(c, db, init, now);
      if Crashed in outcomes {
        UntouchedByMore(db, db1, items);
      } else {
        var (outcome, db2) := PendingTx(c, db1, last.t, last.seen, last.fileSeen, last.outboxSeen, now);
        GapVerdict(c, db1, last, now);
        GapRows(c, db1, last, now);
        OneMoreItem(db, db1, db2, items, outcomes, outcome, DISPATCH_EXHAUSTED_ERROR, now);
        OthersSeeSameRows(db, db1, init, last);
        GapVerdictIsLocal(c, db1, db, last, outcome);
      }
    }
  }

  // ----- orphan files

  ghost predicate DistinctOrphans(items: seq<OrphanItem>) {
    forall i, j :: 0 <= i < j < |items| ==> items[i].f != items[j].f && items[i].newTask != items[j].newTask
  }

  // Jobs appear on the items' files only.
  ghost predicate UntouchedByOrphans(db: Db, db': Db, items: seq<OrphanItem>) {
    && (forall u: TaskId :: (forall k :: 0 <= k < |items| ==> items[k].newTask != u) ==>
          SameTask(db, db', u) && SameEvent(db, db', u))
    && (forall g: FileId :: (forall k :: 0 <= k < |items| ==> items[k].f != g) ==>
          At(db'.files, g) == At(db.files, g) && (NoActiveJob(db', g) <==> NoActiveJob(db, g)))
    && db'.chunks == db.chunks
  }

  lemma OrphansOneMore(db: Db, db1: Db, db2: Db, items: seq<OrphanItem>)
    requires items != [] && UntouchedByOrphans(db, db1, items[..|items| - 1])
    requires OrphanLeavesOthers(db1, db2, items[|items| - 1])
    ensures UntouchedByOrphans(db, db2, items)
  {
    var init, last := items[..|items| - 1], items[|items| - 1];
    forall u: TaskId | forall k :: 0 <= k < |items| ==> items[k].newTask != u
      ensures SameTask(db, db2, u) && SameEvent(db, db2, u)
    {
      assert forall k :: 0 <= k < |init| ==> init[k] == items[k];
      assert SameTask(db1, db2, u) && SameTask(db, db1, u);
    }
    forall g: FileId | forall k :: 0 <= k < |items| ==> items[k].f != g
      ensures At(db2.files, g) == At(db.files, g) && (NoActiveJob(db2, g) <==> NoActiveJob(db, g))
    {
      assert forall k :: 0 <= k < |init| ==> init[k] == items[k];
      assert At(db2.files, g) == At(db1.files, g) == At(db.files, g);
      NoJobAppears(db1, db2, last, g);
    }
  }

  lemma NoJobAppears(db: Db, db': Db, item: OrphanItem, g: FileId)
    requires OrphanLeavesOthers(db, db', item) && g != item.f
    ensures NoActiveJob(db', g) <==> NoActiveJob(db, g)
  {
    forall t: TaskId ensures t in db.tasks && db.tasks[t].fileId == Some(g) ==> t in db'.tasks && db'.tasks[t] == db.tasks[t] {
      assert t != item.newTask ==> SameTask(db, db', t);
    }
    forall t: TaskId ensures t in db'.tasks && db'.tasks[t].fileId == Some(g) ==> t in db.tasks && db'.tasks[t] == db.tasks[t] {
      assert t != item.newTask ==> SameTask(db, db', t);
    }
  }

  predicate SameOrphanRows(db: Db, db': Db, item: OrphanItem) {
    SameTask(db, db', item.newTask) && SameEvent(db, db', item.newTask) && At(db'.files, item.f) == At(db.files, item.f)
  }

  lemma OrphanIsLocal(x: Db, y: Db, x': Db, y': Db, item: OrphanItem, outcome: Outcome, free: bool, now: Time)
    requires SameOrphanRows(x, y, item) && SameOrphanRows(x', y', item)
    ensures OrphanOutcome(x, item, outcome, free) ==> OrphanOutcome(y, item, outcome, free)
    ensures OrphanLeaves(x, x', item, outcome, now) ==> OrphanLeaves(y, y', item, outcome, now)
  {
  }

  lemma OthersSeeSameOrphanRows(db: Db, db': Db, items: seq<OrphanItem>, item: OrphanItem)
    requires UntouchedByOrphans(db, db', items)
    requires forall k :: 0 <= k < |items| ==> items[k].f != item.f && items[k].newTask != item.newTask
    ensures SameOrphanRows(db', db, item) && (NoActiveJob(db', item.f) <==> NoActiveJob(db, item.f))
  {
    hide At, NoActiveJob;
    assert SameTask(db, db', item.newTask) && SameEvent(db, db', item.newTask);
  }

  lemma OtherOrphansKeepTheirRows(db: Db, db': Db, last: OrphanItem, item: OrphanItem)
    requires OrphanLeavesOthers(db, db', last) && item.f != last.f && item.newTask != last.newTask
    ensures SameOrphanRows(db, db', item)
  {
    hide At;
  }

  lemma OneMoreOrphan(db: Db, db1: Db, db2: Db, items: seq<OrphanItem>, outcomes: seq<Outcome>, outcome: Outcome, now: Time)
    requires items != [] && DistinctOrphans(items) && |outcomes| == |items| - 1
    requires UntouchedByOrphans(db, db1, items[..|items| - 1]) && OrphanLeavesOthers(db1, db2, items[|items| - 1])
    requires forall k :: 0 <= k < |outcomes| ==> OrphanLeaves(db, db1, items[k], outcomes[k], now)
    requires OrphanLeaves(db1, db2, items[|items| - 1], outcome, now)
    ensures UntouchedByOrphans(db, db2, items)
    ensures forall k :: 0 <= k < |items| ==> OrphanLeaves(db, db2, items[k], (outcomes + [outcome])[k], now)
  {
    hide OrphanLeaves, OrphanLeavesOthers, UntouchedByOrphans;
    var init, last := items[..|items| - 1], items[|items| - 1];
    OrphansOneMore(db, db1, db2, items);
    OthersSeeSameOrphanRows(db, db1, init, last);
    OrphanIsLocal(db1, db, db2, db2, last, outcome, true, now);
    forall k | 0 <= k < |outcomes| ensures OrphanLeaves(db, db2, items[k], outcomes[k], now) {
      OtherOrphansKeepTheirRows(db1, db2, last, items[k]);
      OrphanIsLocal(db, db, db1, db2, items[k], outcomes[k], true, now);
    }
  }

  // And the sweep over the orphan files.
  lemma {:induction false} OrphanSweepVerdicts(db: Db, items: seq<OrphanItem>, now: Time)
    requires DistinctOrphans(items)
    ensures
      var (outcomes, db') := SweepOrphans(db, items, now);
      && |outcomes| == |items| && UntouchedByOrphans(db, db', items)
      && forall k :: 0 <= k < |items| ==>
           && OrphanOutcome(db, items[k], outcomes[k], NoActiveJob(db, items[k].f))
           && OrphanLeaves(db, db', items[k], outcomes[k], now)
  {
    hide OrphanTx, OrphanOutcome, OrphanLeaves, OrphanLeavesOthers, UntouchedByOrphans, NoActiveJob, SameOrphanRows;
    if items == [] {
      NoOrphans(db);
    } else {
      var init, last := items[..|items| - 1], items[|items| - 1];
      OrphanSweepVerdicts(db, init, now);
      var (outcomes, db1) := SweepOrphans(db, init, now);
      var (outcome, db2) := OrphanTx(db1, last.newTask, last.f, last.owner, now);
      OrphanVerdict(db1, last, now);
      OneMoreOrphan(db, db1, db2, items, outcomes, outcome, now);
      OthersSeeSameOrphanRows(db, db1, init, last);
      OrphanIsLocal(db1, db, db1, db, last, outcome, NoActiveJob(db, last.f), now);
    }
  }

  lemma NoOrphans(db: Db)
    ensures UntouchedByOrphans(db, db, [])
  {
  }

  // ----- the whole pass

  // One whole pass of the reconciler, whose scans of jobs have found different jobs: every job is decided by the rows
  // from before the pass, and every orphan file by the rows the jobs have left.
  lemma FullSweepVerdicts(c: Config, db: Db, stale: seq<TaskItem>, gaps: seq<TaskItem>, orphans: seq<OrphanItem>,
                          now: Time, legacy: Time)
    requires forall i :: 0 <= i < |stale| ==> ReadTogether(stale[i])
    requires forall i :: 0 <= i < |gaps| ==> ReadTogether(gaps[i])
    requires DistinctJobs(stale + gaps) && DistinctOrphans(orphans)
    requires Crashed !in FullSweep(c, db, stale, gaps, orphans, now, legacy).0
    ensures
      var outcomes := FullSweep(c, db, stale, gaps, orphans, now, legacy).0;
      var between := SweepPending(c, SweepProcessing(c, db, stale, now, legacy).1, gaps, now).1;
      && |outcomes| == |stale| + |gaps| + |orphans|
      && (forall k :: 0 <= k < |stale| ==> StaleJobOutcome(c, db, stale[k], now, legacy, outcomes[k]))
      && (forall k :: 0 <= k < |gaps| ==> GapOutcome(c, db, gaps[k], outcomes[|stale| + k]))
      && (forall k :: 0 <= k < |orphans| ==>
            OrphanOutcome(between, orphans[k], outcomes[|stale| + |gaps| + k], NoActiveJob(between, orphans[k].f)))
  {
    hide StaleJobOutcome, GapOutcome, OrphanOutcome, NoActiveJob, Leaves, OrphanLeaves, Untouched, UntouchedByOrphans, SameRows,
      SweepProcessing, SweepPending, SweepOrphans, DistinctOrphans;
    DistinctParts(stale, gaps);
    StaleSweepVerdicts(c, db, stale, now, legacy);
    var (first, db1) := SweepProcessing(c, db, stale, now, legacy);
    GapSweepVerdicts(c, db1, gaps, now);
    var (second, db2) := SweepPending(c, db1, gaps, now);
    OrphanSweepVerdicts(db2, orphans, now);
    forall k | 0 <= k < |gaps| ensures GapOutcome(c, db, gaps[k], second[k]) {
      assert forall i :: 0 <= i < |stale| ==> (stale + gaps)[i] == stale[i];
      assert (stale + gaps)[|stale| + k] == gaps[k];
      OthersSeeSameRows(db, db1, stale, gaps[k]);
      GapVerdictIsLocal(c, db1, db, gaps[k], second[k]);
    }
  }

  lemma DistinctParts(first: seq<TaskItem>, second: seq<TaskItem>)
    requires DistinctJobs(first + second)
    ensures DistinctJobs(first) && DistinctJobs(second)
  {
    var all := first + second;
    assert forall i :: 0 <= i < |first| ==> all[i] == first[i];
    assert forall i :: 0 <= i < |second| ==> all[|first| + i] == second[i];
  }
}
