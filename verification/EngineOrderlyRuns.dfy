/** Runs without power loss: nothing in them takes back what a caller has read, and sequence numbers only grow. */
module EngineOrderlyRuns {
  import opened Basics
  import opened EngineStore
  import opened EngineProtocol
  import opened EngineLogs
  import opened EngineThreads
  import opened EngineDisk
  import opened EngineInvariant
  import opened EngineTheorems
  import opened EngineDurability
  import opened EngineReplays
  import opened EngineViews
  import opened EngineQuietRuns

  /**
   * No power is lost, and the process is killed only with sync on: without it the log's buffer, and with it applied
   * records, can die with the process.
   */
  predicate Orderly(cfg: Config, step: Step) {
    !step.Crash? && !(step.Offline? && step.offline.PowerLoss?) && (step.Kill? ==> cfg.sync)
  }

  predicate AllOrderly(cfg: Config, steps: seq<Step>) {
    forall i :: 0 <= i < |steps| ==> Orderly(cfg, steps[i])
  }

  // ----- The sequence counter

  /** The manifest and the applied operations account for every sequence number handed out. */
  ghost predicate Counted(s: State) {
    s.Up? ==> s.live.store.seqno <= LastSequence(s.disk.manifest) + |AppliedOps(s.disk.log)|
  }

  lemma {:induction false} WriterCounted(cfg: Config, d: Disk, l: Live, t: Tid, step: WriterStep)
    requires LiveInv(false, cfg, d, l) && WriterEnabled(cfg, d, l, t, step) && Counted(Up(d, l))
    ensures Counted(WriterTake(cfg, d, l, t, step))
  {
    hide DiskInv, StoreInv, LinkInv, WholeInv, AppliedOps, ApplyOps, LockFree, Signal, Without, CanSignal, LastSequence;
    assert t in l.agents ==> PlaceOk(cfg, d, l, l.agents[t].pc);
    if step.Append? {
      OpsSnoc(d.log, LogRec(step.batch, false, false));
    } else if step.ResumeWriter? {
      SameBatches(d.log, WriterTake(cfg, d, l, t, step).disk.log);
    } else if !step.SyncFail? && !step.SyncOk? {
      MarkLastOps(d, !step.ApplyStall?);
    }
  }

  lemma {:induction false} TableCounted(cfg: Config, d: Disk, l: Live, t: Tid, step: TableStep)
    requires TableEnabled(cfg, d, l, t, step) && Counted(Up(d, l))
    ensures Counted(TableTake(cfg, d, l, t, step))
  {
    hide AppliedOps, LockFree, Without, WakeAll;
  }

  lemma {:induction false} WorkCounted(cfg: Config, s: State, step: Step)
    requires Enabled(cfg, s, step) && Works(step) && Counted(s)
    ensures Counted(Take(cfg, s, step))
  {
    WorkTakes(cfg, s, step);
    hide Enabled, Take, TableEnabled, TableTake, AppliedOps, LockFree, WakeAll;
    if step.Table? {
      TableCounted(cfg, s.disk, s.live, step.t, step.table);
    }
  }

  lemma {:induction false} OpenCounted(cfg: Config, d: Disk)
    requires DiskInv(false, cfg, d) && OfflineEnabled(cfg, d, Open)
    ensures var s := OfflineTake(cfg, d, Open); s.Up? && s.live.store.seqno == SeqnoOf(Down(d)) && Counted(s)
  {
    hide OfflineEnabled, OfflineTake, DiskInv, AllOps, AppliedOps, Replayed, LastSequence;
    OpenCounts(cfg, d);
    ReplayedOps(d.log);
  }

  lemma {:induction false} CallerCounted(d: Disk, l: Live, t: Tid, step: CallerStep)
    requires CallerEnabled(l, t, step) && Counted(Up(d, l))
    ensures Counted(Up(d, CallerTake(l, t, step)))
  {
    hide CallerTake, CallerEnabled;
    CallerSeqno(l, t, step);
  }

  lemma {:induction false} StoppedCounted(s: State)
    requires s.Down?
    ensures Counted(s)
  {
  }

  lemma {:induction false} StepCounted(cfg: Config, s: State, step: Step)
    requires Inv(false, cfg, s) && Enabled(cfg, s, step) && Counted(s)
    ensures Counted(Take(cfg, s, step))
  {
    hide LiveInv, ThreadsInv, Counted, WriterTake, WriterEnabled, CallerTake, CallerEnabled, OfflineTake,
         OfflineEnabled, DiskInv, DurableGrows;
    DiskOfLive(false, cfg, s);
    if step == Offline(Open) {
      OpenIsDown(cfg, s, step);
      OpenTakes(cfg, s);
      OpenCounted(cfg, s.disk);
    } else if Works(step) {
      WorkCounted(cfg, s, step);
    } else if step.Writer? {
      WriterCounted(cfg, s.disk, s.live, step.t, step.writer);
    } else if step.Caller? {
      CallerCounted(s.disk, s.live, step.t, step.caller);
    } else {
      DownGrows(cfg, s, step);
      StoppedCounted(Take(cfg, s, step));
    }
  }

  /** A kill with sync on keeps every applied record, and so does a close. */
  lemma {:induction false} StopSeqno(cfg: Config, s: State, step: Step)
    requires Inv(false, cfg, s) && Enabled(cfg, s, step) && Counted(s) && Orderly(cfg, step)
    requires step.Kill? || step.CloseEnd?
    ensures s.Up? && SeqnoOf(Take(cfg, s, step)) >= s.live.store.seqno
  {
    hide ThreadsInv, StoreInv, LinkInv, PlacesOk, WholeInv, TablesOk, Covered, WfManifest, AllOps, AppliedOps,
         CloseEndEnabled;
    if step.Kill? {
      AppliedWithin(s.disk.log, step.keepLog);
    } else {
      AppliedWithin(s.disk.log, |s.disk.log|);
      assert s.disk.log[..|s.disk.log|] == s.disk.log;
    }
  }

  lemma {:induction false} CleanupSeqno(cfg: Config, d: Disk, id: nat)
    requires OfflineEnabled(cfg, d, Cleanup(id))
    ensures SeqnoOf(OfflineTake(cfg, d, Cleanup(id))) == SeqnoOf(Down(d))
  {
    hide AddedIds, AllOps, LastSequence;
  }

  lemma {:induction false} OpenSeqno(cfg: Config, s: State)
    requires DiskInv(false, cfg, s.disk) && s.Down? && Enabled(cfg, s, Offline(Open))
    ensures SeqnoOf(Take(cfg, s, Offline(Open))) == SeqnoOf(s)
  {
    hide DiskInv, Enabled, Take, OfflineTake, OfflineEnabled, AllOps, LastSequence;
    OpenTakes(cfg, s);
    OpenCounted(cfg, s.disk);
  }

  lemma {:induction false} OfflineSeqno(cfg: Config, s: State, step: Step)
    requires Enabled(cfg, s, step) && step.Offline? && step.offline.Cleanup?
    ensures SeqnoOf(Take(cfg, s, step)) == SeqnoOf(s)
  {
    hide Enabled, Take, OfflineEnabled, OfflineTake, SeqnoOf;
    OfflineTakes(cfg, s, step);
    CleanupSeqno(cfg, s.disk, step.offline.id);
  }

  lemma {:induction false} RunningSeqno(cfg: Config, s: State, step: Step)
    requires DiskInv(false, cfg, s.disk) && Enabled(cfg, s, step) && (step.Writer? || step.Caller? || Works(step))
    ensures SeqnoOf(Take(cfg, s, step)) >= SeqnoOf(s)
  {
    hide DiskInv, Enabled, Take, DurableGrows;
    if Works(step) {
      WorkGrows(cfg, s, step);
    } else {
      CallGrows(cfg, s, step);
    }
  }

  lemma {:induction false} OrderlySeqno(cfg: Config, s: State, step: Step)
    requires Inv(false, cfg, s) && Enabled(cfg, s, step) && Counted(s) && Orderly(cfg, step)
    ensures SeqnoOf(Take(cfg, s, step)) >= SeqnoOf(s)
  {
    hide Inv, DiskInv, Enabled, Take, Counted;
    DiskOfLive(false, cfg, s);
    if step.Kill? || step.CloseEnd? {
      StopSeqno(cfg, s, step);
    } else if step == Offline(Open) {
      OpenIsDown(cfg, s, step);
      OpenSeqno(cfg, s);
    } else if step.Offline? {
      OfflineSeqno(cfg, s, step);
    } else {
      RunningSeqno(cfg, s, step);
    }
  }

  lemma {:induction false} RunCounted(cfg: Config, s: State, steps: seq<Step>)
    requires Inv(false, cfg, s) && Counted(s) && Run(cfg, s, steps).Some?
    ensures Counted(Run(cfg, s, steps).value)
    decreases steps
  {
    hide Inv, Take, Enabled, Counted;
    if steps != [] {
      StepKeeps(false, cfg, s, steps[0]);
      StepCounted(cfg, s, steps[0]);
      RunCounted(cfg, Take(cfg, s, steps[0]), steps[1..]);
    }
  }

  lemma {:induction false} ReachableCounted(cfg: Config, s: State)
    requires Reachable(cfg, s)
    ensures Counted(s)
  {
    hide Inv, Counted;
    var steps :| Run(cfg, INIT, steps) == Some(s);
    InitHolds(false, cfg);
    StoppedCounted(INIT);
    RunCounted(cfg, INIT, steps);
  }

  /** Without power loss no run, writes included, ever lowers the sequence counter, from any reachable state. */
  lemma {:induction false} OrderlyRunsCountUp(cfg: Config, s: State, steps: seq<Step>)
    requires Reachable(cfg, s) && Run(cfg, s, steps).Some? && AllOrderly(cfg, steps)
    ensures SeqnoOf(Run(cfg, s, steps).value) >= SeqnoOf(s)
    decreases steps
  {
    hide Reachable, Inv, Take, Enabled, Counted, SeqnoOf, Orderly;
    if steps != [] {
      ReachableInv(cfg, s);
      ReachableCounted(cfg, s);
      OrderlySeqno(cfg, s, steps[0]);
      ReachableStep(cfg, s, steps[0]);
      OrderlyRunsCountUp(cfg, Take(cfg, s, steps[0]), steps[1..]);
    }
  }

  // ----- Reads

  /** The same records, and tables that answer the same for keys the records do not name. */
  ghost predicate SameView(a: Disk, b: Disk) {
    AllOps(b.log) == AllOps(a.log) && SameElsewhere(AllOps(a.log), a, b)
  }

  lemma {:induction false} SameViewChain(a: Disk, b: Disk, c: Disk)
    requires SameView(a, b) && SameView(b, c)
    ensures SameView(a, c)
  {
    hide AllOps, Names, DiskHit;
  }

  lemma {:induction false} SameEverything(a: Disk, b: Disk)
    requires AllOps(b.log) == AllOps(a.log) && b.manifest == a.manifest && b.files == a.files
    ensures SameView(a, b)
  {
    hide AllOps, Names, DiskHit;
    SameFiles(a, b);
  }

  lemma {:induction false} UpView(cfg: Config, s: State, step: Step)
    requires Inv(false, cfg, s) && s.Up? && Settled(s.disk) && Enabled(cfg, s, step) && !IsAppend(step)
    requires step.Writer? || step.Caller? || Works(step)
    ensures SameView(s.disk, Take(cfg, s, step).disk)
  {
    DiskIs(cfg, s.disk, s.live);
    AllAppliedOps(s.disk.log);
    hide LiveInv, ThreadsInv, WriterTake, WriterEnabled, CallerTake, CallerEnabled, FlusherTake, FlusherEnabled,
         TableTake, TableEnabled, LockFree, WakeAll, DiskInv, AllOps, AppliedOps, DiskHit, SameView, Names;
    var s' := Take(cfg, s, step);
    if step.Writer? {
      WriterView(cfg, s.disk, s.live, step.t, step.writer);
    } else if step.Table? {
      TableHits(cfg, s.disk, s.live, step.t, step.table);
      TableLog(cfg, s.disk, s.live, step.t, step.table);
      SplitView(s.disk, s'.disk);
    } else {
      SameEverything(s.disk, s'.disk);
    }
  }

  lemma {:induction false} SplitView(a: Disk, b: Disk)
    requires b.log == a.log && SameElsewhere(AllOps(a.log), a, b)
    ensures SameView(a, b)
  {
    hide AllOps, Names, DiskHit;
  }

  lemma {:induction false} TableLog(cfg: Config, d: Disk, l: Live, t: Tid, step: TableStep)
    requires TableEnabled(cfg, d, l, t, step)
    ensures TableTake(cfg, d, l, t, step).disk.log == d.log
  {
    hide FlushEdit, LockFree, Without;
  }

  lemma {:induction false} WriterView(cfg: Config, d: Disk, l: Live, t: Tid, step: WriterStep)
    requires LiveInv(false, cfg, d, l) && WriterEnabled(cfg, d, l, t, step) && Settled(d) && !step.Append?
    ensures SameView(d, WriterTake(cfg, d, l, t, step).disk)
  {
    OnlyResumes(cfg, d, l, t, step);
    hide LiveInv, AllOps, Names, DiskHit, LockFree, Signal, Without, CanSignal, SameView;
    var d' := WriterTake(cfg, d, l, t, step).disk;
    SameBatches(d.log, d'.log);
    SameEverything(d, d');
  }

  /** With nothing pending, no orderly stop loses a record. */
  lemma {:induction false} StopView(cfg: Config, s: State, step: Step)
    requires Inv(false, cfg, s) && Settled(s.disk) && Enabled(cfg, s, step) && Orderly(cfg, step)
    requires step.Kill? || step.CloseEnd?
    ensures SameView(s.disk, Take(cfg, s, step).disk)
  {
    DiskOfLive(false, cfg, s);
    hide Inv, TablesOk, Covered, WfManifest, SameView, CloseEndEnabled, AllOps;
    var d := s.disk;
    if step.Kill? {
      assert |d.log| > 0 ==> d.log[|d.log| - 1].applied;
      assert d.log[..step.keepLog] == d.log;
    }
    SameEverything(d, Take(cfg, s, step).disk);
  }

  lemma {:induction false} OfflineView(cfg: Config, d: Disk, step: OfflineStep)
    requires DiskInv(false, cfg, d) && OfflineEnabled(cfg, d, step) && !step.PowerLoss?
    ensures SameView(d, OfflineTake(cfg, d, step).disk)
  {
    DiskParts(false, cfg, d);
    hide AllOps, Names, DiskHit, TablesOk, WfManifest, Covered;
    if step.Open? {
      OpenSucceeds(false, cfg, d);
      ReplayedOps(d.log);
      hide OpenDisk, LoadTables, AddedIds, ApplyOps, Replayed, RoomToReplay;
      BootstrappedHits(d, OfflineTake(cfg, d, step).disk);
    } else {
      hide AddedIds;
      var d' := OfflineTake(cfg, d, step).disk;
      forall i | 1 <= i < |d.manifest| && i in d.files ensures i in d'.files && d'.files[i] == d.files[i] {
        NamedStays(d.manifest, i);
      }
      forall key ensures DiskHit(d', key) == DiskHit(d, key) {
        SameHit(d, d', key);
      }
    }
  }

  lemma {:induction false} OrderlyView(cfg: Config, s: State, step: Step)
    requires Inv(false, cfg, s) && Settled(s.disk) && Enabled(cfg, s, step) && Orderly(cfg, step) && !IsAppend(step)
    ensures var d' := Take(cfg, s, step).disk; SameView(s.disk, d') && Settled(d')
  {
    StepLog(cfg, s, step);
    DiskOfLive(false, cfg, s);
    OpenIsDown(cfg, s, step);
    hide Inv, DiskInv, SameView, OfflineTake, OfflineEnabled, WriterTake, WriterEnabled, CallerTake, CallerEnabled,
         TableTake, TableEnabled, FlusherTake, FlusherEnabled, CloseEndEnabled, KillEnabled, LockFree;
    if step.Kill? || step.CloseEnd? {
      StopView(cfg, s, step);
    } else if step.Offline? {
      OfflineView(cfg, s.disk, step.offline);
    } else {
      UpView(cfg, s, step);
    }
  }

  lemma {:induction false} OrderlyRunView(cfg: Config, s: State, steps: seq<Step>)
    requires Inv(false, cfg, s) && Settled(s.disk) && Run(cfg, s, steps).Some? && AllOrderly(cfg, steps)
    requires forall i :: 0 <= i < |steps| ==> !IsAppend(steps[i])
    ensures var d' := Run(cfg, s, steps).value.disk; SameView(s.disk, d') && Settled(d')
    decreases steps
  {
    hide Inv, Take, Enabled, SameView, Orderly, Settled, AllOps;
    if steps == [] {
      SameEverything(s.disk, s.disk);
    } else {
      var s' := Take(cfg, s, steps[0]);
      StepKeeps(false, cfg, s, steps[0]);
      OrderlyView(cfg, s, steps[0]);
      OrderlyRunView(cfg, s', steps[1..]);
      SameViewChain(s.disk, s'.disk, Run(cfg, s, steps).value.disk);
    }
  }

  /**
   * Replaying the log over and over is harmless. In either mode, from every reachable state with nothing waiting to
   * be applied, whatever kills and power losses lie behind it: any sequence of flushes, failures, closes, cleanups
   * and reopenings - and kills, with sync on - leaves every read as it was and never lowers the sequence counter.
   * So with sync on only a power loss can take a read back.
   */
  lemma {:induction false} OrderlyReplayHarmless(cfg: Config, s: State, steps: seq<Step>)
    requires Reachable(cfg, s) && s.Up? && Settled(s.disk)
    requires Run(cfg, s, steps).Some? && AllOrderly(cfg, steps) && forall i :: 0 <= i < |steps| ==> !IsAppend(steps[i])
    ensures var s' := Run(cfg, s, steps).value;
            && SeqnoOf(s') >= SeqnoOf(s)
            && (s'.Up? ==> SameReads(s'.live.store, s.live.store))
  {
    hide Inv, Take, Enabled, Orderly, SeqnoOf, FirstHit, SameView;
    var s' := Run(cfg, s, steps).value;
    OrderlyRunsCountUp(cfg, s, steps);
    ReachableInv(cfg, s);
    OrderlyRunView(cfg, s, steps);
    if s'.Up? {
      ReachableRun(cfg, s, steps);
      hide Reachable, Run;
      forall key ensures FirstHit(s'.live.store, key) == FirstHit(s.live.store, key) {
        ReachableView(cfg, s, key);
        ReachableView(cfg, s', key);
        SameViewReads(s.disk, s'.disk, key);
      }
    }
  }

  lemma {:induction false} SameViewReads(a: Disk, b: Disk, key: Bytes)
    requires Settled(a) && Settled(b) && SameView(a, b)
    ensures Overlay(AppliedOps(a.log), a, key) == Overlay(AppliedOps(b.log), b, key)
  {
    AllAppliedOps(a.log);
    AllAppliedOps(b.log);
    hide AllOps, AppliedOps, LastOp, FoldView, DiskHit;
  }

  lemma {:induction false} ReachableRun(cfg: Config, s: State, steps: seq<Step>)
    requires Reachable(cfg, s) && Run(cfg, s, steps).Some?
    ensures Reachable(cfg, Run(cfg, s, steps).value)
  {
    hide Take, Enabled, Run;
    var before :| Run(cfg, INIT, before) == Some(s);
    RunConcat(cfg, INIT, before, steps);
  }

  // ----- Clean shutdown

  /** Everything written is also durable. */
  predicate AllDurable(d: Disk) {
    d.logSynced == |d.log| && d.logWritten == |d.log| && d.manifestSynced == |d.manifest|
  }

  predicate AllOffline(steps: seq<Step>) {
    forall i :: 0 <= i < |steps| ==> steps[i].Offline?
  }

  /** On a disk with everything durable a power loss changes nothing. */
  lemma {:induction false} NothingToLose(cfg: Config, d: Disk, step: Step)
    requires AllDurable(d) && Enabled(cfg, Down(d), step) && step.Offline? && step.offline.PowerLoss?
    ensures Take(cfg, Down(d), step) == Down(d)
  {
    OfflineTakes(cfg, Down(d), step);
  }

  lemma {:induction false} CleanupStaysDurable(cfg: Config, d: Disk, step: Step)
    requires AllDurable(d) && Enabled(cfg, Down(d), step) && step.Offline? && step.offline.Cleanup?
    ensures var s' := Take(cfg, Down(d), step); s'.Down? && AllDurable(s'.disk)
  {
    hide AddedIds;
    OfflineTakes(cfg, Down(d), step);
  }

  /** So the power losses of a run that starts from such a disk can be left out of it. */
  lemma {:induction false} LeaveLossesOut(cfg: Config, d: Disk, steps: seq<Step>) returns (kept: seq<Step>)
    requires AllDurable(d) && AllOffline(steps) && Run(cfg, Down(d), steps).Some?
    ensures AllOffline(kept) && AllOrderly(cfg, kept) && Run(cfg, Down(d), kept) == Run(cfg, Down(d), steps)
    decreases |steps|
  {
    hide Take, Enabled, AllDurable;
    if steps == [] {
      kept := [];
    } else if steps[0].offline.Open? {
      kept := steps;
      OpenIsLast(cfg, d, steps);
    } else if steps[0].offline.PowerLoss? {
      NothingToLose(cfg, d, steps[0]);
      kept := LeaveLossesOut(cfg, d, steps[1..]);
    } else {
      CleanupStaysDurable(cfg, d, steps[0]);
      var d' := Take(cfg, Down(d), steps[0]).disk;
      var rest := LeaveLossesOut(cfg, d', steps[1..]);
      kept := [steps[0]] + rest;
      assert kept[1..] == rest;
    }
  }

  lemma {:induction false} OpenIsLast(cfg: Config, d: Disk, steps: seq<Step>)
    requires AllOffline(steps) && steps != [] && steps[0].offline.Open? && Run(cfg, Down(d), steps).Some?
    ensures steps == [steps[0]]
  {
    hide OfflineEnabled, OfflineTake, Take;
    OfflineTakes(cfg, Down(d), steps[0]);
    OpensUp(cfg, d);
  }

  /**
   * Close makes everything durable, whatever the mode: from every reachable state with nothing waiting to be
   * applied, a close followed by any number of power losses and cleanups and a reopening leaves every read as it was.
   */
  lemma {:induction false} CloseLosesNothing(cfg: Config, s: State, steps: seq<Step>)
    requires Reachable(cfg, s) && s.Up? && Settled(s.disk) && AllOffline(steps)
    requires Run(cfg, s, [CloseEnd] + steps).Some?
    ensures var s' := Run(cfg, s, [CloseEnd] + steps).value;
            && SeqnoOf(s') >= SeqnoOf(s)
            && (s'.Up? ==> SameReads(s'.live.store, s.live.store))
  {
    hide Take, Enabled, Orderly, SeqnoOf, SameReads, Reachable, Settled, AllDurable;
    assert ([CloseEnd] + steps)[1..] == steps;
    var closed := Take(cfg, s, CloseEnd);
    ClosedIsDurable(cfg, s);
    var kept := LeaveLossesOut(cfg, closed.disk, steps);
    assert ([CloseEnd] + kept)[1..] == kept;
    CloseIsOrderly(cfg);
    OrderlyReplayHarmless(cfg, s, [CloseEnd] + kept);
  }

  lemma {:induction false} CloseIsOrderly(cfg: Config)
    ensures Orderly(cfg, CloseEnd)
  {
  }

  lemma {:induction false} ClosedIsDurable(cfg: Config, s: State)
    requires Enabled(cfg, s, CloseEnd)
    ensures Take(cfg, s, CloseEnd).Down? && AllDurable(Take(cfg, s, CloseEnd).disk)
  {
    StopTakes(cfg, s, CloseEnd);
  }
}
