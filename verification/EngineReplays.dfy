/** Repeated replay: what reopening over and over does to the sequence counter and to reads. */
module EngineReplays {
  import opened Basics
  import opened VersionEdits
  import opened ManifestReplay
  import opened EngineStore
  import opened EngineProtocol
  import opened EngineLogs
  import opened EngineThreads
  import opened EngineDisk
  import opened EngineInvariant
  import opened EngineTheorems
  import opened EngineDurability

  // ----- The sequence counter

  function LastSequence(m: seq<VersionEdit>): nat {
    if m == [] then 0 else m[|m| - 1].lastSequence
  }

  /** The counter the process has, or would start from if it opened now. */
  function SeqnoOf(s: State): nat {
    match s
    case Up(_, l) => l.store.seqno
    case Down(d) => LastSequence(d.manifest) + |AllOps(d.log)|
  }

  /** The counter that an Open would start from if only what is durable survived. */
  function Floor(d: Disk): nat
    requires d.logSynced <= |d.log| && d.manifestSynced <= |d.manifest|
  {
    LastSequence(d.manifest[..d.manifestSynced]) + |AllOps(d.log[..d.logSynced])|
  }

  ghost predicate Bounds(d: Disk) {
    d.logSynced <= |d.log| && d.manifestSynced <= |d.manifest|
  }

  /** What keeps a counter from ever falling below c. */
  ghost predicate AtLeast(s: State, c: nat) {
    Bounds(s.disk) && Floor(s.disk) >= c && (s.Up? ==> s.live.store.seqno >= c)
  }

  lemma {:induction false} SequencePrefix(m: seq<VersionEdit>, a: nat, b: nat)
    requires WfManifest(m) && a <= b <= |m|
    ensures LastSequence(m[..a]) <= LastSequence(m[..b])
  {
  }

  lemma {:induction false} OpsPrefix(log: seq<LogRec>, a: nat, b: nat)
    requires a <= b <= |log|
    ensures |AllOps(log[..a])| <= |AllOps(log[..b])|
  {
    assert log[..b] == log[..a] + log[a..b];
    AllOpsConcat(log[..a], log[a..b]);
  }

  /** What one step may do to the durable part of the disk: only add to it. */
  ghost predicate DurableGrows(a: Disk, b: Disk) {
    && Bounds(a) && Bounds(b)
    && a.logSynced <= b.logSynced && BatchesOf(a.log[..a.logSynced]) == BatchesOf(b.log[..a.logSynced])
    && a.manifestSynced <= b.manifestSynced && a.manifest[..a.manifestSynced] == b.manifest[..a.manifestSynced]
  }

  lemma {:induction false} GrowingFloor(a: Disk, b: Disk)
    requires DurableGrows(a, b) && WfManifest(b.manifest)
    ensures Floor(a) <= Floor(b)
  {
    SequencePrefix(b.manifest, a.manifestSynced, b.manifestSynced);
    OpsPrefix(b.log, a.logSynced, b.logSynced);
    forall i | 0 <= i < a.logSynced ensures a.log[..a.logSynced][i].batch == b.log[..a.logSynced][i].batch {
      assert BatchesOf(a.log[..a.logSynced])[i] == BatchesOf(b.log[..a.logSynced])[i];
    }
    SameBatches(a.log[..a.logSynced], b.log[..a.logSynced]);
    hide AllOps;
  }

  lemma {:induction false} WriterGrows(cfg: Config, d: Disk, l: Live, t: Tid, step: WriterStep)
    requires DiskInv(false, cfg, d) && WriterEnabled(cfg, d, l, t, step)
    ensures DurableGrows(d, WriterTake(cfg, d, l, t, step).disk)
    ensures WriterTake(cfg, d, l, t, step).live.store.seqno >= l.store.seqno
  {
    hide TablesOk, Covered, WfManifest, ApplyOps, LockFree, Signal, Without, CanSignal;
  }

  lemma {:induction false} CallerSeqno(l: Live, t: Tid, step: CallerStep)
    requires CallerEnabled(l, t, step)
    ensures CallerTake(l, t, step).store.seqno == l.store.seqno
  {
    hide LockFree, Without, Signal;
  }

  lemma {:induction false} DiskBounds(cfg: Config, d: Disk)
    requires DiskInv(false, cfg, d)
    ensures Bounds(d) && d.logSynced <= d.logWritten <= |d.log| && (d.manifest != [] ==> d.manifestSynced >= 1)
  {
  }

  lemma {:induction false} SameDurable(a: Disk, b: Disk)
    requires Bounds(a) && Bounds(b) && a.logSynced <= b.logSynced && a.manifestSynced <= b.manifestSynced
    requires b.log[..a.logSynced] == a.log[..a.logSynced]
    requires b.manifest[..a.manifestSynced] == a.manifest[..a.manifestSynced]
    ensures DurableGrows(a, b)
  {
  }

  lemma {:induction false} CrashGrows(d: Disk, keepLog: nat, keepManifest: nat)
    requires CrashEnabled(d, keepLog, keepManifest) && Bounds(d)
    ensures DurableGrows(d, AfterCrash(d, keepLog, keepManifest))
  {
    hide DurableGrows;
    var b := AfterCrash(d, keepLog, keepManifest);
    assert d.log[..keepLog][..d.logSynced] == d.log[..d.logSynced];
    assert d.manifest[..keepManifest][..d.manifestSynced] == d.manifest[..d.manifestSynced];
    SameDurable(d, b);
  }

  lemma {:induction false} KillGrows(d: Disk, keepLog: nat)
    requires KillEnabled(d, keepLog) && Bounds(d) && d.logSynced <= keepLog
    ensures DurableGrows(d, AfterKill(d, keepLog))
  {
    hide DurableGrows;
    assert d.log[..keepLog][..d.logSynced] == d.log[..d.logSynced];
    SameDurable(d, AfterKill(d, keepLog));
  }

  lemma {:induction false} TableGrows(cfg: Config, d: Disk, l: Live, t: Tid, step: TableStep)
    requires TableEnabled(cfg, d, l, t, step) && Bounds(d)
    ensures TableTake(cfg, d, l, t, step).live.store.seqno == l.store.seqno
    ensures DurableGrows(d, TableTake(cfg, d, l, t, step).disk)
  {
    hide DurableGrows, LockFree, Without, FlushEdit, WakeAll;
    SameDurable(d, TableTake(cfg, d, l, t, step).disk);
  }

  lemma {:induction false} WorkGrows(cfg: Config, s: State, step: Step)
    requires DiskInv(false, cfg, s.disk) && Enabled(cfg, s, step) && Works(step)
    ensures s.Up? && Take(cfg, s, step).Up? && Take(cfg, s, step).live.store.seqno == s.live.store.seqno
    ensures DurableGrows(s.disk, Take(cfg, s, step).disk)
  {
    DiskBounds(cfg, s.disk);
    WorkTakes(cfg, s, step);
    hide Enabled, Take, DiskInv, TableEnabled, TableTake, DurableGrows, LockFree, Without, WakeAll;
    if step.Table? {
      TableGrows(cfg, s.disk, s.live, step.t, step.table);
    } else {
      SameDurable(s.disk, s.disk);
    }
  }

  lemma {:induction false} StopGrows(cfg: Config, s: State, step: Step)
    requires DiskInv(false, cfg, s.disk) && Enabled(cfg, s, step) && (step.Crash? || step.Kill? || step.CloseEnd?)
    ensures Take(cfg, s, step).Down? && DurableGrows(s.disk, Take(cfg, s, step).disk)
  {
    DiskBounds(cfg, s.disk);
    StopTakes(cfg, s, step);
    hide DiskInv, DurableGrows, CrashEnabled, AfterCrash, AfterKill, Enabled, Take;
    if step.Crash? {
      CrashGrows(s.disk, step.keepLog, step.keepManifest);
    } else if step.Kill? {
      KillGrows(s.disk, step.keepLog);
    } else {
      SameDurable(s.disk, AllSynced(s.disk));
    }
  }

  lemma {:induction false} OfflineGrows(cfg: Config, s: State, step: Step)
    requires DiskInv(false, cfg, s.disk) && Enabled(cfg, s, step) && step.Offline? && !step.offline.Open?
    ensures Take(cfg, s, step).Down? && DurableGrows(s.disk, Take(cfg, s, step).disk)
  {
    DiskBounds(cfg, s.disk);
    OfflineTakes(cfg, s, step);
    hide DiskInv, DurableGrows, CrashEnabled, AfterCrash, Enabled, Take, AddedIds;
    if step.offline.PowerLoss? {
      CrashGrows(s.disk, step.offline.keepLog, step.offline.keepManifest);
    } else {
      SameDurable(s.disk, OfflineTake(cfg, s.disk, step.offline).disk);
    }
  }

  /** A step while no process runs, and any way to stop one, only adds to what is durable. */
  lemma {:induction false} DownGrows(cfg: Config, s: State, step: Step)
    requires DiskInv(false, cfg, s.disk) && Enabled(cfg, s, step) && !Works(step) && !step.Writer? && !step.Caller?
    requires step != Offline(Open)
    ensures Take(cfg, s, step).Down? && DurableGrows(s.disk, Take(cfg, s, step).disk)
  {
    hide DiskInv, Enabled, Take, DurableGrows;
    if step.Offline? {
      OfflineGrows(cfg, s, step);
    } else {
      StopGrows(cfg, s, step);
    }
  }

  /** Replaying changes nothing about what is durable. */
  lemma {:induction false} ReplayGrows(cfg: Config, d: Disk)
    requires DiskInv(false, cfg, d)
    ensures var b := Bootstrapped(d); DurableGrows(d, b.(log := Replayed(b.log)))
  {
    hide AllOps, TablesOk, Covered, WfManifest;
  }

  /** Open numbers the replayed operations on from the last sequence of the manifest. */
  lemma {:induction false} OpenCounts(cfg: Config, d: Disk)
    requires DiskInv(false, cfg, d) && OfflineEnabled(cfg, d, Open)
    ensures var s := OfflineTake(cfg, d, Open);
            var b := Bootstrapped(d);
            s.Up? && s.disk == b.(log := Replayed(b.log)) && s.live.store.seqno == SeqnoOf(Down(d))
    ensures LastSequence(Bootstrapped(d).manifest) == LastSequence(d.manifest)
  {
    hide DiskInv, OpenDisk, LoadTables, AddedIds, ApplyOps, AllOps, CountersOf, Replayed, WfManifest;
    var b := Bootstrapped(d);
    BootstrapKeeps(false, cfg, d);
    DiskParts(false, cfg, b);
    OpenSucceeds(false, cfg, d);
    ManifestCounters(b.manifest);
  }

  lemma {:induction false} OpenAtLeast(cfg: Config, d: Disk, c: nat)
    requires DiskInv(false, cfg, d) && OfflineEnabled(cfg, d, Open) && Floor(d) >= c
    ensures AtLeast(OfflineTake(cfg, d, Open), c)
  {
    hide OfflineEnabled, OfflineTake, DiskInv, AllOps, WfManifest, Replayed, DurableGrows, Floor, LastSequence,
         Bootstrapped;
    var s := OfflineTake(cfg, d, Open);
    OpenCounts(cfg, d);
    ReplayGrows(cfg, d);
    BootstrapKeeps(false, cfg, d);
    DiskParts(false, cfg, Bootstrapped(d));
    GrowingFloor(d, s.disk);
    GrowsBounds(d, s.disk);
    FloorIsLeast(cfg, Down(d));
  }

  lemma {:induction false} GrowsBounds(a: Disk, b: Disk)
    requires DurableGrows(a, b)
    ensures Bounds(a) && Bounds(b)
  {
  }

  lemma {:induction false} GrowsAtLeast(a: State, b: State, c: nat)
    requires AtLeast(a, c) && DurableGrows(a.disk, b.disk) && WfManifest(b.disk.manifest)
    requires b.Up? ==> a.Up? && b.live.store.seqno >= a.live.store.seqno
    ensures AtLeast(b, c)
  {
    hide WfManifest, Floor, DurableGrows;
    GrowsBounds(a.disk, b.disk);
    GrowingFloor(a.disk, b.disk);
  }

  lemma {:induction false} StepAtLeast(cfg: Config, s: State, step: Step, c: nat)
    requires Inv(false, cfg, s) && AtLeast(s, c) && Enabled(cfg, s, step)
    ensures AtLeast(Take(cfg, s, step), c)
  {
    hide Inv, DiskInv, Take, Enabled, OfflineTake, OfflineEnabled, DurableGrows, WfManifest, Floor;
    DiskOfLive(false, cfg, s);
    if step == Offline(Open) {
      OpenIsDown(cfg, s, step);
      OpenTakes(cfg, s);
      OpenAtLeast(cfg, s.disk, c);
    } else {
      hide AtLeast;
      var s' := Take(cfg, s, step);
      if Works(step) {
        WorkGrows(cfg, s, step);
      } else if step.Writer? || step.Caller? {
        CallGrows(cfg, s, step);
      } else {
        DownGrows(cfg, s, step);
      }
      StepKeeps(false, cfg, s, step);
      DiskOfLive(false, cfg, s');
      DiskParts(false, cfg, s'.disk);
      GrowsAtLeast(s, s', c);
    }
  }

  lemma {:induction false} OpenTakes(cfg: Config, s: State)
    requires s.Down? && Enabled(cfg, s, Offline(Open))
    ensures OfflineEnabled(cfg, s.disk, Open) && Take(cfg, s, Offline(Open)) == OfflineTake(cfg, s.disk, Open)
  {
    hide Enabled, Take, OfflineEnabled, OfflineTake;
    OfflineTakes(cfg, s, Offline(Open));
  }

  lemma {:induction false} CallGrows(cfg: Config, s: State, step: Step)
    requires DiskInv(false, cfg, s.disk) && Enabled(cfg, s, step) && (step.Writer? || step.Caller?)
    ensures s.Up? && Take(cfg, s, step).Up? && Take(cfg, s, step).live.store.seqno >= s.live.store.seqno
    ensures DurableGrows(s.disk, Take(cfg, s, step).disk)
  {
    hide TablesOk, Covered, WfManifest, WriterTake, WriterEnabled, CallerTake, CallerEnabled;
    if step.Writer? {
      WriterGrows(cfg, s.disk, s.live, step.t, step.writer);
    } else {
      CallerSeqno(s.live, step.t, step.caller);
    }
  }

  lemma {:induction false} RunAtLeast(cfg: Config, s: State, steps: seq<Step>, c: nat)
    requires Inv(false, cfg, s) && AtLeast(s, c) && Run(cfg, s, steps).Some?
    ensures AtLeast(Run(cfg, s, steps).value, c)
    decreases steps
  {
    hide Inv, Take, Enabled, AtLeast;
    if steps != [] {
      StepKeeps(false, cfg, s, steps[0]);
      StepAtLeast(cfg, s, steps[0], c);
      RunAtLeast(cfg, Take(cfg, s, steps[0]), steps[1..], c);
    }
  }

  lemma {:induction false} FloorIsLeast(cfg: Config, s: State)
    requires DiskInv(false, cfg, s.disk)
    ensures s.Down? ==> SeqnoOf(s) >= Floor(s.disk)
  {
    SequencePrefix(s.disk.manifest, s.disk.manifestSynced, |s.disk.manifest|);
    OpsPrefix(s.disk.log, s.disk.logSynced, |s.disk.log|);
    assert s.disk.log[..|s.disk.log|] == s.disk.log && s.disk.manifest[..|s.disk.manifest|] == s.disk.manifest;
    hide AllOps, TablesOk, Covered, WfManifest;
  }

  /**
   * No run from here - whatever writes, flushes, kills, power losses and reopenings it holds - ends with a lower
   * counter.
   */
  ghost predicate CounterHolds(cfg: Config, s: State) {
    forall steps: seq<Step> :: Run(cfg, s, steps).Some? ==> SeqnoOf(Run(cfg, s, steps).value) >= SeqnoOf(s)
  }

  /**
   * In any mode: the sequence counter can never go back from here, over any run, if and only if the durable manifest
   * and the durable log account for it.
   */
  lemma {:induction false} SeqnoNeverDecreasesIff(cfg: Config, s: State)
    requires Reachable(cfg, s) && s.Up?
    ensures Bounds(s.disk)
    ensures CounterHolds(cfg, s) <==> Floor(s.disk) >= s.live.store.seqno
  {
    hide Inv, Take, Enabled, TablesOk, Covered, WfManifest, AllOps, Reachable;
    ReachableInv(cfg, s);
    DiskOfLive(false, cfg, s);
    if Floor(s.disk) >= s.live.store.seqno {
      forall steps: seq<Step> | Run(cfg, s, steps).Some? ensures SeqnoOf(Run(cfg, s, steps).value) >= SeqnoOf(s) {
        hide Floor;
        RunAtLeast(cfg, s, steps, s.live.store.seqno);
        RunKeeps(false, cfg, s, steps);
        DiskOfLive(false, cfg, Run(cfg, s, steps).value);
        FloorIsLeast(cfg, Run(cfg, s, steps).value);
      }
    }
    if CounterHolds(cfg, s) {
      LeastCrash(cfg, s);
      assert Run(cfg, s, [Crash(s.disk.logSynced, s.disk.manifestSynced)]).Some?;
    }
  }

  /** The power loss that keeps only what is durable. */
  lemma {:induction false} LeastCrash(cfg: Config, s: State)
    requires s.Up? && Bounds(s.disk)
    ensures var r := Run(cfg, s, [Crash(s.disk.logSynced, s.disk.manifestSynced)]);
            r.Some? && SeqnoOf(r.value) == Floor(s.disk)
  {
    var step := Crash(s.disk.logSynced, s.disk.manifestSynced);
    var s' := Take(cfg, s, step);
    assert [step][1..] == [];
    assert Run(cfg, s', []) == Some(s');
  }

  // ----- Runs that open durable files

  /** The durable manifest and the applied operations account for every sequence number handed out. */
  ghost predicate Accounted(s: State) {
    s.Up? ==>
      && 1 <= s.disk.manifestSynced <= |s.disk.manifest|
      && s.live.store.seqno <= s.disk.manifest[s.disk.manifestSynced - 1].lastSequence + |AppliedOps(s.disk.log)|
  }

  lemma {:induction false} WriterAccounted(cfg: Config, d: Disk, l: Live, t: Tid, step: WriterStep)
    requires LiveInv(false, cfg, d, l) && WriterEnabled(cfg, d, l, t, step) && Accounted(Up(d, l))
    ensures Accounted(WriterTake(cfg, d, l, t, step))
  {
    hide DiskInv, StoreInv, LinkInv, WholeInv, AppliedOps, ApplyOps, LockFree, Signal, Without, CanSignal;
    assert t in l.agents ==> PlaceOk(cfg, d, l, l.agents[t].pc);
    if step.Append? {
      OpsSnoc(d.log, LogRec(step.batch, false, false));
    } else if step.ResumeWriter? {
      SameBatches(d.log, WriterTake(cfg, d, l, t, step).disk.log);
    } else if !step.SyncFail? && !step.SyncOk? {
      MarkLastOps(d, !step.ApplyStall?);
    }
  }

  lemma {:induction false} TableAccounted(cfg: Config, d: Disk, l: Live, t: Tid, step: TableStep)
    requires TableEnabled(cfg, d, l, t, step) && Accounted(Up(d, l))
    ensures Accounted(TableTake(cfg, d, l, t, step))
  {
    hide AppliedOps, LockFree, Without, WakeAll;
  }

  lemma {:induction false} WorkAccounted(cfg: Config, s: State, step: Step)
    requires Enabled(cfg, s, step) && Works(step) && Accounted(s)
    ensures Accounted(Take(cfg, s, step))
  {
    WorkTakes(cfg, s, step);
    hide Enabled, Take, TableEnabled, TableTake, AppliedOps, LockFree, WakeAll;
    if step.Table? {
      TableAccounted(cfg, s.disk, s.live, step.t, step.table);
    }
  }

  lemma {:induction false} OpenAccounted(cfg: Config, d: Disk)
    requires DiskInv(false, cfg, d) && OfflineEnabled(cfg, d, Open) && Durable(d)
    ensures Accounted(OfflineTake(cfg, d, Open))
  {
    hide OfflineEnabled, OfflineTake, DiskInv, AllOps, AppliedOps, Replayed;
    OpenCounts(cfg, d);
    ReplayedOps(Bootstrapped(d).log);
  }

  lemma {:induction false} StepAccounted(cfg: Config, s: State, step: Step)
    requires Inv(false, cfg, s) && Enabled(cfg, s, step) && Accounted(s)
    requires step == Offline(Open) ==> Durable(s.disk)
    ensures Accounted(Take(cfg, s, step))
  {
    hide LiveInv, ThreadsInv, Accounted, WriterTake, WriterEnabled, CallerTake, CallerEnabled, OfflineTake,
         OfflineEnabled, DiskInv;
    DiskOfLive(false, cfg, s);
    if step == Offline(Open) {
      OpenIsDown(cfg, s, step);
      OpenTakes(cfg, s);
      OpenAccounted(cfg, s.disk);
    } else if Works(step) {
      WorkAccounted(cfg, s, step);
    } else if step.Writer? {
      WriterAccounted(cfg, s.disk, s.live, step.t, step.writer);
    } else if step.Caller? {
      CallerAccounted(s.disk, s.live, step.t, step.caller);
    } else {
      DownGrows(cfg, s, step);
      StoppedAccounted(Take(cfg, s, step));
    }
  }

  lemma {:induction false} CallerAccounted(d: Disk, l: Live, t: Tid, step: CallerStep)
    requires CallerEnabled(l, t, step) && Accounted(Up(d, l))
    ensures Accounted(Up(d, CallerTake(l, t, step)))
  {
    hide CallerTake, CallerEnabled;
    CallerSeqno(l, t, step);
  }

  lemma {:induction false} StoppedAccounted(s: State)
    requires s.Down?
    ensures Accounted(s)
  {
  }

  lemma {:induction false} RunAccounted(cfg: Config, s: State, steps: seq<Step>)
    requires Inv(false, cfg, s) && Accounted(s) && Run(cfg, s, steps).Some? && OpensDurable(cfg, s, steps)
    ensures Accounted(Run(cfg, s, steps).value)
    decreases steps
  {
    hide Inv, Take, Enabled, Accounted, Durable;
    if steps != [] {
      StepKeeps(false, cfg, s, steps[0]);
      StepAccounted(cfg, s, steps[0]);
      RunAccounted(cfg, Take(cfg, s, steps[0]), steps[1..]);
    }
  }

  /** With sync on, after a run whose Opens found their files durable, no run at all can lower the counter. */
  lemma {:induction false} SeqnoNeverDecreases(cfg: Config, steps: seq<Step>)
    requires cfg.sync && Run(cfg, INIT, steps).Some? && OpensDurable(cfg, INIT, steps)
    ensures var s := Run(cfg, INIT, steps).value; s.Up? ==> CounterHolds(cfg, s)
  {
    hide Inv, Take, Enabled, CounterHolds, Floor, OpensDurable;
    var s := Run(cfg, INIT, steps).value;
    if s.Up? {
      InitHolds(false, cfg);
      RunKeeps(false, cfg, INIT, steps);
      DurableOpensAreEnough(cfg, INIT, steps);
      RunAccounted(cfg, INIT, steps);
      assert Reachable(cfg, s);
      AccountedFloor(cfg, s);
      SeqnoNeverDecreasesIff(cfg, s);
    }
  }

  lemma {:induction false} AccountedFloor(cfg: Config, s: State)
    requires Inv(false, cfg, s) && s.Up? && Accounted(s) && AllAppliedSynced(s.disk)
    ensures Bounds(s.disk) && Floor(s.disk) >= s.live.store.seqno
  {
    DiskOfLive(false, cfg, s);
    AppliedWithin(s.disk.log, s.disk.logSynced);
    hide AllOps, AppliedOps, LiveInv, ThreadsInv, TablesOk, Covered, WfManifest;
  }
}
