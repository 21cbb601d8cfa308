/** Which disks and which runs keep a published table from outliving the log records behind it. */
module EngineDurability {
  import opened Basics
  import opened ManifestReplay
  import opened EngineStore
  import opened EngineProtocol
  import opened EngineLogs
  import opened EngineThreads
  import opened EngineDisk
  import opened EngineInvariant
  import opened EngineTheorems

  // ----- One state: what any power loss would leave

  /** Every key for which a manifest that may survive names a table with a value is named in the durable log. */
  ghost predicate DurablyCovered(d: Disk)
    requires d.logSynced <= |d.log| && d.manifestSynced <= |d.manifest|
  {
    forall keepManifest: nat | d.manifestSynced <= keepManifest <= |d.manifest| ::
      LogCoversTables(AfterCrash(d, d.logSynced, keepManifest))
  }

  /** Whatever a power loss keeps, Open shows the fold of the log that is left. */
  ghost predicate CrashSafe(cfg: Config, d: Disk) {
    forall keepLog: nat, keepManifest: nat | CrashEnabled(d, keepLog, keepManifest) ::
      OpensToFold(cfg, AfterCrash(d, keepLog, keepManifest))
  }

  ghost predicate OpensToFold(cfg: Config, d: Disk) {
    RoomToReplay(d) && OpenDisk(cfg, d).Ok? && OpenDisk(cfg, d).value.Up?
    && SeenAs(OpenDisk(cfg, d).value.live.store, AllOps(d.log))
  }

  /** A shorter log and a shorter manifest need no more sequence numbers. */
  lemma {:induction false} RoomAfterCrash(safe: bool, cfg: Config, d: Disk, keepLog: nat, keepManifest: nat)
    requires DiskInv(safe, cfg, d) && RoomToReplay(d) && CrashEnabled(d, keepLog, keepManifest)
    ensures RoomToReplay(AfterCrash(d, keepLog, keepManifest))
  {
    hide CountersOf, AllOps, TablesOk, Covered, AddsTable, LogOk;
    var d' := AfterCrash(d, keepLog, keepManifest);
    BootstrapKeeps(safe, cfg, d);
    CrashKeeps(safe, cfg, d, keepLog, keepManifest);
    BootstrapKeeps(safe, cfg, d');
    assert d.log == d.log[..keepLog] + d.log[keepLog..];
    AllOpsConcat(d.log[..keepLog], d.log[keepLog..]);
    ManifestCounters(Bootstrapped(d).manifest);
    ManifestCounters(Bootstrapped(d').manifest);
  }

  /** A longer log covers what a shorter one does. */
  lemma {:induction false} LongerLogCovers(d: Disk, keepLog: nat, keepManifest: nat)
    requires CrashEnabled(d, keepLog, keepManifest) && LogCoversTables(AfterCrash(d, d.logSynced, keepManifest))
    ensures LogCoversTables(AfterCrash(d, keepLog, keepManifest))
  {
    hide DiskHit, Names, AllOps;
    var short, long := AfterCrash(d, d.logSynced, keepManifest), AfterCrash(d, keepLog, keepManifest);
    forall key | DiskHit(long, key).Present? ensures Names(AllOps(long.log), key) {
      SameDiskHit(short, long, key);
      NamesPrefix(d.log, d.logSynced, keepLog, key);
    }
  }

  /** The log has no part in what the tables answer. */
  lemma {:induction false} SameDiskHit(a: Disk, b: Disk, key: Bytes)
    requires a.manifest == b.manifest && a.files == b.files
    ensures DiskHit(a, key) == DiskHit(b, key)
  {
  }

  /**
   * Every power loss now would leave a disk that opens to the fold of the surviving log if and only if the durable
   * log names every key for which a table that may survive holds a value.
   */
  lemma {:induction false} CrashSafeIff(cfg: Config, s: State)
    requires Reachable(cfg, s) && RoomToReplay(s.disk)
    ensures s.disk.logSynced <= |s.disk.log| && s.disk.manifestSynced <= |s.disk.manifest|
    ensures CrashSafe(cfg, s.disk) <==> DurablyCovered(s.disk)
  {
    var d := s.disk;
    ReachableInv(cfg, s);
    DiskOfLive(false, cfg, s);
    forall keepLog: nat, keepManifest: nat | CrashEnabled(d, keepLog, keepManifest)
      ensures OpensToFold(cfg, AfterCrash(d, keepLog, keepManifest))
         <==> LogCoversTables(AfterCrash(d, keepLog, keepManifest))
    {
      hide Inv, Reachable, RoomToReplay, OpenDisk, DiskInv, SeenAs, LogCoversTables, AllOps;
      RoomAfterCrash(false, cfg, d, keepLog, keepManifest);
      CrashKeeps(false, cfg, d, keepLog, keepManifest);
      DiskOfLive(false, cfg, Down(AfterCrash(d, keepLog, keepManifest)));
      OpenShowsLogIff(cfg, AfterCrash(d, keepLog, keepManifest));
    }
    hide Inv, Reachable, TablesOk, Covered, WfManifest, OpensToFold, LogCoversTables, RoomToReplay;
    if CrashSafe(cfg, d) {
      forall keepManifest: nat | d.manifestSynced <= keepManifest <= |d.manifest|
        ensures LogCoversTables(AfterCrash(d, d.logSynced, keepManifest))
      {
        assert CrashEnabled(d, d.logSynced, keepManifest);
      }
    }
    if DurablyCovered(d) {
      forall keepLog: nat, keepManifest: nat | CrashEnabled(d, keepLog, keepManifest)
        ensures OpensToFold(cfg, AfterCrash(d, keepLog, keepManifest))
      {
        LongerLogCovers(d, keepLog, keepManifest);
      }
    }
  }

  // ----- Runs that publish durably

  lemma {:induction false} PublishPrefix(cfg: Config, s: State, steps: seq<Step>, i: nat)
    requires PublishesDurably(cfg, s, steps) && i <= |steps|
    ensures PublishesDurably(cfg, s, steps[..i])
    decreases steps
  {
    hide Take, Enabled, DurablePublish;
    if i > 0 {
      assert steps[..i][1..] == steps[1..][..i - 1];
      PublishPrefix(cfg, Take(cfg, s, steps[0]), steps[1..], i - 1);
    }
  }

  lemma {:induction false} CoveredDisk(cfg: Config, d: Disk)
    requires DiskInv(true, cfg, d)
    ensures LogCoversTables(d)
  {
    BootstrapKeeps(true, cfg, d);
    var b := Bootstrapped(d);
    CutKeepsCover(b.manifest, |b.manifest|, b.files, b.log, b.logSynced, |b.log|);
    assert b.manifest[..|b.manifest|] == b.manifest && b.log[..|b.log|] == b.log;
    hide Covered, TablesOk, WfManifest, AllOps, Names, LoadTables, AddedIds, Tables, FirstHit;
    forall key | DiskHit(d, key).Present? ensures Names(AllOps(d.log), key) {
      TablesAreCovered(b.manifest, b.files, AllOps(b.log), key);
    }
  }

  /** In any mode: a run that publishes each table only once the applied records are durable shows folds throughout. */
  lemma {:induction false} DurablePublishingIsEnough(cfg: Config, steps: seq<Step>)
    requires Run(cfg, INIT, steps).Some? && PublishesDurably(cfg, INIT, steps)
    ensures forall i :: 0 <= i < |steps| ==> CoveredAt(cfg, steps, i)
    ensures forall i :: 0 <= i <= |steps| ==> FoldAt(cfg, steps, i)
  {
    hide Inv, FoldAt, Take, Enabled, LogCoversTables, DurablePublish;
    forall i | 0 <= i < |steps| ensures CoveredAt(cfg, steps, i) {
      RunPrefix(cfg, INIT, steps, i);
      PublishPrefix(cfg, INIT, steps, i);
      InitHolds(true, cfg);
      RunKeeps(true, cfg, INIT, steps[..i]);
      var s := Run(cfg, INIT, steps[..i]).value;
      DiskOfLive(true, cfg, s);
      hide DiskInv;
      CoveredDisk(cfg, s.disk);
    }
    ReadsFoldIff(cfg, steps);
  }

  // ----- Runs in which every Open finds its log and manifest durable

  predicate Durable(d: Disk) {
    d.logSynced == |d.log| && d.manifestSynced == |d.manifest|
  }

  /** No Open reads from the system's cache what a power loss could still take away. */
  ghost predicate OpensDurable(cfg: Config, s: State, steps: seq<Step>)
    decreases steps
  {
    steps == [] || (Enabled(cfg, s, steps[0]) && (steps[0] == Offline(Open) ==> Durable(s.disk))
                    && OpensDurable(cfg, Take(cfg, s, steps[0]), steps[1..]))
  }

  lemma {:induction false} WriterKeepsDurable(cfg: Config, d: Disk, l: Live, t: Tid, step: WriterStep)
    requires cfg.sync && LiveInv(false, cfg, d, l) && WriterEnabled(cfg, d, l, t, step) && AllAppliedSynced(d)
    ensures AllAppliedSynced(WriterTake(cfg, d, l, t, step).disk)
  {
    hide StoreInv, TablesOk, Covered, WfManifest, LinkInv, ApplyOps, LockFree, Signal, Without, CanSignal;
    assert t in l.agents ==> PlaceOk(cfg, d, l, l.agents[t].pc);
  }

  /** With sync on and an Open of durable files, whatever is applied is durable, at every point. */
  lemma {:induction false} StepKeepsDurable(cfg: Config, s: State, step: Step)
    requires cfg.sync && Inv(false, cfg, s) && Enabled(cfg, s, step) && AllAppliedSynced(s.disk)
    requires step == Offline(Open) ==> Durable(s.disk)
    ensures AllAppliedSynced(Take(cfg, s, step).disk)
  {
    hide LiveInv, ThreadsInv, WriterEnabled, WriterTake, CallerTake, CallerEnabled, FlusherTake, FlusherEnabled,
         FlushEdit, AllOps, LoadTables, AddedIds, ApplyOps, RoomToReplay, LockFree, WakeAll, Fail, TablesOk, Covered,
         WfManifest;
    if step.Writer? {
      WriterKeepsDurable(cfg, s.disk, s.live, step.t, step.writer);
    }
  }

  /** With sync on, opening durable files is enough for publishing durably. */
  lemma {:induction false} DurableOpensAreEnough(cfg: Config, s: State, steps: seq<Step>)
    requires cfg.sync && Inv(false, cfg, s) && AllAppliedSynced(s.disk)
    requires Run(cfg, s, steps).Some? && OpensDurable(cfg, s, steps)
    ensures PublishesDurably(cfg, s, steps) && AllAppliedSynced(Run(cfg, s, steps).value.disk)
    decreases steps
  {
    hide Inv, Take, Enabled, AllAppliedSynced, Durable;
    if steps != [] {
      StepKeeps(false, cfg, s, steps[0]);
      StepKeepsDurable(cfg, s, steps[0]);
      DurableOpensAreEnough(cfg, Take(cfg, s, steps[0]), steps[1..]);
    }
  }

  // ----- Runs without kills

  predicate NoKills(steps: seq<Step>) {
    forall i :: 0 <= i < |steps| ==> !steps[i].Kill?
  }

  /** A stopped process leaves durable files, unless it was killed. */
  lemma {:induction false} StoppedDurable(cfg: Config, s: State, step: Step)
    requires Enabled(cfg, s, step) && !step.Kill? && (s.Down? ==> Durable(s.disk))
    ensures Take(cfg, s, step).Down? ==> Durable(Take(cfg, s, step).disk)
  {
    OpenIsDown(cfg, s, step);
    if step == Offline(Open) {
      OpensUp(cfg, s.disk);
    }
    hide CallerTake, FlusherTake, OpenDisk, RoomToReplay, AddedIds, CallerEnabled, FlusherEnabled, WriterEnabled,
         TableEnabled;
  }

  lemma {:induction false} NoKillsOpensDurable(cfg: Config, s: State, steps: seq<Step>)
    requires Run(cfg, s, steps).Some? && NoKills(steps) && (s.Down? ==> Durable(s.disk))
    ensures OpensDurable(cfg, s, steps)
    decreases steps
  {
    hide Take, Enabled, Durable;
    if steps != [] {
      StoppedDurable(cfg, s, steps[0]);
      OpenIsDown(cfg, s, steps[0]);
      NoKillsOpensDurable(cfg, Take(cfg, s, steps[0]), steps[1..]);
    }
  }

  lemma {:induction false} OpenIsDown(cfg: Config, s: State, step: Step)
    requires Enabled(cfg, s, step)
    ensures step == Offline(Open) ==> s.Down?
  {
  }

  /**
   * With sync on, every run in which each Open finds its files durable - in particular every run that is never
   * killed, however often the power fails - shows the fold of the applied batches throughout.
   */
  lemma {:induction false} SyncedRunsShowFolds(cfg: Config, steps: seq<Step>)
    requires cfg.sync && Run(cfg, INIT, steps).Some? && (OpensDurable(cfg, INIT, steps) || NoKills(steps))
    ensures forall i :: 0 <= i <= |steps| ==> FoldAt(cfg, steps, i)
  {
    hide Inv, FoldAt, CoveredAt;
    if NoKills(steps) {
      NoKillsOpensDurable(cfg, INIT, steps);
    }
    InitHolds(false, cfg);
    DurableOpensAreEnough(cfg, INIT, steps);
    DurablePublishingIsEnough(cfg, steps);
  }
}
