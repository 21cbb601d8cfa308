/** Runs without writes: when flushes, kills, power losses and reopenings can change what a caller reads. */
module EngineQuietRuns {
  import opened Basics
  import opened Runs
  import opened VersionEdits
  import opened EngineStore
  import opened EngineProtocol
  import opened EngineLogs
  import opened EngineThreads
  import opened EngineDisk
  import opened EngineInvariant
  import opened EngineTheorems
  import opened EngineDurability
  import opened EngineReplays
  import opened EngineViews

  /** What every Get returns. */
  type Reads = Bytes -> Option<Bytes>

  /** Nothing in the log is waiting to be applied. */
  predicate Settled(d: Disk) {
    forall i :: 0 <= i < |d.log| ==> d.log[i].applied
  }

  ghost predicate ReadsAre(s: Store, v: Reads) {
    forall key :: Seen(FirstHit(s, key)) == v(key)
  }

  ghost predicate Views(d: Disk, v: Reads) {
    forall key :: Seen(DiskView(d, key)) == v(key)
  }

  /** Whatever a single power loss keeps of this disk, it still reads as v. */
  ghost predicate Stable(d: Disk, v: Reads) {
    forall keepLog: nat, keepManifest: nat | CrashEnabled(d, keepLog, keepManifest) ::
      Views(AfterCrash(d, keepLog, keepManifest), v)
  }

  /** What a quiet run keeps. */
  ghost predicate Quiet(s: State, v: Reads) {
    && Bounds(s.disk) && s.disk.manifest != [] && Settled(s.disk) && Stable(s.disk, v)
    && (s.Up? ==> ReadsAre(s.live.store, v))
  }

  // ----- What a view depends on

  lemma {:induction false} SameView(a: Disk, b: Disk, key: Bytes)
    requires |a.log| == |b.log| && forall i :: 0 <= i < |a.log| ==> a.log[i].batch == b.log[i].batch
    requires a.manifest == b.manifest && WfManifest(a.manifest) && TablesOk(a.manifest, a.files)
    requires forall i :: 1 <= i < |a.manifest| && i in a.files ==> i in b.files && b.files[i] == a.files[i]
    ensures DiskView(a, key) == DiskView(b, key)
  {
    SameBatches(a.log, b.log);
    SameHit(a, b, key);
    hide AllOps, DiskHit;
  }

  lemma {:induction false} SameStable(a: Disk, b: Disk, v: Reads)
    requires WfManifest(a.manifest) && TablesOk(a.manifest, a.files) && SameDisk(a, b) && Stable(a, v)
    requires a.logSynced <= b.logSynced && a.manifestSynced <= b.manifestSynced
    ensures Stable(b, v)
  {
    forall keepLog: nat, keepManifest: nat | CrashEnabled(b, keepLog, keepManifest)
      ensures Views(AfterCrash(b, keepLog, keepManifest), v)
    {
      var x, y := AfterCrash(a, keepLog, keepManifest), AfterCrash(b, keepLog, keepManifest);
      assert Views(x, v);
      CutKeepsTables(a.manifest, keepManifest, a.files);
      hide DiskView, TablesOk, WfManifest, Stable;
      forall key ensures Seen(DiskView(y, key)) == v(key) {
        SameView(x, y, key);
      }
    }
  }

  // ----- Stopping

  lemma {:induction false} CrashStable(d: Disk, keepLog: nat, keepManifest: nat, v: Reads)
    requires Stable(d, v) && CrashEnabled(d, keepLog, keepManifest)
    ensures Stable(AfterCrash(d, keepLog, keepManifest), v)
  {
    hide Views;
    var d' := AfterCrash(d, keepLog, keepManifest);
    assert d'.log[..keepLog] == d'.log && d'.manifest[..keepManifest] == d'.manifest;
    assert AfterCrash(d', keepLog, keepManifest) == d';
  }

  lemma {:induction false} KillStable(d: Disk, keepLog: nat, v: Reads)
    requires Bounds(d) && Stable(d, v) && KillEnabled(d, keepLog) && d.logSynced <= keepLog
    ensures Stable(AfterKill(d, keepLog), v)
  {
    hide Views;
    var d' := AfterKill(d, keepLog);
    forall k: nat, m: nat | CrashEnabled(d', k, m) ensures Views(AfterCrash(d', k, m), v) {
      assert d'.log[..k] == d.log[..k];
      assert AfterCrash(d', k, m) == AfterCrash(d, k, m);
    }
  }

  // ----- Publishing

  /** What the frozen memtable says about a key the surviving log does not name is what reads show. */
  lemma {:induction false} FrozenSaysSo(cfg: Config, d: Disk, l: Live, keepLog: nat, key: Bytes)
    requires cfg.sync && Bounds(d) && Settled(d) && StoreInv(false, l.store, AppliedOps(d.log)) &&
        WholeInv(cfg, d, l.store)
    requires d.logSynced <= keepLog <= |d.log| && !Names(AllOps(d.log[..keepLog]), key)
    requires ScanGet(Frozen(l.store.imm), key, l.store.seqno) != Missing
    ensures FirstHit(l.store, key) == ScanGet(Frozen(l.store.imm), key, l.store.seqno)
  {
    var hit := FirstVisible(Frozen(l.store.imm), key, l.store.seqno);
    hide FirstVisible, Layered, SstHit, AllOps, AppliedOps, Names;
    assert hit.Some? && hit.value in Frozen(l.store.imm) && hit.value.key.userKey == key;
    AllAppliedOps(d.log);
    WholeLogKept(d, keepLog);
    assert !AllAppliedSynced(d);
    assert l.store.mem == [];
    EmptyScan(key, l.store.seqno);
  }

  lemma {:induction false} WholeLogKept(d: Disk, keepLog: nat)
    requires Bounds(d) && Settled(d) && d.logSynced <= keepLog <= |d.log|
    ensures AllAppliedSynced(d) ==> d.log[..keepLog] == d.log
  {
    assert |d.log| > 0 ==> d.log[|d.log| - 1].applied;
  }

  /** A disk that has just got the edit of the frozen memtable still reads the same, whatever survives. */
  lemma {:induction false} PublishStable(cfg: Config, d: Disk, l: Live, edit: VersionEdit, synced: nat, v: Reads)
    requires cfg.sync && LiveInv(false, cfg, d, l) && Quiet(Up(d, l), v)
    requires edit.lastSequence == l.store.seqno && d.manifestSynced <= synced <= |d.manifest| + 1
    requires l.store.imm.Some? && Entries(d.files, |d.manifest|) == l.store.imm.value
    requires DiskInv(false, cfg, d.(manifest := d.manifest + [edit]))
    ensures Stable(d.(manifest := d.manifest + [edit], manifestSynced := synced), v)
  {
    var d' := d.(manifest := d.manifest + [edit], manifestSynced := synced);
    forall k: nat, n: nat | CrashEnabled(d', k, n) ensures Views(AfterCrash(d', k, n), v) {
      if n <= |d.manifest| {
        assert d'.manifest[..n] == d.manifest[..n];
        assert AfterCrash(d', k, n) == AfterCrash(d, k, n);
      } else {
        assert d'.manifest[..n] == d'.manifest;
        hide Views, Stable, LiveInv, DiskInv;
        PublishedViews(cfg, d, l, edit, k, v);
        assert AfterCrash(d', k, n) == Disk(d.log[..k], k, k, d.manifest + [edit], n, d.files);
      }
    }
  }

  lemma {:induction false} PublishedViews(cfg: Config, d: Disk, l: Live, edit: VersionEdit, k: nat, v: Reads)
    requires cfg.sync && LiveInv(false, cfg, d, l) && Quiet(Up(d, l), v)
    requires edit.lastSequence == l.store.seqno && d.logSynced <= k <= |d.log|
    requires l.store.imm.Some? && Entries(d.files, |d.manifest|) == l.store.imm.value
    requires DiskInv(false, cfg, d.(manifest := d.manifest + [edit]))
    ensures Views(Disk(d.log[..k], k, k, d.manifest + [edit], |d.manifest| + 1, d.files), v)
  {
    var m := d.manifest;
    var x, y := AfterCrash(d, k, |m|), Disk(d.log[..k], k, k, m + [edit], |m| + 1, d.files);
    assert m[..|m|] == m;
    assert Views(x, v);
    forall key ensures Seen(DiskView(y, key)) == v(key) {
      OneMoreTable(m, d.files, edit, key);
      hide TablesOk, Covered, WfManifest, AllOps, AppliedOps, LinkInv, PlacesOk, WholeInv, StoreInv, FirstHit,
           FoldView, LastOp, LoadTables, AddedIds, Tables, ScanGet;
      var hit := ScanGet(Entries(d.files, |m|), key, edit.lastSequence);
      assert Seen(DiskView(x, key)) == v(key);
      if !Names(AllOps(d.log[..k]), key) && hit != Missing {
        FrozenSaysSo(cfg, d, l, k, key);
        assert Seen(FirstHit(l.store, key)) == v(key);
      }
    }
  }

  // ----- Steps

  /** The disk after a flush edit reached the manifest. */
  lemma {:induction false} EditedDisk(d: Disk, edit: VersionEdit, synced: nat, v: Reads)
    requires Bounds(d) && Settled(d) && d.manifestSynced <= synced <= |d.manifest| + 1
    requires Stable(d.(manifest := d.manifest + [edit], manifestSynced := synced), v)
    ensures var d' := d.(manifest := d.manifest + [edit], manifestSynced := synced);
            Bounds(d') && Settled(d') && d'.manifest != []
  {
  }

  lemma {:induction false} QuietPublish(cfg: Config, d: Disk, l: Live, t: Tid, step: TableStep, v: Reads)
    requires cfg.sync && LiveInv(false, cfg, d, l) && ThreadsInv(cfg, l) && TableEnabled(cfg, d, l, t, step)
    requires Quiet(Up(d, l), v) && Publishes(Table(t, step))
    ensures Quiet(TableTake(cfg, d, l, t, step), v)
  {
    PublishedIsFrozen(false, cfg, d, l, t);
    PublishedEdit(false, cfg, d, l, t, step.size);
    var edit := FlushEdit(l.nextID, step.size, l.agents[t].pc.entries, l.store.seqno);
    var synced := if step.PublishAppend? then |d.manifest| + 1 else d.manifestSynced;
    PublishStable(cfg, d, l, edit, synced, v);
    hide ThreadsInv, LiveInv, DiskInv, Stable, FirstHit, Settled, Bounds, FlushEdit, Without, WakeAll, LockFree;
    EditedDisk(d, edit, synced, v);
    QuietAgain(Up(d, l), TableTake(cfg, d, l, t, step), v);
  }

  lemma {:induction false} QuietTable(cfg: Config, d: Disk, l: Live, t: Tid, step: TableStep, v: Reads)
    requires cfg.sync && LiveInv(false, cfg, d, l) && ThreadsInv(cfg, l) && TableEnabled(cfg, d, l, t, step)
    requires Quiet(Up(d, l), v)
    ensures Quiet(TableTake(cfg, d, l, t, step), v)
  {
    hide LiveInv, ThreadsInv, TableTake, TableEnabled, Stable, FirstHit, DiskInv, WfManifest, TablesOk, Layered,
         SameDisk;
    if Publishes(Table(t, step)) {
      QuietPublish(cfg, d, l, t, step, v);
    } else {
      var s' := TableTake(cfg, d, l, t, step);
      DiskIs(cfg, d, l);
      DiskParts(false, cfg, d);
      SameDiskSteps(cfg, d, l, t, step);
      SameStable(d, s'.disk, v);
      WorkSeen(cfg, Up(d, l), Table(t, step));
      QuietAgain(Up(d, l), s', v);
    }
  }

  /** The same reads over a disk that is as stable. */
  lemma {:induction false} QuietAgain(s: State, s': State, v: Reads)
    requires s.Up? && s'.Up? && Quiet(s, v) && SameReads(s'.live.store, s.live.store)
    requires Stable(s'.disk, v) && s'.disk.manifest != [] && Settled(s'.disk) && Bounds(s'.disk)
    ensures Quiet(s', v)
  {
    hide Stable, FirstHit;
  }

  lemma {:induction false} QuietWriter(cfg: Config, d: Disk, l: Live, t: Tid, step: WriterStep, v: Reads)
    requires LiveInv(false, cfg, d, l) && WriterEnabled(cfg, d, l, t, step) && Quiet(Up(d, l), v) && !step.Append?
    ensures Quiet(WriterTake(cfg, d, l, t, step), v)
  {
    hide LiveInv, DiskInv, Stable, FirstHit, Layered, LockFree, Signal, Without, CanSignal, WfManifest, TablesOk;
    var s' := WriterTake(cfg, d, l, t, step);
    DiskIs(cfg, d, l);
    OnlyResumes(cfg, d, l, t, step);
    DiskParts(false, cfg, d);
    SameStable(d, s'.disk, v);
    if l.store.imm.None? {
      FreezeKeeps(l.store);
    }
    QuietAgain(Up(d, l), s', v);
  }

  /** With nothing pending, the only writers left are stalled ones. */
  lemma {:induction false} OnlyResumes(cfg: Config, d: Disk, l: Live, t: Tid, step: WriterStep)
    requires LiveInv(false, cfg, d, l) && WriterEnabled(cfg, d, l, t, step) && Settled(d) && !step.Append?
    ensures step.ResumeWriter?
  {
    hide DiskInv, StoreInv, LinkInv, WholeInv, LockFree, CanSignal;
    assert PlaceOk(cfg, d, l, l.agents[t].pc);
  }

  lemma {:induction false} QuietUp(cfg: Config, s: State, step: Step, v: Reads)
    requires cfg.sync && Inv(false, cfg, s) && s.Up? && Enabled(cfg, s, step) && Quiet(s, v)
    requires !IsAppend(step) && (step.Writer? || step.Caller? || Works(step))
    ensures Quiet(Take(cfg, s, step), v)
  {
    DiskIs(cfg, s.disk, s.live);
    hide LiveInv, ThreadsInv, WriterTake, WriterEnabled, CallerTake, CallerEnabled, FlusherTake, FlusherEnabled,
         TableTake, TableEnabled, LockFree, WakeAll, Stable, Settled, FirstHit, Layered, DiskInv;
    var s' := Take(cfg, s, step);
    match step
    case Writer(t, w) => QuietWriter(cfg, s.disk, s.live, t, w, v);
    case Table(t, j) => QuietTable(cfg, s.disk, s.live, t, j, v);
    case Caller(t, c) =>
      CallerSeen(s.live, t, c);
      QuietAgain(s, s', v);
    case _ =>
      WorkSeen(cfg, s, step);
      QuietAgain(s, s', v);
  }

  lemma {:induction false} QuietStop(cfg: Config, s: State, step: Step, v: Reads)
    requires Inv(false, cfg, s) && Enabled(cfg, s, step) && Quiet(s, v) && (step.Crash? || step.Kill? || step.CloseEnd?)
    ensures Quiet(Take(cfg, s, step), v)
  {
    hide Inv, DiskInv, Enabled, Take, Stable;
    DiskOfLive(false, cfg, s);
    DiskBounds(cfg, s.disk);
    StopTakes(cfg, s, step);
    if step.Kill? {
      KillStable(s.disk, step.keepLog, v);
    } else if step.Crash? {
      CrashStable(s.disk, step.keepLog, step.keepManifest, v);
    } else {
      CrashStable(s.disk, |s.disk.log|, |s.disk.manifest|, v);
      assert s.disk.log[..|s.disk.log|] == s.disk.log && s.disk.manifest[..|s.disk.manifest|] == s.disk.manifest;
    }
  }

  lemma {:induction false} QuietOffline(cfg: Config, d: Disk, step: OfflineStep, v: Reads)
    requires DiskInv(false, cfg, d) && OfflineEnabled(cfg, d, step) && Quiet(Down(d), v) && !step.Open?
    ensures Quiet(OfflineTake(cfg, d, step), v)
  {
    hide Stable;
    if step.PowerLoss? {
      CrashStable(d, step.keepLog, step.keepManifest, v);
    } else {
      hide AddedIds, TablesOk, Covered, WfManifest;
      var d' := OfflineTake(cfg, d, step).disk;
      forall i | 1 <= i < |d.manifest| && i in d.files ensures i in d'.files && d'.files[i] == d.files[i] {
        NamedStays(d.manifest, i);
      }
      SameStable(d, d', v);
    }
  }

  lemma {:induction false} QuietOpen(cfg: Config, d: Disk, v: Reads)
    requires DiskInv(false, cfg, d) && OfflineEnabled(cfg, d, Open) && Quiet(Down(d), v)
    ensures Quiet(OfflineTake(cfg, d, Open), v)
  {
    hide OpenDisk, LoadTables, AddedIds, ApplyOps, AllOps, Replayed, DiskInv, Stable, FirstHit, DiskHit, RoomToReplay,
         Settled, Views, DiskView;
    var s' := OfflineTake(cfg, d, Open);
    OpenSucceeds(false, cfg, d);
    assert Bootstrapped(d) == d;
    DiskParts(false, cfg, d);
    ReplayedSettles(d, v);
    StableWhole(d, v);
    forall key ensures Seen(FirstHit(s'.live.store, key)) == v(key) {
      OpenReads(cfg, d, key);
      ViewsAt(d, v, key);
    }
  }

  lemma {:induction false} ReplayedSettles(d: Disk, v: Reads)
    requires WfManifest(d.manifest) && TablesOk(d.manifest, d.files) && Stable(d, v) && Bounds(d)
    ensures var d' := d.(log := Replayed(d.log)); Settled(d') && Stable(d', v) && Bounds(d')
  {
    hide WfManifest, TablesOk, Stable;
    SameStable(d, d.(log := Replayed(d.log)), v);
  }

  lemma {:induction false} ViewsAt(d: Disk, v: Reads, key: Bytes)
    requires Bounds(d) && Views(AfterCrash(d, |d.log|, |d.manifest|), v)
    ensures Seen(DiskView(d, key)) == v(key)
  {
    hide DiskView;
    WholeView(d, key);
  }

  lemma {:induction false} WholeView(d: Disk, key: Bytes)
    requires Bounds(d)
    ensures DiskView(AfterCrash(d, |d.log|, |d.manifest|), key) == DiskView(d, key)
  {
    assert d.log[..|d.log|] == d.log && d.manifest[..|d.manifest|] == d.manifest;
    SameDiskHit(d, AfterCrash(d, |d.log|, |d.manifest|), key);
  }

  lemma {:induction false} StableWhole(d: Disk, v: Reads)
    requires Bounds(d) && Stable(d, v)
    ensures Views(AfterCrash(d, |d.log|, |d.manifest|), v)
  {
  }

  /** Every step but a write keeps what a quiet run keeps. */
  lemma {:induction false} QuietStep(cfg: Config, s: State, step: Step, v: Reads)
    requires cfg.sync && Inv(false, cfg, s) && Enabled(cfg, s, step) && Quiet(s, v) && !IsAppend(step)
    ensures Quiet(Take(cfg, s, step), v)
  {
    DiskOfLive(false, cfg, s);
    hide Inv, Quiet, OfflineTake, OfflineEnabled, DiskInv, WriterTake, WriterEnabled, CallerTake, CallerEnabled,
         FlusherTake, FlusherEnabled, TableTake, TableEnabled, CloseEndEnabled, CrashEnabled, AfterCrash, AfterKill,
         LockFree;
    if step.Crash? || step.Kill? || step.CloseEnd? {
      QuietStop(cfg, s, step, v);
    } else if step.Offline? && step.offline.Open? {
      QuietOpen(cfg, s.disk, v);
    } else if step.Offline? {
      QuietOffline(cfg, s.disk, step.offline, v);
    } else {
      QuietUp(cfg, s, step, v);
    }
  }

  lemma {:induction false} QuietRun(cfg: Config, s: State, steps: seq<Step>, v: Reads)
    requires cfg.sync && Inv(false, cfg, s) && Quiet(s, v) && Run(cfg, s, steps).Some? && AppendedBatches(steps) == []
    ensures Quiet(Run(cfg, s, steps).value, v)
    decreases |steps|
  {
    hide Inv, Take, Enabled, Quiet;
    if steps != [] {
      var n := |steps| - 1;
      RunSnoc(cfg, s, steps);
      QuietRun(cfg, s, steps[..n], v);
      RunKeeps(false, cfg, s, steps[..n]);
      QuietStep(cfg, Run(cfg, s, steps[..n]).value, steps[n], v);
    }
  }

  /** No run without writes changes what any Get returns. */
  ghost predicate ReadsHold(cfg: Config, s: State)
    requires s.Up?
  {
    forall steps: seq<Step> | Run(cfg, s, steps).Some? && AppendedBatches(steps) == [] ::
      var s' := Run(cfg, s, steps).value;
      s'.Up? ==> forall key :: Seen(FirstHit(s'.live.store, key)) == Seen(FirstHit(s.live.store, key))
  }

  /** What Get returns in a state. */
  ghost function ReadsOf(s: Store): Reads {
    key => Seen(FirstHit(s, key))
  }

  lemma {:induction false} StableHolds(cfg: Config, s: State)
    requires cfg.sync && Reachable(cfg, s) && s.Up? && Settled(s.disk) && Stable(s.disk, ReadsOf(s.live.store))
    ensures ReadsHold(cfg, s)
  {
    hide Take, Enabled, FirstHit, Layered, Stable;
    ReachableInv(cfg, s);
    DiskIs(cfg, s.disk, s.live);
    hide Inv, Reachable;
    forall steps: seq<Step> | Run(cfg, s, steps).Some? && AppendedBatches(steps) == []
      ensures var s' := Run(cfg, s, steps).value;
              s'.Up? ==> forall key :: Seen(FirstHit(s'.live.store, key)) == Seen(FirstHit(s.live.store, key))
    {
      QuietRun(cfg, s, steps, ReadsOf(s.live.store));
    }
  }

  /** A power loss that keeps these prefixes takes no value away and brings no older one back. */
  ghost predicate CutHarmless(d: Disk, keepLog: nat, keepManifest: nat)
    requires CrashEnabled(d, keepLog, keepManifest)
  {
    var cut := AfterCrash(d, keepLog, keepManifest);
    forall key ::
      && (Names(AllOps(cut.log), key) ==> Seen(FoldView(AllOps(cut.log), key)) == Seen(FoldView(AllOps(d.log), key)))
      && (!Names(AllOps(cut.log), key) && Names(AllOps(d.log), key) ==>
            Seen(DiskHit(cut, key)) == Seen(FoldView(AllOps(d.log), key)))
      && (!Names(AllOps(d.log), key) ==> Seen(DiskHit(cut, key)) == Seen(DiskHit(d, key)))
  }

  /**
   * For everything a power loss may keep: a key that the surviving log names folds to the same value there as in the
   * whole log, any other key of the log has that value in the surviving tables, and any key beyond the log has the
   * same value in the surviving tables as in all of them.
   */
  ghost predicate CutsHarmless(d: Disk) {
    forall keepLog: nat, keepManifest: nat | CrashEnabled(d, keepLog, keepManifest) ::
      CutHarmless(d, keepLog, keepManifest)
  }

  lemma {:induction false} CutIs(d: Disk, keepLog: nat, keepManifest: nat, v: Reads)
    requires CrashEnabled(d, keepLog, keepManifest) && forall key :: v(key) == Seen(DiskView(d, key))
    ensures Views(AfterCrash(d, keepLog, keepManifest), v) <==> CutHarmless(d, keepLog, keepManifest)
  {
    hide FoldView, DiskHit, AllOps, LastOp;
    var cut := AfterCrash(d, keepLog, keepManifest);
    assert d.log == d.log[..|d.log|];
    forall key
      ensures Seen(DiskView(cut, key)) == v(key)
         <==> && (Names(AllOps(cut.log), key) ==>
                    Seen(FoldView(AllOps(cut.log), key)) == Seen(FoldView(AllOps(d.log), key)))
              && (!Names(AllOps(cut.log), key) && Names(AllOps(d.log), key) ==>
                    Seen(DiskHit(cut, key)) == Seen(FoldView(AllOps(d.log), key)))
              && (!Names(AllOps(d.log), key) ==> Seen(DiskHit(cut, key)) == Seen(DiskHit(d, key)))
    {
      NamesPrefix(d.log, keepLog, |d.log|, key);
    }
    hide Names;
  }

  /** With nothing pending, reads show the whole log over the tables. */
  lemma {:induction false} SettledReads(cfg: Config, s: State)
    requires Reachable(cfg, s) && s.Up? && Settled(s.disk)
    ensures forall key :: ReadsOf(s.live.store)(key) == Seen(DiskView(s.disk, key))
  {
    hide FirstHit, FoldView, AllOps, AppliedOps, LastOp, DiskHit, Reachable;
    AllAppliedOps(s.disk.log);
    forall key ensures ReadsOf(s.live.store)(key) == Seen(DiskView(s.disk, key)) {
      ReachableView(cfg, s, key);
    }
  }

  /**
   * Repeated replay, exactly. With sync on and nothing waiting to be applied: no run without writes - any number of
   * flushes, failures, kills, power losses, cleanups and reopenings, in any order - can change what a Get returns,
   * if and only if every cut of log and manifest that a power loss could make now is harmless.
   */
  lemma {:induction false} RepeatedReplayIff(cfg: Config, s: State)
    requires cfg.sync && Reachable(cfg, s) && s.Up? && Settled(s.disk) && RoomToReplay(s.disk)
    ensures ReadsHold(cfg, s) <==> CutsHarmless(s.disk)
  {
    var v := ReadsOf(s.live.store);
    SettledReads(cfg, s);
    hide ReadsHold, Inv, Views, FirstHit, CutHarmless, Reachable, DiskView, RoomToReplay;
    forall keepLog: nat, keepManifest: nat | CrashEnabled(s.disk, keepLog, keepManifest)
      ensures Views(AfterCrash(s.disk, keepLog, keepManifest), v) <==> CutHarmless(s.disk, keepLog, keepManifest)
    {
      CutIs(s.disk, keepLog, keepManifest, v);
    }
    if CutsHarmless(s.disk) {
      assert Stable(s.disk, v);
      StableHolds(cfg, s);
    }
    if ReadsHold(cfg, s) {
      ReachableInv(cfg, s);
      forall keepLog: nat, keepManifest: nat | CrashEnabled(s.disk, keepLog, keepManifest)
        ensures CutHarmless(s.disk, keepLog, keepManifest)
      {
        OneCrash(cfg, s, keepLog, keepManifest);
      }
    }
  }

  /** The shortest quiet run with a power loss in it: lose power, open again. */
  lemma {:induction false} OneCrash(cfg: Config, s: State, keepLog: nat, keepManifest: nat)
    requires Inv(false, cfg, s) && s.Up? && RoomToReplay(s.disk) && CrashEnabled(s.disk, keepLog, keepManifest)
    requires ReadsHold(cfg, s)
    ensures Views(AfterCrash(s.disk, keepLog, keepManifest), ReadsOf(s.live.store))
  {
    var d := AfterCrash(s.disk, keepLog, keepManifest);
    CrashRuns(cfg, s, keepLog, keepManifest);
    NothingAppended(keepLog, keepManifest);
    hide Inv, DiskInv, RoomToReplay, OpenDisk, FirstHit, DiskView, Run, AfterCrash, CrashEnabled, AppendedBatches,
         ReadsHold;
    forall key ensures Seen(DiskView(d, key)) == ReadsOf(s.live.store)(key) {
      OpenReads(cfg, d, key);
      HeldRead(cfg, s, [Crash(keepLog, keepManifest), Offline(Open)], key);
    }
  }

  lemma {:induction false} HeldRead(cfg: Config, s: State, steps: seq<Step>, key: Bytes)
    requires s.Up? && ReadsHold(cfg, s) && AppendedBatches(steps) == []
    requires Run(cfg, s, steps).Some? && Run(cfg, s, steps).value.Up?
    ensures Seen(FirstHit(Run(cfg, s, steps).value.live.store, key)) == Seen(FirstHit(s.live.store, key))
  {
    hide Run, FirstHit, AppendedBatches;
  }

  /** Losing power and opening again is a run. */
  lemma {:induction false} CrashRuns(cfg: Config, s: State, keepLog: nat, keepManifest: nat)
    requires Inv(false, cfg, s) && s.Up? && RoomToReplay(s.disk) && CrashEnabled(s.disk, keepLog, keepManifest)
    ensures var d := AfterCrash(s.disk, keepLog, keepManifest);
            && DiskInv(false, cfg, d) && RoomToReplay(d) && OpenDisk(cfg, d).Ok? && OpenDisk(cfg, d).value.Up?
            && Run(cfg, s, [Crash(keepLog, keepManifest), Offline(Open)]) == Some(OpenDisk(cfg, d).value)
  {
    var d := AfterCrash(s.disk, keepLog, keepManifest);
    DiskOfLive(false, cfg, s);
    hide Inv, DiskInv, RoomToReplay, OpenDisk, FirstHit, DiskView, Run, AllOps;
    RoomAfterCrash(false, cfg, s.disk, keepLog, keepManifest);
    CrashKeeps(false, cfg, s.disk, keepLog, keepManifest);
    DiskOfLive(false, cfg, Down(d));
    OpenReads(cfg, d, []);
    CrashThenOpen(cfg, s, keepLog, keepManifest);
  }

  lemma {:induction false} NothingAppended(keepLog: nat, keepManifest: nat)
    ensures AppendedBatches([Crash(keepLog, keepManifest), Offline(Open)]) == []
  {
    var steps := [Crash(keepLog, keepManifest), Offline(Open)];
    assert steps[..1] == [steps[0]] && [steps[0]][..0] == [];
    assert AppendedBatches(steps[..1]) == [];
  }

  lemma {:induction false} CrashThenOpen(cfg: Config, s: State, keepLog: nat, keepManifest: nat)
    requires s.Up? && CrashEnabled(s.disk, keepLog, keepManifest)
    requires RoomToReplay(AfterCrash(s.disk, keepLog, keepManifest))
    requires OpenDisk(cfg, AfterCrash(s.disk, keepLog, keepManifest)).Ok?
    ensures Run(cfg, s, [Crash(keepLog, keepManifest), Offline(Open)])
         == Some(OpenDisk(cfg, AfterCrash(s.disk, keepLog, keepManifest)).value)
  {
    hide RoomToReplay, OpenDisk;
    var a, b := Crash(keepLog, keepManifest), Offline(Open);
    var s1 := Take(cfg, s, a);
    var s2 := Take(cfg, s1, b);
    assert [a, b][1..] == [b] && [b][1..] == [];
    assert Run(cfg, s2, []) == Some(s2);
    assert Run(cfg, s1, [b]) == Some(s2);
  }

  // ----- When it holds

  /** A durable log, tables it covers, and reads that show it: no power loss can change a read. */
  lemma {:induction false} DurableIsStable(cfg: Config, s: State)
    requires Inv(true, cfg, s) && s.Up? && Settled(s.disk) && s.disk.logSynced == |s.disk.log|
    ensures Stable(s.disk, ReadsOf(s.live.store))
  {
    var d := s.disk;
    AllAppliedOps(d.log);
    hide FirstHit, FoldView, ThreadsInv, LinkInv, PlacesOk, WholeInv, Layered, Named, AllOps, AppliedOps;
    forall keepLog: nat, keepManifest: nat | CrashEnabled(d, keepLog, keepManifest)
      ensures Views(AfterCrash(d, keepLog, keepManifest), ReadsOf(s.live.store))
    {
      var d' := AfterCrash(d, keepLog, keepManifest);
      CrashKeeps(true, cfg, d, keepLog, keepManifest);
      assert d'.log == d.log;
      forall key ensures Seen(DiskView(d', key)) == Seen(FirstHit(s.live.store, key)) {
        CoveredDisk(cfg, d');
        NamedIffSeen(AllOps(d.log), key);
      }
    }
  }

  /**
   * Repeated replay is harmless. With sync on, after a run whose Opens found their files durable - one without kills,
   * for instance - and with nothing waiting to be applied: no run without writes changes what a Get returns, and none
   * lowers the sequence counter, although each Open replays the whole log on top of tables that already hold it.
   */
  lemma {:induction false} RepeatedReplayHarmless(cfg: Config, steps: seq<Step>)
    requires cfg.sync && Run(cfg, INIT, steps).Some? && (OpensDurable(cfg, INIT, steps) || NoKills(steps))
    ensures var s := Run(cfg, INIT, steps).value;
            s.Up? && Settled(s.disk) ==> ReadsHold(cfg, s) && CounterHolds(cfg, s)
  {
    hide Inv, Take, Enabled, CounterHolds, ReadsHold, RoomToReplay, Stable, OpensDurable;
    var s := Run(cfg, INIT, steps).value;
    if NoKills(steps) {
      NoKillsOpensDurable(cfg, INIT, steps);
    }
    InitHolds(false, cfg);
    InitHolds(true, cfg);
    DurableOpensAreEnough(cfg, INIT, steps);
    RunKeeps(true, cfg, INIT, steps);
    SeqnoNeverDecreases(cfg, steps);
    assert Reachable(cfg, s);
    if s.Up? && Settled(s.disk) {
      DiskOfLive(true, cfg, s);
      SettledLog(s.disk);
      DurableIsStable(cfg, s);
      StableHolds(cfg, s);
    }
  }

  lemma {:induction false} SettledLog(d: Disk)
    requires Settled(d) && AllAppliedSynced(d) && d.logSynced <= |d.log|
    ensures d.logSynced == |d.log|
  {
    assert |d.log| > 0 ==> d.log[|d.log| - 1].applied;
  }
}
