/** The main results: statements about every run and every reachable state of the engine. */
module EngineTheorems {
  import opened Basics
  import opened Runs
  import ReferenceModel
  import opened Batches
  import opened ManifestReplay
  import opened EngineStore
  import opened EngineProtocol
  import opened EngineLogs
  import opened EngineThreads
  import opened EngineDisk
  import opened EngineInvariant

  // ----- Durability and atomicity

  function BatchesOf(log: seq<LogRec>): (r: seq<Batch>)
    ensures |r| == |log| && forall i :: 0 <= i < |r| ==> r[i] == log[i].batch
  {
    seq(|log|, i requires 0 <= i < |log| => log[i].batch)
  }

  predicate IsAppend(step: Step) {
    step.Writer? && step.writer.Append?
  }

  /** A step that keeps the process running. */
  predicate KeepsRunning(step: Step) {
    !step.Crash? && !step.Kill? && !step.CloseEnd?
  }

  /** The batches a run hands to the log, in order. */
  function AppendedBatches(steps: seq<Step>): seq<Batch> {
    if steps == [] then []
    else
      var last := steps[|steps| - 1];
      AppendedBatches(steps[..|steps| - 1]) + if IsAppend(last) then [last.writer.batch] else []
  }

  /** a is b with some elements left out. */
  predicate Subsequence<T(==)>(a: seq<T>, b: seq<T>) {
    if a == [] then true
    else if b == [] then false
    else if a[|a| - 1] == b[|b| - 1] && Subsequence(a[..|a| - 1], b[..|b| - 1]) then true
    else Subsequence(a, b[..|b| - 1])
  }

  lemma {:induction false} SubsequenceSnoc<T>(a: seq<T>, b: seq<T>, x: T)
    requires Subsequence(a, b)
    ensures Subsequence(a, b + [x]) && Subsequence(a + [x], b + [x])
  {
    assert (b + [x])[..|b|] == b && (a + [x])[..|a|] == a;
  }

  lemma {:induction false} SubsequenceCut<T>(a: seq<T>, n: nat, b: seq<T>)
    requires Subsequence(a, b) && n <= |a|
    ensures Subsequence(a[..n], b)
    decreases b
  {
    if n < |a| && n > 0 {
      var k := |a| - 1;
      if a[k] == b[|b| - 1] && Subsequence(a[..k], b[..|b| - 1]) {
        SubsequenceCut(a[..k], n, b[..|b| - 1]);
        assert a[..k][..n] == a[..n];
      } else {
        SubsequenceCut(a, n, b[..|b| - 1]);
      }
    } else if n == |a| {
      assert a[..n] == a;
    }
  }

  /** What one step may do to the log. */
  ghost predicate LogStep(cfg: Config, a: seq<LogRec>, synced: nat, step: Step, b: seq<LogRec>) {
    || (IsAppend(step) && BatchesOf(b) == BatchesOf(a) + [step.writer.batch] && a <= b)
    || (!IsAppend(step) && synced <= |b| <= |a| && BatchesOf(b) == BatchesOf(a)[..|b|]
        && (forall i :: 0 <= i < |b| && a[i].acked ==> b[i].acked)
        && (forall i :: 0 <= i < |b| && a[i].applied ==> b[i].applied)
        && (cfg.sync ==> forall i :: |b| <= i < |a| ==> !a[i].acked))
  }

  lemma {:induction false} WriterLog(cfg: Config, d: Disk, l: Live, t: Tid, step: WriterStep)
    requires LiveInv(false, cfg, d, l) && WriterEnabled(cfg, d, l, t, step)
    ensures LogStep(cfg, d.log, d.logSynced, Writer(t, step), WriterTake(cfg, d, l, t, step).disk.log)
  {
    hide StoreInv, TablesOk, Covered, WfManifest, LinkInv, WholeInv, ApplyOps, Signal, Without;
    assert t in l.agents ==> PlaceOk(cfg, d, l, l.agents[t].pc);
  }

  lemma {:induction false} SameLog(cfg: Config, log: seq<LogRec>, synced: nat, step: Step)
    requires synced <= |log| && !IsAppend(step)
    ensures LogStep(cfg, log, synced, step, log)
  {
  }

  /** Records that cannot be missed with sync on may be cut off. */
  lemma {:induction false} CutLog(cfg: Config, d: Disk, keep: nat, step: Step)
    requires LogOk(cfg, d) && d.logSynced <= keep <= |d.log| && !IsAppend(step)
    ensures LogStep(cfg, d.log, d.logSynced, step, d.log[..keep])
  {
  }

  lemma {:induction false} StopLog(cfg: Config, s: State, step: Step)
    requires LogOk(cfg, s.disk) && Enabled(cfg, s, step) && (step.Crash? || step.Kill? || step.CloseEnd?)
    ensures LogStep(cfg, s.disk.log, s.disk.logSynced, step, Take(cfg, s, step).disk.log)
  {
    hide Enabled, Take, LogStep;
    StopTakes(cfg, s, step);
    if step.CloseEnd? {
      SameLog(cfg, s.disk.log, s.disk.logSynced, step);
    } else {
      CutLog(cfg, s.disk, step.keepLog, step);
    }
  }

  lemma {:induction false} OfflineLog(cfg: Config, s: State, step: Step)
    requires DiskInv(false, cfg, s.disk) && Enabled(cfg, s, step) && step.Offline?
    ensures LogStep(cfg, s.disk.log, s.disk.logSynced, step, Take(cfg, s, step).disk.log)
  {
    hide Enabled, Take, LogStep, TablesOk, WfManifest, OpenDisk, AddedIds, RoomToReplay;
    OfflineTakes(cfg, s, step);
    if step.offline.PowerLoss? {
      CutLog(cfg, s.disk, step.offline.keepLog, step);
    } else if step.offline.Cleanup? {
      SameLog(cfg, s.disk.log, s.disk.logSynced, step);
    } else {
      OpenSucceeds(false, cfg, s.disk);
      ReplayedLog(cfg, s.disk.log, s.disk.logSynced, step);
    }
  }

  lemma {:induction false} ReplayedLog(cfg: Config, log: seq<LogRec>, synced: nat, step: Step)
    requires synced <= |log| && !IsAppend(step)
    ensures LogStep(cfg, log, synced, step, Replayed(log))
  {
  }

  lemma {:induction false} TableLog(cfg: Config, d: Disk, l: Live, t: Tid, step: TableStep)
    requires TableEnabled(cfg, d, l, t, step)
    ensures TableTake(cfg, d, l, t, step).disk.log == d.log
  {
    hide Fail, FlushEdit, WakeAll, Without;
  }

  lemma {:induction false} StepLog(cfg: Config, s: State, step: Step)
    requires Inv(false, cfg, s) && Enabled(cfg, s, step)
    ensures LogStep(cfg, s.disk.log, s.disk.logSynced, step, Take(cfg, s, step).disk.log)
  {
    hide LiveInv, ThreadsInv, Enabled, Take, LogStep, WriterTake, WriterEnabled, CallerTake, CallerEnabled, TableTake,
         TableEnabled, TablesOk, WfManifest;
    DiskOfLive(false, cfg, s);
    if step.Offline? {
      OfflineLog(cfg, s, step);
    } else if step.Crash? || step.Kill? || step.CloseEnd? {
      StopLog(cfg, s, step);
    } else if step.Writer? {
      CallTakes(cfg, s, step);
      WriterLog(cfg, s.disk, s.live, step.t, step.writer);
    } else {
      SameLog(cfg, s.disk.log, s.disk.logSynced, step);
      if step.Caller? {
        CallTakes(cfg, s, step);
      } else {
        WorkTakes(cfg, s, step);
        if step.Table? {
          TableLog(cfg, s.disk, s.live, step.t, step.table);
        }
      }
    }
  }

  lemma {:induction false} ReachableStep(cfg: Config, s: State, step: Step)
    requires Reachable(cfg, s) && Enabled(cfg, s, step)
    ensures Reachable(cfg, Take(cfg, s, step))
  {
    hide Take, Enabled;
    var steps :| Run(cfg, INIT, steps) == Some(s);
    RunConcat(cfg, INIT, steps, [step]);
    assert Run(cfg, Take(cfg, s, step), []) == Some(Take(cfg, s, step));
    assert [step][1..] == [];
  }

  /**
   * Acknowledged records keep their place in the log: nothing acknowledged is ever lost, however often the process
   * is killed and the power fails.
   */
  lemma {:induction false} AckedStays(cfg: Config, s: State, steps: seq<Step>, i: nat)
    requires cfg.sync && Reachable(cfg, s) && Run(cfg, s, steps).Some? && i < |s.disk.log| && s.disk.log[i].acked
    ensures var log := Run(cfg, s, steps).value.disk.log;
            i < |log| && log[i].acked && log[i].applied && log[i].batch == s.disk.log[i].batch
    decreases steps
  {
    hide Reachable, Inv, Take, Enabled;
    ReachableInv(cfg, s);
    if steps == [] {
      DiskOfLive(false, cfg, s);
    } else {
      var s' := Take(cfg, s, steps[0]);
      StepLog(cfg, s, steps[0]);
      assert BatchesOf(s'.disk.log)[i] == BatchesOf(s.disk.log)[i];
      ReachableStep(cfg, s, steps[0]);
      AckedStays(cfg, s', steps[1..], i);
    }
  }

  /** The log holds only whole batches that some writer appended, in the order they were appended. */
  lemma {:induction false} LogIsAppended(cfg: Config, steps: seq<Step>)
    requires Run(cfg, INIT, steps).Some?
    ensures Subsequence(BatchesOf(Run(cfg, INIT, steps).value.disk.log), AppendedBatches(steps))
  {
    hide Inv, Take, Enabled;
    if steps != [] {
      var n := |steps| - 1;
      RunSnoc(cfg, INIT, steps);
      LogIsAppended(cfg, steps[..n]);
      var s := Run(cfg, INIT, steps[..n]).value;
      InitHolds(false, cfg);
      RunKeeps(false, cfg, INIT, steps[..n]);
      StepLog(cfg, s, steps[n]);
      var before, after := BatchesOf(s.disk.log), BatchesOf(Take(cfg, s, steps[n]).disk.log);
      if IsAppend(steps[n]) {
        SubsequenceSnoc(before, AppendedBatches(steps[..n]), steps[n].writer.batch);
      } else {
        SubsequenceCut(before, |after|, AppendedBatches(steps[..n]));
        assert AppendedBatches(steps[..n]) + [] == AppendedBatches(steps[..n]);
      }
    }
  }

  /** The record that a step acknowledges, if it does. */
  function AckedBy(s: State, step: Step): Option<nat>
    requires s.Up?
  {
    if !step.Writer? || step.t !in s.live.agents then None
    else if step.writer.Apply? || step.writer.ApplyRotate? then if s.disk.log == [] then None
      else Some(|s.disk.log| - 1)
    else if step.writer.ResumeWriter? && s.live.agents[step.t].pc.WriterStalled?
            && s.live.store.imm.None? && !s.live.closed && s.live.flushErr.None? then Some(s.live.agents[step.t].pc.rec)
    else None
  }

  /** Only this record may be newly acknowledged. */
  ghost predicate Acknowledges(before: seq<LogRec>, after: seq<LogRec>, which: Option<nat>) {
    forall i :: 0 <= i < |before| && i < |after| && !before[i].acked && after[i].acked ==> which == Some(i)
  }

  lemma {:induction false} WriterAcknowledges(cfg: Config, d: Disk, l: Live, t: Tid, step: WriterStep)
    requires LiveInv(false, cfg, d, l) && WriterEnabled(cfg, d, l, t, step)
    ensures var after, which := WriterTake(cfg, d, l, t, step).disk.log, AckedBy(Up(d, l), Writer(t, step));
            Acknowledges(d.log, after, which) && (which.Some? ==> OwnRecord(after, which.value, l.agents[t].pc))
  {
    hide DiskInv, StoreInv, LinkInv, WholeInv, ApplyOps, LockFree, Signal, Without, CanSignal;
    assert t in l.agents ==> PlaceOk(cfg, d, l, l.agents[t].pc);
  }

  /** A write that returns success acknowledges the record of its own batch, and no other step acknowledges anything. */
  lemma {:induction false} AcknowledgesOwnBatch(cfg: Config, s: State, step: Step)
    requires Reachable(cfg, s) && s.Up? && Enabled(cfg, s, step)
    ensures var after, which := Take(cfg, s, step).disk.log, AckedBy(s, step);
            Acknowledges(s.disk.log, after, which) &&
              (which.Some? ==> OwnRecord(after, which.value, s.live.agents[step.t].pc))
  {
    hide Reachable, LiveInv, ThreadsInv, WriterTake, WriterEnabled, CallerTake, CallerEnabled, FlusherTake,
         FlusherEnabled, TableEnabled, FlushEdit, LockFree, WakeAll, Fail, OwnRecord;
    ReachableInv(cfg, s);
    if step.Writer? {
      WriterAcknowledges(cfg, s.disk, s.live, step.t, step.writer);
    }
  }

  /** Applied and acknowledged, and it is the batch that this goroutine's Write was called with. */
  predicate OwnRecord(log: seq<LogRec>, i: nat, pc: Pc) {
    i < |log| && log[i].applied && log[i].acked && (pc.Synced? || pc.WriterStalled?) && log[i].batch == pc.batch
  }

  lemma {:induction false} RunSnoc(cfg: Config, s: State, steps: seq<Step>)
    requires steps != [] && Run(cfg, s, steps).Some?
    ensures var r := Run(cfg, s, steps[..|steps| - 1]);
            r.Some? && Enabled(cfg, r.value, steps[|steps| - 1])
            && Run(cfg, s, steps) == Some(Take(cfg, r.value, steps[|steps| - 1]))
    decreases steps
  {
    hide Take, Enabled;
    if |steps| > 1 {
      assert steps[1..][..|steps| - 2] == steps[..|steps| - 1][1..];
      RunSnoc(cfg, Take(cfg, s, steps[0]), steps[1..]);
    }
  }

  lemma {:induction false} RunConcat(cfg: Config, s: State, a: seq<Step>, b: seq<Step>)
    requires Run(cfg, s, a).Some?
    ensures Run(cfg, s, a + b) == Run(cfg, Run(cfg, s, a).value, b)
    decreases a
  {
    hide Take, Enabled;
    if a == [] {
      assert a + b == b;
    } else {
      assert (a + b)[1..] == a[1..] + b;
      RunConcat(cfg, Take(cfg, s, a[0]), a[1..], b);
    }
  }

  // ----- What reads show

  /** What Get returns: a tombstone and an absent key are the same to a caller. */
  function Seen(hit: Lookup): Option<Bytes> {
    if hit.Present? then Some(hit.value) else None
  }

  /** Every Get returns what folding these operations leaves. */
  ghost predicate SeenAs(s: Store, ops: seq<Operation>) {
    forall key :: Seen(FirstHit(s, key)) == Seen(FoldView(ops, key))
  }

  /** What the tables a disk names answer for a key. */
  function DiskHit(d: Disk, key: Bytes): Lookup {
    var m := Bootstrapped(d).manifest;
    if LoadTables(d.files, AddedIds(m)).Some? then FirstHit(Tables(m, d.files), key) else Missing
  }

  /** The log on top of the tables. */
  function DiskView(d: Disk, key: Bytes): Lookup {
    if Names(AllOps(d.log), key) then FoldView(AllOps(d.log), key) else DiskHit(d, key)
  }

  /** Every key for which the tables hold a value is named in the log. */
  ghost predicate LogCoversTables(d: Disk) {
    forall key :: DiskHit(d, key).Present? ==> Names(AllOps(d.log), key)
  }

  /** Open shows the log on top of the tables, and has applied all of it. */
  lemma {:induction false} OpenReads(cfg: Config, d: Disk, key: Bytes)
    requires DiskInv(false, cfg, d) && RoomToReplay(d)
    ensures OpenDisk(cfg, d).Ok? && OpenDisk(cfg, d).value.Up?
    ensures FirstHit(OpenDisk(cfg, d).value.live.store, key) == DiskView(d, key)
    ensures AppliedOps(OpenDisk(cfg, d).value.disk.log) == AllOps(d.log)
  {
    var b := Bootstrapped(d);
    BootstrapKeeps(false, cfg, d);
    TablesLayered(b.manifest, b.files);
    OpenSucceeds(false, cfg, d);
    ReplayedOps(d.log);
    hide OpenDisk, LoadTables, AddedIds, ApplyOps, AllOps, AppliedOps, CountersOf, FirstHit, FoldView, Layered,
         Replayed, DiskInv;
    ApplyReads(Tables(b.manifest, b.files), AllOps(d.log), key);
  }

  /** On any disk, Open shows the fold of the whole log if and only if the log covers the tables. */
  lemma {:induction false} OpenShowsLogIff(cfg: Config, d: Disk)
    requires DiskInv(false, cfg, d) && RoomToReplay(d)
    ensures OpenDisk(cfg, d).Ok? && OpenDisk(cfg, d).value.Up?
    ensures SeenAs(OpenDisk(cfg, d).value.live.store, AllOps(d.log)) <==> LogCoversTables(d)
  {
    hide OpenDisk, RoomToReplay, AllOps, FirstHit, FoldView, DiskHit, Names, DiskInv;
    OpenReads(cfg, d, []);
    forall key ensures Seen(FirstHit(OpenDisk(cfg, d).value.live.store, key)) == Seen(FoldView(AllOps(d.log), key))
                       <==> (DiskHit(d, key).Present? ==> Names(AllOps(d.log), key)) {
      OpenReads(cfg, d, key);
      NamedIffSeen(AllOps(d.log), key);
    }
  }

  // ----- No step of a running process changes what reads show, but for applying a batch

  lemma {:induction false} ApplySeen(s: Store, ops: seq<Operation>, batch: seq<Operation>)
    requires Layered(s) && SeenAs(s, ops) && s.seqno + |batch| <= MAX_UINT64
    ensures SeenAs(Applied(s, batch), ops + batch)
  {
    hide Layered, Applied, FirstHit, FoldView, LastOp;
    forall key ensures Seen(FirstHit(Applied(s, batch), key)) == Seen(FoldView(ops + batch, key)) {
      ApplyReads(s, batch, key);
      FoldConcat(ops, batch, key);
    }
  }

  /** Every key reads the same. */
  ghost predicate SameReads(a: Store, b: Store) {
    forall key :: FirstHit(a, key) == FirstHit(b, key)
  }

  lemma {:induction false} WriterSeen(cfg: Config, d: Disk, l: Live, t: Tid, step: WriterStep)
    requires LiveInv(false, cfg, d, l) && WriterEnabled(cfg, d, l, t, step) && SeenAs(l.store, AppliedOps(d.log))
    ensures var s := WriterTake(cfg, d, l, t, step); SeenAs(s.live.store, AppliedOps(s.disk.log))
  {
    hide DiskInv, LinkInv, WholeInv, Layered, Named, Shows, FirstHit, FoldView, AppliedOps, ApplyOps, LockFree,
         Signal, Without, CanSignal;
    assert t in l.agents ==> PlaceOk(cfg, d, l, l.agents[t].pc);
    if step.Append? {
      OpsSnoc(d.log, LogRec(step.batch, false, false));
      assert AppliedOps(d.log) + [] == AppliedOps(d.log);
    } else if step.ResumeWriter? {
      SameBatches(d.log, WriterTake(cfg, d, l, t, step).disk.log);
      if l.store.imm.None? {
        FreezeKeeps(l.store);
      }
    } else if !step.SyncFail? && !step.SyncOk? {
      var batch := l.agents[t].pc.batch;
      MarkLastOps(d, !step.ApplyStall?);
      ApplySeen(l.store, AppliedOps(d.log), batch);
      ApplyKeepsLayers(l.store, batch);
      if step.ApplyRotate? {
        FreezeKeeps(Applied(l.store, batch));
      }
    }
  }

  lemma {:induction false} CallerSeen(l: Live, t: Tid, step: CallerStep)
    requires CallerEnabled(l, t, step) && Layered(l.store)
    ensures SameReads(CallerTake(l, t, step).store, l.store)
  {
    hide Layered, FirstHit, Without, Signal, LockFree;
    if l.store.imm.None? {
      FreezeKeeps(l.store);
    }
  }

  lemma {:induction false} WorkSeen(cfg: Config, s: State, step: Step)
    requires s.Up? && Inv(false, cfg, s) && Enabled(cfg, s, step) && Works(step)
    ensures Take(cfg, s, step).Up? && Take(cfg, s, step).disk.log == s.disk.log
    ensures SameReads(Take(cfg, s, step).live.store, s.live.store)
  {
    hide DiskInv, LinkInv, PlacesOk, WholeInv, Shows, Named, Layered, FirstHit, Without, LockFree, WakeAll, FlushEdit;
    if step.FlusherLook? && s.live.store.imm == Some([]) {
      DropEmptyKeeps(s.live.store);
    } else if step.Table? && step.table.PublishInstall? {
      PublishKeeps(s.live.store);
    }
  }

  lemma {:induction false} LayersOf(safe: bool, cfg: Config, s: State)
    requires Inv(safe, cfg, s) && s.Up?
    ensures Layered(s.live.store)
  {
  }

  /** While the process runs, reads keep showing the fold of what has been applied. */
  lemma {:induction false} StepSeen(cfg: Config, s: State, step: Step)
    requires Inv(false, cfg, s) && s.Up? && Enabled(cfg, s, step) && Take(cfg, s, step).Up?
    requires SeenAs(s.live.store, AppliedOps(s.disk.log))
    ensures var s' := Take(cfg, s, step); SeenAs(s'.live.store, AppliedOps(s'.disk.log))
  {
    hide LiveInv, ThreadsInv, WriterTake, WriterEnabled, CallerTake, CallerEnabled, FlusherTake, FlusherEnabled,
         TableTake, TableEnabled, LockFree, WakeAll, FirstHit, FoldView, AppliedOps;
    match step
    case Writer(t, w) => WriterSeen(cfg, s.disk, s.live, t, w);
    case Caller(t, c) => LayersOf(false, cfg, s); CallerSeen(s.live, t, c);
    case _ => WorkSeen(cfg, s, step);
  }

  // ----- Crash refinement

  /** After i steps, if the process is up, reads show the fold of the applied records. */
  ghost predicate FoldAt(cfg: Config, steps: seq<Step>, i: nat)
    requires i <= |steps|
  {
    match Run(cfg, INIT, steps[..i])
    case None => true
    case Some(s) => s.Up? ==> SeenAs(s.live.store, AppliedOps(s.disk.log))
  }

  /** If step i is Open, the log it finds covers the tables it finds. */
  ghost predicate CoveredAt(cfg: Config, steps: seq<Step>, i: nat)
    requires i < |steps|
  {
    match Run(cfg, INIT, steps[..i])
    case None => true
    case Some(s) => steps[i] == Offline(Open) ==> LogCoversTables(s.disk)
  }

  lemma {:induction false} OneMoreStep(cfg: Config, steps: seq<Step>, i: nat)
    requires Run(cfg, INIT, steps).Some? && i < |steps|
    ensures var r := Run(cfg, INIT, steps[..i]);
            && r.Some? && Inv(false, cfg, r.value) && Enabled(cfg, r.value, steps[i])
            && Run(cfg, INIT, steps[..i + 1]) == Some(Take(cfg, r.value, steps[i]))
  {
    hide Take, Enabled, Inv;
    RunPrefix(cfg, INIT, steps, i + 1);
    RunSnoc(cfg, INIT, steps[..i + 1]);
    assert steps[..i + 1][..i] == steps[..i];
    InitHolds(false, cfg);
    RunKeeps(false, cfg, INIT, steps[..i]);
  }

  lemma {:induction false} RunPrefix(cfg: Config, s: State, steps: seq<Step>, i: nat)
    requires Run(cfg, s, steps).Some? && i <= |steps|
    ensures Run(cfg, s, steps[..i]).Some?
    decreases steps
  {
    hide Take, Enabled;
    if i > 0 {
      assert steps[..i][1..] == steps[1..][..i - 1];
      RunPrefix(cfg, Take(cfg, s, steps[0]), steps[1..], i - 1);
    }
  }

  /** One step of the way: the fold is kept, unless the step is an Open that finds an uncovered table. */
  lemma {:induction false} FoldStep(cfg: Config, steps: seq<Step>, i: nat)
    requires Run(cfg, INIT, steps).Some? && i < |steps| && FoldAt(cfg, steps, i)
    ensures FoldAt(cfg, steps, i + 1) <==> CoveredAt(cfg, steps, i)
  {
    OneMoreStep(cfg, steps, i);
    var s := Run(cfg, INIT, steps[..i]).value;
    hide Run, Take, Enabled, Inv, SeenAs, AppliedOps, LogCoversTables;
    if s.Up? {
      UpIsNotOpen(cfg, s, steps[i]);
      if Take(cfg, s, steps[i]).Up? {
        StepSeen(cfg, s, steps[i]);
      }
    } else {
      OpenStep(cfg, s, steps[i]);
    }
  }

  lemma {:induction false} UpIsNotOpen(cfg: Config, s: State, step: Step)
    requires Enabled(cfg, s, step)
    ensures s.Up? ==> !step.Offline?
  {
  }

  lemma {:induction false} OpenStep(cfg: Config, s: State, step: Step)
    requires Inv(false, cfg, s) && s.Down? && Enabled(cfg, s, step)
    ensures var s' := Take(cfg, s, step);
            && (s'.Up? <==> step == Offline(Open))
            && (s'.Up? ==> (SeenAs(s'.live.store, AppliedOps(s'.disk.log)) <==> LogCoversTables(s.disk)))
  {
    hide OpenDisk, RoomToReplay, DiskInv, SeenAs, LogCoversTables, AllOps, AppliedOps, AddedIds, DiskView, FirstHit;
    if step == Offline(Open) {
      OpenReads(cfg, s.disk, []);
      OpenShowsLogIff(cfg, s.disk);
    }
  }

  lemma {:induction false} FoldUntil(cfg: Config, steps: seq<Step>, n: nat)
    requires Run(cfg, INIT, steps).Some? && n <= |steps| && forall i :: 0 <= i < n ==> CoveredAt(cfg, steps, i)
    ensures FoldAt(cfg, steps, n)
  {
    hide CoveredAt;
    if n == 0 {
      assert steps[..0] == [];
    } else {
      hide FoldAt;
      FoldUntil(cfg, steps, n - 1);
      FoldStep(cfg, steps, n - 1);
    }
  }

  /**
   * In any mode and over any run, with kills and power losses anywhere: reads show the fold of the applied records
   * at every point of the run if and only if every Open in it found a log that covers its tables.
   */
  lemma {:induction false} ReadsFoldIff(cfg: Config, steps: seq<Step>)
    requires Run(cfg, INIT, steps).Some?
    ensures (forall i :: 0 <= i <= |steps| ==> FoldAt(cfg, steps, i))
       <==> (forall i :: 0 <= i < |steps| ==> CoveredAt(cfg, steps, i))
  {
    hide FoldAt, CoveredAt, Run;
    if forall i :: 0 <= i <= |steps| ==> FoldAt(cfg, steps, i) {
      forall i | 0 <= i < |steps| ensures CoveredAt(cfg, steps, i) {
        FoldStep(cfg, steps, i);
      }
    }
    if forall i :: 0 <= i < |steps| ==> CoveredAt(cfg, steps, i) {
      forall n | 0 <= n <= |steps| ensures FoldAt(cfg, steps, n) {
        FoldUntil(cfg, steps, n);
      }
    }
  }

  /**
   * Crash refinement, with sync on. Take any run and continue it in any way: kills, power losses and reopenings
   * included. Every batch acknowledged in the first part is still in the log, in its place, and applied. The log is
   * a list of whole batches taken in order from those appended. And reads show the fold of the applied batches at
   * every point - right after Open, of the whole log - if and only if every Open found a log that covers its tables.
   */
  lemma {:induction false} CrashRefinement(cfg: Config, steps: seq<Step>, more: seq<Step>)
    requires cfg.sync && Run(cfg, INIT, steps + more).Some? && Run(cfg, INIT, steps).Some?
    ensures var s, s' := Run(cfg, INIT, steps).value, Run(cfg, INIT, steps + more).value;
            && (forall i :: 0 <= i < |s.disk.log| && s.disk.log[i].acked ==>
                  i < |s'.disk.log| && s'.disk.log[i].batch == s.disk.log[i].batch && s'.disk.log[i].applied)
            && Subsequence(BatchesOf(s'.disk.log), AppendedBatches(steps + more))
            && (more != [] && more[|more| - 1] == Offline(Open) ==> AppliedOps(s'.disk.log) == AllOps(s'.disk.log))
    ensures var all := steps + more;
            (forall i :: 0 <= i <= |all| ==> FoldAt(cfg, all, i)) <==>
              (forall i :: 0 <= i < |all| ==> CoveredAt(cfg, all, i))
  {
    hide FoldAt, CoveredAt, Inv;
    var s, s' := Run(cfg, INIT, steps).value, Run(cfg, INIT, steps + more).value;
    ReadsFoldIff(cfg, steps + more);
    RunConcat(cfg, INIT, steps, more);
    LogIsAppended(cfg, steps + more);
    if more != [] && more[|more| - 1] == Offline(Open) {
      RunSnoc(cfg, s, more);
      OpenAppliesAll(cfg, Run(cfg, s, more[..|more| - 1]).value);
    }
    assert Reachable(cfg, s);
    forall i | 0 <= i < |s.disk.log| && s.disk.log[i].acked
      ensures i < |s'.disk.log| && s'.disk.log[i].batch == s.disk.log[i].batch && s'.disk.log[i].applied
    {
      AckedStays(cfg, s, more, i);
    }
  }

  lemma {:induction false} OpenAppliesAll(cfg: Config, s: State)
    requires Enabled(cfg, s, Offline(Open))
    ensures var log := Take(cfg, s, Offline(Open)).disk.log; AppliedOps(log) == AllOps(log)
  {
    hide AllOps, AppliedOps, LoadTables, AddedIds, RoomToReplay;
    ReplayedOps(s.disk.log);
  }

  // ----- Layers

  /** First hit wins is the newest version over all layers, in every reachable state, recovered ones included. */
  lemma {:induction false} ReadsAreNewest(cfg: Config, s: State, key: Bytes)
    requires Reachable(cfg, s) && s.Up?
    ensures Layered(s.live.store)
    ensures FirstHit(s.live.store, key)
         == OutcomeOf(ReferenceModel.Newest(Union(s.live.store), key, s.live.store.seqno))
  {
    hide Layered, FirstHit, Union;
    ReachableInv(cfg, s);
    FirstHitIsNewest(s.live.store, key);
  }
}
