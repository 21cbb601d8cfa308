/**
 * The invariant of the engine over all runs: the disk, the layers, what reads see, and how memory and disk hang
 * together.
 */
module EngineInvariant {
  import opened Basics
  import opened Keys
  import opened Runs
  import opened Batches
  import opened VersionEdits
  import opened ManifestReplay
  import opened EngineStore
  import opened EngineProtocol
  import opened EngineLogs
  import opened EngineThreads
  import opened EngineDisk

  /** Reads see the fold of a list of operations. */
  ghost predicate Shows(s: Store, ops: seq<Operation>) {
    forall key :: FirstHit(s, key) == FoldView(ops, key)
  }

  /** Every key in a memtable is named by one of the operations. */
  ghost predicate Named(s: Store, ops: seq<Operation>) {
    forall e :: e in s.mem || e in Frozen(s.imm) ==> Names(ops, e.key.userKey)
  }

  ghost predicate StoreInv(safe: bool, s: Store, ops: seq<Operation>) {
    Layered(s) && Named(s, ops) && (safe ==> Shows(s, ops))
  }

  predicate PublishingAt(l: Live, t: Tid) {
    t in l.agents && l.agents[t].pc.Publishing?
  }

  /** The manifest is one table ahead of memory: the table of the frozen memtable, being installed or given up on. */
  ghost predicate Pending(d: Disk, l: Live) {
    && l.store.imm.Some? && l.store.imm.value != [] && Entries(d.files, |l.store.ssts| + 1) == l.store.imm.value
    && (l.flushErr.Some? || exists t :: PublishingAt(l, t))
  }

  /** The open tables are those the manifest names, and the next id is the next place in it. */
  ghost predicate LinkInv(d: Disk, l: Live) {
    var n := |l.store.ssts|;
    && l.nextID == n + 1 <= |d.manifest| <= n + 2 && 1 <= d.manifestSynced <= |d.manifest|
    && (forall i :: 0 <= i < n ==> l.store.ssts[i] == Entries(d.files, i + 1))
    && (|d.manifest| == n + 2 ==> Pending(d, l))
    && d.manifest[|d.manifest| - 1].lastSequence <= l.store.seqno
  }

  /** The last record of the log is this batch, not applied yet. */
  predicate LastPending(d: Disk, batch: Batch) {
    d.log != [] && !d.log[|d.log| - 1].applied && d.log[|d.log| - 1].batch == batch
  }

  /** What a goroutine's place says about the disk. */
  ghost predicate PlaceOk(cfg: Config, d: Disk, l: Live, pc: Pc) {
    match pc
    case Appended(batch) => LastPending(d, batch)
    case Synced(batch) => LastPending(d, batch) && (cfg.sync ==> d.logSynced == |d.log|)
    case WriterStalled(batch, rec) =>
      rec < |d.log| && d.log[rec].applied && d.log[rec].batch == batch && (cfg.sync ==> rec < d.logSynced)
    case Writing(_, _) => |d.manifest| == |l.store.ssts| + 1
    case Written(id, entries, error) =>
      && |d.manifest| == |l.store.ssts| + 1
      && (error.None? ==> TableThere(d.files, id) && Entries(d.files, id) == entries)
    case Publishing(_, _) => d.manifestSynced == |d.manifest| == |l.store.ssts| + 2
    case _ => true
  }

  ghost predicate PlacesOk(cfg: Config, d: Disk, l: Live) {
    forall t :: t in l.agents ==> PlaceOk(cfg, d, l, l.agents[t].pc)
  }

  /** With sync on, an applied record that is not durable was replayed, and nothing has been applied since. */
  ghost predicate WholeInv(cfg: Config, d: Disk, s: Store) {
    cfg.sync ==> AllAppliedSynced(d) || s.mem == [] || Frozen(s.imm) == []
  }

  ghost predicate LiveInv(safe: bool, cfg: Config, d: Disk, l: Live) {
    && DiskInv(safe, cfg, d) && StoreInv(safe, l.store, AppliedOps(d.log))
    && LinkInv(d, l) && PlacesOk(cfg, d, l) && WholeInv(cfg, d, l.store)
  }

  ghost predicate Inv(safe: bool, cfg: Config, s: State) {
    match s
    case Down(d) => DiskInv(safe, cfg, d) && d.logWritten == |d.log|
    case Up(d, l) => ThreadsInv(cfg, l) && LiveInv(safe, cfg, d, l)
  }

  // ----- The store

  lemma {:induction false} ApplyOpsNamed(mem: seq<Entry>, seqno: nat, ops: seq<Operation>, e: Entry)
    requires seqno + |ops| <= MAX_UINT64 && e in ApplyOps(mem, seqno, ops)
    ensures e in mem || Names(ops, e.key.userKey)
  {
    hide Insert;
    if ops != [] {
      var n := |ops| - 1;
      InsertMembers(ApplyOps(mem, seqno, ops[..n]), EntryOf(ops[n], seqno + |ops|));
      if e in ApplyOps(mem, seqno, ops[..n]) {
        ApplyOpsNamed(mem, seqno, ops[..n], e);
      }
    }
  }

  lemma {:induction false} ApplyKeepsNamed(s: Store, ops: seq<Operation>, batch: seq<Operation>)
    requires Named(s, ops) && s.seqno + |batch| <= MAX_UINT64
    ensures Named(Applied(s, batch), ops + batch)
  {
    hide ApplyOps, LastOp;
    forall e | e in Applied(s, batch).mem || e in Frozen(s.imm) ensures Names(ops + batch, e.key.userKey) {
      FoldConcat(ops, batch, e.key.userKey);
      if e in Applied(s, batch).mem {
        ApplyOpsNamed(s.mem, s.seqno, batch, e);
      }
    }
  }

  lemma {:induction false} ApplyKeepsStore(safe: bool, s: Store, ops: seq<Operation>, batch: seq<Operation>)
    requires StoreInv(safe, s, ops) && s.seqno + |batch| <= MAX_UINT64
    ensures StoreInv(safe, Applied(s, batch), ops + batch)
  {
    hide Layered, Applied, FirstHit, FoldView, LastOp, Named;
    ApplyKeepsLayers(s, batch);
    ApplyKeepsNamed(s, ops, batch);
    if safe {
      forall key ensures FirstHit(Applied(s, batch), key) == FoldView(ops + batch, key) {
        ApplyReads(s, batch, key);
        FoldConcat(ops, batch, key);
      }
    }
  }

  lemma {:induction false} FreezeKeepsStore(safe: bool, s: Store, ops: seq<Operation>)
    requires StoreInv(safe, s, ops) && s.imm.None?
    ensures StoreInv(safe, Freeze(s), ops)
  {
    hide Layered, FirstHit, FoldView, Names;
    FreezeKeeps(s);
  }

  lemma {:induction false} PublishKeepsStore(safe: bool, s: Store, ops: seq<Operation>)
    requires StoreInv(safe, s, ops) && s.imm.Some?
    ensures StoreInv(safe, s.(imm := None, ssts := s.ssts + [s.imm.value]), ops)
  {
    hide Layered, FirstHit, FoldView, Names;
    PublishKeeps(s);
  }

  lemma {:induction false} DropKeepsStore(safe: bool, s: Store, ops: seq<Operation>)
    requires StoreInv(safe, s, ops) && s.imm == Some([])
    ensures StoreInv(safe, s.(imm := None), ops)
  {
    hide Layered, FirstHit, FoldView, Names;
    DropEmptyKeeps(s);
  }

  // ----- The disk

  lemma {:induction false} AppendKeepsDisk(safe: bool, cfg: Config, d: Disk, batch: Batch)
    requires DiskInv(safe, cfg, d)
    ensures DiskInv(safe, cfg, d.(log := d.log + [LogRec(batch, false, false)]))
  {
    hide TablesOk, Covered, WfManifest;
    assert (d.log + [LogRec(batch, false, false)])[..d.logSynced] == d.log[..d.logSynced];
  }

  lemma {:induction false} SyncKeepsDisk(safe: bool, cfg: Config, d: Disk)
    requires DiskInv(safe, cfg, d)
    ensures DiskInv(safe, cfg, d.(logSynced := |d.log|, logWritten := |d.log|))
  {
    hide TablesOk, WfManifest, AllOps;
    forall key ensures Names(AllOps(d.log[..d.logSynced]), key) ==> Names(AllOps(d.log[..|d.log|]), key) {
      NamesPrefix(d.log, d.logSynced, |d.log|, key);
    }
  }

  /** Marking records applied or acknowledged. */
  lemma {:induction false} RelabelKeepsDisk(safe: bool, cfg: Config, d: Disk, log: seq<LogRec>)
    requires DiskInv(safe, cfg, d) && |log| == |d.log| && forall i :: 0 <= i < |log| ==> log[i].batch == d.log[i].batch
    requires LogOk(cfg, d.(log := log))
    ensures DiskInv(safe, cfg, d.(log := log))
  {
    hide TablesOk, WfManifest, Covered, AllOps;
    SameBatches(log[..d.logSynced], d.log[..d.logSynced]);
  }

  /** Files the manifest does not name may change. */
  lemma {:induction false} SameTables(m: seq<VersionEdit>, files: Files, files': Files, ops: seq<Operation>)
    requires TablesOk(m, files)
    requires forall i :: 1 <= i < |m| && i in files ==> i in files' && files'[i] == files[i]
    ensures TablesOk(m, files') && (Covered(m, files, ops) ==> Covered(m, files', ops))
    ensures forall i :: 1 <= i < |m| ==> Entries(files', i) == Entries(files, i)
  {
    hide Above, StrictlySorted, AtMost, Names;
    forall i | 1 <= i < |m| ensures TableThere(files', i) && Entries(files', i) == Entries(files, i) {
      assert TableThere(files, i);
    }
    hide TableThere, Entries;
  }

  lemma {:induction false} FilesKeepDisk(safe: bool, cfg: Config, d: Disk, files: Files)
    requires DiskInv(safe, cfg, d)
    requires forall i :: 1 <= i < |d.manifest| && i in d.files ==> i in files && files[i] == d.files[i]
    ensures DiskInv(safe, cfg, d.(files := files))
    ensures forall i :: 1 <= i < |d.manifest| ==> Entries(files, i) == Entries(d.files, i)
  {
    hide TablesOk, Covered, WfManifest, AllOps;
    SameTables(d.manifest, d.files, files, AllOps(d.log[..d.logSynced]));
  }

  /** The edit of a flush fits at the end of the manifest. */
  lemma {:induction false} EditFits(m: seq<VersionEdit>, size: uint64, entries: seq<Entry>, seqno: nat)
    requires WfManifest(m) && m != [] && entries != [] && |m| < MAX_UINT64
    requires m[|m| - 1].lastSequence <= seqno <= MAX_UINT64
    ensures WfManifest(m + [FlushEdit(|m|, size, entries, seqno)])
  {
    var m' := m + [FlushEdit(|m|, size, entries, seqno)];
    assert AddsTable(m'[|m|], |m|);
    hide FlushEdit, AddsTable;
    forall i, j | 0 <= i < j < |m'| ensures m'[i].lastSequence <= m'[j].lastSequence {
      if j == |m| {
        assert m[i].lastSequence <= m[|m| - 1].lastSequence;
      }
    }
  }

  lemma {:induction false} EditKeepsTables(m: seq<VersionEdit>, files: Files, edit: VersionEdit)
    requires TablesOk(m, files) && m != []
    requires TableThere(files, |m|) && StrictlySorted(Entries(files, |m|)) &&
        AtMost(Entries(files, |m|), edit.lastSequence)
    requires forall i :: 1 <= i < |m| ==> Above(Entries(files, |m|), Entries(files, i))
    ensures TablesOk(m + [edit], files)
  {
    hide Above, StrictlySorted, AtMost, Entries, TableThere;
  }

  lemma {:induction false} EditKeepsCover(m: seq<VersionEdit>, files: Files, edit: VersionEdit, ops: seq<Operation>)
    requires Covered(m, files, ops)
    requires forall e :: e in Entries(files, |m|) ==> Names(ops, e.key.userKey)
    ensures Covered(m + [edit], files, ops)
  {
    hide Names, Entries;
  }

  // ----- Writers

  /** Goroutines other than t stand where they stood, and none of them is inside a Write. */
  ghost predicate OthersStand(l: Live, t: Tid, l': Live) {
    forall u :: u in l'.agents && u != t ==>
      u in l.agents && l'.agents[u].pc == l.agents[u].pc && !l.agents[u].pc.Appended? && !l.agents[u].pc.Synced?
  }

  /** Records keep their batches, and what was applied or durable stays so. */
  ghost predicate LogMoves(d: Disk, d': Disk) {
    && d'.manifest == d.manifest && d'.manifestSynced == d.manifestSynced && d'.files == d.files
    && d.logSynced <= d'.logSynced && |d.log| <= |d'.log|
    && forall i :: 0 <= i < |d.log| ==> d'.log[i].batch == d.log[i].batch && (d.log[i].applied ==> d'.log[i].applied)
  }

  /** Memory moves by what a Write does: more is applied, or the memtable is frozen into the free slot. */
  ghost predicate MemMoves(l: Live, l': Live) {
    && l'.nextID == l.nextID && l'.flushErr == l.flushErr
    && l'.store.ssts == l.store.ssts && l'.store.seqno >= l.store.seqno
    && (l'.store.imm == l.store.imm || l.store.imm.None?)
    && forall u :: PublishingAt(l, u) ==> PublishingAt(l', u)
  }

  lemma {:induction false} PlacesStay(cfg: Config, d: Disk, l: Live, t: Tid, d': Disk, l': Live)
    requires PlacesOk(cfg, d, l) && LogMoves(d, d') && OthersStand(l, t, l') && l'.store.ssts == l.store.ssts
    requires t in l'.agents ==> PlaceOk(cfg, d', l', l'.agents[t].pc)
    ensures PlacesOk(cfg, d', l')
  {
    hide Entries;
    forall u | u in l'.agents && u != t ensures PlaceOk(cfg, d', l', l'.agents[u].pc) {
      assert PlaceOk(cfg, d, l, l.agents[u].pc);
    }
  }

  lemma {:induction false} LinkStays(d: Disk, l: Live, d': Disk, l': Live)
    requires LinkInv(d, l) && LogMoves(d, d') && MemMoves(l, l')
    ensures LinkInv(d', l')
  {
    hide Entries;
  }

  lemma {:induction false} WriteKeeps(safe: bool, cfg: Config, d: Disk, l: Live, t: Tid, d': Disk, l': Live)
    requires LinkInv(d, l) && PlacesOk(cfg, d, l) && LogMoves(d, d') && MemMoves(l, l') && OthersStand(l, t, l')
    requires DiskInv(safe, cfg, d') && StoreInv(safe, l'.store, AppliedOps(d'.log)) && WholeInv(cfg, d', l'.store)
    requires t in l'.agents ==> PlaceOk(cfg, d', l', l'.agents[t].pc)
    ensures LiveInv(safe, cfg, d', l')
  {
    hide LinkInv, PlacesOk, DiskInv, StoreInv, WholeInv, LogMoves, OthersStand, AppliedOps, PlaceOk;
    PlacesStay(cfg, d, l, t, d', l') by {
      assert l'.store.ssts == l.store.ssts;
    }
    hide MemMoves;
    LinkStays(d, l, d', l');
  }

  /** Marking the last record applied. */
  lemma {:induction false} MarkMoves(d: Disk, acked: bool)
    requires d.log != []
    ensures LogMoves(d, MarkLast(d, acked)) && |MarkLast(d, acked).log| == |d.log|
  {
  }

  /** With the only holder of the lock gone, nobody is inside a Write. */
  lemma {:induction false} HolderLeaves(l: Live, t: Tid, l': Live)
    requires OneHolder(l.agents) && t in l.agents && HoldsLock(l.agents[t].pc)
    requires forall u :: u in l'.agents && u != t ==> u in l.agents && l'.agents[u].pc == l.agents[u].pc
    ensures OthersStand(l, t, l')
  {
  }

  lemma {:induction false} AppendKeeps(safe: bool, cfg: Config, d: Disk, l: Live, t: Tid, batch: Batch)
    requires LiveInv(safe, cfg, d, l) && WriterEnabled(cfg, d, l, t, Append(batch))
    ensures var s := WriterTake(cfg, d, l, t, Append(batch)); LiveInv(safe, cfg, s.disk, s.live)
  {
    hide DiskInv, StoreInv, AppliedOps, Entries;
    AppendKeepsDisk(safe, cfg, d, batch);
    OpsSnoc(d.log, LogRec(batch, false, false));
    assert AppliedOps(d.log) + [] == AppliedOps(d.log);
  }

  lemma {:induction false} SyncKeeps(safe: bool, cfg: Config, d: Disk, l: Live, t: Tid, step: WriterStep)
    requires LiveInv(safe, cfg, d, l) && ThreadsInv(cfg, l)
    requires WriterEnabled(cfg, d, l, t, step) && (step.SyncFail? || step.SyncOk?)
    ensures var s := WriterTake(cfg, d, l, t, step); LiveInv(safe, cfg, s.disk, s.live)
  {
    hide DiskInv, StoreInv, AppliedOps, Entries;
    SyncKeepsDisk(safe, cfg, d);
  }

  /** What the three ways of applying a batch do to the disk and the store. */
  lemma {:induction false} BatchKeeps(safe: bool, cfg: Config, d: Disk, l: Live, t: Tid, acked: bool)
    requires LiveInv(safe, cfg, d, l) && ReadyToApply(d, l, t)
    ensures DiskInv(safe, cfg, MarkLast(d, acked))
    ensures var s := Applied(l.store, l.agents[t].pc.batch);
            && StoreInv(safe, s, AppliedOps(MarkLast(d, acked).log))
            && WholeInv(cfg, MarkLast(d, acked), s)
  {
    hide StoreInv, AppliedOps, Entries, ApplyOps, WfManifest, TablesOk, Covered;
    assert PlaceOk(cfg, d, l, l.agents[t].pc);
    MarkLastOps(d, acked);
    RelabelKeepsDisk(safe, cfg, d, MarkLast(d, acked).log);
    ApplyKeepsStore(safe, l.store, AppliedOps(d.log), d.log[|d.log| - 1].batch);
  }

  lemma {:induction false} AppliedStands(cfg: Config, d: Disk, l: Live, t: Tid, step: WriterStep)
    requires OneHolder(l.agents) && WriterEnabled(cfg, d, l, t, step)
    requires step.Apply? || step.ApplyRotate? || step.ApplyStall?
    ensures var s := WriterTake(cfg, d, l, t, step); OthersStand(l, t, s.live) && MemMoves(l, s.live)
  {
    hide ApplyOps, OthersStand, LockFree;
    HolderLeaves(l, t, WriterTake(cfg, d, l, t, step).live);
  }

  /** A writer that stalls leaves its batch applied, and durable with sync on. */
  lemma {:induction false} StalledPlace(cfg: Config, d: Disk, l: Live, t: Tid, step: WriterStep)
    requires PlacesOk(cfg, d, l) && WriterEnabled(cfg, d, l, t, step)
    requires step.Apply? || step.ApplyRotate? || step.ApplyStall?
    ensures var s := WriterTake(cfg, d, l, t, step);
            t in s.live.agents ==> PlaceOk(cfg, s.disk, s.live, s.live.agents[t].pc)
  {
    hide ApplyOps, LockFree, Entries;
    assert PlaceOk(cfg, d, l, l.agents[t].pc);
  }

  lemma {:induction false} ApplyKeepsLive(safe: bool, cfg: Config, d: Disk, l: Live, t: Tid, step: WriterStep)
    requires LiveInv(safe, cfg, d, l) && ThreadsInv(cfg, l) && WriterEnabled(cfg, d, l, t, step)
    requires step.Apply? || step.ApplyRotate? || step.ApplyStall?
    ensures var s := WriterTake(cfg, d, l, t, step); LiveInv(safe, cfg, s.disk, s.live)
  {
    hide DiskInv, StoreInv, LinkInv, PlacesOk, PlaceOk, AllAppliedSynced, AppliedOps, Entries, ApplyOps, OthersStand,
         MemMoves, LogMoves;
    BatchKeeps(safe, cfg, d, l, t, !step.ApplyStall?);
    if step.ApplyRotate? {
      FreezeKeepsStore(safe, Applied(l.store, l.agents[t].pc.batch), AppliedOps(MarkLast(d, true).log));
    }
    var s := WriterTake(cfg, d, l, t, step);
    AppliedStands(cfg, d, l, t, step);
    StalledPlace(cfg, d, l, t, step);
    MarkMoves(d, !step.ApplyStall?);
    WriteKeeps(safe, cfg, d, l, t, s.disk, s.live);
  }

  lemma {:induction false} AckKeeps(safe: bool, cfg: Config, d: Disk, l: Live, rec: nat)
    requires DiskInv(safe, cfg, d) && StoreInv(safe, l.store, AppliedOps(d.log)) && rec < |d.log| && d.log[rec].applied
    requires cfg.sync ==> rec < d.logSynced
    ensures var log := d.log[rec := d.log[rec].(acked := true)];
            && DiskInv(safe, cfg, d.(log := log)) && AppliedOps(log) == AppliedOps(d.log)
            && (l.store.imm.None? ==> StoreInv(safe, Freeze(l.store), AppliedOps(log)))
  {
    hide StoreInv, AppliedOps, WfManifest, TablesOk, Covered;
    var log := d.log[rec := d.log[rec].(acked := true)];
    SameBatches(d.log, log);
    RelabelKeepsDisk(safe, cfg, d, log);
    if l.store.imm.None? {
      FreezeKeepsStore(safe, l.store, AppliedOps(d.log));
    }
  }

  /** Steps of goroutines that touch neither the disk nor the store. */
  lemma {:induction false} AgentsKeep(safe: bool, cfg: Config, d: Disk, l: Live, l': Live)
    requires LiveInv(safe, cfg, d, l) && l'.store == l.store && l'.nextID == l.nextID && l'.flushErr == l.flushErr
    requires forall t :: t in l'.agents ==>
               (t in l.agents && l'.agents[t].pc == l.agents[t].pc) || PlaceOk(cfg, d, l, l'.agents[t].pc)
    requires forall t :: PublishingAt(l, t) ==> PublishingAt(l', t)
    ensures LiveInv(safe, cfg, d, l')
  {
    hide DiskInv, StoreInv, AppliedOps, Entries;
  }

  lemma {:induction false} AckedMoves(d: Disk, rec: nat)
    requires rec < |d.log|
    ensures LogMoves(d, d.(log := d.log[rec := d.log[rec].(acked := true)]))
  {
  }

  lemma {:induction false} RotatedStands(cfg: Config, d: Disk, l: Live, t: Tid, w: Option<Tid>)
    requires WriterEnabled(cfg, d, l, t, ResumeWriter(w)) && !l.closed && l.flushErr.None? && l.store.imm.None?
    ensures var s := WriterTake(cfg, d, l, t, ResumeWriter(w));
            OthersStand(l, t, s.live) && MemMoves(l, s.live) && t !in s.live.agents
  {
  }

  lemma {:induction false} StalledRecord(cfg: Config, d: Disk, l: Live, t: Tid)
    requires PlacesOk(cfg, d, l) && t in l.agents && l.agents[t].pc.WriterStalled?
    ensures var rec := l.agents[t].pc.rec;
            rec < |d.log| && d.log[rec].applied && (cfg.sync ==> rec < d.logSynced)
  {
    assert PlaceOk(cfg, d, l, l.agents[t].pc);
  }

  /** A stalled writer that got the slot and returns. */
  lemma {:induction false} RotateKeeps(safe: bool, cfg: Config, d: Disk, l: Live, t: Tid, w: Option<Tid>)
    requires LiveInv(safe, cfg, d, l) && WriterEnabled(cfg, d, l, t, ResumeWriter(w))
    requires !l.closed && l.flushErr.None? && l.store.imm.None?
    ensures var s := WriterTake(cfg, d, l, t, ResumeWriter(w)); LiveInv(safe, cfg, s.disk, s.live)
  {
    hide DiskInv, StoreInv, LinkInv, PlacesOk, PlaceOk, AllAppliedSynced, AppliedOps, Entries, LogMoves, MemMoves,
         OthersStand, LockFree, CanSignal, Signal, Without;
    var rec := l.agents[t].pc.rec;
    var s := WriterTake(cfg, d, l, t, ResumeWriter(w));
    RotatedStands(cfg, d, l, t, w);
    StalledRecord(cfg, d, l, t);
    AckKeeps(safe, cfg, d, l, rec);
    AckedMoves(d, rec);
    WriteKeeps(safe, cfg, d, l, t, s.disk, s.live);
  }

  lemma {:induction false} ResumeKeeps(safe: bool, cfg: Config, d: Disk, l: Live, t: Tid, step: WriterStep)
    requires LiveInv(safe, cfg, d, l) && WriterEnabled(cfg, d, l, t, step) && step.ResumeWriter?
    ensures var s := WriterTake(cfg, d, l, t, step); LiveInv(safe, cfg, s.disk, s.live)
  {
    hide LiveInv, Signal;
    if !l.closed && l.flushErr.None? && l.store.imm.None? {
      RotateKeeps(safe, cfg, d, l, t, step.wake);
    } else {
      AgentsKeep(safe, cfg, d, l, WriterTake(cfg, d, l, t, step).live);
    }
  }

  // ----- Callers, the flusher, and closing

  lemma {:induction false} StartKeeps(safe: bool, cfg: Config, d: Disk, l: Live, t: Tid, w: Option<Tid>)
    requires LiveInv(safe, cfg, d, l) && CanSignal(l.agents, w) && l.store.imm.None?
    ensures LiveInv(safe, cfg, d, StartFlush(l, t, w))
  {
    hide DiskInv, StoreInv, AppliedOps, Entries;
    FreezeKeepsStore(safe, l.store, AppliedOps(d.log));
  }

  lemma {:induction false} CallerKeeps(safe: bool, cfg: Config, d: Disk, l: Live, t: Tid, step: CallerStep)
    requires LiveInv(safe, cfg, d, l) && CallerEnabled(l, t, step)
    ensures LiveInv(safe, cfg, d, CallerTake(l, t, step))
  {
    hide StartFlush, LiveInv;
    if step.FlushGo? || (step.ResumeStalled? && !l.closed && l.flushErr.None? && l.store.imm.None?) {
      StartKeeps(safe, cfg, d, l, t, step.wake);
    } else {
      AgentsKeep(safe, cfg, d, l, CallerTake(l, t, step));
    }
  }

  lemma {:induction false} FlusherKeeps(safe: bool, cfg: Config, d: Disk, l: Live)
    requires LiveInv(safe, cfg, d, l) && ThreadsInv(cfg, l) && FlusherEnabled(l)
    ensures LiveInv(safe, cfg, d, FlusherTake(l))
  {
    hide DiskInv, StoreInv, AppliedOps, Entries;
    assert l.flushErr.None?;
    if l.store.imm == Some([]) {
      DropKeepsStore(safe, l.store, AppliedOps(d.log));
    }
  }

  // ----- Building and publishing

  /** Nobody else's place depends on the manifest while a table is published. */
  lemma {:induction false} OthersStay(cfg: Config, d: Disk, l: Live, t: Tid, d': Disk, l': Live)
    requires PlacesOk(cfg, d, l) && BusyAt(l, t) && OneBusy(l.agents)
    requires d'.log == d.log && d'.logSynced == d.logSynced
    requires forall u :: u in l'.agents && u != t ==> u in l.agents && l'.agents[u].pc == l.agents[u].pc
    requires t in l'.agents ==> PlaceOk(cfg, d', l', l'.agents[t].pc)
    ensures PlacesOk(cfg, d', l')
  {
    hide Entries;
    forall u | u in l'.agents && u != t ensures PlaceOk(cfg, d', l', l'.agents[u].pc) {
      assert PlaceOk(cfg, d, l, l.agents[u].pc);
    }
  }

  lemma {:induction false} LinkFiles(d: Disk, l: Live, files: Files, l': Live)
    requires LinkInv(d, l) && |d.manifest| == |l.store.ssts| + 1 && l'.store == l.store && l'.nextID == l.nextID
    requires forall i :: 1 <= i < |d.manifest| ==> Entries(files, i) == Entries(d.files, i)
    ensures LinkInv(d.(files := files), l')
  {
    hide Entries;
  }

  /** Writing the table's file: only the file of the next id and the goroutine's place change. */
  lemma {:induction false} FileMoves(cfg: Config, d: Disk, l: Live, t: Tid, step: TableStep)
    requires LinkInv(d, l) && PlacesOk(cfg, d, l) && BusyMatches(l) && TableEnabled(cfg, d, l, t, step)
    requires step.CreateFile? || step.FinishFile? || step.FailFile?
    ensures var s := TableTake(cfg, d, l, t, step);
            && s.disk == d.(files := s.disk.files) && s.live == l.(agents := s.live.agents)
            && |d.manifest| == |l.store.ssts| + 1 && BusyAt(l, t)
            && (forall i :: 1 <= i < |d.manifest| && i in d.files ==>
                  i in s.disk.files && s.disk.files[i] == d.files[i])
            && (forall u :: u in s.live.agents && u != t ==> u in l.agents && s.live.agents[u].pc == l.agents[u].pc)
            && (t in s.live.agents ==> PlaceOk(cfg, s.disk, s.live, s.live.agents[t].pc))
  {
    assert PlaceOk(cfg, d, l, l.agents[t].pc);
  }

  lemma {:induction false} FileKeeps(safe: bool, cfg: Config, d: Disk, l: Live, t: Tid, step: TableStep)
    requires LiveInv(safe, cfg, d, l) && ThreadsInv(cfg, l) && TableEnabled(cfg, d, l, t, step)
    requires step.CreateFile? || step.FinishFile? || step.FailFile?
    ensures var s := TableTake(cfg, d, l, t, step); LiveInv(safe, cfg, s.disk, s.live)
  {
    hide DiskInv, StoreInv, LinkInv, PlacesOk, PlaceOk, AppliedOps, TableTake, TableEnabled, Entries, OneBusy, BusyAt;
    var s := TableTake(cfg, d, l, t, step);
    FileMoves(cfg, d, l, t, step);
    FilesKeepDisk(safe, cfg, d, s.disk.files);
    LinkFiles(d, l, s.disk.files, s.live);
    OthersStay(cfg, d, l, t, s.disk, s.live);
  }

  /** Every key about to become visible in a table is in the durable part of the log. */
  lemma {:induction false} FrozenIsCovered(safe: bool, cfg: Config, d: Disk, s: Store, e: Entry)
    requires DiskInv(safe, cfg, d) && StoreInv(safe, s, AppliedOps(d.log)) && AllAppliedSynced(d) && e in Frozen(s.imm)
    ensures Names(AllOps(d.log[..d.logSynced]), e.key.userKey)
  {
    hide Layered, Shows, TablesOk, WfManifest, Covered, AppliedOps, AllOps, Names;
    AppliedWithin(d.log, d.logSynced);
    NamesSubset(AppliedOps(d.log), AllOps(d.log[..d.logSynced]), e.key.userKey);
  }

  /** A flush edit names one new level-0 table, with its size and exactly the range of its keys, and both counters. */
  lemma {:induction false} FlushEditNames(id: nat, size: uint64, entries: seq<Entry>, seqno: nat)
    requires entries != [] && StrictlySorted(entries) && id < MAX_UINT64 && seqno <= MAX_UINT64
    ensures var e := FlushEdit(id, size, entries, seqno);
            && |e.addedFiles| == 1 && e.deletedFiles == [] && !e.hasLogNumber
            && e.hasNextFileID && e.nextFileID == id + 1 && e.hasLastSequence && e.lastSequence == seqno
            && e.addedFiles[0].level == 0 && e.addedFiles[0].fileID == id && e.addedFiles[0].size == size
            && KeyRange(entries, e.addedFiles[0].smallestKey, e.addedFiles[0].largestKey)
  {
    hide Compare;
    assert entries[0] in entries && entries[|entries| - 1] in entries;
    CompareAntisymmetric(entries[0].key, entries[0].key);
    forall e | e in entries
      ensures Compare(entries[0].key, e.key) <= 0 && Compare(e.key, entries[|entries| - 1].key) <= 0
    {
      var i :| 0 <= i < |entries| && entries[i] == e;
      CompareAntisymmetric(e.key, e.key);
    }
  }

  /** The smallest and the largest key of these entries. */
  ghost predicate KeyRange(entries: seq<Entry>, smallest: InternalKey, largest: InternalKey) {
    && (exists e :: e in entries && e.key == smallest) && (exists e :: e in entries && e.key == largest)
    && forall e :: e in entries ==> Compare(smallest, e.key) <= 0 && Compare(e.key, largest) <= 0
  }

  /** The edit that publishes a finished table, once it is in the manifest. */
  lemma {:induction false} EditKeepsDisk(safe: bool, cfg: Config, d: Disk, s: Store, edit: VersionEdit, size: uint64,
                                         entries: seq<Entry>)
    requires DiskInv(safe, cfg, d) && StoreInv(safe, s, AppliedOps(d.log)) && s.imm == Some(entries) && entries != []
    requires d.manifest != [] && |d.manifest| < MAX_UINT64 &&
        d.manifest[|d.manifest| - 1].lastSequence <= s.seqno <= MAX_UINT64
    requires |s.ssts| == |d.manifest| - 1 && forall i :: 0 <= i < |s.ssts| ==> s.ssts[i] == Entries(d.files, i + 1)
    requires TableThere(d.files, |d.manifest|) && Entries(d.files, |d.manifest|) == entries
    requires safe ==> AllAppliedSynced(d)
    requires edit == FlushEdit(|d.manifest|, size, entries, s.seqno)
    ensures DiskInv(safe, cfg, d.(manifest := d.manifest + [edit]))
  {
    hide AllOps, AppliedOps, WfManifest, TablesOk, Covered, StoreInv, Entries, Names, AddsTable, StrictlySorted, Above,
         AtMost, TableThere, AllAppliedSynced;
    EditFits(d.manifest, size, entries, s.seqno);
    FrozenIsNew(safe, s, AppliedOps(d.log), d.files);
    EditKeepsTables(d.manifest, d.files, edit);
    hide FlushEdit;
    if safe {
      forall e | e in entries ensures Names(AllOps(d.log[..d.logSynced]), e.key.userKey) {
        FrozenIsCovered(safe, cfg, d, s, e);
      }
      EditKeepsCover(d.manifest, d.files, edit, AllOps(d.log[..d.logSynced]));
    }
  }

  /** A table about to be published is the frozen memtable, in the file the next edit will name. */
  lemma {:induction false} PublishedIsFrozen(safe: bool, cfg: Config, d: Disk, l: Live, t: Tid)
    requires LiveInv(safe, cfg, d, l) && ThreadsInv(cfg, l) && MayPublish(l, t)
    ensures var entries := l.agents[t].pc.entries;
            && l.store.imm == Some(entries) && entries != [] &&
              l.nextID == l.agents[t].pc.id == |d.manifest| == |l.store.ssts| + 1
            && TableThere(d.files, |d.manifest|) && Entries(d.files, |d.manifest|) == entries
  {
    hide DiskInv, StoreInv, AppliedOps, Entries;
    assert PlaceOk(cfg, d, l, l.agents[t].pc);
  }

  /** The frozen memtable is newer than every table. */
  lemma {:induction false} FrozenIsNew(safe: bool, s: Store, ops: seq<Operation>, files: Files)
    requires StoreInv(safe, s, ops) && forall i :: 0 <= i < |s.ssts| ==> s.ssts[i] == Entries(files, i + 1)
    ensures StrictlySorted(Frozen(s.imm)) && AtMost(Frozen(s.imm), s.seqno)
    ensures forall i :: 1 <= i <= |s.ssts| ==> Above(Frozen(s.imm), Entries(files, i))
  {
    hide StrictlySorted, Above, AtMost, Entries;
    forall i | 1 <= i <= |s.ssts| ensures Above(Frozen(s.imm), Entries(files, i)) {
      assert s.ssts[i - 1] == Entries(files, i);
    }
  }

  /** The edit that publishes the frozen memtable is one the disk may carry. */
  lemma {:induction false} FrozenEdit(safe: bool, cfg: Config, d: Disk, l: Live, size: uint64, entries: seq<Entry>)
    requires DiskInv(safe, cfg, d) && StoreInv(safe, l.store, AppliedOps(d.log)) && LinkInv(d, l)
    requires |d.manifest| == |l.store.ssts| + 1 && |d.manifest| < MAX_UINT64 && l.store.seqno <= MAX_UINT64
    requires l.store.imm == Some(entries) && entries != [] && (safe ==> AllAppliedSynced(d))
    requires TableThere(d.files, |d.manifest|) && Entries(d.files, |d.manifest|) == entries
    ensures DiskInv(safe, cfg, d.(manifest := d.manifest + [FlushEdit(|d.manifest|, size, entries, l.store.seqno)]))
  {
    hide DiskInv, StoreInv, AppliedOps, Entries, TableThere, FlushEdit, Pending, AllAppliedSynced;
    EditKeepsDisk(safe, cfg, d, l.store, FlushEdit(|d.manifest|, size, entries, l.store.seqno), size, entries);
  }

  /** The edit of the step, and that the disk may carry it. */
  lemma {:induction false} PublishedEdit(safe: bool, cfg: Config, d: Disk, l: Live, t: Tid, size: uint64)
    requires LiveInv(safe, cfg, d, l) && ThreadsInv(cfg, l) && MayPublish(l, t) && (safe ==> AllAppliedSynced(d))
    ensures var edit := FlushEdit(l.nextID, size, l.agents[t].pc.entries, l.store.seqno);
            DiskInv(safe, cfg, d.(manifest := d.manifest + [edit]))
  {
    PublishedIsFrozen(safe, cfg, d, l, t);
    hide DiskInv, StoreInv, AppliedOps, Entries, TableThere, FlushEdit, ThreadsInv, PlacesOk, WholeInv, LinkInv,
         LockFree, AllAppliedSynced;
    FrozenEdit(safe, cfg, d, l, size, l.agents[t].pc.entries);
  }

  /** Memory and disk after a flush edit reached the manifest, before memory follows or after the flush gave up. */
  lemma {:induction false} AppendedLinks(d: Disk, l: Live, edit: VersionEdit, synced: nat, l': Live)
    requires LinkInv(d, l) && |d.manifest| == |l.store.ssts| + 1 && edit.lastSequence == l.store.seqno
    requires l.store.imm.Some? && l.store.imm.value != [] && Entries(d.files, |d.manifest|) == l.store.imm.value
    requires l'.store == l.store && l'.nextID == l.nextID && (l'.flushErr.Some? || exists t :: PublishingAt(l', t))
    requires synced == d.manifestSynced || synced == |d.manifest| + 1
    ensures LinkInv(d.(manifest := d.manifest + [edit], manifestSynced := synced), l')
  {
    hide Entries, AppliedOps;
  }

  /** Giving up leaves the disk and the store as they are. */
  lemma {:induction false} FailKeeps(safe: bool, cfg: Config, d: Disk, l: Live, t: Tid, e: FlushError)
    requires LiveInv(safe, cfg, d, l) && BusyAt(l, t) && OneBusy(l.agents)
    ensures LiveInv(safe, cfg, d, Fail(l, t, e))
  {
    hide DiskInv, StoreInv, AppliedOps, Entries;
  }

  /** Giving up after the edit reached the file but was not synced. */
  lemma {:induction false} UnsyncedEditKeeps(safe: bool, cfg: Config, d: Disk, l: Live, t: Tid, edit: VersionEdit)
    requires LiveInv(safe, cfg, d, l) && BusyAt(l, t) && OneBusy(l.agents) &&
        DiskInv(safe, cfg, d.(manifest := d.manifest + [edit]))
    requires |d.manifest| == |l.store.ssts| + 1 && edit.lastSequence == l.store.seqno
    requires l.store.imm.Some? && l.store.imm.value != [] && Entries(d.files, |d.manifest|) == l.store.imm.value
    ensures LiveInv(safe, cfg, d.(manifest := d.manifest + [edit]), Fail(l, t, PublishFailure))
  {
    hide DiskInv, StoreInv, AppliedOps, Entries;
    var d', l' := d.(manifest := d.manifest + [edit]), Fail(l, t, PublishFailure);
    OthersStay(cfg, d, l, t, d', l');
    AppendedLinks(d, l, edit, d.manifestSynced, l');
    hide PlacesOk, LinkInv, AllAppliedSynced;
  }

  lemma {:induction false} FailStepKeeps(safe: bool, cfg: Config, d: Disk, l: Live, t: Tid, step: TableStep)
    requires LiveInv(safe, cfg, d, l) && ThreadsInv(cfg, l) && TableEnabled(cfg, d, l, t, step)
    requires safe ==> DurablePublish(Up(d, l), Table(t, step))
    requires step.ReportFailure? || step.PublishFails?
    ensures var s := TableTake(cfg, d, l, t, step); LiveInv(safe, cfg, s.disk, s.live)
  {
    hide LiveInv, Fail;
    if step.ReportFailure? {
      FailKeeps(safe, cfg, d, l, t, l.agents[t].pc.error.value);
    } else if !step.appended {
      FailKeeps(safe, cfg, d, l, t, PublishFailure);
    } else {
      PublishedIsFrozen(safe, cfg, d, l, t);
      PublishedEdit(safe, cfg, d, l, t, step.size);
      UnsyncedEditKeeps(safe, cfg, d, l, t, FlushEdit(l.nextID, step.size, l.agents[t].pc.entries, l.store.seqno));
    }
  }

  /** Going on once the edit is durable. */
  lemma {:induction false} SyncedEditKeeps(safe: bool, cfg: Config, d: Disk, l: Live, t: Tid, edit: VersionEdit, pc: Pc)
    requires LiveInv(safe, cfg, d, l) && BusyAt(l, t) && OneBusy(l.agents) && pc.Publishing?
    requires DiskInv(safe, cfg, d.(manifest := d.manifest + [edit], manifestSynced := |d.manifest| + 1))
    requires |d.manifest| == |l.store.ssts| + 1 && edit.lastSequence == l.store.seqno
    requires l.store.imm.Some? && l.store.imm.value != [] && Entries(d.files, |d.manifest|) == l.store.imm.value
    ensures LiveInv(safe, cfg, d.(manifest := d.manifest + [edit], manifestSynced := |d.manifest| + 1),
                    l.(agents := l.agents[t := Agent(pc, false)]))
  {
    hide DiskInv, StoreInv, AppliedOps, Entries;
    var d', l' := d.(manifest := d.manifest + [edit], manifestSynced := |d.manifest| + 1),
      l.(agents := l.agents[t := Agent(pc, false)]);
    OthersStay(cfg, d, l, t, d', l');
    assert PublishingAt(l', t);
    AppendedLinks(d, l, edit, |d.manifest| + 1, l');
    hide PlacesOk, LinkInv, AllAppliedSynced;
  }

  lemma {:induction false} PublishAppendKeeps(safe: bool, cfg: Config, d: Disk, l: Live, t: Tid, step: TableStep)
    requires LiveInv(safe, cfg, d, l) && ThreadsInv(cfg, l) && TableEnabled(cfg, d, l, t, step) && step.PublishAppend?
    requires safe ==> DurablePublish(Up(d, l), Table(t, step))
    ensures var s := TableTake(cfg, d, l, t, step); LiveInv(safe, cfg, s.disk, s.live)
  {
    hide LiveInv;
    PublishedIsFrozen(safe, cfg, d, l, t);
    PublishedEdit(safe, cfg, d, l, t, step.size);
    var edit := FlushEdit(l.nextID, step.size, l.agents[t].pc.entries, l.store.seqno);
    SyncedManifestKeeps(safe, cfg, d.(manifest := d.manifest + [edit]));
    SyncedEditKeeps(safe, cfg, d, l, t, edit, Publishing(l.agents[t].pc.id, l.agents[t].pc.entries));
  }

  lemma {:induction false} SyncedManifestKeeps(safe: bool, cfg: Config, d: Disk)
    requires DiskInv(safe, cfg, d)
    ensures DiskInv(safe, cfg, d.(manifestSynced := |d.manifest|))
  {
    hide TablesOk, Covered, WfManifest, AllOps;
  }

  lemma {:induction false} InstallKeeps(safe: bool, cfg: Config, d: Disk, l: Live, t: Tid)
    requires LiveInv(safe, cfg, d, l) && ThreadsInv(cfg, l) && TableEnabled(cfg, d, l, t, PublishInstall)
    ensures var s := TableTake(cfg, d, l, t, PublishInstall); LiveInv(safe, cfg, s.disk, s.live)
  {
    hide DiskInv, StoreInv, AppliedOps, Entries;
    assert PlaceOk(cfg, d, l, l.agents[t].pc);
    PublishKeepsStore(safe, l.store, AppliedOps(d.log));
  }

  // ----- Open, close, crash

  /** A table that answers for a key holds an entry for it. */
  lemma {:induction false} SomeTableHas(ssts: seq<seq<Entry>>, key: Bytes, seqno: nat)
    requires SstHit(ssts, key, seqno) != Missing
    ensures exists i, e :: 0 <= i < |ssts| && e in ssts[i] && e.key.userKey == key
  {
    var n := |ssts| - 1;
    var hit := FirstVisible(ssts[n], key, seqno);
    if hit.Some? {
      assert hit.value in ssts[n] && hit.value.key.userKey == key;
    } else {
      SomeTableHas(ssts[..n], key, seqno);
    }
  }

  /** What tables alone show is in the log they are covered by. */
  lemma {:induction false} TablesAreCovered(m: seq<VersionEdit>, files: Files, ops: seq<Operation>, key: Bytes)
    requires WfManifest(m) && m != [] && TablesOk(m, files) && Covered(m, files, ops)
    ensures LoadTables(files, AddedIds(m)).Some?
    ensures FirstHit(Tables(m, files), key) != Missing ==> Names(ops, key)
  {
    hide TablesOk, WfManifest, Names, LoadTables, AddedIds, CountersOf, Layered, Entries, SstHit;
    TablesLayered(m, files);
    var s := Tables(m, files);
    if FirstHit(s, key) != Missing {
      assert SstHit(s.ssts, key, s.seqno) != Missing;
      SomeTableHas(s.ssts, key, s.seqno);
      var i, e :| 0 <= i < |s.ssts| && e in s.ssts[i] && e.key.userKey == key;
      assert e in Entries(files, i + 1);
    }
  }

  /** Replaying the whole log over tables it covers shows the fold of the whole log. */
  lemma {:induction false} ReplayShows(m: seq<VersionEdit>, files: Files, ops: seq<Operation>)
    requires WfManifest(m) && m != [] && TablesOk(m, files) && Covered(m, files, ops)
    requires LoadTables(files, AddedIds(m)).Some? && CountersOf(m).lastSequence + |ops| <= MAX_UINT64
    ensures Shows(Applied(Tables(m, files), ops), ops)
  {
    TablesLayered(m, files);
    forall key ensures FirstHit(Applied(Tables(m, files), ops), key) == FoldView(ops, key) {
      hide TablesOk, WfManifest, Layered, Applied, FirstHit, Covered, Tables, LoadTables, AddedIds, CountersOf;
      TablesAreCovered(m, files, ops, key);
      ApplyReads(Tables(m, files), ops, key);
    }
  }

  /** Right after replay the memtable holds the log's operations and nothing else. */
  lemma {:induction false} OnlyTablesApplied(m: seq<VersionEdit>, files: Files, ops: seq<Operation>)
    requires LoadTables(files, AddedIds(m)).Some? && CountersOf(m).lastSequence + |ops| <= MAX_UINT64
    ensures Named(Applied(Tables(m, files), ops), ops)
  {
    hide LoadTables, AddedIds, CountersOf, Names;
    assert Named(Tables(m, files), []);
    ApplyKeepsNamed(Tables(m, files), [], ops);
    assert [] + ops == ops;
  }

  lemma {:induction false} DiskParts(safe: bool, cfg: Config, d: Disk)
    requires DiskInv(safe, cfg, d)
    ensures WfManifest(d.manifest) && TablesOk(d.manifest, d.files)
    ensures safe ==> Covered(d.manifest, d.files, AllOps(d.log))
  {
    hide TablesOk, WfManifest, Covered, AllOps;
    if safe {
      CutKeepsCover(d.manifest, |d.manifest|, d.files, d.log, d.logSynced, |d.log|);
      assert d.manifest[..|d.manifest|] == d.manifest && d.log[..|d.log|] == d.log;
    }
  }

  lemma {:induction false} OpenKeepsStore(safe: bool, cfg: Config, d: Disk)
    requires DiskInv(safe, cfg, d) && d.manifest != []
    requires CountersOf(d.manifest).lastSequence + |AllOps(d.log)| <= MAX_UINT64
    ensures LoadTables(d.files, AddedIds(d.manifest)).Some?
    ensures var s := Tables(d.manifest, d.files);
            s.seqno + |AllOps(d.log)| <= MAX_UINT64 && StoreInv(safe, Applied(s, AllOps(d.log)), AllOps(d.log))
  {
    hide DiskInv, Layered, Named, TablesOk, WfManifest, Covered, CountersOf, AllOps, LoadTables, AddedIds, Shows,
         ApplyOps, Entries;
    DiskParts(safe, cfg, d);
    TablesLayered(d.manifest, d.files);
    OnlyTablesApplied(d.manifest, d.files, AllOps(d.log));
    ApplyKeepsLayers(Tables(d.manifest, d.files), AllOps(d.log));
    if safe {
      ReplayShows(d.manifest, d.files, AllOps(d.log));
    }
  }

  /** A process that has just opened: nothing frozen, nobody but the flusher. */
  lemma {:induction false} FreshKeeps(safe: bool, cfg: Config, d: Disk, l: Live)
    requires DiskInv(safe, cfg, d) && d.manifest != [] && |d.manifest| == l.nextID == |l.store.ssts| + 1 &&
        l.store.imm.None?
    requires forall i :: 0 <= i < |l.store.ssts| ==> l.store.ssts[i] == Entries(d.files, i + 1)
    requires l.agents == StartingAgents(cfg) && StoreInv(safe, l.store, AppliedOps(d.log))
    requires d.manifest[|d.manifest| - 1].lastSequence <= l.store.seqno
    ensures LiveInv(safe, cfg, d, l)
  {
    hide TablesOk, Covered, WfManifest, StoreInv, AppliedOps, Entries;
  }

  lemma {:induction false} OpenKeeps(safe: bool, cfg: Config, d: Disk)
    requires Inv(safe, cfg, Down(d)) && OfflineEnabled(cfg, d, Open)
    ensures var s := OfflineTake(cfg, d, Open); LiveInv(safe, cfg, s.disk, s.live)
  {
    hide OpenDisk, LoadTables, AddedIds, ApplyOps, Replayed, AllOps, AppliedOps, CountersOf, DiskInv, StoreInv, Layered,
         Entries, TablesOk, WfManifest, Covered;
    var b := Bootstrapped(d);
    OpenSucceeds(safe, cfg, d);
    BootstrapKeeps(safe, cfg, d);
    DiskParts(safe, cfg, b);
    ReplayKeeps(safe, cfg, b);
    ReplayedOps(b.log);
    TablesLayered(b.manifest, b.files);
    ManifestCounters(b.manifest);
    OpenKeepsStore(safe, cfg, b);
    FreshKeeps(safe, cfg, b.(log := Replayed(b.log)), OpenDisk(cfg, d).value.live);
  }

  /** A manifest cut short names tables that are still in order, and a longer log covers them still. */
  lemma {:induction false} CutKeepsTables(m: seq<VersionEdit>, n: nat, files: Files)
    requires WfManifest(m) && TablesOk(m, files) && n <= |m|
    ensures WfManifest(m[..n]) && TablesOk(m[..n], files)
  {
    hide AddsTable, StrictlySorted, Above, AtMost, TableThere, Entries;
  }

  lemma {:induction false} CutKeepsCover(m: seq<VersionEdit>, n: nat, files: Files, log: seq<LogRec>, synced: nat,
                                         keep: nat)
    requires n <= |m| && synced <= keep <= |log| && Covered(m, files, AllOps(log[..synced]))
    ensures Covered(m[..n], files, AllOps(log[..keep]))
  {
    hide Names, Entries, AllOps;
    forall i, e | 1 <= i < n && e in Entries(files, i) ensures Names(AllOps(log[..keep]), e.key.userKey) {
      NamesPrefix(log, synced, keep, e.key.userKey);
    }
  }

  lemma {:induction false} CrashKeeps(safe: bool, cfg: Config, d: Disk, keepLog: nat, keepManifest: nat)
    requires DiskInv(safe, cfg, d) && CrashEnabled(d, keepLog, keepManifest)
    ensures Inv(safe, cfg, Down(AfterCrash(d, keepLog, keepManifest)))
  {
    hide TablesOk, Covered, WfManifest, AllOps;
    CutKeepsTables(d.manifest, keepManifest, d.files);
    if safe {
      CutKeepsCover(d.manifest, keepManifest, d.files, d.log, d.logSynced, keepLog);
    }
    assert d.log[..keepLog][..keepLog] == d.log[..keepLog];
  }

  lemma {:induction false} KillKeeps(safe: bool, cfg: Config, d: Disk, keepLog: nat)
    requires DiskInv(safe, cfg, d) && KillEnabled(d, keepLog)
    ensures Inv(safe, cfg, Down(AfterKill(d, keepLog)))
  {
    hide TablesOk, Covered, WfManifest, AllOps;
    assert d.log[..keepLog][..d.logSynced] == d.log[..d.logSynced];
  }

  lemma {:induction false} PowerLossKeeps(safe: bool, cfg: Config, d: Disk, step: OfflineStep)
    requires DiskInv(safe, cfg, d) && step.PowerLoss? && OfflineEnabled(cfg, d, step)
    ensures Inv(safe, cfg, OfflineTake(cfg, d, step))
  {
    hide DiskInv;
    CrashKeeps(safe, cfg, d, step.keepLog, step.keepManifest);
  }

  lemma {:induction false} CloseKeeps(safe: bool, cfg: Config, d: Disk)
    requires DiskInv(safe, cfg, d)
    ensures Inv(safe, cfg, Down(AllSynced(d)))
  {
    hide DiskInv;
    SyncKeepsDisk(safe, cfg, d);
    SyncedManifestKeeps(safe, cfg, d.(logSynced := |d.log|, logWritten := |d.log|));
  }

  lemma {:induction false} NamedStays(m: seq<VersionEdit>, i: nat)
    requires WfManifest(m) && 1 <= i < |m|
    ensures i in AddedIds(m)
  {
    ManifestAdds(m);
    assert Ids(|m| - 1)[i - 1] == i;
  }

  lemma {:induction false} CleanupKeeps(safe: bool, cfg: Config, d: Disk, id: nat)
    requires Inv(safe, cfg, Down(d)) && OfflineEnabled(cfg, d, Cleanup(id))
    ensures Inv(safe, cfg, OfflineTake(cfg, d, Cleanup(id)))
  {
    hide AddedIds, WfManifest, TablesOk, Covered, AllOps;
    var files := OfflineTake(cfg, d, Cleanup(id)).disk.files;
    forall i | 1 <= i < |d.manifest| && i in d.files ensures i in files && files[i] == d.files[i] {
      NamedStays(d.manifest, i);
    }
    FilesKeepDisk(safe, cfg, d, OfflineTake(cfg, d, Cleanup(id)).disk.files);
  }

  // ----- Every step, every run

  lemma {:induction false} WriterKeeps(safe: bool, cfg: Config, d: Disk, l: Live, t: Tid, step: WriterStep)
    requires LiveInv(safe, cfg, d, l) && ThreadsInv(cfg, l) && WriterEnabled(cfg, d, l, t, step)
    ensures var s := WriterTake(cfg, d, l, t, step); LiveInv(safe, cfg, s.disk, s.live)
  {
    hide LiveInv, ThreadsInv, WriterEnabled, WriterTake;
    if step.Append? {
      AppendKeeps(safe, cfg, d, l, t, step.batch);
    } else if step.SyncFail? || step.SyncOk? {
      SyncKeeps(safe, cfg, d, l, t, step);
    } else if step.ResumeWriter? {
      ResumeKeeps(safe, cfg, d, l, t, step);
    } else {
      ApplyKeepsLive(safe, cfg, d, l, t, step);
    }
  }

  lemma {:induction false} TableKeeps(safe: bool, cfg: Config, d: Disk, l: Live, t: Tid, step: TableStep)
    requires LiveInv(safe, cfg, d, l) && ThreadsInv(cfg, l) && TableEnabled(cfg, d, l, t, step)
    requires safe ==> DurablePublish(Up(d, l), Table(t, step))
    ensures var s := TableTake(cfg, d, l, t, step); LiveInv(safe, cfg, s.disk, s.live)
  {
    hide LiveInv, ThreadsInv, TableEnabled, TableTake;
    if step.PublishInstall? {
      InstallKeeps(safe, cfg, d, l, t);
    } else if step.PublishAppend? {
      PublishAppendKeeps(safe, cfg, d, l, t, step);
    } else if step.ReportFailure? || step.PublishFails? {
      FailStepKeeps(safe, cfg, d, l, t, step);
    } else {
      FileKeeps(safe, cfg, d, l, t, step);
    }
  }

  /** Every step keeps the invariant. */
  lemma {:induction false} StepKeeps(safe: bool, cfg: Config, s: State, step: Step)
    requires Inv(safe, cfg, s) && Enabled(cfg, s, step) && (safe ==> DurablePublish(s, step))
    ensures Inv(safe, cfg, Take(cfg, s, step))
  {
    hide LiveInv, ThreadsInv, WriterTake, WriterEnabled, CallerEnabled, CallerTake, TableEnabled, TableTake,
         FlusherTake, FlusherEnabled, OfflineEnabled, OfflineTake, DiskInv, AfterCrash, AfterKill, AllSynced,
           CrashEnabled, KillEnabled,
         AllAppliedSynced, LockFree, WakeAll;
    StepThreads(cfg, s, step);
    match step
    case Offline(o) =>
      if o.Open? {
        OpenKeeps(safe, cfg, s.disk);
        OpensUp(cfg, s.disk);
      } else if o.Cleanup? {
        CleanupKeeps(safe, cfg, s.disk, o.id);
      } else {
        PowerLossKeeps(safe, cfg, s.disk, o);
      }
    case Writer(t, w) => WriterKeeps(safe, cfg, s.disk, s.live, t, w);
    case Caller(t, c) => CallerKeeps(safe, cfg, s.disk, s.live, t, c);
    case FlusherLook => FlusherKeeps(safe, cfg, s.disk, s.live);
    case Table(t, j) => TableKeeps(safe, cfg, s.disk, s.live, t, j);
    case CloseBegin => CloseBeginKeeps(safe, cfg, s.disk, s.live);
    case CloseEnd => DiskOfLive(safe, cfg, s); CloseKeeps(safe, cfg, s.disk);
    case Kill(keepLog) => DiskOfLive(safe, cfg, s); KillKeeps(safe, cfg, s.disk, keepLog);
    case Crash(keepLog, keepManifest) => DiskOfLive(safe, cfg, s); CrashKeeps(safe, cfg, s.disk, keepLog, keepManifest);
  }

  lemma {:induction false} DiskOfLive(safe: bool, cfg: Config, s: State)
    requires Inv(safe, cfg, s)
    ensures DiskInv(safe, cfg, s.disk)
  {
  }

  lemma {:induction false} OpensUp(cfg: Config, d: Disk)
    requires OfflineEnabled(cfg, d, Open)
    ensures OfflineTake(cfg, d, Open).Up?
  {
    hide LoadTables, ApplyOps, Replayed, AllOps, AddedIds, RoomToReplay;
  }

  lemma {:induction false} CloseBeginKeeps(safe: bool, cfg: Config, d: Disk, l: Live)
    requires LiveInv(safe, cfg, d, l)
    ensures LiveInv(safe, cfg, d, l.(closed := true, agents := WakeAll(l.agents)))
  {
    hide LiveInv;
    AgentsKeep(safe, cfg, d, l, l.(closed := true, agents := WakeAll(l.agents)));
  }

  /** Every table in the run is published durably: once the applied records it may hold are. */
  ghost predicate PublishesDurably(cfg: Config, s: State, steps: seq<Step>)
    decreases steps
  {
    steps == [] || (Enabled(cfg, s, steps[0])
                    && DurablePublish(s, steps[0]) && PublishesDurably(cfg, Take(cfg, s, steps[0]), steps[1..]))
  }

  /** Every run keeps the invariant. */
  lemma {:induction false} RunKeeps(safe: bool, cfg: Config, s: State, steps: seq<Step>)
    requires Inv(safe, cfg, s) && Run(cfg, s, steps).Some? && (safe ==> PublishesDurably(cfg, s, steps))
    ensures Inv(safe, cfg, Run(cfg, s, steps).value)
    decreases steps
  {
    hide Inv, Take, Enabled, DurablePublish;
    if steps != [] {
      StepKeeps(safe, cfg, s, steps[0]);
      RunKeeps(safe, cfg, Take(cfg, s, steps[0]), steps[1..]);
    }
  }

  lemma {:induction false} InitHolds(safe: bool, cfg: Config)
    ensures Inv(safe, cfg, INIT)
  {
  }

  lemma {:induction false} ReachableInv(cfg: Config, s: State)
    requires Reachable(cfg, s)
    ensures Inv(false, cfg, s)
  {
    hide Inv;
    InitHolds(false, cfg);
    var steps :| Run(cfg, INIT, steps) == Some(s);
    RunKeeps(false, cfg, INIT, steps);
  }
}
