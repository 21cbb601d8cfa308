/** What reads show in every reachable state, whatever became of the log and the tables before. */
module EngineViews {
  import opened Basics
  import opened Runs
  import opened Batches
  import opened VersionEdits
  import opened ManifestReplay
  import opened EngineStore
  import opened EngineProtocol
  import opened EngineLogs
  import opened EngineThreads
  import opened EngineDisk
  import opened EngineInvariant
  import opened EngineTheorems
  import opened EngineDurability
  import opened EngineReplays

  // ----- What the tables of a disk answer

  lemma {:induction false} SameHit(a: Disk, b: Disk, key: Bytes)
    requires a.manifest == b.manifest && WfManifest(a.manifest) && TablesOk(a.manifest, a.files)
    requires forall i :: 1 <= i < |a.manifest| && i in a.files ==> i in b.files && b.files[i] == a.files[i]
    ensures DiskHit(a, key) == DiskHit(b, key)
  {
    var m := Bootstrapped(a).manifest;
    ManifestAdds(m);
    hide LoadTables, AddedIds, CountersOf, FirstHit, StrictlySorted, AtMost, Above, WfManifest;
    forall id | id in AddedIds(m) ensures id in a.files && id in b.files && a.files[id] == b.files[id] {
      assert TableThere(a.files, id);
    }
    SameLoad(a.files, b.files, AddedIds(m));
  }

  /** The same bytes in the same places, as far as views can tell: flags, and files that are not named, may differ. */
  ghost predicate SameDisk(a: Disk, b: Disk) {
    && |a.log| == |b.log| && (forall i :: 0 <= i < |a.log| ==> a.log[i].batch == b.log[i].batch)
    && a.manifest == b.manifest
    && (forall i :: 1 <= i < |a.manifest| && i in a.files ==> i in b.files && b.files[i] == a.files[i])
  }

  /** One more table on top: it answers first. */
  lemma {:induction false} OneMoreTable(m: seq<VersionEdit>, files: Files, edit: VersionEdit, key: Bytes)
    requires WfManifest(m) && m != [] && TablesOk(m, files)
    requires WfManifest(m + [edit]) && TablesOk(m + [edit], files)
    ensures LoadTables(files, AddedIds(m)).Some? && LoadTables(files, AddedIds(m + [edit])).Some?
    ensures FirstHit(Tables(m + [edit], files), key)
         == var hit := ScanGet(Entries(files, |m|), key, edit.lastSequence);
            if hit != Missing then hit else FirstHit(Tables(m, files), key)
  {
    hide LoadTables, AddedIds, TablesOk, Entries, ScanGet, Layered, SstHit;
    var a, b := LaterTables(m, files, edit);
    TablesBound(a, b.seqno, key);
    EmptyScan(key, a.seqno);
    EmptyScan(key, b.seqno);
    SstHitSnoc(a.ssts, Entries(files, |m|), key, b.seqno);
  }

  lemma {:induction false} LaterTables(m: seq<VersionEdit>, files: Files, edit: VersionEdit)
                                       returns (a: Store, b: Store)
    requires WfManifest(m) && m != [] && TablesOk(m, files)
    requires WfManifest(m + [edit]) && TablesOk(m + [edit], files)
    ensures LoadTables(files, AddedIds(m)).Some? && LoadTables(files, AddedIds(m + [edit])).Some?
    ensures a == Tables(m, files) && b == Tables(m + [edit], files) && Layered(a)
    ensures b.ssts == a.ssts + [Entries(files, |m|)] && a.seqno <= b.seqno == edit.lastSequence
  {
    hide LoadTables, AddedIds, CountersOf, TablesOk, Entries, Layered;
    TablesLayered(m, files);
    TablesLayered(m + [edit], files);
    ManifestCounters(m);
    ManifestCounters(m + [edit]);
    a, b := Tables(m, files), Tables(m + [edit], files);
    assert m[|m| - 1] == (m + [edit])[|m| - 1];
    forall i | 0 <= i < |a.ssts| ensures a.ssts[i] == b.ssts[i] {
      assert a.ssts[i] == Entries(files, i + 1) == b.ssts[i];
    }
  }

  lemma {:induction false} SstHitSnoc(ssts: seq<seq<Entry>>, table: seq<Entry>, key: Bytes, seqno: nat)
    ensures SstHit(ssts + [table], key, seqno)
         == var hit := ScanGet(table, key, seqno); if hit != Missing then hit else SstHit(ssts, key, seqno)
  {
    assert (ssts + [table])[..|ssts|] == ssts;
  }

  lemma {:induction false} TablesBound(a: Store, seqno: nat, key: Bytes)
    requires Layered(a) && a.seqno <= seqno
    ensures SstHit(a.ssts, key, a.seqno) == SstHit(a.ssts, key, seqno)
  {
    hide StrictlySorted, Above, SstHit;
    SstBoundIrrelevant(a.ssts, key, a.seqno, seqno);
  }

  lemma {:induction false} EmptyScan(key: Bytes, seqno: nat)
    ensures ScanGet([], key, seqno) == Missing
  {
  }

  /** The steps of a running process that leave the disk the same, as far as views can tell. */
  lemma {:induction false} SameDiskSteps(cfg: Config, d: Disk, l: Live, t: Tid, step: TableStep)
    requires LiveInv(false, cfg, d, l) && ThreadsInv(cfg, l) && TableEnabled(cfg, d, l, t, step)
    requires !Publishes(Table(t, step))
    ensures var d' := TableTake(cfg, d, l, t, step).disk;
            && SameDisk(d, d') && d'.manifest == d.manifest
            && d'.logSynced == d.logSynced && d'.manifestSynced == d.manifestSynced
  {
    hide DiskInv, StoreInv, WholeInv;
    assert PlaceOk(cfg, d, l, l.agents[t].pc);
  }

  lemma {:induction false} DiskIs(cfg: Config, d: Disk, l: Live)
    requires LiveInv(false, cfg, d, l)
    ensures DiskInv(false, cfg, d) && Bounds(d) && d.manifest != [] && Layered(l.store)
  {
  }

  // ----- Operations on top of tables

  /** A list of operations over the tables of a disk. */
  function Overlay(ops: seq<Operation>, d: Disk, key: Bytes): Lookup {
    if Names(ops, key) then FoldView(ops, key) else DiskHit(d, key)
  }

  /** Reads show the applied records over the tables that the manifest names. */
  ghost predicate ShowsOverlay(d: Disk, s: Store) {
    forall key :: FirstHit(s, key) == Overlay(AppliedOps(d.log), d, key)
  }

  lemma {:induction false} ApplyOverlay(d: Disk, s: Store, batch: seq<Operation>, d': Disk)
    requires Layered(s) && ShowsOverlay(d, s) && s.seqno + |batch| <= MAX_UINT64
    requires d'.manifest == d.manifest && d'.files == d.files && AppliedOps(d'.log) == AppliedOps(d.log) + batch
    ensures ShowsOverlay(d', Applied(s, batch))
  {
    hide Layered, Applied, FirstHit, FoldView, LastOp, AppliedOps, DiskHit;
    forall key ensures FirstHit(Applied(s, batch), key) == Overlay(AppliedOps(d'.log), d', key) {
      ApplyReads(s, batch, key);
      FoldConcat(AppliedOps(d.log), batch, key);
      SameDiskHit(d, d', key);
    }
  }

  /** The same operations over tables that answer the same. */
  lemma {:induction false} SameOverlay(d: Disk, s: Store, d': Disk, s': Store)
    requires ShowsOverlay(d, s) && SameReads(s', s) && AppliedOps(d'.log) == AppliedOps(d.log)
    requires forall key :: !Names(AppliedOps(d.log), key) ==> DiskHit(d', key) == DiskHit(d, key)
    ensures ShowsOverlay(d', s')
  {
    hide FirstHit, FoldView, LastOp, AppliedOps, DiskHit;
  }

  lemma {:induction false} SameFiles(d: Disk, d': Disk)
    requires d'.manifest == d.manifest && d'.files == d.files
    ensures forall key :: DiskHit(d', key) == DiskHit(d, key)
  {
    hide DiskHit;
    forall key ensures DiskHit(d', key) == DiskHit(d, key) {
      SameDiskHit(d, d', key);
    }
  }

  lemma {:induction false} WriterOverlay(cfg: Config, d: Disk, l: Live, t: Tid, step: WriterStep)
    requires LiveInv(false, cfg, d, l) && WriterEnabled(cfg, d, l, t, step) && ShowsOverlay(d, l.store)
    ensures var s := WriterTake(cfg, d, l, t, step); ShowsOverlay(s.disk, s.live.store)
  {
    hide DiskInv, LinkInv, WholeInv, Layered, Named, Shows, FirstHit, AppliedOps, ApplyOps, LockFree, Signal, Without,
         CanSignal, ShowsOverlay, DiskHit;
    var s := WriterTake(cfg, d, l, t, step);
    assert t in l.agents ==> PlaceOk(cfg, d, l, l.agents[t].pc);
    SameFiles(d, s.disk);
    if step.Append? {
      OpsSnoc(d.log, LogRec(step.batch, false, false));
      assert AppliedOps(d.log) + [] == AppliedOps(d.log);
      SameOverlay(d, l.store, s.disk, s.live.store);
    } else if step.ResumeWriter? {
      SameBatches(d.log, s.disk.log);
      if l.store.imm.None? {
        FreezeKeeps(l.store);
      }
      SameOverlay(d, l.store, s.disk, s.live.store);
    } else if step.SyncFail? || step.SyncOk? {
      SameOverlay(d, l.store, s.disk, s.live.store);
    } else {
      BatchOverlay(cfg, d, l, t, step);
    }
  }

  lemma {:induction false} BatchOverlay(cfg: Config, d: Disk, l: Live, t: Tid, step: WriterStep)
    requires LiveInv(false, cfg, d, l) && WriterEnabled(cfg, d, l, t, step) && ShowsOverlay(d, l.store)
    requires step.Apply? || step.ApplyRotate? || step.ApplyStall?
    ensures var s := WriterTake(cfg, d, l, t, step); ShowsOverlay(s.disk, s.live.store)
  {
    hide DiskInv, LinkInv, WholeInv, Layered, Named, Shows, FirstHit, AppliedOps, ApplyOps, LockFree, Signal, Without,
         CanSignal, ShowsOverlay, DiskHit;
    var batch, s := l.agents[t].pc.batch, WriterTake(cfg, d, l, t, step);
    assert PlaceOk(cfg, d, l, l.agents[t].pc);
    MarkLastOps(d, !step.ApplyStall?);
    ApplyOverlay(d, l.store, batch, s.disk);
    ApplyKeepsLayers(l.store, batch);
    if step.ApplyRotate? {
      FreezeKeeps(Applied(l.store, batch));
      SameFiles(s.disk, s.disk);
      SameOverlay(s.disk, Applied(l.store, batch), s.disk, s.live.store);
    }
  }

  /** A table of entries that are all named answers for no other key. */
  lemma {:induction false} NamedTable(es: seq<Entry>, ops: seq<Operation>, key: Bytes, seqno: nat)
    requires forall e :: e in es ==> Names(ops, e.key.userKey)
    ensures ScanGet(es, key, seqno) != Missing ==> Names(ops, key)
  {
    hide Names;
    var hit := FirstVisible(es, key, seqno);
    assert hit.Some? ==> hit.value in es && hit.value.key.userKey == key;
    hide FirstVisible;
  }

  /** The edit of a flush changes no answer for a key that no applied record names. */
  lemma {:induction false} EditHits(cfg: Config, d: Disk, l: Live, edit: VersionEdit, d': Disk, key: Bytes)
    requires LiveInv(false, cfg, d, l) && d'.manifest == d.manifest + [edit] && d'.files == d.files
    requires l.store.imm.Some? && Entries(d.files, |d.manifest|) == l.store.imm.value
    requires DiskInv(false, cfg, d.(manifest := d.manifest + [edit]))
    ensures !Names(AppliedOps(d.log), key) ==> DiskHit(d', key) == DiskHit(d, key)
  {
    OneMoreTable(d.manifest, d.files, edit, key);
    NamedTable(l.store.imm.value, AppliedOps(d.log), key, edit.lastSequence);
    hide TablesOk, Covered, WfManifest, AppliedOps, AllOps, PlacesOk, WholeInv, Layered, Shows, Names, FirstHit,
         ScanGet, LoadTables, AddedIds, Tables, Entries;
  }

  /** Tables answer the same for every key that these operations do not name. */
  ghost predicate SameElsewhere(ops: seq<Operation>, d: Disk, d': Disk) {
    forall key :: !Names(ops, key) ==> DiskHit(d', key) == DiskHit(d, key)
  }

  lemma {:induction false} PublishHits(cfg: Config, d: Disk, l: Live, t: Tid, step: TableStep)
    requires LiveInv(false, cfg, d, l) && ThreadsInv(cfg, l) && TableEnabled(cfg, d, l, t, step)
    requires Publishes(Table(t, step))
    ensures SameElsewhere(AppliedOps(d.log), d, TableTake(cfg, d, l, t, step).disk)
  {
    PublishedIsFrozen(false, cfg, d, l, t);
    PublishedEdit(false, cfg, d, l, t, step.size);
    var edit := FlushEdit(l.nextID, step.size, l.agents[t].pc.entries, l.store.seqno);
    var s := TableTake(cfg, d, l, t, step);
    hide LiveInv, ThreadsInv, DiskInv, AppliedOps, FlushEdit, Without, WakeAll, LockFree, DiskHit, Names, Entries,
         TableThere;
    forall key ensures !Names(AppliedOps(d.log), key) ==> DiskHit(s.disk, key) == DiskHit(d, key) {
      EditHits(cfg, d, l, edit, s.disk, key);
    }
  }

  /** Building and publishing tables changes no answer for a key that no applied record names. */
  lemma {:induction false} TableHits(cfg: Config, d: Disk, l: Live, t: Tid, step: TableStep)
    requires LiveInv(false, cfg, d, l) && ThreadsInv(cfg, l) && TableEnabled(cfg, d, l, t, step)
    ensures SameElsewhere(AppliedOps(d.log), d, TableTake(cfg, d, l, t, step).disk)
  {
    if Publishes(Table(t, step)) {
      PublishHits(cfg, d, l, t, step);
    } else {
      var s := TableTake(cfg, d, l, t, step);
      DiskIs(cfg, d, l);
      SameDiskSteps(cfg, d, l, t, step);
      DiskParts(false, cfg, d);
      hide LiveInv, ThreadsInv, TableTake, TableEnabled, DiskInv, AppliedOps, DiskHit, WfManifest, TablesOk, Names;
      forall key ensures DiskHit(s.disk, key) == DiskHit(d, key) {
        SameHit(d, s.disk, key);
      }
    }
  }

  lemma {:induction false} TableOverlay(cfg: Config, d: Disk, l: Live, t: Tid, step: TableStep)
    requires LiveInv(false, cfg, d, l) && ThreadsInv(cfg, l) && TableEnabled(cfg, d, l, t, step)
    requires ShowsOverlay(d, l.store)
    ensures var s := TableTake(cfg, d, l, t, step); ShowsOverlay(s.disk, s.live.store)
  {
    TableHits(cfg, d, l, t, step);
    WorkSeen(cfg, Up(d, l), Table(t, step));
    hide LiveInv, ThreadsInv, TableTake, TableEnabled, FirstHit, DiskInv, AppliedOps, DiskHit, Names, ShowsOverlay;
    var s := TableTake(cfg, d, l, t, step);
    SameOverlay(d, l.store, s.disk, s.live.store);
  }

  lemma {:induction false} UpOverlay(cfg: Config, s: State, step: Step)
    requires Inv(false, cfg, s) && s.Up? && Enabled(cfg, s, step) && ShowsOverlay(s.disk, s.live.store)
    requires step.Writer? || step.Caller? || Works(step)
    ensures var s' := Take(cfg, s, step); s'.Up? && ShowsOverlay(s'.disk, s'.live.store)
  {
    DiskIs(cfg, s.disk, s.live);
    hide LiveInv, ThreadsInv, WriterTake, WriterEnabled, CallerTake, CallerEnabled, FlusherTake, FlusherEnabled,
         TableTake, TableEnabled, LockFree, WakeAll, FirstHit, Layered, DiskInv, ShowsOverlay, AppliedOps, DiskHit;
    SameFiles(s.disk, s.disk);
    var s' := Take(cfg, s, step);
    if step.Writer? {
      WriterOverlay(cfg, s.disk, s.live, step.t, step.writer);
    } else if step.Table? {
      TableOverlay(cfg, s.disk, s.live, step.t, step.table);
    } else {
      if step.Caller? {
        CallerSeen(s.live, step.t, step.caller);
      } else {
        WorkSeen(cfg, s, step);
      }
      SameOverlay(s.disk, s.live.store, s'.disk, s'.live.store);
    }
  }

  lemma {:induction false} OpenOverlay(cfg: Config, d: Disk)
    requires DiskInv(false, cfg, d) && OfflineEnabled(cfg, d, Open)
    ensures var s := OfflineTake(cfg, d, Open); s.Up? && ShowsOverlay(s.disk, s.live.store)
  {
    var s := OfflineTake(cfg, d, Open);
    OpenReads(cfg, d, []);
    OpenSucceeds(false, cfg, d);
    BootstrappedHits(d, s.disk);
    hide OpenDisk, AllOps, AppliedOps, DiskInv, FirstHit, FoldView, RoomToReplay, LoadTables, AddedIds, ApplyOps,
         Replayed, LastOp;
    forall key ensures FirstHit(s.live.store, key) == Overlay(AppliedOps(s.disk.log), s.disk, key) {
      OpenReads(cfg, d, key);
    }
  }

  lemma {:induction false} BootstrappedHits(d: Disk, d': Disk)
    requires d'.manifest == Bootstrapped(d).manifest && d'.files == Bootstrapped(d).files
    ensures forall key :: DiskHit(d', key) == DiskHit(d, key)
  {
  }

  lemma {:induction false} StepOverlay(cfg: Config, s: State, step: Step)
    requires Inv(false, cfg, s) && Enabled(cfg, s, step) && (s.Up? ==> ShowsOverlay(s.disk, s.live.store))
    ensures var s' := Take(cfg, s, step); s'.Up? ==> ShowsOverlay(s'.disk, s'.live.store)
  {
    DiskOfLive(false, cfg, s);
    OpenIsDown(cfg, s, step);
    hide Inv, DiskInv, ShowsOverlay, WriterTake, WriterEnabled, CallerTake, CallerEnabled, FlusherTake, FlusherEnabled,
         TableTake, TableEnabled, OfflineTake, OfflineEnabled, LockFree, CloseEndEnabled, KillEnabled, CrashEnabled;
    if step == Offline(Open) {
      OpenTakes(cfg, s);
      OpenOverlay(cfg, s.disk);
    } else if step.Writer? || step.Caller? || Works(step) {
      UpOverlay(cfg, s, step);
    } else if step.Offline? {
      OfflineStays(cfg, s.disk, step.offline);
    }
  }

  lemma {:induction false} OfflineStays(cfg: Config, d: Disk, step: OfflineStep)
    requires OfflineEnabled(cfg, d, step) && !step.Open?
    ensures OfflineTake(cfg, d, step).Down?
  {
    hide AddedIds, CrashEnabled;
  }

  lemma {:induction false} RunOverlay(cfg: Config, s: State, steps: seq<Step>)
    requires Inv(false, cfg, s) && (s.Up? ==> ShowsOverlay(s.disk, s.live.store)) && Run(cfg, s, steps).Some?
    ensures var s' := Run(cfg, s, steps).value; s'.Up? ==> ShowsOverlay(s'.disk, s'.live.store)
    decreases steps
  {
    hide Inv, Take, Enabled, ShowsOverlay;
    if steps != [] {
      StepKeeps(false, cfg, s, steps[0]);
      StepOverlay(cfg, s, steps[0]);
      RunOverlay(cfg, Take(cfg, s, steps[0]), steps[1..]);
    }
  }

  /**
   * In every mode and every reachable state, whatever kills and power losses lie behind it: a key that an applied
   * record names reads as the fold of the applied records, and any other key as the tables that the manifest names
   * have it.
   */
  lemma {:induction false} ReachableView(cfg: Config, s: State, key: Bytes)
    requires Reachable(cfg, s) && s.Up?
    ensures FirstHit(s.live.store, key) == Overlay(AppliedOps(s.disk.log), s.disk, key)
  {
    hide Inv, FirstHit, Overlay, AppliedOps;
    var steps :| Run(cfg, INIT, steps) == Some(s);
    InitHolds(false, cfg);
    RunOverlay(cfg, INIT, steps);
  }

  /**
   * In every reachable state every Get returns what the fold of the applied records leaves, if and only if those
   * records name each key for which a table that the manifest names holds a value.
   */
  lemma {:induction false} SeenIff(cfg: Config, s: State)
    requires Reachable(cfg, s) && s.Up?
    ensures SeenAs(s.live.store, AppliedOps(s.disk.log))
       <==> forall key :: DiskHit(s.disk, key).Present? ==> Names(AppliedOps(s.disk.log), key)
  {
    hide FirstHit, FoldView, AppliedOps, DiskHit, LastOp, Reachable;
    var ops := AppliedOps(s.disk.log);
    forall key
      ensures Seen(FirstHit(s.live.store, key)) == Seen(FoldView(ops, key))
         <==> (DiskHit(s.disk, key).Present? ==> Names(ops, key))
    {
      ReachableView(cfg, s, key);
      NamedIffSeen(ops, key);
    }
  }
}
