/** What holds of the disk at every point of every run, and why Open succeeds on it. */
module EngineDisk {
  import opened Basics
  import opened Runs
  import opened Batches
  import opened VersionEdits
  import V = Versions
  import opened ManifestReplay
  import opened EngineStore
  import opened EngineProtocol
  import opened EngineLogs

  /** The edit in place i of a manifest adds table i, at level 0, and nothing else. */
  predicate AddsTable(e: VersionEdit, i: nat) {
    && e.deletedFiles == [] && |e.addedFiles| == 1 && e.addedFiles[0].fileID == i && e.addedFiles[0].level == 0
    && e.hasNextFileID && e.nextFileID == i + 1 && e.hasLastSequence && !e.hasLogNumber
  }

  ghost predicate WfManifest(m: seq<VersionEdit>) {
    && (m != [] ==> m[0] == BOOTSTRAP)
    && (forall i :: 1 <= i < |m| ==> AddsTable(m[i], i))
    && (forall i, j :: 0 <= i < j < |m| ==> m[i].lastSequence <= m[j].lastSequence)
  }

  /** The tables an engine manifest names: 1, 2, ... */
  function Ids(n: nat): (r: seq<nat>)
    ensures |r| == n && forall i :: 0 <= i < n ==> r[i] == i + 1
  {
    seq(n, i requires 0 <= i < n => i + 1)
  }

  type Files = map<nat, FileState>

  predicate TableThere(files: Files, i: nat) {
    i in files && files[i].Complete?
  }

  function Entries(files: Files, i: nat): seq<Entry> {
    if TableThere(files, i) then files[i].entries else []
  }

  /**
   * Each table the manifest names is complete, sorted, and holds nothing newer than its edit says; later tables are
   * newer.
   */
  ghost predicate TablesOk(m: seq<VersionEdit>, files: Files) {
    && (forall i :: 1 <= i < |m| ==>
          TableThere(files, i) && StrictlySorted(Entries(files, i)) && AtMost(Entries(files, i), m[i].lastSequence))
    && (forall i, j :: 1 <= i < j < |m| ==> Above(Entries(files, j), Entries(files, i)))
  }

  /** Every key in a table the manifest names occurs in a list of operations. */
  ghost predicate Covered(m: seq<VersionEdit>, files: Files, ops: seq<Operation>) {
    forall i, e :: 1 <= i < |m| && e in Entries(files, i) ==> Names(ops, e.key.userKey)
  }

  ghost predicate LogOk(cfg: Config, d: Disk) {
    && d.logSynced <= d.logWritten <= |d.log| && d.manifestSynced <= |d.manifest|
    && (d.manifest != [] ==> d.manifestSynced >= 1)
    && (forall i :: 0 <= i < |d.log| && d.log[i].acked ==> d.log[i].applied && (cfg.sync ==> i < d.logSynced))
    && (cfg.sync ==> forall i :: 0 <= i < |d.log| && d.log[i].applied ==> i < d.logWritten)
  }

  /** safe: in this run, whatever a table shows is also in the durable part of the log. */
  ghost predicate DiskInv(safe: bool, cfg: Config, d: Disk) {
    && LogOk(cfg, d) && WfManifest(d.manifest) && TablesOk(d.manifest, d.files)
    && (safe ==> Covered(d.manifest, d.files, AllOps(d.log[..d.logSynced])))
  }

  // ----- The fold of an engine manifest

  lemma {:induction false} ManifestPrefix(m: seq<VersionEdit>, n: nat)
    requires WfManifest(m) && n <= |m|
    ensures WfManifest(m[..n])
  {
  }

  /** The counters an engine manifest leaves: the id after its last table, and the last edit's sequence number. */
  lemma {:induction false} ManifestCounters(m: seq<VersionEdit>)
    requires WfManifest(m) && m != []
    ensures CountersOf(m) == Counters(m[|m| - 1].nextFileID, m[|m| - 1].lastSequence, 0, true)
    ensures m[|m| - 1].nextFileID == |m|
  {
    var n := |m| - 1;
    if n == 0 {
      assert m[..0] == [];
      assert CountersOf(m[..0]) == Counters(0, 0, 0, false);
    } else {
      ManifestPrefix(m, n);
      ManifestCounters(m[..n]);
      assert AddsTable(m[n], n);
    }
  }

  /** The tables an engine manifest adds, in order, are 1, 2, ... */
  lemma {:induction false} ManifestAdds(m: seq<VersionEdit>)
    requires WfManifest(m) && m != []
    ensures AddedIds(m) == Ids(|m| - 1)
  {
    var n := |m| - 1;
    if n == 0 {
      assert FileIds(BOOTSTRAP.addedFiles) == [];
      assert AddedIds(m[..0]) == [];
    } else {
      ManifestPrefix(m, n);
      ManifestAdds(m[..n]);
      assert AddsTable(m[n], n);
      assert FileIds(m[n].addedFiles[1..]) == [];
      assert FileIds(m[n].addedFiles) == [n];
    }
  }

  /** Adding a file that is not live, and deleting none. */
  lemma {:induction false} LiveAfterOne(live: set<uint64>, e: VersionEdit, id: nat)
    requires AddsTable(e, id) && id !in live
    ensures V.LiveAfter(live, e).Some? && V.LiveAfter(live, e).value == live + {e.addedFiles[0].fileID}
  {
    var more := live + {e.addedFiles[0].fileID};
    assert V.LiveAfterAdds(more, e.addedFiles[1..]) == Some(more);
    assert more - (set d | d in e.deletedFiles :: d.fileID) == more;
  }

  /** Replay never meets a table twice. */
  lemma {:induction false} ManifestLive(m: seq<VersionEdit>)
    requires WfManifest(m) && m != []
    ensures LiveOf(m).Some? && forall id :: id in LiveOf(m).value <==> 1 <= id < |m|
  {
    var n := |m| - 1;
    if n == 0 {
      assert LiveOf(m[..0]) == Some({});
      assert V.LiveAfterAdds({}, BOOTSTRAP.addedFiles) == Some({});
    } else {
      ManifestPrefix(m, n);
      ManifestLive(m[..n]);
      assert AddsTable(m[n], n);
      LiveAfterOne(LiveOf(m[..n]).value, m[n], n);
    }
  }

  /** Readers are found for every table, and show what the files hold. */
  lemma {:induction false} TablesLoad(files: Files, n: nat)
    requires forall i :: 1 <= i <= n ==> TableThere(files, i)
    ensures LoadTables(files, Ids(n)).Some? && |LoadTables(files, Ids(n)).value| == n
    ensures forall i :: 0 <= i < n ==> LoadTables(files, Ids(n)).value[i] == Entries(files, i + 1)
  {
    if n > 0 {
      assert Ids(n)[..n - 1] == Ids(n - 1);
      TablesLoad(files, n - 1);
      assert TableThere(files, n);
    }
  }

  /** Only the named files matter. */
  lemma {:induction false} SameLoad(a: Files, b: Files, ids: seq<nat>)
    requires forall id :: id in ids ==> (id in a <==> id in b) && (id in a ==> a[id] == b[id])
    ensures LoadTables(a, ids) == LoadTables(b, ids)
  {
    if ids != [] {
      assert ids == ids[..|ids| - 1] + [ids[|ids| - 1]];
      SameLoad(a, b, ids[..|ids| - 1]);
    }
  }

  /** A directory without a manifest is as good as one with the bootstrap edit. */
  lemma {:induction false} BootstrapKeeps(safe: bool, cfg: Config, d: Disk)
    requires DiskInv(safe, cfg, d)
    ensures DiskInv(safe, cfg, Bootstrapped(d)) && Bootstrapped(d).manifest != []
  {
  }

  /** Replaying marks every record applied; what is durable is what was durable. */
  lemma {:induction false} ReplayKeeps(safe: bool, cfg: Config, d: Disk)
    requires DiskInv(safe, cfg, d) && d.logWritten == |d.log|
    ensures DiskInv(safe, cfg, d.(log := Replayed(d.log)))
  {
    var d' := d.(log := Replayed(d.log));
    SameBatches(d'.log[..d.logSynced], d.log[..d.logSynced]);
    hide TablesOk, Covered, WfManifest, AllOps;
  }

  /** The tables' worth of a Store. */
  function Tables(m: seq<VersionEdit>, files: Files): Store
    requires LoadTables(files, AddedIds(m)).Some?
  {
    Store([], None, LoadTables(files, AddedIds(m)).value, CountersOf(m).lastSequence)
  }

  lemma {:induction false} EmptyAbove()
    ensures StrictlySorted([]) && forall es :: Above([], es) && Above(es, [])
  {
  }

  lemma {:induction false} TablesInOrder(m: seq<VersionEdit>, files: Files, ssts: seq<seq<Entry>>)
    requires WfManifest(m) && m != [] && TablesOk(m, files)
    requires |ssts| == |m| - 1 && forall i :: 0 <= i < |ssts| ==> ssts[i] == Entries(files, i + 1)
    ensures SstsLayered(ssts, m[|m| - 1].lastSequence)
  {
    hide Above, StrictlySorted, Entries, TableThere, AddsTable;
    var n := |m| - 1;
    forall i | 0 <= i < n ensures AtMost(ssts[i], m[n].lastSequence) {
      assert m[i + 1].lastSequence <= m[n].lastSequence;
      assert AtMost(Entries(files, i + 1), m[i + 1].lastSequence);
    }
    forall i, j | 0 <= i < j < n ensures Above(ssts[j], ssts[i]) {
      assert Above(Entries(files, j + 1), Entries(files, i + 1));
    }
  }

  /** The tables are in order, and nothing in them is newer than the manifest's last sequence number. */
  lemma {:induction false} TablesLayered(m: seq<VersionEdit>, files: Files)
    requires WfManifest(m) && m != [] && TablesOk(m, files)
    ensures LoadTables(files, AddedIds(m)).Some?
    ensures Layered(Tables(m, files))
    ensures |Tables(m, files).ssts| == |m| - 1
    ensures forall i :: 0 <= i < |Tables(m, files).ssts| ==> Tables(m, files).ssts[i] == Entries(files, i + 1)
  {
    ManifestAdds(m);
    ManifestCounters(m);
    TablesLoad(files, |m| - 1);
    TablesInOrder(m, files, Tables(m, files).ssts);
    EmptyAbove();
    hide AddedIds, LoadTables, CountersOf, Above, StrictlySorted, Entries, TablesOk, WfManifest, SstsLayered;
  }

  /** Open never fails on a disk the engine left behind. */
  lemma {:induction false} OpenSucceeds(safe: bool, cfg: Config, d: Disk)
    requires DiskInv(safe, cfg, d) && RoomToReplay(d)
    ensures OpenDisk(cfg, d).Ok?
    ensures var b := Bootstrapped(d);
            && LoadTables(b.files, AddedIds(b.manifest)).Some?
            && OpenDisk(cfg, d).value == Up(b.(log := Replayed(b.log)),
                 Live(Applied(Tables(b.manifest, b.files), AllOps(d.log)), |b.manifest|, None, false,
                   StartingAgents(cfg)))
  {
    var b := Bootstrapped(d);
    BootstrapKeeps(safe, cfg, d);
    TablesLayered(b.manifest, b.files);
    ManifestCounters(b.manifest);
    ManifestLive(b.manifest);
    hide LiveOf, CountersOf, AddedIds, LoadTables, Replayed, AllOps, ApplyOps, TablesOk, WfManifest, Covered, Layered;
  }
}
