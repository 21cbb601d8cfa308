/** The two halves together: opening the bytes a stop leaves builds what the state machine's Open builds. */
module EngineRecovery {
  import opened Basics
  import opened Runs
  import opened Records
  import Wal
  import opened VersionEdits
  import V = Versions
  import MR = ManifestReplay
  import TR = TableReader
  import D = DiskBytes
  import opened EngineStore
  import opened EngineProtocol
  import opened EngineDisk
  import opened EngineInvariant
  import T = EngineTheorems
  import opened EngineDB

  // ----- What the bytes of a directory say about a disk

  /** The log file is what may remain of this log. */
  ghost predicate LogBytes(crc: Checksum, d: Disk, log: Bytes) {
    var f, batches := WalFormat(crc), T.BatchesOf(d.log);
    && d.logSynced <= |batches| && D.AllLoggable(f, batches)
    && D.MayRemain(f, D.BatchPayloads(batches), d.logSynced, log)
  }

  /** The manifest is what may remain of these edits; none at all when CURRENT was never installed. */
  ghost predicate ManifestBytes(crc: Checksum, d: Disk, current: Option<Bytes>) {
    var f, m := ManifestFormat(crc), d.manifest;
    && (m == [] <==> current.None?)
    && (m != [] ==>
          && d.manifestSynced <= |m| && D.EngineManifest(f, m) && D.AllEditsStorable(m)
          && D.MayRemain(f, D.EditPayloads(m), d.manifestSynced, current.value))
  }

  /** Each table file that the manifest names opens and answers as its entries do. */
  ghost predicate TableBytes(crc: Checksum, d: Disk, files: map<uint64, Bytes>, contents: map<uint64, seq<Entry>>) {
    forall i: uint64 :: 1 <= i < |d.manifest| ==>
      && TableOpens(crc, files, i) && Answers(TR.OpenTable(crc, files[i]).value, Entries(d.files, i))
      && i in contents && contents[i] == Entries(d.files, i)
  }

  ghost predicate ImageOf(crc: Checksum, d: Disk, dir: Directory, contents: map<uint64, seq<Entry>>) {
    LogBytes(crc, d, dir.log) && ManifestBytes(crc, d, dir.current) && TableBytes(crc, d, dir.files, contents)
  }

  /** These bytes are the records of this log and nothing else. */
  ghost predicate HoldsRecords(f: Format, bytes: Bytes, log: seq<LogRec>)
    requires f.Valid()
  {
    && (forall i :: 0 <= i < |log| ==> |log[i].batch| < 0x1_0000_0000)
    && bytes == EncodeAll(f, D.BatchPayloads(T.BatchesOf(log)))
  }

  // ----- Pieces

  lemma {:induction false} ConcatIsAllOps(log: seq<LogRec>)
    ensures Concat(T.BatchesOf(log)) == AllOps(log)
  {
    if log != [] {
      var n := |log| - 1;
      ConcatIsAllOps(log[..n]);
      assert T.BatchesOf(log)[..n] == T.BatchesOf(log[..n]);
    }
  }

  /** The log bytes decode to the first k batches, for some k that a power loss may leave. */
  lemma {:induction false} LogOf(crc: Checksum, d: Disk, log: Bytes) returns (k: nat)
    requires LogBytes(crc, d, log)
    ensures d.logSynced <= k <= |d.log|
    ensures LogOpens(WalFormat(crc), log) && LogOps(WalFormat(crc), log) == AllOps(d.log[..k])
    ensures HoldsRecords(WalFormat(crc), log[..ReadLog(WalFormat(crc), log).valid], d.log[..k])
  {
    hide WalFormat, ReadLog, D.DecodeBatches, D.AllLoggable, D.MayRemain, Concat, AllOps, HoldsRecords, EncodeAll,
         D.BatchPayloads;
    var batches := T.BatchesOf(d.log);
    k := D.LogAfterCrash(WalFormat(crc), batches, d.logSynced, log);
    assert batches[..k] == T.BatchesOf(d.log[..k]);
    ConcatIsAllOps(d.log[..k]);
    FirstRecords(WalFormat(crc), d.log, k, log[..ReadLog(WalFormat(crc), log).valid]);
  }

  lemma {:induction false} FirstRecords(f: Format, log: seq<LogRec>, k: nat, bytes: Bytes)
    requires f.Valid() && D.AllLoggable(f, T.BatchesOf(log)) && k <= |log|
    requires bytes == EncodeAll(f, D.BatchPayloads(T.BatchesOf(log)[..k]))
    ensures HoldsRecords(f, bytes, log[..k])
  {
    hide EncodeAll, D.BatchPayloads;
    forall i | 0 <= i < k ensures |log[..k][i].batch| < 0x1_0000_0000 {
      assert D.Loggable(f, T.BatchesOf(log)[i]);
    }
    assert T.BatchesOf(log)[..k] == T.BatchesOf(log[..k]);
  }

  /** The manifest bytes decode to the first k edits, for some k that a power loss may leave. */
  lemma {:induction false} ManifestOf(cfg: Config, crc: Checksum, d: Disk, current: Option<Bytes>) returns (k: nat)
    requires ManifestBytes(crc, d, current) && DiskInv(false, cfg, d)
    ensures d.manifestSynced <= k <= |d.manifest|
    ensures ManifestOpens(ManifestFormat(crc), current)
    ensures EditsOf(ManifestFormat(crc), current) == (if d.manifest == [] then [BOOTSTRAP] else d.manifest[..k])
    ensures d.manifest != [] ==> k >= 1
  {
    hide ManifestFormat, ReadLog, MR.DecodeEdits, D.EngineManifest, D.AllEditsStorable, D.MayRemain, TablesOk, Covered,
         WfManifest, MR.Replayable;
    k := 0;
    if d.manifest != [] {
      k := D.ManifestAfterCrash(ManifestFormat(crc), d.manifest, d.manifestSynced, current.value);
    }
  }

  /** The files of the version an engine manifest folds to are 1, 2, ... */
  lemma {:induction false} VersionIs(edits: seq<VersionEdit>, versions: seq<V.Files>)
    requires WfManifest(edits) && edits != [] && V.History(edits, versions)
    ensures |versions| == |edits| + 1 && |V.Flat(versions[|edits|])| == |edits| - 1
    ensures forall i :: 0 <= i < |edits| - 1 ==> V.Flat(versions[|edits|])[i].fileID == i + 1
  {
    MR.HistoryLength(edits, versions);
    D.VersionListsTables(edits, versions, |edits|);
    assert edits[..|edits|] == edits;
    ManifestAdds(edits);
    var fs := V.Flat(versions[|edits|]);
    hide V.History, WfManifest, AddedIds, V.Flat;
    FileIdsAt(fs);
    forall i | 0 <= i < |edits| - 1 ensures fs[i].fileID == i + 1 {
      assert FileIds(fs)[i] == Ids(|edits| - 1)[i];
    }
  }

  lemma {:induction false} FileIdsAt(fs: seq<FileMetadata>)
    ensures |FileIds(fs)| == |fs| && forall i :: 0 <= i < |fs| ==> FileIds(fs)[i] == fs[i].fileID as nat
  {
    if fs != [] {
      FileIdsAt(fs[1..]);
    }
  }

  /** Whatever of the manifest remains, its tables are among those described. */
  lemma {:induction false} DirectoryDescribed(crc: Checksum, d: Disk, dir: Directory, contents: map<uint64, seq<Entry>>,
                                              versions: seq<V.Files>)
    requires TableBytes(crc, d, dir.files, contents)
    requires var edits := EditsOf(ManifestFormat(crc), dir.current);
             && WfManifest(edits) && edits != [] && (|edits| == 1 || |edits| <= |d.manifest|)
             && V.History(edits, versions)
    ensures Describes(crc, dir.files, contents, VersionFiles(crc, dir.current, versions))
  {
    hide ManifestFormat, EditsOf, WfManifest, TableOpens, Answers, TR.OpenTable, Entries, V.Flat;
    var edits := EditsOf(ManifestFormat(crc), dir.current);
    VersionIs(edits, versions);
    var fs := V.Flat(versions[|edits|]);
    forall f | f in fs ensures 1 <= f.fileID < |edits| {
      var i :| 0 <= i < |fs| && fs[i] == f;
    }
  }

  /** The contents Open is told of are the entries of the tables that the state machine's Open loads. */
  lemma {:induction false} SameTablesLoaded(crc: Checksum, d: Disk, files: map<uint64, Bytes>,
                                            contents: map<uint64, seq<Entry>>,
                                            edits: seq<VersionEdit>, versions: seq<V.Files>)
    requires TableBytes(crc, d, files, contents) && WfManifest(edits) && edits != [] && V.History(edits, versions)
    requires TablesOk(edits, d.files) && (|edits| == 1 || |edits| <= |d.manifest|)
    ensures |versions| == |edits| + 1 && LoadTables(d.files, AddedIds(edits)).Some?
    ensures ContentsOf(contents, V.Flat(versions[|edits|])) == LoadTables(d.files, AddedIds(edits)).value
  {
    hide V.History, WfManifest, TablesOk, AddedIds, LoadTables, V.Flat, TableOpens, Answers, TR.OpenTable, Layered,
         MR.CountersOf, StrictlySorted, Above, AtMost;
    VersionIs(edits, versions);
    TablesLayered(edits, d.files);
    var fs := V.Flat(versions[|edits|]);
    var tables := LoadTables(d.files, AddedIds(edits)).value;
    assert tables == Tables(edits, d.files).ssts;
    forall i | 0 <= i < |fs| ensures ContentsOf(contents, fs)[i] == tables[i] {
      OneTable(crc, d, files, contents, fs[i].fileID);
    }
  }

  lemma {:induction false} OneTable(crc: Checksum, d: Disk, files: map<uint64, Bytes>,
                                    contents: map<uint64, seq<Entry>>, id: uint64)
    requires TableBytes(crc, d, files, contents) && 1 <= id < |d.manifest|
    ensures id in contents && contents[id] == Entries(d.files, id)
  {
  }

  lemma {:induction false} AllOpen(crc: Checksum, d: Disk, dir: Directory, contents: map<uint64, seq<Entry>>,
                                   versions: seq<V.Files>)
    requires TableBytes(crc, d, dir.files, contents)
    requires var edits := EditsOf(ManifestFormat(crc), dir.current);
             && WfManifest(edits) && edits != [] && (|edits| == 1 || |edits| <= |d.manifest|)
             && V.History(edits, versions)
    ensures forall f :: f in VersionFiles(crc, dir.current, versions) ==> TableOpens(crc, dir.files, f.fileID)
  {
    hide ManifestFormat, EditsOf, WfManifest, TableOpens, Answers, TR.OpenTable, Entries, V.Flat;
    var edits := EditsOf(ManifestFormat(crc), dir.current);
    VersionIs(edits, versions);
    var fs := V.Flat(versions[|edits|]);
    forall f | f in fs ensures TableOpens(crc, dir.files, f.fileID) {
      var i :| 0 <= i < |fs| && fs[i] == f;
      assert 1 <= f.fileID < |d.manifest|;
    }
  }

  /** Open on this disk comes up with these layers and this next id. */
  ghost predicate OpensAs(cfg: Config, d: Disk, layers: Store, nextID: nat) {
    && RoomToReplay(d) && OpenDisk(cfg, d).Ok? && OpenDisk(cfg, d).value.Up?
    && OpenDisk(cfg, d).value.live.store == layers && OpenDisk(cfg, d).value.live.nextID == nextID
  }

  /** The layers over these contents are what OpenDisk builds on the disk cut at these records and edits. */
  lemma {:induction false} CutOpensAs(cfg: Config, crc: Checksum, d: Disk, dir: Directory,
                                      contents: map<uint64, seq<Entry>>,
                                      versions: seq<V.Files>, keepLog: nat, keepManifest: nat)
    requires DiskInv(false, cfg, d) && TableBytes(crc, d, dir.files, contents) &&
        Cut(crc, d, dir, keepLog, keepManifest)
    requires V.History(EditsOf(ManifestFormat(crc), dir.current), versions)
    requires var c := MR.CountersOf(EditsOf(ManifestFormat(crc), dir.current));
             c.lastSequence + |LogOps(WalFormat(crc), dir.log)| <= MAX_UINT64
    ensures CrashEnabled(d, keepLog, keepManifest)
    ensures Bootstrapped(AfterCrash(d, keepLog, keepManifest)).manifest == EditsOf(ManifestFormat(crc), dir.current)
    ensures var c := MR.CountersOf(EditsOf(ManifestFormat(crc), dir.current));
            var tables := ContentsOf(contents, VersionFiles(crc, dir.current, versions));
            OpensAs(cfg, AfterCrash(d, keepLog, keepManifest),
                    Applied(Store([], None, tables, c.lastSequence), LogOps(WalFormat(crc), dir.log)), c.nextFileID)
  {
    hide TableBytes, WfManifest, TablesOk, AddedIds, LoadTables, V.Flat, V.History, MR.CountersOf, EditsOf,
         ManifestFormat, WalFormat, ReadLog, LogOps, LogOpens, ManifestOpens, AllOps, OpenDisk, Applied, ContentsOf,
         DiskInv;
    var edits := EditsOf(ManifestFormat(crc), dir.current);
    var d' := AfterCrash(d, keepLog, keepManifest);
    EditsAre(cfg, d, keepManifest, edits);
    CrashKeeps(false, cfg, d, keepLog, keepManifest);
    assert Bootstrapped(d').manifest == edits;
    SameTablesLoaded(crc, d, dir.files, contents, edits, versions);
    ManifestCounters(edits);
    assert RoomToReplay(d');
    CutOpens(cfg, d');
  }

  /** The log writer is behind exactly these records, and what was durable of them still is. */
  ghost predicate KeepsLog(w: Wal.Writer, log: seq<LogRec>, durable: nat)
    reads w
  {
    && w.Valid() && HoldsRecords(w.format, w.Appended(), log)
    && w.synced == if durable <= |w.Appended()| then durable else |w.Appended()|
  }

  /** What OpenDB built is what OpenDisk builds on the disk cut at these records and edits. */
  lemma {:induction false} SameOpen(cfg: Config, crc: Checksum, d: Disk, dir: Directory,
                                    contents: map<uint64, seq<Entry>>,
                                    durable: nat, db: DB, versions: seq<V.Files>, keepLog: nat, keepManifest: nat)
    requires DiskInv(false, cfg, d) && TableBytes(crc, d, dir.files, contents) &&
        Cut(crc, d, dir, keepLog, keepManifest)
    requires V.History(EditsOf(ManifestFormat(crc), dir.current), versions)
    requires Opened(db, crc, dir, contents, versions, durable)
    ensures db.Valid() && !db.closed && !db.flushFailed && CrashEnabled(d, keepLog, keepManifest)
    ensures OpensAs(cfg, AfterCrash(d, keepLog, keepManifest), db.Layers(), db.nextSSTID)
    ensures db.manifest == Bootstrapped(AfterCrash(d, keepLog, keepManifest)).manifest
    ensures KeepsLog(db.wal, d.log[..keepLog], durable) && |db.wal.Appended()| <= |dir.log|
    ensures db.wal.format == WalFormat(crc)
  {
    hide TableBytes, WfManifest, V.History, MR.CountersOf, EditsOf, ManifestFormat, WalFormat, ReadLog, LogOps,
         LogOpens, ManifestOpens, Applied, ContentsOf, VersionFiles, ReadersFor, Describes, DB.Sound, DB.Valid,
         DB.Layers, DiskInv, OpensAs, AllOps, AfterCrash, CrashEnabled, HoldsRecords, Bootstrapped;
    DirectoryDescribed(crc, d, dir, contents, versions);
    CutOpensAs(cfg, crc, d, dir, contents, versions, keepLog, keepManifest);
  }

  lemma {:induction false} CutOpens(cfg: Config, d: Disk)
    requires Inv(false, cfg, Down(d)) && RoomToReplay(d)
    ensures OpenDisk(cfg, d).Ok? && OpenDisk(cfg, d).value.Up?
    ensures var b, live := Bootstrapped(d), OpenDisk(cfg, d).value.live;
            && LoadTables(b.files, AddedIds(b.manifest)).Some?
            && live.store == Applied(Tables(b.manifest, b.files), AllOps(d.log)) && live.nextID == |b.manifest|
            && !live.closed && live.flushErr.None?
  {
    OpenSucceeds(false, cfg, d);
  }

  /** What is known of the directory before it is opened. */
  ghost predicate Cut(crc: Checksum, d: Disk, dir: Directory, keepLog: nat, keepManifest: nat) {
    var edits := EditsOf(ManifestFormat(crc), dir.current);
    && d.logSynced <= keepLog <= |d.log| && d.manifestSynced <= keepManifest <= |d.manifest|
    && LogOpens(WalFormat(crc), dir.log) && LogOps(WalFormat(crc), dir.log) == AllOps(d.log[..keepLog])
    && HoldsRecords(WalFormat(crc), dir.log[..ReadLog(WalFormat(crc), dir.log).valid], d.log[..keepLog])
    && ManifestOpens(ManifestFormat(crc), dir.current) && (d.manifest != [] ==> keepManifest >= 1)
    && edits == (if d.manifest == [] then [BOOTSTRAP] else d.manifest[..keepManifest])
    && WfManifest(edits) && edits != [] && (|edits| == 1 || |edits| <= |d.manifest|)
  }

  lemma {:induction false} FindCut(cfg: Config, crc: Checksum, d: Disk, dir: Directory,
                                   contents: map<uint64, seq<Entry>>)
    returns (keepLog: nat, keepManifest: nat)
    requires DiskInv(false, cfg, d) && ImageOf(crc, d, dir, contents)
    ensures Cut(crc, d, dir, keepLog, keepManifest)
  {
    hide LogOps, LogOpens, ManifestOpens, EditsOf, TableBytes, AllOps, WalFormat, ManifestFormat, LogBytes,
         ManifestBytes;
    keepLog := LogOf(crc, d, dir.log);
    keepManifest := ManifestOf(cfg, crc, d, dir.current);
    EditsAre(cfg, d, keepManifest, EditsOf(ManifestFormat(crc), dir.current));
  }

  method OpenImage(cfg: Config, blockSize: nat, crc: Checksum, ghost d: Disk, dir: Directory, ghost durable: nat,
                   ghost contents: map<uint64, seq<Entry>>, ghost keepLog: nat, ghost keepManifest: nat)
    returns (db: DB, ghost versions: seq<V.Files>)
    requires Cut(crc, d, dir, keepLog, keepManifest) && TableBytes(crc, d, dir.files, contents) && durable <= |dir.log|
    requires MR.CountersOf(EditsOf(ManifestFormat(crc), dir.current)).lastSequence + |dir.log| <= MAX_UINT64
    ensures fresh(db) && Opened(db, crc, dir, contents, versions, durable)
    ensures db.syncOnWrite == cfg.sync && db.autoFlush == cfg.auto
    ensures V.History(EditsOf(ManifestFormat(crc), dir.current), versions)
  {
    hide Opened, WfManifest, LogOps, LogOpens, ManifestOpens, EditsOf, TableBytes, TableOpens,
         MR.CountersOf, AllOps, WalFormat, ManifestFormat, V.History, VersionFiles;
    var r, files, vs := OpenDB(cfg.sync, cfg.auto, blockSize, crc, dir, durable, contents);
    versions := vs;
    AllOpen(crc, d, dir, contents, versions);
    db := r.value;
  }

  /**
   * From bytes to the state machine: opening any directory whose files are what a stop may have left of a reachable
   * state's disk succeeds, and builds exactly the layers and the next id that the state machine's Open builds on that
   * disk cut at some records and edits that a stop could leave.
   */
  method Reopen(cfg: Config, blockSize: nat, crc: Checksum, ghost s: State, dir: Directory, ghost durable: nat,
                ghost contents: map<uint64, seq<Entry>>)
    returns (db: DB, ghost keepLog: nat, ghost keepManifest: nat)
    requires Reachable(cfg, s) && ImageOf(crc, s.disk, dir, contents) && durable <= |dir.log|
    requires MR.CountersOf(EditsOf(ManifestFormat(crc), dir.current)).lastSequence + |dir.log| <= MAX_UINT64
    ensures CrashEnabled(s.disk, keepLog, keepManifest) && fresh(db) && db.Valid()
    ensures OpensAs(cfg, AfterCrash(s.disk, keepLog, keepManifest), db.Layers(), db.nextSSTID)
    ensures !db.closed && !db.flushFailed && db.syncOnWrite == cfg.sync && db.autoFlush == cfg.auto
    ensures db.manifest == Bootstrapped(AfterCrash(s.disk, keepLog, keepManifest)).manifest
    ensures KeepsLog(db.wal, s.disk.log[..keepLog], durable) && |db.wal.Appended()| <= |dir.log|
    ensures db.wal.format == WalFormat(crc)
  {
    hide DiskInv, OpensAs, Opened, TableBytes, LogBytes, ManifestBytes, MR.CountersOf, EditsOf, ManifestFormat,
         DB.Valid, DB.Layers, Reachable, Inv;
    ReachableInv(cfg, s);
    DiskOfLive(false, cfg, s);
    keepLog, keepManifest := FindCut(cfg, crc, s.disk, dir, contents);
    ghost var versions;
    db, versions := OpenImage(cfg, blockSize, crc, s.disk, dir, durable, contents, keepLog, keepManifest);
    SameOpen(cfg, crc, s.disk, dir, contents, durable, db, versions, keepLog, keepManifest);
  }

  /** The edits Open finds are a bootstrapped prefix of the disk's. */
  lemma {:induction false} EditsAre(cfg: Config, d: Disk, keepManifest: nat, edits: seq<VersionEdit>)
    requires DiskInv(false, cfg, d) && keepManifest <= |d.manifest| && (d.manifest != [] ==> keepManifest >= 1)
    requires edits == if d.manifest == [] then [BOOTSTRAP] else d.manifest[..keepManifest]
    ensures WfManifest(edits) && edits != [] && TablesOk(edits, d.files) && (|edits| == 1 || |edits| <= |d.manifest|)
  {
    CutKeepsTables(d.manifest, keepManifest, d.files);
  }
}
