/** The database object: the critical sections of the engine, run against the layers they change. */
module EngineDB {
  import opened Basics
  import opened Keys
  import opened Runs
  import opened Blocks
  import opened SkipLists
  import B = Batches
  import Records
  import Wal
  import TR = TableReader
  import TC = TableCursor
  import TW = TableWriter
  import opened TableFormat
  import opened VersionEdits
  import V = Versions
  import MR = ManifestReplay
  import D = DiskBytes
  import opened EngineStore
  import P = EngineProtocol

  /** An open table answers every read as a list of entries would. */
  ghost predicate Answers(t: TR.Table, es: seq<Entry>) {
    forall key: Bytes, seqno: nat :: TR.TableGet(t, key, seqno) == Ok(ScanGet(es, key, seqno))
  }

  ghost predicate AllAnswer(ssts: seq<TC.Reader>, tables: seq<seq<Entry>>)
    reads ssts
  {
    |ssts| == |tables| && forall i :: 0 <= i < |ssts| ==> ssts[i].open && Answers(ssts[i].table, tables[i])
  }

  ghost predicate AllOpen(ssts: seq<TC.Reader>, tables: seq<seq<Entry>>)
    reads ssts
  {
    |ssts| == |tables| && forall i :: 0 <= i < |ssts| ==> ssts[i].open
  }

  ghost function TablesOf(ssts: seq<TC.Reader>): seq<TR.Table> {
    seq(|ssts|, i requires 0 <= i < |ssts| => ssts[i].table)
  }

  /** Asks the tables from the newest down to the first that knows the key, or cannot be read. */
  function ReadTables(ts: seq<TR.Table>, key: Bytes, seqno: nat): Result<Lookup, TableError> {
    if ts == [] then Ok(Missing)
    else
      var top := TR.TableGet(ts[|ts| - 1], key, seqno);
      if top == Ok(Missing) then ReadTables(ts[..|ts| - 1], key, seqno) else top
  }

  /** No table above this one knows the key. */
  predicate NothingAbove(ts: seq<TR.Table>, key: Bytes, seqno: nat, i: nat) {
    forall j :: i < j < |ts| ==> TR.TableGet(ts[j], key, seqno) == Ok(Missing)
  }

  /** The newest table that knows the key, or cannot be read, decides; when there is none, the key is missing. */
  lemma {:induction false} NewestTableDecides(ts: seq<TR.Table>, key: Bytes, seqno: nat) returns (i: nat)
    ensures ReadTables(ts, key, seqno) != Ok(Missing) ==>
              i < |ts| && TR.TableGet(ts[i], key, seqno) == ReadTables(ts, key, seqno) &&
                NothingAbove(ts, key, seqno, i)
    ensures ReadTables(ts, key, seqno) == Ok(Missing) ==>
              forall j :: 0 <= j < |ts| ==> TR.TableGet(ts[j], key, seqno) == Ok(Missing)
  {
    hide TR.TableGet;
    i := 0;
    if ts != [] {
      var n := |ts| - 1;
      if TR.TableGet(ts[n], key, seqno) == Ok(Missing) {
        i := NewestTableDecides(ts[..n], key, seqno);
      } else {
        i := n;
      }
    }
  }

  /** Tables that can be read answer as the lists of entries they hold. */
  lemma {:induction false} ReadableTables(ssts: seq<TC.Reader>, tables: seq<seq<Entry>>, key: Bytes, seqno: nat)
    requires AllAnswer(ssts, tables)
    ensures ReadTables(TablesOf(ssts), key, seqno) == Ok(SstHit(tables, key, seqno))
  {
    hide TR.TableGet, ScanGet;
    if ssts != [] {
      var n := |ssts| - 1;
      assert TablesOf(ssts)[..n] == TablesOf(ssts[..n]);
      ReadableTables(ssts[..n], tables[..n], key, seqno);
    }
  }

  datatype DBError = DBClosed | KeyNotFound | FlushFailed | AppendFailed | SyncFailed | CorruptTable | CloseFailed

  /** Stalled: the batch is applied, but the call has to wait for the flush slot. */
  datatype WriteOutcome = Done | Stalled | Refused(error: DBError)

  /** Another operation of a batch. */
  lemma {:induction false} ApplyMore(s: Store, ops: seq<B.Operation>, i: nat)
    requires i < |ops| && s.seqno + |ops| <= MAX_UINT64
    ensures Applied(Applied(s, ops[..i]), [ops[i]]) == Applied(s, ops[..i + 1])
  {
    hide Applied;
    AppliedConcat(s, ops[..i], [ops[i]]);
    assert ops[..i] + [ops[i]] == ops[..i + 1];
  }

  lemma {:induction false} ApplySingle(s: Store, op: B.Operation)
    requires s.seqno < MAX_UINT64
    ensures Applied(s, [op]) == s.(mem := Insert(s.mem, EntryOf(op, s.seqno + 1)), seqno := s.seqno + 1)
  {
    hide Insert, EntryOf;
    assert [op][..0] == [];
    assert ApplyOps(s.mem, s.seqno, []) == s.mem;
  }

  lemma {:induction false} ApplyNothing(s: Store)
    requires s.seqno <= MAX_UINT64
    ensures Applied(s, []) == s
  {
  }

  // ----- Writing a memtable to a table

  /** Adds every entry in order and reports the first and the last key; an empty memtable is refused. */
  method WriteMemtableEntries(w: TW.Writer, list: SkipList, ghost es: seq<Entry>)
    returns (r: Result<(InternalKey, InternalKey), P.FlushError>)
    requires w.Valid() && !w.closed && w.packed == TW.Packed([], []) && list.Valid() && list.Contents() == es
    modifies w, w.currentBlock
    ensures w.Valid() && !w.closed
    ensures r.Ok? <==> es != [] && StrictlySorted(es)
    ensures es == [] ==> r == Err(P.EmptyMemtable)
    ensures es != [] && r.Err? ==> r.error == P.WriteFailure
    ensures r.Ok? ==> w.packed == TW.PackAll(es, w.targetBlockSize) && r.value == (es[0].key, es[|es| - 1].key)
  {
    hide Holds, Stands, SkipList.Valid, SkipList.Contents, SkipListIterator.Positioned, StrictlySorted, TW.PackAll,
         TW.Writer.Valid;
    NothingHeld(w, es);
    var iter := new SkipListIterator(list);
    iter.SeekToFirst();
    var first, smallest, largest := true, InternalKey([], 0, 0), InternalKey([], 0, 0);
    StandsAt(iter, es);
    while iter.IsValid()
      invariant fresh(iter) && Stands(iter, es) && Holds(w, es, iter.pos)
      invariant iter.pos <= |es| && iter.IsValid() == (iter.pos < |es|) && first == (iter.pos == 0)
      invariant !first ==> smallest == es[0].key && largest == es[iter.pos - 1].key
      decreases |es| - iter.pos
    {
      StandsOn(iter, es);
      var key, value := iter.Current();
      var added := AddNext(w, key, value, es, iter.pos);
      if !added {
        return Err(P.WriteFailure);
      }
      if first {
        smallest, first := key, false;
      }
      largest := key;
      StandsOn(iter, es);
      iter.Next();
      StandsAt(iter, es);
    }
    AllHeld(w, es);
    r := if first then Err(P.EmptyMemtable) else Ok((smallest, largest));
  }

  /** The iterator stands somewhere in these entries. */
  ghost predicate Stands(iter: SkipListIterator, es: seq<Entry>)
    reads iter, iter.list, iter.list.nodes
  {
    iter.Positioned() && iter.list.Contents() == es
  }

  lemma {:induction false} StandsOn(iter: SkipListIterator, es: seq<Entry>)
    requires Stands(iter, es)
    ensures iter.Positioned() && iter.list.Contents() == es
  {
    hide SkipListIterator.Positioned, SkipList.Contents;
  }

  /** The writer has the first p entries of the memtable. */
  ghost predicate Holds(w: TW.Writer, es: seq<Entry>, p: nat)
    reads w, w.currentBlock
  {
    && p <= |es| && w.Valid() && !w.closed
    && w.packed == TW.PackAll(es[..p], w.targetBlockSize) && w.Entries() == es[..p]
  }

  lemma {:induction false} NothingHeld(w: TW.Writer, es: seq<Entry>)
    requires w.Valid() && !w.closed && w.packed == TW.Packed([], [])
    ensures Holds(w, es, 0)
  {
    assert es[..0] == [];
  }

  lemma {:induction false} AllHeld(w: TW.Writer, es: seq<Entry>)
    requires Holds(w, es, |es|)
    ensures w.Valid() && !w.closed && w.packed == TW.PackAll(es, w.targetBlockSize) && StrictlySorted(es)
  {
    assert es[..|es|] == es;
  }

  /** The body of the loop: one more entry, unless it is out of order. */
  method AddNext(w: TW.Writer, key: InternalKey, value: Bytes, ghost es: seq<Entry>, ghost p: nat)
    returns (ok: bool)
    requires Holds(w, es, p) && p < |es| && Entry(key, value) == es[p]
    modifies w, w.currentBlock
    ensures if ok then Holds(w, es, p + 1) else w.Valid() && !w.closed && !StrictlySorted(es)
  {
    hide TW.PackOne, TW.PackAll, TW.Writer.Valid, Compare, StrictlySorted, Flatten;
    TW.WriterKnows(w);
    TW.PackMore(es, p, w.targetBlockSize);
    var added := w.Add(key, value);
    if added.Err? {
      OutOfOrder(es, p);
    }
    ok := added.Ok?;
  }

  lemma {:induction false} StandsAt(iter: SkipListIterator, es: seq<Entry>)
    requires iter.Positioned() && iter.list.Contents() == es
    ensures Stands(iter, es) && iter.pos <= |es| && (iter.IsValid() <==> iter.pos < |es|)
  {
    hide LinkedBetween, Sorted;
  }

  lemma {:induction false} OutOfOrder(es: seq<Entry>, p: nat)
    requires 0 < p < |es| && Compare(es[..p][p - 1].key, es[p].key) >= 0
    ensures !StrictlySorted(es)
  {
    hide Compare;
  }

  /** What goes wrong in a flush, if anything: building the table, or making its manifest edit durable. */
  datatype FlushFault = Smooth | TableFails | ManifestFails

  /** The layers once the memtable is the newest table. */
  function Flushed(s: Store): Store {
    s.(mem := [], ssts := s.ssts + [s.mem])
  }

  datatype TableResult = TableResult(reader: TC.Reader, smallest: InternalKey, largest: InternalKey, size: uint64)

  /** The target size that a configured block size stands for; zero means the default of 4096 bytes. */
  function TargetSize(blockSize: nat): (r: nat)
    ensures r == if blockSize == 0 then 4096 else blockSize
  {
    if blockSize > 0 then blockSize else TW.DEFAULT_BLOCK_SIZE
  }

  /**
   * A memtable that the table format can hold: one version per key and sequence number, lengths within their fields.
   */
  ghost predicate Writable(crc: Checksum, es: seq<Entry>, blockSize: nat) {
    var blocks := TW.TableBlocks(es, TargetSize(blockSize));
    StrictlySorted(es) && AllStorable(es) && (NoneEmpty(blocks) ==> TR.FitsFormat(crc, blocks))
  }

  /** The table file of a memtable. */
  function FileOf(crc: Checksum, es: seq<Entry>, blockSize: nat): Bytes {
    TW.TableBlocksKeep(es, TargetSize(blockSize));
    TableBytes(crc, TW.TableBlocks(es, TargetSize(blockSize)))
  }

  /**
   * writeSSTable: write the file, open it again; the reader answers as the memtable does, and the size is the file's.
   */
  method WriteSSTable(crc: Checksum, blockSize: nat, list: SkipList, ghost es: seq<Entry>)
    returns (r: Result<TableResult, P.FlushError>)
    requires list.Valid() && list.Contents() == es
    ensures es == [] ==> r == Err(P.EmptyMemtable)
    ensures es != [] && r.Err? ==> r.error == P.WriteFailure
    ensures r.Ok? ==> es != [] && fresh(r.value.reader) && r.value.reader.open
    ensures r.Ok? ==> r.value.smallest == es[0].key && r.value.largest == es[|es| - 1].key
    ensures r.Ok? ==>
              && r.value.reader.table.file == FileOf(crc, es, blockSize)
              && r.value.size == ToUint64(|r.value.reader.table.file|)
    ensures es != [] && Writable(crc, es, blockSize) ==> r.Ok? && Answers(r.value.reader.table, es)
  {
    hide SkipList.Valid, SkipList.Contents, TW.PackAll, TableBytes, TR.TableGet, StrictlySorted, AllStorable,
         TR.FitsFormat, TR.OpenTable, TW.Writer.Valid, DecodeFooter, DecodeIndexBlock;
    var writer := TW.NewWriter(crc, if blockSize > 0 then blockSize else TW.DEFAULT_BLOCK_SIZE);
    var w := writer.value;
    var keys := WriteMemtableEntries(w, list, es);
    if keys.Err? {
      return Err(keys.error);
    }
    var closed := w.Close();
    var reader := TC.OpenReader(crc, w.file);
    if Writable(crc, es, blockSize) {
      WrittenAnswers(crc, es, blockSize);
    }
    if reader.Err? {
      return Err(P.WriteFailure);
    }
    TR.OpenKeepsFile(crc, w.file);
    r := Ok(TableResult(reader.value, keys.value.0, keys.value.1, ToUint64(|w.file|)));
  }

  lemma {:induction false} WrittenAnswers(crc: Checksum, es: seq<Entry>, blockSize: nat)
    requires Writable(crc, es, blockSize)
    ensures var t := TR.OpenTable(crc, FileOf(crc, es, blockSize)); t.Ok? && Answers(t.value, es)
  {
    hide TW.TableBlocks, TR.OpenTable, TableBytes, TR.TableGet, StrictlySorted, AllStorable, TR.FitsFormat;
    var target := TargetSize(blockSize);
    D.TableAnswersAsMemtable(crc, es, target, [], 0);
    forall key: Bytes, seqno: nat
      ensures TR.TableGet(TR.OpenTable(crc, FileOf(crc, es, blockSize)).value, key, seqno)
          == Ok(ScanGet(es, key, seqno))
    {
      D.TableAnswersAsMemtable(crc, es, target, key, seqno);
    }
  }

  lemma {:induction false} AnswerMore(ssts: seq<TC.Reader>, tables: seq<seq<Entry>>, reader: TC.Reader, es: seq<Entry>)
    requires AllAnswer(ssts, tables) && reader.open && Answers(reader.table, es)
    ensures AllOpen(ssts + [reader], tables + [es]) && AllAnswer(ssts + [reader], tables + [es])
  {
    hide Answers;
  }

  lemma {:induction false} HoldsNothing(list: SkipList)
    requires list.Valid()
    ensures list.length == |list.Contents()|
  {
  }

  predicate LogOpens(f: Records.Format, log: Bytes)
    requires f.Valid()
  {
    !Records.ReadLog(f, log).end.Bad? && D.DecodeBatches(Records.ReadLog(f, log).payloads).Some?
  }

  function LogOps(f: Records.Format, log: Bytes): seq<B.Operation>
    requires f.Valid() && LogOpens(f, log)
  {
    Concat(D.DecodeBatches(Records.ReadLog(f, log).payloads).value)
  }

  class DB {
    const syncOnWrite: bool
    const autoFlush: bool
    const blockSize: nat
    const crc: Checksum

    var closed: bool
    var seqno: uint64
    var mem: SkipList
    var immMem: SkipList?
    var ssts: seq<TC.Reader>
    var wal: Wal.Writer
    var nextSSTID: uint64
    var flushFailed: bool

    var version: V.Version

    /** The edits that the manifest holds durably. */
    ghost var manifest: seq<VersionEdit>

    /** What the tables hold. */
    ghost var tables: seq<seq<Entry>>

    /** The two memtables share nothing. */
    ghost predicate Apart()
      reads this, mem, immMem
    {
      immMem != null ==> mem != immMem && forall i, j :: 0 <= i < |mem.nodes| && 0 <= j < |immMem.nodes| ==>
        mem.nodes[i] != immMem.nodes[j]
    }

    /** The object is in order; whether every block of its tables can be read is another matter. */
    ghost predicate Sound()
      reads this, mem, mem.nodes, immMem, (if immMem == null then [] else immMem.nodes), ssts, wal
    {
      && mem.Valid() && (immMem != null ==> immMem.Valid()) && Apart()
      && AllOpen(ssts, tables) && wal.Valid()
    }

    ghost predicate Valid()
      reads this, mem, mem.nodes, immMem, (if immMem == null then [] else immMem.nodes), ssts, wal
    {
      Sound() && AllAnswer(ssts, tables)
    }

    /** The layers, as the protocol has them. */
    ghost function Layers(): Store
      requires Sound()
      reads this, mem, mem.nodes, immMem, (if immMem == null then [] else immMem.nodes), ssts, wal
    {
      Store(mem.Contents(), if immMem == null then None else Some(immMem.Contents()), tables, seqno)
    }

    /** Everything from the manifest and its tables; the log is replayed next. */
    constructor (syncOnWrite: bool, autoFlush: bool, blockSize: nat, crc: Checksum, ssts: seq<TC.Reader>,
                 ghost tables: seq<seq<Entry>>,
                 seqno: uint64, nextSSTID: uint64, wal: Wal.Writer,
                 ghost manifest: seq<VersionEdit>, version: V.Version)
      requires AllOpen(ssts, tables) && wal.Valid()
      ensures Sound() && Layers() == Store([], None, tables, seqno) && !closed && !flushFailed
      ensures this.ssts == ssts && this.tables == tables
      ensures this.syncOnWrite == syncOnWrite && this.autoFlush == autoFlush
      ensures this.blockSize == blockSize && this.crc == crc
      ensures fresh(mem) && fresh(mem.nodes) && this.wal == wal && this.nextSSTID == nextSSTID
      ensures this.manifest == manifest && this.version == version
    {
      this.syncOnWrite, this.autoFlush, this.blockSize, this.crc := syncOnWrite, autoFlush, blockSize, crc;
      this.manifest, this.version := manifest, version;
      this.ssts, this.tables, this.seqno, this.nextSSTID, this.wal := ssts, tables, seqno, nextSSTID, wal;
      closed, flushFailed, immMem := false, false, null;
      mem := new SkipList();
    }

    /** A log writer behind the records that recovery kept. */
    method OpenLog(f: Records.Format, kept: Bytes, ghost durable: nat)
      requires Sound() && f.Valid() && durable <= |kept|
      modifies this`wal
      ensures Sound() && Layers() == old(Layers()) && fresh(wal) && wal.format == f && wal.open && !wal.failed
      ensures wal.file == kept == wal.Appended() && wal.synced == durable
    {
      wal := new Wal.Writer(f, kept, durable);
    }

    /** The log's part of Open: replay, cut the torn tail off, and append behind what is left. */
    method RecoverLog(f: Records.Format, data: Bytes, ghost durable: nat) returns (r: Result<(), ReplayError>)
      requires Sound() && f.Valid() && seqno + |data| <= MAX_UINT64 && durable <= |data|
      modifies this`seqno, this`wal, mem, mem.nodes
      ensures Sound() && (r.Ok? <==> LogOpens(f, data)) && (r.Err? ==> wal == old(wal))
      ensures r.Ok? ==>
                && old(seqno) + |LogOps(f, data)| <= MAX_UINT64
                && Layers() == Applied(old(Layers()), LogOps(f, data))
                && wal.file == wal.Appended() == data[..Records.ReadLog(f, data).valid]
                && wal.synced == (if durable <= |wal.file| then durable else |wal.file|)
                && wal.format == f
    {
      hide AllAnswer, AllOpen, SkipList.Valid, SkipList.Contents, ApplyOps, LogOpens, LogOps, Records.ReadLog;
      var kept := ReplayWAL(f, data);
      if kept.Err? {
        return Err(kept.error);
      }
      OpenLog(f, kept.value, if durable <= |kept.value| then durable else |kept.value|);
      r := Ok(());
    }

    /** One operation; the tower height is whatever the random source gives. */
    method ApplyOne(op: B.Operation)
      requires Sound() && seqno < MAX_UINT64
      modifies this`seqno, mem, mem.nodes
      ensures Sound() && Layers() == Applied(old(Layers()), [op])
      ensures forall i :: 0 <= i < |mem.nodes| ==> mem.nodes[i] in old(mem.nodes) || fresh(mem.nodes[i])
    {
      hide AllOpen, SkipList.Valid, SkipList.Contents, Insert, ApplyOps;
      seqno := seqno + 1;
      var height :| 1 <= height <= mem.maxLevel;
      ApplySingle(old(Layers()), op);
      mem.Put(InternalKey(op.key, seqno, KindOf(op.opType)), op.value, height);
      assert mem == old(mem) && immMem == old(immMem);
      assert immMem != null ==> immMem.nodes == old(immMem.nodes);
      assert forall i :: 0 <= i < |mem.nodes| ==> mem.nodes[i] in old(mem.nodes) || fresh(mem.nodes[i]);
      assert immMem != null ==> immMem.Valid();
      assert Apart();
      assert wal.Valid();
    }

    /** applyOperations. */
    method ApplyOperations(ops: seq<B.Operation>)
      requires Sound() && seqno + |ops| <= MAX_UINT64
      modifies this`seqno, mem, mem.nodes
      ensures Sound() && Layers() == Applied(old(Layers()), ops) && (old(Valid()) ==> Valid())
      ensures seqno == old(seqno) + |ops|
      ensures forall i :: 0 <= i < |mem.nodes| ==> mem.nodes[i] in old(mem.nodes) || fresh(mem.nodes[i])
    {
      hide AllAnswer, AllOpen, SkipList.Valid, SkipList.Contents, ApplyOps;
      ghost var before := Layers();
      ApplyNothing(before);
      for i := 0 to |ops|
        invariant Sound() && before.seqno + |ops| <= MAX_UINT64 && seqno == before.seqno + i
        invariant mem == old(mem) && Layers() == Applied(before, ops[..i])
        invariant forall i :: 0 <= i < |mem.nodes| ==> mem.nodes[i] in old(mem.nodes) || fresh(mem.nodes[i])
      {
        ApplyMore(before, ops, i);
        ApplyOne(ops[i]);
      }
      assert ops[..|ops|] == ops;
    }

    /** What the layers say about a key; a table may fail to say. */
    ghost function Hit(key: Bytes): Result<Lookup, TableError>
      requires Sound()
      reads this, mem, mem.nodes, immMem, (if immMem == null then [] else immMem.nodes), ssts, wal
    {
      var first := ScanGet(mem.Contents(), key, seqno);
      var second := if first == Missing && immMem != null then ScanGet(immMem.Contents(), key, seqno) else first;
      if second == Missing then ReadTables(TablesOf(ssts), key, seqno) else Ok(second)
    }

    /** With every table readable, the first hit is the protocol's. */
    lemma {:induction false} HitIsFirst(key: Bytes)
      requires Valid()
      ensures Hit(key) == Ok(FirstHit(Layers(), key))
    {
      hide SkipList.Valid, SkipList.Contents, ReadTables, TablesOf, AllAnswer, AllOpen, SstHit;
      ReadableTables(ssts, tables, key, seqno);
    }

    /**
     * Get: the first layer that knows the key answers; a tombstone is an absent key, and a table that cannot be read
     * before one is found is an error.
     */
    method Get(key: Bytes) returns (r: Result<Bytes, DBError>)
      requires Sound()
      ensures r == Err(DBClosed) <==> closed
      ensures !closed ==>
                && (r.Ok? <==> Hit(key).Ok? && Hit(key).value.Present?)
                && (r.Ok? ==> Hit(key) == Ok(Present(r.value)))
                && (r == Err(KeyNotFound) <==> Hit(key) == Ok(Tombstone) || Hit(key) == Ok(Missing))
                && (r == Err(CorruptTable) <==> Hit(key).Err?)
      ensures Valid() && !closed ==>
                && (r.Ok? <==> FirstHit(Layers(), key).Present?) &&
                  (r.Ok? ==> FirstHit(Layers(), key) == Present(r.value))
                && (r == Err(KeyNotFound) <==> !FirstHit(Layers(), key).Present?)
    {
      hide SkipList.Valid, SkipList.Contents, ScanGet, ReadTables, TablesOf, AllAnswer, AllOpen, Apart, FirstHit,
           Layers;
      if closed {
        return Err(DBClosed);
      }
      if Valid() {
        HitIsFirst(key);
      }
      var hit := mem.Get(key, seqno);
      if hit == Missing && immMem != null {
        hit := immMem.Get(key, seqno);
      }
      if hit == Missing {
        var read := GetFromTables(key);
        if read.Err? {
          return Err(CorruptTable);
        }
        hit := read.value;
      }
      assert Hit(key) == Ok(hit);
      r := match hit case Present(v) => Ok(v) case _ => Err(KeyNotFound);
    }

    /** The loop of Get over the tables, newest first. */
    method GetFromTables(key: Bytes) returns (r: Result<Lookup, TableError>)
      requires AllOpen(ssts, tables)
      ensures r == ReadTables(TablesOf(ssts), key, seqno)
    {
      hide TR.TableGet;
      var i := |ssts|;
      ghost var ts := TablesOf(ssts);
      assert ts[..i] == ts;
      while i > 0
        invariant i <= |ssts| && ReadTables(ts, key, seqno) == ReadTables(ts[..i], key, seqno)
      {
        i := i - 1;
        assert ts[..i + 1][..i] == ts[..i];
        r := ssts[i].Get(key, seqno);
        if r.Err? || r.value != Missing {
          return r;
        }
      }
      r := Ok(Missing);
    }

    /**
     * Close, once the flusher is gone: readers first, then the log, which is flushed and synced. The object is closed
     * whatever goes wrong; success means that every appended byte is durable.
     */
    method Close(fault: Wal.SyncFault) returns (r: Result<(), DBError>)
      requires Sound()
      modifies this`closed, wal, ssts
      ensures closed && wal.Valid()
      ensures old(closed) <==> r == Err(DBClosed)
      ensures old(closed) ==>
                && wal.file == old(wal.file) && wal.buf == old(wal.buf) && wal.synced == old(wal.synced)
                && wal.open == old(wal.open)
      ensures !old(closed) ==> !wal.open && forall i :: 0 <= i < |ssts| ==> !ssts[i].open
      ensures !old(closed) ==> old(wal.file) <= wal.file <= old(wal.Appended()) && wal.synced >= old(wal.synced)
      ensures r.Ok? ==> old(wal.open) && !old(wal.failed) && fault.NoFault?
      ensures !old(closed) && old(wal.open) && !old(wal.failed) && fault.NoFault? ==>
                wal.file == old(wal.Appended()) && wal.synced == |wal.file|
    {
      hide SkipList.Valid, Apart, LinkedBetween;
      if closed {
        return Err(DBClosed);
      }
      closed := true;
      ghost var file, appended, synced := wal.file, wal.Appended(), wal.synced;
      var allClosed := true;
      for i := 0 to |ssts|
        invariant closed && forall j :: 0 <= j < i ==> !ssts[j].open
        invariant wal.Valid() && wal.file == file && wal.Appended() == appended && wal.synced == synced
        invariant wal.open == old(wal.open) && wal.failed == old(wal.failed) && wal.buf == old(wal.buf)
      {
        var ok := ssts[i].Close();
        allClosed := allClosed && ok;
      }
      var ended :=
        wal.Close(if fault.FlushFault? && fault.spilled > |wal.buf| then Wal.FlushFault(|wal.buf|) else fault);
      r := if allClosed && ended.Ok? then Ok(()) else Err(CloseFailed);
    }

    /** Installs a fresh memtable and freezes the old one. */
    method Rotate()
      requires Valid() && immMem == null
      modifies this`mem, this`immMem
      ensures Valid() && Layers() == P.Freeze(old(Layers()))
      ensures fresh(mem) && fresh(mem.nodes) && immMem == old(mem)
    {
      hide AllAnswer, AllOpen, SkipList.Valid, SkipList.Contents;
      immMem := mem;
      mem := new SkipList();
    }

    /**
     * Write, up to the point where it may have to wait. A record is in the log before it is durable, and durable
     * (when asked for) before it is visible; a write that fails to sync is not applied, yet its record stays.
     */
    method Write(ops: seq<B.Operation>, fault: Wal.SyncFault, overThreshold: bool) returns (r: WriteOutcome)
      requires Valid() && |ops| < 0x1_0000_0000 && seqno + |ops| <= MAX_UINT64
      modifies this`seqno, this`mem, this`immMem, mem, mem.nodes, wal
      ensures Valid() && wal.synced >= old(wal.synced)
      ensures closed ==> r == Refused(DBClosed)
      ensures !closed && flushFailed ==> r == Refused(FlushFailed)
      ensures !closed && !flushFailed && ops == [] ==> r == Done
      ensures !closed && !flushFailed && ops != [] ==>
                (r.Refused? <==>
                   !old(wal.open) || old(wal.failed) || !Loggable(ops) || (syncOnWrite && !fault.NoFault?))
      ensures r.Refused? || ops == [] ==> Layers() == old(Layers())
      ensures ops == [] ==> wal.Appended() == old(wal.Appended())
      ensures r.Refused? && r.error != SyncFailed ==> wal.Appended() == old(wal.Appended())
      ensures r == Refused(SyncFailed) ==> syncOnWrite && Logged(old(wal.Appended()), ops)
      ensures !r.Refused? && ops != [] ==>
                && Logged(old(wal.Appended()), ops) && (syncOnWrite ==> wal.synced == |wal.Appended()|)
                && Layers() == (if autoFlush && overThreshold && old(immMem) == null
                                then P.Freeze(Applied(old(Layers()), ops)) else Applied(old(Layers()), ops))
                && (r == Stalled <==> autoFlush && overThreshold && old(immMem) != null)
    {
      hide AllAnswer, AllOpen, SkipList.Valid, SkipList.Contents, Applied, B.EncodeBatch, Records.Record,
           Records.EncodeRecord;
      if closed {
        return Refused(DBClosed);
      }
      if flushFailed {
        return Refused(FlushFailed);
      }
      if ops == [] {
        return Done;
      }
      var failure := LogBatch(ops, fault);
      if failure.Some? {
        return Refused(failure.value);
      }
      ApplyOperations(ops);
      if !autoFlush || !overThreshold {
        return Done;
      }
      if immMem != null {
        return Stalled;
      }
      Rotate();
      r := Done;
    }

    /** A stalled Write that has been woken: it leaves, waits on, or rotates into the free slot. */
    method ResumeWrite() returns (r: WriteOutcome)
      requires Valid()
      modifies this`mem, this`immMem
      ensures Valid()
      ensures r == if closed then Refused(DBClosed) else if flushFailed then Refused(FlushFailed)
                   else if old(immMem) != null then Stalled else Done
      ensures Layers() == if r == Done then P.Freeze(old(Layers())) else old(Layers())
    {
      hide SkipList.Valid, SkipList.Contents;
      if closed {
        return Refused(DBClosed);
      }
      if flushFailed {
        return Refused(FlushFailed);
      }
      if immMem != null {
        return Stalled;
      }
      Rotate();
      r := Done;
    }

    /** The record goes into the log, and is durable before anything else happens if sync is on. */
    method LogBatch(ops: seq<B.Operation>, fault: Wal.SyncFault) returns (failure: Option<DBError>)
      requires wal.Valid() && |ops| < 0x1_0000_0000
      modifies wal
      ensures wal.Valid() && failure in [None, Some(AppendFailed), Some(SyncFailed)] && wal.synced >= old(wal.synced)
      ensures failure.Some? <==>
                !old(wal.open) || old(wal.failed) || !Loggable(ops) || (syncOnWrite && !fault.NoFault?)
      ensures failure == Some(AppendFailed) ==> wal.Appended() == old(wal.Appended())
      ensures failure != Some(AppendFailed) ==> Logged(old(wal.Appended()), ops)
      ensures failure == Some(SyncFailed) ==> syncOnWrite
      ensures failure == None && syncOnWrite ==> wal.synced == |wal.Appended()|
    {
      hide B.EncodeBatch, Records.Record, Records.EncodeRecord;
      var encoded := B.EncodeOperations(ops);
      var appended := wal.Append(encoded[..]);
      if appended.Err? {
        return Some(AppendFailed);
      }
      if syncOnWrite {
        var synced := SyncLog(fault);
        if !synced {
          return Some(SyncFailed);
        }
      }
      failure := None;
    }

    /** Sync under whatever fault the system has in store; a flush can spill no more than is buffered. */
    method SyncLog(fault: Wal.SyncFault) returns (ok: bool)
      requires wal.Valid()
      modifies wal
      ensures wal.Valid() && wal.Appended() == old(wal.Appended()) && wal.synced >= old(wal.synced)
      ensures ok ==> wal.synced == |wal.Appended()|
      ensures ok <==> old(wal.open) && !old(wal.failed) && fault.NoFault?
    {
      var r := wal.Sync(if fault.FlushFault? && fault.spilled > |wal.buf| then Wal.FlushFault(|wal.buf|) else fault);
      ok := r.Ok?;
    }

    /** The log takes a record of these operations. */
    ghost predicate Loggable(ops: seq<B.Operation>)
      requires |ops| < 0x1_0000_0000 && wal.format.Valid()
      reads this, wal
    {
      Records.EncodeRecord(wal.format, B.EncodeBatch(ops)).Ok?
    }

    /** The log grew by the record of these operations. */
    ghost predicate Logged(before: Bytes, ops: seq<B.Operation>)
      requires |ops| < 0x1_0000_0000 && wal.Valid()
      reads this, wal
    {
      wal.Appended() == before + Records.Record(wal.format, B.EncodeBatch(ops))
    }

    /** A reader on the table file of these entries has joined the open tables, as the newest. */
    ghost predicate NewTable(before: seq<TC.Reader>, es: seq<Entry>)
      reads this
    {
      && |ssts| == |before| + 1 && ssts[..|before|] == before
      && ssts[|before|].table.file == FileOf(crc, es, blockSize)
    }

    /**
     * One flush edit has been added to the manifest, with the size of the newest table, and folded into the version.
     */
    ghost predicate Recorded(before: seq<VersionEdit>, files: V.Files, id: uint64, es: seq<Entry>)
      requires es != [] && id < MAX_UINT64
      reads this, version
    {
      && ssts != []
      && var edit := P.FlushEdit(id, ToUint64(|ssts[|ssts| - 1].table.file|), es, seqno);
         manifest == before + [edit] && V.Applied(files, edit, version.files)
    }

    /**
     * publishFlushedSSTLocked: the edit becomes durable first, then memory follows. A failed append leaves memory
     * as it was; the caller records the failure.
     */
    method Publish(result: TableResult, appended: bool, ghost es: seq<Entry>) returns (ok: bool)
      requires Valid() && immMem != null && immMem.Contents() == es && es != [] && nextSSTID < MAX_UINT64
      requires result.reader.open && Answers(result.reader.table, es)
      requires result.smallest == es[0].key && result.largest == es[|es| - 1].key
      requires result.size == ToUint64(|result.reader.table.file|)
      modifies this`manifest, this`version, this`flushFailed, this`ssts, this`tables, this`immMem, this`nextSSTID
      ensures Valid() && ok == appended
      ensures !ok ==>
                && Layers() == old(Layers()) && manifest == old(manifest) && version == old(version)
                && nextSSTID == old(nextSSTID) && immMem == old(immMem) && flushFailed == old(flushFailed)
      ensures ok ==>
                && Layers() == old(Layers()).(imm := None, ssts := old(Layers()).ssts + [es])
                && Recorded(old(manifest), old(version.files), old(nextSSTID), es)
                && ssts == old(ssts) + [result.reader] && nextSSTID == old(nextSSTID) + 1 && !flushFailed
    {
      hide SkipList.Valid, SkipList.Contents, Answers, V.Applied, AllAnswer, AllOpen;
      AnswerMore(ssts, tables, result.reader, es);
      var edit := VersionEdit([FileMetadata(0, nextSSTID, result.size, result.smallest, result.largest)], [],
                              true, nextSSTID + 1, true, seqno, false, 0);
      if !appended {
        return false;
      }
      manifest := manifest + [edit];
      version := version.Apply(edit);
      flushFailed := false;
      ssts, tables := ssts + [result.reader], tables + [es];
      immMem := null;
      nextSSTID := nextSSTID + 1;
      ok := true;
      assert edit == P.FlushEdit(old(nextSSTID), result.size, es, seqno);
    }

    /**
     * Builds the table of the frozen memtable and publishes it. If either fails, the failure is recorded, the
     * memtable stays frozen, and the id stays free. An empty memtable always fails.
     */
    method FlushFrozen(fault: FlushFault, ghost es: seq<Entry>)
      requires Valid() && nextSSTID < MAX_UINT64 && immMem != null && immMem.Contents() == es
      requires es != [] ==> Writable(crc, es, blockSize)
      modifies this`manifest, this`version, this`flushFailed, this`ssts, this`tables, this`immMem, this`nextSSTID
      ensures Valid() && flushFailed == (!fault.Smooth? || es == [])
      ensures !fault.Smooth? || es == [] ==>
                && Layers() == old(Layers()) && manifest == old(manifest) && version == old(version)
                && nextSSTID == old(nextSSTID) && immMem == old(immMem)
      ensures fault.Smooth? && es != [] ==>
                && Layers() == old(Layers()).(imm := None, ssts := old(Layers()).ssts + [es])
                && Recorded(old(manifest), old(version.files), old(nextSSTID), es)
                && NewTable(old(ssts), es) && nextSSTID == old(nextSSTID) + 1
    {
      hide SkipList.Valid, SkipList.Contents, Answers, V.Applied, Writable, P.FlushEdit, Recorded, AllAnswer, AllOpen,
           FileOf;
      if fault.TableFails? {
        flushFailed := true;
        return;
      }
      var written := WriteSSTable(crc, blockSize, immMem, es);
      if written.Err? {
        flushFailed := true;
        return;
      }
      var ok := Publish(written.value, fault.Smooth?, es);
      flushFailed := !ok;
    }

    /**
     * flushMemtable with no flusher and no other caller in between: the memtable becomes the newest table, or the
     * failure is recorded with the memtable still frozen and readable; FlushChangesNoRead is about both outcomes.
     */
    method FlushMemtable(fault: FlushFault) returns (r: WriteOutcome)
      requires Valid() && nextSSTID < MAX_UINT64 && Writable(crc, mem.Contents(), blockSize)
      modifies this`mem, this`manifest, this`version, this`flushFailed, this`ssts, this`tables, this`immMem,
          this`nextSSTID
      ensures Valid() && (r == Done ==> mem.Contents() == [])
      ensures closed ==> r == Refused(DBClosed)
      ensures !closed && old(flushFailed) ==> r == Refused(FlushFailed)
      ensures !closed && !old(flushFailed) && old(mem.Contents()) == [] ==> r == Done
      ensures !closed && !old(flushFailed) && old(mem.Contents()) != [] && old(immMem) != null ==> r == Stalled
      ensures old(closed || flushFailed || mem.Contents() == [] || immMem != null) || !fault.Smooth? ==>
                manifest == old(manifest) && version == old(version) && nextSSTID == old(nextSSTID)
      ensures old(closed || flushFailed || mem.Contents() == [] || immMem != null) ==>
                Layers() == old(Layers()) && mem == old(mem) && immMem == old(immMem) && flushFailed == old(flushFailed)
      ensures !closed && !old(flushFailed) && old(mem.Contents()) != [] && old(immMem) == null ==>
                && r == (if fault.Smooth? then Done else Refused(FlushFailed)) && flushFailed == !fault.Smooth?
                && Layers() == (if fault.Smooth? then Flushed(old(Layers())) else P.Freeze(old(Layers())))
                && (fault.Smooth? ==>
                      && Recorded(old(manifest), old(version.files), old(nextSSTID), old(mem.Contents()))
                      && NewTable(old(ssts), old(mem.Contents())) && nextSSTID == old(nextSSTID) + 1)
    {
      hide SkipList.Valid, SkipList.Contents, Answers, V.Applied, Writable, P.FlushEdit, Recorded, NewTable;
      if closed {
        return Refused(DBClosed);
      }
      if flushFailed {
        return Refused(FlushFailed);
      }
      HoldsNothing(mem);
      if mem.length == 0 {
        return Done;
      }
      if immMem != null {
        return Stalled;
      }
      ghost var es := mem.Contents();
      Rotate();
      FlushFrozen(fault, es);
      r := if flushFailed then Refused(FlushFailed) else Done;
    }

    /**
     * flushMemtable with the flusher running, up to its wait: the memtable is handed over in the free slot, or the
     * call waits for the slot.
     */
    method HandOver() returns (r: WriteOutcome)
      requires Valid()
      modifies this`mem, this`immMem
      ensures Valid()
      ensures r == if closed then Refused(DBClosed) else if flushFailed then Refused(FlushFailed)
                   else if old(mem.Contents()) == [] then Done else Stalled
      ensures Layers() == if r == Stalled && old(immMem) == null then P.Freeze(old(Layers())) else old(Layers())
    {
      hide SkipList.Valid, SkipList.Contents;
      if closed {
        return Refused(DBClosed);
      }
      if flushFailed {
        return Refused(FlushFailed);
      }
      HoldsNothing(mem);
      if mem.length == 0 {
        return Done;
      }
      if immMem == null {
        Rotate();
      }
      r := Stalled;
    }

    /**
     * A Flush call that waited for the slot and has been woken: it leaves, waits on, hands over, or writes the table
     * itself. Whether there is still anything in the memtable it does not ask again.
     */
    method ResumeFlush(fault: FlushFault, background: bool) returns (r: WriteOutcome)
      requires Valid() && nextSSTID < MAX_UINT64 && (mem.Contents() != [] ==> Writable(crc, mem.Contents(), blockSize))
      modifies this`mem, this`manifest, this`version, this`flushFailed, this`ssts, this`tables, this`immMem,
          this`nextSSTID
      ensures Valid()
      ensures old(closed || flushFailed || immMem != null) ==>
                && r == (if closed then Refused(DBClosed) else if old(flushFailed) then Refused(FlushFailed)
                  else Stalled)
                && Layers() == old(Layers()) && flushFailed == old(flushFailed)
      ensures old(!closed && !flushFailed && immMem == null) && background ==>
                r == Stalled && Layers() == P.Freeze(old(Layers())) && !flushFailed
      ensures old(!closed && !flushFailed && immMem == null) && !background ==>
                && flushFailed == (!fault.Smooth? || old(mem.Contents()) == [])
                && r == (if flushFailed then Refused(FlushFailed) else Done)
                && Layers() == (if flushFailed then P.Freeze(old(Layers())) else Flushed(old(Layers())))
                && (!flushFailed ==>
                      && Recorded(old(manifest), old(version.files), old(nextSSTID), old(mem.Contents()))
                      && NewTable(old(ssts), old(mem.Contents())) && nextSSTID == old(nextSSTID) + 1)
      ensures old(closed || flushFailed || immMem != null) || background || flushFailed ==>
                manifest == old(manifest) && version == old(version) && nextSSTID == old(nextSSTID)
    {
      hide SkipList.Valid, SkipList.Contents, Answers, V.Applied, Writable, P.FlushEdit, Recorded, NewTable;
      if closed {
        return Refused(DBClosed);
      }
      if flushFailed {
        return Refused(FlushFailed);
      }
      if immMem != null {
        return Stalled;
      }
      ghost var es := mem.Contents();
      Rotate();
      if background {
        return Stalled;
      }
      FlushFrozen(fault, es);
      r := if flushFailed then Refused(FlushFailed) else Done;
    }

    /** A Flush call that handed its memtable over and has been woken. */
    method AwaitFlush() returns (r: WriteOutcome)
      ensures r == if flushFailed then Refused(FlushFailed) else if closed then Refused(DBClosed)
                   else if immMem != null then Stalled else Done
    {
      if flushFailed {
        return Refused(FlushFailed);
      }
      if closed {
        return Refused(DBClosed);
      }
      r := if immMem != null then Stalled else Done;
    }

    /** One pass of flushLoop over what it finds: an empty frozen memtable is dropped, any other is flushed. */
    method FlushLoopPass(fault: FlushFault, ghost es: seq<Entry>) returns (goOn: bool)
      requires Valid() && !flushFailed && nextSSTID < MAX_UINT64
      requires immMem != null ==> immMem.Contents() == es && Writable(crc, es, blockSize)
      modifies this`manifest, this`version, this`flushFailed, this`ssts, this`tables, this`immMem, this`nextSSTID
      ensures Valid() && goOn == (!closed && !flushFailed)
      ensures closed || old(immMem) == null || es == [] || !fault.Smooth? ==>
                manifest == old(manifest) && version == old(version) && nextSSTID == old(nextSSTID)
      ensures closed || old(immMem) == null ==> Layers() == old(Layers()) && immMem == old(immMem) && !flushFailed
      ensures !closed && old(immMem) != null && es == [] ==> Layers() == old(Layers()).(imm := None) && !flushFailed
      ensures !closed && old(immMem) != null && es != [] ==>
                && flushFailed == !fault.Smooth?
                && (!fault.Smooth? ==> Layers() == old(Layers()) && immMem == old(immMem))
                && (fault.Smooth? ==>
                      && Layers() == old(Layers()).(imm := None, ssts := old(Layers()).ssts + [es])
                      && Recorded(old(manifest), old(version.files), old(nextSSTID), es)
                      && NewTable(old(ssts), es) && nextSSTID == old(nextSSTID) + 1)
    {
      hide SkipList.Valid, SkipList.Contents, Answers, Writable, P.FlushEdit, Recorded, NewTable;
      if closed || immMem == null {
        return !closed;
      }
      HoldsNothing(immMem);
      if immMem.length == 0 {
        immMem := null;
        return true;
      }
      FlushFrozen(fault, es);
      goOn := !flushFailed;
    }

    /** The body of the replay loop: one payload, decoded and applied. */
    method ReplayRecord(payload: Bytes) returns (r: Result<P.Batch, B.BatchError>)
      requires Sound() && seqno + |payload| <= MAX_UINT64
      modifies this`seqno, mem, mem.nodes
      ensures Sound() && r == B.DecodeBatch(payload)
      ensures r.Ok? ==>
                && |r.value| <= |payload| && seqno == old(seqno) + |r.value|
                && Layers() == Applied(old(Layers()), r.value)
      ensures forall i :: 0 <= i < |mem.nodes| ==> mem.nodes[i] in old(mem.nodes) || fresh(mem.nodes[i])
    {
      hide Sound, SkipList.Contents, Applied, B.DecodeBatch;
      r := B.Decode(payload);
      if r.Ok? {
        BatchIsShort(payload);
        ApplyOperations(r.value);
      }
    }

    /**
     * replayWAL: every whole record of the log, decoded and applied on top of what the tables hold. It succeeds on
     * exactly the logs that end cleanly or in a torn record and whose payloads are batches, and gives back the part
     * of the file to keep.
     */
    method ReplayWAL(f: Records.Format, data: Bytes) returns (r: Result<Bytes, ReplayError>)
      requires Sound() && f.Valid() && seqno + |data| <= MAX_UINT64
      modifies this`seqno, mem, mem.nodes
      ensures Sound()
      ensures r.Ok? <==> LogOpens(f, data)
      ensures r == Err(CorruptLog) ==> Records.ReadLog(f, data).end.Bad?
      ensures r.Err? && r.error.BadBatch? ==> D.DecodeBatches(Records.ReadLog(f, data).payloads).None?
      ensures r.Ok? ==>
                && r.value == data[..Records.ReadLog(f, data).valid]
                && old(seqno) + |LogOps(f, data)| <= MAX_UINT64
                && Layers() == Applied(old(Layers()), LogOps(f, data))
    {
      hide Sound, SkipList.Contents, Applied, B.DecodeBatch, Records.NextRecord, Records.ReadLog, Concat, LogOpens,
           LogOps, ReadUpTo;
      var reader := new Wal.Reader(f, data);
      ghost var before, batches := Layers(), [];
      ReadNothing(f, data);
      ApplyNothing(before);
      assert before.seqno == seqno && Layers() == Applied(before, Concat(batches));
      hide Layers;
      while true
        invariant Sound() && mem == old(mem) && reader.AtBoundary() && reader.format == f && reader.data == data &&
            fresh(reader)
        invariant forall i :: 0 <= i < |mem.nodes| ==> mem.nodes[i] in old(mem.nodes) || fresh(mem.nodes[i])
        invariant ReadUpTo(f, data, reader.pos, batches)
        invariant seqno == before.seqno + |Concat(batches)| && seqno + (|data| - reader.pos) <= MAX_UINT64
        invariant Layers() == Applied(before, Concat(batches))
        decreases |data| - reader.pos
      {
        ghost var pos := reader.pos;
        var next := reader.Next();
        match next
        case Err(e) =>
          StopsHere(f, data, pos, batches);
          return if e.BadRecord? then Err(CorruptLog) else Ok(data[..reader.pos]);
        case Ok(payload) =>
          GoesOn(f, data, pos, batches);
          var batch := ReplayRecord(payload);
          if batch.Err? {
            return Err(BadBatch(batch.error));
          }
          ConcatMore(before, batches, batch.value);
          batches := batches + [batch.value];
      }
    }
  }

  datatype ReplayError = CorruptLog | BadBatch(error: B.BatchError)

  function Concat(batches: seq<P.Batch>): seq<B.Operation> {
    if batches == [] then [] else Concat(batches[..|batches| - 1]) + batches[|batches| - 1]
  }

  /** The records before pos are batches, and have been read. */
  ghost predicate ReadUpTo(f: Records.Format, data: Bytes, pos: nat, batches: seq<P.Batch>)
    requires f.Valid()
  {
    && pos <= |data|
    && exists done :: D.DecodeBatches(done) == Some(batches) &&
        Records.ReadLog(f, data) == Wal.Plus(done, pos, Records.ReadLog(f, data[pos..]))
  }

  lemma {:induction false} ReadNothing(f: Records.Format, data: Bytes)
    requires f.Valid()
    ensures ReadUpTo(f, data, 0, []) && Concat([]) == []
  {
    hide Records.ReadLog;
    assert data[0..] == data && D.DecodeBatches([]) == Some([]);
    Wal.ScanPlusNothing(Records.ReadLog(f, data));
  }

  /** The last look at a log. */
  lemma {:induction false} StopsHere(f: Records.Format, data: Bytes, pos: nat, batches: seq<P.Batch>)
    requires f.Valid() && ReadUpTo(f, data, pos, batches) && !Records.NextRecord(f, data[pos..]).Rec?
    ensures LogOpens(f, data) <==> !Records.NextRecord(f, data[pos..]).Bad?
    ensures Records.ReadLog(f, data).end == Records.NextRecord(f, data[pos..])
    ensures LogOpens(f, data) ==> Records.ReadLog(f, data).valid == pos && LogOps(f, data) == Concat(batches)
  {
    hide Records.NextRecord, D.DecodeBatches, Concat;
    var done :| D.DecodeBatches(done) == Some(batches) &&
                Records.ReadLog(f, data) == Wal.Plus(done, pos, Records.ReadLog(f, data[pos..]));
    Wal.PlusEnd(done, pos, Records.NextRecord(f, data[pos..]));
  }

  /** One more record; when it is no batch, the log does not open whatever follows. */
  lemma {:induction false} GoesOn(f: Records.Format, data: Bytes, pos: nat, batches: seq<P.Batch>)
    requires f.Valid() && ReadUpTo(f, data, pos, batches) && Records.NextRecord(f, data[pos..]).Rec?
    ensures var payload := Records.NextRecord(f, data[pos..]).payload;
            var batch := B.DecodeBatch(payload);
            if batch.Ok? then ReadUpTo(f, data, pos + Records.HEADER_SIZE + |payload|, batches + [batch.value])
            else !LogOpens(f, data) && D.DecodeBatches(Records.ReadLog(f, data).payloads).None?
  {
    hide Records.NextRecord, D.DecodeBatches, B.DecodeBatch, Concat;
    var done :| D.DecodeBatches(done) == Some(batches) &&
                Records.ReadLog(f, data) == Wal.Plus(done, pos, Records.ReadLog(f, data[pos..]));
    var payload := Records.NextRecord(f, data[pos..]).payload;
    var size := Records.HEADER_SIZE + |payload|;
    Records.ReadRecord(f, data[pos..]);
    Records.RestAfter(f, data, pos);
    hide Records.ReadLog;
    var more := Records.ReadLog(f, data[pos + size..]);
    Wal.PlusPlus(done, pos, [payload], size, more);
    DecodeMore(done, payload, more.payloads);
    assert done + [payload] + more.payloads == done + ([payload] + more.payloads);
  }

  lemma {:induction false} DecodePrefix(a: seq<Bytes>, b: seq<Bytes>)
    requires D.DecodeBatches(a).None?
    ensures D.DecodeBatches(a + b).None?
    decreases b
  {
    hide B.DecodeBatch;
    if b == [] {
      assert a + b == a;
    } else {
      assert (a + b)[..|a + b| - 1] == a + b[..|b| - 1];
      DecodePrefix(a, b[..|b| - 1]);
    }
  }

  /** One more payload; when it is no batch, the whole log does not decode whatever follows. */
  lemma {:induction false} DecodeMore(done: seq<Bytes>, payload: Bytes, rest: seq<Bytes>)
    requires D.DecodeBatches(done).Some?
    ensures B.DecodeBatch(payload).Ok? ==>
              D.DecodeBatches(done + [payload]) == Some(D.DecodeBatches(done).value + [B.DecodeBatch(payload).value])
    ensures B.DecodeBatch(payload).Err? ==> D.DecodeBatches(done + ([payload] + rest)).None?
  {
    hide B.DecodeBatch;
    assert (done + [payload])[..|done|] == done;
    if B.DecodeBatch(payload).Err? {
      DecodePrefix(done + [payload], rest);
      assert done + [payload] + rest == done + ([payload] + rest);
    }
  }

  lemma {:induction false} DecodeBatchesIff(payloads: seq<Bytes>)
    ensures D.DecodeBatches(payloads).Some? <==> forall i :: 0 <= i < |payloads| ==> B.DecodeBatch(payloads[i]).Ok?
  {
    hide B.DecodeBatch;
    if payloads != [] {
      DecodeBatchesIff(payloads[..|payloads| - 1]);
    }
  }

  /**
   * Exactly the logs that replay: whole records that are batches, then nothing or a write that did not get through.
   */
  lemma {:induction false} LogOpensIff(f: Records.Format, log: Bytes)
    requires f.Valid()
    ensures var scan := Records.ReadLog(f, log);
            var tail := log[scan.valid..];
            LogOpens(f, log) <==>
              && (tail == [] || Records.TornTail(f, tail))
              && forall i :: 0 <= i < |scan.payloads| ==> B.DecodeBatch(scan.payloads[i]).Ok?
  {
    hide Records.NextRecord, Records.ReadLog, Records.TornTail, B.DecodeBatch;
    var scan := Records.ReadLog(f, log);
    Records.TailDecides(f, log);
    Records.StopsIff(f, log[scan.valid..]);
    DecodeBatchesIff(scan.payloads);
  }

  /** A log with a damaged record anywhere is refused, however many good records stand before and behind it. */
  lemma {:induction false} DamagedLogIsRefused(f: Records.Format, before: seq<Bytes>, payload: Bytes, other: Bytes,
                                               rest: Bytes)
    requires f.Valid() && Records.AllAllowed(f, before) && Records.Allowed(f, payload)
    requires |other| == |payload| && f.crc(other) != f.crc(payload)
    ensures !LogOpens(f, Records.EncodeAll(f, before) + (Records.Header(f, payload) + other + rest))
  {
    hide Records.ReadLog, Records.Header, Records.EncodeAll;
    Records.DamagedRecordIsError(f, before, payload, other, rest);
  }

  lemma {:induction false} OpsAreLong(ops: seq<B.Operation>)
    ensures |ops| <= |B.EncodeOps(ops)|
  {
    if ops != [] {
      OpsAreLong(ops[1..]);
    }
  }

  /** A payload holds no more operations than bytes. */
  lemma {:induction false} BatchIsShort(payload: Bytes)
    requires B.DecodeBatch(payload).Ok?
    ensures |B.DecodeBatch(payload).value| <= |payload|
  {
    B.DecodeBatchCanonical(payload);
    OpsAreLong(B.DecodeBatch(payload).value);
  }

  lemma {:induction false} ConcatMore(s: Store, batches: seq<P.Batch>, batch: P.Batch)
    requires s.seqno + |Concat(batches)| + |batch| <= MAX_UINT64
    ensures Concat(batches + [batch]) == Concat(batches) + batch
    ensures Applied(Applied(s, Concat(batches)), batch) == Applied(s, Concat(batches + [batch]))
  {
    hide Applied;
    AppliedConcat(s, Concat(batches), batch);
    assert (batches + [batch])[..|batches|] == batches;
  }

  /** What a flush does to the layers, whichever way it ends, changes no read and loses no entry. */
  lemma {:induction false} FlushChangesNoRead(s: Store, key: Bytes)
    requires Layered(s) && s.imm.None?
    ensures forall after :: after == Flushed(s) || after == P.Freeze(s) ==>
              Layered(after) && FirstHit(after, key) == FirstHit(s, key) && multiset(Union(after)) == multiset(Union(s))
  {
    hide Layered, FirstHit, Union;
    FreezeKeeps(s);
    PublishKeeps(P.Freeze(s));
  }

  // ----- Open, from the bytes on disk

  datatype OpenError = BadManifest(error: MR.ReplayError) | BadTable | BadLog(log: ReplayError)

  /** What a directory holds. No CURRENT means a directory that was never set up. */
  datatype Directory = Directory(current: Option<Bytes>, files: map<uint64, Bytes>, log: Bytes)

  predicate TableOpens(crc: Checksum, files: map<uint64, Bytes>, id: uint64) {
    id in files && TR.OpenTable(crc, files[id]).Ok?
  }

  /** contents says what these tables hold, as far as they open. */
  ghost predicate Describes(crc: Checksum, files: map<uint64, Bytes>, contents: map<uint64, seq<Entry>>,
                            fs: seq<FileMetadata>) {
    forall f :: f in fs && TableOpens(crc, files, f.fileID) ==>
      f.fileID in contents && Answers(TR.OpenTable(crc, files[f.fileID]).value, contents[f.fileID])
  }

  function ContentsOf(contents: map<uint64, seq<Entry>>, fs: seq<FileMetadata>): (r: seq<seq<Entry>>)
    ensures |r| == |fs| && forall i :: 0 <= i < |r| && fs[i].fileID in contents ==> r[i] == contents[fs[i].fileID]
  {
    seq(|fs|, i requires 0 <= i < |fs| => if fs[i].fileID in contents then contents[fs[i].fileID] else [])
  }

  /** These readers are open on the tables of these files, in their order. */
  ghost predicate ReadersFor(crc: Checksum, files: map<uint64, Bytes>, fs: seq<FileMetadata>, readers: seq<TC.Reader>)
    reads readers
  {
    |readers| == |fs| && forall i :: 0 <= i < |fs| ==>
      readers[i].open && TableOpens(crc, files, fs[i].fileID) &&
      readers[i].table == TR.OpenTable(crc, files[fs[i].fileID]).value
  }

  /** openSSTReadersForVersion: a reader for every file of the version, in its order, or none at all. */
  method OpenReaders(crc: Checksum, files: map<uint64, Bytes>, fs: seq<FileMetadata>)
    returns (r: Option<seq<TC.Reader>>)
    ensures r.Some? <==> forall f :: f in fs ==> TableOpens(crc, files, f.fileID)
    ensures r.Some? ==> ReadersFor(crc, files, fs, r.value)
  {
    hide TR.OpenTable;
    var readers: seq<TC.Reader> := [];
    for i := 0 to |fs|
      invariant forall k :: 0 <= k < i ==> TableOpens(crc, files, fs[k].fileID)
      invariant ReadersFor(crc, files, fs[..i], readers)
    {
      var id := fs[i].fileID;
      if id !in files {
        assert !TableOpens(crc, files, fs[i].fileID);
        return None;
      }
      var reader := TC.OpenReader(crc, files[id]);
      if reader.Err? {
        assert !TableOpens(crc, files, fs[i].fileID);
        return None;
      }
      readers := readers + [reader.value];
    }
    assert fs[..|fs|] == fs;
    r := Some(readers);
  }

  /** Where contents describes the tables, their readers answer as it says. */
  lemma {:induction false} DescribedAnswer(crc: Checksum, files: map<uint64, Bytes>, fs: seq<FileMetadata>,
                                           readers: seq<TC.Reader>, contents: map<uint64, seq<Entry>>)
    requires ReadersFor(crc, files, fs, readers)
    ensures AllOpen(readers, ContentsOf(contents, fs))
    ensures Describes(crc, files, contents, fs) ==> AllAnswer(readers, ContentsOf(contents, fs))
  {
    hide Answers, TR.OpenTable;
  }

  /** The edits of a manifest; those of a directory without one are what bootstrap writes. */
  function EditsOf(f: Records.Format, current: Option<Bytes>): seq<VersionEdit>
    requires f.Valid()
  {
    match current
    case None => [P.BOOTSTRAP]
    case Some(data) =>
      var edits := MR.DecodeEdits(Records.ReadLog(f, data).payloads);
      if edits.None? then [] else edits.value
  }

  predicate ManifestOpens(f: Records.Format, current: Option<Bytes>)
    requires f.Valid()
  {
    current.None? || MR.Replayable(f, current.value)
  }

  /** openManifest: the version and counters of the manifest, or of a fresh one. */
  method OpenManifest(f: Records.Format, current: Option<Bytes>)
    returns (r: Result<(V.Version, MR.Counters), MR.ReplayError>, ghost versions: seq<V.Files>)
    requires f.Valid()
    ensures r.Ok? <==> ManifestOpens(f, current)
    ensures r.Ok? ==> var edits := EditsOf(f, current);
                      && V.History(edits, versions) && r.value.0.files == versions[|edits|]
                      && r.value.1 == MR.CountersOf(edits)
  {
    hide V.Applied, Records.ReadLog, MR.DecodeEdits, MR.LiveOf;
    match current
    case None =>
      var empty := new V.Version();
      var version := empty.Apply(P.BOOTSTRAP);
      versions := [[], version.files];
      assert [P.BOOTSTRAP][..0] == [];
      assert MR.CountersOf([]) == MR.Counters(0, 0, 0, false);
      r := Ok((version, MR.Counters(1, 0, 0, true)));
    case Some(data) =>
      var replayed, vs := MR.ReplayManifestStream(f, data);
      versions := vs;
      if replayed.Err? {
        return Err(replayed.error), versions;
      }
      r := Ok((replayed.value.version, replayed.value.counters));
  }

  predicate Referenced(fs: seq<FileMetadata>, id: uint64) {
    exists f :: f in fs && f.fileID == id
  }

  /**
   * cleanupOrphanSSTables: removes exactly the table files that the version does not name; every 64-bit id fits a
   * canonical name.
   */
  method CleanupOrphans(files: map<uint64, Bytes>, fs: seq<FileMetadata>) returns (kept: map<uint64, Bytes>)
    ensures forall id :: id in kept <==> id in files && exists f :: f in fs && f.fileID == id
    ensures forall id :: id in kept ==> kept[id] == files[id]
  {
    var referenced: set<uint64> := {};
    for i := 0 to |fs|
      invariant forall id :: id in referenced <==> Referenced(fs[..i], id)
    {
      assert fs[..i + 1] == fs[..i] + [fs[i]];
      forall id ensures id in referenced + {fs[i].fileID} <==> Referenced(fs[..i + 1], id) {
      }
      referenced := referenced + {fs[i].fileID};
    }
    assert fs[..|fs|] == fs;
    kept := files;
    var ids := files.Keys;
    while ids != {}
      invariant ids <= files.Keys && kept.Keys <= files.Keys
      invariant forall id :: id in kept ==> kept[id] == files[id]
      invariant forall id :: id in files && id in ids ==> id in kept
      invariant forall id :: id in files && id !in ids ==> (id in kept <==> Referenced(fs, id))
    {
      var id :| id in ids;
      ids := ids - {id};
      if id !in referenced {
        kept := map k | k in kept && k != id :: kept[k];
      }
    }
  }

  /** Cleanup leaves every table that Open needs as it was. */
  lemma {:induction false} CleanedOpens(crc: Checksum, files: map<uint64, Bytes>, kept: map<uint64, Bytes>,
                                        fs: seq<FileMetadata>)
    requires forall id :: id in kept <==> id in files && exists f :: f in fs && f.fileID == id
    requires forall id :: id in kept ==> kept[id] == files[id]
    ensures forall f :: f in fs ==> (TableOpens(crc, kept, f.fileID) <==> TableOpens(crc, files, f.fileID))
  {
    hide TR.OpenTable;
    forall f | f in fs ensures TableOpens(crc, kept, f.fileID) <==> TableOpens(crc, files, f.fileID) {
    }
  }

  lemma {:induction false} SameReaders(crc: Checksum, files: map<uint64, Bytes>, kept: map<uint64, Bytes>,
                                       fs: seq<FileMetadata>, readers: seq<TC.Reader>)
    requires ReadersFor(crc, kept, fs, readers) && forall id :: id in kept ==> id in files && kept[id] == files[id]
    ensures ReadersFor(crc, files, fs, readers)
  {
    hide TR.OpenTable;
  }

  /** The tables of the version that the manifest folds to. */
  ghost function VersionFiles(crc: Checksum, current: Option<Bytes>, versions: seq<V.Files>): seq<FileMetadata> {
    var n := |EditsOf(Records.ManifestFormat(crc), current)|;
    if n < |versions| then V.Flat(versions[n]) else []
  }

  /**
   * What an Open that succeeds leaves: readers for the tables in version order, the whole log on top, and the log's
   * valid prefix to append to. The layers are those of the contents given for the tables; where these describe what
   * the tables answer, reads show the layers.
   */
  ghost predicate Opened(db: DB, crc: Checksum, dir: Directory, contents: map<uint64, seq<Entry>>,
                         versions: seq<V.Files>, durable: nat)
    reads db, db.mem, db.mem.nodes, db.immMem, (if db.immMem == null then [] else db.immMem.nodes), db.ssts, db.wal
  {
    var edits := EditsOf(Records.ManifestFormat(crc), dir.current);
    var c := MR.CountersOf(edits);
    var scan := Records.ReadLog(Records.WalFormat(crc), dir.log);
    && db.Sound() && ReadersFor(crc, dir.files, VersionFiles(crc, dir.current, versions), db.ssts)
    && (Describes(crc, dir.files, contents, VersionFiles(crc, dir.current, versions)) ==> db.Valid())
    && db.manifest == edits && !db.closed && !db.flushFailed && db.nextSSTID == c.nextFileID
    && LogOpens(Records.WalFormat(crc), dir.log)
    && var ops := LogOps(Records.WalFormat(crc), dir.log);
    && c.lastSequence + |ops| <= MAX_UINT64
    && db.Layers()
       == Applied(Store([], None, ContentsOf(contents, VersionFiles(crc, dir.current, versions)), c.lastSequence), ops)
    && db.wal.format == Records.WalFormat(crc) && db.wal.file == db.wal.Appended() == dir.log[..scan.valid]
    && db.wal.synced == (if durable <= scan.valid then durable else scan.valid)
  }

  /**
   * Open succeeds on exactly the directories whose manifest replays, whose named tables all open, and whose log
   * replays. Nothing becomes durable by it: as much of the log is as was before.
   */
  method OpenDB(syncOnWrite: bool, autoFlush: bool, blockSize: nat, crc: Checksum, dir: Directory,
                ghost durable: nat, ghost contents: map<uint64, seq<Entry>>)
    returns (r: Result<DB, OpenError>, files: map<uint64, Bytes>, ghost versions: seq<V.Files>)
    requires durable <= |dir.log|
    requires MR.CountersOf(EditsOf(Records.ManifestFormat(crc), dir.current)).lastSequence + |dir.log| <= MAX_UINT64
    ensures ManifestOpens(Records.ManifestFormat(crc), dir.current) ==>
              V.History(EditsOf(Records.ManifestFormat(crc), dir.current), versions)
    ensures r.Ok? <==>
              && ManifestOpens(Records.ManifestFormat(crc), dir.current) && LogOpens(Records.WalFormat(crc), dir.log)
              && forall f :: f in VersionFiles(crc, dir.current, versions) ==> TableOpens(crc, dir.files, f.fileID)
    ensures r.Err? ==> r.error.BadManifest? == !ManifestOpens(Records.ManifestFormat(crc), dir.current)
    ensures r.Err? && r.error.BadLog? ==> !LogOpens(Records.WalFormat(crc), dir.log)
    ensures r.Err? && r.error.BadTable? ==>
              exists f :: f in VersionFiles(crc, dir.current, versions) && !TableOpens(crc, dir.files, f.fileID)
    ensures forall id :: id in files ==> id in dir.files && files[id] == dir.files[id]
    ensures forall id :: id in dir.files && id !in files ==>
              && ManifestOpens(Records.ManifestFormat(crc), dir.current) && dir.current.Some?
              && forall f :: f in VersionFiles(crc, dir.current, versions) ==> f.fileID != id
    ensures r.Ok? && dir.current.Some? ==> forall id :: id in files ==>
              exists f :: f in VersionFiles(crc, dir.current, versions) && f.fileID == id
    ensures r.Ok? ==> fresh(r.value) && Opened(r.value, crc, dir, contents, versions, durable)
    ensures r.Ok? ==> r.value.syncOnWrite == syncOnWrite && r.value.autoFlush == autoFlush
    ensures r.Ok? ==> r.value.blockSize == blockSize && r.value.crc == crc
  {
    hide V.Applied, V.History, Records.ReadLog, EditsOf, ManifestOpens, TableOpens, Referenced, Answers,
         D.DecodeBatches, Concat, ApplyOps, SkipList.Valid, SkipList.Contents, MR.CountersOf, V.Flat, AllAnswer,
         AllOpen, ReadersFor, ContentsOf, Describes, Records.WalFormat, Records.ManifestFormat, LogOps, LogOpens,
         Applied, Opened;
    var manifest, vs := OpenManifest(Records.ManifestFormat(crc), dir.current);
    versions := vs;
    if manifest.Err? {
      return Err(BadManifest(manifest.error)), dir.files, versions;
    }
    MR.HistoryLength(EditsOf(Records.ManifestFormat(crc), dir.current), versions);
    var (version, counters) := manifest.value;
    var all := version.AllFiles();
    files := dir.files;
    if dir.current.Some? {
      files := CleanupOrphans(dir.files, all);
      CleanedOpens(crc, dir.files, files, all);
    }
    var readers := OpenReaders(crc, files, all);
    if readers.None? {
      return Err(BadTable), files, versions;
    }
    SameReaders(crc, dir.files, files, all, readers.value);
    var db := StartDB(syncOnWrite, autoFlush, blockSize, crc, dir, durable, contents, version, counters, versions,
                      readers.value);
    r := if db.Err? then Err(BadLog(db.error)) else Ok(db.value);
  }

  /** The last part of Open: the object on its tables, then the log on top. */
  method StartDB(syncOnWrite: bool, autoFlush: bool, blockSize: nat, crc: Checksum, dir: Directory,
                 ghost durable: nat, ghost contents: map<uint64, seq<Entry>>, version: V.Version,
                 counters: MR.Counters, ghost versions: seq<V.Files>, readers: seq<TC.Reader>)
    returns (r: Result<DB, ReplayError>)
    requires durable <= |dir.log| && counters.lastSequence + |dir.log| <= MAX_UINT64
    requires counters == MR.CountersOf(EditsOf(Records.ManifestFormat(crc), dir.current))
    requires ReadersFor(crc, dir.files, VersionFiles(crc, dir.current, versions), readers)
    ensures r.Ok? <==> LogOpens(Records.WalFormat(crc), dir.log)
    ensures r.Ok? ==> fresh(r.value) && Opened(r.value, crc, dir, contents, versions, durable)
    ensures r.Ok? ==> r.value.syncOnWrite == syncOnWrite && r.value.autoFlush == autoFlush
    ensures r.Ok? ==> r.value.blockSize == blockSize && r.value.crc == crc
  {
    hide Records.ReadLog, EditsOf, MR.CountersOf, VersionFiles, AllAnswer, AllOpen, DB.Sound, ReadersFor, ContentsOf,
         Describes, Records.WalFormat, Records.ManifestFormat, LogOps, LogOpens, Applied;
    ghost var fs := VersionFiles(crc, dir.current, versions);
    DescribedAnswer(crc, dir.files, fs, readers, contents);
    var stale := new Wal.Writer(Records.WalFormat(crc), [], 0);
    var db := new DB(syncOnWrite, autoFlush, blockSize, crc, readers, ContentsOf(contents, fs),
                     counters.lastSequence, counters.nextFileID, stale,
                     EditsOf(Records.ManifestFormat(crc), dir.current), version);
    var recovered := db.RecoverLog(Records.WalFormat(crc), dir.log, durable);
    if recovered.Err? {
      return Err(recovered.error);
    }
    r := Ok(db);
  }
}
