/** The database object and the state machine: each critical section does what a run of steps does. */
module EngineObject {
  import opened Basics
  import opened Runs
  import Records
  import Wal
  import B = Batches
  import D = DiskBytes
  import opened VersionEdits
  import V = Versions
  import TC = TableCursor
  import opened EngineStore
  import opened EngineProtocol
  import opened EngineTheorems
  import opened EngineScenarios
  import opened EngineDisk
  import opened EngineInvariant
  import opened ManifestReplay
  import opened EngineDB
  import opened EngineRecovery

  // ----- The runs

  /** A Write whose record is in the log and whose sync failed. */
  lemma {:induction false} UnsyncedRun(cfg: Config, d: Disk, l: Live, t: Tid, batch: Batch)
    requires Admitted(l, t) && batch != [] && cfg.sync
    ensures Run(cfg, Up(d, l), [Writer(t, Append(batch)), Writer(t, SyncFail)])
         == Some(Up(d.(log := d.log + [LogRec(batch, false, false)]), l))
  {
    hide Enabled, Take, LockFree, Without;
    var a, b := Append(batch), SyncFail;
    WriterSteps(cfg, d, l, t, a);
    var s1 := WriterTake(cfg, d, l, t, a);
    WriterSteps(cfg, s1.disk, s1.live, t, b);
    PlaceAndBack(l.agents, t, Agent(Appended(batch), false));
    RunTwo(cfg, Up(d, l), Writer(t, a), Writer(t, b));
  }

  lemma {:induction false} PlaceAndBack(agents: map<Tid, Agent>, t: Tid, a: Agent)
    requires t !in agents
    ensures Without(agents[t := a], t) == agents
  {
  }

  /** What a Write that is applied does to the disk and to memory; last says how it ends. */
  ghost predicate WroteTo(cfg: Config, d: Disk, l: Live, t: Tid, batch: Batch, last: WriterStep, s: State)
    requires l.store.seqno + |batch| <= MAX_UINT64
  {
    && s.Up? && s.live == l.(store := s.live.store, agents := s.live.agents)
    && s.disk == d.(log := d.log + [LogRec(batch, true, !last.ApplyStall?)], logSynced := s.disk.logSynced,
                    logWritten := s.disk.logWritten)
    && s.disk.logSynced == (if cfg.sync then |d.log| + 1 else d.logSynced)
    && s.live.store == (if last.ApplyRotate? then Freeze(Applied(l.store, batch)) else Applied(l.store, batch))
    && LockFree(s.live.agents)
    && (t in s.live.agents <==> last.ApplyStall?)
    && (last.ApplyStall? ==> s.live.agents[t] == Agent(WriterStalled(batch, |d.log|), true))
  }

  lemma {:induction false} AppliedRun(cfg: Config, d: Disk, l: Live, t: Tid, batch: Batch, last: WriterStep)
    requires Admitted(l, t) && batch != [] && l.store.seqno + |batch| <= MAX_UINT64
    requires last.Apply? || (last.ApplyRotate? && cfg.auto && l.store.imm.None? && CanSignal(l.agents, last.wake))
          || (last.ApplyStall? && cfg.auto && l.store.imm.Some?)
    ensures var r := Run(cfg, Up(d, l), [Writer(t, Append(batch)), Writer(t, SyncOk), Writer(t, last)]);
            r.Some? && WroteTo(cfg, d, l, t, batch, last, r.value)
  {
    hide Enabled, Take, ApplyOps;
    WriterSteps(cfg, d, l, t, Append(batch));
    var s1 := WriterTake(cfg, d, l, t, Append(batch));
    WriterSteps(cfg, s1.disk, s1.live, t, SyncOk);
    var s2 := WriterTake(cfg, s1.disk, s1.live, t, SyncOk);
    assert s2.live == l.(agents := l.agents[t := Agent(Synced(batch), false)]);
    LastStep(cfg, d, l, t, batch, last, s2);
    WriterSteps(cfg, s2.disk, s2.live, t, last);
    RunThree(cfg, Up(d, l), Writer(t, Append(batch)), Writer(t, SyncOk), Writer(t, last));
  }

  /** The last of the three steps. */
  lemma {:induction false} LastStep(cfg: Config, d: Disk, l: Live, t: Tid, batch: Batch, last: WriterStep, s: State)
    requires Admitted(l, t) && l.store.seqno + |batch| <= MAX_UINT64
    requires last.Apply? || (last.ApplyRotate? && cfg.auto && l.store.imm.None? && CanSignal(l.agents, last.wake))
          || (last.ApplyStall? && cfg.auto && l.store.imm.Some?)
    requires s.Up? && s.live == l.(agents := l.agents[t := Agent(Synced(batch), false)])
    requires s.disk == d.(log := d.log + [LogRec(batch, false, false)], logSynced := s.disk.logSynced,
                          logWritten := s.disk.logWritten)
    requires s.disk.logSynced == if cfg.sync then |d.log| + 1 else d.logSynced
    ensures WriterEnabled(cfg, s.disk, s.live, t, last)
    ensures WroteTo(cfg, d, l, t, batch, last, WriterTake(cfg, s.disk, s.live, t, last))
  {
    hide ApplyOps;
    assert MarkLast(s.disk, !last.ApplyStall?).log == d.log + [LogRec(batch, true, !last.ApplyStall?)];
  }

  // ----- Building and publishing a table

  /** The steps from the start of the file on, for each way a flush may go. */
  function Build(t: Tid, fault: FlushFault, size: uint64): seq<Step> {
    match fault
    case Smooth => [Table(t, FinishFile), Table(t, PublishAppend(size)), Table(t, PublishInstall)]
    case TableFails => [Table(t, FailFile(WriteFailure, false)), Table(t, ReportFailure)]
    case ManifestFails => [Table(t, FinishFile), Table(t, PublishFails(false, size))]
  }

  /** What a flush does: all of it or nothing but the recorded failure. */
  ghost predicate Built(d: Disk, l: Live, t: Tid, entries: seq<Entry>, fault: FlushFault, size: uint64, s: State)
    requires entries != [] && l.nextID < MAX_UINT64 && l.store.seqno <= MAX_UINT64
  {
    && s.Up? && s.disk.log == d.log && s.disk.logSynced == d.logSynced && s.live.closed == l.closed
    && LockFree(s.live.agents) && (t in s.live.agents ==> t == FLUSHER)
    && if fault.Smooth? then
         && s.disk.manifest == d.manifest + [FlushEdit(l.nextID, size, entries, l.store.seqno)]
         && s.live.store == l.store.(imm := None, ssts := l.store.ssts + [entries])
         && s.live.nextID == l.nextID + 1 && s.live.flushErr.None?
       else
         s.disk.manifest == d.manifest && s.live.store == l.store && s.live.nextID == l.nextID && s.live.flushErr.Some?
  }

  lemma {:induction false} BuildRun(cfg: Config, d: Disk, l: Live, t: Tid, fault: FlushFault, size: uint64)
    requires At(l, t) && l.agents[t].pc.Writing? && l.agents[t].pc.entries != [] && LockFree(l.agents)
    requires l.agents[t].pc.id == l.nextID < MAX_UINT64 && l.store.seqno <= MAX_UINT64
    ensures var r := Run(cfg, Up(d, l), Build(t, fault, size));
            r.Some? && Built(d, l, t, l.agents[t].pc.entries, fault, size, r.value)
  {
    hide Enabled, Take, FlushEdit;
    if fault.TableFails? {
      FailRun(cfg, d, l, t, size);
    } else {
      TableSteps(cfg, d, l, t, FinishFile);
      var s1 := TableTake(cfg, d, l, t, FinishFile);
      if fault.ManifestFails? {
        TableSteps(cfg, s1.disk, s1.live, t, PublishFails(false, size));
        RunTwo(cfg, Up(d, l), Table(t, FinishFile), Table(t, PublishFails(false, size)));
      } else {
        TableSteps(cfg, s1.disk, s1.live, t, PublishAppend(size));
        var s2 := TableTake(cfg, s1.disk, s1.live, t, PublishAppend(size));
        TableSteps(cfg, s2.disk, s2.live, t, PublishInstall);
        RunThree(cfg, Up(d, l), Table(t, FinishFile), Table(t, PublishAppend(size)), Table(t, PublishInstall));
      }
    }
  }

  lemma {:induction false} FailRun(cfg: Config, d: Disk, l: Live, t: Tid, size: uint64)
    requires At(l, t) && l.agents[t].pc.Writing? && l.agents[t].pc.entries != [] && LockFree(l.agents)
    requires l.agents[t].pc.id == l.nextID < MAX_UINT64 && l.store.seqno <= MAX_UINT64
    ensures var r := Run(cfg, Up(d, l), Build(t, TableFails, size));
            r.Some? && Built(d, l, t, l.agents[t].pc.entries, TableFails, size, r.value)
  {
    hide Enabled, Take, FlushEdit;
    var fail := FailFile(WriteFailure, false);
    TableSteps(cfg, d, l, t, fail);
    var s1 := TableTake(cfg, d, l, t, fail);
    TableSteps(cfg, s1.disk, s1.live, t, ReportFailure);
    RunTwo(cfg, Up(d, l), Table(t, fail), Table(t, ReportFailure));
  }

  // ----- The object

  /** What the records of a log are written as. */
  function Payloads(log: seq<LogRec>): (r: seq<Bytes>)
    requires forall i :: 0 <= i < |log| ==> |log[i].batch| < 0x1_0000_0000
    ensures |r| == |log|
  {
    D.BatchPayloads(BatchesOf(log))
  }

  /** These bytes are the records of this log, and the durable ones are within the first so many bytes. */
  ghost predicate LogHolds(f: Records.Format, log: seq<LogRec>, synced: nat, bytes: Bytes, durable: nat)
    requires f.Valid()
  {
    && HoldsRecords(f, bytes, log) && synced <= |log|
    && |Records.EncodeAll(f, Payloads(log[..synced]))| <= durable
  }

  /** The log writer holds the records of this log, the first of them durable. */
  ghost predicate LogIs(w: Wal.Writer, log: seq<LogRec>, synced: nat)
    reads w
  {
    w.Valid() && LogHolds(w.format, log, synced, w.Appended(), w.synced)
  }

  /** The object is in this state of the state machine. */
  ghost predicate Represents(cfg: Config, db: DB, d: Disk, l: Live)
    reads db, db.mem, db.mem.nodes, db.immMem, (if db.immMem == null then [] else db.immMem.nodes), db.ssts, db.wal
  {
    && db.Valid() && db.syncOnWrite == cfg.sync && db.autoFlush == cfg.auto
    && db.Layers() == l.store && db.nextSSTID == l.nextID && db.closed == l.closed
    && db.flushFailed == l.flushErr.Some?
    && db.manifest == d.manifest && LogIs(db.wal, d.log, d.logSynced)
  }

  lemma {:induction false} PayloadsMore(f: Records.Format, log: seq<LogRec>, r: LogRec)
    requires f.Valid() && |r.batch| < 0x1_0000_0000
    requires forall i :: 0 <= i < |log| ==> |log[i].batch| < 0x1_0000_0000
    ensures Records.EncodeAll(f, Payloads(log + [r]))
         == Records.EncodeAll(f, Payloads(log)) + Records.Record(f, B.EncodeBatch(r.batch))
  {
    hide B.EncodeBatch, Records.Record;
    var payload := B.EncodeBatch(r.batch);
    assert Payloads(log + [r]) == Payloads(log) + [payload];
    Records.EncodeAllConcat(f, Payloads(log), [payload]);
    Records.EncodeCons(f, payload, []);
    assert [payload] + [] == [payload];
    assert Records.Record(f, payload) + [] == Records.Record(f, payload);
  }

  /** Whatever a power loss leaves of the object's log file is what may remain of the state machine's log. */
  lemma {:induction false} LogSurvives(w: Wal.Writer, log: seq<LogRec>, synced: nat, image: Bytes)
    requires LogIs(w, log, synced) && w.MaySurvive(image)
    ensures D.MayRemain(w.format, Payloads(log), synced, image)
  {
    hide Records.EncodeAll;
    assert Payloads(log[..synced]) == Payloads(log)[..synced];
    D.WriterSurvivors(w, Payloads(log), synced, image);
  }

  lemma {:induction false} LogStays(w: Wal.Writer, log: seq<LogRec>, synced: nat, durable: nat)
    requires w.Valid() && LogHolds(w.format, log, synced, w.Appended(), durable) && w.synced >= durable
    ensures LogIs(w, log, synced)
  {
  }

  /** A record was appended; synced says how much is durable now. */
  lemma {:induction false} LogGrows(w: Wal.Writer, log: seq<LogRec>, synced: nat, before: Bytes, durable: nat,
                                    r: LogRec, synced': nat)
    requires w.Valid() && |r.batch| < 0x1_0000_0000 && w.synced >= durable
    requires LogHolds(w.format, log, synced, before, durable)
    requires w.Appended() == before + Records.Record(w.format, B.EncodeBatch(r.batch))
    requires synced' == synced || (synced' == |log| + 1 && w.synced == |w.Appended()|)
    ensures LogIs(w, log + [r], synced')
  {
    hide B.EncodeBatch, Records.Record, Records.EncodeAll;
    PayloadsMore(w.format, log, r);
    if synced' == synced {
      assert (log + [r])[..synced] == log[..synced];
    } else {
      assert (log + [r])[..synced'] == log + [r];
    }
  }

  /** The steps of a Write that ends this way; a batch that never reached the log takes none. */
  function WriteSteps(r: WriteOutcome, t: Tid, ops: seq<B.Operation>, rotated: bool, wake: Option<Tid>): seq<Step> {
    if ops == [] || (r.Refused? && r.error != SyncFailed) then []
    else if r.Refused? then [Writer(t, Append(ops)), Writer(t, SyncFail)]
    else [Writer(t, Append(ops)), Writer(t, SyncOk), Writer(t, Last(r, rotated, wake))]
  }

  function Last(r: WriteOutcome, rotated: bool, wake: Option<Tid>): WriterStep {
    if r.Stalled? then ApplyStall else if rotated then ApplyRotate(wake) else Apply
  }

  /** The record a Write leaves in the log, if any. */
  function LogAfter(log: seq<LogRec>, r: WriteOutcome, ops: seq<B.Operation>): seq<LogRec> {
    if ops == [] || (r.Refused? && r.error != SyncFailed) then log else log + [LogRec(ops, !r.Refused?, r == Done)]
  }

  /** Where the steps of a Write take the state machine. */
  ghost predicate Wrote(cfg: Config, d: Disk, l: Live, t: Tid, ops: seq<B.Operation>, r: WriteOutcome, rotated: bool,
                        s: State)
    requires l.store.seqno + |ops| <= MAX_UINT64
  {
    && s.Up? && LockFree(s.live.agents) && s.live == l.(store := s.live.store, agents := s.live.agents)
    && s.disk.log == LogAfter(d.log, r, ops) && s.disk.manifest == d.manifest
    && s.disk.logSynced == (if cfg.sync && !r.Refused? && ops != [] then |d.log| + 1 else d.logSynced)
    && s.live.store == (if r.Refused? || ops == [] then l.store
                        else if rotated && r == Done then Freeze(Applied(l.store, ops)) else Applied(l.store, ops))
    && (r.Refused? ==> s.live == l)
    && (r == Stalled ==> t in s.live.agents && s.live.agents[t] == Agent(WriterStalled(ops, |d.log|), true))
    && (r == Done ==> t !in s.live.agents)
  }

  lemma {:induction false} WriteRuns(cfg: Config, d: Disk, l: Live, t: Tid, ops: seq<B.Operation>, r: WriteOutcome,
                                     rotated: bool, wake: Option<Tid>)
    requires t != FLUSHER && t !in l.agents && LockFree(l.agents) && CanSignal(l.agents, wake)
    requires l.store.seqno + |ops| <= MAX_UINT64
    requires !r.Refused? || r.error == SyncFailed ==> !l.closed && l.flushErr.None?
    requires r == Refused(SyncFailed) ==> cfg.sync
    requires r == Stalled ==> cfg.auto && l.store.imm.Some? && ops != []
    requires rotated ==> cfg.auto && l.store.imm.None?
    ensures var run := Run(cfg, Up(d, l), WriteSteps(r, t, ops, rotated, wake));
            run.Some? && Wrote(cfg, d, l, t, ops, r, rotated, run.value)
  {
    hide Applied, LockFree, CanSignal, Run, Without;
    NoSteps(cfg, Up(d, l));
    if ops != [] && (r.Refused? ==> r.error == SyncFailed) {
      if r.Refused? {
        UnsyncedRun(cfg, d, l, t, ops);
      } else {
        AppliedRun(cfg, d, l, t, ops, Last(r, rotated, wake));
      }
    }
  }

  /** Write: whatever it meets, the object goes where its steps take the state machine. */
  method Write(cfg: Config, db: DB, ops: seq<B.Operation>, fault: Wal.SyncFault, overThreshold: bool,
               ghost d: Disk, ghost l: Live, ghost t: Tid, ghost wake: Option<Tid>)
    returns (r: WriteOutcome, ghost s: State)
    requires Represents(cfg, db, d, l) && |ops| < 0x1_0000_0000 && db.seqno + |ops| <= MAX_UINT64
    requires t != FLUSHER && t !in l.agents && LockFree(l.agents) && CanSignal(l.agents, wake)
    modifies db`seqno, db`mem, db`immMem, db.mem, db.mem.nodes, db.wal
    ensures l.store.seqno + |ops| <= MAX_UINT64
    ensures var rotated := db.autoFlush && overThreshold && l.store.imm.None?;
            && Run(cfg, Up(d, l), WriteSteps(r, t, ops, rotated, wake)) == Some(s)
            && Wrote(cfg, d, l, t, ops, r, rotated, s) && Represents(cfg, db, s.disk, s.live)
  {
    hide DB.Sound, DB.Valid, DB.Layers, Applied, LockFree, CanSignal, Run, Records.Record, Records.EncodeAll,
         B.EncodeBatch, Records.EncodeRecord, LogIs, LogHolds, WriteSteps, Represents, Wrote;
    Represented(cfg, db, d, l);
    ghost var before, durable := db.wal.Appended(), db.wal.synced;
    r := db.Write(ops, fault, overThreshold);
    ghost var rotated := db.autoFlush && overThreshold && l.store.imm.None?;
    WriteRuns(cfg, d, l, t, ops, r, rotated, wake);
    s := Run(cfg, Up(d, l), WriteSteps(r, t, ops, rotated, wake)).value;
    ObjectIs(db);
    AfterWrite(cfg, db, d, l, t, ops, r, rotated, s, before, durable);
  }

  /** The object after a Write is in the state its steps lead to. */
  lemma {:induction false} AfterWrite(cfg: Config, db: DB, d: Disk, l: Live, t: Tid, ops: seq<B.Operation>,
                                      r: WriteOutcome, rotated: bool, s: State, before: Bytes, durable: nat)
    requires l.store.seqno + |ops| <= MAX_UINT64 && Wrote(cfg, d, l, t, ops, r, rotated, s) && |ops| < 0x1_0000_0000
    requires db.Valid() && db.syncOnWrite == cfg.sync && db.autoFlush == cfg.auto && db.nextSSTID == l.nextID
    requires db.closed == l.closed && db.flushFailed == l.flushErr.Some? && db.manifest == d.manifest
    requires db.Layers() == if r.Refused? || ops == [] then l.store
                            else if rotated && r == Done then Freeze(Applied(l.store, ops)) else Applied(l.store, ops)
    requires db.wal.Valid() && db.wal.synced >= durable && LogHolds(db.wal.format, d.log, d.logSynced, before, durable)
    requires if LogAfter(d.log, r, ops) == d.log then db.wal.Appended() == before
             else db.wal.Appended() == before + Records.Record(db.wal.format, B.EncodeBatch(ops))
    requires cfg.sync && !r.Refused? && ops != [] ==> db.wal.synced == |db.wal.Appended()|
    ensures Represents(cfg, db, s.disk, s.live)
  {
    hide DB.Sound, DB.Valid, DB.Layers, Applied, LockFree, Records.Record, Records.EncodeAll, B.EncodeBatch, LogIs,
         LogHolds;
    if ops == [] || (r.Refused? && r.error != SyncFailed) {
      LogStays(db.wal, d.log, d.logSynced, durable);
    } else {
      LogGrows(db.wal, d.log, d.logSynced, before, durable, LogRec(ops, !r.Refused?, r == Done), s.disk.logSynced);
    }
  }

  lemma {:induction false} Represented(cfg: Config, db: DB, d: Disk, l: Live)
    requires Represents(cfg, db, d, l)
    ensures db.Valid() && db.Sound() && db.syncOnWrite == cfg.sync && db.autoFlush == cfg.auto
    ensures db.Layers() == l.store && db.nextSSTID == l.nextID && db.closed == l.closed
    ensures db.flushFailed == l.flushErr.Some? && db.manifest == d.manifest
    ensures db.mem.Valid() && db.mem.Contents() == l.store.mem
    ensures db.immMem != null ==> db.immMem.Valid() && Some(db.immMem.Contents()) == l.store.imm
    ensures db.seqno == l.store.seqno && (db.immMem == null <==> l.store.imm.None?)
    ensures LogIs(db.wal, d.log, d.logSynced)
    ensures db.wal.Valid() && LogHolds(db.wal.format, d.log, d.logSynced, db.wal.Appended(), db.wal.synced)
  {
    hide DB.Sound, DB.Layers, LogHolds;
    ObjectIs(db);
  }

  /** The i-th operation is the last one on this key. */
  predicate LastOn(ops: seq<B.Operation>, key: Bytes, i: nat) {
    i < |ops| && ops[i].key == key && forall j :: i < j < |ops| ==> ops[j].key != key
  }

  /**
   * Read your own write, in every reachable state: after a Write that was not refused, Get of a key it names gives the
   * value of the last put on it, an empty value included, or no key if it was deleted last; any other key reads as
   * before. After a refused one every key does.
   */
  method WriteThenGet(cfg: Config, db: DB, ops: seq<B.Operation>, fault: Wal.SyncFault, overThreshold: bool, key: Bytes,
                      ghost d: Disk, ghost l: Live)
    returns (w: WriteOutcome, before: Result<Bytes, DBError>, after: Result<Bytes, DBError>)
    requires Reachable(cfg, Up(d, l)) && Represents(cfg, db, d, l)
    requires |ops| < 0x1_0000_0000 && db.seqno + |ops| <= MAX_UINT64 && !db.closed
    modifies db`seqno, db`mem, db`immMem, db.mem, db.mem.nodes, db.wal
    ensures !w.Refused? ==> forall i: nat :: LastOn(ops, key, i) ==>
              after == match ops[i].opType case OpPut => Ok(ops[i].value) case OpDelete => Err(KeyNotFound)
    ensures w.Refused? || (forall op :: op in ops ==> op.key != key) ==> after == before
  {
    hide DB.Sound, DB.Valid, DB.Layers, DB.Hit, Applied, FirstHit, Records.Record, B.EncodeBatch, Records.EncodeRecord,
         LogIs, LogHolds, Represents, Reachable, Inv, Layered, LastOn, DB.Logged, DB.Loggable;
    ReachableInv(cfg, Up(d, l));
    LayersOf(false, cfg, Up(d, l));
    Represented(cfg, db, d, l);
    ghost var rotated := db.autoFlush && overThreshold && db.immMem == null;
    hide Shows;
    before := GetShows(db, key);
    w := db.Write(ops, fault, overThreshold);
    ObjectIs(db);
    after := GetShows(db, key);
    ReadsFollow(l.store, ops, w.Refused?, rotated, key, before, after);
  }

  /** This is what Get returns for a hit. */
  ghost predicate Shows(r: Result<Bytes, DBError>, hit: Lookup) {
    && (r.Ok? <==> hit.Present?) && (r.Ok? ==> hit == Present(r.value))
    && (r == Err(KeyNotFound) <==> !hit.Present?)
  }

  method GetShows(db: DB, key: Bytes) returns (r: Result<Bytes, DBError>)
    requires db.Valid() && db.Sound() && !db.closed
    ensures Shows(r, FirstHit(db.Layers(), key))
  {
    hide DB.Sound, DB.Valid, DB.Layers, DB.Hit, FirstHit;
    r := db.Get(key);
  }

  lemma {:induction false} ReadsFollow(s: Store, ops: seq<B.Operation>, refused: bool, rotated: bool, key: Bytes,
                                       before: Result<Bytes, DBError>, after: Result<Bytes, DBError>)
    requires Layered(s) && s.seqno + |ops| <= MAX_UINT64 && (rotated ==> s.imm.None?) && Shows(before, FirstHit(s, key))
    requires var s' := if refused || ops == [] then s
                       else if rotated then Freeze(Applied(s, ops)) else Applied(s, ops);
             Shows(after, FirstHit(s', key))
    ensures !refused ==> forall i: nat :: LastOn(ops, key, i) ==>
              after == match ops[i].opType case OpPut => Ok(ops[i].value) case OpDelete => Err(KeyNotFound)
    ensures refused || (forall op :: op in ops ==> op.key != key) ==> after == before
  {
    hide Layered, FirstHit, Applied;
    WrittenReads(s, ops, rotated, key);
  }

  /** What a write shows of each key. */
  lemma {:induction false} WrittenReads(s: Store, ops: seq<B.Operation>, rotated: bool, key: Bytes)
    requires Layered(s) && s.seqno + |ops| <= MAX_UINT64 && (rotated ==> s.imm.None?)
    ensures var s' := if rotated then Freeze(Applied(s, ops)) else Applied(s, ops);
            && (forall i: nat :: LastOn(ops, key, i) ==>
                  FirstHit(s', key)
                    == match ops[i].opType case OpPut => Present(ops[i].value) case OpDelete => Tombstone)
            && ((forall op :: op in ops ==> op.key != key) ==> FirstHit(s', key) == FirstHit(s, key))
  {
    hide Layered, FirstHit, Applied, FoldView;
    ApplyReads(s, ops, key);
    ApplyKeepsLayers(s, ops);
    if rotated {
      KeepsSlot(s, ops);
      FrozenSame(Applied(s, ops), key);
    }
    forall i: nat | LastOn(ops, key, i)
      ensures LastOp(ops, key) == Some(ops[i])
      ensures FoldView(ops, key) == match ops[i].opType case OpPut => Present(ops[i].value) case OpDelete => Tombstone
    {
      FoldIsLast(ops, key, i);
    }
  }

  lemma {:induction false} KeepsSlot(s: Store, ops: seq<B.Operation>)
    requires s.seqno + |ops| <= MAX_UINT64
    ensures Applied(s, ops).imm == s.imm
  {
  }

  lemma {:induction false} FrozenSame(s: Store, key: Bytes)
    requires Layered(s) && s.imm.None?
    ensures FirstHit(Freeze(s), key) == FirstHit(s, key)
  {
    hide Layered, FirstHit;
    FreezeKeeps(s);
  }

  /** What a flush needs besides the object: room for its id, and contents the table format can hold. */
  ghost predicate MayFlush(db: DB, es: seq<Entry>)
    reads db`nextSSTID
  {
    db.nextSSTID < MAX_UINT64 && Writable(db.crc, es, db.blockSize)
  }

  /** The steps of a synchronous Flush call that ends this way. */
  function FlushSteps(r: WriteOutcome, t: Tid, started: bool, wake: Option<Tid>, fault: FlushFault, size: uint64)
    : seq<Step>
  {
    if r == Stalled then [Caller(t, FlushStall)]
    else if started then [Caller(t, FlushGo(wake))] + Build(t, fault, size)
    else []
  }

  predicate StartsFlush(l: Live) {
    !l.closed && l.flushErr.None? && l.store.mem != [] && l.store.imm.None?
  }

  /** Memory once a Flush call without a flusher has frozen the memtable and begins to write it. */
  function Started(l: Live, t: Tid): Live {
    l.(store := Freeze(l.store), agents := l.agents[t := Agent(Writing(l.nextID, l.store.mem), false)])
  }

  lemma {:induction false} FlushRuns(cfg: Config, d: Disk, l: Live, t: Tid, wake: Option<Tid>, fault: FlushFault,
                                     size: uint64)
    requires Admitted(l, t) && FLUSHER !in l.agents && StartsFlush(l) && CanSignal(l.agents, wake)
    requires l.nextID < MAX_UINT64 && l.store.seqno <= MAX_UINT64
    ensures var run := Run(cfg, Up(d, l), [Caller(t, FlushGo(wake))] + Build(t, fault, size));
            run.Some? && Built(d, Started(l, t), t, l.store.mem, fault, size, run.value)
  {
    hide Enabled, Take, Built, Build;
    var go, rest := Caller(t, FlushGo(wake)), Build(t, fault, size);
    CallerSteps(cfg, d, l, t, FlushGo(wake));
    BuildRun(cfg, d, Started(l, t), t, fault, size);
    assert ([go] + rest)[1..] == rest;
  }

  lemma {:induction false} WaitersHoldNothing(agents: map<Tid, Agent>, t: Tid)
    requires LockFree(agents)
    ensures LockFree(agents[t := Agent(CallerStalled, true)])
  {
  }

  /** Where the steps of a Flush call take the state machine. */
  ghost predicate FlushedTo(d: Disk, l: Live, t: Tid, r: WriteOutcome, fault: FlushFault, size: uint64, s: State)
    requires l.nextID < MAX_UINT64 && l.store.seqno <= MAX_UINT64
  {
    && s.Up? && LockFree(s.live.agents) && s.live.closed == l.closed
    && s.disk.log == d.log && s.disk.logSynced == d.logSynced
    && (if StartsFlush(l) && fault.Smooth? then
          && s.disk.manifest == d.manifest + [FlushEdit(l.nextID, size, l.store.mem, l.store.seqno)]
          && s.live.store == Flushed(l.store) && s.live.nextID == l.nextID + 1 && s.live.flushErr.None?
        else
          && s.disk.manifest == d.manifest && s.live.nextID == l.nextID
          && s.live.store == (if StartsFlush(l) then Freeze(l.store) else l.store)
          && s.live.flushErr.Some? == (StartsFlush(l) || l.flushErr.Some?))
    && (r == Stalled ==> t in s.live.agents && s.live.agents[t] == Agent(CallerStalled, true))
  }

  lemma {:induction false} FlushTakes(cfg: Config, d: Disk, l: Live, t: Tid, wake: Option<Tid>, r: WriteOutcome,
                                      fault: FlushFault, size: uint64)
    requires t != FLUSHER && t !in l.agents && FLUSHER !in l.agents && LockFree(l.agents) && CanSignal(l.agents, wake)
    requires l.nextID < MAX_UINT64 && l.store.seqno <= MAX_UINT64
    requires r == Stalled <==> !l.closed && l.flushErr.None? && l.store.mem != [] && l.store.imm.Some?
    ensures var run := Run(cfg, Up(d, l), FlushSteps(r, t, StartsFlush(l), wake, fault, size));
            run.Some? && FlushedTo(d, l, t, r, fault, size, run.value)
  {
    hide LockFree, CanSignal, Run, Build, FlushEdit;
    if StartsFlush(l) {
      FlushRuns(cfg, d, l, t, wake, fault, size);
    } else if r == Stalled {
      CallerSteps(cfg, d, l, t, FlushStall);
      WaitersHoldNothing(l.agents, t);
    } else {
      NoSteps(cfg, Up(d, l));
    }
  }

  /** Flush without a flusher: the object goes where the steps of the call take the state machine. */
  method Flush(cfg: Config, db: DB, fault: FlushFault, ghost d: Disk, ghost l: Live, ghost t: Tid,
               ghost wake: Option<Tid>)
    returns (r: WriteOutcome, ghost size: uint64, ghost s: State)
    requires Represents(cfg, db, d, l) && MayFlush(db, l.store.mem)
    requires t != FLUSHER && t !in l.agents && FLUSHER !in l.agents && LockFree(l.agents) && CanSignal(l.agents, wake)
    modifies db`mem, db`manifest, db`version, db`flushFailed, db`ssts, db`tables, db`immMem, db`nextSSTID
    ensures l.nextID < MAX_UINT64 && l.store.seqno <= MAX_UINT64
    ensures Run(cfg, Up(d, l), FlushSteps(r, t, StartsFlush(l), wake, fault, size)) == Some(s)
    ensures FlushedTo(d, l, t, r, fault, size, s) && Represents(cfg, db, s.disk, s.live)
    ensures StartsFlush(l) && fault.Smooth? ==> size == FileSize(db, l.store.mem)
    ensures r == Done <==> !l.closed && l.flushErr.None? && (l.store.mem == [] || (l.store.imm.None? && fault.Smooth?))
  {
    hide DB.Sound, DB.Valid, DB.Layers, LockFree, CanSignal, Run, LogIs, LogHolds, Represents, Writable, FileOf,
         FlushSteps, FlushEdit;
    Represented(cfg, db, d, l);
    ghost var files, readers := db.version.files, db.ssts;
    r := db.FlushMemtable(fault);
    size := 0;
    if StartsFlush(l) && fault.Smooth? {
      size := FileSize(db, l.store.mem);
      EditIs(db, d.manifest, files, l.nextID, l.store.mem, readers);
    }
    FlushTakes(cfg, d, l, t, wake, r, fault, size);
    s := Run(cfg, Up(d, l), FlushSteps(r, t, StartsFlush(l), wake, fault, size)).value;
    AfterFlush(cfg, db, d, l, s);
  }

  // ----- Calls that waited

  /** The same records, but for what the callers were told. */
  lemma {:induction false} Relabelled(w: Wal.Writer, log: seq<LogRec>, synced: nat, log': seq<LogRec>)
    requires LogIs(w, log, synced) && BatchesOf(log') == BatchesOf(log)
    ensures LogIs(w, log', synced)
  {
    hide Records.EncodeAll, D.BatchPayloads;
    forall i | 0 <= i < |log'| ensures log'[i].batch == log[i].batch {
      assert BatchesOf(log')[i] == BatchesOf(log)[i];
    }
    if synced <= |log| {
      assert BatchesOf(log'[..synced]) == BatchesOf(log')[..synced];
      assert BatchesOf(log[..synced]) == BatchesOf(log)[..synced];
    }
  }

  /** What a woken writer does. */
  lemma {:induction false} ResumeTakes(cfg: Config, d: Disk, l: Live, t: Tid, wake: Option<Tid>)
    requires WriterEnabled(cfg, d, l, t, ResumeWriter(wake))
    ensures var s := WriterTake(cfg, d, l, t, ResumeWriter(wake));
            var free := !l.closed && l.flushErr.None? && l.store.imm.None?;
            && Run(cfg, Up(d, l), [Writer(t, ResumeWriter(wake))]) == Some(s)
            && s.live == l.(store := s.live.store, agents := s.live.agents)
            && s.live.store == (if free then Freeze(l.store) else l.store)
            && s.disk == d.(log := s.disk.log) && BatchesOf(s.disk.log) == BatchesOf(d.log)
            && (free ==> l.agents[t].pc.rec < |s.disk.log| && s.disk.log[l.agents[t].pc.rec].acked)
            && (!free ==> s.disk == d)
            && (t in s.live.agents <==> !l.closed && l.flushErr.None? && l.store.imm.Some?)
            && (t in s.live.agents ==> s.live.agents[t] == Agent(l.agents[t].pc, true))
  {
    WriterSteps(cfg, d, l, t, ResumeWriter(wake));
    OneStep(cfg, Up(d, l), Writer(t, ResumeWriter(wake)));
    hide Enabled, Take, Run, LockFree;
  }

  lemma {:induction false} OneStep(cfg: Config, s: State, step: Step)
    requires Enabled(cfg, s, step)
    ensures Run(cfg, s, [step]) == Some(Take(cfg, s, step))
  {
    hide Enabled, Take;
    assert [step][1..] == [];
    NoSteps(cfg, Take(cfg, s, step));
  }

  /**
   * A stalled Write that has been woken: the object goes where its step takes the state machine, and success
   * acknowledges the record the call left in the log.
   */
  method ResumeWrite(cfg: Config, db: DB, ghost d: Disk, ghost l: Live, ghost t: Tid, ghost wake: Option<Tid>)
    returns (r: WriteOutcome, ghost s: State)
    requires Represents(cfg, db, d, l) && WriterEnabled(cfg, d, l, t, ResumeWriter(wake))
    modifies db`mem, db`immMem
    ensures s == WriterTake(cfg, d, l, t, ResumeWriter(wake))
    ensures Run(cfg, Up(d, l), [Writer(t, ResumeWriter(wake))]) == Some(s) && Represents(cfg, db, s.disk, s.live)
    ensures r == Done ==> l.agents[t].pc.rec < |s.disk.log| && s.disk.log[l.agents[t].pc.rec].acked
    ensures r == Stalled <==> t in s.live.agents
  {
    hide DB.Sound, DB.Valid, DB.Layers, Represents, LogIs, LogHolds, Run, WriterTake, WriterEnabled;
    Represented(cfg, db, d, l);
    ResumeTakes(cfg, d, l, t, wake);
    r := db.ResumeWrite();
    s := WriterTake(cfg, d, l, t, ResumeWriter(wake));
    Relabelled(db.wal, d.log, d.logSynced, s.disk.log);
    AfterResume(cfg, db, d, s);
  }

  /** The object after a call that was woken is in the state its step leads to. */
  lemma {:induction false} AfterResume(cfg: Config, db: DB, d: Disk, s: State)
    requires db.Valid() && db.syncOnWrite == cfg.sync && db.autoFlush == cfg.auto && s.Up? &&
        s.disk == d.(log := s.disk.log)
    requires LogIs(db.wal, s.disk.log, d.logSynced) && db.Layers() == s.live.store && db.nextSSTID == s.live.nextID
    requires db.closed == s.live.closed && db.flushFailed == s.live.flushErr.Some? && db.manifest == d.manifest
    ensures Represents(cfg, db, s.disk, s.live)
  {
    hide DB.Sound, DB.Layers, LogIs;
  }

  /** What a Flush call does that finds the flusher running. */
  lemma {:induction false} HandOverTakes(cfg: Config, d: Disk, l: Live, t: Tid, step: CallerStep)
    requires Admitted(l, t) && FLUSHER in l.agents && l.store.mem != []
    requires step == FlushStall || (step.FlushGo? && CanSignal(l.agents, step.wake))
    requires step == FlushStall <==> l.store.imm.Some?
    ensures var l' := CallerTake(l, t, step);
            && CallerEnabled(l, t, step) && Run(cfg, Up(d, l), [Caller(t, step)]) == Some(Up(d, l'))
            && l' == l.(store := if step == FlushStall then l.store else Freeze(l.store), agents := l'.agents)
            && t in l'.agents && l'.agents[t] == Agent(if step == FlushStall then CallerStalled
              else CallerWaiting, true)
  {
    CallerSteps(cfg, d, l, t, step);
    hide Run, LockFree;
  }

  /** Flush with the flusher running, up to its wait. */
  method HandOver(cfg: Config, db: DB, ghost d: Disk, ghost l: Live, ghost t: Tid, ghost wake: Option<Tid>)
    returns (r: WriteOutcome, ghost s: State)
    requires Represents(cfg, db, d, l) && t != FLUSHER && t !in l.agents && FLUSHER in l.agents
    requires LockFree(l.agents) && CanSignal(l.agents, wake)
    modifies db`mem, db`immMem
    ensures var steps := if r != Stalled then []
                         else [Caller(t, if l.store.imm.Some? then FlushStall else FlushGo(wake))];
            Run(cfg, Up(d, l), steps) == Some(s) && s.Up? && Represents(cfg, db, s.disk, s.live)
    ensures r == Done <==> !l.closed && l.flushErr.None? && l.store.mem == []
    ensures r == Stalled ==> t in s.live.agents
    ensures r != Stalled ==> s == Up(d, l)
  {
    hide DB.Sound, DB.Valid, DB.Layers, Represents, LogIs, LogHolds, Run, LockFree, CanSignal;
    Represented(cfg, db, d, l);
    r := db.HandOver();
    s := Up(d, l);
    NoSteps(cfg, s);
    if r == Stalled {
      var step := if l.store.imm.Some? then FlushStall else FlushGo(wake);
      HandOverTakes(cfg, d, l, t, step);
      s := Up(d, CallerTake(l, t, step));
    }
    AfterResume(cfg, db, d, s);
  }

  /** The steps of a Flush call that waited for the slot. */
  function ResumeSteps(l: Live, t: Tid, wake: Option<Tid>, fault: FlushFault, size: uint64): seq<Step> {
    [Caller(t, ResumeStalled(wake))]
    + if l.closed || l.flushErr.Some? || l.store.imm.Some? || FLUSHER in l.agents then []
      else if l.store.mem == [] then [Table(t, FailFile(EmptyMemtable, false)), Table(t, ReportFailure)]
      else Build(t, fault, size)
  }

  /** Where they take the state machine. */
  ghost predicate Resumed(d: Disk, l: Live, fault: FlushFault, size: uint64, s: State)
    requires l.nextID < MAX_UINT64 && l.store.seqno <= MAX_UINT64
  {
    var free := !l.closed && l.flushErr.None? && l.store.imm.None?;
    var own := free && FLUSHER !in l.agents;
    && s.Up? && s.live.closed == l.closed && s.disk.log == d.log && s.disk.logSynced == d.logSynced
    && if own && fault.Smooth? && l.store.mem != [] then
         && s.disk.manifest == d.manifest + [FlushEdit(l.nextID, size, l.store.mem, l.store.seqno)]
         && s.live.store == Flushed(l.store) && s.live.nextID == l.nextID + 1 && s.live.flushErr.None?
       else
         && s.disk.manifest == d.manifest && s.live.nextID == l.nextID
         && s.live.store == (if free then Freeze(l.store) else l.store)
         && s.live.flushErr.Some? == (own || l.flushErr.Some?)
  }

  lemma {:induction false} ResumeStep(cfg: Config, d: Disk, l: Live, t: Tid, wake: Option<Tid>)
    requires CallerEnabled(l, t, ResumeStalled(wake))
    ensures var l' := CallerTake(l, t, ResumeStalled(wake));
            var free := !l.closed && l.flushErr.None? && l.store.imm.None?;
            && Run(cfg, Up(d, l), [Caller(t, ResumeStalled(wake))]) == Some(Up(d, l'))
            && l' == l.(store := if free then Freeze(l.store) else l.store, agents := l'.agents)
            && (free && FLUSHER !in l.agents ==>
                  At(l', t) && l'.agents[t].pc == Writing(l.nextID, l.store.mem) && LockFree(l'.agents))
  {
    CallerSteps(cfg, d, l, t, ResumeStalled(wake));
    hide Run;
  }

  /** Building a table from nothing. */
  lemma {:induction false} EmptyBuild(cfg: Config, d: Disk, l: Live, t: Tid)
    requires At(l, t) && l.agents[t].pc.Writing? && l.agents[t].pc.entries == [] && LockFree(l.agents)
    ensures var r := Run(cfg, Up(d, l), [Table(t, FailFile(EmptyMemtable, false)), Table(t, ReportFailure)]);
            && r.Some? && r.value.Up? && r.value.disk == d.(files := r.value.disk.files)
            && r.value.live == l.(flushErr := Some(EmptyMemtable), agents := r.value.live.agents)
  {
    hide Enabled, Take;
    var fail := FailFile(EmptyMemtable, false);
    TableSteps(cfg, d, l, t, fail);
    var s1 := TableTake(cfg, d, l, t, fail);
    TableSteps(cfg, s1.disk, s1.live, t, ReportFailure);
    RunTwo(cfg, Up(d, l), Table(t, fail), Table(t, ReportFailure));
  }

  lemma {:induction false} ResumeFlushTakes(cfg: Config, d: Disk, l: Live, t: Tid, wake: Option<Tid>, fault: FlushFault,
                                            size: uint64)
    requires CallerEnabled(l, t, ResumeStalled(wake)) && l.nextID < MAX_UINT64 && l.store.seqno <= MAX_UINT64
    ensures var run := Run(cfg, Up(d, l), ResumeSteps(l, t, wake, fault, size));
            run.Some? && Resumed(d, l, fault, size, run.value)
  {
    hide Run, CallerEnabled, CallerTake, LockFree, Build, FlushEdit;
    var first := [Caller(t, ResumeStalled(wake))];
    ResumeStep(cfg, d, l, t, wake);
    var l' := CallerTake(l, t, ResumeStalled(wake));
    if l.closed || l.flushErr.Some? || l.store.imm.Some? || FLUSHER in l.agents {
      assert first + [] == first;
    } else {
      var rest := if l.store.mem == [] then [Table(t, FailFile(EmptyMemtable, false)), Table(t, ReportFailure)]
                  else Build(t, fault, size);
      if l.store.mem == [] {
        EmptyBuild(cfg, d, l', t);
      } else {
        BuildRun(cfg, d, l', t, fault, size);
      }
      RunConcat(cfg, Up(d, l), first, rest);
    }
  }

  /**
   * A Flush call that waited for the slot and has been woken, with the flusher or without. With the slot free and the
   * memtable emptied meanwhile, without a flusher, it fails, and so does the database.
   */
  method ResumeFlush(cfg: Config, db: DB, fault: FlushFault, background: bool, ghost d: Disk, ghost l: Live,
                     ghost t: Tid,
                     ghost wake: Option<Tid>)
    returns (r: WriteOutcome, ghost size: uint64, ghost s: State)
    requires Represents(cfg, db, d, l) && CallerEnabled(l, t, ResumeStalled(wake)) && db.nextSSTID < MAX_UINT64
    requires background == (FLUSHER in l.agents) && (l.store.mem != [] ==> MayFlush(db, l.store.mem))
    modifies db`mem, db`manifest, db`version, db`flushFailed, db`ssts, db`tables, db`immMem, db`nextSSTID
    ensures l.nextID < MAX_UINT64 && l.store.seqno <= MAX_UINT64
    ensures Run(cfg, Up(d, l), ResumeSteps(l, t, wake, fault, size)) == Some(s)
    ensures Resumed(d, l, fault, size, s) && Represents(cfg, db, s.disk, s.live)
    ensures r == Done ==> s.live.store == Flushed(l.store) && size == FileSize(db, l.store.mem)
  {
    hide DB.Sound, DB.Valid, DB.Layers, LockFree, CanSignal, Run, LogIs, LogHolds, Represents, Writable, FileOf,
         ResumeSteps, FlushEdit, CallerEnabled;
    Represented(cfg, db, d, l);
    ghost var files, readers := db.version.files, db.ssts;
    r := db.ResumeFlush(fault, background);
    size := 0;
    if r == Done {
      size := FileSize(db, l.store.mem);
      EditIs(db, d.manifest, files, l.nextID, l.store.mem, readers);
    }
    ResumeFlushTakes(cfg, d, l, t, wake, fault, size);
    s := Run(cfg, Up(d, l), ResumeSteps(l, t, wake, fault, size)).value;
    AfterFlush(cfg, db, d, l, s);
  }

  lemma {:induction false} AwaitTakes(cfg: Config, d: Disk, l: Live, t: Tid)
    requires CallerEnabled(l, t, ResumeWaiting)
    ensures var l' := CallerTake(l, t, ResumeWaiting);
            && Run(cfg, Up(d, l), [Caller(t, ResumeWaiting)]) == Some(Up(d, l'))
            && l' == l.(agents := l'.agents)
            && (t in l'.agents <==> !l.closed && l.flushErr.None? && l.store.imm.Some?)
  {
    CallerSteps(cfg, d, l, t, ResumeWaiting);
    hide Run, LockFree;
  }

  /** A Flush call that handed its memtable over and has been woken: it returns once the slot is free. */
  method AwaitFlush(cfg: Config, db: DB, ghost d: Disk, ghost l: Live, ghost t: Tid)
    returns (r: WriteOutcome, ghost s: State)
    requires Represents(cfg, db, d, l) && CallerEnabled(l, t, ResumeWaiting)
    ensures Run(cfg, Up(d, l), [Caller(t, ResumeWaiting)]) == Some(s) && s.Up? && Represents(cfg, db, s.disk, s.live)
    ensures r == Stalled <==> t in s.live.agents
    ensures r == Done <==> !l.closed && l.flushErr.None? && l.store.imm.None?
  {
    hide DB.Sound, DB.Valid, DB.Layers, Represents, LogIs, LogHolds, Run, CallerEnabled, CallerTake;
    Represented(cfg, db, d, l);
    AwaitTakes(cfg, d, l, t);
    r := db.AwaitFlush();
    s := Up(d, CallerTake(l, t, ResumeWaiting));
    AfterResume(cfg, db, d, s);
  }

  // ----- The background flusher

  /** The steps of one pass of the flusher. */
  function PassSteps(l: Live, fault: FlushFault, size: uint64): seq<Step> {
    if l.closed || l.store.imm.None? || l.store.imm.value == [] then [FlusherLook]
    else [FlusherLook] + Build(FLUSHER, fault, size)
  }

  predicate PassFlushes(l: Live) {
    !l.closed && l.store.imm.Some? && l.store.imm.value != []
  }

  /** Where one pass takes the state machine. */
  ghost predicate Passed(d: Disk, l: Live, fault: FlushFault, size: uint64, s: State)
    requires l.nextID < MAX_UINT64 && l.store.seqno <= MAX_UINT64
  {
    && s.Up? && LockFree(s.live.agents) && s.live.closed == l.closed
    && s.disk.log == d.log && s.disk.logSynced == d.logSynced
    && (if PassFlushes(l) && fault.Smooth? then
          && s.disk.manifest == d.manifest + [FlushEdit(l.nextID, size, l.store.imm.value, l.store.seqno)]
          && s.live.store == l.store.(imm := None, ssts := l.store.ssts + [l.store.imm.value])
          && s.live.nextID == l.nextID + 1 && s.live.flushErr.None?
        else
          && s.disk.manifest == d.manifest && s.live.nextID == l.nextID
          && s.live.store == (if l.closed || PassFlushes(l) then l.store else l.store.(imm := None))
          && s.live.flushErr.Some? == PassFlushes(l))
  }

  lemma {:induction false} PassTakes(cfg: Config, d: Disk, l: Live, fault: FlushFault, size: uint64)
    requires FlusherEnabled(l) && l.flushErr.None? && l.nextID < MAX_UINT64 && l.store.seqno <= MAX_UINT64
    ensures var run := Run(cfg, Up(d, l), PassSteps(l, fault, size));
            run.Some? && Passed(d, l, fault, size, run.value)
  {
    hide Enabled, Take, Built, Build, FlushEdit;
    LookSteps(cfg, d, l);
    if PassFlushes(l) {
      PassBuilds(cfg, d, l, fault, size);
    }
  }

  lemma {:induction false} PassBuilds(cfg: Config, d: Disk, l: Live, fault: FlushFault, size: uint64)
    requires FlusherEnabled(l) && l.flushErr.None? && l.nextID < MAX_UINT64 && l.store.seqno <= MAX_UINT64
    requires PassFlushes(l)
    ensures var run := Run(cfg, Up(d, l), PassSteps(l, fault, size));
            run.Some? && Passed(d, l, fault, size, run.value)
  {
    hide Enabled, Take, Build, FlushEdit;
    var rest := Build(FLUSHER, fault, size);
    LookSteps(cfg, d, l);
    BuildRun(cfg, d, FlusherTake(l), FLUSHER, fault, size);
    assert ([FlusherLook] + rest)[1..] == rest;
  }

  /** A pass of the flusher: the object goes where its steps take the state machine. */
  method FlusherPass(cfg: Config, db: DB, fault: FlushFault, ghost d: Disk, ghost l: Live)
    returns (goOn: bool, ghost size: uint64, ghost s: State)
    requires Represents(cfg, db, d, l) && FlusherEnabled(l) && l.flushErr.None? && db.nextSSTID < MAX_UINT64
    requires l.store.imm.Some? ==> MayFlush(db, l.store.imm.value)
    modifies db`manifest, db`version, db`flushFailed, db`ssts, db`tables, db`immMem, db`nextSSTID
    ensures l.nextID < MAX_UINT64 && l.store.seqno <= MAX_UINT64
    ensures Run(cfg, Up(d, l), PassSteps(l, fault, size)) == Some(s)
    ensures Passed(d, l, fault, size, s) && Represents(cfg, db, s.disk, s.live)
    ensures PassFlushes(l) && fault.Smooth? ==> size == FileSize(db, l.store.imm.value)
    ensures goOn == (!l.closed && s.live.flushErr.None?)
  {
    hide DB.Sound, DB.Valid, DB.Layers, LockFree, Run, LogIs, LogHolds, Represents, Writable, FileOf, PassSteps,
         FlushEdit, FlusherEnabled;
    Represented(cfg, db, d, l);
    ghost var files, readers, es := db.version.files, db.ssts, Frozen(l.store.imm);
    goOn := db.FlushLoopPass(fault, es);
    size := 0;
    if PassFlushes(l) && fault.Smooth? {
      size := FileSize(db, es);
      EditIs(db, d.manifest, files, l.nextID, es, readers);
    }
    PassTakes(cfg, d, l, fault, size);
    s := Run(cfg, Up(d, l), PassSteps(l, fault, size)).value;
    AfterFlush(cfg, db, d, l, s);
  }

  /** The size that the edit for a table of these entries carries. */
  function FileSize(db: DB, es: seq<Entry>): uint64 {
    ToUint64(|FileOf(db.crc, es, db.blockSize)|)
  }

  lemma {:induction false} EditIs(db: DB, before: seq<VersionEdit>, files: V.Files, id: uint64, es: seq<Entry>,
                                  readers: seq<TC.Reader>)
    requires es != [] && id < MAX_UINT64 && db.Recorded(before, files, id, es) && db.NewTable(readers, es)
    ensures db.manifest == before + [FlushEdit(id, FileSize(db, es), es, db.seqno)]
  {
    hide FlushEdit, V.Applied, FileOf;
  }

  /** The object after a flush is in the state its steps lead to. */
  lemma {:induction false} AfterFlush(cfg: Config, db: DB, d: Disk, l: Live, s: State)
    requires db.Valid() && db.syncOnWrite == cfg.sync && db.autoFlush == cfg.auto && db.closed == l.closed
    requires s.Up? && s.live.closed == l.closed && s.disk.log == d.log && s.disk.logSynced == d.logSynced
    requires LogIs(db.wal, d.log, d.logSynced) && db.Layers() == s.live.store && db.nextSSTID == s.live.nextID
    requires db.flushFailed == s.live.flushErr.Some? && db.manifest == s.disk.manifest
    ensures Represents(cfg, db, s.disk, s.live)
  {
    hide DB.Sound, DB.Layers, LogIs;
  }

  lemma {:induction false} ObjectIs(db: DB)
    requires db.Valid()
    ensures db.Sound() && db.wal.Valid() && db.mem.Valid() && (db.immMem != null ==> db.immMem.Valid())
    ensures db.Layers().seqno == db.seqno && db.Layers().mem == db.mem.Contents()
    ensures db.Layers().imm == if db.immMem == null then None else Some(db.immMem.Contents())
  {
  }

  // ----- Close

  /** The steps of a Close that finds nobody building a table: the flusher, if there is one, leaves in between. */
  function CloseSteps(l: Live): seq<Step> {
    [CloseBegin] + (if FLUSHER in l.agents then [FlusherLook] else []) + [CloseEnd]
  }

  /** Nobody holds the lock or builds a table, and the flusher is at the top of its loop if it is there. */
  predicate MayClose(l: Live) {
    && !l.closed && LockFree(l.agents)
    && (FLUSHER in l.agents ==> l.agents[FLUSHER].pc.FlusherLoop?)
    && forall t :: t in l.agents ==> !l.agents[t].pc.Writing? && !l.agents[t].pc.Written?
  }

  lemma {:induction false} CloseRuns(cfg: Config, d: Disk, l: Live)
    requires MayClose(l)
    ensures Run(cfg, Up(d, l), CloseSteps(l)) == Some(Down(AllSynced(d)))
  {
    hide Run;
    var s1 := Up(d, l.(closed := true, agents := WakeAll(l.agents)));
    assert Take(cfg, Up(d, l), CloseBegin) == s1;
    if FLUSHER in l.agents {
      LookSteps(cfg, d, s1.live);
      RunThree(cfg, Up(d, l), CloseBegin, FlusherLook, CloseEnd);
      assert [CloseBegin] + [FlusherLook] + [CloseEnd] == [CloseBegin, FlusherLook, CloseEnd];
    } else {
      RunTwo(cfg, Up(d, l), CloseBegin, CloseEnd);
      assert [CloseBegin] + [] + [CloseEnd] == [CloseBegin, CloseEnd];
    }
  }

  /**
   * Close: the steps of the call end the process with everything durable, and when the object's Close succeeds the log
   * file is, durably, the records of that log.
   */
  method Close(cfg: Config, db: DB, fault: Wal.SyncFault, ghost d: Disk, ghost l: Live)
    returns (r: Result<(), DBError>, ghost s: State)
    requires Represents(cfg, db, d, l) && MayClose(l)
    modifies db`closed, db.wal, db.ssts
    ensures s == Down(AllSynced(d)) && Run(cfg, Up(d, l), CloseSteps(l)) == Some(s)
    ensures db.closed && r != Err(DBClosed)
    ensures r.Ok? ==> HoldsRecords(db.wal.format, db.wal.file, s.disk.log) && db.wal.synced == |db.wal.file|
  {
    hide DB.Sound, DB.Valid, DB.Layers, Represents, LogIs, HoldsRecords, Run, MayClose;
    Represented(cfg, db, d, l);
    CloseRuns(cfg, d, l);
    assert !db.closed by { Closable(l); }
    r := db.Close(fault);
    s := Down(AllSynced(d));
  }

  lemma {:induction false} Closable(l: Live)
    requires MayClose(l)
    ensures !l.closed
  {
  }

  // ----- Open

  /** The object is in the state that the state machine's Open reaches from this disk. */
  ghost predicate OpenedAs(cfg: Config, db: DB, d: Disk)
    reads db, db.mem, db.mem.nodes, db.immMem, (if db.immMem == null then [] else db.immMem.nodes), db.ssts, db.wal
  {
    && RoomToReplay(d) && OpenDisk(cfg, d).Ok? && OpenDisk(cfg, d).value.Up?
    && Represents(cfg, db, OpenDisk(cfg, d).value.disk, OpenDisk(cfg, d).value.live)
  }

  lemma {:induction false} ReplayedBatches(log: seq<LogRec>, n: nat)
    requires n <= |log|
    ensures BatchesOf(Replayed(log)) == BatchesOf(log) && BatchesOf(Replayed(log)[..n]) == BatchesOf(log[..n])
  {
  }

  lemma {:induction false} PrefixShorter(f: Records.Format, payloads: seq<Bytes>, n: nat)
    requires f.Valid() && n <= |payloads|
    ensures |Records.EncodeAll(f, payloads[..n])| <= |Records.EncodeAll(f, payloads)|
  {
    hide Records.EncodeAll;
    Records.EncodeAllConcat(f, payloads[..n], payloads[n..]);
    assert payloads == payloads[..n] + payloads[n..];
  }

  lemma {:induction false} KeptLog(w: Wal.Writer, log: seq<LogRec>, durable: nat, n: nat)
    requires KeepsLog(w, log, durable) && n <= |log|
    requires |Records.EncodeAll(w.format, Payloads(log[..n]))| <= durable
    ensures LogIs(w, Replayed(log), n)
  {
    hide Records.EncodeAll, D.BatchPayloads;
    ReplayedBatches(log, n);
    assert Payloads(log[..n]) == Payloads(log)[..n] by {
      assert BatchesOf(log[..n]) == BatchesOf(log)[..n];
    }
    PrefixShorter(w.format, Payloads(log), n);
  }

  lemma {:induction false} RepresentsOpened(cfg: Config, db: DB, d: Disk, durable: nat)
    requires Inv(false, cfg, Down(d)) && db.Valid() && OpensAs(cfg, d, db.Layers(), db.nextSSTID)
    requires db.syncOnWrite == cfg.sync && db.autoFlush == cfg.auto && !db.closed && !db.flushFailed
    requires db.manifest == Bootstrapped(d).manifest && KeepsLog(db.wal, d.log, durable) && d.logSynced <= |d.log|
    requires |Records.EncodeAll(db.wal.format, Payloads(d.log[..d.logSynced]))| <= durable
    ensures OpenedAs(cfg, db, d)
  {
    hide DB.Sound, DB.Valid, DB.Layers, DiskInv, OpenDisk, RoomToReplay, KeepsLog, LogIs, Records.EncodeAll, Payloads,
         LoadTables, AddedIds, AllOps, Applied, Tables;
    CutOpens(cfg, d);
    OpenSucceeds(false, cfg, d);
    ShortRecords(db.wal, d.log, durable);
    KeptLog(db.wal, d.log, durable, d.logSynced);
  }

  lemma {:induction false} ShortRecords(w: Wal.Writer, log: seq<LogRec>, durable: nat)
    requires KeepsLog(w, log, durable)
    ensures w.Valid() && forall i :: 0 <= i < |log| ==> |log[i].batch| < 0x1_0000_0000
    ensures w.Appended() == Records.EncodeAll(w.format, Payloads(log))
  {
    hide Records.EncodeAll, D.BatchPayloads;
  }

  /** Open does not look at what is durable, so a death of the process that keeps as much opens alike. */
  lemma {:induction false} KillOpensAs(cfg: Config, d: Disk, keepLog: nat, layers: Store, nextID: nat)
    requires DiskInv(false, cfg, d) && KillEnabled(d, keepLog) && CrashEnabled(d, keepLog, |d.manifest|)
    requires OpensAs(cfg, AfterCrash(d, keepLog, |d.manifest|), layers, nextID)
    ensures OpensAs(cfg, AfterKill(d, keepLog), layers, nextID)
  {
    hide DiskInv, OpenDisk, LoadTables, AddedIds, AllOps, Applied, Tables, CountersOf;
    var a, b := AfterCrash(d, keepLog, |d.manifest|), AfterKill(d, keepLog);
    assert d.manifest[..|d.manifest|] == d.manifest;
    assert Bootstrapped(a).manifest == Bootstrapped(b).manifest && Bootstrapped(a).files == Bootstrapped(b).files;
    CrashKeeps(false, cfg, d, keepLog, |d.manifest|);
    KillKeeps(false, cfg, d, keepLog);
    CutOpens(cfg, a);
    CutOpens(cfg, b);
  }

  /**
   * Open: from the bytes a stop leaves, the object that the state machine's Open reaches - from the disk a power loss
   * left, when all the bytes found are durable, and from the disk a death of the process left, when the whole
   * manifest is there and the log is as long as what was written.
   */
  method Open(cfg: Config, blockSize: nat, crc: Checksum, ghost s: State, dir: Directory, ghost durable: nat,
              ghost contents: map<uint64, seq<Entry>>)
    returns (db: DB, ghost keepLog: nat, ghost keepManifest: nat)
    requires Reachable(cfg, s) && ImageOf(crc, s.disk, dir, contents) && durable <= |dir.log|
    requires CountersOf(EditsOf(Records.ManifestFormat(crc), dir.current)).lastSequence + |dir.log| <= MAX_UINT64
    ensures fresh(db) && CrashEnabled(s.disk, keepLog, keepManifest)
    ensures durable == |dir.log| ==> OpenedAs(cfg, db, AfterCrash(s.disk, keepLog, keepManifest))
    ensures KillEnabled(s.disk, keepLog) && keepManifest == |s.disk.manifest| && SyncedIn(crc, s.disk, durable) ==>
              OpenedAs(cfg, db, AfterKill(s.disk, keepLog))
  {
    hide DB.Sound, DB.Valid, DB.Layers, DiskInv, OpensAs, OpenedAs, Inv, Reachable, ImageOf, KeepsLog, CountersOf,
         EditsOf, Records.ManifestFormat, Records.WalFormat, AfterCrash, AfterKill, CrashEnabled, KillEnabled,
         SyncedIn, Bootstrapped;
    db, keepLog, keepManifest := Reopen(cfg, blockSize, crc, s, dir, durable, contents);
    ReachableInv(cfg, s);
    DiskOfLive(false, cfg, s);
    if durable == |dir.log| {
      LossOpened(cfg, db, s.disk, keepLog, keepManifest, durable);
    }
    if KillEnabled(s.disk, keepLog) && keepManifest == |s.disk.manifest| && SyncedIn(crc, s.disk, durable) {
      KillOpened(cfg, db, crc, s.disk, keepLog, durable);
    }
  }

  /** The durable records of the log are within the durable bytes of its file. */
  ghost predicate SyncedIn(crc: Checksum, d: Disk, durable: nat) {
    && d.logSynced <= |d.log| && (forall i :: 0 <= i < d.logSynced ==> |d.log[i].batch| < 0x1_0000_0000)
    && |Records.EncodeAll(Records.WalFormat(crc), Payloads(d.log[..d.logSynced]))| <= durable
  }

  lemma {:induction false} LossOpened(cfg: Config, db: DB, d: Disk, keepLog: nat, keepManifest: nat, durable: nat)
    requires DiskInv(false, cfg, d) && CrashEnabled(d, keepLog, keepManifest) && db.Valid()
    requires OpensAs(cfg, AfterCrash(d, keepLog, keepManifest), db.Layers(), db.nextSSTID)
    requires db.syncOnWrite == cfg.sync && db.autoFlush == cfg.auto && !db.closed && !db.flushFailed
    requires db.manifest == Bootstrapped(AfterCrash(d, keepLog, keepManifest)).manifest
    requires KeepsLog(db.wal, d.log[..keepLog], durable) && |db.wal.Appended()| <= durable
    ensures OpenedAs(cfg, db, AfterCrash(d, keepLog, keepManifest))
  {
    hide DB.Sound, DB.Valid, DB.Layers, DiskInv, OpensAs, OpenedAs, KeepsLog, Records.EncodeAll, Bootstrapped, Payloads;
    CrashKeeps(false, cfg, d, keepLog, keepManifest);
    ShortRecords(db.wal, d.log[..keepLog], durable);
    assert d.log[..keepLog][..keepLog] == d.log[..keepLog];
    RepresentsOpened(cfg, db, AfterCrash(d, keepLog, keepManifest), durable);
  }

  lemma {:induction false} KillOpened(cfg: Config, db: DB, crc: Checksum, d: Disk, keepLog: nat, durable: nat)
    requires DiskInv(false, cfg, d) && CrashEnabled(d, keepLog, |d.manifest|) && KillEnabled(d, keepLog) && db.Valid()
    requires OpensAs(cfg, AfterCrash(d, keepLog, |d.manifest|), db.Layers(), db.nextSSTID)
    requires db.syncOnWrite == cfg.sync && db.autoFlush == cfg.auto && !db.closed && !db.flushFailed
    requires db.manifest == Bootstrapped(AfterCrash(d, keepLog, |d.manifest|)).manifest
    requires KeepsLog(db.wal, d.log[..keepLog], durable) && db.wal.format == Records.WalFormat(crc)
    requires SyncedIn(crc, d, durable)
    ensures OpenedAs(cfg, db, AfterKill(d, keepLog))
  {
    hide DB.Sound, DB.Layers, DiskInv, OpensAs, OpenedAs, KeepsLog, Records.EncodeAll, Payloads,
         Records.WalFormat;
    KillKeeps(false, cfg, d, keepLog);
    KillOpensAs(cfg, d, keepLog, db.Layers(), db.nextSSTID);
    assert d.manifest[..|d.manifest|] == d.manifest;
    assert d.log[..keepLog][..d.logSynced] == d.log[..d.logSynced];
    RepresentsOpened(cfg, db, AfterKill(d, keepLog), durable);
  }
}
