/** Where the engine does not do what one might hope, as runs, and exactly when it does. */
module EngineScenarios {
  import opened Basics
  import opened Runs
  import opened Batches
  import opened ManifestReplay
  import opened EngineStore
  import opened EngineProtocol
  import opened EngineLogs
  import opened EngineThreads
  import opened EngineDisk
  import opened EngineInvariant
  import opened EngineTheorems
  import opened EngineReplays
  import opened EngineQuietRuns

  // ----- Common stretches of a run

  /** An engine that admits calls. */
  predicate Idle(l: Live, t: Tid) {
    Admitted(l, t) && AllAwake(l)
  }

  function Write(t: Tid, batch: Batch): seq<Step> {
    [Writer(t, Append(batch)), Writer(t, SyncOk), Writer(t, Apply)]
  }

  /** A write that stays below the threshold. */
  lemma {:induction false} WriteRun(cfg: Config, d: Disk, l: Live, t: Tid, batch: Batch)
    requires Admitted(l, t) && batch != [] && l.store.seqno + |batch| <= MAX_UINT64
    ensures Run(cfg, Up(d, l), Write(t, batch))
         == Some(Up(d.(log := d.log + [LogRec(batch, true, true)],
                       logSynced := if cfg.sync then |d.log| + 1 else d.logSynced,
                       logWritten := if cfg.sync then |d.log| + 1 else d.logWritten),
                    l.(store := Applied(l.store, batch))))
  {
    hide ApplyOps, LockFree;
    var s0 := Up(d, l);
    var s1 := Take(cfg, s0, Writer(t, Append(batch)));
    var s2 := Take(cfg, s1, Writer(t, SyncOk));
    assert Enabled(cfg, s2, Writer(t, Apply));
    var s3 := Take(cfg, s2, Writer(t, Apply));
    assert s3.live.agents == l.agents;
    assert s3.disk.log == d.log + [LogRec(batch, true, true)];
    RunThree(cfg, s0, Writer(t, Append(batch)), Writer(t, SyncOk), Writer(t, Apply));
  }

  lemma {:induction false} WriterSteps(cfg: Config, d: Disk, l: Live, t: Tid, step: WriterStep)
    requires WriterEnabled(cfg, d, l, t, step)
    ensures Enabled(cfg, Up(d, l), Writer(t, step))
    ensures Take(cfg, Up(d, l), Writer(t, step)) == WriterTake(cfg, d, l, t, step)
  {
    hide WriterEnabled, WriterTake;
  }

  lemma {:induction false} TableSteps(cfg: Config, d: Disk, l: Live, t: Tid, step: TableStep)
    requires TableEnabled(cfg, d, l, t, step)
    ensures Enabled(cfg, Up(d, l), Table(t, step))
    ensures Take(cfg, Up(d, l), Table(t, step)) == TableTake(cfg, d, l, t, step)
  {
    hide TableEnabled, TableTake;
  }

  lemma {:induction false} RunTwo(cfg: Config, s: State, a: Step, b: Step)
    requires Enabled(cfg, s, a) && Enabled(cfg, Take(cfg, s, a), b)
    ensures Run(cfg, s, [a, b]) == Some(Take(cfg, Take(cfg, s, a), b))
  {
    hide Enabled, Take;
    var s1 := Take(cfg, s, a);
    assert [a, b][1..] == [b] && [b][1..] == [];
    assert Run(cfg, s1, [b]) == Some(Take(cfg, s1, b)) by {
      assert Run(cfg, Take(cfg, s1, b), []) == Some(Take(cfg, s1, b));
    }
  }

  lemma {:induction false} CallerSteps(cfg: Config, d: Disk, l: Live, t: Tid, step: CallerStep)
    requires CallerEnabled(l, t, step)
    ensures Enabled(cfg, Up(d, l), Caller(t, step))
    ensures Take(cfg, Up(d, l), Caller(t, step)) == Up(d, CallerTake(l, t, step))
    ensures Run(cfg, Up(d, l), [Caller(t, step)]) == Some(Up(d, CallerTake(l, t, step)))
  {
    hide CallerEnabled, CallerTake;
    var s := Up(d, CallerTake(l, t, step));
    assert [Caller(t, step)][1..] == [];
    NoSteps(cfg, s);
  }

  lemma {:induction false} LookSteps(cfg: Config, d: Disk, l: Live)
    requires FlusherEnabled(l)
    ensures Enabled(cfg, Up(d, l), FlusherLook) && Take(cfg, Up(d, l), FlusherLook) == Up(d, FlusherTake(l))
    ensures Run(cfg, Up(d, l), [FlusherLook]) == Some(Up(d, FlusherTake(l)))
  {
    hide FlusherEnabled, FlusherTake;
    assert [FlusherLook][1..] == [];
    NoSteps(cfg, Up(d, FlusherTake(l)));
  }

  lemma {:induction false} NoSteps(cfg: Config, s: State)
    ensures Run(cfg, s, []) == Some(s)
  {
  }

  lemma {:induction false} RunThree(cfg: Config, s: State, a: Step, b: Step, c: Step)
    requires Enabled(cfg, s, a) && Enabled(cfg, Take(cfg, s, a), b) && Enabled(cfg, Take(cfg, Take(cfg, s, a), b), c)
    ensures Run(cfg, s, [a, b, c]) == Some(Take(cfg, Take(cfg, Take(cfg, s, a), b), c))
  {
    hide Enabled, Take;
    var s1 := Take(cfg, s, a);
    var s2 := Take(cfg, s1, b);
    assert [a, b, c][1..] == [b, c] && [b, c][1..] == [c] && [c][1..] == [];
    assert Run(cfg, s2, [c]) == Some(Take(cfg, s2, c)) by {
      assert Run(cfg, Take(cfg, s2, c), []) == Some(Take(cfg, s2, c));
    }
  }

  function FinishFlush(t: Tid): seq<Step> {
    [Table(t, FinishFile), Table(t, PublishAppend(0)), Table(t, PublishInstall)]
  }

  /** The disk once a table with these entries is published. */
  function FlushedDisk(d: Disk, l: Live, entries: seq<Entry>): Disk
    requires entries != [] && l.nextID < MAX_UINT64 && l.store.seqno <= MAX_UINT64
  {
    d.(files := d.files[l.nextID := Complete(entries)],
       manifest := d.manifest + [FlushEdit(l.nextID, 0, entries, l.store.seqno)], manifestSynced := |d.manifest| + 1)
  }

  /** The rest of a flush that succeeds, from the start of the file on. */
  lemma {:induction false} FinishRun(cfg: Config, d: Disk, l: Live, t: Tid)
    requires At(l, t) && l.agents[t].pc.Writing? && l.agents[t].pc.entries != [] && LockFree(l.agents)
    requires t != FLUSHER && l.agents[t].pc.id == l.nextID < MAX_UINT64 && l.store.seqno <= MAX_UINT64
    ensures Run(cfg, Up(d, l), FinishFlush(t)) == Some(Up(FlushedDisk(d, l, l.agents[t].pc.entries),
              l.(store := l.store.(imm := None, ssts := l.store.ssts + [l.agents[t].pc.entries]),
                 nextID := l.nextID + 1, flushErr := None, agents := WakeAll(Without(l.agents, t)))))
  {
    hide FlushEdit, Enabled, Take, WakeAll, Without;
    var a, b, c := FinishFile, PublishAppend(0), PublishInstall;
    var pc := l.agents[t].pc;
    TableSteps(cfg, d, l, t, a);
    var s1 := TableTake(cfg, d, l, t, a);
    assert LockFree(s1.live.agents);
    TableSteps(cfg, s1.disk, s1.live, t, b);
    var s2 := TableTake(cfg, s1.disk, s1.live, t, b);
    TableSteps(cfg, s2.disk, s2.live, t, c);
    ForgetsPlace(l.agents, t, Agent(Written(pc.id, pc.entries, None), false),
                 Agent(Publishing(pc.id, pc.entries), false));
    RunThree(cfg, Up(d, l), Table(t, a), Table(t, b), Table(t, c));
  }

  lemma {:induction false} ForgetsPlace(agents: map<Tid, Agent>, t: Tid, a: Agent, b: Agent)
    ensures Without(agents[t := a][t := b], t) == Without(agents, t)
  {
  }

  function FlushAlone(t: Tid): seq<Step> {
    [Caller(t, FlushGo(None))] + FinishFlush(t)
  }

  /** A Flush call with the slot free and no flusher. */
  lemma {:induction false} FlushRun(cfg: Config, d: Disk, l: Live, t: Tid)
    requires Idle(l, t) && FLUSHER !in l.agents && l.store.mem != [] && l.store.imm.None?
    requires l.nextID < MAX_UINT64 && l.store.seqno <= MAX_UINT64
    ensures Run(cfg, Up(d, l), FlushAlone(t)) == Some(Up(FlushedDisk(d, l, l.store.mem),
              l.(store := l.store.(mem := [], ssts := l.store.ssts + [l.store.mem]), nextID := l.nextID + 1)))
  {
    hide FlushEdit;
    var go := Caller(t, FlushGo(None));
    var l' := StartFlush(l, t, None);
    assert Take(cfg, Up(d, l), go) == Up(d, l');
    FinishRun(cfg, d, l', t);
    assert WakeAll(Without(l'.agents, t)) == l.agents;
    assert FlushAlone(t)[1..] == FinishFlush(t);
  }

  const FRESH := Up(Disk([], 0, 0, [BOOTSTRAP], 1, map[]), Live(Store([], None, [], 0), 1, None, false, map[]))

  lemma {:induction false} OpenFresh(cfg: Config)
    requires !cfg.auto
    ensures Run(cfg, INIT, [Offline(Open)]) == Some(FRESH)
  {
    assert [BOOTSTRAP][..0] == [];
    assert CountersOf([BOOTSTRAP]) == Counters(1, 0, 0, true);
    InitHolds(false, cfg);
    OpenSucceeds(false, cfg, INIT.disk);
    assert AddedIds([BOOTSTRAP]) == [] by {
      assert FileIds(BOOTSTRAP.addedFiles) == [];
    }
    assert Replayed([]) == [];
  }

  // ----- Without sync, a crash can tear a batch

  const NO_SYNC := Config(false, false)

  /** Two writes, a flush, and a crash that loses the second write from the log but not from the table. */
  function TearingRun(first: Batch, second: Batch): seq<Step> {
    [Offline(Open)] + Write(1, first) + Write(1, second) + FlushAlone(1) + [Crash(1, 2), Offline(Open)]
  }

  function Rec(batch: Batch): LogRec {
    LogRec(batch, true, true)
  }

  /** The memtable after two writes to an empty engine. */
  function TwoWrites(first: Batch, second: Batch): (r: seq<Entry>)
    requires |first| + |second| <= MAX_UINT64
  {
    ApplyOps(ApplyOps([], 0, first), |first|, second)
  }

  lemma {:induction false} TwoWritesHold(first: Batch, second: Batch, key: Bytes)
    requires |first| + |second| <= MAX_UINT64
    ensures |TwoWrites(first, second)| == |first| + |second|
    ensures Names(second, key) ==> ScanGet(TwoWrites(first, second), key, |first| + |second|) == FoldView(second, key)
  {
    hide ApplyOps, LastOp, FirstVisible;
    assert StrictlySorted([]) && AtMost([], 0);
    hide StrictlySorted, AtMost;
    ApplyOpsEntries([], 0, first);
    var once := ApplyOps([], 0, first);
    ApplyOpsEntries(once, |first|, second);
    ApplyOpsReads(once, |first|, second, key, |first| + |second|);
  }

  function TornDisk(first: Batch, second: Batch): Disk
    requires first != [] && 0 < |second| && |first| + |second| <= MAX_UINT64 && TwoWrites(first, second) != []
  {
    var mem := TwoWrites(first, second);
    Disk([Rec(first)], 1, 1, [BOOTSTRAP, FlushEdit(1, 0, mem, |first| + |second|)], 2, map[1 := Complete(mem)])
  }

  /** The run up to the crash. */
  lemma {:induction false} TearingRunCrashes(first: Batch, second: Batch)
    requires first != [] && second != [] && |first| + |second| <= MAX_UINT64 && TwoWrites(first, second) != []
    ensures Run(NO_SYNC, INIT, [Offline(Open)] + Write(1, first) + Write(1, second) + FlushAlone(1) + [Crash(1, 2)])
         == Some(Down(TornDisk(first, second)))
  {
    hide Run, ApplyOps, FlushEdit;
    var cfg, open := NO_SYNC, [Offline(Open)];
    var d, l := FRESH.disk, FRESH.live;
    OpenFresh(cfg);
    WriteRun(cfg, d, l, 1, first);
    RunConcat(cfg, INIT, open, Write(1, first));
    var d1, l1 := d.(log := d.log + [Rec(first)]), l.(store := Applied(l.store, first));
    WriteRun(cfg, d1, l1, 1, second);
    RunConcat(cfg, INIT, open + Write(1, first), Write(1, second));
    var d2, l2 := d1.(log := d1.log + [Rec(second)]), l1.(store := Applied(l1.store, second));
    FlushRun(cfg, d2, l2, 1);
    RunConcat(cfg, INIT, open + Write(1, first) + Write(1, second), FlushAlone(1));
    var d3 := FlushedDisk(d2, l2, l2.store.mem);
    var s3 := Run(cfg, INIT, open + Write(1, first) + Write(1, second) + FlushAlone(1)).value;
    RunConcat(cfg, INIT, open + Write(1, first) + Write(1, second) + FlushAlone(1), [Crash(1, 2)]);
    RunOne(cfg, s3, Crash(1, 2));
    assert AfterCrash(d3, 1, 2) == TornDisk(first, second);
  }

  lemma {:induction false} RunOne(cfg: Config, s: State, a: Step)
    requires Enabled(cfg, s, a)
    ensures Run(cfg, s, [a]) == Some(Take(cfg, s, a))
  {
    hide Enabled, Take;
    assert Run(cfg, Take(cfg, s, a), []) == Some(Take(cfg, s, a));
  }

  /** The store that opening a torn disk builds: the first batch replayed over the table that holds both. */
  function TornStore(first: Batch, second: Batch): Store
    requires 2 * |first| + |second| <= MAX_UINT64
  {
    Applied(Store([], None, [TwoWrites(first, second)], |first| + |second|), first)
  }

  lemma {:induction false} TornStoreReads(first: Batch, second: Batch, key: Bytes)
    requires 2 * |first| + |second| <= MAX_UINT64
    requires Layered(Store([], None, [TwoWrites(first, second)], |first| + |second|))
    ensures Names(first, key) ==> FirstHit(TornStore(first, second), key) == FoldView(first, key)
    ensures !Names(first, key) && Names(second, key) ==>
        FirstHit(TornStore(first, second), key) == FoldView(second, key)
  {
    hide ApplyOps, Layered, TwoWrites, FirstHit, LastOp, FoldView, ScanGet, FirstVisible;
    TwoWritesHold(first, second, key);
    ReplayOverOne(TwoWrites(first, second), |first| + |second|, first, key);
  }

  lemma {:induction false} ReplayOverOne(table: seq<Entry>, seqno: nat, ops: seq<Operation>, key: Bytes)
    requires Layered(Store([], None, [table], seqno)) && seqno + |ops| <= MAX_UINT64
    ensures FirstHit(Applied(Store([], None, [table], seqno), ops), key)
         == if Names(ops, key) then FoldView(ops, key) else ScanGet(table, key, seqno)
  {
    hide ApplyOps, Layered, FirstHit, FoldView, ScanGet;
    ApplyReads(Store([], None, [table], seqno), ops, key);
    OnlyTable(Store([], None, [table], seqno), table, key);
  }

  lemma {:induction false} TornDiskOpens(cfg: Config, first: Batch, second: Batch)
    requires first != [] && second != [] && 2 * |first| + |second| <= MAX_UINT64 && TwoWrites(first, second) != []
    requires DiskInv(false, cfg, TornDisk(first, second))
    ensures RoomToReplay(TornDisk(first, second)) && OpenDisk(cfg, TornDisk(first, second)).Ok?
    ensures var s := OpenDisk(cfg, TornDisk(first, second)).value;
            s.Up? && s.disk.log == [Rec(first)] && s.live.store == TornStore(first, second)
    ensures Layered(Store([], None, [TwoWrites(first, second)], |first| + |second|))
  {
    hide AllOps, ApplyOps, Layered, LoadTables, AddedIds, CountersOf, OpenDisk, DiskInv, TwoWrites, FlushEdit, Tables,
         RoomToReplay;
    var d := TornDisk(first, second);
    TornTables(cfg, first, second);
    OpenSucceeds(false, cfg, d);
    assert Bootstrapped(d) == d && Replayed([Rec(first)]) == [Rec(first)];
  }

  lemma {:induction false} OnlyRecord(batch: Batch)
    ensures AllOps([Rec(batch)]) == batch
  {
    OpsSnoc([], Rec(batch));
    assert [] + [Rec(batch)] == [Rec(batch)];
  }

  lemma {:induction false} TornTables(cfg: Config, first: Batch, second: Batch)
    requires first != [] && second != [] && 2 * |first| + |second| <= MAX_UINT64 && TwoWrites(first, second) != []
    requires DiskInv(false, cfg, TornDisk(first, second))
    ensures var d := TornDisk(first, second);
            && AllOps(d.log) == first && RoomToReplay(d) && LoadTables(d.files, AddedIds(d.manifest)).Some?
            && Layered(Tables(d.manifest, d.files))
            && Tables(d.manifest, d.files) == Store([], None, [TwoWrites(first, second)], |first| + |second|)
  {
    hide AllOps, Layered, LoadTables, AddedIds, CountersOf, TwoWrites, TablesOk, WfManifest, Covered, LogOk;
    var d := TornDisk(first, second);
    OnlyRecord(first);
    ManifestCounters(d.manifest);
    TablesLayered(d.manifest, d.files);
    hide DiskInv;
  }

  lemma {:induction false} OnlyTable(s: Store, table: seq<Entry>, key: Bytes)
    requires s.mem == [] && s.imm == None && s.ssts == [table]
    ensures FirstHit(s, key) == ScanGet(table, key, s.seqno)
  {
    assert SstHit([table][..0], key, s.seqno) == Missing;
  }

  /**
   * With sync off a batch can be half applied after a power loss: for any two batches that a Get can tell apart at a
   * shared key, of which only the second puts another key, there is a run after which the shared key reads as the
   * first left it and the other key as the second did. No choice of whole batches shows that.
   */
  lemma {:induction false} WithoutSyncBatchesTear(first: Batch, second: Batch, shared: Bytes, other: Bytes)
    requires Names(first, shared) && Names(second, shared)
    requires Seen(FoldView(first, shared)) != Seen(FoldView(second, shared))
    requires FoldView(second, other).Present? && !Names(first, other) && 2 * |first| + |second| <= MAX_UINT64
    ensures var r := Run(NO_SYNC, INIT, TearingRun(first, second));
            && r.Some? && r.value.Up?
            && Seen(FirstHit(r.value.live.store, shared)) == Seen(FoldView(first, shared))
            && Seen(FirstHit(r.value.live.store, other)) == Seen(FoldView(second, other))
            && forall ops :: ops in {[], first, second, first + second} ==> !SeenAs(r.value.live.store, ops)
  {
    hide Run, FirstHit, OpenDisk, TwoWrites, DiskInv, TearingRun, TornDisk, RoomToReplay, TornStore, Layered;
    NamesSomething(first, shared);
    NamesSomething(second, shared);
    TwoWritesHold(first, second, shared);
    TearingRunOpens(first, second);
    TornDiskOpens(NO_SYNC, first, second);
    NamedIffSeen(second, other);
    hide FoldView, Names;
    TornStoreReads(first, second, shared);
    TornStoreReads(first, second, other);
    NotWhole(TornStore(first, second), first, second, shared, other);
  }

  lemma {:induction false} TearingRunOpens(first: Batch, second: Batch)
    requires first != [] && second != [] && 2 * |first| + |second| <= MAX_UINT64 && TwoWrites(first, second) != []
    ensures DiskInv(false, NO_SYNC, TornDisk(first, second))
    ensures RoomToReplay(TornDisk(first, second)) && OpenDisk(NO_SYNC, TornDisk(first, second)).Ok?
    ensures Run(NO_SYNC, INIT, TearingRun(first, second)) == Some(OpenDisk(NO_SYNC, TornDisk(first, second)).value)
  {
    hide Run, OpenDisk, TwoWrites, Inv, TornDisk, RoomToReplay;
    var steps := [Offline(Open)] + Write(1, first) + Write(1, second) + FlushAlone(1) + [Crash(1, 2)];
    TearingRunCrashes(first, second);
    assert TearingRun(first, second) == steps + [Offline(Open)];
    RunConcat(NO_SYNC, INIT, steps, [Offline(Open)]);
    InitHolds(false, NO_SYNC);
    RunKeeps(false, NO_SYNC, INIT, steps);
    var d := TornDisk(first, second);
    DiskOfLive(false, NO_SYNC, Down(d));
    TornDiskOpens(NO_SYNC, first, second);
    RunOne(NO_SYNC, Down(d), Offline(Open));
  }

  lemma {:induction false} NamesSomething(ops: seq<Operation>, key: Bytes)
    requires Names(ops, key)
    ensures ops != []
  {
  }

  lemma {:induction false} NotWhole(s: Store, first: Batch, second: Batch, shared: Bytes, other: Bytes)
    requires Names(second, shared) && FirstHit(s, shared) == FoldView(first, shared)
    requires Seen(FoldView(first, shared)) != Seen(FoldView(second, shared))
    requires FirstHit(s, other) == FoldView(second, other) && FoldView(second, other).Present? && !Names(first, other)
    ensures forall ops :: ops in {[], first, second, first + second} ==> !SeenAs(s, ops)
  {
    FoldConcat(first, second, shared);
    NamedIffSeen(first, other);
    NamedIffSeen([], other);
    hide FirstHit, FoldView;
    forall ops | ops in {[], first, second, first + second} ensures !SeenAs(s, ops) {
      assert Seen(FirstHit(s, shared)) != Seen(FoldView(ops, shared)) ||
        Seen(FirstHit(s, other)) != Seen(FoldView(ops, other));
    }
  }

  // ----- With sync, a process killed between write and fsync can tear a batch the same way

  const MANUAL := Config(true, false)

  /**
   * The second write is killed before its record is durable; Open replays it all the same, and a flush publishes it.
   */
  function ReplayUnsynced(first: Batch, second: Batch): seq<Step> {
    [Offline(Open)] + Write(1, first) + [Writer(1, Append(second)), Kill(2), Offline(Open)]
  }

  /** Then the power fails. */
  function KilledRun(first: Batch, second: Batch): seq<Step> {
    ReplayUnsynced(first, second) + FlushAlone(1) + [Crash(1, 2)] + [Offline(Open)]
  }

  /** After the kill: two records, one of them durable. */
  function KilledDisk(first: Batch, second: Batch): Disk {
    Disk([Rec(first), LogRec(second, false, false)], 1, 2, [BOOTSTRAP], 1, map[])
  }

  /** The process that replayed both. */
  function Replayer(first: Batch, second: Batch): State
    requires |first| + |second| <= MAX_UINT64
  {
    Up(Disk([Rec(first), LogRec(second, true, false)], 1, 2, [BOOTSTRAP], 1, map[]),
       Live(Store(TwoWrites(first, second), None, [], |first| + |second|), 1, None, false, map[]))
  }

  lemma {:induction false} KillRun(first: Batch, second: Batch)
    requires first != [] && second != [] && |first| + |second| <= MAX_UINT64
    ensures Run(MANUAL, INIT, [Offline(Open)] + Write(1, first) + [Writer(1, Append(second)), Kill(2)])
         == Some(Down(KilledDisk(first, second)))
  {
    hide Run, ApplyOps;
    var open, append, kill := [Offline(Open)], Writer(1, Append(second)), Kill(2);
    var d, l := FRESH.disk, FRESH.live;
    OpenFresh(MANUAL);
    WriteRun(MANUAL, d, l, 1, first);
    RunConcat(MANUAL, INIT, open, Write(1, first));
    var d1, l1 := d.(log := d.log + [Rec(first)], logSynced := 1, logWritten := 1),
      l.(store := Applied(l.store, first));
    RunOne(MANUAL, Up(d1, l1), append);
    RunConcat(MANUAL, INIT, open + Write(1, first), [append]);
    var s2 := Take(MANUAL, Up(d1, l1), append);
    RunOne(MANUAL, s2, kill);
    RunConcat(MANUAL, INIT, open + Write(1, first) + [append], [kill]);
    assert s2.disk.log == [Rec(first), LogRec(second, false, false)];
    assert s2.disk.log[..2] == s2.disk.log && s2.disk.manifest[..1] == s2.disk.manifest;
    assert open + Write(1, first) + [append, kill] == open + Write(1, first) + [append] + [kill];
  }

  lemma {:induction false} TwoRecords(first: Batch, second: Batch)
    ensures AllOps([Rec(first), LogRec(second, false, false)]) == first + second
    ensures Replayed([Rec(first), LogRec(second, false, false)]) == [Rec(first), LogRec(second, true, false)]
  {
    OnlyRecord(first);
    OpsSnoc([Rec(first)], LogRec(second, false, false));
    assert [Rec(first)] + [LogRec(second, false, false)] == [Rec(first), LogRec(second, false, false)];
  }

  lemma {:induction false} OpenKilled(first: Batch, second: Batch)
    requires first != [] && second != [] && |first| + |second| <= MAX_UINT64
    requires DiskInv(false, MANUAL, KilledDisk(first, second))
    ensures RoomToReplay(KilledDisk(first, second)) && OpenDisk(MANUAL, KilledDisk(first, second)).Ok?
    ensures OpenDisk(MANUAL, KilledDisk(first, second)).value == Replayer(first, second)
  {
    hide LoadTables, AddedIds, CountersOf, OpenDisk, ApplyOps, AllOps, Replayed, Layered, DiskInv, LogOk, WfManifest,
         TablesOk, Covered;
    var d := KilledDisk(first, second);
    DiskParts(false, MANUAL, d);
    TwoRecords(first, second);
    ManifestCounters(d.manifest);
    TablesLayered(d.manifest, d.files);
    ApplyOpsConcat([], 0, first, second);
    assert RoomToReplay(d);
    OpenSucceeds(false, MANUAL, d);
    assert Tables(d.manifest, d.files).ssts == [];
  }

  /** A log record that was never acknowledged and never durable is replayed, and reads show it. */
  lemma {:induction false} ReplayUnsyncedRun(first: Batch, second: Batch)
    requires first != [] && second != [] && |first| + |second| <= MAX_UINT64
    ensures Run(MANUAL, INIT, ReplayUnsynced(first, second)) == Some(Replayer(first, second))
  {
    hide Run, Inv, OpenDisk, RoomToReplay, Replayer, DiskInv;
    var steps := [Offline(Open)] + Write(1, first) + [Writer(1, Append(second)), Kill(2)];
    KillRun(first, second);
    InitHolds(false, MANUAL);
    RunKeeps(false, MANUAL, INIT, steps);
    DiskOfLive(false, MANUAL, Down(KilledDisk(first, second)));
    OpenKilled(first, second);
    RunOne(MANUAL, Down(KilledDisk(first, second)), Offline(Open));
    RunConcat(MANUAL, INIT, steps, [Offline(Open)]);
    assert ReplayUnsynced(first, second) == steps + [Offline(Open)];
  }

  lemma {:induction false} KilledRunTears(first: Batch, second: Batch)
    requires first != [] && second != [] && |first| + |second| <= MAX_UINT64 && TwoWrites(first, second) != []
    ensures Run(MANUAL, Replayer(first, second), FlushAlone(1) + [Crash(1, 2)]) == Some(Down(TornDisk(first, second)))
  {
    hide Run, TwoWrites, FlushEdit;
    var s := Replayer(first, second);
    FlushRun(MANUAL, s.disk, s.live, 1);
    var s1 := Run(MANUAL, s, FlushAlone(1)).value;
    RunConcat(MANUAL, s, FlushAlone(1), [Crash(1, 2)]);
    RunOne(MANUAL, s1, Crash(1, 2));
    assert s1.disk.log[..1] == [Rec(first)] && s1.disk.manifest[..2] == s1.disk.manifest;
    assert s1.disk.manifest == [BOOTSTRAP, FlushEdit(1, 0, TwoWrites(first, second), |first| + |second|)];
  }

  lemma {:induction false} KilledRunOpens(first: Batch, second: Batch)
    requires first != [] && second != [] && 2 * |first| + |second| <= MAX_UINT64 && TwoWrites(first, second) != []
    ensures DiskInv(false, MANUAL, TornDisk(first, second))
    ensures RoomToReplay(TornDisk(first, second)) && OpenDisk(MANUAL, TornDisk(first, second)).Ok?
    ensures var rest := FlushAlone(1) + [Crash(1, 2)] + [Offline(Open)];
            Run(MANUAL, Replayer(first, second), rest) == Some(OpenDisk(MANUAL, TornDisk(first, second)).value)
    ensures Run(MANUAL, INIT, KilledRun(first, second)) == Some(OpenDisk(MANUAL, TornDisk(first, second)).value)
  {
    hide Run, OpenDisk, TwoWrites, Inv, TornDisk, RoomToReplay, Replayer, DiskInv;
    var s, torn := Replayer(first, second), FlushAlone(1) + [Crash(1, 2)];
    ReplayUnsyncedRun(first, second);
    KilledRunTears(first, second);
    assert Reachable(MANUAL, s);
    ReachableInv(MANUAL, s);
    RunKeeps(false, MANUAL, s, torn);
    DiskOfLive(false, MANUAL, Down(TornDisk(first, second)));
    TornDiskOpens(MANUAL, first, second);
    RunOne(MANUAL, Down(TornDisk(first, second)), Offline(Open));
    RunConcat(MANUAL, s, torn, [Offline(Open)]);
    RunConcat(MANUAL, INIT, ReplayUnsynced(first, second), torn + [Offline(Open)]);
    assert KilledRun(first, second) == ReplayUnsynced(first, second) + (torn + [Offline(Open)]);
  }

  /**
   * With sync on: a write killed between the system's write and its fsync, replayed by Open, published by a flush,
   * and then a power loss. The batch was never acknowledged, and afterwards it is half applied.
   */
  lemma {:induction false} KilledBatchesTear(first: Batch, second: Batch, shared: Bytes, other: Bytes)
    requires Names(first, shared) && Names(second, shared)
    requires Seen(FoldView(first, shared)) != Seen(FoldView(second, shared))
    requires FoldView(second, other).Present? && !Names(first, other) && 2 * |first| + |second| <= MAX_UINT64
    ensures var r := Run(MANUAL, INIT, KilledRun(first, second));
            && r.Some? && r.value.Up?
            && Seen(FirstHit(r.value.live.store, shared)) == Seen(FoldView(first, shared))
            && Seen(FirstHit(r.value.live.store, other)) == Seen(FoldView(second, other))
            && forall ops :: ops in {[], first, second, first + second} ==> !SeenAs(r.value.live.store, ops)
  {
    hide Run, FirstHit, OpenDisk, TwoWrites, DiskInv, KilledRun, TornDisk, RoomToReplay, TornStore, Layered;
    NamesSomething(first, shared);
    NamesSomething(second, shared);
    TwoWritesHold(first, second, shared);
    KilledRunOpens(first, second);
    TornDiskOpens(MANUAL, first, second);
    NamedIffSeen(second, other);
    hide FoldView, Names;
    TornStoreReads(first, second, shared);
    TornStoreReads(first, second, other);
    NotWhole(TornStore(first, second), first, second, shared, other);
  }

  /** From the same process: a run without writes that changes a read, and one that lowers the sequence counter. */
  lemma {:induction false} ReplayedWriteUndone(first: Batch, second: Batch, shared: Bytes)
    requires Names(first, shared) && Names(second, shared)
    requires Seen(FoldView(first, shared)) != Seen(FoldView(second, shared)) && 2 * |first| + |second| <= MAX_UINT64
    ensures var s := Replayer(first, second);
            s.Up? && Reachable(MANUAL, s) && Settled(s.disk) && !ReadsHold(MANUAL, s) && !CounterHolds(MANUAL, s)
  {
    hide Run, Inv, FoldView, ReadsHold, CounterHolds, TwoWrites, Settled, Reachable;
    NamesSomething(first, shared);
    NamesSomething(second, shared);
    TwoWritesHold(first, second, shared);
    ReplayerIs(first, second);
    CounterFalls(first, second);
    hide Replayer;
    ReadsGoBack(first, second, shared);
  }

  lemma {:induction false} ReplayerIs(first: Batch, second: Batch)
    requires first != [] && second != [] && |first| + |second| <= MAX_UINT64
    ensures var s := Replayer(first, second); s.Up? && Reachable(MANUAL, s) && Settled(s.disk)
  {
    hide Run, TwoWrites;
    ReplayUnsyncedRun(first, second);
  }

  lemma {:induction false} CounterFalls(first: Batch, second: Batch)
    requires first != [] && second != [] && |first| + |second| <= MAX_UINT64
    ensures !CounterHolds(MANUAL, Replayer(first, second))
  {
    ReplayerIs(first, second);
    ReplayerFloor(first, second);
    hide Run, TwoWrites, Reachable, Floor, CounterHolds;
    SeqnoNeverDecreasesIff(MANUAL, Replayer(first, second));
  }

  lemma {:induction false} ReadsGoBack(first: Batch, second: Batch, shared: Bytes)
    requires first != [] && second != [] && 2 * |first| + |second| <= MAX_UINT64 && TwoWrites(first, second) != []
    requires Names(first, shared) && Names(second, shared)
    requires Seen(FoldView(first, shared)) != Seen(FoldView(second, shared))
    ensures !ReadsHold(MANUAL, Replayer(first, second))
  {
    hide Run, FoldView, ReadsHold, TwoWrites, Names, OpenDisk, TornDisk, Layered, TornStore, RoomToReplay, DiskInv,
         Replayer;
    KilledRunOpens(first, second);
    TornDiskOpens(MANUAL, first, second);
    TornStoreReads(first, second, shared);
    ReplayerReads(first, second, shared);
    ReadsMove(first, second, shared);
  }

  lemma {:induction false} ReadsMove(first: Batch, second: Batch, shared: Bytes)
    requires |first| + |second| <= MAX_UINT64
    requires var rest := FlushAlone(1) + [Crash(1, 2)] + [Offline(Open)];
             var r := Run(MANUAL, Replayer(first, second), rest);
             && r.Some? && r.value.Up?
             && Seen(FirstHit(r.value.live.store, shared)) != Seen(FirstHit(Replayer(first, second).live.store, shared))
    ensures !ReadsHold(MANUAL, Replayer(first, second))
  {
    hide Run, FirstHit, AppendedBatches, TwoWrites, FlushAlone;
    NothingWritten();
  }

  lemma {:induction false} ReplayerFloor(first: Batch, second: Batch)
    requires first != [] && second != [] && |first| + |second| <= MAX_UINT64
    ensures var s := Replayer(first, second); Bounds(s.disk) && Floor(s.disk) < s.live.store.seqno
  {
    hide TwoWrites;
    var d := Replayer(first, second).disk;
    OnlyRecord(first);
    assert d.log[..1] == [Rec(first)] && d.manifest[..1] == [BOOTSTRAP];
  }

  lemma {:induction false} ReplayerReads(first: Batch, second: Batch, key: Bytes)
    requires |first| + |second| <= MAX_UINT64 && Names(second, key)
    ensures FirstHit(Replayer(first, second).live.store, key) == FoldView(second, key)
  {
    NamedIffSeen(second, key);
    hide TwoWrites, FoldView, LastOp, ScanGet, SstHit;
    TwoWritesHold(first, second, key);
  }

  lemma {:induction false} NothingWritten()
    ensures AppendedBatches(FlushAlone(1) + [Crash(1, 2)] + [Offline(Open)]) == []
  {
    var steps := FlushAlone(1) + [Crash(1, 2)] + [Offline(Open)];
    forall i | 0 <= i < |steps| ensures !IsAppend(steps[i]) {
    }
    NoAppends(steps);
  }

  lemma {:induction false} NoAppends(steps: seq<Step>)
    requires forall i :: 0 <= i < |steps| ==> !IsAppend(steps[i])
    ensures AppendedBatches(steps) == []
  {
    if steps != [] {
      NoAppends(steps[..|steps| - 1]);
    }
  }

  // ----- Overlapping Flush calls without a flusher

  /** One call starts a flush; a second one waits behind it with something to flush; a third takes the slot first. */
  function OverlappingFlushes(first: Batch, second: Batch): seq<Step> {
    [Offline(Open)] + Write(9, first) + [Caller(1, FlushGo(None))] + Write(9, second) + [Caller(2, FlushStall)]
    + FinishFlush(1) + FlushAlone(3) + FlushNothing(2)
  }

  /** The waiting call freezes whatever the memtable is by now. */
  function FlushNothing(t: Tid): seq<Step> {
    [Caller(t, ResumeStalled(None)), Table(t, FailFile(EmptyMemtable, false)), Table(t, ReportFailure)]
  }

  /** A waiting Flush call that wakes to an empty memtable and a free slot freezes nothing and fails the database. */
  lemma {:induction false} FlushNothingFails(cfg: Config, d: Disk, l: Live, t: Tid)
    requires t != FLUSHER && FLUSHER !in l.agents && AllAwake(l) && LockFree(l.agents)
    requires t in l.agents && l.agents[t].pc.CallerStalled? && !l.closed && l.flushErr.None?
    requires l.store.imm.None? && l.store.mem == []
    ensures var r := Run(cfg, Up(d, l), FlushNothing(t));
            && r.Some? && r.value.Up? && r.value.live.flushErr == Some(EmptyMemtable)
            && r.value.live.store == l.store.(imm := Some([])) && r.value.disk.log == d.log
  {
    var s0 := Up(d, l);
    var s1 := Take(cfg, s0, Caller(t, ResumeStalled(None)));
    var s2 := Take(cfg, s1, Table(t, FailFile(EmptyMemtable, false)));
    assert Enabled(cfg, s2, Table(t, ReportFailure));
    RunThree(cfg, s0, Caller(t, ResumeStalled(None)), Table(t, FailFile(EmptyMemtable, false)),
      Table(t, ReportFailure));
  }

  /** The states on the way: after the first write, its flush under way, the second write, and a waiting second call. */
  function Waiting(first: Batch, second: Batch): Live
    requires |first| + |second| <= MAX_UINT64
  {
    var flushing := StartFlush(FRESH.live.(store := Applied(FRESH.live.store, first)), 1, None);
    var l := flushing.(store := Applied(flushing.store, second));
    l.(agents := l.agents[2 := Agent(CallerStalled, true)])
  }

  lemma {:induction false} BuildUp(first: Batch, second: Batch)
    requires first != [] && second != [] && |first| + |second| <= MAX_UINT64
    ensures Run(MANUAL, INIT, [Offline(Open)] + Write(9, first) + [Caller(1, FlushGo(None))]
                + Write(9, second) + [Caller(2, FlushStall)])
         == Some(Up(FRESH.disk.(log := [Rec(first), Rec(second)], logSynced := 2, logWritten := 2),
           Waiting(first, second)))
  {
    hide Run, ApplyOps;
    var open, go, stall := [Offline(Open)], Caller(1, FlushGo(None)), Caller(2, FlushStall);
    var d, l := FRESH.disk, FRESH.live;
    OpenFresh(MANUAL);
    WriteRun(MANUAL, d, l, 9, first);
    RunConcat(MANUAL, INIT, open, Write(9, first));
    var d1, l1 := d.(log := d.log + [Rec(first)], logSynced := 1, logWritten := 1),
      l.(store := Applied(l.store, first));
    MemGrows([], 0, first);
    RunOne(MANUAL, Up(d1, l1), go);
    RunConcat(MANUAL, INIT, open + Write(9, first), [go]);
    var l2 := StartFlush(l1, 1, None);
    WriteRun(MANUAL, d1, l2, 9, second);
    RunConcat(MANUAL, INIT, open + Write(9, first) + [go], Write(9, second));
    var d3, l3 := d1.(log := d1.log + [Rec(second)], logSynced := 2, logWritten := 2),
      l2.(store := Applied(l2.store, second));
    MemGrows([], |first|, second);
    RunOne(MANUAL, Up(d3, l3), stall);
    RunConcat(MANUAL, INIT, open + Write(9, first) + [go] + Write(9, second), [stall]);
    assert d3.log == [Rec(first), Rec(second)];
  }

  lemma {:induction false} MemGrows(mem: seq<Entry>, seqno: nat, ops: seq<Operation>)
    requires seqno + |ops| <= MAX_UINT64 && ops != []
    ensures ApplyOps(mem, seqno, ops) != []
  {
  }

  /**
   * Three overlapping Flush calls and two writes, with no flusher, bring the database to the empty-memtable failure.
   */
  lemma {:induction false} OverlappingFlushesPoison(first: Batch, second: Batch)
    requires first != [] && second != [] && |first| + |second| <= MAX_UINT64
    ensures var r := Run(MANUAL, INIT, OverlappingFlushes(first, second));
            && r.Some? && r.value.Up? && r.value.live.flushErr == Some(EmptyMemtable)
            && r.value.disk.log == [Rec(first), Rec(second)]
  {
    hide Run, ApplyOps, FlushEdit;
    var steps := [Offline(Open)] + Write(9, first) + [Caller(1, FlushGo(None))]
               + Write(9, second) + [Caller(2, FlushStall)];
    BuildUp(first, second);
    MemGrows([], 0, first);
    MemGrows([], |first|, second);
    var d, l := FRESH.disk.(log := [Rec(first), Rec(second)], logSynced := 2, logWritten := 2), Waiting(first, second);
    FinishRun(MANUAL, d, l, 1);
    RunConcat(MANUAL, INIT, steps, FinishFlush(1));
    var s1 := Run(MANUAL, INIT, steps + FinishFlush(1)).value;
    FlushRun(MANUAL, s1.disk, s1.live, 3);
    RunConcat(MANUAL, INIT, steps + FinishFlush(1), FlushAlone(3));
    var s2 := Run(MANUAL, INIT, steps + FinishFlush(1) + FlushAlone(3)).value;
    FlushNothingFails(MANUAL, s2.disk, s2.live, 2);
    RunConcat(MANUAL, INIT, steps + FinishFlush(1) + FlushAlone(3), FlushNothing(2));
    assert OverlappingFlushes(first, second) == steps + FinishFlush(1) + FlushAlone(3) + FlushNothing(2);
  }

  predicate EmptyAndFree(s: Store) {
    s.imm.None? && s.mem == []
  }

  /**
   * A call starts on an empty memtable exactly when it is one that waited, wakes to a free slot, and finds the
   * memtable empty.
   */
  lemma {:induction false} EmptyFlushIff(cfg: Config, s: State, t: Tid, step: CallerStep)
    requires Reachable(cfg, s) && s.Up? && CallerEnabled(s.live, t, step)
    ensures BusyAt(CallerTake(s.live, t, step), t) && CallerTake(s.live, t, step).agents[t].pc.entries == []
       <==> !cfg.auto && step.ResumeStalled? && !s.live.closed && s.live.flushErr.None? && EmptyAndFree(s.live.store)
  {
    ReachableInv(cfg, s);
    hide LiveInv, LockFree, Signal, CanSignal;
  }

  /** Work on an empty memtable can only end in failure: no file is finished and nothing is published. */
  lemma {:induction false} EmptyFlushFails(cfg: Config, d: Disk, l: Live, t: Tid, step: TableStep)
    requires ThreadsInv(cfg, l) && BusyAt(l, t) && l.agents[t].pc.entries == [] && TableEnabled(cfg, d, l, t, step)
    ensures step.CreateFile? || step.FailFile? || step.ReportFailure?
    ensures step.ReportFailure? ==> TableTake(cfg, d, l, t, step).live.flushErr.Some?
  {
  }

  lemma {:induction false} FailureStays(cfg: Config, s: State, step: Step)
    requires Inv(false, cfg, s) && s.Up? && s.live.flushErr.Some? && Enabled(cfg, s, step) && KeepsRunning(step)
    ensures !IsAppend(step)
    ensures Take(cfg, s, step).Up? && Take(cfg, s, step).live.flushErr == s.live.flushErr
  {
    hide LiveInv, LockFree, Signal, CanSignal, WakeAll, Without, FlushEdit, ApplyOps, MarkLast;
  }

  /** Once a flush has failed, no write is ever admitted again until the process restarts. */
  lemma {:induction false} FailureIsPermanent(cfg: Config, s: State, steps: seq<Step>)
    requires Reachable(cfg, s) && s.Up? && s.live.flushErr.Some? && Run(cfg, s, steps).Some?
    requires forall i :: 0 <= i < |steps| ==> KeepsRunning(steps[i])
    ensures var s' := Run(cfg, s, steps).value; s'.Up? && s'.live.flushErr == s.live.flushErr
    ensures AppendedBatches(steps) == []
    decreases |steps|
  {
    hide Inv, Take, Enabled, Reachable;
    if steps != [] {
      var n := |steps| - 1;
      RunSnoc(cfg, s, steps);
      FailureIsPermanent(cfg, s, steps[..n]);
      ReachableInv(cfg, s);
      RunKeeps(false, cfg, s, steps[..n]);
      FailureStays(cfg, Run(cfg, s, steps[..n]).value, steps[n]);
    }
  }

  /** The flusher works only on memtables that hold something, and reports no empty one. */
  predicate EmptyPc(pc: Pc) {
    Busy(pc) && (pc.entries == [] || (pc.Written? && pc.error == Some(EmptyMemtable)))
  }

  ghost predicate NoEmptyWork(l: Live) {
    l.flushErr != Some(EmptyMemtable) && forall t :: t in l.agents ==> !EmptyPc(l.agents[t].pc)
  }

  lemma {:induction false} StepNoEmptyWork(cfg: Config, s: State, step: Step)
    requires cfg.auto && Inv(false, cfg, s) && Enabled(cfg, s, step) && (s.Up? ==> NoEmptyWork(s.live))
    ensures var s' := Take(cfg, s, step); s'.Up? ==> NoEmptyWork(s'.live)
  {
    hide LiveInv, OpenDisk, LockFree, CanSignal, RoomToReplay, FlushEdit, ApplyOps, MarkLast;
    match step
    case Offline(o) => if o.Open? { FreshAgents(cfg, s.disk); }
    case Writer(t, w) => WriterNoEmptyWork(cfg, s.disk, s.live, t, w);
    case Caller(t, c) => CallerNoEmptyWork(cfg, s.live, t, c);
    case Table(t, j) => TableNoEmptyWork(cfg, s.disk, s.live, t, j);
    case _ => hide WriterTake, WriterEnabled, CallerTake, CallerEnabled, TableTake, TableEnabled, OfflineTake,
      OfflineEnabled;
  }

  lemma {:induction false} FreshAgents(cfg: Config, d: Disk)
    requires OfflineEnabled(cfg, d, Open)
    ensures var s := OfflineTake(cfg, d, Open); s.Up? && NoEmptyWork(s.live)
  {
    hide LoadTables, AddedIds, ApplyOps, AllOps, CountersOf, LiveOf, Replayed, RoomToReplay;
  }

  lemma {:induction false} WriterNoEmptyWork(cfg: Config, d: Disk, l: Live, t: Tid, step: WriterStep)
    requires WriterEnabled(cfg, d, l, t, step) && NoEmptyWork(l)
    ensures NoEmptyWork(WriterTake(cfg, d, l, t, step).live)
  {
    hide LockFree, ApplyOps, MarkLast;
  }

  lemma {:induction false} CallerNoEmptyWork(cfg: Config, l: Live, t: Tid, step: CallerStep)
    requires cfg.auto && CallerEnabled(l, t, step) && NoEmptyWork(l) && ThreadsInv(cfg, l)
    ensures NoEmptyWork(CallerTake(l, t, step))
  {
    hide LockFree;
  }

  lemma {:induction false} TableNoEmptyWork(cfg: Config, d: Disk, l: Live, t: Tid, step: TableStep)
    requires TableEnabled(cfg, d, l, t, step) && NoEmptyWork(l)
    ensures NoEmptyWork(TableTake(cfg, d, l, t, step).live)
  {
    hide LockFree, FlushEdit;
  }

  /** With the background flusher on, no run ever meets the empty-memtable failure. */
  lemma {:induction false} FlusherNeverPoisons(cfg: Config, steps: seq<Step>)
    requires cfg.auto && Run(cfg, INIT, steps).Some?
    ensures var s := Run(cfg, INIT, steps).value; s.Up? ==>
        s.live.flushErr != Some(EmptyMemtable) && NoEmptyWork(s.live)
  {
    hide Inv, Take, Enabled;
    if steps != [] {
      var n := |steps| - 1;
      RunSnoc(cfg, INIT, steps);
      FlusherNeverPoisons(cfg, steps[..n]);
      InitHolds(false, cfg);
      RunKeeps(false, cfg, INIT, steps[..n]);
      StepNoEmptyWork(cfg, Run(cfg, INIT, steps[..n]).value, steps[n]);
    }
  }
}
