/**
 * The engine as a state machine. A state is what is on disk and, while the process runs, what is in
 * memory together with the goroutines that are inside an engine call. One step is one stretch of code
 * between lock operations, or one point inside such a stretch at which a crash leaves a different disk.
 */
module EngineProtocol {
  import opened Basics
  import opened Runs
  import opened Batches
  import opened VersionEdits
  import opened ManifestReplay
  import opened EngineStore

  /** sync: fsync the log before a write is applied. auto: a background flusher runs and writers rotate. */
  datatype Config = Config(sync: bool, auto: bool)

  type Batch = seq<Operation>

  /** A log record, with what the process that wrote it knows: whether it is in the memtable and acknowledged. */
  datatype LogRec = LogRec(batch: Batch, applied: bool, acked: bool)

  /** A table file is complete only once it and its directory entry are durable. */
  datatype FileState = Partial | Complete(entries: seq<Entry>)

  /**
   * logSynced: records a power loss keeps for certain. logWritten: records the system has been given for certain,
   * which the death of the process alone cannot take. The manifest is written without a buffer. No manifest edits at
   * all means that CURRENT has not been installed.
   */
  datatype Disk = Disk(
    log: seq<LogRec>, logSynced: nat, logWritten: nat,
    manifest: seq<VersionEdit>, manifestSynced: nat,
    files: map<nat, FileState>)

  datatype FlushError = EmptyMemtable | WriteFailure | PublishFailure

  type Tid = nat

  /** The background flusher; every other id is a caller. */
  const FLUSHER: Tid := 0

  /** Where a goroutine is, with what its local variables hold. Appended, Synced and Publishing hold the lock. */
  datatype Pc =
    | Appended(batch: Batch)                     // Write: record in the log, not yet synced
    | Synced(batch: Batch)                       // Write: log synced, batch not yet applied
    | WriterStalled(batch: Batch, rec: nat)      // Write: applied as record rec, waiting for the flush slot to rotate
    | CallerStalled                              // Flush: waiting for the flush slot
    | CallerWaiting                              // Flush: handed its memtable to the flusher, waiting for it
    | FlusherLoop                                // flusher: at the top of its loop
    | Writing(id: nat, entries: seq<Entry>)                              // building the table file, lock released
    | Written(id: nat, entries: seq<Entry>, error: Option<FlushError>)   // file done or failed, lock not yet taken
    | Publishing(id: nat, entries: seq<Entry>)                           // manifest edit durable, memory not updated

  /** asleep: in the condition's wait set. */
  datatype Agent = Agent(pc: Pc, asleep: bool)

  datatype Live = Live(
    store: Store, nextID: nat, flushErr: Option<FlushError>, closed: bool, agents: map<Tid, Agent>)

  datatype State = Down(disk: Disk) | Up(disk: Disk, live: Live)

  const INIT := Down(Disk([], 0, 0, [], 0, map[]))

  // ----- Logs

  function AllOps(log: seq<LogRec>): seq<Operation> {
    if log == [] then [] else AllOps(log[..|log| - 1]) + log[|log| - 1].batch
  }

  function AppliedOps(log: seq<LogRec>): seq<Operation> {
    if log == [] then []
    else AppliedOps(log[..|log| - 1]) + if log[|log| - 1].applied then log[|log| - 1].batch else []
  }

  function Replayed(log: seq<LogRec>): (r: seq<LogRec>)
    ensures |r| == |log|
    ensures forall i :: 0 <= i < |r| ==> r[i] == log[i].(applied := true)
  {
    seq(|log|, i requires 0 <= i < |log| => log[i].(applied := true))
  }

  /** Nothing that has been applied would be lost by a power loss. */
  predicate AllAppliedSynced(d: Disk) {
    forall i :: 0 <= i < |d.log| && d.log[i].applied ==> i < d.logSynced
  }

  // ----- Locks and the condition variable

  predicate HoldsLock(pc: Pc) {
    pc.Appended? || pc.Synced? || pc.Publishing?
  }

  predicate LockFree(agents: map<Tid, Agent>) {
    forall t :: t in agents ==> !HoldsLock(agents[t].pc)
  }

  predicate AllAwake(l: Live) {
    forall t :: t in l.agents ==> !l.agents[t].asleep
  }

  function WakeAll(agents: map<Tid, Agent>): map<Tid, Agent> {
    map t | t in agents :: agents[t].(asleep := false)
  }

  /** Signal wakes one waiter, any one, if there is one. */
  predicate CanSignal(agents: map<Tid, Agent>, w: Option<Tid>) {
    match w
    case None => forall t :: t in agents ==> !agents[t].asleep
    case Some(t) => t in agents && agents[t].asleep
  }

  function Signal(agents: map<Tid, Agent>, w: Option<Tid>): map<Tid, Agent>
    requires CanSignal(agents, w)
  {
    if w.None? then agents else agents[w.value := agents[w.value].(asleep := false)]
  }

  function Without(agents: map<Tid, Agent>, t: Tid): (r: map<Tid, Agent>)
    ensures r.Keys == agents.Keys - {t}
    ensures forall u :: u in r ==> r[u] == agents[u]
  {
    map u | u in agents && u != t :: agents[u]
  }

  // ----- Manifest edits

  const BOOTSTRAP := VersionEdit([], [], true, 1, true, 0, true, 0)

  /** The edit of publishFlushedSSTLocked; its LastSequence is the counter at publication. */
  function FlushEdit(id: nat, size: uint64, entries: seq<Entry>, seqno: nat): VersionEdit
    requires entries != [] && id < MAX_UINT64 && seqno <= MAX_UINT64
  {
    VersionEdit([FileMetadata(0, id, size, entries[0].key, entries[|entries| - 1].key)], [],
                true, id + 1, true, seqno, false, 0)
  }

  /** The files a manifest adds, in order. */
  function AddedIds(edits: seq<VersionEdit>): seq<nat> {
    if edits == [] then [] else AddedIds(edits[..|edits| - 1]) + FileIds(edits[|edits| - 1].addedFiles)
  }

  function FileIds(fs: seq<FileMetadata>): seq<nat> {
    if fs == [] then [] else [fs[0].fileID as nat] + FileIds(fs[1..])
  }

  // ----- Open

  datatype OpenError = DuplicateAddFile | MissingNextFileID | MissingTable

  /** Readers for every referenced file; None when one is missing or incomplete. */
  function LoadTables(files: map<nat, FileState>, ids: seq<nat>): Option<seq<seq<Entry>>> {
    if ids == [] then Some([])
    else
      var id := ids[|ids| - 1];
      match LoadTables(files, ids[..|ids| - 1])
      case None => None
      case Some(tables) => if id in files && files[id].Complete? then Some(tables + [files[id].entries]) else None
  }

  /** A fresh directory gets a manifest with the initial counters; its installation is the commit point. */
  function Bootstrapped(d: Disk): Disk {
    if d.manifest == [] then d.(manifest := [BOOTSTRAP], manifestSynced := 1) else d
  }

  /** The sequence numbers that replaying the whole log needs are there. */
  predicate RoomToReplay(d: Disk) {
    CountersOf(Bootstrapped(d).manifest).lastSequence + |AllOps(d.log)| <= MAX_UINT64
  }

  function StartingAgents(cfg: Config): map<Tid, Agent> {
    if cfg.auto then map[FLUSHER := Agent(FlusherLoop, false)] else map[]
  }

  /** Manifest first, then tables, then the whole log on top, numbered from the manifest's last sequence. */
  function OpenDisk(cfg: Config, disk: Disk): Result<State, OpenError>
    requires RoomToReplay(disk)
  {
    var d := Bootstrapped(disk);
    var c := CountersOf(d.manifest);
    if LiveOf(d.manifest).None? then Err(DuplicateAddFile)
    else if !c.sawNextFileID then Err(MissingNextFileID)
    else match LoadTables(d.files, AddedIds(d.manifest))
      case None => Err(MissingTable)
      case Some(tables) =>
        var store := Applied(Store([], None, tables, c.lastSequence), AllOps(d.log));
        Ok(Up(d.(log := Replayed(d.log)), Live(store, c.nextFileID, None, false, StartingAgents(cfg))))
  }

  // ----- Steps

  datatype OfflineStep =
    | Cleanup(id: nat)                   // removes one unreferenced table file
    | PowerLoss(keepLog: nat, keepManifest: nat)
    | Open

  datatype WriterStep =
    | Append(batch: Batch)
    | SyncFail
    | SyncOk
    | Apply
    | ApplyRotate(wake: Option<Tid>)     // over the threshold, flush slot free
    | ApplyStall                         // over the threshold, flush slot taken
    | ResumeWriter(wake: Option<Tid>)

  datatype CallerStep =
    | FlushStall
    | FlushGo(wake: Option<Tid>)
    | ResumeStalled(wake: Option<Tid>)
    | ResumeWaiting

  datatype TableStep =
    | CreateFile
    | FinishFile
    | FailFile(error: FlushError, leftBehind: bool)
    | ReportFailure
    | PublishFails(appended: bool, size: uint64)
    | PublishAppend(size: uint64)
    | PublishInstall

  datatype Step =
    | Offline(offline: OfflineStep)
    | Writer(t: Tid, writer: WriterStep)
    | Caller(t: Tid, caller: CallerStep)
    | FlusherLook
    | Table(t: Tid, table: TableStep)
    | CloseBegin
    | CloseEnd
    | Kill(keepLog: nat)                       // the process dies, the system lives on
    | Crash(keepLog: nat, keepManifest: nat)   // power loss while the process runs

  predicate At(l: Live, t: Tid) {
    t in l.agents && !l.agents[t].asleep
  }

  /** A new call that passes the closed and flushErr checks under a free lock. */
  predicate Admitted(l: Live, t: Tid) {
    t != FLUSHER && t !in l.agents && LockFree(l.agents) && !l.closed && l.flushErr.None?
  }

  /** A woken waiter, or a finished table build, that gets the lock. */
  predicate Woken(l: Live, t: Tid) {
    At(l, t) && LockFree(l.agents)
  }

  function Freeze(s: Store): Store {
    s.(mem := [], imm := Some(s.mem))
  }

  predicate OfflineEnabled(cfg: Config, d: Disk, step: OfflineStep) {
    match step
    case Cleanup(id) => id !in AddedIds(d.manifest)
    case PowerLoss(keepLog, keepManifest) => CrashEnabled(d, keepLog, keepManifest)
    case Open => RoomToReplay(d) && OpenDisk(cfg, d).Ok?
  }

  function OfflineTake(cfg: Config, d: Disk, step: OfflineStep): State
    requires OfflineEnabled(cfg, d, step)
  {
    match step
    case Cleanup(id) => Down(d.(files := map i | i in d.files && i != id :: d.files[i]))
    case PowerLoss(keepLog, keepManifest) => Down(AfterCrash(d, keepLog, keepManifest))
    case Open => OpenDisk(cfg, d).value
  }

  // ----- Writers

  /** A synced batch, with sequence numbers left for it. */
  predicate ReadyToApply(d: Disk, l: Live, t: Tid) {
    && At(l, t) && l.agents[t].pc.Synced? && d.log != []
    && l.store.seqno + |l.agents[t].pc.batch| <= MAX_UINT64
  }

  predicate WriterEnabled(cfg: Config, d: Disk, l: Live, t: Tid, step: WriterStep) {
    match step
    case Append(batch) => Admitted(l, t) && batch != []
    case SyncFail => At(l, t) && l.agents[t].pc.Appended? && cfg.sync
    case SyncOk => At(l, t) && l.agents[t].pc.Appended?
    case Apply => ReadyToApply(d, l, t)
    case ApplyRotate(w) => ReadyToApply(d, l, t) && cfg.auto && l.store.imm.None? && CanSignal(l.agents, w)
    case ApplyStall => ReadyToApply(d, l, t) && cfg.auto && l.store.imm.Some?
    case ResumeWriter(w) =>
      Woken(l, t) && l.agents[t].pc.WriterStalled? && l.agents[t].pc.rec < |d.log| && CanSignal(l.agents, w)
  }

  function MarkLast(d: Disk, acked: bool): Disk
    requires d.log != []
  {
    var n := |d.log| - 1;
    d.(log := d.log[n := d.log[n].(applied := true, acked := acked)])
  }

  function Stalled(batch: Batch, rec: nat): Agent {
    Agent(WriterStalled(batch, rec), true)
  }

  function WriterTake(cfg: Config, d: Disk, l: Live, t: Tid, step: WriterStep): (s: State)
    requires WriterEnabled(cfg, d, l, t, step)
    ensures s.Up?
  {
    match step
    case Append(batch) =>
      Up(d.(log := d.log + [LogRec(batch, false, false)]), l.(agents := l.agents[t := Agent(Appended(batch), false)]))
    case SyncFail => Up(d, l.(agents := Without(l.agents, t)))
    case SyncOk =>
      Up(if cfg.sync then d.(logSynced := |d.log|, logWritten := |d.log|) else d,
         l.(agents := l.agents[t := Agent(Synced(l.agents[t].pc.batch), false)]))
    case Apply =>
      Up(MarkLast(d, true), l.(store := Applied(l.store, l.agents[t].pc.batch), agents := Without(l.agents, t)))
    case ApplyRotate(w) =>
      Up(MarkLast(d, true), l.(store := Freeze(Applied(l.store, l.agents[t].pc.batch)),
                               agents := Without(Signal(l.agents, w), t)))
    case ApplyStall =>
      Up(MarkLast(d, false), l.(store := Applied(l.store, l.agents[t].pc.batch),
                                agents := if l.flushErr.Some? then Without(l.agents, t)
                                          else l.agents[t := Stalled(l.agents[t].pc.batch, |d.log| - 1)]))
    case ResumeWriter(w) =>
      var rec := l.agents[t].pc.rec;
      if l.closed || l.flushErr.Some? then Up(d, l.(agents := Without(l.agents, t)))
      else if l.store.imm.Some? then Up(d, l.(agents := l.agents[t := Agent(l.agents[t].pc, true)]))
      else Up(d.(log := d.log[rec := d.log[rec].(acked := true)]),
              l.(store := Freeze(l.store), agents := Without(Signal(l.agents, w), t)))
  }

  // ----- Flush callers

  predicate CallerEnabled(l: Live, t: Tid, step: CallerStep) {
    match step
    case FlushStall => Admitted(l, t) && l.store.mem != [] && l.store.imm.Some?
    case FlushGo(w) => Admitted(l, t) && l.store.mem != [] && l.store.imm.None? && CanSignal(l.agents, w)
    case ResumeStalled(w) => Woken(l, t) && l.agents[t].pc.CallerStalled? && CanSignal(l.agents, w)
    case ResumeWaiting => Woken(l, t) && l.agents[t].pc.CallerWaiting?
  }

  /** A Flush caller that has the slot: hand the memtable to the flusher if it runs, else write the table itself. */
  function StartFlush(l: Live, t: Tid, w: Option<Tid>): Live
    requires CanSignal(l.agents, w)
  {
    if FLUSHER in l.agents
    then l.(store := Freeze(l.store), agents := Signal(l.agents, w)[t := Agent(CallerWaiting, true)])
    else l.(store := Freeze(l.store), agents := l.agents[t := Agent(Writing(l.nextID, l.store.mem), false)])
  }

  function CallerTake(l: Live, t: Tid, step: CallerStep): Live
    requires CallerEnabled(l, t, step)
  {
    match step
    case FlushStall => l.(agents := l.agents[t := Agent(CallerStalled, true)])
    case FlushGo(w) => StartFlush(l, t, w)
    case ResumeStalled(w) =>
      if l.closed || l.flushErr.Some? then l.(agents := Without(l.agents, t))
      else if l.store.imm.Some? then l.(agents := l.agents[t := Agent(CallerStalled, true)])
      else StartFlush(l, t, w)
    case ResumeWaiting =>
      if l.flushErr.None? && l.store.imm.Some? && !l.closed
      then l.(agents := l.agents[t := Agent(CallerWaiting, true)])
      else l.(agents := Without(l.agents, t))
  }

  // ----- The background flusher at the top of its loop

  predicate FlusherEnabled(l: Live) {
    Woken(l, FLUSHER) && l.agents[FLUSHER].pc.FlusherLoop?
  }

  /** Leaves when closed, sleeps when idle, drops an empty frozen memtable, otherwise starts on it. */
  function FlusherTake(l: Live): Live
    requires FlusherEnabled(l)
  {
    if l.closed then l.(agents := Without(l.agents, FLUSHER))
    else if l.store.imm.None? then l.(agents := l.agents[FLUSHER := Agent(FlusherLoop, true)])
    else if l.store.imm.value == [] then l.(store := l.store.(imm := None), agents := WakeAll(l.agents))
    else l.(agents := l.agents[FLUSHER := Agent(Writing(l.nextID, l.store.imm.value), false)])
  }

  // ----- Building and publishing a table

  predicate MayPublish(l: Live, t: Tid) {
    && Woken(l, t) && l.agents[t].pc.Written? && l.agents[t].pc.error.None? && l.agents[t].pc.entries != []
    && l.nextID < MAX_UINT64 && l.store.seqno <= MAX_UINT64
  }

  predicate TableEnabled(cfg: Config, d: Disk, l: Live, t: Tid, step: TableStep) {
    match step
    case CreateFile => At(l, t) && l.agents[t].pc.Writing?
    case FinishFile => At(l, t) && l.agents[t].pc.Writing? && l.agents[t].pc.entries != []
    case FailFile(error, _) =>
      At(l, t) && l.agents[t].pc.Writing? && (error == EmptyMemtable ==> l.agents[t].pc.entries == [])
    case ReportFailure => Woken(l, t) && l.agents[t].pc.Written? && l.agents[t].pc.error.Some?
    case PublishFails(_, _) => MayPublish(l, t)
    case PublishAppend(_) => MayPublish(l, t)
    case PublishInstall => At(l, t) && l.agents[t].pc.Publishing?
  }

  /** The first flush failure is kept, everybody is woken, and the goroutine that met it is done. */
  function Fail(l: Live, t: Tid, e: FlushError): Live {
    l.(flushErr := Some(e), agents := WakeAll(Without(l.agents, t)))
  }

  function TableTake(cfg: Config, d: Disk, l: Live, t: Tid, step: TableStep): (s: State)
    requires TableEnabled(cfg, d, l, t, step)
    ensures s.Up?
  {
    var pc := l.agents[t].pc;
    match step
    case CreateFile => Up(d.(files := d.files[pc.id := Partial]), l)
    case FinishFile =>
      Up(d.(files := d.files[pc.id := Complete(pc.entries)]),
         l.(agents := l.agents[t := Agent(Written(pc.id, pc.entries, None), false)]))
    case FailFile(error, leftBehind) =>
      Up(d.(files := if leftBehind then d.files[pc.id := Partial]
                     else map i | i in d.files && i != pc.id :: d.files[i]),
         l.(agents := l.agents[t := Agent(Written(pc.id, pc.entries, Some(error)), false)]))
    case ReportFailure => Up(d, Fail(l, t, pc.error.value))
    case PublishFails(appended, size) =>
      var edit := FlushEdit(l.nextID, size, pc.entries, l.store.seqno);
      Up(if appended then d.(manifest := d.manifest + [edit]) else d, Fail(l, t, PublishFailure))
    case PublishAppend(size) =>
      var edit := FlushEdit(l.nextID, size, pc.entries, l.store.seqno);
      Up(d.(manifest := d.manifest + [edit], manifestSynced := |d.manifest| + 1),
         l.(agents := l.agents[t := Agent(Publishing(pc.id, pc.entries), false)]))
    case PublishInstall =>
      Up(d, l.(store := l.store.(imm := None, ssts := l.store.ssts + [pc.entries]),
               nextID := l.nextID + 1, flushErr := None,
               agents := WakeAll(if t == FLUSHER then l.agents[t := Agent(FlusherLoop, false)]
                                 else Without(l.agents, t))))
  }

  // ----- Shutdown, crash, and the whole step relation

  /** Close waits for the flusher; Close racing a caller's own flush is not part of the model. */
  predicate CloseEndEnabled(l: Live) {
    && l.closed && LockFree(l.agents) && FLUSHER !in l.agents
    && (forall t :: t in l.agents ==> !l.agents[t].pc.Writing? && !l.agents[t].pc.Written?)
  }

  /** Close flushes and syncs both logs. */
  function AllSynced(d: Disk): Disk {
    d.(logSynced := |d.log|, logWritten := |d.log|, manifestSynced := |d.manifest|)
  }

  /** A power loss keeps what was synced and any prefix of what was not; whole records stand for bytes. */
  predicate CrashEnabled(d: Disk, keepLog: nat, keepManifest: nat) {
    d.logSynced <= keepLog <= |d.log| && d.manifestSynced <= keepManifest <= |d.manifest|
  }

  /** What survives a power loss is durable. */
  function AfterCrash(d: Disk, keepLog: nat, keepManifest: nat): Disk
    requires CrashEnabled(d, keepLog, keepManifest)
  {
    Disk(d.log[..keepLog], keepLog, keepLog, d.manifest[..keepManifest], keepManifest, d.files)
  }

  /** The death of the process keeps what was written, and whatever else the log's buffer had spilled. */
  predicate KillEnabled(d: Disk, keepLog: nat) {
    d.logWritten <= keepLog <= |d.log|
  }

  /** What survives the process is there to be read, and no more durable than before. */
  function AfterKill(d: Disk, keepLog: nat): Disk
    requires KillEnabled(d, keepLog)
  {
    d.(log := d.log[..keepLog], logWritten := keepLog)
  }

  predicate Enabled(cfg: Config, s: State, step: Step) {
    if s.Down? then step.Offline? && OfflineEnabled(cfg, s.disk, step.offline)
    else match step
      case Offline(_) => false
      case Writer(t, w) => WriterEnabled(cfg, s.disk, s.live, t, w)
      case Caller(t, c) => CallerEnabled(s.live, t, c)
      case FlusherLook => FlusherEnabled(s.live)
      case Table(t, j) => TableEnabled(cfg, s.disk, s.live, t, j)
      case CloseBegin => LockFree(s.live.agents) && !s.live.closed
      case CloseEnd => CloseEndEnabled(s.live)
      case Kill(keepLog) => KillEnabled(s.disk, keepLog)
      case Crash(keepLog, keepManifest) => CrashEnabled(s.disk, keepLog, keepManifest)
  }

  function Take(cfg: Config, s: State, step: Step): State
    requires Enabled(cfg, s, step)
  {
    match step
    case Offline(o) => OfflineTake(cfg, s.disk, o)
    case Writer(t, w) => WriterTake(cfg, s.disk, s.live, t, w)
    case Caller(t, c) => Up(s.disk, CallerTake(s.live, t, c))
    case FlusherLook => Up(s.disk, FlusherTake(s.live))
    case Table(t, j) => TableTake(cfg, s.disk, s.live, t, j)
    case CloseBegin => Up(s.disk, s.live.(closed := true, agents := WakeAll(s.live.agents)))
    case CloseEnd => Down(AllSynced(s.disk))
    case Kill(keepLog) => Down(AfterKill(s.disk, keepLog))
    case Crash(keepLog, keepManifest) => Down(AfterCrash(s.disk, keepLog, keepManifest))
  }

  /** The state after a run; None if some step was not enabled. */
  function Run(cfg: Config, s: State, steps: seq<Step>): Option<State>
    decreases steps
  {
    if steps == [] then Some(s)
    else if Enabled(cfg, s, steps[0]) then Run(cfg, Take(cfg, s, steps[0]), steps[1..])
    else None
  }

  /** A step that puts a flush edit into the manifest. */
  predicate Publishes(step: Step) {
    step.Table? && (step.table.PublishAppend? || (step.table.PublishFails? && step.table.appended))
  }

  /** If the step publishes a table, every applied record is durable by then. */
  predicate DurablePublish(s: State, step: Step) {
    s.Up? && Publishes(step) ==> AllAppliedSynced(s.disk)
  }

  ghost predicate Reachable(cfg: Config, s: State) {
    exists steps :: Run(cfg, INIT, steps) == Some(s)
  }

  // ----- What each kind of step is

  /** The steps of a running process other than writers' and callers'. */
  predicate Works(step: Step) {
    step.FlusherLook? || step.Table? || step.CloseBegin?
  }

  lemma {:induction false} WorkTakes(cfg: Config, s: State, step: Step)
    requires Enabled(cfg, s, step) && Works(step)
    ensures s.Up?
    ensures step.FlusherLook? ==> FlusherEnabled(s.live) && Take(cfg, s, step) == Up(s.disk, FlusherTake(s.live))
    ensures step.Table? ==>
              TableEnabled(cfg, s.disk, s.live, step.t, step.table) &&
              Take(cfg, s, step) == TableTake(cfg, s.disk, s.live, step.t, step.table)
    ensures step.CloseBegin? ==>
              LockFree(s.live.agents) &&
              Take(cfg, s, step) == Up(s.disk, s.live.(closed := true, agents := WakeAll(s.live.agents)))
  {
    hide FlusherEnabled, FlusherTake, TableEnabled, TableTake, LockFree, WakeAll;
  }

  lemma {:induction false} CallTakes(cfg: Config, s: State, step: Step)
    requires Enabled(cfg, s, step) && (step.Writer? || step.Caller?)
    ensures s.Up?
    ensures step.Writer? ==>
              WriterEnabled(cfg, s.disk, s.live, step.t, step.writer) &&
              Take(cfg, s, step) == WriterTake(cfg, s.disk, s.live, step.t, step.writer)
    ensures step.Caller? ==>
              CallerEnabled(s.live, step.t, step.caller) &&
              Take(cfg, s, step) == Up(s.disk, CallerTake(s.live, step.t, step.caller))
  {
    hide WriterEnabled, WriterTake, CallerEnabled, CallerTake;
  }

  lemma {:induction false} StaysUp(cfg: Config, s: State, step: Step)
    requires s.Up? && Enabled(cfg, s, step) && Take(cfg, s, step).Up?
    ensures step.Writer? || step.Caller? || Works(step)
  {
    hide WriterEnabled, WriterTake, CallerEnabled, CallerTake, TableEnabled, TableTake, FlusherEnabled, FlusherTake;
  }

  lemma {:induction false} StopTakes(cfg: Config, s: State, step: Step)
    requires Enabled(cfg, s, step) && (step.Crash? || step.Kill? || step.CloseEnd?)
    ensures step.Crash? ==>
              CrashEnabled(s.disk, step.keepLog, step.keepManifest) &&
              Take(cfg, s, step) == Down(AfterCrash(s.disk, step.keepLog, step.keepManifest))
    ensures step.Kill? ==>
              KillEnabled(s.disk, step.keepLog) && Take(cfg, s, step) == Down(AfterKill(s.disk, step.keepLog))
    ensures step.CloseEnd? ==> Take(cfg, s, step) == Down(AllSynced(s.disk))
  {
    hide CrashEnabled, AfterCrash, KillEnabled, AfterKill, CloseEndEnabled, AllSynced;
  }

  lemma {:induction false} OfflineTakes(cfg: Config, s: State, step: Step)
    requires Enabled(cfg, s, step) && step.Offline?
    ensures s.Down? && OfflineEnabled(cfg, s.disk, step.offline)
    ensures Take(cfg, s, step) == OfflineTake(cfg, s.disk, step.offline)
  {
    hide OfflineEnabled, OfflineTake;
  }
}
