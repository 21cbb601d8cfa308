/** Results about the goroutines and the disk they work on: wakeups, single flight, and a disk that always opens. */
module EngineCoordination {
  import opened Basics
  import opened Runs
  import opened Batches
  import opened ManifestReplay
  import opened EngineStore
  import opened EngineProtocol
  import opened EngineThreads
  import opened EngineDisk
  import opened EngineInvariant
  import opened EngineTheorems

  // ----- Wakeups

  /** While the flush slot is free nobody but the flusher sleeps, so a Signal sent then can only reach the flusher. */
  lemma {:induction false} NoLostWakeup(cfg: Config, s: State, w: Option<Tid>)
    requires Reachable(cfg, s) && s.Up? && s.live.store.imm.None? && CanSignal(s.live.agents, w)
    ensures forall t :: t in s.live.agents && s.live.agents[t].asleep ==> t == FLUSHER
    ensures w == if FLUSHER in s.live.agents && s.live.agents[FLUSHER].asleep then Some(FLUSHER) else None
  {
    hide LiveInv;
    ReachableInv(cfg, s);
  }

  /** With the flusher on, a frozen memtable, no failure and no close, the flusher is there and awake. */
  lemma {:induction false} FlusherNeverLeftAsleep(cfg: Config, s: State)
    requires Reachable(cfg, s) && s.Up? && cfg.auto
    requires s.live.store.imm.Some? && s.live.flushErr.None? && !s.live.closed
    ensures At(s.live, FLUSHER)
  {
    hide LiveInv;
    ReachableInv(cfg, s);
  }

  /**
   * The flusher may sleep only when it has nothing to do; any other sleeper waits for a flush that is under way and
   * can still end.
   */
  lemma {:induction false} SleepersHaveReason(cfg: Config, s: State, t: Tid)
    requires Reachable(cfg, s) && s.Up? && t in s.live.agents && s.live.agents[t].asleep
    ensures !s.live.closed && MaySleep(s.live.agents[t].pc)
    ensures t == FLUSHER <==> s.live.store.imm.None?
    ensures t != FLUSHER ==> s.live.flushErr.None? && exists u :: WorksOn(s.live, u)
  {
    hide LiveInv;
    ReachableInv(cfg, s);
    if t != FLUSHER {
      var u := Worker(cfg, s.live);
    }
  }

  /** Awake and responsible for the frozen memtable: building or publishing its table, or about to look at it. */
  predicate WorksOn(l: Live, u: Tid) {
    At(l, u) && (Busy(l.agents[u].pc) || (u == FLUSHER && l.agents[u].pc.FlusherLoop?))
  }

  lemma {:induction false} Worker(cfg: Config, l: Live) returns (u: Tid)
    requires ThreadsInv(cfg, l) && l.store.imm.Some? && l.flushErr.None? && !l.closed
    ensures WorksOn(l, u)
  {
    if cfg.auto {
      u := FLUSHER;
    } else {
      u :| BusyAt(l, u);
    }
  }

  /** Counters have not run out. */
  predicate Room(l: Live) {
    && l.nextID < MAX_UINT64 && l.store.seqno <= MAX_UINT64
    && (forall t :: t in l.agents && l.agents[t].pc.Synced? ==> l.store.seqno + |l.agents[t].pc.batch| <= MAX_UINT64)
  }

  /** Whose step it is, if it is a goroutine's. */
  predicate StepOf(step: Step, u: Tid) {
    match step
    case Writer(t, _) => t == u
    case Table(t, _) => t == u
    case FlusherLook => u == FLUSHER
    case _ => false
  }

  /** Some goroutine that holds the lock can always take its next step. */
  lemma {:induction false} HolderCanMove(cfg: Config, d: Disk, l: Live, u: Tid) returns (step: Step)
    requires LiveInv(false, cfg, d, l) && ThreadsInv(cfg, l) && Room(l) && u in l.agents && HoldsLock(l.agents[u].pc)
    ensures Enabled(cfg, Up(d, l), step) && StepOf(step, u)
  {
    hide DiskInv, StoreInv, LinkInv, WholeInv;
    assert PlaceOk(cfg, d, l, l.agents[u].pc);
    assert !l.agents[u].asleep;
    match l.agents[u].pc
    case Appended(_) => step := Writer(u, SyncOk);
    case Synced(_) => step := Writer(u, Apply);
    case _ => step := Table(u, PublishInstall);
  }

  /** With the lock free, the goroutine responsible for the frozen memtable can take its next step. */
  lemma {:induction false} WorkerCanMove(cfg: Config, d: Disk, l: Live, u: Tid) returns (step: Step)
    requires ThreadsInv(cfg, l) && Room(l) && LockFree(l.agents) && WorksOn(l, u)
    ensures Enabled(cfg, Up(d, l), step) && StepOf(step, u)
  {
    match l.agents[u].pc
    case FlusherLoop => step := FlusherLook;
    case Writing(_, entries) => step := Table(u, if entries == [] then FailFile(EmptyMemtable, false) else FinishFile);
    case Written(_, _, error) => step := Table(u, if error.Some? then ReportFailure else PublishAppend(0));
    case _ => step := Table(u, PublishInstall);
  }

  /** No deadlock: while anybody waits for a flush, the lock's holder or the flush's worker can move. */
  lemma {:induction false} WaitersAreServed(cfg: Config, s: State, t: Tid) returns (u: Tid, step: Step)
    requires Reachable(cfg, s) && s.Up? && Room(s.live)
    requires t in s.live.agents && s.live.agents[t].asleep && t != FLUSHER
    ensures u != t && Enabled(cfg, s, step) && StepOf(step, u)
    ensures WorksOn(s.live, u) || (u in s.live.agents && HoldsLock(s.live.agents[u].pc))
  {
    hide LiveInv, Enabled;
    ReachableInv(cfg, s);
    if LockFree(s.live.agents) {
      u := Worker(cfg, s.live);
      step := WorkerCanMove(cfg, s.disk, s.live, u);
    } else {
      u :| u in s.live.agents && HoldsLock(s.live.agents[u].pc);
      step := HolderCanMove(cfg, s.disk, s.live, u);
    }
  }

  /** How far a flush still has to go. */
  function Stage(pc: Pc): nat {
    match pc
    case FlusherLoop => 4
    case Writing(_, _) => 3
    case Written(_, _, _) => 2
    case _ => 1
  }

  /** Closer to the end, or over. */
  predicate Progress(before: Live, u: Tid, after: Live) {
    AllAwake(after) || (WorksOn(after, u) && WorksOn(before, u) &&
      Stage(after.agents[u].pc) < Stage(before.agents[u].pc))
  }

  lemma {:induction false} LookProgresses(l: Live)
    requires FlusherEnabled(l) && WorksOn(l, FLUSHER) && l.store.imm.Some? && !l.closed
    ensures Progress(l, FLUSHER, FlusherTake(l))
  {
    hide LockFree;
  }

  lemma {:induction false} TableProgresses(cfg: Config, d: Disk, l: Live, u: Tid, step: TableStep)
    requires TableEnabled(cfg, d, l, u, step) && WorksOn(l, u) && !step.CreateFile?
    ensures Progress(l, u, TableTake(cfg, d, l, u, step).live)
  {
    hide LockFree, FlushEdit;
  }

  /**
   * A flush is four moves of its worker at most: each one, apart from creating the file anew, brings it closer to
   * its end, and the end, success or failure, wakes everybody.
   */
  lemma {:induction false} WorkerProgresses(cfg: Config, s: State, u: Tid, step: Step)
    requires s.Up? && s.live.store.imm.Some? && !s.live.closed && WorksOn(s.live, u)
    requires Enabled(cfg, s, step) && ((step.Table? && step.t == u && !step.table.CreateFile?) ||
        (step.FlusherLook? && u == FLUSHER))
    ensures Take(cfg, s, step).Up? && Progress(s.live, u, Take(cfg, s, step).live)
  {
    hide TableTake, TableEnabled, FlusherTake, FlusherEnabled, WorksOn, Progress;
    if step.FlusherLook? {
      LookProgresses(s.live);
    } else {
      TableProgresses(cfg, s.disk, s.live, u, step.table);
    }
  }

  /** Another goroutine leaves the worker where it is. */
  predicate Leaves(before: Live, after: Live, u: Tid) {
    u in before.agents && u in after.agents && after.agents[u] == before.agents[u]
  }

  lemma {:induction false} WriterLeavesWorker(cfg: Config, d: Disk, l: Live, u: Tid, t: Tid, step: WriterStep)
    requires WorksOn(l, u) && WriterEnabled(cfg, d, l, t, step) && t != u
    ensures Leaves(l, WriterTake(cfg, d, l, t, step).live, u)
  {
    hide LockFree, ApplyOps, MarkLast;
  }

  lemma {:induction false} CallerLeavesWorker(cfg: Config, l: Live, u: Tid, t: Tid, step: CallerStep)
    requires WorksOn(l, u) && CallerEnabled(l, t, step)
    ensures Leaves(l, CallerTake(l, t, step), u)
  {
    hide LockFree;
  }

  lemma {:induction false} WorkLeavesWorker(cfg: Config, s: State, u: Tid, step: Step)
    requires s.Up? && ThreadsInv(cfg, s.live) && WorksOn(s.live, u) && Enabled(cfg, s, step) && !StepOf(step, u)
    requires step.FlusherLook? || step.Table? || step.CloseBegin?
    ensures Take(cfg, s, step).Up? && Leaves(s.live, Take(cfg, s, step).live, u)
  {
    hide LockFree, FlushEdit;
  }

  /** Nobody else's step moves the worker. */
  lemma {:induction false} OthersLeaveWorker(cfg: Config, s: State, u: Tid, step: Step)
    requires Reachable(cfg, s) && s.Up? && WorksOn(s.live, u) && Enabled(cfg, s, step) && Take(cfg, s, step).Up?
    requires !StepOf(step, u)
    ensures Leaves(s.live, Take(cfg, s, step).live, u)
  {
    ReachableInv(cfg, s);
    hide LiveInv, ThreadsInv, Reachable, WriterTake, WriterEnabled, CallerTake, CallerEnabled, FlusherTake,
         FlusherEnabled, TableTake, TableEnabled, LockFree, WakeAll, Leaves, WorksOn;
    match step
    case Writer(t, w) => WriterLeavesWorker(cfg, s.disk, s.live, u, t, w);
    case Caller(t, c) => CallerLeavesWorker(cfg, s.live, u, t, c);
    case _ => WorkLeavesWorker(cfg, s, u, step);
  }

  // ----- Single flight

  /** The last manifest edit is durable and adds exactly one table, whose file holds these entries. */
  predicate LastEditNames(d: Disk, id: nat, entries: seq<Entry>) {
    && d.manifest != [] && d.manifestSynced == |d.manifest| && TableThere(d.files, id) &&
      Entries(d.files, id) == entries
    && var added := d.manifest[|d.manifest| - 1].addedFiles; |added| == 1 && added[0].fileID == id
  }

  /** One flush at a time, of the frozen memtable, under the id that the next manifest edit will carry. */
  lemma {:induction false} SingleFlight(cfg: Config, s: State, t: Tid)
    requires Reachable(cfg, s) && s.Up? && BusyAt(s.live, t)
    ensures forall u :: BusyAt(s.live, u) ==> u == t
    ensures var pc := s.live.agents[t].pc;
            && s.live.store.imm == Some(pc.entries)
            && pc.id == s.live.nextID == |s.live.store.ssts| + 1
            && (pc.Publishing? ==> LastEditNames(s.disk, pc.id, pc.entries))
  {
    ReachableInv(cfg, s);
    hide StoreInv, TablesOk, Covered, StrictlySorted, Entries;
    assert PlaceOk(cfg, s.disk, s.live, s.live.agents[t].pc);
    if s.live.agents[t].pc.Publishing? {
      var n := |s.disk.manifest| - 1;
      assert AddsTable(s.disk.manifest[n], n);
    }
  }

  /** A batch's entries with the sequence numbers it gets. */
  function Numbered(seqno: nat, ops: seq<Operation>): multiset<Entry>
    requires seqno + |ops| <= MAX_UINT64
  {
    if ops == [] then multiset{}
    else Numbered(seqno, ops[..|ops| - 1]) + multiset{EntryOf(ops[|ops| - 1], seqno + |ops|)}
  }

  lemma {:induction false} ApplyAdds(mem: seq<Entry>, seqno: nat, ops: seq<Operation>)
    requires seqno + |ops| <= MAX_UINT64
    ensures multiset(ApplyOps(mem, seqno, ops)) == multiset(mem) + Numbered(seqno, ops)
  {
    if ops != [] {
      ApplyAdds(mem, seqno, ops[..|ops| - 1]);
    }
  }

  predicate IsApply(step: Step) {
    step.Writer? && (step.writer.Apply? || step.writer.ApplyRotate? || step.writer.ApplyStall?)
  }

  /** The layers' entries after a step: those there were, and the batch's when a batch is applied. */
  ghost predicate Conserves(before: Live, step: Step, after: Store) {
    if !IsApply(step) then multiset(Union(after)) == multiset(Union(before.store))
    else
      && step.t in before.agents && before.agents[step.t].pc.Synced?
      && var seqno, batch := before.store.seqno, before.agents[step.t].pc.batch;
      && seqno + |batch| <= MAX_UINT64
      && multiset(Union(after)) == multiset(Union(before.store)) + Numbered(seqno, batch)
  }

  lemma {:induction false} AppliedConserves(s: Store, ops: seq<Operation>)
    requires Layered(s) && s.seqno + |ops| <= MAX_UINT64
    ensures multiset(Union(Applied(s, ops))) == multiset(Union(s)) + Numbered(s.seqno, ops)
    ensures Layered(Applied(s, ops)) && Applied(s, ops).imm == s.imm
  {
    hide ApplyOps, SstUnion, Numbered, Layered;
    ApplyAdds(s.mem, s.seqno, ops);
    ApplyKeepsLayers(s, ops);
  }

  /** What each step of a Write does to the layers. */
  lemma {:induction false} WriterStore(cfg: Config, d: Disk, l: Live, t: Tid, step: WriterStep)
    requires WriterEnabled(cfg, d, l, t, step)
    ensures var store := WriterTake(cfg, d, l, t, step).live.store;
            if IsApply(Writer(t, step)) then
              && t in l.agents && l.agents[t].pc.Synced? && l.store.seqno + |l.agents[t].pc.batch| <= MAX_UINT64
              && var applied := Applied(l.store, l.agents[t].pc.batch);
                 store == applied || (l.store.imm.None? && store == Freeze(applied))
            else store == l.store || (l.store.imm.None? && store == Freeze(l.store))
  {
    hide ApplyOps, MarkLast, Without, Signal, LockFree, CanSignal;
  }

  lemma {:induction false} WriterConserves(cfg: Config, d: Disk, l: Live, t: Tid, step: WriterStep)
    requires Layered(l.store) && WriterEnabled(cfg, d, l, t, step)
    ensures Conserves(l, Writer(t, step), WriterTake(cfg, d, l, t, step).live.store)
  {
    hide WriterTake, WriterEnabled, Layered, Union, Applied, Numbered;
    WriterStore(cfg, d, l, t, step);
    if IsApply(Writer(t, step)) {
      var applied := Applied(l.store, l.agents[t].pc.batch);
      AppliedConserves(l.store, l.agents[t].pc.batch);
      if l.store.imm.None? {
        FreezeKeeps(applied);
      }
    } else if l.store.imm.None? {
      FreezeKeeps(l.store);
    }
  }

  lemma {:induction false} CallerConserves(l: Live, t: Tid, step: CallerStep)
    requires CallerEnabled(l, t, step) && Layered(l.store)
    ensures multiset(Union(CallerTake(l, t, step).store)) == multiset(Union(l.store))
  {
    hide Layered, Union, Without, Signal, LockFree;
    if l.store.imm.None? {
      FreezeKeeps(l.store);
    }
  }

  lemma {:induction false} WorkConserves(cfg: Config, s: State, step: Step)
    requires s.Up? && Inv(false, cfg, s) && Enabled(cfg, s, step) &&
        (step.FlusherLook? || step.Table? || step.CloseBegin?)
    ensures Take(cfg, s, step).Up?
    ensures multiset(Union(Take(cfg, s, step).live.store)) == multiset(Union(s.live.store))
  {
    hide DiskInv, LinkInv, PlacesOk, WholeInv, Shows, Layered, Union, Without, LockFree, WakeAll, FlushEdit;
    if step.FlusherLook? && s.live.store.imm == Some([]) {
      DropEmptyKeeps(s.live.store);
    } else if step.Table? && step.table.PublishInstall? {
      PublishKeeps(s.live.store);
    }
  }

  /** Every entry applied stays in the memtable, the frozen memtable or a table, exactly once, whatever is in flight. */
  lemma {:induction false} EntriesAreConserved(cfg: Config, s: State, step: Step)
    requires Reachable(cfg, s) && s.Up? && Enabled(cfg, s, step) && Take(cfg, s, step).Up?
    ensures Conserves(s.live, step, Take(cfg, s, step).live.store)
  {
    hide Reachable, Inv, Enabled, Take, WriterTake, WriterEnabled, CallerTake, CallerEnabled, Union, Layered, Numbered;
    ReachableInv(cfg, s);
    LayersOf(false, cfg, s);
    StaysUp(cfg, s, step);
    if step.Writer? {
      CallTakes(cfg, s, step);
      WriterConserves(cfg, s.disk, s.live, step.t, step.writer);
    } else if step.Caller? {
      CallTakes(cfg, s, step);
      CallerConserves(s.live, step.t, step.caller);
    } else {
      WorkConserves(cfg, s, step);
    }
  }

  /** The frozen memtable is never overwritten: it goes only by being published, or dropped when it is empty. */
  lemma {:induction false} FrozenIsNeverOverwritten(cfg: Config, s: State, step: Step)
    requires Reachable(cfg, s) && s.Up? && s.live.store.imm.Some? && Enabled(cfg, s, step) && Take(cfg, s, step).Up?
    ensures var before, after := s.live.store, Take(cfg, s, step).live.store;
            || after.imm == before.imm
            || (after.imm.None? && after.ssts == before.ssts + [before.imm.value])
            || (after.imm.None? && before.imm.value == [] && after.ssts == before.ssts)
  {
    hide Reachable, Inv, Enabled, Take, WriterTake, WriterEnabled, CallerTake, CallerEnabled, TableTake, TableEnabled,
         LockFree, WakeAll, LiveInv;
    ReachableInv(cfg, s);
    StaysUp(cfg, s, step);
    if step.Writer? {
      CallTakes(cfg, s, step);
      WriterLeavesFrozen(cfg, s.disk, s.live, step.t, step.writer);
    } else if step.Caller? {
      CallTakes(cfg, s, step);
      CallerLeavesFrozen(s.live, step.t, step.caller);
    } else {
      WorkTakes(cfg, s, step);
      if step.Table? {
        ThreadsOf(cfg, s);
        TableMovesFrozen(cfg, s.disk, s.live, step.t, step.table);
      }
    }
  }

  lemma {:induction false} ThreadsOf(cfg: Config, s: State)
    requires Inv(false, cfg, s) && s.Up?
    ensures ThreadsInv(cfg, s.live) && LiveInv(false, cfg, s.disk, s.live)
  {
    hide ThreadsInv, LiveInv;
  }

  lemma {:induction false} WriterLeavesFrozen(cfg: Config, d: Disk, l: Live, t: Tid, step: WriterStep)
    requires WriterEnabled(cfg, d, l, t, step) && l.store.imm.Some?
    ensures WriterTake(cfg, d, l, t, step).live.store.imm == l.store.imm
  {
    hide ApplyOps, MarkLast, Without, Signal, LockFree;
  }

  lemma {:induction false} CallerLeavesFrozen(l: Live, t: Tid, step: CallerStep)
    requires CallerEnabled(l, t, step) && l.store.imm.Some?
    ensures CallerTake(l, t, step).store == l.store
  {
    hide Without, Signal, LockFree;
  }

  lemma {:induction false} TableMovesFrozen(cfg: Config, d: Disk, l: Live, t: Tid, step: TableStep)
    requires TableEnabled(cfg, d, l, t, step) && ThreadsInv(cfg, l) && l.store.imm.Some?
    ensures var after := TableTake(cfg, d, l, t, step).live.store;
            after == l.store || (after.imm.None? && after.ssts == l.store.ssts + [l.store.imm.value])
  {
    hide Without, WakeAll, LockFree, FlushEdit;
  }

  // ----- Waiting is bounded

  /** A move of this goroutine on its flush; creating the file may repeat and does not count. */
  predicate IsMove(step: Step, u: Tid) {
    (step.Table? && step.t == u && !step.table.CreateFile?) || (step.FlusherLook? && u == FLUSHER)
  }

  function Moves(steps: seq<Step>, u: Tid): nat {
    if steps == [] then 0 else (if IsMove(steps[0], u) then 1 else 0) + Moves(steps[1..], u)
  }

  /** A flush is under way and this goroutine is on it. */
  predicate UnderWay(s: State, u: Tid) {
    s.Up? && s.live.store.imm.Some? && !s.live.closed && WorksOn(s.live, u)
  }

  /** The frozen memtable goes, and a close comes, only together with waking everybody. */
  lemma {:induction false} EndsWake(cfg: Config, s: State, step: Step)
    requires s.Up? && s.live.store.imm.Some? && !s.live.closed && Enabled(cfg, s, step) && KeepsRunning(step)
    ensures var s' := Take(cfg, s, step);
            s'.Up? && (AllAwake(s'.live) || (s'.live.store.imm.Some? && !s'.live.closed))
  {
    hide LockFree, FlushEdit, CanSignal;
    match step
    case Writer(t, w) => WriterLeavesFrozen(cfg, s.disk, s.live, t, w);
    case Caller(t, c) => CallerLeavesFrozen(s.live, t, c);
    case _ => hide WriterTake, WriterEnabled, CallerTake, CallerEnabled;
  }

  /** One step: everybody is awake, or the flush goes on, closer to its end if its worker moved. */
  lemma {:induction false} WaitStep(cfg: Config, s: State, u: Tid, step: Step)
    requires Reachable(cfg, s) && UnderWay(s, u) && Enabled(cfg, s, step) && KeepsRunning(step)
    ensures var s' := Take(cfg, s, step);
            && s'.Up?
            && (AllAwake(s'.live)
                || (UnderWay(s', u)
                    && Stage(s'.live.agents[u].pc) + (if IsMove(step, u) then 1 else 0) <= Stage(s.live.agents[u].pc)))
  {
    EndsWake(cfg, s, step);
    if IsMove(step, u) {
      hide Take, Enabled, Reachable, Stage;
      WorkerProgresses(cfg, s, u, step);
    } else if StepOf(step, u) {
      OwnOtherStep(cfg, s, u, step);
    } else {
      hide Take, Enabled, Reachable, Stage;
      OthersLeaveWorker(cfg, s, u, step);
    }
  }

  /** What else the worker can do: create its file. */
  lemma {:induction false} OwnOtherStep(cfg: Config, s: State, u: Tid, step: Step)
    requires s.Up? && WorksOn(s.live, u) && Enabled(cfg, s, step) && StepOf(step, u) && !IsMove(step, u)
    ensures Take(cfg, s, step).Up? && Take(cfg, s, step).live == s.live
  {
    hide LockFree, FlushEdit, ApplyOps;
  }

  /**
   * Waiting is bounded: in any run that keeps the process up, by the time the goroutine doing the flush has made as
   * many moves as its stage says, at most four, there was a point at which nobody was asleep.
   */
  lemma {:induction false} WaitIsBounded(cfg: Config, s: State, u: Tid, steps: seq<Step>) returns (k: nat)
    requires Reachable(cfg, s) && UnderWay(s, u) && Run(cfg, s, steps).Some?
    requires forall i :: 0 <= i < |steps| ==> KeepsRunning(steps[i])
    requires Moves(steps, u) >= Stage(s.live.agents[u].pc)
    ensures k <= |steps| && Run(cfg, s, steps[..k]).Some?
    ensures Run(cfg, s, steps[..k]).value.Up? && AllAwake(Run(cfg, s, steps[..k]).value.live)
    decreases |steps|
  {
    hide Take, Enabled, Reachable, AllAwake, KeepsRunning, UnderWay, IsMove;
    StageIsPositive(s, u);
    var s' := Take(cfg, s, steps[0]);
    WaitStep(cfg, s, u, steps[0]);
    if AllAwake(s'.live) {
      assert steps[..1][1..] == [];
      return 1;
    }
    ReachableStep(cfg, s, steps[0]);
    var j := WaitIsBounded(cfg, s', u, steps[1..]);
    assert steps[..j + 1][1..] == steps[1..][..j];
    k := j + 1;
  }

  lemma {:induction false} StageIsPositive(s: State, u: Tid)
    requires UnderWay(s, u)
    ensures s.Up? && u in s.live.agents && 1 <= Stage(s.live.agents[u].pc) <= 4
  {
  }

  // ----- A disk that always opens

  /** What Open needs and what it gives back. */
  ghost predicate OpensWell(cfg: Config, d: Disk) {
    RoomToReplay(d) ==>
      && OpenDisk(cfg, d).Ok?
      && (forall id :: id in AddedIds(d.manifest) ==>
        TableThere(d.files, id) && id < OpenDisk(cfg, d).value.live.nextID)
  }

  lemma {:induction false} DiskOpensWell(cfg: Config, d: Disk)
    requires DiskInv(false, cfg, d)
    ensures OpensWell(cfg, d)
  {
    hide OpenDisk, LoadTables, ApplyOps, Replayed, Covered;
    if RoomToReplay(d) {
      OpenSucceeds(false, cfg, d);
      if d.manifest == [] {
        assert AddedIds(d.manifest) == [];
      } else {
        ManifestAdds(d.manifest);
      }
    }
  }

  /**
   * At every point of every run, whatever a kill or a power loss keeps, Open succeeds, finds every table complete,
   * and hands out only new ids.
   */
  lemma {:induction false} DiskAlwaysOpens(cfg: Config, s: State)
    requires Reachable(cfg, s)
    ensures OpensWell(cfg, s.disk)
    ensures forall keepLog: nat :: KillEnabled(s.disk, keepLog) ==> OpensWell(cfg, AfterKill(s.disk, keepLog))
    ensures forall keepLog: nat, keepManifest: nat :: CrashEnabled(s.disk, keepLog, keepManifest) ==>
              OpensWell(cfg, AfterCrash(s.disk, keepLog, keepManifest))
  {
    hide OpensWell, AfterCrash, AfterKill, DiskInv, KillEnabled, CrashEnabled, Reachable;
    ReachableInv(cfg, s);
    DiskOfLive(false, cfg, s);
    DiskOpensWell(cfg, s.disk);
    forall keepLog: nat | KillEnabled(s.disk, keepLog) ensures OpensWell(cfg, AfterKill(s.disk, keepLog)) {
      KillKeeps(false, cfg, s.disk, keepLog);
      DiskOpensWell(cfg, AfterKill(s.disk, keepLog));
    }
    forall keepLog: nat, keepManifest: nat | CrashEnabled(s.disk, keepLog, keepManifest)
      ensures OpensWell(cfg, AfterCrash(s.disk, keepLog, keepManifest))
    {
      CrashKeeps(false, cfg, s.disk, keepLog, keepManifest);
      DiskOpensWell(cfg, AfterCrash(s.disk, keepLog, keepManifest));
    }
  }

  /** Removing orphans removes nothing the next Open reads: it comes up with the same store and counters. */
  lemma {:induction false} CleanupIsHarmless(cfg: Config, s: State, id: nat)
    requires Reachable(cfg, s) && s.Down? && RoomToReplay(s.disk) && Enabled(cfg, s, Offline(Cleanup(id)))
    ensures var d' := Take(cfg, s, Offline(Cleanup(id))).disk;
            OpenDisk(cfg, d').Ok? && OpenDisk(cfg, s.disk).Ok?
            && OpenDisk(cfg, d').value.live == OpenDisk(cfg, s.disk).value.live
  {
    hide AddedIds, LoadTables, ApplyOps, Replayed, AllOps, LiveOf, CountersOf, DiskInv, Covered;
    ReachableInv(cfg, s);
    var d, d' := s.disk, Take(cfg, s, Offline(Cleanup(id))).disk;
    CleanupKeeps(false, cfg, d, id);
    OpenSucceeds(false, cfg, d);
    OpenSucceeds(false, cfg, d');
    BootstrapNamesNothing(d);
    SameLoad(d.files, d'.files, AddedIds(Bootstrapped(d).manifest));
  }

  lemma {:induction false} BootstrapNamesNothing(d: Disk)
    ensures d.manifest == [] ==> AddedIds(Bootstrapped(d).manifest) == []
  {
    assert FileIds(BOOTSTRAP.addedFiles) == [];
    assert AddedIds([BOOTSTRAP][..0]) == [];
  }
}
