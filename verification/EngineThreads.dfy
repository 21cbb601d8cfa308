/** What holds of the goroutines in every reachable state: who may sleep, who may be flushing, who holds the lock. */
module EngineThreads {
  import opened Basics
  import opened EngineStore
  import opened EngineProtocol

  /** Has a table under construction or in publication. */
  predicate Busy(pc: Pc) {
    pc.Writing? || pc.Written? || pc.Publishing?
  }

  predicate MaySleep(pc: Pc) {
    pc.WriterStalled? || pc.CallerStalled? || pc.CallerWaiting? || pc.FlusherLoop?
  }

  ghost predicate OneHolder(agents: map<Tid, Agent>) {
    forall t, u :: t in agents && u in agents && HoldsLock(agents[t].pc) && HoldsLock(agents[u].pc) ==> t == u
  }

  /** Single flight. */
  ghost predicate OneBusy(agents: map<Tid, Agent>) {
    forall t, u :: t in agents && u in agents && Busy(agents[t].pc) && Busy(agents[u].pc) ==> t == u
  }

  /**
   * Only waiters sleep; callers only while a flush is under way that will wake them; the flusher only with nothing to
   * do.
   */
  ghost predicate Sleepers(l: Live) {
    forall t :: t in l.agents && l.agents[t].asleep ==>
      && MaySleep(l.agents[t].pc) && !l.closed
      && (t != FLUSHER ==> l.store.imm.Some? && l.flushErr.None?)
      && (t == FLUSHER ==> l.store.imm.None?)
  }

  /** The table being built is the frozen memtable, under the id that will be published. */
  ghost predicate BusyMatches(l: Live) {
    forall t :: t in l.agents && Busy(l.agents[t].pc) ==>
      && l.flushErr.None? && l.store.imm == Some(l.agents[t].pc.entries) && l.agents[t].pc.id == l.nextID
      && (l.agents[t].pc.Publishing? || (l.agents[t].pc.Written? && l.agents[t].pc.error.None?)
          ==> l.agents[t].pc.entries != [])
  }

  /** Who runs the flushes: with the flusher on, it alone, and it is there until it fails or the database closes. */
  ghost predicate Roles(cfg: Config, l: Live) {
    && (!cfg.auto ==> FLUSHER !in l.agents)
    && (cfg.auto && l.flushErr.None? && !l.closed ==> FLUSHER in l.agents)
    && (FLUSHER in l.agents ==> l.flushErr.None? && (l.agents[FLUSHER].pc.FlusherLoop? || Busy(l.agents[FLUSHER].pc)))
    && (forall t :: t in l.agents && t != FLUSHER ==>
          && !l.agents[t].pc.FlusherLoop?
          && (cfg.auto ==> !Busy(l.agents[t].pc))
          && (!cfg.auto ==> !l.agents[t].pc.WriterStalled? && !l.agents[t].pc.CallerWaiting?))
  }

  predicate BusyAt(l: Live, t: Tid) {
    t in l.agents && Busy(l.agents[t].pc)
  }

  /** A frozen memtable always has somebody working on it, unless the flush failed. */
  ghost predicate SlotWorked(cfg: Config, l: Live) {
    l.store.imm.Some? && l.flushErr.None? && !cfg.auto ==> exists t :: BusyAt(l, t)
  }

  /** Whoever worked on the frozen memtable still does. */
  lemma {:induction false} SlotStillWorked(cfg: Config, l: Live, l': Live)
    requires SlotWorked(cfg, l) && (l.flushErr == l'.flushErr && l.store.imm == l'.store.imm)
    requires forall t :: BusyAt(l, t) ==> BusyAt(l', t)
    ensures SlotWorked(cfg, l')
  {
    if l.store.imm.Some? && l.flushErr.None? && !cfg.auto {
      var b :| BusyAt(l, b);
      assert BusyAt(l', b);
    }
  }

  /** A writer inside its critical section passed the admission checks, and nothing has run since. */
  ghost predicate Writers(l: Live) {
    forall t :: t in l.agents && (l.agents[t].pc.Appended? || l.agents[t].pc.Synced?) ==> !l.closed && l.flushErr.None?
  }

  ghost predicate ThreadsInv(cfg: Config, l: Live) {
    && OneHolder(l.agents) && OneBusy(l.agents) && Sleepers(l) && BusyMatches(l)
    && Roles(cfg, l) && SlotWorked(cfg, l) && Writers(l)
  }

  lemma {:induction false} OpenThreads(cfg: Config, d: Disk)
    requires OfflineEnabled(cfg, d, Open)
    ensures ThreadsInv(cfg, OfflineTake(cfg, d, Open).live)
  {
    hide RoomToReplay, LoadTables, ApplyOps, Replayed, AllOps, AddedIds;
    var l := OpenDisk(cfg, d).value.live;
    assert l.agents == StartingAgents(cfg) && l.store.imm.None? && l.flushErr.None?;
  }

  /** A place that goroutine t may take, given what it did before. */
  ghost predicate Fits(cfg: Config, l: Live, t: Tid, a: Agent) {
    && (a.asleep ==> MaySleep(a.pc) && !l.closed &&
                     if t == FLUSHER then l.store.imm.None? else l.store.imm.Some? && l.flushErr.None?)
    && (HoldsLock(a.pc) ==> LockFree(l.agents) || (t in l.agents && HoldsLock(l.agents[t].pc)))
    && (Busy(a.pc) || BusyAt(l, t) ==> BusyFits(l, t, a.pc))
    && (a.pc.Appended? || a.pc.Synced? ==> !l.closed && l.flushErr.None?)
    && (t == FLUSHER ==> t in l.agents && (a.pc.FlusherLoop? || Busy(a.pc)))
    && (t != FLUSHER ==>
          !a.pc.FlusherLoop? && if cfg.auto then !Busy(a.pc) else !a.pc.WriterStalled? && !a.pc.CallerWaiting?)
  }

  /** Whoever builds the table keeps building the same one; the flusher may pick up the frozen memtable. */
  ghost predicate BusyFits(l: Live, t: Tid, pc: Pc) {
    && Busy(pc) && pc.id == l.nextID && l.store.imm == Some(pc.entries) && l.flushErr.None?
    && (BusyAt(l, t) || forall u :: !BusyAt(l, u))
    && (pc.Publishing? || (pc.Written? && pc.error.None?) ==> pc.entries != [])
  }

  /** Only goroutine t moves, and not by changing the flush slot. */
  ghost predicate Moves(l: Live, t: Tid, l': Live) {
    && l'.store.imm == l.store.imm && l'.nextID == l.nextID && l'.flushErr == l.flushErr && l'.closed == l.closed
    && forall u :: u != t ==>
         (u in l'.agents <==> u in l.agents) && (u in l.agents ==> l'.agents[u] == l.agents[u])
  }

  /** Who may leave: neither the flusher, as long as it is needed, nor whoever builds the table. */
  ghost predicate Leaves(cfg: Config, l: Live, t: Tid) {
    (t == FLUSHER ==> l.closed) && !BusyAt(l, t)
  }

  lemma {:induction false} MoveHolders(cfg: Config, l: Live, t: Tid, l': Live)
    requires ThreadsInv(cfg, l) && Moves(l, t, l') && (t in l'.agents ==> Fits(cfg, l, t, l'.agents[t]))
    ensures OneHolder(l'.agents) && Writers(l')
  {
    hide OneBusy, BusyMatches, Sleepers, Roles, SlotWorked, BusyFits;
  }

  lemma {:induction false} MoveBusy(cfg: Config, l: Live, t: Tid, l': Live)
    requires ThreadsInv(cfg, l) && Moves(l, t, l') && (t in l'.agents ==> Fits(cfg, l, t, l'.agents[t]))
    ensures OneBusy(l'.agents) && BusyMatches(l')
  {
    hide OneHolder, Writers, Sleepers, Roles, SlotWorked, LockFree;
    forall u, v | BusyAt(l', u) && BusyAt(l', v) ensures u == v {
      assert u == t || BusyAt(l, u);
      assert v == t || BusyAt(l, v);
    }
    assert forall u :: u in l'.agents && Busy(l'.agents[u].pc) ==> BusyAt(l', u);
  }

  lemma {:induction false} MoveRoles(cfg: Config, l: Live, t: Tid, l': Live)
    requires ThreadsInv(cfg, l) && Moves(l, t, l')
    requires if t in l'.agents then Fits(cfg, l, t, l'.agents[t]) else Leaves(cfg, l, t)
    ensures Sleepers(l') && Roles(cfg, l') && SlotWorked(cfg, l')
  {
    hide OneHolder, OneBusy, BusyMatches, Writers;
    forall u | BusyAt(l, u) ensures BusyAt(l', u) {
    }
    SlotStillWorked(cfg, l, l');
  }

  /** The move of one goroutine to a place that fits, or away. */
  lemma {:induction false} MoveThreads(cfg: Config, l: Live, t: Tid, l': Live)
    requires ThreadsInv(cfg, l) && Moves(l, t, l')
    requires if t in l'.agents then Fits(cfg, l, t, l'.agents[t]) else Leaves(cfg, l, t)
    ensures ThreadsInv(cfg, l')
  {
    hide Moves, Fits, Leaves, OneHolder, OneBusy, BusyMatches, Writers, Sleepers, Roles, SlotWorked;
    MoveHolders(cfg, l, t, l');
    MoveBusy(cfg, l, t, l');
    MoveRoles(cfg, l, t, l');
  }

  /** A caller that is not flushing may leave at any time. */
  lemma {:induction false} LeaveThreads(cfg: Config, l: Live, t: Tid)
    requires ThreadsInv(cfg, l) && t != FLUSHER && t in l.agents && !Busy(l.agents[t].pc)
    ensures ThreadsInv(cfg, l.(agents := Without(l.agents, t)))
  {
    hide ThreadsInv;
    MoveThreads(cfg, l, t, l.(agents := Without(l.agents, t)));
  }

  /** A caller may go to sleep while a flush is under way. */
  lemma {:induction false} SleepThreads(cfg: Config, l: Live, t: Tid, pc: Pc)
    requires ThreadsInv(cfg, l) && t != FLUSHER && (t in l.agents ==> !Busy(l.agents[t].pc))
    requires pc.CallerStalled? || (cfg.auto && (pc.WriterStalled? || pc.CallerWaiting?))
    requires l.store.imm.Some? && l.flushErr.None? && !l.closed
    ensures ThreadsInv(cfg, l.(agents := l.agents[t := Agent(pc, true)]))
  {
    hide ThreadsInv;
    MoveThreads(cfg, l, t, l.(agents := l.agents[t := Agent(pc, true)]));
  }

  lemma {:induction false} AppendThreads(cfg: Config, l: Live, t: Tid, batch: Batch)
    requires Admitted(l, t) && ThreadsInv(cfg, l)
    ensures ThreadsInv(cfg, l.(agents := l.agents[t := Agent(Appended(batch), false)]))
  {
    hide ThreadsInv, LockFree;
    MoveThreads(cfg, l, t, l.(agents := l.agents[t := Agent(Appended(batch), false)]));
  }

  lemma {:induction false} WriterAt(cfg: Config, l: Live, t: Tid)
    requires ThreadsInv(cfg, l) && t in l.agents && (l.agents[t].pc.Appended? || l.agents[t].pc.Synced?)
    ensures t != FLUSHER && !l.closed && l.flushErr.None?
  {
  }

  lemma {:induction false} SyncThreads(cfg: Config, l: Live, t: Tid)
    requires At(l, t) && l.agents[t].pc.Appended? && ThreadsInv(cfg, l)
    ensures ThreadsInv(cfg, l.(agents := l.agents[t := Agent(Synced(l.agents[t].pc.batch), false)]))
  {
    hide ThreadsInv;
    WriterAt(cfg, l, t);
    MoveThreads(cfg, l, t, l.(agents := l.agents[t := Agent(Synced(l.agents[t].pc.batch), false)]));
  }

  lemma {:induction false} LogThreads(cfg: Config, d: Disk, l: Live, t: Tid, step: WriterStep)
    requires WriterEnabled(cfg, d, l, t, step) && ThreadsInv(cfg, l)
    requires step.Append? || step.SyncOk?
    ensures ThreadsInv(cfg, WriterTake(cfg, d, l, t, step).live)
  {
    hide ThreadsInv;
    if step.Append? {
      AppendThreads(cfg, l, t, step.batch);
    } else {
      SyncThreads(cfg, l, t);
    }
  }

  lemma {:induction false} WriterTakeFail(cfg: Config, d: Disk, l: Live, t: Tid)
    requires WriterEnabled(cfg, d, l, t, SyncFail) && ThreadsInv(cfg, l)
    ensures ThreadsInv(cfg, WriterTake(cfg, d, l, t, SyncFail).live)
  {
    hide Without, ThreadsInv;
    WriterAt(cfg, l, t);
    LeaveThreads(cfg, l, t);
  }

  lemma {:induction false} ApplyThreads(cfg: Config, d: Disk, l: Live, t: Tid, step: WriterStep)
    requires WriterEnabled(cfg, d, l, t, step) && ThreadsInv(cfg, l)
    requires step.Apply? || step.ApplyStall?
    ensures ThreadsInv(cfg, WriterTake(cfg, d, l, t, step).live)
  {
    hide ApplyOps, MarkLast, ThreadsInv;
    WriterAt(cfg, l, t);
    MoveThreads(cfg, l, t, WriterTake(cfg, d, l, t, step).live);
  }

  lemma {:induction false} RotateThreads(cfg: Config, d: Disk, l: Live, t: Tid, step: WriterStep)
    requires WriterEnabled(cfg, d, l, t, step) && ThreadsInv(cfg, l) && step.ApplyRotate?
    ensures ThreadsInv(cfg, WriterTake(cfg, d, l, t, step).live)
  {
    hide ApplyOps, MarkLast, Without;
  }

  /** Waits for a flush. */
  predicate Waits(pc: Pc) {
    pc.CallerStalled? || pc.CallerWaiting? || pc.WriterStalled?
  }

  lemma {:induction false} CallerIsNotFlusher(cfg: Config, l: Live, t: Tid)
    requires ThreadsInv(cfg, l)
    ensures t in l.agents && Waits(l.agents[t].pc) ==>
              && t != FLUSHER && !Busy(l.agents[t].pc)
              && (l.agents[t].pc.CallerWaiting? || l.agents[t].pc.WriterStalled? ==> cfg.auto)
  {
  }

  lemma {:induction false} ReturnThreads(cfg: Config, d: Disk, l: Live, t: Tid, w: Option<Tid>)
    requires WriterEnabled(cfg, d, l, t, ResumeWriter(w)) && ThreadsInv(cfg, l)
    requires !l.closed && l.flushErr.None? && l.store.imm.None?
    ensures ThreadsInv(cfg, WriterTake(cfg, d, l, t, ResumeWriter(w)).live)
  {
    CallerIsNotFlusher(cfg, l, t);
    hide Without;
  }

  lemma {:induction false} ResumeThreads(cfg: Config, d: Disk, l: Live, t: Tid, step: WriterStep)
    requires WriterEnabled(cfg, d, l, t, step) && ThreadsInv(cfg, l) && step.ResumeWriter?
    ensures ThreadsInv(cfg, WriterTake(cfg, d, l, t, step).live)
  {
    hide Without, ThreadsInv, LockFree, CanSignal, Signal;
    CallerIsNotFlusher(cfg, l, t);
    if l.closed || l.flushErr.Some? {
      LeaveThreads(cfg, l, t);
    } else if l.store.imm.Some? {
      SleepThreads(cfg, l, t, l.agents[t].pc);
    } else {
      ReturnThreads(cfg, d, l, t, step.wake);
    }
  }

  lemma {:induction false} StartThreads(cfg: Config, l: Live, t: Tid, w: Option<Tid>)
    requires ThreadsInv(cfg, l) && CanSignal(l.agents, w) && LockFree(l.agents) && l.store.imm.None?
    requires t != FLUSHER && (t in l.agents ==> !l.agents[t].asleep)
    requires !l.closed && l.flushErr.None?
    ensures ThreadsInv(cfg, StartFlush(l, t, w))
  {
    assert BusyAt(StartFlush(l, t, w), t) || cfg.auto;
  }

  lemma {:induction false} CallerThreads(cfg: Config, l: Live, t: Tid, step: CallerStep)
    requires CallerEnabled(l, t, step) && ThreadsInv(cfg, l)
    ensures ThreadsInv(cfg, CallerTake(l, t, step))
  {
    hide StartFlush, Without, ThreadsInv, LockFree;
    CallerIsNotFlusher(cfg, l, t);
    if step.FlushStall? {
      SleepThreads(cfg, l, t, CallerStalled);
    } else if step.FlushGo? || (step.ResumeStalled? && !l.closed && l.flushErr.None? && l.store.imm.None?) {
      StartThreads(cfg, l, t, step.wake);
    } else if l.flushErr.None? && l.store.imm.Some? && !l.closed {
      SleepThreads(cfg, l, t, l.agents[t].pc);
    } else {
      LeaveThreads(cfg, l, t);
    }
  }

  lemma {:induction false} FlusherThreads(cfg: Config, l: Live)
    requires FlusherEnabled(l) && ThreadsInv(cfg, l)
    ensures ThreadsInv(cfg, FlusherTake(l))
  {
  }

  lemma {:induction false} BusyPlace(cfg: Config, l: Live, t: Tid)
    requires ThreadsInv(cfg, l) && BusyAt(l, t)
    ensures l.flushErr.None? && l.store.imm == Some(l.agents[t].pc.entries) && l.agents[t].pc.id == l.nextID
    ensures t == FLUSHER <==> cfg.auto
  {
  }

  /** Work on a table moves on to its next stage without changing what is being worked on. */
  lemma {:induction false} StageThreads(cfg: Config, l: Live, t: Tid, pc: Pc)
    requires ThreadsInv(cfg, l) && At(l, t) && Busy(l.agents[t].pc) && Busy(pc)
    requires pc.id == l.agents[t].pc.id && pc.entries == l.agents[t].pc.entries
    requires pc.Publishing? ==> LockFree(l.agents)
    requires pc.Publishing? || (pc.Written? && pc.error.None?) ==> pc.entries != []
    ensures ThreadsInv(cfg, l.(agents := l.agents[t := Agent(pc, false)]))
  {
    BusyPlace(cfg, l, t);
    hide ThreadsInv, LockFree;
    MoveThreads(cfg, l, t, l.(agents := l.agents[t := Agent(pc, false)]));
  }

  lemma {:induction false} FileThreads(cfg: Config, d: Disk, l: Live, t: Tid, step: TableStep)
    requires TableEnabled(cfg, d, l, t, step) && ThreadsInv(cfg, l)
    requires step.CreateFile? || step.FinishFile? || step.FailFile? || step.PublishAppend?
    ensures ThreadsInv(cfg, TableTake(cfg, d, l, t, step).live)
  {
    hide FlushEdit, ThreadsInv;
    if !step.CreateFile? {
      StageThreads(cfg, l, t, TableTake(cfg, d, l, t, step).live.agents[t].pc);
    }
  }

  /** A flush that gives up: everybody is woken, and whoever built the table is gone. */
  lemma {:induction false} FailedThreads(cfg: Config, l: Live, t: Tid, e: FlushError)
    requires ThreadsInv(cfg, l) && BusyAt(l, t)
    requires HoldsLock(l.agents[t].pc) || LockFree(l.agents)
    ensures ThreadsInv(cfg, Fail(l, t, e))
  {
    BusyPlace(cfg, l, t);
  }

  lemma {:induction false} FailThreads(cfg: Config, d: Disk, l: Live, t: Tid, step: TableStep)
    requires TableEnabled(cfg, d, l, t, step) && ThreadsInv(cfg, l)
    requires step.ReportFailure? || step.PublishFails?
    ensures ThreadsInv(cfg, TableTake(cfg, d, l, t, step).live)
  {
    hide FlushEdit, ThreadsInv, LockFree, Fail;
    FailedThreads(cfg, l, t, if step.ReportFailure? then l.agents[t].pc.error.value else PublishFailure);
  }

  lemma {:induction false} InstallThreads(cfg: Config, d: Disk, l: Live, t: Tid, step: TableStep)
    requires TableEnabled(cfg, d, l, t, step) && ThreadsInv(cfg, l) && step.PublishInstall?
    ensures ThreadsInv(cfg, TableTake(cfg, d, l, t, step).live)
  {
  }

  lemma {:induction false} CloseThreads(cfg: Config, l: Live)
    requires ThreadsInv(cfg, l) && LockFree(l.agents)
    ensures ThreadsInv(cfg, l.(closed := true, agents := WakeAll(l.agents)))
  {
    SlotStillWorked(cfg, l, l.(closed := true, agents := WakeAll(l.agents)));
  }

  /** Every step that leaves the process running keeps the invariant. */
  lemma {:induction false} StepThreads(cfg: Config, s: State, step: Step)
    requires Enabled(cfg, s, step) && (s.Up? ==> ThreadsInv(cfg, s.live))
    ensures Take(cfg, s, step).Up? ==> ThreadsInv(cfg, Take(cfg, s, step).live)
  {
    hide ThreadsInv, WriterTake, WriterEnabled, CallerEnabled, CallerTake, TableEnabled, TableTake, FlusherTake,
         FlusherEnabled, OpenDisk, RoomToReplay, LockFree, WakeAll;
    match step
    case Offline(o) =>
      if o.Open? {
        OpenThreads(cfg, s.disk);
      }
    case Writer(t, w) =>
      if w.ResumeWriter? {
        ResumeThreads(cfg, s.disk, s.live, t, w);
      } else if w.ApplyRotate? {
        RotateThreads(cfg, s.disk, s.live, t, w);
      } else if w.SyncFail? {
        WriterTakeFail(cfg, s.disk, s.live, t);
      } else if w.Apply? || w.ApplyStall? {
        ApplyThreads(cfg, s.disk, s.live, t, w);
      } else {
        LogThreads(cfg, s.disk, s.live, t, w);
      }
    case Caller(t, c) => CallerThreads(cfg, s.live, t, c);
    case FlusherLook => FlusherThreads(cfg, s.live);
    case Table(t, j) =>
      if j.PublishInstall? {
        InstallThreads(cfg, s.disk, s.live, t, j);
      } else if j.ReportFailure? || j.PublishFails? {
        FailThreads(cfg, s.disk, s.live, t, j);
      } else {
        FileThreads(cfg, s.disk, s.live, t, j);
      }
    case CloseBegin => CloseThreads(cfg, s.live);
    case CloseEnd =>
    case Kill(_) =>
    case Crash(_, _) =>
  }
}
