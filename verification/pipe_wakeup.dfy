/** Lost wakeups on pipes: what every interleaving keeps, and the one that loses a wakeup. */
module PipeWakeup {
  import opened Prelude
  import opened Pipe

  predicate HoldsLock(pc: Pc) {
    pc.Loop? || pc.Copy? || pc.PreWake? || pc.Final? || pc.Release? || pc.Sleep0? || pc.Sleep1?
  }

  predicate HoldsPtable(pc: Pc) {
    pc.Sleep1? || pc.Sleep2?
  }

  /** Asleep on c, or committed to it: p->lock released, ptable.lock not yet. */
  predicate Sleeper(th: Thread, c: Chan) {
    th.pc == Sleep2(c) || th.pc == Asleep(c)
  }

  ghost predicate SomeSleeper(st: St, c: Chan) {
    exists t :: t in st.threads && Sleeper(st.threads[t], c)
  }

  /** A thread's stand agrees with its role and with what it has just tested under p->lock. */
  ghost predicate ThreadOk(st: St, t: Tid)
    requires t in st.threads
  {
    var th := st.threads[t];
    && (HoldsLock(th.pc) <==> st.lock == Some(t))
    && (HoldsPtable(th.pc) <==> st.ptlock == Some(t))
    && (th.pc.Copy? ==> th.role.Reader?)
    && (th.pc.PreWake? ==> th.role.Writer? && Full(st) && st.readopen)
    && (th.pc == Sleep0(NRead) || th.pc == Sleep1(NRead) ==> th.role.Reader? && Empty(st) && st.writeopen)
    && (th.pc == Sleep0(NWrite) || th.pc == Sleep1(NWrite) ==>
          th.role.Writer? && Full(st) && st.readopen && !SomeSleeper(st, NRead))
  }

  ghost predicate LocksOk(st: St) {
    && (st.lock.Some? ==> st.lock.value in st.threads)
    && (st.ptlock.Some? ==> st.ptlock.value in st.threads)
    && forall t :: t in st.threads ==> ThreadOk(st, t)
  }

  /** The holder of p->lock will still call wakeup(&p->nread) before it releases the lock. */
  ghost predicate ReadDuty(st: St) {
    && st.lock.Some? && st.lock.value in st.threads
    && var th := st.threads[st.lock.value];
       || (th.role.Writer? && th.role.unsignalled && (th.pc.Loop? || th.pc.PreWake? || th.pc.Final?))
       || (th.role.Closer? && th.role.writable && th.pc.Final?)
  }

  ghost predicate WriteDuty(st: St) {
    && st.lock.Some? && st.lock.value in st.threads
    && var th := st.threads[st.lock.value];
       || (th.role.Reader? && (th.pc.Copy? || th.pc.Final?))
       || (th.role.Closer? && !th.role.writable && th.pc.Final?)
  }

  ghost predicate WritersOk(st: St) {
    SomeSleeper(st, NWrite) ==> (Full(st) && st.readopen) || WriteDuty(st)
  }

  ghost predicate ReadersOk(st: St) {
    SomeSleeper(st, NRead) ==> (Empty(st) && st.writeopen) || ReadDuty(st)
  }

  /** Kept by every step. */
  ghost predicate Base(st: St) {
    && Fifo(st) && LocksOk(st) && WritersOk(st)
    && !(SomeSleeper(st, NRead) && SomeSleeper(st, NWrite))
  }

  /** No lost wakeup: with p->lock free, a reader sleeps only on an empty pipe with its write
      end open, and a writer only on a full one with its read end open. */
  ghost predicate NoLostWakeup(st: St) {
    st.lock.None? ==>
      && (SomeSleeper(st, NRead) ==> Empty(st) && st.writeopen)
      && (SomeSleeper(st, NWrite) ==> Full(st) && st.readopen)
  }

  /** pipewrite gives up on a full pipe (the reader is gone or the caller was killed) with bytes
      it has not signalled, while a reader sleeps. */
  ghost predicate Abandons(st: St, ev: Event) {
    && ev.Go? && ev.t in st.threads
    && var th := st.threads[ev.t];
       && th.pc.Loop? && th.role.Writer? && th.role.i < |th.role.todo| && th.role.unsignalled
       && Full(st) && (!st.readopen || th.killed) && SomeSleeper(st, NRead)
  }

  lemma FullNotEmpty(st: St)
    requires st.nread < UINT && Full(st)
    ensures !Empty(st)
  {
  }

  // ---- how sleepers change ----

  lemma SleepersAfterSet(st: St, s: St, t: Tid, c: Chan)
    requires t in s.threads && s.threads == st.threads[t := s.threads[t]]
    ensures SomeSleeper(s, c) <==>
            Sleeper(s.threads[t], c) || exists u :: u in st.threads && u != t && Sleeper(st.threads[u], c)
    ensures (t in st.threads && Sleeper(st.threads[t], c) ==> Sleeper(s.threads[t], c)) ==>
              SomeSleeper(st, c) ==> SomeSleeper(s, c)
    ensures (Sleeper(s.threads[t], c) ==> t in st.threads && Sleeper(st.threads[t], c)) ==>
              SomeSleeper(s, c) ==> SomeSleeper(st, c)
  {
    if SomeSleeper(s, c) {
      var u :| u in s.threads && Sleeper(s.threads[u], c);
      assert u != t ==> u in st.threads && Sleeper(st.threads[u], c);
    }
    if u :| u in st.threads && u != t && Sleeper(st.threads[u], c) {
      assert u in s.threads && Sleeper(s.threads[u], c);
    }
    if Sleeper(s.threads[t], c) {
      assert SomeSleeper(s, c);
    }
  }

  /** Only thread t's entry differs. */
  ghost predicate Local(st: St, s: St, t: Tid) {
    t in s.threads && s.threads == st.threads[t := s.threads[t]]
  }

  ghost predicate MineOrFree(l: Option<Tid>, t: Tid) {
    l == None || l == Some(t)
  }

  ghost predicate SamePipe(st: St, s: St) {
    s.nread == st.nread && s.nwrite == st.nwrite && s.readopen == st.readopen && s.writeopen == st.writeopen
    && s.data == st.data && s.accepted == st.accepted && s.delivered == st.delivered
  }

  /** Other threads stay in order when t moves: either nobody else holds p->lock, or the pipe
      does not change and no reader falls asleep. */
  lemma OthersOk(st: St, s: St, t: Tid)
    requires LocksOk(st) && Local(st, s, t)
    requires s.lock == st.lock || (MineOrFree(st.lock, t) && MineOrFree(s.lock, t))
    requires s.ptlock == st.ptlock || (MineOrFree(st.ptlock, t) && MineOrFree(s.ptlock, t))
    requires MineOrFree(st.lock, t) || (SamePipe(st, s) && (SomeSleeper(s, NRead) ==> SomeSleeper(st, NRead)))
    requires ThreadOk(s, t)
    ensures LocksOk(s)
  {
    hide SomeSleeper;
    forall u | u in s.threads ensures ThreadOk(s, u) {
      assert u != t ==> u in st.threads && s.threads[u] == st.threads[u] && ThreadOk(st, u);
    }
  }

  lemma SamePipeFifo(st: St, s: St)
    requires Fifo(st) && SamePipe(st, s)
    ensures Fifo(s)
  {
    assert InFlight(s) == InFlight(st);
  }

  lemma SetSleepers(st: St, s: St, t: Tid)
    requires Local(st, s, t)
    ensures forall c :: SomeSleeper(s, c) <==>
            Sleeper(s.threads[t], c) || exists u :: u in st.threads && u != t && Sleeper(st.threads[u], c)
    ensures forall c :: (t in st.threads && Sleeper(st.threads[t], c) ==> Sleeper(s.threads[t], c)) ==>
              SomeSleeper(st, c) ==> SomeSleeper(s, c)
    ensures forall c :: (Sleeper(s.threads[t], c) ==> t in st.threads && Sleeper(st.threads[t], c)) ==>
              SomeSleeper(s, c) ==> SomeSleeper(st, c)
  {
    forall c {
      SleepersAfterSet(st, s, t, c);
    }
  }

  // ---- every action keeps Base ----

  lemma EnterBase(st: St, t: Tid)
    requires Base(st) && t in st.threads && (st.threads[t].pc.Enter? || st.threads[t].pc.Woken?)
    ensures Base(Action(st, t))
  {
    hide SomeSleeper, Fifo;
    FifoData(st);
    var s := Action(st, t);
    assert ThreadOk(st, t);
    if st.lock.None? {
      SetSleepers(st, s, t);
      SamePipeFifo(st, s);
      OthersOk(st, s, t);
    }
  }

  lemma WriterBase(st: St, t: Tid)
    requires Base(st) && t in st.threads && st.threads[t].pc.Loop? && st.threads[t].role.Writer?
    ensures Base(Action(st, t))
  {
    hide SomeSleeper, Fifo;
    FifoData(st);
    var s, r := Action(st, t), st.threads[t].role;
    assert ThreadOk(st, t);
    if r.i < |r.todo| && !Full(st) {
      PutBase(st, t);
    } else if r.i < |r.todo| && (!st.readopen || st.threads[t].killed) {
      GiveUpBase(st, t);
    } else {
      SamePipeFifo(st, s);
      SetSleepers(st, s, t);
      OthersOk(st, s, t);
    }
  }

  /** A writer that stands before a full pipe gives up. */
  lemma GiveUpBase(st: St, t: Tid)
    requires Base(st) && t in st.threads && st.threads[t].pc.Loop? && st.threads[t].role.Writer?
    requires st.threads[t].role.i < |st.threads[t].role.todo| && Full(st) && (!st.readopen || st.threads[t].killed)
    ensures Base(Action(st, t))
  {
    hide SomeSleeper, Fifo;
    FifoData(st);
    var s := Action(st, t);
    assert ThreadOk(st, t);
    SamePipeFifo(st, s);
    SetSleepers(st, s, t);
    OthersOk(st, s, t);
  }

  /** A writer with room puts its next byte. */
  lemma PutBase(st: St, t: Tid)
    requires Base(st) && t in st.threads && st.threads[t].pc.Loop? && st.threads[t].role.Writer?
    requires st.threads[t].role.i < |st.threads[t].role.todo| && !Full(st)
    ensures Base(Action(st, t))
  {
    hide SomeSleeper, Fifo;
    FifoData(st);
    var s, r := Action(st, t), st.threads[t].role;
    assert ThreadOk(st, t);
    PutFifo(st, r.todo[r.i]);
    SamePipeFifo(PutByte(st, r.todo[r.i]), s);
    SetSleepers(st, s, t);
    OthersOk(st, s, t);
  }

  lemma FifoData(st: St)
    requires Fifo(st)
    ensures |st.data| == PIPESIZE && st.nread < UINT && st.nwrite < UINT
  {
  }

  lemma ReaderBase(st: St, t: Tid)
    requires Base(st) && t in st.threads && st.threads[t].pc.Loop? && st.threads[t].role.Reader?
    ensures Base(Action(st, t))
  {
    hide SomeSleeper, Fifo;
    FifoData(st);
    var s := Action(st, t);
    assert ThreadOk(st, t);
    SamePipeFifo(st, s);
    SetSleepers(st, s, t);
    OthersOk(st, s, t);
  }

  lemma CopyBase(st: St, t: Tid)
    requires Base(st) && t in st.threads && st.threads[t].pc.Copy?
    ensures Base(Action(st, t))
  {
    hide SomeSleeper, Fifo;
    FifoData(st);
    var s, r := Action(st, t), st.threads[t].role;
    assert ThreadOk(st, t);
    if r.got < r.n && !Empty(st) { TakeFifo(st); SamePipeFifo(TakeByte(st), s); } else { SamePipeFifo(st, s); }
    SetSleepers(st, s, t);
    OthersOk(st, s, t);
  }

  lemma CloserBase(st: St, t: Tid)
    requires Base(st) && t in st.threads && st.threads[t].pc.Loop? && st.threads[t].role.Closer?
    ensures Base(Action(st, t))
  {
    hide SomeSleeper;
    var s := Action(st, t);
    assert ThreadOk(st, t);
    assert InFlight(s) == InFlight(st);
    SetSleepers(st, s, t);
    OthersOk(st, s, t);
  }

  lemma ReleaseBase(st: St, t: Tid)
    requires Base(st) && t in st.threads && st.threads[t].pc.Release?
    ensures Base(Action(st, t))
  {
    hide SomeSleeper, Fifo;
    FifoData(st);
    var s := Action(st, t);
    assert ThreadOk(st, t);
    SamePipeFifo(st, s);
    SetSleepers(st, s, t);
    OthersOk(st, s, t);
  }

  /** The handoff in sleep: ptable.lock is taken before p->lock is released. */
  lemma SleepBase(st: St, t: Tid)
    requires Base(st) && t in st.threads
    requires st.threads[t].pc.Sleep0? || st.threads[t].pc.Sleep1? || st.threads[t].pc.Sleep2?
    ensures Base(Action(st, t))
  {
    hide SomeSleeper, Fifo;
    FifoData(st);
    var s := Action(st, t);
    assert ThreadOk(st, t);
    if s != st {
      SamePipeFifo(st, s);
      SetSleepers(st, s, t);
      OthersOk(st, s, t);
    }
  }

  /** A wakeup leaves nobody asleep on its channel and does not touch the other one. */
  lemma WokenSleepers(st: St, t: Tid, c: Chan, pc: Pc)
    requires LocksOk(st) && t in st.threads && st.ptlock.None? && HoldsLock(st.threads[t].pc)
    requires HoldsLock(pc) && !HoldsPtable(pc)
    ensures var s := Wakeup(st, t, c, pc);
            && !SomeSleeper(s, c)
            && forall d :: d != c ==> (SomeSleeper(s, d) <==> SomeSleeper(st, d))
  {
    var s := Wakeup(st, t, c, pc);
    forall u | u in st.threads
      ensures u in s.threads && forall d :: Sleeper(s.threads[u], d) <==> d != c && Sleeper(st.threads[u], d)
    {
      WokenThread(st, t, c, pc, u);
    }
    assert s.threads.Keys == st.threads.Keys;
  }

  lemma WokenThread(st: St, t: Tid, c: Chan, pc: Pc, u: Tid)
    requires LocksOk(st) && t in st.threads && u in st.threads && st.ptlock.None?
    requires HoldsLock(st.threads[t].pc) && HoldsLock(pc) && !HoldsPtable(pc)
    ensures var s := Wakeup(st, t, c, pc);
            u in s.threads && forall d :: Sleeper(s.threads[u], d) <==> d != c && Sleeper(st.threads[u], d)
  {
    assert ThreadOk(st, u);
  }

  lemma WakeBase(st: St, t: Tid)
    requires Base(st) && t in st.threads && (st.threads[t].pc.PreWake? || st.threads[t].pc.Final?)
    ensures Base(Action(st, t))
  {
    hide SomeSleeper, Fifo;
    FifoData(st);
    assert ThreadOk(st, t);
    var th := st.threads[t];
    var s := Action(st, t);
    if st.ptlock.None? {
      var c := if th.pc.PreWake? then NRead else LastWakeup(th.role);
      WokenSleepers(st, t, c, s.threads[t].pc);
      SamePipeFifo(st, s);
      forall u | u in s.threads ensures ThreadOk(s, u) {
        assert ThreadOk(st, u);
      }
    }
  }

  lemma CallBase(st: St, ev: Event)
    requires Base(st) && (ev.Call? || ev.Kill?)
    ensures |st.data| == PIPESIZE && Base(Step(st, ev))
  {
    hide SomeSleeper, Fifo;
    FifoData(st);
    var s := Step(st, ev);
    if s != st {
      if ev.t in st.threads { assert ThreadOk(st, ev.t); }
      SetSleepers(st, s, ev.t);
      SamePipeFifo(st, s);
      assert ThreadOk(s, ev.t);
      OthersOk(st, s, ev.t);
    }
  }

  lemma StepBase(st: St, ev: Event)
    requires Base(st)
    ensures |st.data| == PIPESIZE && Base(Step(st, ev))
  {
    hide Base, Action;
    BaseData(st);
    if !ev.Go? {
      CallBase(st, ev);
    } else if ev.t in st.threads {
      var th := st.threads[ev.t];
      match th.pc
      case Enter => EnterBase(st, ev.t);
      case Woken => EnterBase(st, ev.t);
      case Loop =>
        match th.role {
          case Writer(_, _, _) => WriterBase(st, ev.t);
          case Reader(_, _) => ReaderBase(st, ev.t);
          case Closer(_) => CloserBase(st, ev.t);
        }
      case Copy => CopyBase(st, ev.t);
      case PreWake => WakeBase(st, ev.t);
      case Final => WakeBase(st, ev.t);
      case Release => ReleaseBase(st, ev.t);
      case Sleep0(_) => SleepBase(st, ev.t);
      case Sleep1(_) => SleepBase(st, ev.t);
      case Sleep2(_) => SleepBase(st, ev.t);
      case Asleep(_) => Blocked(st, ev.t);
      case Idle(_) => Blocked(st, ev.t);
    }
  }

  lemma Blocked(st: St, t: Tid)
    requires |st.data| == PIPESIZE && t in st.threads && (st.threads[t].pc.Asleep? || st.threads[t].pc.Idle?)
    ensures Action(st, t) == st
  {
  }

  lemma BaseData(st: St)
    requires Base(st)
    ensures |st.data| == PIPESIZE
  {
  }

  lemma InitBase()
    ensures Base(Init()) && ReadersOk(Init())
  {
    assert InFlight(Init()) == [];
  }

  // ---- readers ----

  lemma WakeReaders(st: St, t: Tid)
    requires Base(st) && ReadersOk(st) && t in st.threads && (st.threads[t].pc.PreWake? || st.threads[t].pc.Final?)
    ensures |st.data| == PIPESIZE && ReadersOk(Action(st, t))
  {
    hide SomeSleeper, Fifo;
    FifoData(st);
    assert ThreadOk(st, t);
    var th, s := st.threads[t], Action(st, t);
    if st.ptlock.None? {
      WokenSleepers(st, t, if th.pc.PreWake? then NRead else LastWakeup(th.role), s.threads[t].pc);
    }
  }

  /** A thread that holds p->lock acts. */
  lemma HolderReaders(st: St, t: Tid)
    requires Base(st) && ReadersOk(st) && t in st.threads && st.lock == Some(t) && !Abandons(st, Go(t))
    requires st.threads[t].pc.Loop? || st.threads[t].pc.Copy? || st.threads[t].pc.Release?
    ensures |st.data| == PIPESIZE && ReadersOk(Action(st, t))
  {
    hide SomeSleeper, Fifo, LocksOk, WritersOk;
    FifoData(st);
    ThreadOkAt(st, t);
    var s := Action(st, t);
    SetSleepers(st, s, t);
  }

  lemma ThreadOkAt(st: St, t: Tid)
    requires LocksOk(st) && t in st.threads
    ensures ThreadOk(st, t)
  {
  }

  /** A step that neither touches the pipe nor takes a duty away. */
  lemma QuietReaders(st: St, ev: Event)
    requires Base(st) && ReadersOk(st)
    requires ev.Go? && ev.t in st.threads ==> var pc := st.threads[ev.t].pc;
               pc.Enter? || pc.Woken? || pc.Sleep0? || pc.Sleep1? || pc.Sleep2? || pc.Asleep? || pc.Idle?
    ensures |st.data| == PIPESIZE && ReadersOk(Step(st, ev))
  {
    hide SomeSleeper, Fifo, LocksOk, WritersOk;
    FifoData(st);
    var s, t := Step(st, ev), ev.t;
    if s != st {
      if t in st.threads { ThreadOkAt(st, t); }
      SetSleepers(st, s, t);
      if st.lock.Some? && st.lock.value in st.threads { ThreadOkAt(st, st.lock.value); }
    }
  }

  /** Every step but an abandoning one keeps the readers' half. */
  lemma StepReaders(st: St, ev: Event)
    requires Base(st) && ReadersOk(st) && !Abandons(st, ev)
    ensures |st.data| == PIPESIZE && ReadersOk(Step(st, ev))
  {
    hide SomeSleeper, Fifo, Action, ReadersOk, WritersOk, ReadDuty;
    FifoData(st);
    if ev.Go? && ev.t in st.threads {
      assert ThreadOk(st, ev.t);
      var pc := st.threads[ev.t].pc;
      if pc.PreWake? || pc.Final? {
        WakeReaders(st, ev.t);
      } else if pc.Loop? || pc.Copy? || pc.Release? {
        HolderReaders(st, ev.t);
      } else {
        QuietReaders(st, ev);
      }
    } else {
      QuietReaders(st, ev);
    }
  }

  /** An abandoning step leaves a reader asleep beside a full pipe with p->lock free. */
  lemma AbandonLosesWakeup(st: St, ev: Event)
    requires Base(st) && Abandons(st, ev)
    ensures |st.data| == PIPESIZE && !NoLostWakeup(Step(st, ev))
  {
    hide SomeSleeper, Fifo;
    FifoData(st);
    var s := Step(st, ev);
    SetSleepers(st, s, ev.t);
    FullNotEmpty(st);
  }

  lemma GoodState(st: St)
    requires Base(st) && ReadersOk(st)
    ensures NoLostWakeup(st)
  {
  }
}
