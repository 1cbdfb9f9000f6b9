/** What each call on a pipe does with its bytes, and what it returns, over whole runs. */
module PipeCalls {
  import opened Prelude
  import opened Pipe
  import opened PipeWakeup
  import opened PipeTheorems

  // ---- the current call of a thread, read off the run ----

  predicate Begins(st: St, ev: Event, t: Tid) {
    ev.Call? && ev.t == t && (t in st.threads ==> st.threads[t].pc.Idle?)
  }

  /** What xs gained over ys. */
  function Gained(ys: seq<Byte>, xs: seq<Byte>): seq<Byte> {
    if |ys| <= |xs| then xs[|ys|..] else []
  }

  /** The arguments of the call. */
  function Asked(evs: seq<Event>, t: Tid): Option<Role> {
    if evs == [] then None else
    var n := |evs| - 1;
    if Begins(Run(Init(), evs[..n]), evs[n], t) then Some(evs[n].role) else Asked(evs[..n], t)
  }

  /** The bytes that the pipe accepted from t since the call began. */
  function Put(evs: seq<Event>, t: Tid): seq<Byte> {
    if evs == [] then [] else
    var n := |evs| - 1;
    var st := Run(Init(), evs[..n]);
    if Begins(st, evs[n], t) then []
    else Put(evs[..n], t) + if evs[n] == Go(t) then Gained(st.accepted, Run(Init(), evs).accepted) else []
  }

  /** The bytes that the pipe delivered to t since the call began. */
  function Taken(evs: seq<Event>, t: Tid): seq<Byte> {
    if evs == [] then [] else
    var n := |evs| - 1;
    var st := Run(Init(), evs[..n]);
    if Begins(st, evs[n], t) then []
    else Taken(evs[..n], t) + if evs[n] == Go(t) then Gained(st.delivered, Run(Init(), evs).delivered) else []
  }

  // ---- what holds of it ----

  predicate PartAt(xs: seq<Byte>, ys: seq<Byte>, p: int) {
    0 <= p <= |ys| - |xs| && ys[p..p + |xs|] == xs
  }

  /** xs is a contiguous part of ys, at its end if `last`. */
  ghost predicate PartOf(xs: seq<Byte>, ys: seq<Byte>, last: bool) {
    exists p :: PartAt(xs, ys, p) && (last ==> p + |xs| == |ys|)
  }

  ghost predicate WriterOk(st: St, t: Tid, asked: Option<Role>, put: seq<Byte>)
    requires t in st.threads && st.threads[t].role.Writer?
  {
    var th := st.threads[t];
    var todo, i := th.role.todo, th.role.i;
    && asked.Some? && asked.value.Writer? && asked.value.todo == todo && i <= |todo| && put == todo[..i]
    && (th.pc.Final? || th.pc.Release? ==> i == |todo|)
    && (th.pc.Idle? ==> th.pc.result == if i == |todo| then |todo| else -1)
    && (th.pc.Idle? && i < |todo| ==> th.killed || !st.readopen)
  }

  ghost predicate ReaderOk(st: St, t: Tid, asked: Option<Role>, taken: seq<Byte>)
    requires t in st.threads && st.threads[t].role.Reader?
  {
    var th := st.threads[t];
    var n, got := th.role.n, th.role.got;
    && asked.Some? && asked.value.Reader? && asked.value.n == n && |taken| == got <= n
    && PartOf(taken, st.delivered, th.pc.Copy?)
    && (th.pc.Copy? || th.pc.Final? || th.pc.Release? || th.pc.Idle? || got == 0)
    && (th.pc.Final? ==> got == n || Empty(st))
    && (th.pc.Copy? && got == 0 ==> !Empty(st) || !st.writeopen)
    && (th.pc.Final? || th.pc.Release? || (th.pc.Idle? && th.pc.result != -1) ==> got > 0 || n == 0 || !st.writeopen)
    && (th.pc.Idle? ==> th.pc.result == got || (th.pc.result == -1 && got == 0 && th.killed))
  }

  ghost predicate CloserOk(st: St, t: Tid, asked: Option<Role>)
    requires t in st.threads && st.threads[t].role.Closer?
  {
    var th := st.threads[t];
    && asked == Some(th.role)
    && (th.pc.Final? || th.pc.Release? || th.pc.Idle? ==> if th.role.writable then !st.writeopen else !st.readopen)
    && (th.pc.Idle? ==> th.pc.result == 0)
  }

  ghost predicate CallOk(st: St, t: Tid, asked: Option<Role>, put: seq<Byte>, taken: seq<Byte>) {
    t in st.threads ==>
      match st.threads[t].role
      case Writer(_, _, _) => WriterOk(st, t, asked, put) && taken == []
      case Reader(_, _) => ReaderOk(st, t, asked, taken) && put == []
      case Closer(_) => CloserOk(st, t, asked) && put == [] && taken == []
  }

  lemma PartGrows(xs: seq<Byte>, ys: seq<Byte>, zs: seq<Byte>, last: bool)
    requires PartOf(xs, ys, last) && ys <= zs
    ensures PartOf(xs, zs, false)
  {
    var p :| PartAt(xs, ys, p);
    assert zs[p..p + |xs|] == ys[p..p + |xs|];
    assert PartAt(xs, zs, p);
  }

  lemma PartSnoc(xs: seq<Byte>, ys: seq<Byte>, b: Byte)
    requires PartOf(xs, ys, true)
    ensures PartOf(xs + [b], ys + [b], true)
  {
    var p := |ys| - |xs|;
    assert (ys + [b])[p..p + |xs| + 1] == xs + [b];
    assert PartAt(xs + [b], ys + [b], p);
  }

  lemma PartNone(ys: seq<Byte>)
    ensures PartOf([], ys, true) && PartOf([], ys, false)
  {
    assert PartAt([], ys, |ys|);
  }

  /** Somebody else moves, or t is killed. */
  lemma OtherCall(st: St, ev: Event, t: Tid, asked: Option<Role>, put: seq<Byte>, taken: seq<Byte>)
    requires Base(st) && CallOk(st, t, asked, put, taken) && t in st.threads && ev != Go(t) && !Begins(st, ev, t)
    ensures |st.data| == PIPESIZE && CallOk(Step(st, ev), t, asked, put, taken)
  {
    hide Fifo, SomeSleeper, PartOf, WritersOk;
    FifoData(st);
    ThreadOkAt(st, t);
    if ev.Go? && ev.t in st.threads {
      ThreadOkAt(st, ev.t);
      OtherMoves(st, ev.t, t);
    }
    var s := Step(st, ev);
    if st.threads[t].role.Reader? {
      PartGrows(taken, st.delivered, s.delivered, st.threads[t].pc.Copy?);
    }
  }

  /** What another thread's action leaves of t. */
  lemma OtherMoves(st: St, u: Tid, t: Tid)
    requires |st.data| == PIPESIZE && LocksOk(st) && u in st.threads && t in st.threads && t != u
    ensures var s := Action(st, u);
      && t in s.threads && s.threads[t].role == st.threads[t].role && s.threads[t].killed == st.threads[t].killed
      && (s.threads[t].pc == st.threads[t].pc || (st.threads[t].pc.Asleep? && s.threads[t].pc == Woken))
      && st.delivered <= s.delivered && (s.readopen ==> st.readopen) && (s.writeopen ==> st.writeopen)
      && (st.lock == Some(t) ==> SamePipe(st, s))
  {
    hide LocksOk, Action;
    OtherThread(st, u, t);
    OtherPipe(st, u);
    ThreadOkAt(st, u);
  }

  lemma OtherThread(st: St, u: Tid, t: Tid)
    requires |st.data| == PIPESIZE && u in st.threads && t in st.threads && t != u
    ensures var s := Action(st, u);
      && t in s.threads && s.threads[t].role == st.threads[t].role && s.threads[t].killed == st.threads[t].killed
      && (s.threads[t].pc == st.threads[t].pc || (st.threads[t].pc.Asleep? && s.threads[t].pc == Woken))
  {
    hide Wakeup, Full, Empty;
    if st.threads[u].pc.PreWake? || st.threads[u].pc.Final? {
      WakeThread(st, u, t);
    }
  }

  lemma WakeThread(st: St, u: Tid, t: Tid)
    requires u in st.threads && t in st.threads && t != u
    ensures forall c, pc :: var s := Wakeup(st, u, c, pc);
      && t in s.threads && s.threads[t].role == st.threads[t].role && s.threads[t].killed == st.threads[t].killed
      && (s.threads[t].pc == st.threads[t].pc || (st.threads[t].pc.Asleep? && s.threads[t].pc == Woken))
  {
  }

  lemma OtherPipe(st: St, u: Tid)
    requires |st.data| == PIPESIZE && u in st.threads
    ensures var s := Action(st, u);
      && st.delivered <= s.delivered && (s.readopen ==> st.readopen) && (s.writeopen ==> st.writeopen)
      && (!HoldsLock(st.threads[u].pc) ==> SamePipe(st, s))
  {
    hide WriterLoop, ReaderLoop, ReaderCopy, CloserLoop, Wakeup;
    var pc, r := st.threads[u].pc, st.threads[u].role;
    if pc.Loop? && r.Writer? {
      WriterPipe(st, u);
    } else if pc.Loop? && r.Reader? {
      ReaderPipe(st, u);
    } else if pc.Loop? {
      CloserPipe(st, u);
    } else if pc.Copy? && r.Reader? {
      CopyPipe(st, u);
    } else if pc.PreWake? {
      WakePipe(st, u, NRead, Sleep0(NWrite));
    } else if pc.Final? {
      WakePipe(st, u, LastWakeup(r), Release);
    }
  }

  lemma WriterPipe(st: St, u: Tid)
    requires |st.data| == PIPESIZE && u in st.threads && st.threads[u].role.Writer?
    ensures var s := WriterLoop(st, u);
            s.delivered == st.delivered && s.readopen == st.readopen && s.writeopen == st.writeopen
  {
  }

  lemma ReaderPipe(st: St, u: Tid)
    requires u in st.threads
    ensures SamePipe(st, ReaderLoop(st, u))
  {
  }

  lemma CloserPipe(st: St, u: Tid)
    requires u in st.threads && st.threads[u].role.Closer?
    ensures var s := CloserLoop(st, u);
            && s.delivered == st.delivered && s.accepted == st.accepted
            && (s.readopen ==> st.readopen) && (s.writeopen ==> st.writeopen)
  {
  }

  lemma CopyPipe(st: St, u: Tid)
    requires |st.data| == PIPESIZE && u in st.threads && st.threads[u].role.Reader?
    ensures var s := ReaderCopy(st, u);
            && st.delivered <= s.delivered && s.accepted == st.accepted
            && s.readopen == st.readopen && s.writeopen == st.writeopen
  {
  }

  lemma WakePipe(st: St, u: Tid, c: Chan, pc: Pc)
    requires u in st.threads
    ensures SamePipe(st, Wakeup(st, u, c, pc))
  {
  }

  // ---- t itself moves ----

  predicate Ending(pc: Pc) {
    pc.Copy? || pc.Final? || pc.Release? || pc.Idle?
  }

  predicate SameCall(r: Role, r': Role) {
    r' == r || (r.Writer? && r'.Writer? && r' == r.(unsignalled := r'.unsignalled))
  }

  lemma WakeSelf(st: St, t: Tid, c: Chan, pc: Pc)
    requires t in st.threads && !pc.Asleep?
    ensures var s := Wakeup(st, t, c, pc);
      && SamePipe(st, s) && t in s.threads && SameCall(st.threads[t].role, s.threads[t].role)
      && s.threads[t].killed == st.threads[t].killed && (s.threads[t].pc == st.threads[t].pc || s.threads[t].pc == pc)
  {
  }

  /** Where a thread goes from all stands but the loops: to the end only by way of the last wakeup. */
  lemma StandMoves(st: St, t: Tid)
    requires |st.data| == PIPESIZE && t in st.threads && !st.threads[t].pc.Loop? && !st.threads[t].pc.Copy?
    ensures var s, th := Action(st, t), st.threads[t];
      && SamePipe(st, s) && t in s.threads && SameCall(th.role, s.threads[t].role) && s.threads[t].killed == th.killed
      && (|| s.threads[t].pc == th.pc || (th.pc.Final? && s.threads[t].pc.Release?)
          || (th.pc.Release? && s.threads[t].pc == Idle(Returned(th.role)))
          || (!Ending(th.pc) && !Ending(s.threads[t].pc)))
  {
    hide Wakeup;
    var th := st.threads[t];
    if th.pc.PreWake? {
      WakeSelf(st, t, NRead, Sleep0(NWrite));
    } else if th.pc.Final? {
      WakeSelf(st, t, LastWakeup(th.role), Release);
    }
  }

  lemma NothingGained(xs: seq<Byte>, ys: seq<Byte>)
    ensures xs + Gained(ys, ys) == xs
  {
  }

  lemma OwnWriter(st: St, t: Tid, asked: Option<Role>, put: seq<Byte>)
    requires Base(st) && t in st.threads && st.threads[t].role.Writer? && WriterOk(st, t, asked, put)
    ensures |st.data| == PIPESIZE
    ensures var s := Action(st, t);
            && t in s.threads && s.threads[t].role.Writer? && s.delivered == st.delivered
            && WriterOk(s, t, asked, put + Gained(st.accepted, s.accepted))
  {
    hide Base, WriterLoop;
    BaseData(st);
    BaseThread(st, t);
    NothingGained(put, st.accepted);
    if st.threads[t].pc.Loop? {
      OwnWrite(st, t, asked, put);
    } else {
      hide Action;
      StandMoves(st, t);
    }
  }

  lemma BaseThread(st: St, t: Tid)
    requires Base(st) && t in st.threads
    ensures ThreadOk(st, t)
  {
  }

  lemma OwnWrite(st: St, t: Tid, asked: Option<Role>, put: seq<Byte>)
    requires |st.data| == PIPESIZE && t in st.threads && st.threads[t].pc.Loop?
    requires st.threads[t].role.Writer? && WriterOk(st, t, asked, put)
    ensures var s := WriterLoop(st, t);
            && t in s.threads && s.threads[t].role.Writer? && s.delivered == st.delivered
            && WriterOk(s, t, asked, put + Gained(st.accepted, s.accepted))
  {
    var s, r := WriterLoop(st, t), st.threads[t].role;
    NothingGained(put, st.accepted);
    if r.i < |r.todo| && !Full(st) {
      assert Gained(st.accepted, s.accepted) == [r.todo[r.i]];
      assert r.todo[..r.i + 1] == r.todo[..r.i] + [r.todo[r.i]];
    }
  }

  lemma OwnReader(st: St, t: Tid, asked: Option<Role>, taken: seq<Byte>)
    requires Base(st) && t in st.threads && st.threads[t].role.Reader? && ReaderOk(st, t, asked, taken)
    ensures |st.data| == PIPESIZE
    ensures var s := Action(st, t);
            && t in s.threads && s.threads[t].role.Reader? && s.accepted == st.accepted
            && ReaderOk(s, t, asked, taken + Gained(st.delivered, s.delivered))
  {
    hide Base, ReaderLoop, ReaderCopy, PartOf;
    BaseData(st);
    NothingGained(taken, st.delivered);
    if st.threads[t].pc.Loop? {
      OwnTest(st, t, asked, taken);
    } else if st.threads[t].pc.Copy? {
      OwnCopy(st, t, asked, taken);
    } else {
      hide Action;
      StandMoves(st, t);
    }
  }

  lemma OwnTest(st: St, t: Tid, asked: Option<Role>, taken: seq<Byte>)
    requires t in st.threads && st.threads[t].pc.Loop? && st.threads[t].role.Reader? && ReaderOk(st, t, asked, taken)
    ensures var s := ReaderLoop(st, t);
            && t in s.threads && s.threads[t].role.Reader? && SamePipe(st, s) && ReaderOk(s, t, asked, taken)
  {
    hide PartOf;
    PartNone(st.delivered);
    assert |taken| == 0 ==> taken == [];
  }

  lemma OwnCopy(st: St, t: Tid, asked: Option<Role>, taken: seq<Byte>)
    requires |st.data| == PIPESIZE && t in st.threads && st.threads[t].pc.Copy?
    requires st.threads[t].role.Reader? && ReaderOk(st, t, asked, taken)
    ensures var s := ReaderCopy(st, t);
            && t in s.threads && s.threads[t].role.Reader? && s.accepted == st.accepted
            && ReaderOk(s, t, asked, taken + Gained(st.delivered, s.delivered))
  {
    hide PartOf;
    var s := ReaderCopy(st, t);
    NothingGained(taken, st.delivered);
    if s.delivered == st.delivered {
      PartGrows(taken, st.delivered, s.delivered, true);
    } else {
      var b := st.data[st.nread % PIPESIZE];
      assert Gained(st.delivered, s.delivered) == [b];
      PartSnoc(taken, st.delivered, b);
    }
  }

  lemma OwnCloser(st: St, t: Tid, asked: Option<Role>)
    requires Base(st) && t in st.threads && st.threads[t].role.Closer? && CloserOk(st, t, asked)
    ensures |st.data| == PIPESIZE
    ensures var s := Action(st, t);
            && t in s.threads && s.threads[t].role.Closer? && s.accepted == st.accepted && s.delivered == st.delivered
            && CloserOk(s, t, asked)
  {
    hide Base;
    BaseData(st);
    BaseThread(st, t);
    if !st.threads[t].pc.Loop? {
      hide Action;
      StandMoves(st, t);
    }
  }

  lemma OwnCall(st: St, t: Tid, asked: Option<Role>, put: seq<Byte>, taken: seq<Byte>)
    requires Base(st) && CallOk(st, t, asked, put, taken) && t in st.threads
    ensures |st.data| == PIPESIZE
    ensures var s := Action(st, t);
            CallOk(s, t, asked, put + Gained(st.accepted, s.accepted), taken + Gained(st.delivered, s.delivered))
  {
    hide Base, Action, WriterOk, ReaderOk, CloserOk;
    BaseData(st);
    match st.threads[t].role
    case Writer(_, _, _) => OwnWriter(st, t, asked, put);
    case Reader(_, _) => OwnReader(st, t, asked, taken);
    case Closer(_) => OwnCloser(st, t, asked);
  }

  lemma NewCall(st: St, ev: Event, t: Tid)
    requires |st.data| == PIPESIZE && Begins(st, ev, t)
    ensures CallOk(Step(st, ev), t, Some(ev.role), [], [])
  {
    PartNone(st.delivered);
  }

  /** Over every run: what pipewrite has put into the pipe is the first i bytes of its buffer, all
      of them when it returns their number, and it returns -1 otherwise, only when it was killed or
      the read end is closed.  What piperead has taken is a contiguous part of what the pipe
      delivered, at most n bytes, and fewer only with the pipe empty; it returns their number, 0
      only when the write end is closed or it asked for 0, or -1 when killed before it took any.
      pipeclose closes its end. */
  lemma {:induction false} CallsAreExact(evs: seq<Event>, t: Tid)
    ensures CallOk(Run(Init(), evs), t, Asked(evs, t), Put(evs, t), Taken(evs, t))
  {
    hide Base, Step, CallOk;
    if evs == [] {
      NoCallYet(t);
    } else {
      var n := |evs| - 1;
      var st, ev := Run(Init(), evs[..n]), evs[n];
      CallsAreExact(evs[..n], t);
      RunBase(evs[..n]);
      OneMore(st, ev, t, Asked(evs[..n], t), Put(evs[..n], t), Taken(evs[..n], t));
    }
  }

  lemma NoCallYet(t: Tid)
    ensures CallOk(Init(), t, None, [], [])
  {
  }

  lemma OneMore(st: St, ev: Event, t: Tid, asked: Option<Role>, put: seq<Byte>, taken: seq<Byte>)
    requires Base(st) && CallOk(st, t, asked, put, taken)
    ensures |st.data| == PIPESIZE
    ensures var s, b, g := Step(st, ev), Begins(st, ev, t), ev == Go(t);
            CallOk(s, t, if b then Some(ev.role) else asked,
                   if b then [] else put + if g then Gained(st.accepted, s.accepted) else [],
                   if b then [] else taken + if g then Gained(st.delivered, s.delivered) else [])
  {
    hide Base, CallOk, Action;
    BaseData(st);
    assert put + [] == put && taken + [] == taken;
    if Begins(st, ev, t) {
      NewCall(st, ev, t);
    } else if t !in st.threads {
      Absent(st, ev, t, asked, put, taken);
    } else if ev == Go(t) {
      OwnCall(st, t, asked, put, taken);
    } else {
      OtherCall(st, ev, t, asked, put, taken);
    }
  }

  lemma Absent(st: St, ev: Event, t: Tid, asked: Option<Role>, put: seq<Byte>, taken: seq<Byte>)
    requires |st.data| == PIPESIZE && t !in st.threads && !Begins(st, ev, t)
    ensures ev == Go(t) ==> Step(st, ev) == st
    ensures forall x, y, z :: CallOk(Step(st, ev), t, x, y, z)
  {
    hide WriterOk, ReaderOk, CloserOk;
    if ev.Go? && ev.t in st.threads {
      StillAbsent(st, ev.t, t);
    }
  }

  lemma StillAbsent(st: St, u: Tid, t: Tid)
    requires |st.data| == PIPESIZE && u in st.threads && t !in st.threads
    ensures t !in Action(st, u).threads
  {
    hide Wakeup, Full, Empty;
    WakeKeys(st, u);
  }

  lemma WakeKeys(st: St, u: Tid)
    requires u in st.threads
    ensures forall c, pc :: Wakeup(st, u, c, pc).threads.Keys == st.threads.Keys
  {
  }

  /** A kill that gets ptable.lock leaves its victim awake. */
  lemma KillWakes(st: St, t: Tid)
    requires |st.data| == PIPESIZE && t in st.threads && st.ptlock.None?
    ensures var s := Step(st, Kill(t));
      && t in s.threads && s.threads[t].killed && !s.threads[t].pc.Asleep? && s.threads[t].role == st.threads[t].role
      && (st.threads[t].pc.Asleep? || s.threads[t].pc == st.threads[t].pc)
      && forall u :: u in st.threads && u != t ==> u in s.threads && s.threads[u] == st.threads[u]
  {
  }

  /** Nobody but writers puts bytes in and nobody but readers takes them out. */
  lemma OnlyCallsMoveBytes(evs: seq<Event>, ev: Event)
    ensures var st, s := Run(Init(), evs), Run(Init(), evs + [ev]);
      && (s.accepted != st.accepted ==> ev.Go? && ev.t in st.threads && st.threads[ev.t].role.Writer?)
      && (s.delivered != st.delivered ==> ev.Go? && ev.t in st.threads && st.threads[ev.t].role.Reader?)
  {
    hide Base, Action;
    RunLast(evs, ev);
    var st := Run(Init(), evs);
    if ev.Go? && ev.t in st.threads {
      MoverMoves(st, ev.t);
    }
  }

  lemma MoverMoves(st: St, t: Tid)
    requires |st.data| == PIPESIZE && t in st.threads
    ensures var s := Action(st, t);
      && (s.accepted != st.accepted ==> st.threads[t].role.Writer?)
      && (s.delivered != st.delivered ==> st.threads[t].role.Reader?)
  {
    hide WriterLoop, ReaderLoop, ReaderCopy, CloserLoop, Wakeup;
    var pc, r := st.threads[t].pc, st.threads[t].role;
    if pc.Loop? {
      if r.Writer? { WriterPipe(st, t); } else if r.Reader? { ReaderPipe(st, t); } else { CloserPipe(st, t); }
    } else if pc.Copy? {
      if r.Reader? { CopyPipe(st, t); }
    } else {
      hide Action;
      StandMoves(st, t);
    }
  }
}
