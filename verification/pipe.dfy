/** Pipes (pipe.c) with the two-lock handoff of sleep and wakeup (proc.c): every interleaving
    of any number of readers, writers and closers, one lock-protected action at a time. */
module Pipe {
  import opened Prelude

  const PIPESIZE: nat := 512

  type Tid = nat

  /** What processes sleep on: &p->nread (readers) or &p->nwrite (writers). */
  datatype Chan = NRead | NWrite

  /** A call in progress.  `unsignalled`: bytes were written since the last wakeup(&p->nread). */
  datatype Role =
    | Writer(todo: seq<Byte>, i: nat, unsignalled: bool)
    | Reader(n: nat, got: nat)
    | Closer(writable: bool)

  /** Where a thread stands.  Loop, Copy, PreWake, Final, Release, Sleep0 and Sleep1 hold p->lock;
      Sleep1 and Sleep2 hold ptable.lock. */
  datatype Pc =
    | Enter                // about to acquire p->lock
    | Loop                 // about to test the loop condition
    | Copy                 // piperead's copy loop
    | PreWake              // pipewrite found the pipe full: wakeup(&p->nread) comes next
    | Final                // the last wakeup before returning
    | Release              // about to release p->lock and return
    | Sleep0(c: Chan)      // in sleep, about to acquire ptable.lock
    | Sleep1(c: Chan)      // about to release p->lock
    | Sleep2(c: Chan)      // about to become SLEEPING and give up the CPU
    | Asleep(c: Chan)
    | Woken                // RUNNABLE again, about to reacquire p->lock
    | Idle(result: int)    // returned

  datatype Thread = Thread(role: Role, pc: Pc, killed: bool)

  datatype St = St(nread: nat, nwrite: nat, data: seq<Byte>, readopen: bool, writeopen: bool,
                   lock: Option<Tid>, ptlock: Option<Tid>, threads: map<Tid, Thread>,
                   accepted: seq<Byte>, delivered: seq<Byte>)

  datatype Event =
    | Call(t: Tid, role: Role)   // a new system call
    | Go(t: Tid)                 // thread t takes its next action, if it is not blocked
    | Kill(t: Tid)

  function Init(): St {
    St(0, 0, seq(PIPESIZE, _ => 0), true, true, None, None, map[], [], [])
  }

  // ---- the ring ----

  function Used(st: St): nat {
    (st.nwrite - st.nread) % UINT
  }

  predicate Empty(st: St) { st.nread == st.nwrite }
  predicate Full(st: St) { st.nwrite == (st.nread + PIPESIZE) % UINT }

  function PutByte(st: St, b: Byte): St
    requires |st.data| == PIPESIZE
  {
    st.(data := st.data[st.nwrite % PIPESIZE := b], nwrite := (st.nwrite + 1) % UINT, accepted := st.accepted + [b])
  }

  function TakeByte(st: St): St
    requires |st.data| == PIPESIZE
  {
    st.(nread := (st.nread + 1) % UINT, delivered := st.delivered + [st.data[st.nread % PIPESIZE]])
  }

  // ---- the threads ----

  function SetPc(st: St, t: Tid, pc: Pc): St
    requires t in st.threads
  {
    st.(threads := st.threads[t := st.threads[t].(pc := pc)])
  }

  function SetRole(st: St, t: Tid, role: Role): St
    requires t in st.threads
  {
    st.(threads := st.threads[t := st.threads[t].(role := role)])
  }

  /** wakeup1. */
  function WakeAll(threads: map<Tid, Thread>, c: Chan): map<Tid, Thread> {
    map t | t in threads :: if threads[t].pc == Asleep(c) then threads[t].(pc := Woken) else threads[t]
  }

  /** wakeup(chan) by thread t, which then stands at pc. */
  function Wakeup(st: St, t: Tid, c: Chan, pc: Pc): St
    requires t in st.threads
  {
    var r := st.threads[t].role;
    var r' := if r.Writer? && c == NRead then r.(unsignalled := false) else r;
    if st.ptlock.Some? then st
    else st.(threads := WakeAll(st.threads[t := st.threads[t].(pc := pc, role := r')], c))
  }

  /** One iteration of pipewrite's loops. */
  function WriterLoop(st: St, t: Tid): St
    requires t in st.threads && st.threads[t].role.Writer? && |st.data| == PIPESIZE
  {
    var th := st.threads[t];
    var r := th.role;
    if r.i >= |r.todo| then SetPc(st, t, Final)
    else if Full(st) then
      if !st.readopen || th.killed then SetPc(st, t, Idle(-1)).(lock := None)
      else SetPc(st, t, PreWake)
    else SetRole(PutByte(st, r.todo[r.i]), t, r.(i := r.i + 1, unsignalled := true))
  }

  /** The test at the head of piperead. */
  function ReaderLoop(st: St, t: Tid): St
    requires t in st.threads
  {
    if Empty(st) && st.writeopen then
      if st.threads[t].killed then SetPc(st, t, Idle(-1)).(lock := None) else SetPc(st, t, Sleep0(NRead))
    else SetPc(st, t, Copy)
  }

  function ReaderCopy(st: St, t: Tid): St
    requires t in st.threads && st.threads[t].role.Reader? && |st.data| == PIPESIZE
  {
    var r := st.threads[t].role;
    if r.got >= r.n || Empty(st) then SetPc(st, t, Final)
    else SetRole(TakeByte(st), t, r.(got := r.got + 1))
  }

  function CloserLoop(st: St, t: Tid): St
    requires t in st.threads && st.threads[t].role.Closer?
  {
    var s := SetPc(st, t, Final);
    if st.threads[t].role.writable then s.(writeopen := false) else s.(readopen := false)
  }

  /** The channel of the wakeup each call ends with. */
  function LastWakeup(r: Role): Chan {
    match r
    case Writer(_, _, _) => NRead
    case Reader(_, _) => NWrite
    case Closer(writable) => if writable then NRead else NWrite
  }

  /** What a call that runs to its end returns. */
  function Returned(r: Role): int {
    match r
    case Writer(todo, _, _) => |todo|
    case Reader(_, got) => got
    case Closer(_) => 0
  }

  /** Thread t's next action. */
  function Action(st: St, t: Tid): St
    requires t in st.threads && |st.data| == PIPESIZE
  {
    var th := st.threads[t];
    match th.pc
    case Enter => if st.lock.None? then SetPc(st, t, Loop).(lock := Some(t)) else st
    case Woken => if st.lock.None? then SetPc(st, t, Loop).(lock := Some(t)) else st
    case Loop =>
      (match th.role
       case Writer(_, _, _) => WriterLoop(st, t)
       case Reader(_, _) => ReaderLoop(st, t)
       case Closer(_) => CloserLoop(st, t))
    case Copy => if th.role.Reader? then ReaderCopy(st, t) else st
    case PreWake => Wakeup(st, t, NRead, Sleep0(NWrite))
    case Final => Wakeup(st, t, LastWakeup(th.role), Release)
    case Release => SetPc(st, t, Idle(Returned(th.role))).(lock := None)
    case Sleep0(c) => if st.ptlock.None? then SetPc(st, t, Sleep1(c)).(ptlock := Some(t)) else st
    case Sleep1(c) => SetPc(st, t, Sleep2(c)).(lock := None)
    case Sleep2(c) => SetPc(st, t, Asleep(c)).(ptlock := None)
    case Asleep(_) => st
    case Idle(_) => st
  }

  function Step(st: St, ev: Event): St
    requires |st.data| == PIPESIZE
  {
    match ev
    case Call(t, role) =>
      if t in st.threads && !st.threads[t].pc.Idle? then st
      else
        var r := if role.Writer? then role.(i := 0, unsignalled := false)
                 else if role.Reader? then role.(got := 0) else role;
        st.(threads := st.threads[t := Thread(r, Enter, if t in st.threads then st.threads[t].killed else false)])
    case Go(t) => if t in st.threads then Action(st, t) else st
    case Kill(t) =>
      if t !in st.threads || st.ptlock.Some? then st else
      var th := st.threads[t];
      st.(threads := st.threads[t := th.(killed := true, pc := if th.pc.Asleep? then Woken else th.pc)])
  }

  function Run(st: St, evs: seq<Event>): (r: St)
    requires |st.data| == PIPESIZE
    ensures |r.data| == PIPESIZE
  {
    if evs == [] then st else Step(Run(st, evs[..|evs| - 1]), evs[|evs| - 1])
  }

  // ---- first-in first-out ----

  function Slot(r: nat, j: nat): (k: nat)
    ensures k < PIPESIZE
  {
    (r + j) % PIPESIZE
  }

  /** The bytes in the ring, oldest first. */
  function InFlight(st: St): (q: seq<Byte>)
    requires |st.data| == PIPESIZE
    ensures |q| == Used(st) && forall j :: 0 <= j < |q| ==> q[j] == st.data[Slot(st.nread, j)]
  {
    seq(Used(st), j requires 0 <= j => st.data[Slot(st.nread, j)])
  }

  /** Accepted bytes are the delivered ones followed by the ring, which holds at most
      PIPESIZE bytes, across counter wrap-around. */
  ghost predicate Fifo(st: St) {
    && |st.data| == PIPESIZE && st.nread < UINT && st.nwrite < UINT
    && Used(st) <= PIPESIZE
    && st.accepted == st.delivered + InFlight(st)
  }

  lemma PutFifo(st: St, b: Byte)
    requires Fifo(st) && !Full(st)
    ensures Fifo(PutByte(st, b)) && Used(PutByte(st, b)) == Used(st) + 1
  {
    hide InFlight, Slot;
    var s, u := PutByte(st, b), Used(st);
    CounterStep(st.nread, st.nwrite);
    forall j | 0 <= j <= u ensures InFlight(s)[j] == (InFlight(st) + [b])[j] {
      SlotOf(st.nread, st.nwrite, j);
    }
    assert InFlight(s) == InFlight(st) + [b];
  }

  lemma TakeFifo(st: St)
    requires Fifo(st) && !Empty(st)
    ensures Fifo(TakeByte(st)) && Used(TakeByte(st)) == Used(st) - 1
  {
    hide InFlight, Slot, Used;
    var s, x := TakeByte(st), st.data[st.nread % PIPESIZE];
    TakeUsed(st);
    SlotZero(st.nread);
    forall j | 0 <= j < Used(s) ensures InFlight(s)[j] == InFlight(st)[j + 1] {
      NextSlot(st.nread, j);
    }
    assert InFlight(st) == [x] + InFlight(s);
    assert st.delivered + ([x] + InFlight(s)) == st.delivered + [x] + InFlight(s);
  }

  lemma TakeUsed(st: St)
    requires |st.data| == PIPESIZE && st.nread < UINT && st.nwrite < UINT && !Empty(st)
    ensures Used(st) > 0 && Used(TakeByte(st)) == Used(st) - 1 && TakeByte(st).nread < UINT
  {
    TakeStep(st.nread, st.nwrite);
  }

  lemma SlotZero(r: nat)
    ensures Slot(r, 0) == r % PIPESIZE
  {
  }

  /** Counter arithmetic: PIPESIZE divides the wrap-around modulus. */
  lemma CounterStep(r: nat, w: nat)
    requires r < UINT && w < UINT && (w - r) % UINT <= PIPESIZE && w != (r + PIPESIZE) % UINT
    ensures (w - r) % UINT < PIPESIZE && ((w + 1) % UINT - r) % UINT == (w - r) % UINT + 1
  {
  }

  lemma TakeStep(r: nat, w: nat)
    requires r < UINT && w < UINT && r != w
    ensures (w - r) % UINT > 0 && (w - (r + 1) % UINT) % UINT == (w - r) % UINT - 1
  {
  }

  lemma SlotOf(r: nat, w: nat, j: nat)
    requires r < UINT && w < UINT && j <= (w - r) % UINT < PIPESIZE
    ensures Slot(r, j) == w % PIPESIZE <==> j == (w - r) % UINT
  {
    var u := (w - r) % UINT;
    assert w == r + u || w == r + u - UINT;
    assert w % PIPESIZE == (r + u) % PIPESIZE;
    assert j < u ==> (r + j) % PIPESIZE != (r + u) % PIPESIZE;
  }

  lemma NextSlot(r: nat, j: nat)
    requires r < UINT
    ensures Slot((r + 1) % UINT, j) == Slot(r, j + 1)
  {
    assert r + 1 < UINT || (r + 1 == UINT && (r + 1) % UINT == 0);
    assert (UINT + j) % PIPESIZE == j % PIPESIZE;
  }
}
