/** The process table over whole runs on one CPU (proc.c): the scheduler's visits, and everything
    that processes and interrupts do to the table in between. */
module SchedulerRuns {
  import opened Prelude
  import opened Scheduler

  /** The table, where the scheduler's loops stand, and the slot that runs, if any. */
  datatype Cpu = Cpu(table: Table, pos: Pos, cur: Option<nat>)

  datatype Event =
    | UserInit                      // boot: slot 0 becomes runnable
    | Visit                         // the scheduler looks at its next slot
    | AllocProc                     // fork of the running process takes an unused slot
    | AllocUndone(c: nat)           // ... which it gives back when memory is short
    | ForkDone(c: nat)              // ... or makes runnable with its own priority
    | SetPrio(priority: int)
    | Wakeup(chan: nat)             // by the running process or an interrupt handler
    | Kill(c: nat)
    | Reap(c: nat)                  // wait collects a zombie
    | Yield
    | Sleep(chan: nat)
    | Exit

  const UNUSED_PROC := Proc(UNUSED, 0, 0)

  function BootTable(): Table {
    seq(NPROC, _ => UNUSED_PROC)
  }

  function Boot(): Cpu {
    Cpu(BootTable(), Pos(0, 0, false), None)
  }

  function FirstUnused(t: Table, i: nat): (r: nat)
    requires i <= NPROC
    ensures i <= r <= NPROC && (forall k :: i <= k < r ==> t[k].state != UNUSED) && (r < NPROC ==> t[r].state == UNUSED)
    decreases NPROC - i
  {
    if i == NPROC || t[i].state == UNUSED then i else FirstUnused(t, i + 1)
  }

  /** wakeup1. */
  function Woken(t: Table, chan: nat): (r: Table)
    ensures forall i :: 0 <= i < NPROC ==>
              r[i] == if t[i].state == SLEEPING && t[i].chan == chan then t[i].(state := RUNNABLE) else t[i]
  {
    seq(NPROC, i requires 0 <= i < NPROC =>
          if t[i].state == SLEEPING && t[i].chan == chan then t[i].(state := RUNNABLE) else t[i])
  }

  function SetState(t: Table, i: nat, st: ProcState): Table
    requires i < NPROC
  {
    t[i := t[i].(state := st)]
  }

  predicate Running(s: Cpu) {
    s.cur.Some? && s.cur.value < NPROC
  }

  predicate Enabled(s: Cpu, ev: Event) {
    match ev
    case UserInit => s.cur.None? && forall i :: 0 <= i < NPROC ==> s.table[i].state == UNUSED
    case Visit => s.cur.None? && PosOk(s.pos)
    case Wakeup(_) => true
    case AllocUndone(c) => Running(s) && c < NPROC && s.table[c].state == EMBRYO
    case ForkDone(c) => Running(s) && c < NPROC && s.table[c].state == EMBRYO
    case Kill(c) => Running(s) && c < NPROC
    case Reap(c) => Running(s) && c < NPROC && s.table[c].state == ZOMBIE
    case _ => Running(s)
  }

  function Step(s: Cpu, ev: Event): Cpu {
    if !Enabled(s, ev) then s else
    var t := s.table;
    match ev
    case UserInit => s.(table := t[0 := Proc(RUNNABLE, DEFAULT_PRIORITY, 0)])
    case Visit =>
      var i := s.pos.i;
      var d := Eligible(t[i], s.pos.round);
      Cpu(if d then SetState(t, i, RUNNING) else t, Advance(s.pos, d), if d then Some(i) else None)
    case AllocProc =>
      var c := FirstUnused(t, 0);
      if c == NPROC then s else s.(table := t[c := t[c].(state := EMBRYO, priority := DEFAULT_PRIORITY)])
    case AllocUndone(c) => s.(table := SetState(t, c, UNUSED))
    case ForkDone(c) => s.(table := t[c := t[c].(state := RUNNABLE, priority := t[s.cur.value].priority)])
    case SetPrio(n) =>
      if n < 1 || n > MAX_PRIORITY then s else s.(table := t[s.cur.value := t[s.cur.value].(priority := n)])
    case Wakeup(chan) => s.(table := Woken(t, chan))
    case Kill(c) => if t[c].state == SLEEPING then s.(table := SetState(t, c, RUNNABLE)) else s
    case Reap(c) => s.(table := SetState(t, c, UNUSED))
    case Yield => s.(table := SetState(t, s.cur.value, RUNNABLE), cur := None)
    case Sleep(chan) => s.(table := t[s.cur.value := t[s.cur.value].(state := SLEEPING, chan := chan)], cur := None)
    case Exit => s.(table := SetState(t, s.cur.value, ZOMBIE), cur := None)
  }

  function Run(s: Cpu, evs: seq<Event>): Cpu {
    if evs == [] then s else Step(Run(s, evs[..|evs| - 1]), evs[|evs| - 1])
  }

  // ---- the invariant ----

  /** Live priorities are in range, and the slot that runs is the only one marked RUNNING. */
  ghost predicate CpuOk(s: Cpu) {
    && PrioritiesOk(s.table) && PosOk(s.pos)
    && (s.cur.Some? ==> s.cur.value < NPROC)
    && forall i :: 0 <= i < NPROC ==> (s.table[i].state == RUNNING <==> s.cur == Some(i))
  }

  lemma StepOk(s: Cpu, ev: Event)
    requires CpuOk(s)
    ensures CpuOk(Step(s, ev))
  {
  }

  /** Over every run from boot, whatever processes, interrupts and the scheduler do. */
  lemma {:induction false} PrioritiesHold(evs: seq<Event>)
    ensures CpuOk(Run(Boot(), evs))
  {
    hide Step;
    if evs != [] {
      PrioritiesHold(evs[..|evs| - 1]);
      StepOk(Run(Boot(), evs[..|evs| - 1]), evs[|evs| - 1]);
    }
  }

  // ---- what the scheduler does in a run ----

  /** The tables that the visits of a run find. */
  function Seen(s: Cpu, evs: seq<Event>): seq<Table> {
    if evs == [] then [] else
    var n := |evs| - 1;
    var t := Run(s, evs[..n]);
    Seen(s, evs[..n]) + if evs[n].Visit? && Enabled(t, Visit) then [t.table] else []
  }

  /** The slots that get the CPU in a run, in order. */
  function Dispatches(s: Cpu, evs: seq<Event>): seq<nat> {
    if evs == [] then [] else
    var n := |evs| - 1;
    var t, u := Run(s, evs[..n]), Run(s, evs);
    Dispatches(s, evs[..n]) + if evs[n].Visit? && t.cur.None? && u.cur.Some? then [u.cur.value] else []
  }

  /** The run's visits are those of the scheduler's loops on the tables they find. */
  lemma {:induction false} RunVisits(s: Cpu, evs: seq<Event>)
    requires CpuOk(s)
    ensures CpuOk(Run(s, evs)) && Run(s, evs).pos == PosAfter(s.pos, Seen(s, evs))
    ensures Dispatches(s, evs) == Dispatched(s.pos, Seen(s, evs))
  {
    hide Step, CpuOk, Advance, Eligible, PosAfter, Dispatched;
    PosIsOk(s);
    VisitsNone(s.pos);
    if evs != [] {
      var n := |evs| - 1;
      RunVisits(s, evs[..n]);
      var t := Run(s, evs[..n]);
      StepOk(t, evs[n]);
      StepPos(t, evs[n]);
      PosIsOk(t);
      var ts := Seen(s, evs[..n]);
      VisitsSnoc(s.pos, ts, t.table);
      assert Seen(s, evs) == if evs[n].Visit? && Enabled(t, Visit) then ts + [t.table] else ts;
      assert Run(s, evs) == Step(t, evs[n]);
    }
  }

  lemma VisitsNone(pos: Pos)
    requires PosOk(pos)
    ensures PosAfter(pos, []) == pos && Dispatched(pos, []) == []
  {
  }

  lemma VisitsSnoc(pos: Pos, ts: seq<Table>, t: Table)
    requires PosOk(pos)
    ensures var p := PosAfter(pos, ts);
      var d := Eligible(t[p.i], p.round);
      && PosAfter(pos, ts + [t]) == Advance(p, d)
      && Dispatched(pos, ts + [t]) == Dispatched(pos, ts) + if d then [p.i] else []
  {
    assert (ts + [t])[..|ts|] == ts;
  }

  lemma PosIsOk(s: Cpu)
    requires CpuOk(s)
    ensures PosOk(s.pos)
  {
  }

  /** Only visits move the scheduler, and a visit dispatches exactly an eligible slot. */
  lemma StepPos(s: Cpu, ev: Event)
    requires CpuOk(s)
    ensures PosOk(s.pos)
    ensures !(ev.Visit? && Enabled(s, ev)) ==> Step(s, ev).pos == s.pos && (ev.Visit? ==> Step(s, ev) == s)
    ensures ev.Visit? && Enabled(s, ev) ==>
      var d := Eligible(s.table[s.pos.i], s.pos.round);
      s.cur.None? && Step(s, ev).pos == Advance(s.pos, d) && Step(s, ev).cur == if d then Some(s.pos.i) else None
  {
  }

  /** The tables seen come from states of the run. */
  lemma {:induction false} SeenIn(s: Cpu, evs: seq<Event>, k: nat) returns (j: nat)
    requires k < |Seen(s, evs)|
    ensures j < |evs| && Seen(s, evs)[k] == Run(s, evs[..j]).table
  {
    var n := |evs| - 1;
    var ts := Seen(s, evs[..n]);
    if k < |ts| {
      j := SeenIn(s, evs[..n], k);
      assert evs[..n][..j] == evs[..j];
    } else {
      j := n;
    }
  }

  /** Bounded waiting: in any run, from any state reached from boot, a process that stays runnable
      sees at most MAX_PRIORITY * (NPROC - 1) dispatches of others, within MAX_PRIORITY * NPROC
      visits of the scheduler, whatever other processes and interrupts do. */
  lemma BoundedWaiting(before: seq<Event>, evs: seq<Event>, p: nat)
    requires p < NPROC
    requires forall j :: 0 <= j <= |evs| ==> Run(Run(Boot(), before), evs[..j]).table[p].state == RUNNABLE
    ensures var s := Run(Boot(), before);
            |Dispatches(s, evs)| <= MAX_PRIORITY * (NPROC - 1) && |Seen(s, evs)| < MAX_PRIORITY * NPROC
  {
    hide Run, Seen, Dispatches, Step;
    var s := Run(Boot(), before);
    PrioritiesHold(before);
    RunVisits(s, evs);
    var ts := Seen(s, evs);
    forall k | 0 <= k < |ts| ensures ts[k][p].state == RUNNABLE && ts[k][p].priority >= 1 {
      var j := SeenIn(s, evs, k);
      RunVisits(s, evs[..j]);
    }
    NotDispatched(s, evs, p);
    WaitingBound(s.pos, p, ts);
  }

  /** A process that is always found runnable was never dispatched. */
  lemma {:induction false} NotDispatched(s: Cpu, evs: seq<Event>, p: nat)
    requires CpuOk(s) && p < NPROC && forall j :: 0 <= j <= |evs| ==> Run(s, evs[..j]).table[p].state == RUNNABLE
    ensures p !in Dispatches(s, evs)
  {
    hide Step;
    if evs != [] {
      var n := |evs| - 1;
      forall j | 0 <= j <= n ensures Run(s, evs[..n][..j]).table[p].state == RUNNABLE {
        assert evs[..n][..j] == evs[..j];
      }
      NotDispatched(s, evs[..n], p);
      RunVisits(s, evs);
      assert evs[..|evs|] == evs;
    }
  }
}
