/** What the process table's users are promised over whole runs (proc.c): priorities are the ones
    set or inherited, each cycle gives every runnable process its priority in turns, runnable
    processes get the CPU, sleepers and zombies do not. */
module SchedulerLaws {
  import opened Prelude
  import opened Scheduler
  import opened SchedulerRuns

  // ---- priorities ----

  /** The priority of slot i as the events tell it: set by its process, or inherited at fork. */
  function Weight(evs: seq<Event>, i: nat): int {
    if evs == [] then 0 else
    var n := |evs| - 1;
    var s, ev := Run(Boot(), evs[..n]), evs[n];
    if ev.SetPrio? && s.cur == Some(i) && 1 <= ev.priority <= 10 then ev.priority
    else if ev.ForkDone? && ev.c == i && Enabled(s, ev) then Weight(evs[..n], s.cur.value)
    else if ev.UserInit? && i == 0 && Enabled(s, ev) then 1
    else Weight(evs[..n], i)
  }

  /** Past fork, and before wait. */
  predicate Alive(p: Proc) {
    p.state != UNUSED && p.state != EMBRYO
  }

  /** Over every run a process has the priority it last set, or its parent's from fork on. */
  lemma {:induction false} PriorityIs(evs: seq<Event>, i: nat)
    requires i < NPROC && Alive(Run(Boot(), evs).table[i])
    ensures Run(Boot(), evs).table[i].priority == Weight(evs, i)
  {
    var n := |evs| - 1;
    var s, ev := Run(Boot(), evs[..n]), evs[n];
    PrioritiesHold(evs[..n]);
    OthersPriority(s, ev, i);
    hide CpuOk, Step, FirstUnused;
    if ev.ForkDone? && ev.c == i && Enabled(s, ev) {
      PriorityIs(evs[..n], s.cur.value);
    } else if Alive(s.table[i]) {
      PriorityIs(evs[..n], i);
    }
  }

  // ---- turns ----

  /** Nothing happens but visits and processes that use up their slice. */
  predicate Quiet(evs: seq<Event>) {
    forall j :: 0 <= j < |evs| ==> evs[j].Visit? || evs[j].Yield?
  }

  /** Table t, but for the process that runs, which is runnable in t. */
  ghost predicate Slice(t: Table, u: Cpu) {
    match u.cur
    case None => u.table == t
    case Some(i) => i < NPROC && t[i].state == RUNNABLE && u.table == t[i := t[i].(state := RUNNING)]
  }

  lemma SliceStep(t: Table, u: Cpu, ev: Event)
    requires CpuOk(u) && Slice(t, u) && (ev.Visit? || ev.Yield?)
    ensures Slice(t, Step(u, ev))
  {
    if ev.Yield? && u.cur.Some? {
      assert u.table[u.cur.value := t[u.cur.value]] == t;
    }
  }

  lemma {:induction false} QuietRun(s: Cpu, evs: seq<Event>)
    requires CpuOk(s) && s.cur.None? && Quiet(evs)
    ensures Slice(s.table, Run(s, evs)) && Seen(s, evs) == Same(s.table, |Seen(s, evs)|)
  {
    hide CpuOk, Step;
    if evs != [] {
      var n := |evs| - 1;
      QuietRun(s, evs[..n]);
      RunVisits(s, evs[..n]);
      assert evs[n].Visit? || evs[n].Yield?;
      SliceStep(s.table, Run(s, evs[..n]), evs[n]);
    }
  }

  /** Where everyone is CPU-bound, one cycle dispatches every runnable process exactly as often as
      its priority says, and the next cycle starts. */
  lemma CycleShares(s: Cpu) returns (m: nat)
    requires CpuOk(s) && s.cur.None? && s.pos == Pos(0, 0, false)
    ensures 0 < m <= MAX_PRIORITY * NPROC
    ensures forall evs :: Quiet(evs) && |Seen(s, evs)| == m ==> TurnsAre(s, evs)
  {
    hide Run, Seen, Dispatches;
    m := CycleComesBack(s.table);
    forall evs | Quiet(evs) && |Seen(s, evs)| == m ensures TurnsAre(s, evs) {
      QuietRun(s, evs);
      RunVisits(s, evs);
      forall i | 0 <= i < NPROC ensures Count(Dispatches(s, evs), i) == Turns(s, i) {
        RoundsCount(s.table, MAX_PRIORITY, i);
      }
    }
  }

  function Turns(s: Cpu, i: nat): int
    requires i < NPROC
  {
    if s.table[i].state == RUNNABLE then s.table[i].priority else 0
  }

  ghost predicate TurnsAre(s: Cpu, evs: seq<Event>) {
    && Run(s, evs).pos == Pos(0, 0, false)
    && forall i :: 0 <= i < NPROC ==> Count(Dispatches(s, evs), i) == Turns(s, i)
  }

  /** Process p lives through the run and does not call setprio in it. */
  ghost predicate LeavesPriority(s: Cpu, evs: seq<Event>, p: nat)
    requires p < NPROC
  {
    && (forall j :: 0 <= j <= |evs| ==> Alive(Run(s, evs[..j]).table[p]))
    && (forall j :: 0 <= j < |evs| && evs[j].SetPrio? ==> Run(s, evs[..j]).cur != Some(p))
  }

  lemma {:induction false} PriorityStays(s: Cpu, evs: seq<Event>, p: nat)
    requires CpuOk(s) && p < NPROC && LeavesPriority(s, evs, p)
    ensures CpuOk(Run(s, evs)) && Run(s, evs).table[p].priority == s.table[p].priority
  {
    hide CpuOk;
    if evs != [] {
      var n := |evs| - 1;
      forall j | 0 <= j <= n ensures evs[..n][..j] == evs[..j] && Alive(Run(s, evs[..n][..j]).table[p]) {
        assert evs[..n][..j] == evs[..j];
      }
      assert evs[..|evs|] == evs;
      PriorityStays(s, evs[..n], p);
      StepOk(Run(s, evs[..n]), evs[n]);
      OthersPriority(Run(s, evs[..n]), evs[n], p);
      hide Step;
    }
  }

  lemma OthersPriority(s: Cpu, ev: Event, p: nat)
    requires CpuOk(s) && p < NPROC && Alive(Step(s, ev).table[p])
    ensures var before, after := s.table[p], Step(s, ev).table[p].priority;
            if ev.SetPrio? && s.cur == Some(p) && 1 <= ev.priority <= 10 then Alive(before) && after == ev.priority
            else if ev.ForkDone? && ev.c == p && Enabled(s, ev) then
              Alive(s.table[s.cur.value]) && after == s.table[s.cur.value].priority
            else if ev.UserInit? && p == 0 && Enabled(s, ev) then after == 1
            else Alive(before) && after == before.priority
  {
    hide FirstUnused;
  }

  /** setprio: after a call with a priority from 1 to 10, and until the next one, every cycle of
      CPU-bound processes dispatches the caller exactly that many times. */
  lemma {:induction false} SetPrioDelivers(before: seq<Event>, p: nat, n: int, mid: seq<Event>) returns (m: nat)
    requires p < NPROC && Run(Boot(), before).cur == Some(p) && 1 <= n <= 10
    requires var s := Step(Run(Boot(), before), SetPrio(n));
             && LeavesPriority(s, mid, p)
             && Run(s, mid).cur.None? && Run(s, mid).pos == Pos(0, 0, false) && Run(s, mid).table[p].state == RUNNABLE
    ensures var s := Run(Step(Run(Boot(), before), SetPrio(n)), mid);
            && 0 < m <= MAX_PRIORITY * NPROC
            && forall evs :: Quiet(evs) && |Seen(s, evs)| == m ==>
                 Count(Dispatches(s, evs), p) == n && Run(s, evs).pos == Pos(0, 0, false)
  {
    hide Run, Seen, Dispatches, LeavesPriority;
    PrioritiesHold(before);
    var s1 := Step(Run(Boot(), before), SetPrio(n));
    StepOk(Run(Boot(), before), SetPrio(n));
    PriorityStays(s1, mid, p);
    var s := Run(s1, mid);
    m := CycleShares(s);
    forall evs | Quiet(evs) && |Seen(s, evs)| == m
      ensures Count(Dispatches(s, evs), p) == n && Run(s, evs).pos == Pos(0, 0, false)
    {
      assert TurnsAre(s, evs);
    }
  }

  // ---- who gets the CPU ----

  lemma RunnableStep(s: Cpu, ev: Event, p: nat)
    requires CpuOk(s) && p < NPROC && s.table[p].state == RUNNABLE
    ensures Step(s, ev).table[p].state == RUNNABLE || (ev.Visit? && s.cur.None? && Step(s, ev).cur == Some(p))
  {
  }

  lemma {:induction false} RunnableStays(s: Cpu, evs: seq<Event>, p: nat, j: nat)
    requires CpuOk(s) && p < NPROC && s.table[p].state == RUNNABLE && p !in Dispatches(s, evs) && j <= |evs|
    ensures Run(s, evs[..j]).table[p].state == RUNNABLE
  {
    hide Step, CpuOk;
    if evs != [] {
      var n := |evs| - 1;
      assert forall k :: 0 <= k < |Dispatches(s, evs[..n])| ==> Dispatches(s, evs)[k] == Dispatches(s, evs[..n])[k];
      if j <= n {
        RunnableStays(s, evs[..n], p, j);
        assert evs[..n][..j] == evs[..j];
      } else {
        RunnableStays(s, evs[..n], p, n);
        assert evs[..n][..n] == evs[..n] && evs[..j] == evs;
        RunVisits(s, evs[..n]);
        RunnableStep(Run(s, evs[..n]), evs[n], p);
      }
    }
  }

  /** From every state reached from boot, a process that is runnable gets the CPU within
      MAX_PRIORITY * NPROC visits, and at most MAX_PRIORITY * (NPROC - 1) others get it first,
      whatever processes and interrupts do. */
  lemma {:induction false} RunnableGetsCpu(before: seq<Event>, evs: seq<Event>, p: nat)
    requires p < NPROC && Run(Boot(), before).table[p].state == RUNNABLE
    requires p !in Dispatches(Run(Boot(), before), evs)
    ensures var s := Run(Boot(), before);
            |Seen(s, evs)| < MAX_PRIORITY * NPROC && |Dispatches(s, evs)| <= MAX_PRIORITY * (NPROC - 1)
  {
    var s := Run(Boot(), before);
    PrioritiesHold(before);
    forall j | 0 <= j <= |evs| ensures Run(s, evs[..j]).table[p].state == RUNNABLE {
      RunnableStays(s, evs, p, j);
    }
    BoundedWaiting(before, evs, p);
  }

  /** The event may make a sleeper on chan, or the zombie, in slot p something else. */
  predicate Rouses(p: nat, chan: nat, ev: Event) {
    ev == Wakeup(chan) || ev == Kill(p)
  }

  lemma {:induction false} AsleepStays(s: Cpu, evs: seq<Event>, p: nat)
    requires CpuOk(s) && p < NPROC && s.table[p].state == SLEEPING
    requires forall j :: 0 <= j < |evs| ==> !Rouses(p, s.table[p].chan, evs[j])
    ensures CpuOk(Run(s, evs)) && Run(s, evs).table[p] == s.table[p] && p !in Dispatches(s, evs)
  {
    if evs != [] {
      var n := |evs| - 1;
      AsleepStays(s, evs[..n], p);
      StepOk(Run(s, evs[..n]), evs[n]);
      assert !Rouses(p, s.table[p].chan, evs[n]);
    }
  }

  /** sleep: the caller gets the CPU no more until a wakeup on its channel or a kill, and either
      makes it runnable. */
  lemma {:induction false} SleepsUntilRoused(before: seq<Event>, p: nat, chan: nat, evs: seq<Event>)
    requires p < NPROC && Run(Boot(), before).cur == Some(p)
    requires forall j :: 0 <= j < |evs| ==> !Rouses(p, chan, evs[j])
    ensures var s := Step(Run(Boot(), before), Sleep(chan));
            var u := Run(s, evs);
            && s.cur == None && p !in Dispatches(s, evs) && u.table[p].state != RUNNABLE
            && Step(u, Wakeup(chan)).table[p].state == RUNNABLE
            && (Running(u) ==> Step(u, Kill(p)).table[p].state == RUNNABLE)
  {
    hide Run, Dispatches;
    PrioritiesHold(before);
    StepOk(Run(Boot(), before), Sleep(chan));
    AsleepStays(Step(Run(Boot(), before), Sleep(chan)), evs, p);
  }

  lemma {:induction false} ZombieStays(s: Cpu, evs: seq<Event>, p: nat)
    requires CpuOk(s) && p < NPROC && s.table[p].state == ZOMBIE && forall j :: 0 <= j < |evs| ==> evs[j] != Reap(p)
    ensures CpuOk(Run(s, evs)) && Run(s, evs).table[p] == s.table[p] && p !in Dispatches(s, evs)
  {
    if evs != [] {
      var n := |evs| - 1;
      ZombieStays(s, evs[..n], p);
      StepOk(Run(s, evs[..n]), evs[n]);
    }
  }

  /** exit: the caller never gets the CPU again, and its slot stays taken until wait frees it. */
  lemma {:induction false} ExitIsFinal(before: seq<Event>, p: nat, evs: seq<Event>)
    requires p < NPROC && Run(Boot(), before).cur == Some(p) && forall j :: 0 <= j < |evs| ==> evs[j] != Reap(p)
    ensures var s := Step(Run(Boot(), before), Exit);
            var u := Run(s, evs);
            && s.cur == None && p !in Dispatches(s, evs) && u.table[p].state == ZOMBIE
            && (Running(u) ==> Step(u, Reap(p)).table[p].state == UNUSED)
  {
    hide Run, Dispatches;
    PrioritiesHold(before);
    StepOk(Run(Boot(), before), Exit);
    ZombieStays(Step(Run(Boot(), before), Exit), evs, p);
  }

  /** fork: a slot is found exactly when one is unused; the child becomes runnable with its
      parent's priority, or the slot is unused again; nobody else's slot changes. */
  lemma {:induction false} ForkTakesUnused(before: seq<Event>, p: nat)
    requires p < NPROC && Run(Boot(), before).cur == Some(p)
    ensures var s := Run(Boot(), before);
            var u := Step(s, AllocProc);
            if exists c :: 0 <= c < NPROC && s.table[c].state == UNUSED then
              exists c :: 0 <= c < NPROC && c != p && s.table[c].state == UNUSED && Forked(s, u, c)
            else u == s
  {
    var s := Run(Boot(), before);
    PrioritiesHold(before);
    var c := FirstUnused(s.table, 0);
    if c < NPROC {
      assert Forked(s, Step(s, AllocProc), c);
    }
  }

  ghost predicate Forked(s: Cpu, u: Cpu, c: nat)
    requires c < NPROC && Running(s)
  {
    && OneSlot(s, u, c, EMBRYO) && OneSlot(s, Step(u, AllocUndone(c)), c, UNUSED)
    && OneSlot(s, Step(u, ForkDone(c)), c, RUNNABLE)
    && Step(u, ForkDone(c)).table[c].priority == s.table[s.cur.value].priority
  }

  /** Only slot c changed, and it is now in state st. */
  ghost predicate OneSlot(s: Cpu, u: Cpu, c: nat, st: ProcState)
    requires c < NPROC
  {
    u == s.(table := s.table[c := u.table[c]]) && u.table[c].state == st
  }
}
