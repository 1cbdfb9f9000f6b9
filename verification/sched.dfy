/** The weighted round-robin scheduler (proc.c). */
module Scheduler {
  const NPROC: nat := 64
  const MAX_PRIORITY: nat := 10
  const DEFAULT_PRIORITY: nat := 1

  datatype ProcState = UNUSED | EMBRYO | SLEEPING | RUNNABLE | RUNNING | ZOMBIE
  datatype Proc = Proc(state: ProcState, priority: int, chan: nat)

  type Table = t: seq<Proc> | |t| == NPROC witness seq(NPROC, _ => Proc(UNUSED, 0, 0))

  /** Every live process has a priority in 1..MAX_PRIORITY. */
  predicate PrioritiesOk(t: Table) {
    forall i :: 0 <= i < NPROC && t[i].state != UNUSED ==> 1 <= t[i].priority <= MAX_PRIORITY
  }

  // ---- one visit of the inner loop ----

  /** Where the nested loops stand: about to look at slot i in a round; whether this round ran anyone. */
  datatype Pos = Pos(round: nat, i: nat, ran: bool)

  predicate PosOk(pos: Pos) {
    pos.round < MAX_PRIORITY && pos.i < NPROC
  }

  predicate Eligible(p: Proc, round: nat) {
    p.state == RUNNABLE && p.priority > round
  }

  /** The next slot to look at; a round that ran nobody restarts the cycle. */
  function Advance(pos: Pos, dispatched: bool): (r: Pos)
    requires PosOk(pos)
    ensures PosOk(r)
  {
    var ran := pos.ran || dispatched;
    if pos.i + 1 < NPROC then Pos(pos.round, pos.i + 1, ran)
    else if !ran || pos.round + 1 == MAX_PRIORITY then Pos(0, 0, false)
    else Pos(pos.round + 1, 0, false)
  }

  /** ts[k] is the process table as the k-th visit finds it; between visits the environment may
      have changed it in any way. */
  function PosAfter(pos: Pos, ts: seq<Table>): (r: Pos)
    requires PosOk(pos)
    ensures PosOk(r)
  {
    if ts == [] then pos else
    var p := PosAfter(pos, ts[..|ts| - 1]);
    Advance(p, Eligible(ts[|ts| - 1][p.i], p.round))
  }

  /** Slots dispatched along the way, in order. */
  function Dispatched(pos: Pos, ts: seq<Table>): seq<nat>
    requires PosOk(pos)
  {
    if ts == [] then [] else
    var n := |ts| - 1;
    var p := PosAfter(pos, ts[..n]);
    Dispatched(pos, ts[..n]) + if Eligible(ts[n][p.i], p.round) then [p.i] else []
  }

  // ---- bounded waiting ----

  /** Visits of other slots before slot p comes up in round 0, if no round restarts early. */
  function OthersBefore(pos: Pos, p: nat): int
    requires p < NPROC
  {
    if pos.round == 0 && pos.i <= p then p - pos.i
    else (MAX_PRIORITY - pos.round) * (NPROC - 1) - (if pos.i > p then pos.i - 1 else pos.i) + p
  }

  /** All visits before slot p comes up in round 0. */
  function VisitsBefore(pos: Pos, p: nat): int
    requires p < NPROC
  {
    if pos.round == 0 && pos.i <= p then p - pos.i else (MAX_PRIORITY - pos.round) * NPROC - pos.i + p
  }

  /** Each visit brings p closer, whatever is dispatched. */
  lemma Closer(pos: Pos, p: nat, d: bool)
    requires PosOk(pos) && p < NPROC && !(pos.round == 0 && pos.i == p)
    ensures VisitsBefore(Advance(pos, d), p) < VisitsBefore(pos, p)
    ensures OthersBefore(Advance(pos, d), p) <= OthersBefore(pos, p) - if pos.i == p then 0 else 1
    ensures 0 <= OthersBefore(pos, p) <= MAX_PRIORITY * (NPROC - 1) && VisitsBefore(pos, p) < MAX_PRIORITY * NPROC
  {
  }

  lemma {:induction false} Waiting(pos: Pos, p: nat, ts: seq<Table>)
    requires PosOk(pos) && p < NPROC
    requires forall k :: 0 <= k < |ts| ==> ts[k][p].state == RUNNABLE && ts[k][p].priority >= 1
    requires p !in Dispatched(pos, ts)
    ensures |Dispatched(pos, ts)| <= OthersBefore(pos, p) - OthersBefore(PosAfter(pos, ts), p)
    ensures |ts| <= VisitsBefore(pos, p) - VisitsBefore(PosAfter(pos, ts), p)
  {
    if ts != [] {
      var n := |ts| - 1;
      var here := PosAfter(pos, ts[..n]);
      Waiting(pos, p, ts[..n]);
      assert Eligible(ts[n][here.i], here.round) ==> here.i in Dispatched(pos, ts);
      Closer(here, p, Eligible(ts[n][here.i], here.round));
    }
  }

  lemma WaitingBound(pos: Pos, p: nat, ts: seq<Table>)
    requires PosOk(pos) && p < NPROC
    requires forall k :: 0 <= k < |ts| ==> ts[k][p].state == RUNNABLE && ts[k][p].priority >= 1
    requires p !in Dispatched(pos, ts)
    ensures |Dispatched(pos, ts)| <= MAX_PRIORITY * (NPROC - 1) && |ts| < MAX_PRIORITY * NPROC
  {
    Waiting(pos, p, ts);
    var end := PosAfter(pos, ts);
    OthersRange(pos, p);
    OthersRange(end, p);
  }

  lemma OthersRange(pos: Pos, p: nat)
    requires PosOk(pos) && p < NPROC
    ensures 0 <= OthersBefore(pos, p) <= MAX_PRIORITY * (NPROC - 1)
    ensures 0 <= VisitsBefore(pos, p) < MAX_PRIORITY * NPROC
  {
  }

  // ---- exact proportional share ----

  /** The slots that a round dispatches when everyone is CPU-bound, among the first n. */
  function Round(t: Table, round: nat, n: nat): seq<nat>
    requires n <= NPROC
  {
    if n == 0 then [] else Round(t, round, n - 1) + if Eligible(t[n - 1], round) then [n - 1] else []
  }

  function Same(t: Table, n: nat): (ts: seq<Table>)
    ensures |ts| == n && forall k :: 0 <= k < n ==> ts[k] == t
  {
    seq(n, _ => t)
  }

  /** With a table that does not change, the visits of one round dispatch exactly Round. */
  lemma {:induction false} RoundVisits(t: Table, r: nat, n: nat)
    requires r < MAX_PRIORITY && n <= NPROC
    ensures Dispatched(Pos(r, 0, false), Same(t, n)) == Round(t, r, n)
    ensures PosAfter(Pos(r, 0, false), Same(t, n)) ==
            if n < NPROC then Pos(r, n, Round(t, r, n) != [])
            else if Round(t, r, n) == [] || r + 1 == MAX_PRIORITY then Pos(0, 0, false)
            else Pos(r + 1, 0, false)
  {
    if n > 0 {
      RoundVisits(t, r, n - 1);
      assert Same(t, n)[..n - 1] == Same(t, n - 1);
    }
  }

  /** MAX_PRIORITY rounds without any early exit. */
  function Rounds(t: Table, k: nat): seq<nat> {
    if k == 0 then [] else Rounds(t, k - 1) + Round(t, k - 1, NPROC)
  }

  function Count(s: seq<nat>, i: nat): nat {
    if s == [] then 0 else Count(s[..|s| - 1], i) + if s[|s| - 1] == i then 1 else 0
  }

  lemma {:induction false} CountAppend(s: seq<nat>, u: seq<nat>, i: nat)
    ensures Count(s + u, i) == Count(s, i) + Count(u, i)
  {
    if u == [] {
      assert s + u == s;
    } else {
      CountAppend(s, u[..|u| - 1], i);
      assert (s + u)[..|s + u| - 1] == s + u[..|u| - 1];
    }
  }

  lemma {:induction false} RoundCount(t: Table, round: nat, n: nat, i: nat)
    requires n <= NPROC && i < NPROC
    ensures Count(Round(t, round, n), i) == if i < n && Eligible(t[i], round) then 1 else 0
  {
    hide Count;
    CountFew(i, n);
    if n > 0 {
      CountFew(i, n - 1);
      RoundCount(t, round, n - 1, i);
      CountAppend(Round(t, round, n - 1), if Eligible(t[n - 1], round) then [n - 1] else [], i);
    }
  }

  lemma CountFew(i: nat, x: nat)
    ensures Count([], i) == 0 && Count([x], i) == if x == i then 1 else 0
  {
    assert [x][..0] == [];
  }

  function Share(p: Proc, k: nat): nat {
    if p.state != RUNNABLE || p.priority <= 0 then 0 else if p.priority < k then p.priority else k
  }

  lemma {:induction false} RoundsCount(t: Table, k: nat, i: nat)
    requires i < NPROC
    ensures Count(Rounds(t, k), i) == Share(t[i], k)
  {
    hide Round, Count;
    CountFew(i, i);
    if k > 0 {
      RoundsCount(t, k - 1, i);
      RoundCount(t, k - 1, NPROC, i);
      CountAppend(Rounds(t, k - 1), Round(t, k - 1, NPROC), i);
    }
  }

  /** A round that dispatches nobody leaves nothing for later rounds: the early exit skips no
      eligible process. */
  lemma {:induction false} EmptyRoundIsLast(t: Table, r: nat, k: nat)
    requires Round(t, r, NPROC) == [] && r <= k
    ensures Rounds(t, k) == Rounds(t, r)
    decreases k
  {
    if r < k {
      EmptyRoundIsLast(t, r, k - 1);
      RoundShrinks(t, r, k - 1, NPROC);
    }
  }

  lemma {:induction false} RoundShrinks(t: Table, r: nat, k: nat, n: nat)
    requires n <= NPROC && r <= k && Round(t, r, n) == []
    ensures Round(t, k, n) == []
  {
    if n > 0 { RoundShrinks(t, r, k, n - 1); }
  }

  function TotalShare(t: Table, n: nat): nat
    requires n <= NPROC
  {
    if n == 0 then 0 else TotalShare(t, n - 1) + Share(t[n - 1], MAX_PRIORITY)
  }

  function CountUpTo(s: seq<nat>, n: nat): nat {
    if n == 0 then 0 else CountUpTo(s, n - 1) + Count(s, n - 1)
  }

  lemma {:induction false} LengthIsCounts(s: seq<nat>, n: nat)
    requires forall k :: 0 <= k < |s| ==> s[k] < n
    ensures |s| == CountUpTo(s, n)
    decreases |s|, n
  {
    if s == [] {
      if n > 0 { LengthIsCounts(s, n - 1); }
    } else {
      LengthIsCounts(s[..|s| - 1], n);
      CountUpToStep(s, n);
    }
  }

  lemma {:induction false} CountUpToStep(s: seq<nat>, n: nat)
    requires s != []
    ensures CountUpTo(s, n) == CountUpTo(s[..|s| - 1], n) + if s[|s| - 1] < n then 1 else 0
  {
    if n > 0 { CountUpToStep(s, n - 1); }
  }

  lemma {:induction false} SharesAddUp(t: Table, n: nat)
    requires n <= NPROC
    ensures CountUpTo(Rounds(t, MAX_PRIORITY), n) == TotalShare(t, n)
  {
    if n > 0 {
      SharesAddUp(t, n - 1);
      RoundsCount(t, MAX_PRIORITY, n - 1);
    }
  }

  lemma {:induction false} RoundsInTable(t: Table, k: nat)
    ensures forall x :: x in Rounds(t, k) ==> x < NPROC
  {
    if k > 0 {
      RoundsInTable(t, k - 1);
      RoundInTable(t, k - 1, NPROC);
    }
  }

  lemma {:induction false} RoundInTable(t: Table, r: nat, n: nat)
    requires n <= NPROC
    ensures forall x :: x in Round(t, r, n) ==> x < n
  {
    if n > 0 { RoundInTable(t, r, n - 1); }
  }

  /** One pass through the body of scheduler's endless loop over a fixed set of CPU-bound
      processes: each runnable process is dispatched exactly priority times, in rounds, and the
      cycle is as long as the priorities add up to. */
  method Cycle(t: Table) returns (trace: seq<nat>)
    requires PrioritiesOk(t)
    ensures trace == Rounds(t, MAX_PRIORITY)
    ensures forall i :: 0 <= i < NPROC ==> Count(trace, i) == if t[i].state == RUNNABLE then t[i].priority else 0
    ensures |trace| == TotalShare(t, NPROC)
  {
    trace := [];
    var round := 0;
    while round < MAX_PRIORITY
      invariant round <= MAX_PRIORITY && trace == Rounds(t, round)
    {
      var ran := false;
      var p := 0;
      ghost var before := trace;
      while p < NPROC
        invariant p <= NPROC && trace == before + Round(t, round, p) && (ran <==> Round(t, round, p) != [])
      {
        if t[p].state == RUNNABLE && t[p].priority > round {
          ran := true;
          trace := trace + [p];
        }
        p := p + 1;
      }
      if !ran {
        EmptyRoundIsLast(t, round, MAX_PRIORITY);
        break;
      }
      round := round + 1;
    }
    forall i | 0 <= i < NPROC ensures Count(trace, i) == if t[i].state == RUNNABLE then t[i].priority else 0 {
      RoundsCount(t, MAX_PRIORITY, i);
    }
    RoundsInTable(t, MAX_PRIORITY);
    assert forall k :: 0 <= k < |trace| ==> trace[k] in trace;
    LengthIsCounts(trace, NPROC);
    SharesAddUp(t, NPROC);
  }

  // ---- the visits of a whole cycle ----

  lemma {:induction false} VisitsAppend(pos: Pos, a: seq<Table>, b: seq<Table>)
    requires PosOk(pos)
    ensures PosAfter(pos, a + b) == PosAfter(PosAfter(pos, a), b)
    ensures Dispatched(pos, a + b) == Dispatched(pos, a) + Dispatched(PosAfter(pos, a), b)
    decreases |b|
  {
    if b == [] {
      assert a + b == a;
    } else {
      var n := |b| - 1;
      VisitsAppend(pos, a, b[..n]);
      assert (a + b)[..|a + b| - 1] == a + b[..n];
    }
  }

  /** From the start of round r the visits go through the remaining rounds and come back. */
  lemma {:induction false} RestOfCycle(t: Table, r: nat) returns (n: nat)
    requires r < MAX_PRIORITY
    ensures 0 < n <= (MAX_PRIORITY - r) * NPROC
    ensures PosAfter(Pos(r, 0, false), Same(t, n)) == Pos(0, 0, false)
    ensures Rounds(t, r) + Dispatched(Pos(r, 0, false), Same(t, n)) == Rounds(t, MAX_PRIORITY)
    decreases MAX_PRIORITY - r
  {
    hide PosAfter, Dispatched, Round;
    n := NPROC;
    RoundVisits(t, r, NPROC);
    if Round(t, r, NPROC) == [] {
      EmptyRoundIsLast(t, r, MAX_PRIORITY);
    } else if r + 1 < MAX_PRIORITY {
      var m := RestOfCycle(t, r + 1);
      n := NPROC + m;
      assert Same(t, NPROC) + Same(t, m) == Same(t, n);
      VisitsAppend(Pos(r, 0, false), Same(t, NPROC), Same(t, m));
    }
  }

  /** With a table that does not change, the visits bring the scheduler back to the start of its
      cycle after dispatching exactly what Cycle dispatches. */
  lemma CycleComesBack(t: Table) returns (n: nat)
    ensures 0 < n <= MAX_PRIORITY * NPROC
    ensures PosAfter(Pos(0, 0, false), Same(t, n)) == Pos(0, 0, false)
    ensures Dispatched(Pos(0, 0, false), Same(t, n)) == Rounds(t, MAX_PRIORITY)
  {
    n := RestOfCycle(t, 0);
    assert Rounds(t, 0) == [];
  }
}
