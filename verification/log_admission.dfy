/** Admission control of the log (log.c): begin_op, log_write and end_op interleaved freely.
    log_write tests for space before it takes the lock, so the test and the append are two steps. */
module LogAdmission {
  import opened Prelude
  import opened Param
  type Tid = nat

  /** One file-system call in progress: the distinct blocks it has logged, and a block that has
      passed log_write's space test but is not yet appended. */
  datatype OpSt = OpSt(mine: set<nat>, checked: Option<nat>)

  /** log.lh, the outstanding calls, log.committing, and whether log_write has panicked. */
  datatype LogSt = LogSt(lh: seq<nat>, ops: map<Tid, OpSt>, committing: bool, panicked: bool)

  datatype Event =
    | BeginOp(t: Tid)
    | Check(t: Tid, b: nat)
    | Append(t: Tid)
    | EndOp(t: Tid)
    | CommitDone

  const INIT := LogSt([], map[], false, false)

  /** log_write's test; `size` is log.size. */
  predicate TooBig(size: nat, st: LogSt) {
    |st.lh| >= LOGSIZE || |st.lh| >= size - 1
  }

  /** A call keeps its promise to log at most MAXOPBLOCKS distinct blocks. */
  predicate InBudget(o: OpSt, b: nat) {
    b in o.mine || |o.mine| < MAXOPBLOCKS
  }

  predicate Enabled(st: LogSt, ev: Event) {
    match ev
    case BeginOp(t) => t !in st.ops && !st.committing && |st.lh| + (|st.ops| + 1) * MAXOPBLOCKS <= LOGSIZE
    case Check(t, b) => t in st.ops && st.ops[t].checked.None? && InBudget(st.ops[t], b)
    case Append(t) => t in st.ops && st.ops[t].checked.Some?
    case EndOp(t) => t in st.ops && st.ops[t].checked.None?
    case CommitDone => st.committing
  }

  /** log_write's loop: absorb the block or append it. */
  function Absorb(lh: seq<nat>, b: nat): seq<nat> {
    if b in lh then lh else lh + [b]
  }

  function Step(size: nat, st: LogSt, ev: Event): LogSt {
    if st.panicked || !Enabled(st, ev) then st else
    match ev
    case BeginOp(t) => st.(ops := st.ops[t := OpSt({}, None)])
    case Check(t, b) =>
      if TooBig(size, st) then st.(panicked := true)
      else st.(ops := st.ops[t := st.ops[t].(checked := Some(b))])
    case Append(t) =>
      var o := st.ops[t];
      st.(lh := Absorb(st.lh, o.checked.value), ops := st.ops[t := OpSt(o.mine + {o.checked.value}, None)])
    case EndOp(t) =>
      var ops := st.ops - {t};
      st.(ops := ops, committing := ops == map[])
    case CommitDone => st.(lh := [], committing := false)
  }

  function Run(size: nat, st: LogSt, evs: seq<Event>): LogSt {
    if evs == [] then st else Step(size, Run(size, st, evs[..|evs| - 1]), evs[|evs| - 1])
  }

  // ---- reserved space ----

  /** Blocks the call may still add, counting one that has passed the test as not yet added. */
  function Unspent(o: OpSt): int {
    MAXOPBLOCKS - |o.mine|
  }

  ghost function Reserved(ops: map<Tid, OpSt>): int
    decreases ops.Keys
  {
    if ops == map[] then 0 else
    var t :| t in ops;
    Unspent(ops[t]) + Reserved(ops - {t})
  }

  lemma {:induction false} ReservedDrop(ops: map<Tid, OpSt>, t: Tid)
    requires t in ops
    ensures Reserved(ops) == Unspent(ops[t]) + Reserved(ops - {t})
    decreases |ops|
  {
    var u :| u in ops && Reserved(ops) == Unspent(ops[u]) + Reserved(ops - {u});
    if u != t {
      ReservedDrop(ops - {u}, t);
      ReservedDrop(ops - {t}, u);
      assert ops - {u} - {t} == ops - {t} - {u};
    }
  }

  lemma ReservedPut(ops: map<Tid, OpSt>, t: Tid, o: OpSt)
    ensures Reserved(ops[t := o]) == Unspent(o) + Reserved(ops - {t})
  {
    ReservedDrop(ops[t := o], t);
    assert ops[t := o] - {t} == ops - {t};
  }

  lemma {:induction false} ReservedAtMost(ops: map<Tid, OpSt>)
    requires forall t :: t in ops ==> |ops[t].mine| <= MAXOPBLOCKS
    ensures 0 <= Reserved(ops) <= |ops| * MAXOPBLOCKS
    decreases |ops|
  {
    if ops != map[] {
      var t :| t in ops;
      ReservedDrop(ops, t);
      ReservedAtMost(ops - {t});
    }
  }

  // ---- the invariant ----

  ghost predicate OpOk(st: LogSt, o: OpSt) {
    && |o.mine| <= MAXOPBLOCKS
    && (forall b :: b in o.mine ==> b in st.lh)
    && (o.checked.Some? ==> InBudget(o, o.checked.value))
  }

  /** Logged blocks plus everything the outstanding calls may still log fit the log; header
      entries are distinct; commit runs only with no call outstanding, and always then if anything
      is logged. */
  ghost predicate Inv(st: LogSt) {
    && |st.lh| + Reserved(st.ops) <= LOGSIZE
    && Distinct(st.lh)
    && (st.committing ==> st.ops == map[]) && (st.ops == map[] && st.lh != [] ==> st.committing)
    && (forall t :: t in st.ops ==> OpOk(st, st.ops[t]))
  }

  lemma BeginKeepsInv(st: LogSt, t: Tid)
    requires Inv(st) && Enabled(st, BeginOp(t))
    ensures Inv(st.(ops := st.ops[t := OpSt({}, None)]))
  {
    hide Reserved, Distinct;
    ReservedPut(st.ops, t, OpSt({}, None));
    assert st.ops - {t} == st.ops;
    ReservedAtMost(st.ops);
  }

  lemma StepKeepsInv(size: nat, st: LogSt, ev: Event)
    requires Inv(st)
    ensures Inv(Step(size, st, ev))
  {
    if !st.panicked && Enabled(st, ev) {
      match ev
      case BeginOp(t) =>
        BeginKeepsInv(st, t);
      case Check(t, b) =>
        ReservedDrop(st.ops, t);
        ReservedPut(st.ops, t, st.ops[t].(checked := Some(b)));
      case Append(t) =>
        AppendKeepsInv(size, st, t);
      case EndOp(t) =>
        ReservedDrop(st.ops, t);
        assert OpOk(st, st.ops[t]);
      case CommitDone =>
    }
  }

  lemma AppendKeepsInv(size: nat, st: LogSt, t: Tid)
    requires Inv(st) && !st.panicked && Enabled(st, Append(t))
    ensures Inv(Step(size, st, Append(t)))
  {
    var o := st.ops[t];
    var b := o.checked.value;
    var o' := OpSt(o.mine + {b}, None);
    var st' := Step(size, st, Append(t));
    assert OpOk(st, o);
    ReservedDrop(st.ops, t);
    ReservedPut(st.ops, t, o');
    assert b in o.mine ==> o.mine + {b} == o.mine;
    forall u | u in st'.ops ensures OpOk(st', st'.ops[u]) {
      assert u != t ==> OpOk(st, st.ops[u]);
    }
  }

  /** Admission: in every interleaving, of any length, the log never overflows. */
  lemma {:induction false} AdmissionHolds(size: nat, evs: seq<Event>)
    ensures Inv(Run(size, INIT, evs))
    ensures |Run(size, INIT, evs).lh| <= LOGSIZE
  {
    if evs != [] {
      AdmissionHolds(size, evs[..|evs| - 1]);
      StepKeepsInv(size, Run(size, INIT, evs[..|evs| - 1]), evs[|evs| - 1]);
    }
    ReservedAtMost(Run(size, INIT, evs).ops);
  }

  // ---- what the header holds ----

  predicate Takes(st: LogSt, ev: Event) {
    !st.panicked && Enabled(st, ev)
  }

  /** The block that t has passed to log_write and that is not yet in the header. */
  function Pending(size: nat, evs: seq<Event>, t: Tid): Option<nat> {
    if evs == [] then None else
    var n := |evs| - 1;
    var st, ev := Run(size, INIT, evs[..n]), evs[n];
    if !Takes(st, ev) || ev.CommitDone? || ev.t != t then Pending(size, evs[..n], t)
    else if ev.Check? then (if TooBig(size, st) then Pending(size, evs[..n], t) else Some(ev.b))
    else None
  }

  /** The blocks that log_write has recorded since the last commit. */
  function Since(size: nat, evs: seq<Event>): set<nat> {
    if evs == [] then {} else
    var n := |evs| - 1;
    var st, ev := Run(size, INIT, evs[..n]), evs[n];
    if Takes(st, ev) && ev.CommitDone? then {}
    else if Takes(st, ev) && ev.Append? && Pending(size, evs[..n], ev.t).Some?
    then Since(size, evs[..n]) + {Pending(size, evs[..n], ev.t).value}
    else Since(size, evs[..n])
  }

  lemma {:induction false} PendingIs(size: nat, evs: seq<Event>, t: Tid)
    ensures var st := Run(size, INIT, evs); t in st.ops ==> st.ops[t].checked == Pending(size, evs, t)
  {
    if evs != [] {
      PendingIs(size, evs[..|evs| - 1], t);
    }
  }

  /** Over every run the header names exactly the blocks logged since the last commit, so that is
      what a commit writes. */
  lemma {:induction false} HeaderIs(size: nat, evs: seq<Event>)
    ensures forall b :: b in Run(size, INIT, evs).lh <==> b in Since(size, evs)
  {
    if evs != [] {
      var n := |evs| - 1;
      HeaderIs(size, evs[..n]);
      if evs[n].Append? {
        PendingIs(size, evs[..n], evs[n].t);
      }
    }
  }

  // ---- progress ----

  /** With no call outstanding, begin_op goes through with an empty header, at once or after the
      commit that is then running. */
  lemma IdleAdmits(size: nat, evs: seq<Event>, t: Tid)
    requires var st := Run(size, INIT, evs); !st.panicked && st.ops == map[]
    ensures var st := Run(size, INIT, evs);
            var s := if st.committing then Step(size, st, CommitDone) else st;
            s.lh == [] && Enabled(s, BeginOp(t))
  {
    AdmissionHolds(size, evs);
  }

  predicate Closing(ev: Event) {
    ev.Append? || ev.EndOp? || ev.CommitDone?
  }

  lemma {:induction false} RunAppend(size: nat, st: LogSt, a: seq<Event>, b: seq<Event>)
    ensures Run(size, st, a + b) == Run(size, Run(size, st, a), b)
  {
    if b == [] {
      assert a + b == a;
    } else {
      RunAppend(size, st, a, b[..|b| - 1]);
      assert (a + b)[..|a + b| - 1] == a + b[..|b| - 1];
    }
  }

  /** The log never gets stuck: from any state that has not panicked, the outstanding calls can
      all end, and the commit that the last of them starts leaves the log empty and idle. */
  lemma {:induction false} NeverStuck(size: nat, st: LogSt) returns (evs: seq<Event>)
    requires Inv(st) && !st.panicked
    ensures Run(size, st, evs) == INIT && forall k :: 0 <= k < |evs| ==> Closing(evs[k])
    decreases |st.ops|
  {
    hide Inv, Step;
    if st.ops == map[] {
      evs := LastCommit(size, st);
    } else {
      var t :| t in st.ops;
      var first := EndsOne(size, st, t);
      var rest := NeverStuck(size, Run(size, st, first));
      RunAppend(size, st, first, rest);
      evs := first + rest;
    }
  }

  lemma LastCommit(size: nat, st: LogSt) returns (evs: seq<Event>)
    requires Inv(st) && !st.panicked && st.ops == map[]
    ensures Run(size, st, evs) == INIT && forall k :: 0 <= k < |evs| ==> Closing(evs[k])
  {
    evs := if st.committing then [CommitDone] else [];
    assert [CommitDone][..0] == [];
  }

  lemma EndsOne(size: nat, st: LogSt, t: Tid) returns (evs: seq<Event>)
    requires Inv(st) && !st.panicked && t in st.ops
    ensures var s := Run(size, st, evs); Inv(s) && !s.panicked && s.ops == st.ops - {t} && |s.ops| < |st.ops|
    ensures forall k :: 0 <= k < |evs| ==> Closing(evs[k])
  {
    hide Inv, Run;
    var first, s1 := RecordsOne(size, st, t);
    StepKeepsInv(size, s1, EndOp(t));
    RunOne(size, st, first, EndOp(t));
    evs := first + [EndOp(t)];
    assert s1.ops - {t} == st.ops - {t};
    assert (st.ops - {t}).Keys == st.ops.Keys - {t};
    assert |st.ops.Keys| == |st.ops| && |(st.ops - {t}).Keys| == |st.ops - {t}|;
  }

  lemma RecordsOne(size: nat, st: LogSt, t: Tid) returns (evs: seq<Event>, s: LogSt)
    requires Inv(st) && !st.panicked && t in st.ops
    ensures s == Run(size, st, evs) && Inv(s) && !s.panicked && t in s.ops && s.ops[t].checked == None
    ensures s.ops - {t} == st.ops - {t} && !s.committing
    ensures forall k :: 0 <= k < |evs| ==> Closing(evs[k])
  {
    assert !st.committing;
    if st.ops[t].checked == None {
      evs, s := [], st;
    } else {
      hide Inv;
      evs, s := [Append(t)], Step(size, st, Append(t));
      assert evs[..0] == [];
      StepKeepsInv(size, st, Append(t));
    }
  }

  // ---- when log_write panics ----

  /** The call that asks has logged fewer than MAXOPBLOCKS distinct blocks so far.  It may log a
      block again. */
  predicate Spare(st: LogSt, ev: Event) {
    ev.Check? && ev.t in st.ops ==> |st.ops[ev.t].mine| < MAXOPBLOCKS
  }

  /** Every event of the run finds its call with budget to spare. */
  predicate AllSpare(size: nat, st: LogSt, evs: seq<Event>)
    decreases |evs|
  {
    evs == [] || (Spare(st, evs[0]) && AllSpare(size, Step(size, st, evs[0]), evs[1..]))
  }

  /** With more than LOGSIZE blocks, log_write panics exactly when the header is full.  Then every
      budget is spent, and the call was logging one of its own blocks again. */
  lemma CheckPanicsIff(size: nat, st: LogSt, t: Tid, b: nat)
    requires Inv(st) && !st.panicked && size > LOGSIZE && Enabled(st, Check(t, b))
    ensures Step(size, st, Check(t, b)).panicked <==> |st.lh| == LOGSIZE
    ensures |st.lh| == LOGSIZE ==> Reserved(st.ops) == 0 && |st.ops[t].mine| == MAXOPBLOCKS && b in st.ops[t].mine
  {
    assert OpOk(st, st.ops[t]);
    assert forall u :: u in st.ops ==> OpOk(st, st.ops[u]);
    ReservedAtMost(st.ops);
    ReservedDrop(st.ops, t);
    ReservedAtMost(st.ops - {t});
  }

  lemma {:induction false} SpareRunsFit(size: nat, st: LogSt, evs: seq<Event>)
    requires Inv(st) && !st.panicked && size > LOGSIZE && AllSpare(size, st, evs)
    ensures !Run(size, st, evs).panicked
    decreases |evs|
  {
    if evs != [] {
      if Enabled(st, evs[0]) && evs[0].Check? {
        CheckPanicsIff(size, st, evs[0].t, evs[0].b);
      }
      StepKeepsInv(size, st, evs[0]);
      SpareRunsFit(size, Step(size, st, evs[0]), evs[1..]);
      RunFront(size, st, evs);
    }
  }

  lemma {:induction false} RunFront(size: nat, st: LogSt, evs: seq<Event>)
    requires evs != []
    ensures Run(size, st, evs) == Run(size, Step(size, st, evs[0]), evs[1..])
    decreases |evs|
  {
    var n := |evs| - 1;
    if n == 0 {
      assert evs[..0] == [] && evs[1..] == [];
    } else {
      RunFront(size, st, evs[..n]);
      assert evs[..n][1..] == evs[1..][..n - 1];
    }
  }

  // Filling the log: three calls that log blocks 0, 1, 2, ... in turn.

  function Blocks(lo: nat, hi: nat): (s: set<nat>)
    ensures |s| == if lo <= hi then hi - lo else 0
    ensures forall b :: b in s <==> lo <= b < hi
  {
    if hi <= lo then {} else Blocks(lo, hi - 1) + {hi - 1}
  }

  function Upto(k: nat): (s: seq<nat>)
    ensures |s| == k && forall i :: 0 <= i < k ==> s[i] == i
  {
    seq(k, i => i)
  }

  function Clip(lo: nat, k: nat): nat {
    if k < lo then lo else if k < lo + 10 then k else lo + 10
  }

  function FilledOp(u: nat, k: nat): OpSt {
    OpSt(Blocks(10 * u, Clip(10 * u, k)), None)
  }

  /** The state after the three calls have logged the first k blocks. */
  function Filled(k: nat): LogSt {
    LogSt(Upto(k), map u: Tid | u < 3 :: FilledOp(u, k), false, false)
  }

  function FillEvents(k: nat): seq<Event> {
    if k == 0 then [BeginOp(0), BeginOp(1), BeginOp(2)]
    else FillEvents(k - 1) + [Check((k - 1) / 10, k - 1), Append((k - 1) / 10)]
  }

  lemma FilledOpIs(u: nat, k: nat)
    ensures 10 * u <= k < 10 * u + 10 ==>
              && FilledOp(u, k) == OpSt(Blocks(10 * u, k), None)
              && FilledOp(u, k + 1) == OpSt(Blocks(10 * u, k) + {k}, None)
    ensures !(10 * u <= k < 10 * u + 10) ==> FilledOp(u, k + 1) == FilledOp(u, k)
  {
    hide Blocks;
    assert 10 * u <= k ==> Blocks(10 * u, k + 1) == Blocks(10 * u, k) + {k};
  }

  /** With room for it, one more block goes in. */
  lemma FillStep(size: nat, k: nat)
    requires k < LOGSIZE && k < size - 1
    ensures Step(size, Step(size, Filled(k), Check(k / 10, k)), Append(k / 10)) == Filled(k + 1)
    ensures Spare(Filled(k), Check(k / 10, k))
  {
    hide Blocks, Clip, FilledOp;
    var t: Tid, st := k / 10, Filled(k);
    FilledOpIs(t, k);
    var o := st.ops[t];
    var st1 := st.(ops := st.ops[t := o.(checked := Some(k))]);
    assert Step(size, st, Check(t, k)) == st1;
    FillAppend(size, k, t, st1);
  }

  lemma FillAppend(size: nat, k: nat, t: Tid, st1: LogSt)
    requires k < LOGSIZE && t == k / 10
    requires st1 == Filled(k).(ops := Filled(k).ops[t := FilledOp(t, k).(checked := Some(k))])
    ensures Step(size, st1, Append(t)) == Filled(k + 1)
  {
    hide Blocks, Clip, FilledOp;
    FilledOpIs(t, k);
    assert Upto(k) + [k] == Upto(k + 1);
    FillOps(k, t);
  }

  lemma FillOps(k: nat, t: Tid)
    requires k < LOGSIZE && t == k / 10
    ensures Filled(k).ops[t := OpSt(FilledOp(t, k).mine + {k}, None)] == Filled(k + 1).ops
  {
    hide Blocks, Clip, FilledOp, Upto;
    var ops := Filled(k).ops[t := OpSt(FilledOp(t, k).mine + {k}, None)];
    forall u: Tid | u < 3 ensures ops[u] == FilledOp(u, k + 1) {
      FilledOpIs(u, k);
    }
  }

  function Begun(m: map<Tid, OpSt>): LogSt {
    LogSt([], m, false, false)
  }

  lemma ThreeBegin(size: nat)
    ensures var o := OpSt({}, None);
            && Step(size, INIT, BeginOp(0)) == Begun(map[0 := o])
            && Step(size, Begun(map[0 := o]), BeginOp(1)) == Begun(map[0 := o, 1 := o])
            && Step(size, Begun(map[0 := o, 1 := o]), BeginOp(2)) == Filled(0)
  {
    hide Blocks;
    var o := OpSt({}, None);
    var m1, m2 := map[0 := o], map[0 := o, 1 := o];
    assert m1.Keys == {0} && m2.Keys == {0, 1};
    assert |m1| == |m1.Keys| == 1 && |m2| == |m2.Keys| == 2;
    assert m1[1 := o] == m2;
    forall u: Tid | u < 3 ensures FilledOp(u, 0) == o { assert Blocks(10 * u, Clip(10 * u, 0)) == {}; }
    assert m2[2 := o] == Filled(0).ops;
  }

  lemma FillBegin(size: nat)
    ensures Run(size, INIT, FillEvents(0)) == Filled(0) && AllSpare(size, INIT, FillEvents(0))
  {
    hide Step, Filled;
    ThreeBegin(size);
    RunOne(size, INIT, [], BeginOp(0));
    RunOne(size, INIT, [BeginOp(0)], BeginOp(1));
    RunOne(size, INIT, [BeginOp(0), BeginOp(1)], BeginOp(2));
    assert [] + [BeginOp(0)] == [BeginOp(0)];
    assert [BeginOp(0)] + [BeginOp(1)] == [BeginOp(0), BeginOp(1)];
    assert [BeginOp(0), BeginOp(1)] + [BeginOp(2)] == FillEvents(0);
  }

  lemma {:induction false} FillRun(size: nat, k: nat)
    requires k <= LOGSIZE && k <= size - 1
    ensures Run(size, INIT, FillEvents(k)) == Filled(k) && AllSpare(size, INIT, FillEvents(k))
  {
    if k == 0 {
      FillBegin(size);
    } else {
      FillRun(size, k - 1);
      FillStep(size, k - 1);
      var t: Tid := (k - 1) / 10;
      RunTwo(size, INIT, FillEvents(k - 1), Check(t, k - 1), Append(t));
    }
  }

  lemma RunTwo(size: nat, st: LogSt, evs: seq<Event>, a: Event, b: Event)
    ensures Run(size, st, evs + [a, b]) == Step(size, Step(size, Run(size, st, evs), a), b)
    ensures AllSpare(size, st, evs) && Spare(Run(size, st, evs), a) && !b.Check? ==> AllSpare(size, st, evs + [a, b])
  {
    hide Run, AllSpare, Step;
    RunOne(size, st, evs, a);
    RunOne(size, st, evs + [a], b);
    assert evs + [a] + [b] == evs + [a, b];
  }

  lemma {:induction false} RunOne(size: nat, st: LogSt, evs: seq<Event>, a: Event)
    ensures Run(size, st, evs + [a]) == Step(size, Run(size, st, evs), a)
    ensures AllSpare(size, st, evs) && Spare(Run(size, st, evs), a) ==> AllSpare(size, st, evs + [a])
    decreases |evs|
  {
    assert (evs + [a])[..|evs|] == evs;
    if evs == [] {
      assert (evs + [a])[1..] == [];
    } else {
      RunOne(size, Step(size, st, evs[0]), evs[1..], a);
      RunFront(size, st, evs);
      assert (evs + [a])[1..] == evs[1..] + [a];
    }
  }

  /** For every log.size up to LOGSIZE some calls with budget to spare panic. */
  lemma SmallLogPanics(size: nat) returns (evs: seq<Event>)
    requires size <= LOGSIZE
    ensures AllSpare(size, INIT, evs) && Run(size, INIT, evs).panicked
  {
    hide Blocks, Clip, FilledOp;
    var k := if size == 0 then 0 else size - 1;
    if size > 0 { FillRun(size, k); } else { FillBegin(size); }
    var t: Tid := k / 10;
    FilledOpIs(t, k);
    RunOne(size, INIT, FillEvents(k), Check(t, k));
    evs := FillEvents(k) + [Check(t, k)];
  }

  /** mkfs makes log.size equal to LOGSIZE, and then calls with budget to spare at each log_write
      can still panic.  They are safe exactly when log.size exceeds LOGSIZE. */
  lemma NoPanicIff(size: nat)
    ensures (forall evs :: AllSpare(size, INIT, evs) ==> !Run(size, INIT, evs).panicked) <==> size > LOGSIZE
  {
    if size > LOGSIZE {
      forall evs | AllSpare(size, INIT, evs) ensures !Run(size, INIT, evs).panicked {
        SpareRunsFit(size, INIT, evs);
      }
    } else {
      var evs := SmallLogPanics(size);
    }
  }

  /** The test also comes before absorption: a call that has spent its budget and logs one of its
      own blocks again can panic although nothing would be added, whatever log.size is. */
  lemma RelogPanics(size: nat) returns (evs: seq<Event>, t: Tid, b: nat)
    requires size > LOGSIZE
    ensures var st := Run(size, INIT, evs);
            && !st.panicked && Enabled(st, Check(t, b)) && b in st.ops[t].mine
            && Absorb(st.lh, b) == st.lh && Step(size, st, Check(t, b)).panicked
  {
    hide Blocks;
    FillRun(size, LOGSIZE);
    evs, t, b := FillEvents(LOGSIZE), 0, 0;
    assert Filled(LOGSIZE).lh[0] == 0;
    assert FilledOp(0, LOGSIZE) == OpSt(Blocks(0, 10), None);
  }

  // ---- calls that follow scripts ----

  /** Before each of its log_writes the call has logged fewer than MAXOPBLOCKS distinct blocks. */
  ghost predicate Thrifty(script: seq<nat>) {
    forall j :: 0 <= j < |script| ==> |Elements(script[..j])| < MAXOPBLOCKS
  }

  /** How many blocks of its script each call has appended. */
  function NextDone(st: LogSt, ev: Event, done: map<Tid, nat>): map<Tid, nat> {
    if st.panicked || !Enabled(st, ev) then done
    else if ev.BeginOp? then done[ev.t := 0]
    else if ev.Append? && ev.t in done then done[ev.t := done[ev.t] + 1]
    else done
  }

  predicate OnScript(st: LogSt, ev: Event, scripts: map<Tid, seq<nat>>, done: map<Tid, nat>) {
    && (ev.BeginOp? ==> ev.t in scripts)
    && (ev.Check? && ev.t in st.ops ==>
          ev.t in scripts && ev.t in done && done[ev.t] < |scripts[ev.t]| && ev.b == scripts[ev.t][done[ev.t]])
  }

  /** An interleaving in which every call logs the blocks of its script in order. */
  predicate Scripted(size: nat, st: LogSt, evs: seq<Event>, scripts: map<Tid, seq<nat>>, done: map<Tid, nat>)
    decreases |evs|
  {
    evs == [] ||
    (&& OnScript(st, evs[0], scripts, done)
     && Scripted(size, Step(size, st, evs[0]), evs[1..], scripts, NextDone(st, evs[0], done)))
  }

  ghost predicate Follows(st: LogSt, scripts: map<Tid, seq<nat>>, done: map<Tid, nat>) {
    forall t :: t in st.ops ==>
      && t in scripts && t in done && done[t] <= |scripts[t]| && st.ops[t].mine == Elements(scripts[t][..done[t]])
      && (st.ops[t].checked.Some? ==> done[t] < |scripts[t]| && st.ops[t].checked.value == scripts[t][done[t]])
  }

  lemma ElementsSnoc(s: seq<nat>, j: nat)
    requires j < |s|
    ensures Elements(s[..j + 1]) == Elements(s[..j]) + {s[j]}
  {
    hide Elements;
    assert s[..j + 1] == s[..j] + [s[j]];
  }

  lemma FollowsStep(size: nat, st: LogSt, ev: Event, scripts: map<Tid, seq<nat>>, done: map<Tid, nat>)
    requires Follows(st, scripts, done) && OnScript(st, ev, scripts, done)
    ensures Follows(Step(size, st, ev), scripts, NextDone(st, ev, done))
  {
    hide Elements;
    if !st.panicked && Enabled(st, ev) {
      if ev.Append? {
        ElementsSnoc(scripts[ev.t], done[ev.t]);
      } else if ev.BeginOp? {
        assert scripts[ev.t][..0] == [];
        assert Elements([]) == {};
      }
    }
  }

  /** Any interleaving of thrifty calls fits a log of more than LOGSIZE blocks. */
  lemma {:induction false} ThriftyCallsFit(size: nat, st: LogSt, evs: seq<Event>, scripts: map<Tid, seq<nat>>,
                                           done: map<Tid, nat>)
    requires Inv(st) && !st.panicked && size > LOGSIZE
    requires Follows(st, scripts, done) && Scripted(size, st, evs, scripts, done)
    requires forall t :: t in scripts ==> Thrifty(scripts[t])
    ensures AllSpare(size, st, evs) && !Run(size, st, evs).panicked
    decreases |evs|
  {
    hide Elements;
    if evs != [] {
      FollowsStep(size, st, evs[0], scripts, done);
      StepKeepsInv(size, st, evs[0]);
      if evs[0].Check? && evs[0].t in st.ops {
        assert Thrifty(scripts[evs[0].t]);
      }
      if Enabled(st, evs[0]) && evs[0].Check? {
        CheckPanicsIff(size, st, evs[0].t, evs[0].b);
      }
      ThriftyCallsFit(size, Step(size, st, evs[0]), evs[1..], scripts, NextDone(st, evs[0], done));
      RunFront(size, st, evs);
    }
  }
}
