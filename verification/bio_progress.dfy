/** The cache never gets stuck (bio.c): from every state the calls in progress can finish one after
    the other. */
module BufferProgress {
  import opened BufferCache
  import opened BufferTheorems

  /** A step of call h itself. */
  predicate Own(a: Action, h: nat) {
    a.h == h && !a.Bget?
  }

  /** Steps that a call still has before it. */
  function Left(p: Phase): nat {
    match p
    case Waiting => 4
    case Locked(false, _) => 3
    case Locked(true, true) => 2
    case Locked(true, false) => 1
    case Dropping => 0
  }

  /** What the call does next: take the lock, read, pass its changes on, unlock, drop. */
  function NextOwn(p: Phase, h: nat): Action {
    match p
    case Waiting => Acquire(h)
    case Locked(false, _) => Fill(h)
    case Locked(true, true) => LogWrite(h)
    case Locked(true, false) => Unlock(h)
    case Dropping => Drop(h)
  }

  lemma OwnStepDone(s: St, h: nat)
    requires CacheInv(s) && h in s.refs && (s.refs[h].phase.Waiting? ==> LockFree(s.refs, s.refs[h].b))
    ensures var a, p := NextOwn(s.refs[h].phase, h), s.refs[h].phase;
            && Shape(s) && Enabled(s, a) && CacheInv(Next(s, a))
            && if p.Dropping? then Next(s, a).refs == Minus(s.refs, h)
               else && h in Next(s, a).refs && !Next(s, a).refs[h].phase.Waiting?
                    && Left(Next(s, a).refs[h].phase) < Left(p) && Minus(Next(s, a).refs, h) == Minus(s.refs, h)
  {
    hide BufOk, RefOk, Pinned, Find, Victim, Minus;
    InvShape(s);
    var a := NextOwn(s.refs[h].phase, h);
    StepKeeps(s, a);
    if !s.refs[h].phase.Dropping? {
      MinusPut(s.refs, Next(s, a).refs, h);
    }
  }

  lemma MinusPut(refs: map<nat, Ref>, refs': map<nat, Ref>, h: nat)
    requires h in refs && h in refs' && refs' == refs[h := refs'[h]]
    ensures Minus(refs', h) == Minus(refs, h)
  {
  }

  lemma {:induction false} RunAppend(s: St, a: seq<Action>, b: seq<Action>)
    requires RunOk(s, a) && RunOk(Run(s, a), b)
    ensures RunOk(s, a + b) && Run(s, a + b) == Run(Run(s, a), b)
    decreases |a|
  {
    hide Next, Enabled, Shape;
    if a == [] {
      assert a + b == b;
    } else {
      RunAppend(Next(s, a[0]), a[1..], b);
      assert (a + b)[1..] == a[1..] + b;
    }
  }

  lemma RunOne(s: St, a: Action)
    requires Shape(s) && Enabled(s, a) && Shape(Next(s, a))
    ensures RunOk(s, [a]) && Run(s, [a]) == Next(s, a)
  {
    hide Next, Enabled, Shape;
    assert [a][1..] == [];
    assert RunOk(Next(s, a), []);
  }

  /** A call that need not wait for a lock can finish by steps of its own, and then exactly it is
      gone. */
  lemma {:induction false} CallFinishes(s: St, h: nat) returns (acts: seq<Action>)
    requires CacheInv(s) && h in s.refs && (s.refs[h].phase.Waiting? ==> LockFree(s.refs, s.refs[h].b))
    ensures RunOk(s, acts) && CacheInv(Run(s, acts)) && Run(s, acts).refs == Minus(s.refs, h)
    ensures forall k :: 0 <= k < |acts| ==> Own(acts[k], h)
    decreases Left(s.refs[h].phase)
  {
    hide CacheInv, Next, Enabled, Shape, LockFree, Left, Minus;
    var a := NextOwn(s.refs[h].phase, h);
    OwnStepDone(s, h);
    InvShape(Next(s, a));
    RunOne(s, a);
    acts := [a];
    if !s.refs[h].phase.Dropping? {
      var rest := CallFinishes(Next(s, a), h);
      RunAppend(s, [a], rest);
      acts := [a] + rest;
    }
  }

  /** From every state the calls in progress can all finish, without a new one. */
  lemma {:induction false} CallsFinish(s: St) returns (acts: seq<Action>)
    requires CacheInv(s)
    ensures RunOk(s, acts) && CacheInv(Run(s, acts)) && Run(s, acts).refs == map[]
    ensures forall k :: 0 <= k < |acts| ==> !acts[k].Bget?
    decreases |s.refs|
  {
    hide CacheInv, Next, Enabled, Shape;
    if s.refs == map[] {
      InvShape(s);
      acts := [];
    } else {
      var h := Unblocked(s);
      var first := CallFinishes(s, h);
      FewerRefs(s.refs, h);
      var rest := CallsFinish(Run(s, first));
      RunAppend(s, first, rest);
      acts := first + rest;
    }
  }

  /** Some call need not wait: one that holds a lock, or any if none does. */
  lemma Unblocked(s: St) returns (h: nat)
    requires s.refs != map[]
    ensures h in s.refs && (s.refs[h].phase.Waiting? ==> LockFree(s.refs, s.refs[h].b))
  {
    if g :| g in s.refs && s.refs[g].phase.Locked? {
      h := g;
    } else {
      h :| h in s.refs;
    }
  }

  lemma FewerRefs(refs: map<nat, Ref>, h: nat)
    requires h in refs
    ensures |Minus(refs, h)| < |refs|
  {
    assert Minus(refs, h).Keys == refs.Keys - {h};
    assert |Minus(refs, h).Keys| == |Minus(refs, h)| && |refs.Keys| == |refs|;
  }
}
