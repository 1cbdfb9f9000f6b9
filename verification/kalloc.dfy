/** The reference-counting frame allocator (kalloc.c). */
module Frames {
  import opened Prelude
  import opened Mmu

  /** What kmem, refcnt and the frames themselves hold.  Frames below `first` lie
      under the kernel's `end` symbol and are never handed out. */
  datatype Mem = Mem(first: nat, refcnt: seq<int>, free: seq<nat>, data: seq<Page>)

  ghost predicate Managed(m: Mem, f: nat) {
    m.first <= f < |m.refcnt|
  }

  /** The duplicate-free free list is exactly the managed frames nobody owns. */
  ghost predicate KmemInv(m: Mem) {
    && |m.data| == |m.refcnt|
    && Distinct(m.free)
    && (forall f: nat {:trigger f in m.free} :: f in m.free <==> Managed(m, f) && m.refcnt[f] == 0)
    && (forall f: nat :: Managed(m, f) ==> m.refcnt[f] >= 0)
  }

  /** Only the frames of `own` are in use, once each. */
  ghost predicate BootMem(m: Mem, own: set<nat>) {
    && KmemInv(m) && (forall f :: f in own ==> Managed(m, f))
    && forall f: nat :: Managed(m, f) ==> m.refcnt[f] == if f in own then 1 else 0
  }

  /** The allocator never gains or loses frames. */
  predicate SameFrames(m: Mem, m': Mem) {
    m'.first == m.first && |m'.refcnt| == |m.refcnt|
  }

  // The functions below are total: where the C code panics (a frame out of range or
  // without an owner) they leave the state alone, and the methods of class Kmem
  // require that this does not happen.

  /** Drop one reference; the last one returns the junk-filled frame to the free list. */
  function Kfree(m: Mem, f: nat): (r: Mem)
    ensures SameFrames(m, r)
  {
    if f >= |m.refcnt| || |m.data| != |m.refcnt| then m else
    var n := m.refcnt[f] - 1;
    if n > 0 then m.(refcnt := m.refcnt[f := n])
    else Mem(m.first, m.refcnt[f := n], [f] + m.free, m.data[f := Filled(1)])
  }

  function Kalloc(m: Mem): (r: (Mem, Option<nat>))
    ensures SameFrames(m, r.0)
  {
    if m.free == [] || m.free[0] >= |m.refcnt| then (m, None)
    else (m.(free := m.free[1..], refcnt := m.refcnt[m.free[0] := 1]), Some(m.free[0]))
  }

  function KrefInc(m: Mem, f: nat): (r: Mem)
    ensures SameFrames(m, r)
  {
    if f >= |m.refcnt| then m else m.(refcnt := m.refcnt[f := m.refcnt[f] + 1])
  }

  /** memset or memmove over one whole frame. */
  function Fill(m: Mem, f: nat, p: Page): (r: Mem)
    ensures SameFrames(m, r)
  {
    if f >= |m.data| then m else m.(data := m.data[f := p])
  }

  lemma KfreeKeepsInv(m: Mem, f: nat)
    requires KmemInv(m) && Managed(m, f) && m.refcnt[f] > 0
    ensures KmemInv(Kfree(m, f))
    ensures forall g: nat :: Managed(m, g) ==>
              Kfree(m, f).refcnt[g] == m.refcnt[g] - if g == f then 1 else 0
    ensures forall g: nat :: g < |m.data| && (g != f || m.refcnt[f] > 1) ==>
              Kfree(m, f).data[g] == m.data[g]
  {
    var m' := Kfree(m, f);
    assert f !in m.free;
    if m.refcnt[f] == 1 {
      assert forall g: nat :: g in m'.free <==> g == f || g in m.free;
    } else {
      assert m'.free == m.free;
    }
  }

  lemma KallocKeepsInv(m: Mem)
    requires KmemInv(m)
    ensures KmemInv(Kalloc(m).0)
    ensures Kalloc(m).1.None? <==> m.free == []
    ensures Kalloc(m).1.None? ==> Kalloc(m).0 == m
    ensures Kalloc(m).1.Some? ==>
              && Managed(m, Kalloc(m).1.value) && m.refcnt[Kalloc(m).1.value] == 0
              && Kalloc(m).0.refcnt == m.refcnt[Kalloc(m).1.value := 1]
              && Kalloc(m).0.data == m.data && Kalloc(m).0.first == m.first
  {
    if m.free != [] {
      var f := m.free[0];
      assert f in m.free;
      var m' := Kalloc(m).0;
      assert m.free == [f] + m'.free;
      assert f !in m'.free;
      assert forall g: nat :: g in m.free <==> g == f || g in m'.free;
    }
  }

  /** Two allocator states with the same counts have the same free frames. */
  lemma SameCountsSameFree(m: Mem, m': Mem)
    requires KmemInv(m) && KmemInv(m') && m.first == m'.first && m.refcnt == m'.refcnt
    ensures multiset(m.free) == multiset(m'.free)
  {
    DistinctCount(m.free);
    DistinctCount(m'.free);
    forall f: nat ensures multiset(m.free)[f] == multiset(m'.free)[f] {
      assert f in m.free <==> f in m'.free;
    }
  }

  lemma {:induction false} DistinctCount(s: seq<nat>)
    requires Distinct(s)
    ensures forall x: nat :: multiset(s)[x] == if x in s then 1 else 0
  {
    if s != [] {
      DistinctCount(s[1..]);
      assert s == [s[0]] + s[1..];
    }
  }

  class Kmem {
    const first: nat
    const refcnt: array<int>
    var freelist: seq<nat>
    var data: seq<Page>

    ghost function Value(): Mem
      reads this, refcnt
    {
      Mem(first, refcnt[..], freelist, data)
    }

    /** The static refcnt array starts at zero and no frame is on the list. */
    constructor (first: nat, frames: nat)
      ensures fresh(refcnt)
      ensures Value() == Mem(first, seq(frames, _ => 0), [], seq(frames, _ => Filled(0)))
    {
      this.first := first;
      refcnt := new int[frames](_ => 0);
      freelist := [];
      data := seq(frames, _ => Filled(0));
      new;
      assert refcnt[..] == seq(frames, _ => 0);
    }

    /** Frames below hi are handed over: the list holds those of them that nobody owns. */
    ghost predicate HandedOver(hi: nat)
      reads this, refcnt
    {
      && |data| == refcnt.Length && first <= hi <= refcnt.Length && Distinct(freelist)
      && (forall f: nat {:trigger f in freelist} :: f in freelist <==> first <= f < hi && refcnt[f] == 0)
      && (forall f: nat :: f < refcnt.Length ==> 0 <= refcnt[f] && (f >= hi ==> refcnt[f] == 0))
    }

    /** kinit1 and kinit2 hand over [lo, hi), with frames below lo perhaps in use by then. */
    method FreeRange(lo: nat, hi: nat)
      requires HandedOver(lo) && lo <= hi <= refcnt.Length
      modifies this, refcnt
      ensures HandedOver(hi) && refcnt[..] == old(refcnt[..]) && data[..lo] == old(data[..lo])
      ensures hi == refcnt.Length ==> KmemInv(Value())
    {
      var p := lo;
      while p < hi
        invariant lo <= p <= hi && HandedOver(p) && refcnt[..] == old(refcnt[..]) && data[..lo] == old(data[..lo])
      {
        refcnt[p] := 1;
        ghost var before := freelist;
        KfreeFrame(p);
        assert p !in before && freelist == [p] + before;
        p := p + 1;
      }
    }

    /** main up to userinit: kinit1 hands over the frames below mid, kvmalloc and startothers take
        some of them, and kinit2 hands over the rest. */
    method KernelInit(mid: nat, taken: nat) returns (ok: bool, own: set<nat>)
      requires HandedOver(first) && mid <= refcnt.Length && first <= mid
      modifies this, refcnt
      ensures ok ==> BootMem(Value(), own) && |own| == taken
      ensures !ok ==> |own| < taken && forall f: nat :: first <= f < mid ==> f in own
    {
      FreeRange(first, mid);
      own := {};
      while |own| < taken
        invariant |own| <= taken && HandedOver(mid) && forall f :: f in own ==> first <= f < mid
        invariant forall f: nat :: first <= f < refcnt.Length ==> refcnt[f] == if f in own then 1 else 0
        decreases taken - |own|
      {
        if freelist == [] {
          forall f: nat | first <= f < mid ensures f in own {
            assert f !in freelist;
          }
          return false, own;
        }
        ghost var before := freelist;
        assert before[0] in before && before == [before[0]] + before[1..];
        var r := KallocFrame();
        assert r.value == before[0] && freelist == before[1..] && r.value !in freelist;
        forall f: nat ensures f in freelist <==> first <= f < mid && refcnt[f] == 0 {
          assert f in before <==> f == before[0] || f in freelist;
        }
        own := own + {r.value};
      }
      FreeRange(mid, refcnt.Length);
      ok := true;
    }

    method KfreeFrame(f: nat)
      requires first <= f < refcnt.Length == |data| && refcnt[f] > 0
      modifies this, refcnt
      ensures Value() == Kfree(old(Value()), f)
    {
      refcnt[f] := refcnt[f] - 1;
      if refcnt[f] > 0 {
        assert refcnt[..] == old(refcnt[..])[f := refcnt[f]];
        return;
      }
      data := data[f := Filled(1)];
      freelist := [f] + freelist;
      assert refcnt[..] == old(refcnt[..])[f := refcnt[f]];
    }

    method KallocFrame() returns (r: Option<nat>)
      requires freelist != [] ==> freelist[0] < refcnt.Length
      modifies this, refcnt
      ensures (Value(), r) == Kalloc(old(Value()))
    {
      if freelist == [] {
        return None;
      }
      r := Some(freelist[0]);
      freelist := freelist[1..];
      refcnt[r.value] := 1;
      assert refcnt[..] == old(refcnt[..])[r.value := 1];
    }

    method KrefIncFrame(f: nat)
      requires f < refcnt.Length && refcnt[f] > 0
      modifies refcnt
      ensures Value() == KrefInc(old(Value()), f)
    {
      refcnt[f] := refcnt[f] + 1;
      assert refcnt[..] == old(refcnt[..])[f := refcnt[f]];
    }

    method FillFrame(f: nat, p: Page)
      requires f < |data|
      modifies this
      ensures Value() == Fill(old(Value()), f, p)
    {
      data := data[f := p];
    }
  }
}
