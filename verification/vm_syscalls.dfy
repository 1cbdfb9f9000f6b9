/** The page-fault handler and the memory system calls, in place (trap.c, sysproc.c, proc.c). */
module VmSyscalls {
  import opened Prelude
  import opened Mmu
  import opened VmState
  import opened VmPrims
  import opened VmRanges
  import opened VmSystem
  import opened VmRefine
  import opened VmSound
  import opened VmKernel

  method VmaFindIn(q: Proc, a: nat) returns (r: Option<nat>)
    ensures r == VmaFind(q, a)
  {
    var i := 0;
    while i < |q.vmas|
      invariant i <= |q.vmas| && VmaFind(q, a) == FindFrom(q.vmas, a, i)
    {
      if q.vmas[i].used && q.vmas[i].start <= a && a - q.vmas[i].start < q.vmas[i].length {
        return Some(i);
      }
      i := i + 1;
    }
    return None;
  }

  method VmaFindExactIn(q: Proc, a: nat, len: nat) returns (r: Option<nat>)
    ensures r == FindExactFrom(q.vmas, a, len, 0)
  {
    var i := 0;
    while i < |q.vmas|
      invariant i <= |q.vmas| && FindExactFrom(q.vmas, a, len, 0) == FindExactFrom(q.vmas, a, len, i)
    {
      if q.vmas[i].used && q.vmas[i].start == a && q.vmas[i].length == len {
        return Some(i);
      }
      i := i + 1;
    }
    return None;
  }

  /** copyout: one destination page after the other, stopping at the first that refuses. */
  function CopyoutAll(sys: Sys, p: Pid, va: nat, bs: seq<Byte>): (Sys, Outcome)
    decreases |bs|
  {
    if bs == [] then (sys, Ret(0)) else
    if va >= KERNBASE then (sys, Ret(-1)) else
    var n := Min(PGSIZE - va % PGSIZE, |bs|);
    var (s, o) := Step(sys, KernelWrite(p, va, bs[..n]));
    if o != Ret(0) then (s, o) else CopyoutAll(s, p, va / PGSIZE * PGSIZE + PGSIZE, bs[n..])
  }

  /** The byte process p has at address a. */
  function ByteAt(m: UMem, p: Pid, a: nat): Option<Byte> {
    if (p, a / PGSIZE) in m then Some(m[(p, a / PGSIZE)].data[a % PGSIZE]) else None
  }

  /** A copyout that reports success has delivered the whole buffer and touched no other byte
      that was there. */
  lemma {:induction false} CopyoutDelivers(sys: Sys, p: Pid, va: nat, bs: seq<Byte>)
    requires Sound(sys) && Runnable(sys.procs, p)
    ensures var (s, o) := CopyoutAll(sys, p, va, bs);
            && Sound(s) && s.procs == sys.procs && Framed(sys.st) && Framed(s.st)
            && (o == Ret(0) ==> forall i :: 0 <= i < |bs| ==> ByteAt(UserMem(s.st), p, va + i) == Some(bs[i]))
            && forall q: Pid, a: nat :: (q != p || a < va || a >= va + |bs|) && ByteAt(UserMem(sys.st), q, a).Some? ==>
                 ByteAt(UserMem(s.st), q, a) == ByteAt(UserMem(sys.st), q, a)
    decreases |bs|
  {
    hide Sound, Step, UserMem, ByteAt;
    SoundFramed(sys);
    if bs != [] && va < KERNBASE {
      var n := Min(PGSIZE - va % PGSIZE, |bs|);
      ChunkDelivers(sys, p, va, bs[..n]);
      var (s, o) := Step(sys, KernelWrite(p, va, bs[..n]));
      if o == Ret(0) && n < |bs| {
        CopyoutDelivers(s, p, va / PGSIZE * PGSIZE + PGSIZE, bs[n..]);
        var s' := CopyoutAll(sys, p, va, bs).0;
        forall i | 0 <= i < |bs| && CopyoutAll(sys, p, va, bs).1 == Ret(0)
          ensures ByteAt(UserMem(s'.st), p, va + i) == Some(bs[i])
        {
          if i < n {
            assert ByteAt(UserMem(s.st), p, va + i) == Some(bs[..n][i]);
          } else {
            assert ByteAt(UserMem(s'.st), p, va + n + (i - n)) == Some(bs[n..][i - n]);
          }
        }
      } else if o == Ret(0) {
        assert bs[..n] == bs && bs[n..] == [];
      }
    }
  }

  lemma ChunkDelivers(sys: Sys, p: Pid, va: nat, bs: seq<Byte>)
    requires Sound(sys) && Enabled(sys.procs, KernelWrite(p, va, bs))
    ensures var (s, o) := Step(sys, KernelWrite(p, va, bs));
            && Sound(s) && s.procs == sys.procs && Framed(sys.st) && Framed(s.st)
            && (o == Ret(0) ==> forall i :: 0 <= i < |bs| ==> ByteAt(UserMem(s.st), p, va + i) == Some(bs[i]))
            && forall q: Pid, a: nat :: (q != p || a < va || a >= va + |bs|) && ByteAt(UserMem(sys.st), q, a).Some? ==>
                 ByteAt(UserMem(s.st), q, a) == ByteAt(UserMem(sys.st), q, a)
  {
    hide Core, UserMem, CopyoutPage, Store, OwnersOk, RecordOk, OnlyTables, OthersSame, ByteAt, Splice;
    StepSound(sys, KernelWrite(p, va, bs));
    CopyoutTouches(sys.st, sys.procs[p], p, va);
    var (s, r) := CopyoutPage(sys.st, sys.procs[p], p, va);
    SoundFramed(Step(sys, KernelWrite(p, va, bs)).0);
    if r == Done {
      StoreKeeps(s, (p, va / PGSIZE), va % PGSIZE, bs);
      MemEntry(s, (p, va / PGSIZE));
    }
    PokeDelivers(UserMem(sys.st), UserMem(Step(sys, KernelWrite(p, va, bs)).0.st), p, va, bs, r == Done,
                 UserMem(s), UPage(Filled(0), true));
  }

  lemma PokeDelivers(m: UMem, m': UMem, p: Pid, va: nat, bs: seq<Byte>, ok: bool, mid: UMem, g: UPage)
    requires va % PGSIZE + |bs| <= PGSIZE
    requires m' == if ok then Poke(mid, (p, va / PGSIZE), va % PGSIZE, bs) else m
    requires ok ==> (p, va / PGSIZE) in mid
    requires mid == m || ((p, va / PGSIZE) !in m && mid == m[(p, va / PGSIZE) := g])
    ensures ok ==> forall i :: 0 <= i < |bs| ==> ByteAt(m', p, va + i) == Some(bs[i])
    ensures forall q: Pid, a: nat :: (q != p || a < va || a >= va + |bs|) && ByteAt(m, q, a).Some? ==>
              ByteAt(m', q, a) == ByteAt(m, q, a)
  {
    forall i | 0 <= i < |bs| ensures ok ==> ByteAt(m', p, va + i) == Some(bs[i]) {
      assert (va + i) / PGSIZE == va / PGSIZE && (va + i) % PGSIZE == va % PGSIZE + i;
    }
  }

  class Machine {
    const k: Kernel
    var procs: map<Pid, Proc>

    ghost function Value(): Sys
      reads this, k, k.kmem, k.kmem.refcnt
    {
      Sys(k.Value(), procs)
    }

    constructor (k: Kernel)
      ensures this.k == k && Value() == Sys(k.Value(), map[])
    {
      this.k := k;
      procs := map[];
    }

    method SysMmap(p: Pid, n: int) returns (r: int)
      requires Enabled(procs, Mmap(p, n))
      modifies this
      ensures (Value(), Ret(r)) == Step(old(Value()), Mmap(p, n))
    {
      var q := procs[p];
      assert procs[p := q] == procs;
      if n <= 0 {
        return -1;
      }
      var length, start := RoundUp(n), RoundUp(q.sz);
      if length == 0 || length >= KERNBASE || start >= KERNBASE || length > KERNBASE - start {
        return -1;
      }
      var i := 0;
      while i < |q.vmas| && q.vmas[i].used
        invariant i <= |q.vmas| && FreeSlotFrom(q.vmas, 0) == FreeSlotFrom(q.vmas, i)
      {
        i := i + 1;
      }
      if i == |q.vmas| {
        return -1;
      }
      procs := procs[p := q.(vmas := q.vmas[i := Vma(start, length, true, true)], sz := start + length)];
      return start;
    }

    method SysMunmap(p: Pid, addr: nat, n: int) returns (r: int)
      requires Sound(Value()) && Enabled(procs, Munmap(p, addr, n))
      modifies this, k, k.kmem, k.kmem.refcnt
      ensures (Value(), Ret(r)) == Step(old(Value()), Munmap(p, addr, n))
    {
      hide Core, UnmapRange;
      var q := procs[p];
      if n <= 0 || addr % PGSIZE != 0 {
        return -1;
      }
      var slot := VmaFindExactIn(q, addr, RoundUp(n));
      if slot.None? {
        return -1;
      }
      var v := q.vmas[slot.value];
      k.VmUnmapRange(p, v.start, v.length);
      procs := procs[p := Forgotten(q, slot.value)];
      return 0;
    }

    method SysMprotect(p: Pid, addr: nat, n: int, prot: int) returns (r: int)
      requires Sound(Value()) && Enabled(procs, Mprotect(p, addr, n, prot))
      modifies this, k
      ensures (Value(), Ret(r)) == Step(old(Value()), Mprotect(p, addr, n, prot))
    {
      hide Core, ProtectRange;
      var q := procs[p];
      if n <= 0 || (prot != PROT_READ && prot != PROT_READ + PROT_WRITE) || addr % PGSIZE != 0 {
        return -1;
      }
      var slot := VmaFindExactIn(q, addr, RoundUp(n));
      if slot.None? {
        return -1;
      }
      var v, write := q.vmas[slot.value], prot == PROT_READ + PROT_WRITE;
      procs := procs[p := Reprotected(q, slot.value, write)];
      k.VmProtectRange(p, v.start, v.length, write);
      return 0;
    }

    /** growproc behind sbrk; the result tells a failed allocation from the other -1 returns, and
        the panic of mappages from both. */
    method GrowProc(p: Pid, n: int) returns (r: Outcome)
      requires Sound(Value()) && Enabled(procs, Sbrk(p, n))
      modifies this, k, k.kmem, k.kmem.refcnt
      ensures r == Step(old(Value()), Sbrk(p, n)).1
      ensures r != Panic ==> Value() == Step(old(Value()), Sbrk(p, n)).0
    {
      hide Core, UnmapRange, GrowUvm, OwnersOk, PidsOk;
      var q := procs[p];
      assert RecordOk(q);
      if n > 0 {
        var sz := k.AllocUvmTo(p, q.sz, q.sz + n);
        if sz.None? {
          return Panic;
        }
        if sz.value == 0 {
          return if q.sz + n >= KERNBASE then Ret(-1) else OutOfMemory;
        }
        procs := procs[p := q.(sz := sz.value)];
        return Ret(q.sz);
      } else if n < 0 {
        var newsz := Shrunk(q.sz, n);
        if newsz >= q.sz {
          NothingToUnmap(k.Value(), p, PagesFor(newsz), PagesFor(q.sz));
        }
        var sz := k.DeallocUvm(p, q.sz, newsz, {});
        if sz == 0 {
          return Ret(-1);
        }
        assert newsz >= q.sz ==> procs[p := q.(sz := sz)] == procs;
        procs := procs[p := q.(sz := sz)];
      }
      return Ret(q.sz);
    }

    method ForkProc(p: Pid, child: Pid) returns (r: Outcome)
      requires Sound(Value()) && Enabled(procs, Fork(p, child))
      modifies this, k, k.kmem, k.kmem.refcnt
      ensures (Value(), r) == Step(old(Value()), Fork(p, child))
    {
      hide Core, AllocKern, CopyUvm, FreeKern, UserMem, SharedWith, Copied;
      NoSpaceOf(Value(), child);
      AllocKernKeeps(k.Value(), {}, KStack(child));
      var ok := k.AllocKernFor(KStack(child));
      if !ok {
        return OutOfMemory;
      }
      assert NoSpace(k.Value(), child);
      CopyUvmKeeps(k.Value(), p, child, PagesFor(procs[p].sz));
      ok := k.CopyUvmOf(p, child, procs[p].sz);
      if !ok {
        k.FreeKernAt(KStack(child));
        return OutOfMemory;
      }
      procs := procs[child := procs[p]];
      return Ret(child);
    }

    /** What wait does with a zombie. */
    method ReapZombie(p: Pid) returns (r: int)
      requires Sound(Value()) && Enabled(procs, Reap(p))
      modifies this, k, k.kmem, k.kmem.refcnt
      ensures (Value(), Ret(r)) == Step(old(Value()), Reap(p))
    {
      hide Core, FreeKern, FreeVm;
      k.FreeKernAt(KStack(p));
      k.FreeVmOf(p);
      procs := procs - {p};
      return p;
    }

    /** The T_PGFLT case of trap for a user-mode fault with error code err. */
    method TrapPgflt(p: Pid, va: nat, err: nat) returns (r: Verdict)
      requires Sound(Value()) && p in procs
      requires va < KERNBASE ==> (err % 2 == 1) == ((p, va / PGSIZE) in k.pte)
      modifies k, k.kmem, k.kmem.refcnt
      ensures (k.Value(), r) == Trap(old(k.Value()), procs[p], p, va, err)
    {
      hide Core, CowFault, DemandPage;
      var q, pg := procs[p], (p, va / PGSIZE);
      var v := VmaFindIn(q, va);
      if err % 4 == 3 {
        if v.Some? && !q.vmas[v.value].write {
          return Kill;
        }
        var c := k.CowFaultAt(pg);
        return match c case Resolved => Retry case NoMemory => KillNoMemory case NotCow => Kill;
      }
      if err % 2 == 1 || v.None? {
        return Kill;
      }
      if (err / 2) % 2 == 1 && !q.vmas[v.value].write {
        return Kill;
      }
      var ok := k.VmAllocMmapPage(pg, q.vmas[v.value].write);
      return if ok then Retry else KillNoMemory;
    }
  }

  method CopyoutTo(mach: Machine, p: Pid, dst: nat, bs: seq<Byte>) returns (r: Outcome)
    requires Sound(mach.Value()) && Runnable(mach.procs, p)
    modifies mach.k, mach.k.kmem, mach.k.kmem.refcnt
    ensures (mach.Value(), r) == CopyoutAll(old(mach.Value()), p, dst, bs)
  {
    hide Sound, Step, UserMem, CopyoutPage;
    var va: nat, buf := dst, bs;
    while buf != []
      invariant Sound(mach.Value()) && mach.procs == old(mach.procs)
      invariant CopyoutAll(old(mach.Value()), p, dst, bs) == CopyoutAll(mach.Value(), p, va, buf)
      decreases |buf|
    {
      if va >= KERNBASE {
        return Ret(-1);
      }
      var n := Min(PGSIZE - va % PGSIZE, |buf|);
      ghost var before := mach.Value();
      StepSound(before, KernelWrite(p, va, buf[..n]));
      r := CopyoutChunk(mach, p, va, buf[..n]);
      assert CopyoutAll(before, p, va, buf) ==
             if r != Ret(0) then (mach.Value(), r)
             else CopyoutAll(mach.Value(), p, va / PGSIZE * PGSIZE + PGSIZE, buf[n..]);
      if r != Ret(0) {
        return;
      }
      va, buf := va / PGSIZE * PGSIZE + PGSIZE, buf[n..];
    }
    r := Ret(0);
  }

  /** The body of copyout's loop. */
  method CopyoutChunk(mach: Machine, p: Pid, va: nat, bs: seq<Byte>) returns (r: Outcome)
    requires Sound(mach.Value()) && Enabled(mach.procs, KernelWrite(p, va, bs))
    modifies mach.k, mach.k.kmem, mach.k.kmem.refcnt
    ensures (mach.Value(), r) == Step(old(mach.Value()), KernelWrite(p, va, bs))
    ensures mach.procs == old(mach.procs)
  {
    hide Core, CopyoutPage, UserMem, OwnersOk, RecordOk, OthersSame, OnlyTables;
    var k, pg := mach.k, (p, va / PGSIZE);
    CopyoutTouches(k.Value(), mach.procs[p], p, va);
    var acc := CopyoutPrepare(mach, p, va);
    if acc != Done {
      return if acc == DiesNoMemory then OutOfMemory else Ret(-1);
    }
    MappedIsOwned(k.Value(), {}, pg);
    CoreHasKmem(k.Value(), {});
    var f := k.pte[pg].frame;
    k.kmem.FillFrame(f, Splice(k.kmem.data[f], va % PGSIZE, bs));
    return Ret(0);
  }

  /** Make the destination page private and writable, as copyout does before its memmove. */
  method CopyoutPrepare(mach: Machine, p: Pid, va: nat) returns (r: Access)
    requires Sound(mach.Value()) && p in mach.procs
    modifies mach.k, mach.k.kmem, mach.k.kmem.refcnt
    ensures (mach.k.Value(), r) == CopyoutPage(old(mach.k.Value()), mach.procs[p], p, va)
  {
    hide Core, CowFault, DemandPage, UserMem, OwnersOk, OneEntry, FindFrom, OnlyTables, OthersSame;
    var k, q, pg := mach.k, mach.procs[p], (p, va / PGSIZE);
    assert RecordOk(q);
    var v := VmaFindIn(q, va / PGSIZE * PGSIZE);
    if pg !in k.pte {
      if v.None? || !q.vmas[v.value].write {
        return Dies;
      }
      CoveredPage(q, va / PGSIZE * PGSIZE);
      DemandTouches(k.Value(), pg, true);
      var ok := k.VmAllocMmapPage(pg, true);
      if !ok {
        return DiesNoMemory;
      }
    }
    if v.Some? && !q.vmas[v.value].write {
      return Dies;
    }
    if k.pte[pg].cow {
      CowFaultKeeps(k.Value(), pg);
      ghost var s := k.Value();
      var c := k.CowFaultAt(pg);
      if c == NoMemory {
        return DiesNoMemory;
      }
      EntryPresent(s, k.Value(), pg);
    }
    return if k.pte[pg].u && k.pte[pg].w then Done else Dies;
  }

  lemma NothingToUnmap(st: St, p: Pid, lo: nat, hi: nat)
    requires hi <= lo
    ensures UnmapRange(st, p, lo, hi) == st
  {
  }
}
