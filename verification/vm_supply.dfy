/** How many free frames suffice: an operation that reports no memory found fewer. */
module VmSupply {
  import opened Prelude
  import opened Mmu
  import opened Frames
  import opened VmState
  import opened VmPrims
  import opened VmRanges
  import opened VmSystem
  import opened VmRefine
  import opened VmSound

  function Supply(st: St): nat {
    |st.m.free|
  }

  /** Every frame on the free list is one the allocator counts. */
  predicate FreeOk(st: St) {
    forall i :: 0 <= i < |st.m.free| ==> st.m.free[i] < |st.m.refcnt|
  }

  lemma CoreFreeOk(st: St, held: set<nat>)
    requires Core(st, held)
    ensures FreeOk(st)
  {
    forall i | 0 <= i < |st.m.free| ensures st.m.free[i] < |st.m.refcnt| {
      assert st.m.free[i] in st.m.free;
    }
  }

  lemma AllocKernSupply(st: St, s: KSite)
    requires FreeOk(st)
    ensures var (t, ok) := AllocKern(st, s);
            FreeOk(t) && (ok <==> Supply(st) > 0) && Supply(t) == Supply(st) - (if ok then 1 else 0)
  {
  }

  lemma WalkSupply(st: St, p: Pid, d: nat)
    requires FreeOk(st)
    ensures var (t, ok) := Walk(st, p, d);
            FreeOk(t) && (!ok ==> Supply(st) == 0) && Supply(t) + 1 >= Supply(st) >= Supply(t)
  {
    hide AllocKern;
    AllocKernSupply(st, Table(p, d));
  }

  /** One more page takes a frame and perhaps a page table. */
  lemma AllocPageSupply(st: St, k: Key, w: bool)
    requires FreeOk(st)
    ensures var (t, r) := AllocPage(st, k, w);
            FreeOk(t) && (if r.Mapped? then Supply(t) + 2 >= Supply(st) > Supply(t) else Supply(st) <= 1)
  {
    hide Walk;
    match Kalloc(st.m) {
      case (_, None) =>
      case (m, Some(f)) => WalkSupply(st.(m := Fill(m, f, Filled(0))), k.0, k.1 / NPTENTRIES);
    }
  }

  lemma {:induction false} AllocRangeSupply(st: St, p: Pid, lo: nat, hi: nat)
    requires FreeOk(st)
    requires lo <= hi
    ensures var (t, r) := AllocRange(st, p, lo, hi);
            && FreeOk(t)
            && if r.Mapped? then Supply(t) + 2 * (hi - lo) >= Supply(st) >= Supply(t) + hi - lo
               else Supply(st) < 2 * (hi - lo)
  {
    hide AllocPage;
    if lo < hi {
      AllocRangeSupply(st, p, lo, hi - 1);
      AllocPageSupply(AllocRange(st, p, lo, hi - 1).0, (p, hi - 1), true);
    }
  }

  /** There are never more free frames than frames. */
  lemma SupplyBounded(st: St)
    requires Core(st, {})
    ensures Supply(st) <= |st.m.refcnt|
  {
    hide Core;
    CoreHasKmem(st, {});
    CardMono(Elements(st.m.free), Numbers(|st.m.refcnt|));
  }

  lemma {:induction false} UnmapSupply(st: St, p: Pid, lo: nat, hi: nat)
    ensures Supply(UnmapRange(st, p, lo, hi)) >= Supply(st)
  {
    if lo < hi {
      UnmapSupply(st, p, lo, hi - 1);
    }
  }

  lemma {:induction false} KvmTablesSupply(st: St, p: Pid, n: nat)
    requires FreeOk(st)
    ensures var (t, ok) := KvmTables(st, p, n);
            FreeOk(t) && if ok then Supply(t) + n >= Supply(st) else Supply(st) < n
  {
    hide Walk;
    if n > 0 {
      KvmTablesSupply(st, p, n - 1);
      WalkSupply(KvmTables(st, p, n - 1).0, p, KvmSlot(n - 1));
    }
  }

  lemma SetupKvmSupply(st: St, p: Pid)
    requires FreeOk(st)
    ensures var (t, ok) := SetupKvm(st, p);
            if ok then FreeOk(t) && Supply(t) + KVM_TABLES + 1 >= Supply(st) else Supply(st) <= KVM_TABLES
  {
    hide AllocKern, KvmTables, FreeVm;
    AllocKernSupply(st, Dir(p));
    KvmTablesSupply(AllocKern(st, Dir(p)).0, p, KVM_TABLES);
  }

  lemma ShareOneSupply(st: St, parent: Pid, child: Pid, v: nat)
    requires FreeOk(st)
    ensures var (t, ok) := ShareOne(st, parent, child, v);
            FreeOk(t) && (!ok ==> Supply(st) == 0) && (ok ==> Supply(t) + 1 >= Supply(st))
  {
    hide Walk;
    if (parent, v) in st.pte {
      WalkSupply(st.(pte := st.pte[(parent, v) := CowFlags(st.pte[(parent, v)])]), child, v / NPTENTRIES);
    }
  }

  lemma {:induction false} CopyRangeSupply(st: St, parent: Pid, child: Pid, n: nat)
    requires FreeOk(st)
    ensures var (t, ok) := CopyRange(st, parent, child, n);
            FreeOk(t) && if ok then Supply(t) + n >= Supply(st) else Supply(st) < n
  {
    hide ShareOne;
    if n > 0 {
      CopyRangeSupply(st, parent, child, n - 1);
      ShareOneSupply(CopyRange(st, parent, child, n - 1).0, parent, child, n - 1);
    }
  }

  lemma ForkSupply(st: St, p: Pid, child: Pid, n: nat)
    requires FreeOk(st)
    ensures var (s, ok) := ForkSt(st, p, child, n);
            if ok then Supply(s) + KVM_TABLES + 2 + n >= Supply(st) else Supply(st) < KVM_TABLES + 2 + n
  {
    hide AllocKern, SetupKvm, CopyRange, FreeVm, FreeKern;
    AllocKernSupply(st, KStack(child));
    var s := AllocKern(st, KStack(child)).0;
    SetupKvmSupply(s, child);
    if SetupKvm(s, child).1 {
      CopyRangeSupply(SetupKvm(s, child).0, p, child, n);
    }
  }

  lemma GrowSupply(st: St, p: Pid, lo: nat, hi: nat)
    requires FreeOk(st)
    requires lo <= hi && GrowUvm(st, p, lo, hi).1 == NoMemoryLeft
    ensures Supply(st) < 2 * (hi - lo)
  {
    hide AllocRange, Undone, FirstResident;
    AllocRangeSupply(st, p, lo, FirstResident(st.pte, p, lo, hi));
  }

  lemma TrapSupply(st: St, q: Proc, p: Pid, va: nat, err: nat)
    requires FreeOk(st)
    requires Trap(st, q, p, va, err).1 == KillNoMemory
    ensures Supply(st) <= 1
  {
    hide AllocPage, FindFrom;
    var v := VmaFind(q, va);
    if v.Some? {
      AllocPageSupply(st, (p, va / PGSIZE), q.vmas[v.value].write);
    }
  }

  lemma AccessSupply(st: St, q: Proc, p: Pid, va: nat, write: bool)
    requires Core(st, {}) && RecordOk(q) && UserAccess(st, q, p, va, write, 2).1 == DiesNoMemory
    ensures Supply(st) <= 1
  {
    hide Core, Trap, RecordOk, Touched;
    CoreFreeOk(st, {});
    var k := (p, va / PGSIZE);
    var err := FaultCode(k in st.pte, write);
    var (s, r) := Trap(st, q, p, va, err);
    if r == KillNoMemory {
      TrapSupply(st, q, p, va, err);
    } else {
      TrapTouches(st, q, p, va, write);
      if !HwAllows(s, k, write) {
        SecondKills(s, q, p, va, write);
      }
    }
  }

  lemma CopyoutSupply(st: St, q: Proc, p: Pid, va: nat)
    requires Core(st, {}) && RecordOk(q) && CopyoutPage(st, q, p, va).1 == DiesNoMemory
    ensures Supply(st) <= 1
  {
    hide Core, AllocPage, FindFrom, UserMem;
    var k := (p, va / PGSIZE);
    CoreFreeOk(st, {});
    AllocPageSupply(st, k, true);
    if k !in st.pte && VmaFind(q, va / PGSIZE * PGSIZE).Some? {
      CoveredPage(q, va / PGSIZE * PGSIZE);
      AllocPageKeeps(st, {}, k, true);
    }
  }

  /** An operation that reports no memory found the supply short: at most one frame for an access
      or a copyout, fewer than two per page for a growing sbrk, and fewer than the stack, the
      kernel tables and one page table per page for a fork. */
  lemma NoMemoryMeansShort(sys: Sys, op: Op)
    requires Sound(sys) && Step(sys, op).1 == OutOfMemory
    ensures (op.Load? || op.StoreTo? || op.KernelWrite?) ==> Supply(sys.st) <= 1
    ensures op.Sbrk? ==>
              op.n > 0 && Supply(sys.st) < 2 * (PagesFor(sys.procs[op.p].sz + op.n) - PagesFor(sys.procs[op.p].sz))
    ensures op.Fork? ==> Supply(sys.st) < KVM_TABLES + 2 + PagesFor(sys.procs[op.p].sz)
    ensures op.UserInit? ==> Supply(sys.st) < KVM_TABLES + 4
    ensures op.Load? || op.StoreTo? || op.KernelWrite? || op.Sbrk? || op.Fork? || op.UserInit?
  {
    hide Core, RecordOk, UserAccess, CopyoutPage, GrowUvm, ForkSt, UserInitSt, UnmapRange, PagesFor;
    CoreFreeOk(sys.st, {});
    match op {
      case Load(p, va) => AccessSupply(sys.st, sys.procs[p], p, va, false);
      case StoreTo(p, va, _) => AccessSupply(sys.st, sys.procs[p], p, va, true);
      case KernelWrite(p, va, _) => CopyoutSupply(sys.st, sys.procs[p], p, va);
      case Sbrk(p, n) =>
        var q := sys.procs[p];
        if n > 0 {
          PagesMono(q.sz, q.sz + n);
          GrowSupply(sys.st, p, PagesFor(q.sz), PagesFor(q.sz + n));
        }
      case Fork(p, child) => ForkSupply(sys.st, p, child, PagesFor(sys.procs[p].sz));
      case UserInit(p, image) => UserInitSupply(sys.st, p, image);
      case _ =>
    }
  }

  lemma UserInitSupply(st: St, p: Pid, image: Page)
    requires FreeOk(st)
    ensures var (s, ok) := UserInitSt(st, p, image);
            if ok then Supply(s) + KVM_TABLES + 4 >= Supply(st) else Supply(st) < KVM_TABLES + 4
  {
    hide AllocKern, SetupKvm, AllocPage, Splice;
    AllocKernSupply(st, KStack(p));
    var s1 := AllocKern(st, KStack(p)).0;
    SetupKvmSupply(s1, p);
    if SetupKvm(s1, p).1 {
      AllocPageSupply(SetupKvm(s1, p).0, (p, 0), true);
    }
  }
}
