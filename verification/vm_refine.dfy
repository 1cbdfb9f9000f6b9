/** The invariant of the virtual-memory kernel, and copy-on-write against eager copying. */
module VmRefine {
  import opened Prelude
  import opened Mmu
  import opened VmState
  import opened VmPrims
  import opened VmRanges
  import opened VmSystem

  predicate Apart(v: Vma, w: Vma) {
    v.start + v.length <= w.start || w.start + w.length <= v.start
  }

  /** Active mappings do not overlap. */
  ghost predicate Disjoint(q: Proc) {
    forall i, j :: 0 <= i < j < |q.vmas| && q.vmas[i].used && q.vmas[j].used ==> Apart(q.vmas[i], q.vmas[j])
  }

  /** VMAs are page-aligned, non-empty, below the rounded sz and pairwise disjoint. */
  ghost predicate ProcOk(q: Proc) {
    && |q.vmas| == MAX_VMAS
    && q.sz <= KERNBASE
    && (forall i :: 0 <= i < MAX_VMAS && q.vmas[i].used ==>
          && q.vmas[i].start % PGSIZE == 0 && q.vmas[i].length % PGSIZE == 0 && 0 < q.vmas[i].length < KERNBASE
          && q.vmas[i].start + q.vmas[i].length <= RoundUp(q.sz))
    && Disjoint(q)
  }

  /** A resident page lies below sz; it is writable or COW exactly where the process may write. */
  ghost predicate PageOk(q: Proc, v: nat, e: Pte) {
    && v * PGSIZE < q.sz
    && if MayWrite(q, v * PGSIZE) then e.w || e.cow else !e.w
  }

  ghost predicate PagesOk(sys: Sys) {
    forall k :: k in sys.st.pte ==> k.0 in sys.procs && PageOk(sys.procs[k.0], k.1, sys.st.pte[k])
  }

  ghost predicate OwnersOk(sys: Sys) {
    && (forall s :: s in sys.st.kern ==> s.Static? || s.p in sys.procs)
    && (forall p :: p in sys.procs ==> Dir(p) in sys.st.kern && KStack(p) in sys.st.kern)
  }

  ghost predicate ProcsOk(procs: map<Pid, Proc>) {
    forall p :: p in procs ==> ProcOk(procs[p])
  }

  ghost predicate Inv(sys: Sys) {
    Core(sys.st, {}) && ProcsOk(sys.procs) && PagesOk(sys) && OwnersOk(sys)
  }

  function Abs(sys: Sys): Eager
    requires Framed(sys.st)
  {
    Eager(UserMem(sys.st), sys.procs)
  }

  lemma InvCore(sys: Sys)
    requires Inv(sys)
    ensures Core(sys.st, {})
  {
  }

  lemma InvFramed(sys: Sys)
    requires Inv(sys)
    ensures Framed(sys.st)
  {
    CoreIsFramed(sys.st, {});
  }

  /** VMAs are page-aligned, so every address of a page finds the same VMA. */
  lemma {:induction false} SamePage(q: Proc, va: nat, i: nat)
    requires forall j :: 0 <= j < |q.vmas| && q.vmas[j].used ==>
               q.vmas[j].start % PGSIZE == 0 && q.vmas[j].length % PGSIZE == 0
    ensures FindFrom(q.vmas, va, i) == FindFrom(q.vmas, va / PGSIZE * PGSIZE, i)
    decreases |q.vmas| - i
  {
    if i < |q.vmas| {
      CoversPage(q.vmas[i], va);
      SamePage(q, va, i + 1);
    }
  }

  lemma CoversPage(v: Vma, va: nat)
    requires v.used ==> v.start % PGSIZE == 0 && v.length % PGSIZE == 0
    ensures Covers(v, va) == Covers(v, va / PGSIZE * PGSIZE)
    ensures v.used ==> (Covers(v, va) <==> v.start / PGSIZE <= va / PGSIZE < (v.start + v.length) / PGSIZE)
  {
  }

  lemma PagesOneEntry(sys: Sys, st: St, k: Key)
    requires PagesOk(sys) && k.0 in sys.procs && OneEntry(sys.st.pte, st.pte, k)
    requires PageOk(sys.procs[k.0], k.1, st.pte[k])
    ensures PagesOk(Sys(st, sys.procs))
  {
  }

  lemma OwnersGrow(sys: Sys, st: St, p: Pid)
    requires OwnersOk(sys) && p in sys.procs && (OnlyTables(sys.st, st, p) || st.kern == sys.st.kern)
    ensures OwnersOk(Sys(st, sys.procs))
  {
  }

  lemma PageOkAt(sys: Sys, k: Key)
    requires PagesOk(sys) && k in sys.st.pte
    ensures k.0 in sys.procs && PageOk(sys.procs[k.0], k.1, sys.st.pte[k])
  {
  }

  /** A VMA that covers va keeps its whole page below sz. */
  lemma CoveredBelowSz(q: Proc, va: nat)
    requires ProcOk(q) && VmaFind(q, va).Some?
    ensures va / PGSIZE * PGSIZE < q.sz && va < KERNBASE && va / PGSIZE < USERPAGES
  {
    var v := q.vmas[VmaFind(q, va).value];
    assert v.start + v.length <= RoundUp(q.sz);
    KernelAligned();
  }

  lemma KernelAligned()
    ensures KERNBASE % PGSIZE == 0 && KERNBASE == USERPAGES * PGSIZE
  {
  }

  // ---- page faults ----

  /** What one trap does to a user access that the MMU refused. */
  lemma TrapKeeps(sys: Sys, p: Pid, va: nat, write: bool)
    requires Inv(sys) && p in sys.procs
    requires !HwAllows(sys.st, (p, va / PGSIZE), write)
    ensures var q, k := sys.procs[p], (p, va / PGSIZE);
            var (s, r) := Trap(sys.st, q, p, va, FaultCode(k in sys.st.pte, write));
            && Inv(Sys(s, sys.procs)) && Framed(sys.st) && Framed(s)
            && (r == Retry ==> && k in s.pte && (write ==> s.pte[k].w && !s.pte[k].cow && MayWrite(q, va))
                               && (if k in sys.st.pte then UserMem(s) == UserMem(sys.st) && write
                                   else VmaFind(q, va).Some?
                                        && UserMem(s) == UserMem(sys.st)[k := UPage(Filled(0), true)]))
            && (r == Kill ==> s == sys.st && !EagerAccess(Abs(sys), q, p, va, write).1)
            && (r == KillNoMemory ==> UserMem(s) == UserMem(sys.st))
  {
    hide Core, UserMem, CowFault, DemandPage, PagesOk, OwnersOk, OneEntry, FindFrom;
    InvFramed(sys);
    SameKeys(sys.st);
    var q, k, st := sys.procs[p], (p, va / PGSIZE), sys.st;
    assert ProcOk(q);
    SamePage(q, va, 0);
    if k in st.pte {
      MemEntry(st, k);
      PageOkAt(sys, k);
      if write && MayWrite(q, va) {
        CowFaultKeeps(st, k);
        var (s, r) := CowFault(st, k);
        if r == Resolved {
          EntryPresent(st, s, k);
          PagesOneEntry(sys, s, k);
          OwnersGrow(sys, s, p);
        }
      }
    } else if VmaFind(q, va).Some? && (write ==> MayWrite(q, va)) {
      DemandKeeps(sys, p, va);
    }
  }

  lemma AboveUserPages(st: St, k: Key)
    requires Core(st, {}) && k.1 >= USERPAGES
    ensures k !in st.pte
  {
    assert k in st.pte ==> PteOk(st, k);
  }

  lemma MemEntry(st: St, k: Key)
    requires Framed(st) && k in st.pte
    ensures k in UserMem(st) && UserMem(st)[k] == UPage(st.m.data[st.pte[k].frame], st.pte[k].u)
  {
  }

  /** Demand paging gives a zero page whose PTE_W follows the VMA. */
  lemma DemandKeeps(sys: Sys, p: Pid, va: nat)
    requires Inv(sys) && p in sys.procs
    requires (p, va / PGSIZE) !in sys.st.pte && VmaFind(sys.procs[p], va).Some?
    ensures var q, k := sys.procs[p], (p, va / PGSIZE);
            var (s, ok) := DemandPage(sys.st, k, MayWrite(q, va));
            && Inv(Sys(s, sys.procs)) && Framed(sys.st) && Framed(s)
            && (if ok then && UserMem(s) == UserMem(sys.st)[k := UPage(Filled(0), true)]
                           && k in s.pte && s.pte[k].w == MayWrite(q, va) && !s.pte[k].cow
                else UserMem(s) == UserMem(sys.st))
  {
    hide Core, UserMem, AllocPage, PagesOk, OwnersOk, OneEntry, OnlyTables, FindFrom;
    InvFramed(sys);
    var q, k, st := sys.procs[p], (p, va / PGSIZE), sys.st;
    assert ProcOk(q);
    SamePage(q, va, 0);
    CoveredBelowSz(q, va);
    var w := MayWrite(q, va);
    AllocPageKeeps(st, {}, k, w);
    var (s, r) := AllocPage(st, k, w);
    var s' := DemandPage(st, k, w).0;
    if r.NoTable? {
      DropHeldKeeps(s, {}, r.frame);
    }
    OwnersGrow(sys, s', p);
    if r.Mapped? {
      EntryPresent(st, s, k);
      PagesOneEntry(sys, s, k);
    } else {
      SamePages(sys, s');
    }
  }

  lemma SamePages(sys: Sys, st: St)
    requires PagesOk(sys) && st.pte == sys.st.pte
    ensures PagesOk(Sys(st, sys.procs))
  {
  }

  lemma EntryPresent(st: St, s: St, k: Key)
    requires OneEntry(st.pte, s.pte, k)
    ensures k in s.pte
  {
  }

  /** A user access completes after at most one fault, or the process is killed after at most
      two: the bound of two in UserAccess is never exhausted. */
  lemma AccessRefines(sys: Sys, p: Pid, va: nat, write: bool)
    requires Inv(sys) && p in sys.procs
    ensures var q, k := sys.procs[p], (p, va / PGSIZE);
            var (s, r) := UserAccess(sys.st, q, p, va, write, 2);
            && r != StillFaulting
            && Inv(Sys(s, sys.procs)) && Framed(sys.st) && Framed(s)
            && (r == Done ==> HwAllows(s, k, write) && EagerAccess(Abs(sys), q, p, va, write) == (UserMem(s), true))
            && (r != Done ==> UserMem(s) == UserMem(sys.st))
            && (r == Dies ==> !EagerAccess(Abs(sys), q, p, va, write).1)
            && (r == Done ==> UserAccess(sys.st, q, p, va, write, 1) == (s, r))
  {
    hide Core, UserMem, Trap, PagesOk, OwnersOk, ProcsOk;
    InvFramed(sys);
    SameKeys(sys.st);
    var q, k, st := sys.procs[p], (p, va / PGSIZE), sys.st;
    if HwAllows(st, k, write) {
      AllowedOk(sys, p, va, write);
    } else {
      TrapKeeps(sys, p, va, write);
      var (s, r) := Trap(st, q, p, va, FaultCode(k in st.pte, write));
      if r == Retry {
        MemEntry(s, k);
        if k in st.pte { MemEntry(st, k); }
        if !HwAllows(s, k, write) {
          TrapKeeps(Sys(s, sys.procs), p, va, write);
          SecondKills(s, q, p, va, write);
        }
      }
    }
  }

  lemma AllowedOk(sys: Sys, p: Pid, va: nat, write: bool)
    requires Inv(sys) && p in sys.procs
    requires HwAllows(sys.st, (p, va / PGSIZE), write)
    ensures Framed(sys.st)
    ensures EagerAccess(Abs(sys), sys.procs[p], p, va, write) == (UserMem(sys.st), true)
  {
    InvFramed(sys);
    var k := (p, va / PGSIZE);
    SamePage(sys.procs[p], va, 0);
    MemEntry(sys.st, k);
    assert PageOk(sys.procs[p], k.1, sys.st.pte[k]);
  }

  /** A retried access that faults again finds no COW mark and dies, but not of memory. */
  lemma SecondKills(st: St, q: Proc, p: Pid, va: nat, write: bool)
    requires var k := (p, va / PGSIZE); k in st.pte && (write ==> !st.pte[k].cow)
    ensures Trap(st, q, p, va, FaultCode(true, write)) == (st, Kill)
  {
  }

  /** copyout's page step agrees with a user store, except that it never kills. */
  lemma CopyoutRefines(sys: Sys, p: Pid, va: nat)
    requires Inv(sys) && p in sys.procs
    ensures var q, k := sys.procs[p], (p, va / PGSIZE);
            var (s, r) := CopyoutPage(sys.st, q, p, va);
            && r != StillFaulting
            && Inv(Sys(s, sys.procs)) && Framed(sys.st) && Framed(s)
            && (r == Done ==> HwAllows(s, k, true) && EagerAccess(Abs(sys), q, p, va, true) == (UserMem(s), true))
            && (r != Done ==> UserMem(s) == UserMem(sys.st))
            && (r == Dies ==> !EagerAccess(Abs(sys), q, p, va, true).1)
  {
    hide Core, UserMem, CowFault, DemandPage, PagesOk, OwnersOk, OneEntry, FindFrom;
    InvFramed(sys);
    SameKeys(sys.st);
    var q, k, st := sys.procs[p], (p, va / PGSIZE), sys.st;
    assert ProcOk(q);
    SamePage(q, va, 0);
    if k in st.pte {
      MemEntry(st, k);
      PageOkAt(sys, k);
      if MayWrite(q, va) {
        CowFaultKeeps(st, k);
        var (s, r) := CowFault(st, k);
        if r == Resolved {
          EntryPresent(st, s, k);
          MemEntry(s, k);
          PagesOneEntry(sys, s, k);
          OwnersGrow(sys, s, p);
        }
      }
    } else if VmaFind(q, va).Some? && MayWrite(q, va) {
      DemandKeeps(sys, p, va);
      var (s, ok) := DemandPage(st, k, true);
      if ok { MemEntry(s, k); }
    }
  }

  // ---- one lemma per operation ----

  /** The step keeps the invariant and does to the eager machine what its outcome says. */
  ghost predicate Refines(sys: Sys, op: Op) {
    var (s, o) := Step(sys, op);
    && Inv(s) && Framed(sys.st) && Framed(s.st)
    && EagerStep(Abs(sys), op, o == OutOfMemory) == (Abs(s), o)
  }

  lemma KillKeeps(sys: Sys, st: St, p: Pid)
    requires Inv(Sys(st, sys.procs)) && p in sys.procs
    ensures Inv(Sys(st, sys.procs[p := Dead(sys.procs[p])]))
  {
    hide Core;
    var q := sys.procs[p];
    assert forall a: nat :: MayWrite(Dead(q), a) == MayWrite(q, a);
    assert ProcOk(q) && ProcOk(Dead(q));
    var sys' := Sys(st, sys.procs[p := Dead(q)]);
    forall k | k in st.pte ensures k.0 in sys'.procs && PageOk(sys'.procs[k.0], k.1, st.pte[k]) {
      assert PageOk(sys.procs[k.0], k.1, st.pte[k]);
    }
  }

  lemma LoadRefines(sys: Sys, op: Op)
    requires Inv(sys) && Enabled(sys.procs, op) && op.Load?
    ensures Refines(sys, op)
  {
    hide Inv, UserMem, UserAccess, EagerAccess;
    AccessRefines(sys, op.p, op.va, false);
    var (s, r) := UserAccess(sys.st, sys.procs[op.p], op.p, op.va, false, 2);
    if r == Done { MemEntry(s, (op.p, op.va / PGSIZE)); } else { KillKeeps(sys, s, op.p); }
  }

  /** Storing through an allowed mapping pokes the process's own page and no other. */
  lemma StoreRefines(sys: Sys, k: Key, o: nat, bs: seq<Byte>)
    requires Inv(sys) && HwAllows(sys.st, k, true) && o + |bs| <= PGSIZE
    ensures Inv(Sys(Store(sys.st, k, o, bs), sys.procs)) && Framed(sys.st) && Framed(Store(sys.st, k, o, bs))
    ensures UserMem(Store(sys.st, k, o, bs)) == Poke(UserMem(sys.st), k, o, bs)
  {
    hide Core, UserMem, Store;
    InvFramed(sys);
    MemEntry(sys.st, k);
    StoreKeeps(sys.st, k, o, bs);
  }

  lemma StoreToRefines(sys: Sys, op: Op)
    requires Inv(sys) && Enabled(sys.procs, op) && op.StoreTo?
    ensures Refines(sys, op)
  {
    hide Inv, UserMem, UserAccess, EagerAccess, Store, Poke;
    AccessRefines(sys, op.p, op.va, true);
    var (s, r) := UserAccess(sys.st, sys.procs[op.p], op.p, op.va, true, 2);
    if r == Done { StoreRefines(Sys(s, sys.procs), (op.p, op.va / PGSIZE), op.va % PGSIZE, [op.b]); }
    else { KillKeeps(sys, s, op.p); }
  }

  lemma KernelWriteRefines(sys: Sys, op: Op)
    requires Inv(sys) && Enabled(sys.procs, op) && op.KernelWrite?
    ensures Refines(sys, op)
  {
    hide Inv, UserMem, CopyoutPage, EagerAccess, Store, Poke;
    CopyoutRefines(sys, op.p, op.va);
    var (s, r) := CopyoutPage(sys.st, sys.procs[op.p], op.p, op.va);
    if r == Done { StoreRefines(Sys(s, sys.procs), (op.p, op.va / PGSIZE), op.va % PGSIZE, op.bs); }
  }

  lemma FlagsKeptOk(q: Proc, v: nat, e: Pte, e': Pte)
    requires PageOk(q, v, e) && FlagsKept(e, e')
    ensures PageOk(q, v, e')
  {
  }

  /** fork without copying: either the child gets all of the parent's first n pages, or
      every owner of every frame and every process's memory is as before. */
  lemma ForkStKeeps(st: St, p: Pid, child: Pid, n: nat)
    requires Core(st, {}) && NoSpace(st, child) && KStack(child) !in st.kern && p != child
    ensures var (s, ok) := ForkSt(st, p, child, n);
            && Core(s, {}) && Framed(st) && Framed(s)
            && (ok ==> && UserMem(s) == Copied(UserMem(st), p, child, n)
                       && SharedWith(st.pte, s.pte, p, child, n)
                       && Dir(child) in s.kern && KStack(child) in s.kern
                       && (forall t :: t in st.kern ==> t in s.kern)
                       && (forall t :: t in s.kern ==> t in st.kern || For(t, child)))
            && (!ok ==> && UserMem(s) == UserMem(st) && s.kern == st.kern && s.pte.Keys == st.pte.Keys
                        && forall k :: k in st.pte ==> FlagsKept(st.pte[k], s.pte[k]))
  {
    hide Core, UserMem, AllocKern, CopyUvm, Copied, SharedWith;
    CoreIsFramed(st, {});
    AllocKernKeeps(st, {}, KStack(child));
    var (s1, r) := AllocKern(st, KStack(child));
    if r {
      assert NoSpace(s1, child);
      CopyUvmKeeps(s1, p, child, n);
      var (s2, ok) := CopyUvm(s1, p, child, n);
      if !ok {
        FreeKernKeeps(s2, {}, KStack(child));
        RestoredKern(st, s1, KStack(child));
      }
    }
  }

  lemma RestoredKern(st: St, s: St, t: KSite)
    requires KernGrows(st, s) && s.kern.Keys == st.kern.Keys + {t} && t !in st.kern
    ensures s.kern - {t} == st.kern
  {
  }

  lemma ForkInv(sys: Sys, s: St, p: Pid, child: Pid, n: nat)
    requires Inv(sys) && p in sys.procs && child !in sys.procs && Core(s, {})
    requires SharedWith(sys.st.pte, s.pte, p, child, n)
    requires Dir(child) in s.kern && KStack(child) in s.kern
    requires forall t :: t in sys.st.kern ==> t in s.kern
    requires forall t :: t in s.kern ==> t in sys.st.kern || For(t, child)
    ensures Inv(Sys(s, sys.procs[child := sys.procs[p]]))
  {
    hide Core, ProcOk, PageOk, FlagsKept;
    var sys' := Sys(s, sys.procs[child := sys.procs[p]]);
    assert PagesOk(sys') by {
      forall k | k in s.pte ensures k.0 in sys'.procs && PageOk(sys'.procs[k.0], k.1, s.pte[k]) {
        var o := if k in sys.st.pte then k else (p, k.1);
        PageOkAt(sys, o);
        FlagsKeptOk(sys.procs[o.0], o.1, sys.st.pte[o], s.pte[k]);
      }
    }
  }

  lemma SharedFlagsInv(sys: Sys, s: St)
    requires Inv(sys) && Core(s, {}) && s.kern == sys.st.kern && s.pte.Keys == sys.st.pte.Keys
    requires forall k :: k in sys.st.pte ==> FlagsKept(sys.st.pte[k], s.pte[k])
    ensures Inv(Sys(s, sys.procs))
  {
    hide Core, ProcOk, PageOk, FlagsKept;
    forall k | k in s.pte ensures k.0 in sys.procs && PageOk(sys.procs[k.0], k.1, s.pte[k]) {
      PageOkAt(sys, k);
      FlagsKeptOk(sys.procs[k.0], k.1, sys.st.pte[k], s.pte[k]);
    }
  }

  lemma ForkRefines(sys: Sys, op: Op)
    requires Inv(sys) && Enabled(sys.procs, op) && op.Fork?
    ensures Refines(sys, op)
  {
    hide Inv, UserMem, ForkSt, Copied, FlagsKept, SharedWith;
    var p, child, q := op.p, op.child, sys.procs[op.p];
    InvCore(sys);
    NoPagesOf(sys, child);
    ForkStKeeps(sys.st, p, child, PagesFor(q.sz));
    var (s, ok) := ForkSt(sys.st, p, child, PagesFor(q.sz));
    if ok {
      BelowSz(sys, p);
      CopiedAll(UserMem(sys.st), p, child, PagesFor(q.sz), USERPAGES);
      ForkInv(sys, s, p, child, PagesFor(q.sz));
    } else {
      SharedFlagsInv(sys, s);
    }
  }

  /** All resident pages lie below sz. */
  lemma BelowSz(sys: Sys, p: Pid)
    requires Inv(sys) && p in sys.procs
    ensures Framed(sys.st) && PagesFor(sys.procs[p].sz) <= USERPAGES
    ensures forall v: nat :: (p, v) in UserMem(sys.st) ==> v < PagesFor(sys.procs[p].sz)
  {
    hide Core, MayWrite;
    InvFramed(sys);
    assert ProcOk(sys.procs[p]);
    forall v: nat | (p, v) in UserMem(sys.st) ensures v < PagesFor(sys.procs[p].sz) {
      PageOkAt(sys, (p, v));
    }
  }

  lemma {:induction false} CopiedAll(m: UMem, p: Pid, child: Pid, n: nat, k: nat)
    requires n <= k && p != child && forall v: nat :: (p, v) in m ==> v < n
    ensures Copied(m, p, child, n) == Copied(m, p, child, k)
    decreases k
  {
    hide Copied;
    if n < k {
      CopiedAll(m, p, child, n, k - 1);
      CopiedStep(m, p, child, k - 1);
    }
  }

  lemma ExitRefines(sys: Sys, op: Op)
    requires Inv(sys) && Enabled(sys.procs, op) && op.Exit?
    ensures Refines(sys, op)
  {
    hide Inv, UserMem;
    InvFramed(sys);
    KillKeeps(sys, sys.st, op.p);
  }

  lemma ReapInv(sys: Sys, s: St, p: Pid)
    requires Inv(sys) && Core(s, {}) && s.pte == PteWithout(sys.st.pte, p)
    requires s.kern == KernWithout(sys.st.kern - {KStack(p)}, p)
    ensures Inv(Sys(s, sys.procs - {p}))
  {
    hide Core, ProcOk, PageOk, OwnersOk, KernWithout;
    ReapOwners(sys, s, p);
    forall k | k in s.pte ensures k.0 in sys.procs - {p} && PageOk(sys.procs[k.0], k.1, s.pte[k]) {
      PageOkAt(sys, k);
    }
  }

  lemma ReapOwners(sys: Sys, s: St, p: Pid)
    requires OwnersOk(sys) && s.kern == KernWithout(sys.st.kern - {KStack(p)}, p)
    ensures OwnersOk(Sys(s, sys.procs - {p}))
  {
    forall t | t in s.kern && !t.Static? ensures t.p in sys.procs - {p} {
      assert t == KStack(t.p) || VmSite(t, t.p);
    }
  }

  lemma ReapRefines(sys: Sys, op: Op)
    requires Inv(sys) && Enabled(sys.procs, op) && op.Reap?
    ensures Refines(sys, op)
  {
    hide Core, UserMem, FreeVm, FreeKern, ProcsOk, PagesOk, PteWithout, KernWithout;
    InvFramed(sys);
    var st, p := sys.st, op.p;
    FreeKernKeeps(st, {}, KStack(p));
    FreeKernIs(st, KStack(p));
    FreeVmKeeps(FreeKern(st, KStack(p)), p);
    ReapInv(sys, ReapSt(st, p), p);
  }

  lemma FreeKernIs(st: St, s: KSite)
    requires s in st.kern
    ensures FreeKern(st, s).kern == st.kern - {s} && FreeKern(st, s).pte == st.pte
  {
  }

  // ---- VMA tables ----

  lemma {:induction false} FindSame(vmas: seq<Vma>, vmas': seq<Vma>, a: nat, i: nat)
    requires |vmas| == |vmas'| && forall j :: 0 <= j < |vmas| ==> (Covers(vmas[j], a) <==> Covers(vmas'[j], a))
    ensures FindFrom(vmas, a, i) == FindFrom(vmas', a, i)
    decreases |vmas| - i
  {
    if i < |vmas| { FindSame(vmas, vmas', a, i + 1); }
  }

  /** Changing slot i does not matter where neither its old nor its new range reaches. */
  lemma MayWriteElsewhere(q: Proc, q': Proc, i: nat, a: nat)
    requires i < |q.vmas| == |q'.vmas| && q'.vmas == q.vmas[i := q'.vmas[i]]
    requires !Covers(q.vmas[i], a) && !Covers(q'.vmas[i], a)
    ensures MayWrite(q', a) == MayWrite(q, a)
  {
    FindSame(q.vmas, q'.vmas, a, 0);
  }

  /** VMAs are disjoint: the one that covers an address is the one that is found. */
  lemma FindIs(q: Proc, i: nat, a: nat)
    requires Disjoint(q) && i < |q.vmas| && Covers(q.vmas[i], a)
    ensures VmaFind(q, a) == Some(i)
  {
    forall j | 0 <= j < |q.vmas| && j != i ensures !Covers(q.vmas[j], a) {
      assert q.vmas[j].used ==> Apart(q.vmas[j], q.vmas[i]) || Apart(q.vmas[i], q.vmas[j]);
    }
  }

  /** No VMA reaches the rounded sz or beyond. */
  lemma FindNoneAbove(q: Proc, a: nat)
    requires ProcOk(q) && a >= RoundUp(q.sz)
    ensures VmaFind(q, a) == None
  {
    forall i | 0 <= i < MAX_VMAS ensures !Covers(q.vmas[i], a) {
    }
  }

  /** Replacing one process's record, with its pages in order. */
  lemma ProcChangeInv(sys: Sys, s: St, p: Pid, q': Proc)
    requires Inv(sys) && p in sys.procs && Core(s, {}) && ProcOk(q')
    requires OnlyTables(sys.st, s, p)
    requires forall k :: k in s.pte ==>
               if k.0 == p then PageOk(q', k.1, s.pte[k]) else k in sys.st.pte && s.pte[k] == sys.st.pte[k]
    ensures Inv(Sys(s, sys.procs[p := q']))
  {
    hide Core, ProcOk, PageOk;
    var sys' := Sys(s, sys.procs[p := q']);
    OwnersGrow(sys, s, p);
    forall k | k in s.pte ensures k.0 in sys'.procs && PageOk(sys'.procs[k.0], k.1, s.pte[k]) {
      if k.0 != p { PageOkAt(sys, k); }
    }
  }

  /** mmap reserves a page-aligned range above everything the process has. */
  lemma MmapProcOk(q: Proc, n: int)
    requires ProcOk(q)
    ensures ProcOk(MmapProc(q, n).0)
    ensures forall v: nat, e: Pte :: PageOk(q, v, e) ==> PageOk(MmapProc(q, n).0, v, e)
    ensures MmapProc(q, n).1 != -1 ==>
              && MmapProc(q, n).1 == RoundUp(q.sz) && MmapProc(q, n).0.sz == RoundUp(q.sz) + RoundUp(n)
              && forall a: nat :: RoundUp(q.sz) <= a < RoundUp(q.sz) + RoundUp(n) ==> VmaFind(MmapProc(q, n).0, a).Some?
  {
    var (q', r) := MmapProc(q, n);
    if q' != q {
      var i := FreeSlotFrom(q.vmas, 0).value;
      assert ProcOk(q') by {
        forall j, k | 0 <= j < k < MAX_VMAS && q'.vmas[j].used && q'.vmas[k].used
          ensures Apart(q'.vmas[j], q'.vmas[k]) {
          assert j != i && k != i ==> Apart(q.vmas[j], q.vmas[k]);
        }
      }
      forall v: nat, e: Pte | PageOk(q, v, e) ensures PageOk(q', v, e) {
        MayWriteElsewhere(q, q', i, v * PGSIZE);
      }
      forall a: nat | RoundUp(q.sz) <= a < RoundUp(q.sz) + RoundUp(n) ensures VmaFind(q', a).Some? {
        FindIs(q', i, a);
      }
    }
  }

  lemma MmapRefines(sys: Sys, op: Op)
    requires Inv(sys) && Enabled(sys.procs, op) && op.Mmap?
    ensures Refines(sys, op)
  {
    hide Core, UserMem, ProcOk, PageOk, MmapProc;
    InvFramed(sys);
    var p, q := op.p, sys.procs[op.p];
    MmapProcOk(q, op.n);
    OnlyTablesTrans(sys.st, sys.st, sys.st, p);
    forall k | k in sys.st.pte && k.0 == p ensures PageOk(MmapProc(q, op.n).0, k.1, sys.st.pte[k]) {
      PageOkAt(sys, k);
    }
    ProcChangeInv(sys, sys.st, p, MmapProc(q, op.n).0);
  }

  lemma MunmapRefines(sys: Sys, op: Op)
    requires Inv(sys) && Enabled(sys.procs, op) && op.Munmap?
    ensures Refines(sys, op)
  {
    hide Core, UserMem, ProcsOk, OwnersOk, UnmapRange, ExactSlot, FindFrom, OnlyTables;
    InvFramed(sys);
    var p, q := op.p, sys.procs[op.p];
    var r := ExactSlot(q, op.va, op.n);
    if r.Some? {
      var v := q.vmas[r.value];
      var lo, hi := v.start / PGSIZE, (v.start + v.length) / PGSIZE;
      UnmapRangeKeeps(sys.st, {}, p, lo, hi);
      var s := UnmapRange(sys.st, p, lo, hi);
      ProcOkAt(sys, p);
      OnlyTablesTrans(sys.st, sys.st, s, p);
      forall k | k in s.pte && k.0 == p ensures PageOk(Forgotten(q, r.value), k.1, s.pte[k]) {
        PageOkAt(sys, k);
        assert !Within(k, p, lo, hi);
        CoversPage(v, k.1 * PGSIZE);
        MayWriteElsewhere(q, Forgotten(q, r.value), r.value, k.1 * PGSIZE);
      }
      ForgottenOk(q, r.value);
      ProcChangeInv(sys, s, p, Forgotten(q, r.value));
    }
  }

  lemma ProcOkAt(sys: Sys, p: Pid)
    requires Inv(sys) && p in sys.procs
    ensures ProcOk(sys.procs[p])
  {
  }

  lemma ForgottenOk(q: Proc, i: nat)
    requires ProcOk(q) && i < MAX_VMAS
    ensures ProcOk(Forgotten(q, i))
  {
  }

  lemma ReprotectedOk(q: Proc, i: nat, write: bool)
    requires ProcOk(q) && i < MAX_VMAS
    ensures ProcOk(Reprotected(q, i, write))
  {
    var q' := Reprotected(q, i, write);
    forall j, k | 0 <= j < k < MAX_VMAS && q'.vmas[j].used && q'.vmas[k].used
      ensures Apart(q'.vmas[j], q'.vmas[k])
    {
      assert Apart(q.vmas[j], q.vmas[k]);
    }
  }

  /** After mprotect the process may write a page of the mapping exactly when it asked to. */
  lemma ReprotectedMayWrite(q: Proc, i: nat, write: bool, a: nat)
    requires ProcOk(q) && i < MAX_VMAS && q.vmas[i].used
    ensures MayWrite(Reprotected(q, i, write), a) == if Covers(q.vmas[i], a) then write else MayWrite(q, a)
  {
    var q' := Reprotected(q, i, write);
    ReprotectedOk(q, i, write);
    if Covers(q.vmas[i], a) {
      assert Covers(q'.vmas[i], a);
      FindIs(q', i, a);
    } else {
      MayWriteElsewhere(q, q', i, a);
    }
  }

  lemma MprotectRefines(sys: Sys, op: Op)
    requires Inv(sys) && Enabled(sys.procs, op) && op.Mprotect?
    ensures Refines(sys, op)
  {
    hide Core, UserMem, ProcsOk, OwnersOk, ProtectRange, ExactSlot, MayWrite;
    InvFramed(sys);
    var p, q := op.p, sys.procs[op.p];
    var r, write := ExactSlot(q, op.va, op.n), op.prot == PROT_READ + PROT_WRITE;
    if r.Some? && (op.prot == PROT_READ || write) {
      var v := q.vmas[r.value];
      var lo, hi := v.start / PGSIZE, (v.start + v.length) / PGSIZE;
      ProtectRangeKeeps(sys.st, p, lo, hi, write);
      var s := ProtectRange(sys.st, p, lo, hi, write);
      ProcOkAt(sys, p);
      OnlyTablesTrans(sys.st, sys.st, s, p);
      forall k | k in s.pte && k.0 == p ensures PageOk(Reprotected(q, r.value, write), k.1, s.pte[k]) {
        PageOkAt(sys, k);
        CoversPage(v, k.1 * PGSIZE);
        ReprotectedMayWrite(q, r.value, write, k.1 * PGSIZE);
      }
      ReprotectedOk(q, r.value, write);
      ProcChangeInv(sys, s, p, Reprotected(q, r.value, write));
    }
  }

  /** Pages added above the old size are ordinary writable memory. */
  lemma GrownPagesOk(sys: Sys, s: St, p: Pid, q': Proc, lo: nat, hi: nat)
    requires Inv(sys) && p in sys.procs && sys.procs[p].vmas == q'.vmas && sys.procs[p].sz <= q'.sz
    requires PteGrows(sys.st.pte, s.pte, p, lo, hi) && lo == PagesFor(sys.procs[p].sz) && hi == PagesFor(q'.sz)
    ensures forall k :: k in s.pte ==>
              if k.0 == p then PageOk(q', k.1, s.pte[k]) else k in sys.st.pte && s.pte[k] == sys.st.pte[k]
  {
    hide Core, FindFrom;
    ProcOkAt(sys, p);
    forall k | k in s.pte && k.0 == p ensures PageOk(q', k.1, s.pte[k]) {
      if k in sys.st.pte { PageOkAt(sys, k); } else { FindNoneAbove(sys.procs[p], k.1 * PGSIZE); }
    }
  }

  /** With nothing mapped in the range, growing cannot panic. */
  lemma GrowIsAlloc(st: St, p: Pid, lo: nat, hi: nat)
    requires lo <= hi && forall k :: k in st.pte ==> !Within(k, p, lo, hi)
    ensures GrowUvm(st, p, lo, hi) == (var (s, ok) := AllocUvm(st, p, lo, hi); (s, if ok then Grown else NoMemoryLeft))
  {
    hide AllocRange, Undone, FirstResident;
  }

  lemma GrowRefines(sys: Sys, op: Op)
    requires Inv(sys) && Enabled(sys.procs, op) && op.Sbrk? && op.n > 0
    ensures Refines(sys, op)
  {
    hide Core, UserMem, ProcsOk, OwnersOk, PagesOk, AllocUvm, GrowUvm, Zeroed, PageOk, PteGrows, OnlyTables;
    InvFramed(sys);
    var p, q := op.p, sys.procs[op.p];
    ProcOkAt(sys, p);
    if q.sz + op.n < KERNBASE {
      var lo, hi := PagesFor(q.sz), PagesFor(q.sz + op.n);
      BelowSz(sys, p);
      SameKeys(sys.st);
      PagesMono(q.sz, q.sz + op.n);
      AllocUvmKeeps(sys.st, p, lo, hi);
      GrowIsAlloc(sys.st, p, lo, hi);
      var (s, ok) := AllocUvm(sys.st, p, lo, hi);
      var q' := if ok then Resized(q, op.n) else q;
      if ok {
        GrownPagesOk(sys, s, p, q', lo, hi);
      } else {
        PteGrowsRefl(sys.st.pte, p, lo, lo);
        GrownPagesOk(sys, s, p, q', lo, lo);
      }
      ProcChangeInv(sys, s, p, q');
      assert !ok ==> sys.procs[p := q'] == sys.procs;
    }
  }

  lemma ShrinkRefines(sys: Sys, op: Op)
    requires Inv(sys) && Enabled(sys.procs, op) && op.Sbrk? && op.n <= 0 && !CutsMapping(sys.procs[op.p], op.n)
    ensures Refines(sys, op)
  {
    hide Core, UserMem, ProcsOk, OwnersOk, UnmapRange, FindFrom, Without;
    InvFramed(sys);
    var p, q := op.p, sys.procs[op.p];
    ProcOkAt(sys, p);
    if op.n < 0 && q.sz + op.n >= 0 {
      var sz' := q.sz + op.n;
      var lo, hi := PagesFor(sz'), PagesFor(q.sz);
      UnmapRangeKeeps(sys.st, {}, p, lo, hi);
      var s := UnmapRange(sys.st, p, lo, hi);
      var q' := if sz' == 0 then q else Resized(q, op.n);
      OnlyTablesTrans(sys.st, sys.st, s, p);
      WithoutOnly(sys.st.pte, p, lo, hi);
      forall k | k in s.pte && k.0 == p ensures PageOk(q', k.1, s.pte[k]) {
        PageOkAt(sys, k);
      }
      ProcChangeInv(sys, s, p, q');
      assert sz' == 0 ==> sys.procs[p := q'] == sys.procs;
    }
  }

  lemma WithoutOnly<V>(m: map<Key, V>, p: Pid, lo: nat, hi: nat)
    ensures forall k :: k in Without(m, p, lo, hi) ==>
              k in m && Without(m, p, lo, hi)[k] == m[k] && !Within(k, p, lo, hi)
  {
  }

  lemma UserInitRefines(sys: Sys, op: Op)
    requires Inv(sys) && Enabled(sys.procs, op) && op.UserInit?
    ensures Refines(sys, op)
  {
    hide Core, UserMem, AllocKern, SetupKvm, AllocPage, Store, ProcsOk, OneEntry, PageOk, ProcOk, PagesOk, Splice;
    InvFramed(sys);
    var st, p, k := sys.st, op.p, (op.p, 0);
    NoPagesOf(sys, p);
    AllocKernKeeps(st, {}, KStack(p));
    var (s1, ok1) := AllocKern(st, KStack(p));
    if ok1 {
      assert NoSpace(s1, p);
      SetupKvmKeeps(s1, p);
      var (s2, ok2) := SetupKvm(s1, p);
      if ok2 {
        assert k !in s2.pte;
        AllocPageKeeps(s2, {}, k, true);
        var (s3, r) := AllocPage(s2, k, true);
        if r.Mapped? {
          EntryPresent(s2, s3, k);
          StoreKeeps(s3, k, 0, op.image);
          MemEntry(s3, k);
          SpliceAll(UserMem(s3)[k].data, op.image);
          PutTwice(UserMem(st), k, UPage(Filled(0), true), UPage(op.image, true));
          var s4 := Store(s3, k, 0, op.image);
          InitProcOk(s3.pte[k]);
          SpawnInv(sys, s4, p);
        }
      }
    }
  }

  lemma NoPagesOf(sys: Sys, p: Pid)
    requires Inv(sys) && p !in sys.procs
    ensures NoSpace(sys.st, p) && KStack(p) !in sys.st.kern
  {
  }

  lemma PutTwice(m: UMem, k: Key, a: UPage, b: UPage)
    ensures m[k := a][k := b] == m[k := b]
  {
  }

  lemma SpliceAll(pg: Page, image: Page)
    ensures Splice(pg, 0, image) == image
  {
  }

  lemma InitProcOk(e: Pte)
    requires e.w
    ensures ProcOk(InitProc()) && PageOk(InitProc(), 0, e)
  {
    assert VmaFind(InitProc(), 0) == None;
  }

  lemma SpawnInv(sys: Sys, s: St, p: Pid)
    requires Inv(sys) && p !in sys.procs && Core(s, {}) && OneEntry(sys.st.pte, s.pte, (p, 0))
    requires ProcOk(InitProc()) && PageOk(InitProc(), 0, s.pte[(p, 0)])
    requires Dir(p) in s.kern && KStack(p) in s.kern
    requires forall t :: t in sys.st.kern ==> t in s.kern
    requires forall t :: t in s.kern ==> t in sys.st.kern || For(t, p)
    ensures Inv(Sys(s, sys.procs[p := InitProc()]))
  {
    hide Core, ProcOk, PageOk;
    forall k | k in s.pte && k != (p, 0) ensures k.0 in sys.procs && PageOk(sys.procs[k.0], k.1, s.pte[k]) {
      PageOkAt(sys, k);
    }
  }

  // ---- the main theorems ----

  /** The operation is an sbrk that cuts an active mapping. */
  predicate Cuts(procs: map<Pid, Proc>, op: Op) {
    op.Sbrk? && op.p in procs && CutsMapping(procs[op.p], op.n)
  }

  /** No operation of the run cuts an active mapping of its process. */
  predicate Uncut(sys: Sys, ops: seq<Op>)
    decreases |ops|
  {
    ops == [] || (!Cuts(sys.procs, ops[0]) && Uncut(Step(sys, ops[0]).0, ops[1..]))
  }

  lemma StepRefines(sys: Sys, op: Op)
    requires Inv(sys) && !Cuts(sys.procs, op)
    ensures Refines(sys, op)
  {
    hide Inv, UserMem;
    InvFramed(sys);
    if Enabled(sys.procs, op) {
      match op {
        case UserInit(_, _) => UserInitRefines(sys, op);
        case Fork(_, _) => ForkRefines(sys, op);
        case Load(_, _) => LoadRefines(sys, op);
        case StoreTo(_, _, _) => StoreToRefines(sys, op);
        case KernelWrite(_, _, _) => KernelWriteRefines(sys, op);
        case Mmap(_, _) => MmapRefines(sys, op);
        case Munmap(_, _, _) => MunmapRefines(sys, op);
        case Mprotect(_, _, _, _) => MprotectRefines(sys, op);
        case Sbrk(_, n) => if n > 0 { GrowRefines(sys, op); } else { ShrinkRefines(sys, op); }
        case Exit(_) => ExitRefines(sys, op);
        case Reap(_) => ReapRefines(sys, op);
      }
    }
  }

  function NoMemoryAt(os: seq<Outcome>): seq<bool> {
    seq(|os|, i requires 0 <= i < |os| => os[i] == OutOfMemory)
  }

  /** Copy-on-write refines eager copying: over any run, every process gets exactly the
      results, the bytes and the kills it would get from a kernel whose fork copies every
      resident page, given only which steps ran out of memory. */
  lemma {:induction false} CowRefinesEager(sys: Sys, ops: seq<Op>)
    requires Inv(sys) && Uncut(sys, ops)
    ensures var (s, os) := Run(sys, ops);
            && Inv(s) && Framed(sys.st) && Framed(s.st) && |os| == |ops|
            && EagerRun(Abs(sys), ops, NoMemoryAt(os)) == (Abs(s), os)
    decreases |ops|
  {
    hide Inv, Abs, Step, EagerStep;
    InvFramed(sys);
    if ops != [] {
      StepRefines(sys, ops[0]);
      var (s, o) := Step(sys, ops[0]);
      CowRefinesEager(s, ops[1..]);
      var (s', os) := Run(s, ops[1..]);
      assert NoMemoryAt([o] + os)[1..] == NoMemoryAt(os);
    }
  }
}
