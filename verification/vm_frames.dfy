/** Exactly how many free frames each operation needs: it runs out of memory if and only if fewer
    are free (kalloc.c, vm.c). */
module VmFrames {
  import opened Mmu
  import opened Frames
  import opened VmState
  import opened VmPrims
  import opened VmRanges
  import opened VmSystem
  import opened VmRefine
  import opened VmSound
  import opened VmSupply

  // ---- page tables ----

  /** The page table of slot d is still to be allocated. */
  function Missing(st: St, p: Pid, d: nat): nat {
    if Table(p, d) in st.kern then 0 else 1
  }

  /** One more page table of p at most, and no page. */
  ghost predicate AddsTable(st: St, t: St, p: Pid, d: nat) {
    && (forall s :: s in t.kern <==> s in st.kern || s == Table(p, d))
    && t.pte == st.pte
  }

  lemma WalkNeeds(st: St, p: Pid, d: nat)
    requires FreeOk(st)
    ensures var (t, ok) := Walk(st, p, d);
            && FreeOk(t) && (ok <==> Supply(st) >= Missing(st, p, d))
            && (ok ==> Supply(t) == Supply(st) - Missing(st, p, d) && AddsTable(st, t, p, d))
  {
    AllocKernSupply(st, Table(p, d));
  }

  lemma AllocPageNeeds(st: St, k: Key, w: bool)
    requires FreeOk(st)
    ensures var (t, r) := AllocPage(st, k, w);
            var d := k.1 / NPTENTRIES;
            && FreeOk(t) && (r.Mapped? <==> Supply(st) >= 1 + Missing(st, k.0, d))
            && (r.Mapped? ==> Supply(t) == Supply(st) - 1 - Missing(st, k.0, d)
                              && forall s :: s in t.kern <==> s in st.kern || s == Table(k.0, d))
  {
    hide Walk;
    match Kalloc(st.m) {
      case (_, None) =>
      case (m, Some(f)) => WalkNeeds(st.(m := Fill(m, f, Filled(0))), k.0, k.1 / NPTENTRIES);
    }
  }

  // ---- growing ----

  /** The page tables that pages lo..hi of p still lack. */
  function NewTables(kern: map<KSite, nat>, p: Pid, lo: nat, hi: nat): set<nat> {
    set v: nat | lo <= v < hi && Table(p, v / NPTENTRIES) !in kern :: v / NPTENTRIES
  }

  lemma NewTablesStep(kern: map<KSite, nat>, p: Pid, lo: nat, hi: nat)
    requires lo < hi
    ensures var d, before := (hi - 1) / NPTENTRIES, NewTables(kern, p, lo, hi - 1);
            && NewTables(kern, p, lo, hi) == before + (if Table(p, d) in kern then {} else {d})
            && |NewTables(kern, p, lo, hi)| == |before| + if Table(p, d) in kern || d in before then 0 else 1
  {
    var d, before := (hi - 1) / NPTENTRIES, NewTables(kern, p, lo, hi - 1);
    assert NewTables(kern, p, lo, hi) == before + (if Table(p, d) in kern then {} else {d});
    assert Table(p, d) in kern || d in before ==> NewTables(kern, p, lo, hi) == before;
  }

  lemma {:induction false} AllocRangeNeeds(st: St, p: Pid, lo: nat, hi: nat)
    requires FreeOk(st) && lo <= hi
    ensures var (t, r) := AllocRange(st, p, lo, hi);
            var need := hi - lo + |NewTables(st.kern, p, lo, hi)|;
            && FreeOk(t) && (r.Mapped? <==> Supply(st) >= need)
            && (r.Mapped? ==> Supply(t) == Supply(st) - need
                              && forall d :: Table(p, d) in t.kern <==>
                                   Table(p, d) in st.kern || d in NewTables(st.kern, p, lo, hi))
  {
    hide AllocPage, NewTables, FreeOk;
    if lo == hi {
      assert NewTables(st.kern, p, lo, hi) == {} by { NoNewTables(st.kern, p, lo); }
    } else {
      AllocRangeNeeds(st, p, lo, hi - 1);
      NewTablesStep(st.kern, p, lo, hi);
      AllocPageNeeds(AllocRange(st, p, lo, hi - 1).0, (p, hi - 1), true);
    }
  }

  lemma NoNewTables(kern: map<KSite, nat>, p: Pid, lo: nat)
    ensures NewTables(kern, p, lo, lo) == {}
  {
  }

  /** Frames to grow from page lo to page hi: one for each page and each missing table, up to a page
      that is in the way, for which allocuvm still asks for one. */
  function GrowNeed(st: St, p: Pid, lo: nat, hi: nat): nat
    requires lo <= hi
  {
    var v := FirstResident(st.pte, p, lo, hi);
    v - lo + |NewTables(st.kern, p, lo, v)| + if v < hi then 1 else 0
  }

  lemma GrowNeeds(st: St, p: Pid, lo: nat, hi: nat)
    requires FreeOk(st) && lo <= hi
    ensures var r := GrowUvm(st, p, lo, hi).1;
            && (r.NoMemoryLeft? <==> Supply(st) < GrowNeed(st, p, lo, hi))
            && (r.Remap? <==> Supply(st) >= GrowNeed(st, p, lo, hi) && exists v :: lo <= v < hi && (p, v) in st.pte)
  {
    hide AllocRange, Undone, FirstResident, NewTables;
    var v := FirstResident(st.pte, p, lo, hi);
    AllocRangeNeeds(st, p, lo, v);
    assert v < hi ==> (p, v) in st.pte;
  }

  // ---- a new address space ----

  lemma {:induction false} KvmTablesNeeds(st: St, p: Pid, n: nat)
    requires FreeOk(st) && n <= KVM_TABLES && forall d :: Table(p, d) !in st.kern
    ensures var (t, ok) := KvmTables(st, p, n);
            && FreeOk(t) && (ok <==> Supply(st) >= n)
            && (ok ==> Supply(t) == Supply(st) - n && t.pte == st.pte
                       && (forall i :: n <= i < KVM_TABLES ==> Table(p, KvmSlot(i)) !in t.kern)
                       && forall d :: d < 512 ==> Table(p, d) !in t.kern)
  {
    hide Walk, FreeOk;
    if n > 0 {
      KvmTablesNeeds(st, p, n - 1);
      WalkNeeds(KvmTables(st, p, n - 1).0, p, KvmSlot(n - 1));
    }
  }

  lemma SetupKvmNeeds(st: St, p: Pid)
    requires FreeOk(st) && forall d :: Table(p, d) !in st.kern
    ensures var (t, ok) := SetupKvm(st, p);
            && (ok <==> Supply(st) >= KVM_TABLES + 1)
            && (ok ==> FreeOk(t) && Supply(t) == Supply(st) - KVM_TABLES - 1 && t.pte == st.pte
                       && forall d :: d < 512 ==> Table(p, d) !in t.kern)
  {
    hide KvmTables, FreeVm, FreeOk;
    AllocKernSupply(st, Dir(p));
    if AllocKern(st, Dir(p)).1 {
      KvmTablesNeeds(AllocKern(st, Dir(p)).0, p, KVM_TABLES);
    }
  }

  /** The page tables of the first n pages of p. */
  function TablesOf(pte: map<Key, Pte>, p: Pid, n: nat): set<nat> {
    set v: nat | v < n && (p, v) in pte :: v / NPTENTRIES
  }

  lemma TablesOfStep(pte: map<Key, Pte>, p: Pid, n: nat)
    requires n > 0
    ensures TablesOf(pte, p, n) == TablesOf(pte, p, n - 1) + if (p, n - 1) in pte then {(n - 1) / NPTENTRIES} else {}
  {
  }

  lemma {:induction false} CopyRangeNeeds(st: St, parent: Pid, child: Pid, n: nat)
    requires FreeOk(st) && parent != child && n <= USERPAGES && forall d :: d < 512 ==> Table(child, d) !in st.kern
    ensures var (t, ok) := CopyRange(st, parent, child, n);
            var need := |TablesOf(st.pte, parent, n)|;
            && FreeOk(t) && (ok <==> Supply(st) >= need)
            && (ok ==> Supply(t) == Supply(st) - need
                       && (forall v: nat :: (parent, v) in t.pte <==> (parent, v) in st.pte)
                       && forall d :: d < 512 ==> (Table(child, d) in t.kern <==> d in TablesOf(st.pte, parent, n)))
  {
    hide ShareOne, FreeOk, TablesOf;
    if n == 0 {
      assert TablesOf(st.pte, parent, n) == {} by { NoTables(st.pte, parent); }
    } else {
      CopyRangeNeeds(st, parent, child, n - 1);
      TablesOfStep(st.pte, parent, n);
      ShareOneNeeds(CopyRange(st, parent, child, n - 1).0, parent, child, n - 1);
    }
  }

  lemma NoTables(pte: map<Key, Pte>, p: Pid)
    ensures TablesOf(pte, p, 0) == {}
  {
  }

  lemma ShareOneNeeds(st: St, parent: Pid, child: Pid, v: nat)
    requires FreeOk(st) && parent != child
    ensures var (t, ok) := ShareOne(st, parent, child, v);
            var need := if (parent, v) in st.pte then Missing(st, child, v / NPTENTRIES) else 0;
            && FreeOk(t) && (ok <==> Supply(st) >= need)
            && (ok ==> Supply(t) == Supply(st) - need
                       && (forall u: nat :: (parent, u) in t.pte <==> (parent, u) in st.pte)
                       && forall s :: s in t.kern <==>
                            s in st.kern || ((parent, v) in st.pte && s == Table(child, v / NPTENTRIES)))
  {
    hide Walk;
    if (parent, v) in st.pte {
      WalkNeeds(st.(pte := st.pte[(parent, v) := CowFlags(st.pte[(parent, v)])]), child, v / NPTENTRIES);
    }
  }

  lemma ForkNeeds(st: St, p: Pid, child: Pid, n: nat)
    requires FreeOk(st) && p != child && n <= USERPAGES && forall d :: Table(child, d) !in st.kern
    ensures ForkSt(st, p, child, n).1 <==> Supply(st) >= KVM_TABLES + 2 + |TablesOf(st.pte, p, n)|
  {
    hide SetupKvm, CopyRange, FreeVm, FreeKern, FreeOk, TablesOf;
    AllocKernSupply(st, KStack(child));
    var s := AllocKern(st, KStack(child)).0;
    if AllocKern(st, KStack(child)).1 {
      SetupKvmNeeds(s, child);
      if SetupKvm(s, child).1 {
        CopyRangeNeeds(SetupKvm(s, child).0, p, child, n);
      }
    }
  }

  lemma UserInitNeeds(st: St, p: Pid, image: Page)
    requires FreeOk(st) && forall d :: Table(p, d) !in st.kern
    ensures UserInitSt(st, p, image).1 <==> Supply(st) >= KVM_TABLES + 4
  {
    hide SetupKvm, AllocPage, Splice, FreeOk;
    AllocKernSupply(st, KStack(p));
    var s1 := AllocKern(st, KStack(p)).0;
    if AllocKern(st, KStack(p)).1 {
      SetupKvmNeeds(s1, p);
      if SetupKvm(s1, p).1 {
        AllocPageNeeds(SetupKvm(s1, p).0, (p, 0), true);
      }
    }
  }

  // ---- accesses ----

  /** Frames that a load, a store or a copyout at va asks for: one to copy a shared page, one for an
      untouched page of a mapping and one for its table if that is missing. */
  function AccessNeed(sys: Sys, p: Pid, va: nat, write: bool): nat
    requires p in sys.procs
  {
    var k, st := (p, va / PGSIZE), sys.st;
    if write && !MayWrite(sys.procs[p], va) then 0
    else if k in st.pte then
      if write && st.pte[k].cow && st.pte[k].frame < |st.m.refcnt| && st.m.refcnt[st.pte[k].frame] != 1 then 1 else 0
    else if VmaFind(sys.procs[p], va).Some? then 1 + Missing(st, p, k.1 / NPTENTRIES)
    else 0
  }

  lemma TrapNeeds(sys: Sys, p: Pid, va: nat, write: bool)
    requires Sound(sys) && p in sys.procs && !HwAllows(sys.st, (p, va / PGSIZE), write)
    ensures Trap(sys.st, sys.procs[p], p, va, FaultCode((p, va / PGSIZE) in sys.st.pte, write)).1 == KillNoMemory <==>
              Supply(sys.st) < AccessNeed(sys, p, va, write)
  {
    hide Core, AllocPage, FindFrom, RecordsOk, OwnersOk;
    CoreFreeOk(sys.st, {});
    CoreHasKmem(sys.st, {});
    var q, k := sys.procs[p], (p, va / PGSIZE);
    AllocPageNeeds(sys.st, k, VmaFind(q, va).Some? && q.vmas[VmaFind(q, va).value].write);
    if k in sys.st.pte {
      EntryOk(sys.st, {}, k);
    }
  }

  lemma AccessNeeds(sys: Sys, p: Pid, va: nat, write: bool)
    requires Sound(sys) && p in sys.procs
    ensures UserAccess(sys.st, sys.procs[p], p, va, write, 2).1 == DiesNoMemory <==>
              Supply(sys.st) < AccessNeed(sys, p, va, write)
  {
    hide Core, Trap, RecordOk, Touched, OwnersOk, PidsOk;
    var st, q, k := sys.st, sys.procs[p], (p, va / PGSIZE);
    if HwAllows(st, k, write) {
      EntryOk(st, {}, k);
    } else {
      TrapNeeds(sys, p, va, write);
      var (s, r) := Trap(st, q, p, va, FaultCode(k in st.pte, write));
      if r == Retry {
        TrapTouches(st, q, p, va, write);
        if !HwAllows(s, k, write) {
          SecondKills(s, q, p, va, write);
        }
      }
    }
  }

  lemma CopyoutNeeds(sys: Sys, p: Pid, va: nat)
    requires Sound(sys) && p in sys.procs
    ensures CopyoutPage(sys.st, sys.procs[p], p, va).1 == DiesNoMemory <==>
              Supply(sys.st) < AccessNeed(sys, p, va, true)
  {
    hide Core, AllocPage, FindFrom, UserMem, OwnersOk;
    var st, q, k := sys.st, sys.procs[p], (p, va / PGSIZE);
    assert RecordOk(q);
    SamePage(q, va, 0);
    CoreFreeOk(st, {});
    CoreHasKmem(st, {});
    AllocPageNeeds(st, k, true);
    if k in st.pte {
      EntryOk(st, {}, k);
    } else if VmaFind(q, va).Some? {
      CoveredPage(q, va / PGSIZE * PGSIZE);
      AllocPageKeeps(st, {}, k, true);
    }
  }

  // ---- every operation ----

  /** The frames that an operation needs. */
  function Need(sys: Sys, op: Op): nat
    requires Enabled(sys.procs, op)
  {
    match op
    case UserInit(_, _) => KVM_TABLES + 4
    case Fork(p, _) => KVM_TABLES + 2 + |TablesOf(sys.st.pte, p, PagesFor(sys.procs[p].sz))|
    case Load(p, va) => AccessNeed(sys, p, va, false)
    case StoreTo(p, va, _) => AccessNeed(sys, p, va, true)
    case KernelWrite(p, va, _) => AccessNeed(sys, p, va, true)
    case Sbrk(p, n) =>
      var sz := sys.procs[p].sz;
      if n > 0 && sz + n < KERNBASE then
        PagesMono(sz, sz + n);
        GrowNeed(sys.st, p, PagesFor(sz), PagesFor(sz + n))
      else 0
    case _ => 0
  }

  /** In every sound state an operation runs out of memory exactly when fewer frames are free than
      it needs. */
  lemma OutOfMemoryIff(sys: Sys, op: Op)
    requires Sound(sys) && Enabled(sys.procs, op)
    ensures Step(sys, op).1 == OutOfMemory <==> Supply(sys.st) < Need(sys, op)
  {
    hide Core, RecordOk, UserAccess, CopyoutPage, GrowUvm, ForkSt, UserInitSt, UnmapRange, ProtectRange;
    hide PagesFor, AccessNeed, GrowNeed, TablesOf, OwnersOk, PidsOk, FreeOk;
    CoreFreeOk(sys.st, {});
    match op {
      case Load(p, va) => AccessNeeds(sys, p, va, false);
      case StoreTo(p, va, _) => AccessNeeds(sys, p, va, true);
      case KernelWrite(p, va, _) => CopyoutNeeds(sys, p, va);
      case Sbrk(p, n) =>
        var q := sys.procs[p];
        if n > 0 && q.sz + n < KERNBASE {
          PagesMono(q.sz, q.sz + n);
          GrowNeeds(sys.st, p, PagesFor(q.sz), PagesFor(q.sz + n));
        }
      case Fork(p, child) => ForkExact(sys, p, child);
      case UserInit(p, image) => InitExact(sys, p, image);
      case _ =>
    }
  }

  lemma ForkExact(sys: Sys, p: Pid, child: Pid)
    requires Sound(sys) && p in sys.procs && child !in sys.procs
    ensures ForkSt(sys.st, p, child, PagesFor(sys.procs[p].sz)).1 <==>
              Supply(sys.st) >= KVM_TABLES + 2 + |TablesOf(sys.st.pte, p, PagesFor(sys.procs[p].sz))|
  {
    hide Core, ForkSt, TablesOf, FreeOk;
    CoreFreeOk(sys.st, {});
    NoSpaceOf(sys, child);
    assert RecordOk(sys.procs[p]);
    PagesMono(sys.procs[p].sz, KERNBASE);
    ForkNeeds(sys.st, p, child, PagesFor(sys.procs[p].sz));
  }

  lemma InitExact(sys: Sys, p: Pid, image: Page)
    requires Sound(sys) && p !in sys.procs
    ensures UserInitSt(sys.st, p, image).1 <==> Supply(sys.st) >= KVM_TABLES + 4
  {
    hide Core, UserInitSt, FreeOk;
    CoreFreeOk(sys.st, {});
    NoSpaceOf(sys, p);
    UserInitNeeds(sys.st, p, image);
  }

  /** mappages panics in sbrk exactly when a page of the new range is mapped already and the frames
      up to it, and one for it, are free. */
  lemma SbrkPanicsIff(sys: Sys, p: Pid, n: int)
    requires Sound(sys) && Enabled(sys.procs, Sbrk(p, n))
    ensures var sz := sys.procs[p].sz;
            Step(sys, Sbrk(p, n)).1 == Panic <==>
              && n > 0 && sz + n < KERNBASE && Supply(sys.st) >= Need(sys, Sbrk(p, n))
              && exists v :: PagesFor(sz) <= v < PagesFor(sz + n) && (p, v) in sys.st.pte
  {
    hide Core, RecordOk, GrowUvm, UnmapRange, PagesFor, GrowNeed, OwnersOk, PidsOk, FreeOk;
    CoreFreeOk(sys.st, {});
    var q := sys.procs[p];
    if n > 0 && q.sz + n < KERNBASE {
      PagesMono(q.sz, q.sz + n);
      GrowNeeds(sys.st, p, PagesFor(q.sz), PagesFor(q.sz + n));
    }
  }
}
