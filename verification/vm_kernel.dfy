/** The loops of vm.c, sysproc.c and proc.c in place, each against its specification. */
module VmKernel {
  import opened Prelude
  import opened Mmu
  import opened Frames
  import opened VmState
  import opened VmPrims
  import opened VmRanges
  import opened VmSystem

  /** Page number of PGADDR(PDX(a) + 1, 0, 0) - PGSIZE, for page v of address a. */
  function LastPageOfSlot(v: nat): (r: nat)
    ensures v <= r && r / NPTENTRIES == v / NPTENTRIES && (r + 1) % NPTENTRIES == 0
  {
    (v / NPTENTRIES + 1) * NPTENTRIES - 1
  }

  class Kernel {
    const kmem: Kmem
    var pte: map<Key, Pte>
    var kern: map<KSite, nat>

    ghost function Value(): St
      reads this, kmem, kmem.refcnt
    {
      St(kmem.Value(), pte, kern)
    }

    constructor (kmem: Kmem)
      ensures this.kmem == kmem && Value() == St(kmem.Value(), map[], map[])
    {
      this.kmem := kmem;
      pte := map[];
      kern := map[];
    }

    /** walkpgdir with alloc set. */
    method WalkAlloc(p: Pid, d: nat, ghost held: set<nat>) returns (ok: bool)
      requires Core(Value(), held)
      modifies this, kmem, kmem.refcnt
      ensures (Value(), ok) == Walk(old(Value()), p, d)
    {
      if Table(p, d) in kern {
        return true;
      }
      KallocKeepsInv(kmem.Value());
      var r := kmem.KallocFrame();
      if r.None? {
        return false;
      }
      kmem.FillFrame(r.value, Filled(0));
      kern := kern[Table(p, d) := r.value];
      return true;
    }

    /** mappages for one page; remapping a present page would panic. */
    method MapOne(k: Key, e: Pte, ghost held: set<nat>) returns (ok: bool)
      requires Core(Value(), held) && k !in pte
      modifies this, kmem, kmem.refcnt
      ensures (Value(), ok) == MapPage(old(Value()), k, e)
    {
      ok := WalkAlloc(k.0, k.1 / NPTENTRIES, held);
      if ok {
        pte := pte[k := e];
      }
    }

    /** kalloc, memset, mappages: the body of allocuvm's loop and of vm_alloc_mmap_page. */
    method AllocOne(k: Key, w: bool) returns (r: AllocResult)
      requires Core(Value(), {}) && k !in pte
      modifies this, kmem, kmem.refcnt
      ensures (Value(), r) == AllocPage(old(Value()), k, w)
    {
      KallocKeepsInv(kmem.Value());
      var f := kmem.KallocFrame();
      if f.None? {
        return NoFrame;
      }
      KallocHolds(old(Value()), {}, Filled(0));
      kmem.FillFrame(f.value, Filled(0));
      var ok := MapOne(k, Pte(f.value, w, true, false), {} + {f.value});
      r := if ok then Mapped else NoTable(f.value);
    }

    method VmAllocMmapPage(k: Key, w: bool) returns (ok: bool)
      requires Core(Value(), {}) && k !in pte && k.1 < USERPAGES
      modifies this, kmem, kmem.refcnt
      ensures (Value(), ok) == DemandPage(old(Value()), k, w)
    {
      AllocPageKeeps(Value(), {}, k, w);
      var r := AllocOne(k, w);
      if r.NoTable? {
        HeldIsOwned(Value(), {} + {r.frame}, r.frame);
        kmem.KfreeFrame(r.frame);
      }
      return r.Mapped?;
    }

    /** One step of vm_unmap_range and deallocuvm. */
    method UnmapAt(k: Key, ghost held: set<nat>)
      requires Core(Value(), held)
      modifies this, kmem, kmem.refcnt
      ensures Value() == UnmapOne(old(Value()), k) && Core(Value(), held) && kern == old(kern)
    {
      if k in pte {
        UnmapOneKeeps(Value(), held, k);
        MappedIsOwned(Value(), held, k);
        kmem.KfreeFrame(pte[k].frame);
        pte := pte - {k};
      }
    }

    method VmUnmapRange(p: Pid, start: nat, length: nat)
      requires Core(Value(), {}) && start % PGSIZE == 0 && length % PGSIZE == 0
      modifies this, kmem, kmem.refcnt
      ensures Value() == UnmapRange(old(Value()), p, start / PGSIZE, (start + length) / PGSIZE)
    {
      hide Core, UnmapOne;
      var a := start;
      while a < start + length
        invariant start <= a <= start + length && a % PGSIZE == 0
        invariant Core(Value(), {})
        invariant Value() == UnmapRange(old(Value()), p, start / PGSIZE, a / PGSIZE)
      {
        UnmapAt((p, a / PGSIZE), {});
        a := a + PGSIZE;
      }
    }

    /** One step of vm_protect_range. */
    method ProtectAt(k: Key, write: bool)
      requires Core(Value(), {})
      modifies this
      ensures Value() == ProtectOne(old(Value()), k, write) && Core(Value(), {})
    {
      if k in pte {
        ProtectOneKeeps(Value(), k, write);
        MappedIsOwned(Value(), {}, k);
        var e := pte[k];
        if write {
          if e.cow || kmem.refcnt[e.frame] > 1 {
            pte := pte[k := e.(w := false, cow := true)];
          } else {
            pte := pte[k := e.(w := true)];
          }
        } else {
          pte := pte[k := e.(w := false)];
        }
      }
    }

    method VmProtectRange(p: Pid, start: nat, length: nat, write: bool)
      requires Core(Value(), {}) && start % PGSIZE == 0 && length % PGSIZE == 0
      modifies this
      ensures Value() == ProtectRange(old(Value()), p, start / PGSIZE, (start + length) / PGSIZE, write)
    {
      hide Core, ProtectOne;
      var a := start;
      while a < start + length
        invariant start <= a <= start + length && a % PGSIZE == 0
        invariant Core(Value(), {})
        invariant Value() == ProtectRange(old(Value()), p, start / PGSIZE, a / PGSIZE, write)
      {
        ProtectAt((p, a / PGSIZE), write);
        a := a + PGSIZE;
      }
    }

    method CowFaultAt(k: Key) returns (r: CowResult)
      requires Core(Value(), {})
      modifies this, kmem, kmem.refcnt
      ensures (Value(), r) == CowFault(old(Value()), k)
    {
      if k !in pte || !pte[k].cow {
        return NotCow;
      }
      var e := pte[k];
      MappedIsOwned(Value(), {}, k);
      if kmem.refcnt[e.frame] == 1 {
        pte := pte[k := e.(w := true, cow := false)];
        return Resolved;
      }
      KallocKeepsInv(kmem.Value());
      var f := kmem.KallocFrame();
      if f.None? {
        return NoMemory;
      }
      kmem.FillFrame(f.value, kmem.data[e.frame]);
      pte := pte[k := Pte(f.value, true, e.u, false)];
      kmem.KfreeFrame(e.frame);
      return Resolved;
    }

    /** deallocuvm, skipping to the next directory slot when a page table is missing: it frees
        what a page-by-page scan would. */
    method DeallocUvm(p: Pid, oldsz: nat, newsz: nat, ghost held: set<nat>) returns (sz: nat)
      requires Core(Value(), held) && oldsz <= KERNBASE
      modifies this, kmem, kmem.refcnt
      ensures sz == if newsz >= oldsz then oldsz else newsz
      ensures Value() == UnmapRange(old(Value()), p, PagesFor(newsz), PagesFor(oldsz)) && Core(Value(), held)
    {
      hide Core, UnmapOne, LastPageOfSlot, PagesFor;
      if newsz >= oldsz {
        return oldsz;
      }
      var a := RoundUp(newsz);
      ghost var lo, hi, n := PagesFor(newsz), PagesFor(oldsz), PagesFor(newsz);
      PageIndex(n, oldsz);
      while a < oldsz
        invariant lo <= n && a == n * PGSIZE && (a < oldsz <==> n < hi)
        invariant Core(Value(), held) && kern == old(kern)
        invariant Value() == UnmapRange(old(Value()), p, lo, Min(n, hi))
        decreases oldsz - a
      {
        PageIndex(n, oldsz);
        var v := a / PGSIZE;
        if Table(p, v / NPTENTRIES) !in kern {
          a := LastPageOfSlot(v) * PGSIZE;
          SkipUnmapped(old(Value()), held, p, lo, v, Min(LastPageOfSlot(v) + 1, hi));
          n := LastPageOfSlot(v);
        } else {
          UnmapAt((p, v), held);
        }
        a := a + PGSIZE;
        n := n + 1;
        PageIndex(n, oldsz);
      }
      sz := newsz;
    }

    /** allocuvm; no result means that mappages panics on a page that is already mapped. */
    method AllocUvmTo(p: Pid, oldsz: nat, newsz: nat) returns (sz: Option<nat>)
      requires Core(Value(), {})
      modifies this, kmem, kmem.refcnt
      ensures newsz >= KERNBASE ==> sz == Some(0) && Value() == old(Value())
      ensures newsz < KERNBASE && newsz < oldsz ==> sz == Some(oldsz) && Value() == old(Value())
      ensures oldsz <= newsz < KERNBASE ==>
                && PagesFor(oldsz) <= PagesFor(newsz)
                && var (s, g) := GrowUvm(old(Value()), p, PagesFor(oldsz), PagesFor(newsz));
                   && (g == Remap <==> sz == None)
                   && (g != Remap ==> Value() == s && sz == Some(if g == Grown then newsz else 0))
    {
      hide Core, AllocPage, Undone, OnlyTables, PteGrows, UserMem, Zeroed, FirstResident, PagesFor;
      if newsz >= KERNBASE {
        return Some(0);
      }
      if newsz < oldsz {
        return Some(oldsz);
      }
      PagesMono(oldsz, newsz);
      var a := RoundUp(oldsz);
      ghost var lo, hi, st := PagesFor(oldsz), PagesFor(newsz), Value();
      ghost var v, u := FirstResident(pte, p, lo, hi), lo;
      UserPages(newsz);
      PageIndex(lo, newsz);
      assert forall k :: k in pte ==> !Within(k, p, lo, v);
      assert AllocRange(st, p, lo, lo) == (st, Mapped);
      while a < newsz
        invariant a == u * PGSIZE && (a < newsz <==> u < hi) && lo <= u <= v
        invariant (Value(), Mapped) == AllocRange(st, p, lo, u)
        decreases newsz - a
      {
        PageIndex(u, newsz);
        ghost var j := AllocRangeKeeps(st, p, lo, u);
        GrowsInside(st.pte, pte, p, lo, u, (p, u));
        var r := AllocOrPanic((p, a / PGSIZE));
        if r.None? {
          return None;
        }
        assert u < v ==> (Value(), r.value) == AllocRange(st, p, lo, u + 1);
        if !r.value.Mapped? {
          if u < v { AllocStops(st, p, lo, u + 1, v); }
          UndoAlloc(p, oldsz, newsz, r.value);
          return Some(0);
        }
        a := a + PGSIZE;
        u := u + 1;
        PageIndex(u, newsz);
      }
      sz := Some(newsz);
    }

    /** The body of allocuvm's loop for page k: mappages panics if k is already mapped. */
    method AllocOrPanic(k: Key) returns (r: Option<AllocResult>)
      requires Core(Value(), {}) && k.1 < USERPAGES
      modifies this, kmem, kmem.refcnt
      ensures k in old(pte) ==>
                if Kalloc(old(Value()).m).1.Some? then r == None else r == Some(NoFrame) && Value() == old(Value())
      ensures k !in old(pte) ==> r.Some? && (Value(), r.value) == AllocPage(old(Value()), k, true)
      ensures r.Some? ==> Core(Value(), if r.value.NoTable? then {} + {r.value.frame} else {})
    {
      hide Core, AllocPage, UserMem;
      if k in pte {
        CoreHasKmem(Value(), {});
        KallocKeepsInv(kmem.Value());
        var f := kmem.KallocFrame();
        r := if f.Some? then None else Some(NoFrame);
      } else {
        AllocPageKeeps(Value(), {}, k, true);
        var a := AllocOne(k, true);
        r := Some(a);
      }
    }

    /** The failure paths of allocuvm. */
    method UndoAlloc(p: Pid, oldsz: nat, newsz: nat, r: AllocResult)
      requires Core(Value(), if r.NoTable? then {} + {r.frame} else {}) && newsz <= KERNBASE
      modifies this, kmem, kmem.refcnt
      ensures Value() == Undone(old(Value()), p, PagesFor(oldsz), PagesFor(newsz), r)
    {
      hide Core, UnmapRange;
      ghost var held := if r.NoTable? then {} + {r.frame} else {};
      var _ := DeallocUvm(p, newsz, oldsz, held);
      if r.NoTable? {
        HeldIsOwned(Value(), held, r.frame);
        kmem.KfreeFrame(r.frame);
      }
    }

    method FreeKernAt(s: KSite)
      requires Core(Value(), {})
      requires s.Table? ==> forall k :: k in pte ==> k.0 != s.p
      modifies this, kmem, kmem.refcnt
      ensures Value() == FreeKern(old(Value()), s) && Core(Value(), {}) && pte == old(pte)
    {
      if s in kern {
        FreeKernKeeps(Value(), {}, s);
        HeldIsOwnedKern(Value(), s);
        kmem.KfreeFrame(kern[s]);
        kern := kern - {s};
      }
    }

    method FreeVmOf(p: Pid)
      requires Core(Value(), {})
      modifies this, kmem, kmem.refcnt
      ensures Value() == FreeVm(old(Value()), p) && Core(Value(), {})
    {
      hide Core, UserMem, UnmapRange, FreeKern;
      UnmapRangeKeeps(Value(), {}, p, 0, USERPAGES);
      var _ := DeallocUvm(p, KERNBASE, 0, {});
      ghost var st := Value();
      AllUserPages(old(Value()), {});
      WithoutAll(old(Value()).pte, p);
      var i := 0;
      while i < NPDENTRIES
        invariant i <= NPDENTRIES && Core(Value(), {}) && pte == st.pte
        invariant Value() == FreeTables(st, p, i)
      {
        FreeKernAt(Table(p, i));
        i := i + 1;
      }
      FreeKernAt(Dir(p));
    }

    method SetupKvmFor(p: Pid) returns (ok: bool)
      requires Core(Value(), {}) && NoSpace(Value(), p)
      modifies this, kmem, kmem.refcnt
      ensures (Value(), ok) == SetupKvm(old(Value()), p)
    {
      hide Core, UserMem, Walk, FreeVm, AllocKern, OnlyTables;
      assert VmSite(Dir(p), p);
      AllocKernKeeps(Value(), {}, Dir(p));
      ok := AllocKernFor(Dir(p));
      if !ok {
        return;
      }
      ghost var st := Value();
      var i := 0;
      while i < KVM_TABLES
        invariant i <= KVM_TABLES
        invariant (Value(), true) == KvmTables(st, p, i)
      {
        KvmTablesKeeps(st, p, i);
        ghost var s := Value();
        WalkKeeps(s, {}, p, KvmSlot(i));
        ok := WalkAlloc(p, KvmSlot(i), {});
        assert (Value(), ok) == KvmTables(st, p, i + 1);
        if !ok {
          KvmStops(st, p, i + 1, KVM_TABLES);
          FreeVmOf(p);
          return false;
        }
        i := i + 1;
      }
      ok := true;
    }

    method AllocKernFor(s: KSite) returns (ok: bool)
      requires Core(Value(), {})
      modifies this, kmem, kmem.refcnt
      ensures (Value(), ok) == AllocKern(old(Value()), s)
    {
      KallocKeepsInv(kmem.Value());
      var r := kmem.KallocFrame();
      if r.None? {
        return false;
      }
      if !s.KStack? {
        kmem.FillFrame(r.value, Filled(0));
      }
      kern := kern[s := r.value];
      ok := true;
    }

    /** One iteration of copyuvm's loop. */
    method ShareAt(parent: Pid, child: Pid, v: nat) returns (ok: bool)
      requires Core(Value(), {}) && (child, v) !in pte && parent != child
      modifies this, kmem, kmem.refcnt
      ensures (Value(), ok) == ShareOne(old(Value()), parent, child, v)
    {
      hide Core, UserMem;
      var k := (parent, v);
      if k !in pte {
        return true;
      }
      EntryOk(Value(), {}, k);
      var e := CowFlags(pte[k]);
      SetFlagsKeeps(Value(), {}, k, e);
      pte := pte[k := e];
      ghost var s := Value();
      WalkKeeps(s, {}, child, v / NPTENTRIES);
      MappedIsOwned(Walk(s, child, v / NPTENTRIES).0, {}, k);
      ok := MapOne((child, v), e, {});
      if ok {
        kmem.KrefIncFrame(e.frame);
      }
    }

    method CopyUvmOf(parent: Pid, child: Pid, sz: nat) returns (ok: bool)
      requires Core(Value(), {}) && NoSpace(Value(), child) && parent != child
      modifies this, kmem, kmem.refcnt
      ensures (Value(), ok) == CopyUvm(old(Value()), parent, child, PagesFor(sz))
    {
      hide Core, UserMem, ShareOne, SetupKvm, FreeVm, SharedWith, OnlyTables, Copied;
      SetupKvmKeeps(Value(), child);
      ok := SetupKvmFor(child);
      if !ok {
        return;
      }
      ghost var st, n := Value(), PagesFor(sz);
      var i := 0;
      while i < sz
        invariant i % PGSIZE == 0 && i / PGSIZE <= n
        invariant (Value(), true) == CopyRange(st, parent, child, i / PGSIZE)
      {
        ghost var v := i / PGSIZE;
        ghost var j := CopyRangeKeeps(st, parent, child, v);
        SharedOutside(st.pte, pte, parent, child, v);
        ShareOneKeeps(Value(), parent, child, v);
        ok := ShareAt(parent, child, i / PGSIZE);
        assert (Value(), ok) == CopyRange(st, parent, child, v + 1);
        if !ok {
          CopyStops(st, parent, child, v + 1, n);
          FreeVmOf(child);
          return false;
        }
        i := i + PGSIZE;
      }
      ok := true;
    }
  }

  lemma HeldIsOwned(st: St, held: set<nat>, f: nat)
    requires Core(st, held) && f in held
    ensures Managed(st.m, f) && st.m.refcnt[f] == 1 && |st.m.data| == |st.m.refcnt|
  {
    assert Exclusive(st.m, f);
  }

  lemma HeldIsOwnedKern(st: St, s: KSite)
    requires Core(st, {}) && s in st.kern
    ensures Managed(st.m, st.kern[s]) && st.m.refcnt[st.kern[s]] == 1 && |st.m.data| == |st.m.refcnt|
  {
    assert Exclusive(st.m, st.kern[s]);
  }

  lemma NoTableNoPage(st: St, held: set<nat>, k: Key)
    requires Core(st, held) && Table(k.0, k.1 / NPTENTRIES) !in st.kern
    ensures k !in st.pte && UnmapOne(st, k) == st
  {
    assert k in st.pte ==> PteOk(st, k);
  }

  lemma UserPages(sz: nat)
    requires sz <= KERNBASE
    ensures PagesFor(sz) <= USERPAGES
  {
  }

  lemma PageIndex(n: nat, sz: nat)
    ensures n * PGSIZE / PGSIZE == n && (n * PGSIZE < sz <==> n < PagesFor(sz))
  {
  }

  /** Below a missing page table there is nothing to unmap. */
  lemma {:induction false} SkipUnmapped(st: St, held: set<nat>, p: Pid, lo: nat, v: nat, j: nat)
    requires Core(st, held) && lo <= v && Table(p, v / NPTENTRIES) !in st.kern
    requires v <= j <= LastPageOfSlot(v) + 1
    ensures UnmapRange(st, p, lo, j) == UnmapRange(st, p, lo, v)
    decreases j
  {
    hide Core, UserMem, UnmapOne;
    if j > v {
      SkipUnmapped(st, held, p, lo, v, j - 1);
      UnmapRangeKeeps(st, held, p, lo, j - 1);
      var s, k := UnmapRange(st, p, lo, j - 1), (p, j - 1);
      assert (j - 1) / NPTENTRIES == v / NPTENTRIES;
      NoTableNoPage(s, held, k);
    }
  }

  lemma {:induction false} AllocStops(st: St, p: Pid, lo: nat, v: nat, hi: nat)
    requires lo <= v <= hi && !AllocRange(st, p, lo, v).1.Mapped?
    ensures AllocRange(st, p, lo, hi) == AllocRange(st, p, lo, v)
    decreases hi
  {
    if v < hi { AllocStops(st, p, lo, v, hi - 1); }
  }

  lemma {:induction false} KvmStops(st: St, p: Pid, i: nat, n: nat)
    requires i <= n && !KvmTables(st, p, i).1
    ensures KvmTables(st, p, n) == KvmTables(st, p, i)
    decreases n
  {
    if i < n { KvmStops(st, p, i, n - 1); }
  }

  lemma {:induction false} CopyStops(st: St, parent: Pid, child: Pid, v: nat, n: nat)
    requires v <= n && !CopyRange(st, parent, child, v).1
    ensures CopyRange(st, parent, child, n) == CopyRange(st, parent, child, v)
    decreases n
  {
    if v < n { CopyStops(st, parent, child, v, n - 1); }
  }
}
