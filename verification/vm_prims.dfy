/** One-page steps of the virtual-memory code (vm.c) and what each keeps. */
module VmPrims {
  import opened Prelude
  import opened Mmu
  import opened Frames
  import opened VmState

  /** kfree of a frame that is mapped at `k`, whose entry is cleared. */
  function UnmapOne(st: St, k: Key): (r: St)
    ensures SameFrames(st.m, r.m)
  {
    if k !in st.pte then st
    else st.(m := Kfree(st.m, st.pte[k].frame), pte := st.pte - {k})
  }

  /** kfree of a kernel-owned frame. */
  function FreeKern(st: St, s: KSite): (r: St)
    ensures SameFrames(st.m, r.m)
  {
    if s !in st.kern then st
    else st.(m := Kfree(st.m, st.kern[s]), kern := st.kern - {s})
  }

  /** kalloc for a kernel object; page tables are cleared, kernel stacks are not. */
  function AllocKern(st: St, s: KSite): (r: (St, bool))
    ensures SameFrames(st.m, r.0.m)
  {
    match Kalloc(st.m)
    case (_, None) => (st, false)
    case (m, Some(f)) =>
      (st.(m := if s.KStack? then m else Fill(m, f, Filled(0)), kern := st.kern[s := f]), true)
  }

  /** walkpgdir with alloc set: make sure the page table of directory slot `d` exists. */
  function Walk(st: St, p: Pid, d: nat): (r: (St, bool))
    ensures SameFrames(st.m, r.0.m)
  {
    if Table(p, d) in st.kern then (st, true) else AllocKern(st, Table(p, d))
  }

  /** mappages for one page. */
  function MapPage(st: St, k: Key, e: Pte): (r: (St, bool))
    ensures SameFrames(st.m, r.0.m)
  {
    match Walk(st, k.0, k.1 / NPTENTRIES)
    case (s, false) => (s, false)
    case (s, true) => (s.(pte := s.pte[k := e]), true)
  }

  /** Outcome of giving a process one more page; in the last case the caller still
      holds the new frame. */
  datatype AllocResult = Mapped | NoFrame | NoTable(frame: nat)

  /** kalloc, memset and mappages of one user page. */
  function AllocPage(st: St, k: Key, w: bool): (r: (St, AllocResult))
    ensures SameFrames(st.m, r.0.m)
  {
    match Kalloc(st.m)
    case (_, None) => (st, NoFrame)
    case (m, Some(f)) =>
      var s := st.(m := Fill(m, f, Filled(0)));
      match MapPage(s, k, Pte(f, w, true, false))
      case (s', true) => (s', Mapped)
      case (s', false) => (s', NoTable(f))
  }

  function CowFlags(e: Pte): Pte {
    if e.w || e.cow then e.(w := false, cow := true) else e
  }

  /** One iteration of copyuvm. */
  function ShareOne(st: St, parent: Pid, child: Pid, v: nat): (r: (St, bool))
    ensures SameFrames(st.m, r.0.m)
  {
    if (parent, v) !in st.pte then (st, true) else
    var e := CowFlags(st.pte[(parent, v)]);
    match MapPage(st.(pte := st.pte[(parent, v) := e]), (child, v), e)
    case (s, false) => (s, false)
    case (s, true) => (s.(m := KrefInc(s.m, e.frame)), true)
  }

  datatype CowResult = NotCow | NoMemory | Resolved

  /** cow_fault. */
  function CowFault(st: St, k: Key): (r: (St, CowResult))
    ensures SameFrames(st.m, r.0.m)
  {
    if k !in st.pte || !st.pte[k].cow || st.pte[k].frame >= |st.m.refcnt| || |st.m.refcnt| != |st.m.data|
    then (st, NotCow) else
    var e := st.pte[k];
    if st.m.refcnt[e.frame] == 1 then
      (st.(pte := st.pte[k := e.(w := true, cow := false)]), Resolved)
    else
      match Kalloc(st.m)
      case (_, None) => (st, NoMemory)
      case (m, Some(f)) =>
        var s := st.(m := Fill(m, f, m.data[e.frame]));
        var s' := s.(pte := s.pte[k := Pte(f, true, e.u, false)]);
        (s'.(m := Kfree(s'.m, e.frame)), Resolved)
  }

  /** One iteration of vm_protect_range. */
  function ProtectOne(st: St, k: Key, write: bool): (r: St)
    ensures SameFrames(st.m, r.m)
  {
    if k !in st.pte || st.pte[k].frame >= |st.m.refcnt| then st else
    var e := st.pte[k];
    var e' := if !write then e.(w := false)
              else if e.cow || st.m.refcnt[e.frame] > 1 then e.(w := false, cow := true)
              else e.(w := true);
    st.(pte := st.pte[k := e'])
  }

  function Splice(pg: Page, o: nat, bs: seq<Byte>): (r: Page)
    requires o + |bs| <= PGSIZE
    ensures forall i :: 0 <= i < PGSIZE ==> r[i] == if o <= i < o + |bs| then bs[i - o] else pg[i]
  {
    pg[..o] + bs + pg[o + |bs|..]
  }

  /** A store that the MMU lets through, or copyout's memmove into one page. */
  function Store(st: St, k: Key, o: nat, bs: seq<Byte>): (r: St)
    ensures SameFrames(st.m, r.m)
  {
    if k !in st.pte || st.pte[k].frame >= |st.m.data| || o + |bs| > PGSIZE then st else
    var f := st.pte[k].frame;
    st.(m := Fill(st.m, f, Splice(st.m.data[f], o, bs)))
  }

  // ---- each step keeps Core and changes user memory as stated ----

  lemma CoreIsFramed(st: St, held: set<nat>)
    requires Core(st, held)
    ensures Framed(st)
  {
    forall k | k in st.pte ensures st.pte[k].frame < |st.m.data| {
      assert PteOk(st, k);
    }
  }

  lemma CoreHasKmem(st: St, held: set<nat>)
    requires Core(st, held)
    ensures KmemInv(st.m)
  {
  }

  lemma EntryOk(st: St, held: set<nat>, k: Key)
    requires Core(st, held) && k in st.pte
    ensures PteOk(st, k)
  {
  }

  /** Pointwise equality of user memories. */
  lemma SameUserMem(st: St, mem: UMem)
    requires Framed(st)
    requires forall k :: k in mem <==> k in st.pte
    requires forall k :: k in st.pte ==> mem[k] == UPage(st.m.data[st.pte[k].frame], st.pte[k].u)
    ensures UserMem(st) == mem
  {
  }

  lemma DropThenPut<V>(m: map<Key, V>, k: Key, v: V)
    requires k in m
    ensures (m - {k})[k := v] == m[k := v]
    ensures m[k] == v ==> m[k := v] == m
  {
  }

  /** A managed owned frame has a positive count: kfree does not panic. */
  lemma MappedIsOwned(st: St, held: set<nat>, k: Key)
    requires Core(st, held) && k in st.pte
    ensures Managed(st.m, st.pte[k].frame) && st.m.refcnt[st.pte[k].frame] >= 1
  {
    var f := st.pte[k].frame;
    assert PteOk(st, k) && st.m.refcnt[f] == Owners(st, held, f) && k in UserSites(st.pte, f);
    assert |UserSites(st.pte, st.pte[k].frame)| >= 1;
  }

  lemma UnmapOneKeeps(st: St, held: set<nat>, k: Key)
    requires Core(st, held) && k in st.pte
    ensures Framed(st) && Core(UnmapOne(st, k), held) && Framed(UnmapOne(st, k))
    ensures UserMem(UnmapOne(st, k)) == UserMem(st) - {k}
  {
    UnmapOneCore(st, held, k);
    CoreIsFramed(st, held);
    CoreIsFramed(UnmapOne(st, k), held);
    OtherFramesKept(st, held, k);
    var st', mem := UnmapOne(st, k), UserMem(st) - {k};
    forall l | l in st'.pte ensures mem[l] == UPage(st'.m.data[st'.pte[l].frame], st'.pte[l].u) {}
    SameUserMem(st', mem);
  }

  lemma UnmapOneCore(st: St, held: set<nat>, k: Key)
    requires Core(st, held) && k in st.pte
    ensures Core(UnmapOne(st, k), held)
  {
    MappedIsOwned(st, held, k);
    var f := st.pte[k].frame;
    KfreeKeepsInv(st.m, f);
    var st' := UnmapOne(st, k);
    assert Counted(st', held) by {
      forall g: nat | Managed(st'.m, g) ensures st'.m.refcnt[g] == Owners(st', held, g) {
        SitesDrop(st.pte, k, g);
        assert st.m.refcnt[g] == Owners(st, held, g);
      }
    }
    OtherFramesKept(st, held, k);
    assert SharedAligned(st'.pte);
    forall l | l in st'.pte ensures PteOk(st', l) {
      assert PteOk(st, l);
    }
  }

  /** Dropping the reference at `k` leaves exclusive frames exclusive and mapped data intact. */
  lemma OtherFramesKept(st: St, held: set<nat>, k: Key)
    requires Core(st, held) && k in st.pte
    ensures var m' := Kfree(st.m, st.pte[k].frame);
            && KernelFramesExclusive(st.(m := m'), held)
            && forall l :: l in st.pte && l != k ==>
                 && (st.m.refcnt[st.pte[l].frame] == 1 ==> m'.refcnt[st.pte[l].frame] == 1)
                 && m'.data[st.pte[l].frame] == st.m.data[st.pte[l].frame]
  {
    MappedIsOwned(st, held, k);
    var f := st.pte[k].frame;
    KfreeKeepsInv(st.m, f);
    if st.m.refcnt[f] == 1 {
      ExclusiveUser(st, held, k);
    } else {
      forall s | s in st.kern ensures st.kern[s] != f { assert Exclusive(st.m, st.kern[s]); }
      forall g | g in held ensures g != f { assert Exclusive(st.m, g); }
    }
    forall l | l in st.pte ensures st.pte[l].frame < |st.m.data| { assert PteOk(st, l); }
  }

  lemma FreeKernKeeps(st: St, held: set<nat>, s: KSite)
    requires Core(st, held) && s in st.kern
    requires s.Table? ==> forall k :: k in st.pte && k.0 == s.p ==> k.1 / NPTENTRIES != s.d
    ensures Framed(st) && Core(FreeKern(st, s), held) && Framed(FreeKern(st, s))
    ensures UserMem(FreeKern(st, s)) == UserMem(st)
  {
    FreeKernCore(st, held, s);
    CoreIsFramed(st, held);
    CoreIsFramed(FreeKern(st, s), held);
    ExclusiveKern(st, held, s);
    SameUserMem(FreeKern(st, s), UserMem(st));
  }

  lemma FreeKernCore(st: St, held: set<nat>, s: KSite)
    requires Core(st, held) && s in st.kern
    requires s.Table? ==> forall k :: k in st.pte && k.0 == s.p ==> k.1 / NPTENTRIES != s.d
    ensures Core(FreeKern(st, s), held)
  {
    var f := st.kern[s];
    assert Exclusive(st.m, f);
    KfreeKeepsInv(st.m, f);
    ExclusiveKern(st, held, s);
    var st' := FreeKern(st, s);
    assert Counted(st', held) by {
      forall g: nat | Managed(st'.m, g) ensures st'.m.refcnt[g] == Owners(st', held, g) {
        KernDrop(st.kern, s, g);
        assert st.m.refcnt[g] == Owners(st, held, g);
      }
    }
    assert KernelFramesExclusive(st', held);
    forall l | l in st'.pte ensures PteOk(st', l) {
      assert PteOk(st, l);
    }
  }

  /** kalloc puts a frame that no page table mentions into the caller's hands, to fill as it likes. */
  lemma KallocHolds(st: St, held: set<nat>, pg: Page)
    requires Core(st, held) && Kalloc(st.m).1.Some?
    ensures var (m, r) := Kalloc(st.m);
            && r.value !in held && Managed(st.m, r.value)
            && Core(st.(m := Fill(m, r.value, pg)), held + {r.value})
            && Framed(st) && Framed(st.(m := Fill(m, r.value, pg)))
            && UserMem(st.(m := Fill(m, r.value, pg))) == UserMem(st)
  {
    KallocKeepsInv(st.m);
    var (m, r) := Kalloc(st.m);
    var f := r.value;
    assert f !in held by { assert f in held ==> Exclusive(st.m, f); }
    Unmapped(st, held, f);
    var st' := st.(m := Fill(m, f, pg));
    CoreIsFramed(st, held);
    SameUserMem(st', UserMem(st));
    forall l | l in st'.pte ensures PteOk(st', l) { assert PteOk(st, l); }
    assert Counted(st', held + {f}) by {
      forall g: nat | Managed(st'.m, g) ensures st'.m.refcnt[g] == Owners(st', held + {f}, g) {
        assert st.m.refcnt[g] == Owners(st, held, g);
      }
    }
    assert KernelFramesExclusive(st', held + {f}) by {
      forall s | s in st'.kern ensures Exclusive(st'.m, st'.kern[s]) { assert Exclusive(st.m, st.kern[s]); }
      forall g | g in held + {f} ensures Exclusive(st'.m, g) { assert g != f ==> Exclusive(st.m, g); }
    }
  }

  lemma DropHeldKeeps(st: St, held: set<nat>, f: nat)
    requires Core(st, held + {f}) && f !in held
    ensures Framed(st) && Core(st.(m := Kfree(st.m, f)), held) && Framed(st.(m := Kfree(st.m, f)))
    ensures UserMem(st.(m := Kfree(st.m, f))) == UserMem(st)
  {
    hide Core;
    CoreIsFramed(st, held + {f});
    DropHeldCore(st, held, f);
    CoreIsFramed(st.(m := Kfree(st.m, f)), held);
    DropHeldData(st, held, f);
    SameUserMem(st.(m := Kfree(st.m, f)), UserMem(st));
  }

  lemma DropHeldData(st: St, held: set<nat>, f: nat)
    requires Core(st, held + {f}) && f !in held
    ensures forall k :: k in st.pte ==>
      && st.pte[k].frame < |st.m.data| && st.pte[k].frame < |Kfree(st.m, f).data|
      && Kfree(st.m, f).data[st.pte[k].frame] == st.m.data[st.pte[k].frame]
  {
    CoreIsFramed(st, held + {f});
    assert f in held + {f} && Exclusive(st.m, f);
    Unmapped(st, held + {f}, f);
    hide Core;
  }

  lemma DropHeldCore(st: St, held: set<nat>, f: nat)
    requires Core(st, held + {f}) && f !in held
    ensures Core(st.(m := Kfree(st.m, f)), held)
  {
    assert f in held + {f} && Exclusive(st.m, f);
    Unmapped(st, held + {f}, f);
    KfreeKeepsInv(st.m, f);
    var st' := st.(m := Kfree(st.m, f));
    assert Counted(st', held) by {
      forall g: nat | Managed(st'.m, g) ensures st'.m.refcnt[g] == Owners(st', held, g) {
        assert st.m.refcnt[g] == Owners(st, held + {f}, g);
      }
    }
    forall l | l in st'.pte ensures PteOk(st', l) { assert PteOk(st, l); }
  }

  lemma AllocKernKeeps(st: St, held: set<nat>, s: KSite)
    requires Core(st, held) && s !in st.kern && (s.Table? ==> s.d < NPDENTRIES)
    ensures var (st', ok) := AllocKern(st, s);
            && Core(st', held) && Framed(st) && Framed(st') && UserMem(st') == UserMem(st)
            && st'.pte == st.pte && (!ok ==> st' == st)
            && KernGrows(st, st') && (ok ==> st'.kern.Keys == st.kern.Keys + {s})
  {
    CoreIsFramed(st, held);
    var (m, r) := Kalloc(st.m);
    if r.Some? {
      KallocKeepsInv(st.m);
      var pg := if s.KStack? then m.data[r.value] else Filled(0);
      KallocHolds(st, held, pg);
      var mid := st.(m := Fill(m, r.value, pg));
      assert s.KStack? ==> mid.m == m by { assert m.data[r.value := m.data[r.value]] == m.data; }
      var st' := mid.(kern := st.kern[s := r.value]);
      assert Core(mid, held + {r.value});
      assert r.value in held + {r.value} && Exclusive(mid.m, r.value);
      assert Counted(st', held) by {
        forall g: nat | Managed(st'.m, g) ensures st'.m.refcnt[g] == Owners(st', held, g) {
          KernAdd(st.kern, s, r.value, g);
          assert mid.m.refcnt[g] == Owners(mid, held + {r.value}, g);
        }
      }
      forall l | l in st'.pte ensures PteOk(st', l) { assert PteOk(mid, l); }
    }
  }

  lemma WalkKeeps(st: St, held: set<nat>, p: Pid, d: nat)
    requires Core(st, held) && d < NPDENTRIES
    ensures var (st', ok) := Walk(st, p, d);
            && Core(st', held) && Framed(st) && Framed(st') && UserMem(st') == UserMem(st)
            && st'.pte == st.pte && (!ok ==> st' == st)
            && (ok ==> Table(p, d) in st'.kern) && OnlyTables(st, st', p)
  {
    CoreIsFramed(st, held);
    if Table(p, d) !in st.kern {
      AllocKernKeeps(st, held, Table(p, d));
    }
  }

  lemma AllocPageKeeps(st: St, held: set<nat>, k: Key, w: bool)
    requires Core(st, held) && k !in st.pte && k.1 < USERPAGES
    ensures var (st', r) := AllocPage(st, k, w);
            && Framed(st) && Framed(st')
            && (r.NoTable? ==> r.frame !in held)
            && Core(st', if r.NoTable? then held + {r.frame} else held)
            && (!r.Mapped? ==> UserMem(st') == UserMem(st) && st'.kern == st.kern && st'.pte == st.pte)
            && (!r.Mapped? ==> st'.m.free == [])
            && (r.Mapped? ==> && UserMem(st') == UserMem(st)[k := UPage(Filled(0), true)]
                              && OneEntry(st.pte, st'.pte, k) && st'.pte[k].w == w && !st'.pte[k].cow
                              && OnlyTables(st, st', k.0))
  {
    hide Core, UserMem;
    CoreIsFramed(st, held);
    CoreHasKmem(st, held);
    KallocKeepsInv(st.m);
    var (m, r) := Kalloc(st.m);
    if r.Some? {
      KallocHolds(st, held, Filled(0));
      var f := r.value;
      var s0 := st.(m := Fill(m, f, Filled(0)));
      CoreHasKmem(s0, held + {f});
      KallocKeepsInv(s0.m);
      WalkKeeps(s0, held + {f}, k.0, k.1 / NPTENTRIES);
      var (s1, ok) := Walk(s0, k.0, k.1 / NPTENTRIES);
      if ok {
        WalkKeepsHeldData(s0, held + {f}, k.0, k.1 / NPTENTRIES, f);
        MapHeld(s1, held, k, Pte(f, w, true, false));
      }
    }
  }

  /** A new page table never lands on a frame someone holds. */
  lemma WalkKeepsHeldData(st: St, held: set<nat>, p: Pid, d: nat, f: nat)
    requires Core(st, held) && f in held
    ensures Walk(st, p, d).0.m.data == st.m.data || |Walk(st, p, d).0.m.data| == |st.m.data| > f
    ensures f < |st.m.data| ==> Walk(st, p, d).0.m.data[f] == st.m.data[f]
  {
    KallocKeepsInv(st.m);
    assert Exclusive(st.m, f);
  }

  /** Installing a held frame: the caller's hold becomes the page table's. */
  lemma MapHeld(st: St, held: set<nat>, k: Key, e: Pte)
    requires e.frame !in held && Core(st, held + {e.frame}) && k !in st.pte && k.1 < USERPAGES
    requires Table(k.0, k.1 / NPTENTRIES) in st.kern && !e.cow
    ensures Core(st.(pte := st.pte[k := e]), held)
    ensures Framed(st) && Framed(st.(pte := st.pte[k := e])) && e.frame < |st.m.data|
    ensures UserMem(st.(pte := st.pte[k := e])) == UserMem(st)[k := UPage(st.m.data[e.frame], e.u)]
  {
    MapHeldCore(st, held, k, e);
    var st' := st.(pte := st.pte[k := e]);
    CoreIsFramed(st, held + {e.frame});
    CoreIsFramed(st', held);
    SameUserMem(st', UserMem(st)[k := UPage(st.m.data[e.frame], e.u)]);
  }

  lemma MapHeldCore(st: St, held: set<nat>, k: Key, e: Pte)
    requires e.frame !in held && Core(st, held + {e.frame}) && k !in st.pte && k.1 < USERPAGES
    requires Table(k.0, k.1 / NPTENTRIES) in st.kern && !e.cow
    ensures Core(st.(pte := st.pte[k := e]), held) && e.frame < |st.m.data|
  {
    var st' := st.(pte := st.pte[k := e]);
    assert e.frame in held + {e.frame} && Exclusive(st.m, e.frame);
    Unmapped(st, held + {e.frame}, e.frame);
    assert Counted(st', held) by {
      forall g: nat | Managed(st'.m, g) ensures st'.m.refcnt[g] == Owners(st', held, g) {
        SitesAdd(st.pte, k, e, g);
        assert st.m.refcnt[g] == Owners(st, held + {e.frame}, g);
      }
    }
    assert KernelFramesExclusive(st', held);
    assert SharedAligned(st'.pte);
    forall l | l in st'.pte ensures PteOk(st', l) { assert l != k ==> PteOk(st, l); }
  }

  /** Changing the flag bits of an entry, keeping its frame. */
  lemma SetFlagsKeeps(st: St, held: set<nat>, k: Key, e: Pte)
    requires Core(st, held) && k in st.pte && e.frame == st.pte[k].frame && e.u == st.pte[k].u
    requires e.w ==> !e.cow && Exclusive(st.m, e.frame)
    ensures Framed(st) && Core(st.(pte := st.pte[k := e]), held) && Framed(st.(pte := st.pte[k := e]))
    ensures UserMem(st.(pte := st.pte[k := e])) == UserMem(st)
  {
    SetFlagsCore(st, held, k, e);
    CoreIsFramed(st, held);
    CoreIsFramed(st.(pte := st.pte[k := e]), held);
    SameUserMem(st.(pte := st.pte[k := e]), UserMem(st));
  }

  lemma SetFlagsCore(st: St, held: set<nat>, k: Key, e: Pte)
    requires Core(st, held) && k in st.pte && e.frame == st.pte[k].frame
    requires e.w ==> !e.cow && Exclusive(st.m, e.frame)
    ensures Core(st.(pte := st.pte[k := e]), held)
  {
    var st' := st.(pte := st.pte[k := e]);
    assert Counted(st', held) by {
      forall g: nat | Managed(st'.m, g) ensures st'.m.refcnt[g] == Owners(st', held, g) {
        assert UserSites(st'.pte, g) == UserSites(st.pte, g);
        assert st.m.refcnt[g] == Owners(st, held, g);
      }
    }
    assert KernelFramesExclusive(st', held);
    assert SharedAligned(st'.pte);
    assert PteOk(st, k);
    forall l | l in st'.pte ensures PteOk(st', l) { assert PteOk(st, l); }
  }

  /** A second mapping of a read-only page at the same virtual page, with its reference. */
  lemma ShareCore(st: St, held: set<nat>, k: Key, c: Key)
    requires Core(st, held) && k in st.pte && !st.pte[k].w && c !in st.pte && c.1 == k.1
    requires Table(c.0, c.1 / NPTENTRIES) in st.kern
    ensures var e := st.pte[k];
            Core(st.(m := KrefInc(st.m, e.frame), pte := st.pte[c := e]), held)
  {
    var e := st.pte[k];
    var st' := st.(m := KrefInc(st.m, e.frame), pte := st.pte[c := e]);
    assert PteOk(st, k);
    MappedIsOwned(st, held, k);
    assert KmemInv(st'.m);
    assert Counted(st', held) by {
      forall g: nat | Managed(st'.m, g) ensures st'.m.refcnt[g] == Owners(st', held, g) {
        SitesAdd(st.pte, c, e, g);
        assert st.m.refcnt[g] == Owners(st, held, g);
      }
    }
    SharedNotExclusive(st, held, k);
    assert KernelFramesExclusive(st', held) by {
      forall s | s in st'.kern ensures Exclusive(st'.m, st'.kern[s]) { assert Exclusive(st.m, st.kern[s]); }
      forall g | g in held ensures Exclusive(st'.m, g) { assert Exclusive(st.m, g); }
    }
    assert SharedAligned(st'.pte);
    forall l | l in st'.pte ensures PteOk(st', l) { assert l != c ==> PteOk(st, l); }
  }

  /** Nothing that must be exclusive sits on a frame mapped read-only. */
  lemma SharedNotExclusive(st: St, held: set<nat>, k: Key)
    requires Core(st, held) && k in st.pte && !st.pte[k].w
    ensures forall s :: s in st.kern ==> st.kern[s] != st.pte[k].frame
    ensures st.pte[k].frame !in held
    ensures forall l :: l in st.pte && st.pte[l].w ==> st.pte[l].frame != st.pte[k].frame
  {
    var f := st.pte[k].frame;
    forall s | s in st.kern ensures st.kern[s] != f { ExclusiveKern(st, held, s); }
    if f in held { Unmapped(st, held, f); }
    forall l | l in st.pte && st.pte[l].w ensures st.pte[l].frame != f {
      assert PteOk(st, l);
      ExclusiveUser(st, held, l);
    }
  }

  lemma ShareMem(st: St, k: Key, c: Key)
    requires Core(st, {}) && k in st.pte && !st.pte[k].w && c !in st.pte && c.1 == k.1
    requires Table(c.0, c.1 / NPTENTRIES) in st.kern
    ensures var st' := st.(m := KrefInc(st.m, st.pte[k].frame), pte := st.pte[c := st.pte[k]]);
            Core(st', {}) && Framed(st) && Framed(st') && UserMem(st') == UserMem(st)[c := UserMem(st)[k]]
  {
    ShareCore(st, {}, k, c);
    var st' := st.(m := KrefInc(st.m, st.pte[k].frame), pte := st.pte[c := st.pte[k]]);
    CoreIsFramed(st, {});
    CoreIsFramed(st', {});
    SameUserMem(st', UserMem(st)[c := UserMem(st)[k]]);
  }

  lemma ShareOneKeeps(st: St, parent: Pid, child: Pid, v: nat)
    requires Core(st, {}) && (child, v) !in st.pte && parent != child
    ensures var (st', ok) := ShareOne(st, parent, child, v);
            var k, c := (parent, v), (child, v);
            && Core(st', {}) && Framed(st) && Framed(st')
            && (if ok && k in st.pte then UserMem(st') == UserMem(st)[c := UserMem(st)[k]]
                else UserMem(st') == UserMem(st))
            && OnlyTables(st, st', child)
            && st'.pte == (if k !in st.pte then st.pte
                           else if ok then st.pte[k := CowFlags(st.pte[k])][c := CowFlags(st.pte[k])]
                           else st.pte[k := CowFlags(st.pte[k])])
  {
    CoreIsFramed(st, {});
    var k, c := (parent, v), (child, v);
    if k in st.pte {
      assert PteOk(st, k);
      var e := CowFlags(st.pte[k]);
      var s1 := st.(pte := st.pte[k := e]);
      SetFlagsKeeps(st, {}, k, e);
      WalkKeeps(s1, {}, child, v / NPTENTRIES);
      var (s2, ok) := Walk(s1, child, v / NPTENTRIES);
      if ok {
        ShareMem(s2, k, c);
      }
    }
  }

  /** cow_fault keeps every page's content; afterwards the page is writable and private. */
  lemma CowFaultKeeps(st: St, k: Key)
    requires Core(st, {}) && k in st.pte
    ensures var (st', r) := CowFault(st, k);
            && Core(st', {}) && Framed(st) && Framed(st') && UserMem(st') == UserMem(st) && st'.kern == st.kern
            && (r == NotCow <==> !st.pte[k].cow)
            && (r == NoMemory ==> st.m.free == [])
            && (r != Resolved ==> st' == st)
            && (r == Resolved ==> OneEntry(st.pte, st'.pte, k)
                                  && st'.pte[k].w && !st'.pte[k].cow && st'.pte[k].u == st.pte[k].u)
  {
    hide Core;
    CoreIsFramed(st, {});
    EntryOk(st, {}, k);
    MappedIsOwned(st, {}, k);
    CoreHasKmem(st, {});
    KallocKeepsInv(st.m);
    var e := st.pte[k];
    if e.cow {
      if st.m.refcnt[e.frame] == 1 {
        SetFlagsKeeps(st, {}, k, e.(w := true, cow := false));
      } else if Kalloc(st.m).1.Some? {
        CowCopyKeeps(st, k);
      }
    }
  }

  /** The copying branch: unmap the shared frame and install the private copy. */
  lemma CowCopyKeeps(st: St, k: Key)
    requires Core(st, {}) && k in st.pte && st.pte[k].cow && st.m.refcnt[st.pte[k].frame] != 1
    requires Kalloc(st.m).1.Some?
    ensures var (st', r) := CowFault(st, k);
            r == Resolved && Core(st', {}) && Framed(st) && Framed(st') && UserMem(st') == UserMem(st)
  {
    var e := st.pte[k];
    var pg := st.m.data[e.frame];
    MappedIsOwned(st, {}, k);
    KallocKeepsInv(st.m);
    KallocHolds(st, {}, pg);
    var (m, r) := Kalloc(st.m);
    var f := r.value;
    var s1 := st.(m := Fill(m, f, pg));
    assert {} + {f} == {f};
    UnmapOneKeeps(s1, {f}, k);
    var s2 := UnmapOne(s1, k);
    assert PteOk(s1, k);
    UnmapKeepsOthers(s1, {f}, k, f);
    var priv := Pte(f, true, e.u, false);
    MapHeld(s2, {}, k, priv);
    var s3 := s2.(pte := s2.pte[k := priv]);
    DropThenPut(st.pte, k, priv);
    DropThenPut(UserMem(st), k, UPage(pg, e.u));
    assert CowFault(st, k).0 == s3;
  }

  lemma UnmapKeepsOthers(st: St, held: set<nat>, k: Key, f: nat)
    requires Core(st, held) && k in st.pte && f in held
    ensures f < |st.m.data| == |UnmapOne(st, k).m.data| && UnmapOne(st, k).m.data[f] == st.m.data[f]
  {
    assert Exclusive(st.m, f);
    Unmapped(st, held, f);
  }

  /** vm_protect_range on one page: contents stay, and PTE_W follows the protection. */
  lemma ProtectOneKeeps(st: St, k: Key, write: bool)
    requires Core(st, {}) && k in st.pte
    ensures var st' := ProtectOne(st, k, write);
            && Core(st', {}) && Framed(st) && Framed(st') && UserMem(st') == UserMem(st)
            && st'.kern == st.kern && st'.m == st.m && OneEntry(st.pte, st'.pte, k)
            && (if write then st'.pte[k].w || st'.pte[k].cow else !st'.pte[k].w)
  {
    assert PteOk(st, k);
    MappedIsOwned(st, {}, k);
    var e := st.pte[k];
    SetFlagsKeeps(st, {}, k, ProtectOne(st, k, write).pte[k]);
  }

  /** A store through a W mapping reaches exactly one process's page. */
  lemma StoreKeeps(st: St, k: Key, o: nat, bs: seq<Byte>)
    requires Core(st, {}) && k in st.pte && st.pte[k].w && o + |bs| <= PGSIZE
    ensures var st' := Store(st, k, o, bs);
            && Core(st', {}) && Framed(st) && Framed(st') && st'.pte == st.pte && st'.kern == st.kern
            && UserMem(st') == UserMem(st)[k := UserMem(st)[k].(data := Splice(UserMem(st)[k].data, o, bs))]
  {
    StoreCore(st, k, o, bs);
    CoreIsFramed(st, {});
    assert PteOk(st, k);
    ExclusiveUser(st, {}, k);
    SameUserMem(Store(st, k, o, bs), UserMem(st)[k := UserMem(st)[k].(data := Splice(UserMem(st)[k].data, o, bs))]);
  }

  lemma StoreCore(st: St, k: Key, o: nat, bs: seq<Byte>)
    requires Core(st, {}) && k in st.pte && o + |bs| <= PGSIZE
    ensures Core(Store(st, k, o, bs), {})
  {
    assert PteOk(st, k);
    var st' := Store(st, k, o, bs);
    forall l | l in st'.pte ensures PteOk(st', l) { assert PteOk(st, l); }
    assert Counted(st', {}) by {
      forall g: nat | Managed(st'.m, g) ensures st'.m.refcnt[g] == Owners(st', {}, g) {
        assert st.m.refcnt[g] == Owners(st, {}, g);
      }
    }
    assert KernelFramesExclusive(st', {}) by {
      forall s | s in st'.kern ensures Exclusive(st'.m, st'.kern[s]) { assert Exclusive(st.m, st.kern[s]); }
    }
  }
}
