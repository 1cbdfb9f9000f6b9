/** The range loops of vm.c as folds of one-page steps. */
module VmRanges {
  import opened Mmu
  import opened Frames
  import opened VmState
  import opened VmPrims

  // ---- what the loops compute ----

  /** vm_unmap_range and deallocuvm: the pages lo..hi of process p, in order. */
  function UnmapRange(st: St, p: Pid, lo: nat, hi: nat): (r: St)
    ensures SameFrames(st.m, r.m)
  {
    if hi <= lo then st else UnmapOne(UnmapRange(st, p, lo, hi - 1), (p, hi - 1))
  }

  function ProtectRange(st: St, p: Pid, lo: nat, hi: nat, write: bool): (r: St)
    ensures SameFrames(st.m, r.m)
  {
    if hi <= lo then st else ProtectOne(ProtectRange(st, p, lo, hi - 1, write), (p, hi - 1), write)
  }

  /** The loop of allocuvm, up to the first failure. */
  function AllocRange(st: St, p: Pid, lo: nat, hi: nat): (r: (St, AllocResult))
    ensures SameFrames(st.m, r.0.m)
  {
    if hi <= lo then (st, Mapped) else
    match AllocRange(st, p, lo, hi - 1)
    case (s, Mapped) => AllocPage(s, (p, hi - 1), true)
    case (s, r) => (s, r)
  }

  /** How allocuvm undoes: everything from lo to hi is deallocated, and a frame in hand freed. */
  function Undone(st: St, p: Pid, lo: nat, hi: nat, r: AllocResult): (s: St)
    ensures SameFrames(st.m, s.m)
  {
    var s := UnmapRange(st, p, lo, hi);
    if r.NoTable? then s.(m := Kfree(s.m, r.frame)) else s
  }

  /** allocuvm on a range without pages. */
  function AllocUvm(st: St, p: Pid, lo: nat, hi: nat): (r: (St, bool))
    ensures SameFrames(st.m, r.0.m)
  {
    match AllocRange(st, p, lo, hi)
    case (s, Mapped) => (s, true)
    case (s, r) => (Undone(s, p, lo, hi, r), false)
  }

  /** The loop of copyuvm over pages 0..n, up to the first failure. */
  function CopyRange(st: St, parent: Pid, child: Pid, n: nat): (r: (St, bool))
    ensures SameFrames(st.m, r.0.m)
  {
    if n == 0 then (st, true) else
    match CopyRange(st, parent, child, n - 1)
    case (s, true) => ShareOne(s, parent, child, n - 1)
    case (s, false) => (s, false)
  }

  function FreeTables(st: St, p: Pid, n: nat): (r: St)
    ensures SameFrames(st.m, r.m)
  {
    if n == 0 then st else FreeKern(FreeTables(st, p, n - 1), Table(p, n - 1))
  }

  /** freevm: user pages, then page-table pages, then the directory. */
  function FreeVm(st: St, p: Pid): (r: St)
    ensures SameFrames(st.m, r.m)
  {
    FreeKern(FreeTables(UnmapRange(st, p, 0, USERPAGES), p, NPDENTRIES), Dir(p))
  }

  /** Directory slots of the kernel mappings: KERNBASE..KERNBASE+PHYSTOP and DEVSPACE..4G. */
  const KVM_TABLES: nat := 64

  function KvmSlot(i: nat): (d: nat)
    ensures i < KVM_TABLES ==> KERNBASE / (PGSIZE * NPTENTRIES) <= d < NPDENTRIES
  {
    if i < 56 then 512 + i else 1016 + (i - 56)
  }

  function KvmTables(st: St, p: Pid, n: nat): (r: (St, bool))
    ensures SameFrames(st.m, r.0.m)
  {
    if n == 0 then (st, true) else
    match KvmTables(st, p, n - 1)
    case (s, true) => Walk(s, p, KvmSlot(n - 1))
    case (s, false) => (s, false)
  }

  /** setupkvm. */
  function SetupKvm(st: St, p: Pid): (r: (St, bool))
    ensures SameFrames(st.m, r.0.m)
  {
    match AllocKern(st, Dir(p))
    case (s, false) => (s, false)
    case (s, true) =>
      match KvmTables(s, p, KVM_TABLES)
      case (s', true) => (s', true)
      case (s', false) => (FreeVm(s', p), false)
  }

  /** copyuvm. */
  function CopyUvm(st: St, parent: Pid, child: Pid, n: nat): (r: (St, bool))
    ensures SameFrames(st.m, r.0.m)
  {
    match SetupKvm(st, child)
    case (s, false) => (s, false)
    case (s, true) =>
      match CopyRange(s, parent, child, n)
      case (s', true) => (s', true)
      case (s', false) => (FreeVm(s', child), false)
  }

  // ---- maps over ranges of pages ----

  predicate Within(k: Key, p: Pid, lo: nat, hi: nat) {
    k.0 == p && lo <= k.1 < hi
  }

  function Without<V>(m: map<Key, V>, p: Pid, lo: nat, hi: nat): map<Key, V> {
    map k | k in m && !Within(k, p, lo, hi) :: m[k]
  }

  /** Fresh zero pages. */
  function Zeroed(m: UMem, p: Pid, lo: nat, hi: nat): UMem {
    m + map v: nat | lo <= v < hi :: (p, v) := UPage(Filled(0), true)
  }

  /** What an eager fork gives the child: a copy of each of the parent's first n pages. */
  function Copied(m: UMem, parent: Pid, child: Pid, n: nat): UMem {
    m + map v: nat | v < n && (parent, v) in m :: (child, v) := m[(parent, v)]
  }

  // ---- unmapping ----

  lemma {:induction false} UnmapRangeKeeps(st: St, held: set<nat>, p: Pid, lo: nat, hi: nat)
    requires Core(st, held)
    ensures var st' := UnmapRange(st, p, lo, hi);
            && Core(st', held) && Framed(st) && Framed(st') && st'.kern == st.kern
            && st'.pte == Without(st.pte, p, lo, hi) && UserMem(st') == Without(UserMem(st), p, lo, hi)
  {
    hide Core, Framed, UserMem, Without;
    CoreIsFramed(st, held);
    if hi > lo {
      UnmapRangeKeeps(st, held, p, lo, hi - 1);
      var s, k := UnmapRange(st, p, lo, hi - 1), (p, hi - 1);
      if k in s.pte { UnmapOneKeeps(s, held, k); }
      SameKeys(s);
      WithoutStep(st.pte, p, lo, hi);
      WithoutStep(UserMem(st), p, lo, hi);
    } else {
      WithoutNone(st.pte, p, lo, hi);
      WithoutNone(UserMem(st), p, lo, hi);
    }
  }

  lemma WithoutNone<V>(m: map<Key, V>, p: Pid, lo: nat, hi: nat)
    requires hi <= lo
    ensures Without(m, p, lo, hi) == m
  {
  }

  lemma WithoutStep<V>(m: map<Key, V>, p: Pid, lo: nat, hi: nat)
    requires lo < hi
    ensures Without(m, p, lo, hi) == Without(m, p, lo, hi - 1) - {(p, hi - 1)}
    ensures (p, hi - 1) !in Without(m, p, lo, hi - 1) ==> Without(m, p, lo, hi) == Without(m, p, lo, hi - 1)
  {
  }

  // ---- protection ----

  lemma {:induction false} ProtectRangeKeeps(st: St, p: Pid, lo: nat, hi: nat, write: bool)
    requires Core(st, {})
    ensures var st' := ProtectRange(st, p, lo, hi, write);
            && Core(st', {}) && Framed(st) && Framed(st') && UserMem(st') == UserMem(st)
            && st'.kern == st.kern && st'.m == st.m && st'.pte.Keys == st.pte.Keys
            && forall k :: k in st.pte ==>
                 if Within(k, p, lo, hi) then (if write then st'.pte[k].w || st'.pte[k].cow else !st'.pte[k].w)
                 else st'.pte[k] == st.pte[k]
  {
    hide Core;
    CoreIsFramed(st, {});
    if hi > lo {
      ProtectRangeKeeps(st, p, lo, hi - 1, write);
      var s, k := ProtectRange(st, p, lo, hi - 1, write), (p, hi - 1);
      if k in s.pte { ProtectOneKeeps(s, k, write); }
      assert forall l :: Within(l, p, lo, hi) <==> Within(l, p, lo, hi - 1) || l == k;
    }
  }

  // ---- growing ----

  /** The old entries stay and the new ones are writable pages of the range. */
  ghost predicate PteGrows(pte: map<Key, Pte>, pte': map<Key, Pte>, p: Pid, lo: nat, hi: nat) {
    && (forall k :: k in pte ==> k in pte' && pte'[k] == pte[k])
    && (forall k :: k in pte' && k !in pte ==> Within(k, p, lo, hi) && pte'[k].w)
  }

  lemma PteGrowsRefl(pte: map<Key, Pte>, p: Pid, lo: nat, hi: nat)
    ensures PteGrows(pte, pte, p, lo, hi)
  {
  }

  lemma GrowsInside(pte: map<Key, Pte>, pte': map<Key, Pte>, p: Pid, lo: nat, hi: nat, k: Key)
    requires PteGrows(pte, pte', p, lo, hi) && !Within(k, p, lo, hi)
    ensures k in pte' <==> k in pte
  {
  }

  lemma PteGrowsStep(pte: map<Key, Pte>, pte1: map<Key, Pte>, pte2: map<Key, Pte>, p: Pid, lo: nat, hi: nat)
    requires lo < hi && PteGrows(pte, pte1, p, lo, hi - 1)
    requires pte2 == pte1 || (OneEntry(pte1, pte2, (p, hi - 1)) && pte2[(p, hi - 1)].w && (p, hi - 1) !in pte1)
    ensures PteGrows(pte, pte2, p, lo, hi)
  {
    forall k | k in pte ensures k in pte2 && pte2[k] == pte[k] { assert k in pte1; }
    forall k | k in pte2 && k !in pte ensures Within(k, p, lo, hi) && pte2[k].w {
      assert k in pte1 ==> Within(k, p, lo, hi - 1);
    }
  }

  lemma {:induction false} AllocRangeKeeps(st: St, p: Pid, lo: nat, hi: nat) returns (j: nat)
    requires Core(st, {}) && hi <= USERPAGES && lo <= hi
    requires forall k :: k in st.pte ==> !Within(k, p, lo, hi)
    ensures var (st', r) := AllocRange(st, p, lo, hi);
            && Framed(st) && Framed(st') && Core(st', if r.NoTable? then {r.frame} else {})
            && OnlyTables(st, st', p)
            && lo <= j <= hi && (r.Mapped? ==> j == hi) && UserMem(st') == Zeroed(UserMem(st), p, lo, j)
            && PteGrows(st.pte, st'.pte, p, lo, hi)
  {
    hide Core, AllocPage, PteGrows, OnlyTables, OneEntry, UserMem, Zeroed;
    CoreIsFramed(st, {});
    j := lo;
    if hi == lo {
      PteGrowsRefl(st.pte, p, lo, hi);
      ZeroedNone(UserMem(st), p, lo);
      OnlyTablesTrans(st, st, st, p);
    } else {
      j := AllocRangeKeeps(st, p, lo, hi - 1);
      var (s, r) := AllocRange(st, p, lo, hi - 1);
      if r.Mapped? {
        var k := (p, hi - 1);
        assert k !in s.pte by { GrowsInside(st.pte, s.pte, p, lo, hi - 1, k); }
        AllocPageKeeps(s, {}, k, true);
        OnlyTablesTrans(st, s, AllocPage(s, k, true).0, p);
        var r' := AllocPage(s, k, true).1;
        assert r'.NoTable? ==> {} + {r'.frame} == {r'.frame};
        if r'.Mapped? {
          ZeroedStep(UserMem(st), p, lo, hi);
          j := hi;
        }
      }
      PteGrowsStep(st.pte, s.pte, AllocRange(st, p, lo, hi).0.pte, p, lo, hi);
    }
  }

  lemma OnlyTablesTrans(st: St, s: St, s': St, p: Pid)
    ensures OnlyTables(st, st, p)
    ensures OnlyTables(st, s, p) && (OnlyTables(s, s', p) || s'.kern == s.kern) ==> OnlyTables(st, s', p)
  {
  }

  lemma ZeroedNone(m: UMem, p: Pid, lo: nat)
    ensures Zeroed(m, p, lo, lo) == m
  {
  }

  lemma ZeroedStep(m: UMem, p: Pid, lo: nat, hi: nat)
    requires lo < hi
    ensures Zeroed(m, p, lo, hi) == Zeroed(m, p, lo, hi - 1)[(p, hi - 1) := UPage(Filled(0), true)]
  {
  }

  /** allocuvm gives zero pages, or restores exactly the old user mappings. */
  lemma AllocUvmKeeps(st: St, p: Pid, lo: nat, hi: nat)
    requires Core(st, {}) && lo <= hi <= USERPAGES
    requires forall k :: k in st.pte ==> !Within(k, p, lo, hi)
    ensures var (st', ok) := AllocUvm(st, p, lo, hi);
            && Core(st', {}) && Framed(st) && Framed(st') && OnlyTables(st, st', p)
            && (ok ==> UserMem(st') == Zeroed(UserMem(st), p, lo, hi) && PteGrows(st.pte, st'.pte, p, lo, hi))
            && (!ok ==> st'.pte == st.pte && UserMem(st') == UserMem(st))
  {
    hide Core, UserMem, Undone, AllocRange, Zeroed, Without, OnlyTables, PteGrows;
    var j := AllocRangeKeeps(st, p, lo, hi);
    SameKeys(st);
    var (s, r) := AllocRange(st, p, lo, hi);
    if !r.Mapped? {
      UndoneKeeps(s, p, lo, hi, r);
      GrownWithout(st.pte, s.pte, p, lo, hi);
      OnlyTablesTrans(st, s, Undone(s, p, lo, hi, r), p);
      ZeroedWithout(UserMem(st), p, lo, j, hi);
    }
  }

  lemma UndoneKeeps(st: St, p: Pid, lo: nat, hi: nat, r: AllocResult)
    requires Core(st, if r.NoTable? then {r.frame} else {})
    ensures var s := Undone(st, p, lo, hi, r);
            && Core(s, {}) && Framed(st) && Framed(s) && s.kern == st.kern
            && s.pte == Without(st.pte, p, lo, hi) && UserMem(s) == Without(UserMem(st), p, lo, hi)
  {
    hide Core, UserMem, UnmapRange, Without;
    UnmapRangeKeeps(st, if r.NoTable? then {r.frame} else {}, p, lo, hi);
    if r.NoTable? {
      assert {} + {r.frame} == {r.frame};
      DropHeldKeeps(UnmapRange(st, p, lo, hi), {}, r.frame);
    }
  }

  lemma GrownWithout(pte: map<Key, Pte>, pte': map<Key, Pte>, p: Pid, lo: nat, hi: nat)
    requires PteGrows(pte, pte', p, lo, hi) && forall k :: k in pte ==> !Within(k, p, lo, hi)
    ensures Without(pte', p, lo, hi) == pte
  {
  }

  lemma ZeroedWithout(m: UMem, p: Pid, lo: nat, j: nat, hi: nat)
    requires lo <= j <= hi && forall k :: k in m ==> !Within(k, p, lo, hi)
    ensures Without(Zeroed(m, p, lo, j), p, lo, hi) == m
  {
  }

  // ---- copy-on-write sharing ----

  /** Sharing may take PTE_W away in favour of PTE_COW, and changes nothing else. */
  predicate FlagsKept(e: Pte, e': Pte) {
    e'.frame == e.frame && e'.u == e.u && (e'.w || e'.cow <==> e.w || e.cow) && (e'.w ==> e.w)
  }

  ghost predicate SharedWith(pte: map<Key, Pte>, pte': map<Key, Pte>, parent: Pid, child: Pid, n: nat) {
    && (forall k :: k in pte ==> k in pte' && FlagsKept(pte[k], pte'[k]) && (k.0 != parent ==> pte'[k] == pte[k]))
    && (forall k :: k in pte' && k !in pte ==>
          k.0 == child && k.1 < n && (parent, k.1) in pte && FlagsKept(pte[(parent, k.1)], pte'[k]))
  }

  lemma SharedStep(pte: map<Key, Pte>, pte1: map<Key, Pte>, pte2: map<Key, Pte>, parent: Pid, child: Pid, n: nat)
    requires SharedWith(pte, pte1, parent, child, n) && parent != child && (child, n) !in pte1
    requires var k, c := (parent, n), (child, n);
             pte2 == (if k !in pte1 then pte1 else
                      var e := CowFlags(pte1[k]);
                      if c in pte2 then pte1[k := e][c := e] else pte1[k := e])
    ensures SharedWith(pte, pte2, parent, child, n + 1)
  {
    forall k | k in pte ensures k in pte2 && FlagsKept(pte[k], pte2[k]) && (k.0 != parent ==> pte2[k] == pte[k]) {
      assert k in pte1 && FlagsKept(pte[k], pte1[k]);
    }
    forall k | k in pte2 && k !in pte
      ensures k.0 == child && k.1 < n + 1 && (parent, k.1) in pte && FlagsKept(pte[(parent, k.1)], pte2[k])
    {
      if k == (child, n) {
        var q := (parent, n);
        assert q in pte1 && (q in pte ==> FlagsKept(pte[q], pte1[q]));
      }
    }
  }

  lemma CopiedStep(m: UMem, parent: Pid, child: Pid, n: nat)
    requires parent != child
    ensures Copied(m, parent, child, n + 1) ==
            if (parent, n) in m then Copied(m, parent, child, n)[(child, n) := m[(parent, n)]]
            else Copied(m, parent, child, n)
    ensures (parent, n) in Copied(m, parent, child, n) <==> (parent, n) in m
    ensures (parent, n) in m ==> Copied(m, parent, child, n)[(parent, n)] == m[(parent, n)]
  {
    hide Copied;
    var a, b := Copied(m, parent, child, n), Copied(m, parent, child, n + 1);
    forall k: Key ensures (k in b <==> k in a || (k == (child, n) && (parent, n) in m))
      && (k in b ==> b[k] == if k == (child, n) && (parent, n) in m then m[(parent, n)] else a[k])
    {
      CopiedAt(m, parent, child, n, k);
      CopiedAt(m, parent, child, n + 1, k);
    }
    CopiedAt(m, parent, child, n, (parent, n));
  }

  lemma CopiedAt(m: UMem, parent: Pid, child: Pid, n: nat, k: Key)
    ensures var fresh_ := k.0 == child && k.1 < n && (parent, k.1) in m;
      && (k in Copied(m, parent, child, n) <==> k in m || fresh_)
      && (k in Copied(m, parent, child, n) ==>
            Copied(m, parent, child, n)[k] == if fresh_ then m[(parent, k.1)] else m[k])
  {
    assert k == (k.0, k.1);
  }

  lemma CopiedNone(m: UMem, parent: Pid, child: Pid)
    ensures Copied(m, parent, child, 0) == m
  {
  }

  /** copyuvm's loop leaves the child with a copy of a prefix of the parent's pages, and the
      parent with what it had. */
  lemma {:induction false} CopyRangeKeeps(st: St, parent: Pid, child: Pid, n: nat) returns (j: nat)
    requires Core(st, {}) && parent != child
    requires forall k :: k in st.pte ==> k.0 != child
    ensures var (st', ok) := CopyRange(st, parent, child, n);
            && Framed(st) && Framed(st') && Core(st', {})
            && OnlyTables(st, st', child) && SharedWith(st.pte, st'.pte, parent, child, n)
            && j <= n && (ok ==> j == n) && UserMem(st') == Copied(UserMem(st), parent, child, j)
  {
    hide Core, ShareOne, SharedWith, OnlyTables, UserMem, Copied;
    CoreIsFramed(st, {});
    OnlyTablesTrans(st, st, st, child);
    j := 0;
    if n == 0 {
      SharedNone(st.pte, parent, child);
      CopiedNone(UserMem(st), parent, child);
    } else {
      j := CopyRangeKeeps(st, parent, child, n - 1);
      var (s, r) := CopyRange(st, parent, child, n - 1);
      if r {
        SharedOutside(st.pte, s.pte, parent, child, n - 1);
        ShareOneKeeps(s, parent, child, n - 1);
        var (s', ok) := ShareOne(s, parent, child, n - 1);
        OnlyTablesTrans(st, s, s', child);
        SharedStep(st.pte, s.pte, s'.pte, parent, child, n - 1);
        SameKeys(st);
        SameKeys(s);
        CopiedStep(UserMem(st), parent, child, n - 1);
        if ok { j := n; }
      } else {
        SharedMore(st.pte, s.pte, parent, child, n - 1);
      }
    }
  }

  lemma SameKeys(st: St)
    requires Framed(st)
    ensures forall k :: k in UserMem(st) <==> k in st.pte
  {
  }

  lemma SharedNone(pte: map<Key, Pte>, parent: Pid, child: Pid)
    ensures SharedWith(pte, pte, parent, child, 0)
  {
  }

  lemma SharedMore(pte: map<Key, Pte>, pte': map<Key, Pte>, parent: Pid, child: Pid, n: nat)
    requires SharedWith(pte, pte', parent, child, n)
    ensures SharedWith(pte, pte', parent, child, n + 1)
  {
  }

  lemma SharedOutside(pte: map<Key, Pte>, pte': map<Key, Pte>, parent: Pid, child: Pid, n: nat)
    requires SharedWith(pte, pte', parent, child, n) && (child, n) !in pte
    ensures (child, n) !in pte'
  {
  }

  // ---- tearing down and setting up an address space ----

  /** Frames that belong to the page table of p. */
  predicate VmSite(s: KSite, p: Pid) {
    For(s, p) && !s.KStack?
  }

  function KernWithout(kern: map<KSite, nat>, p: Pid): map<KSite, nat> {
    map s | s in kern && !VmSite(s, p) :: kern[s]
  }

  function PteWithout<V>(m: map<Key, V>, p: Pid): map<Key, V> {
    map k | k in m && k.0 != p :: m[k]
  }

  function TablesFrom(kern: map<KSite, nat>, p: Pid, n: nat): map<KSite, nat> {
    map s | s in kern && !(s.Table? && s.p == p && s.d < n) :: kern[s]
  }

  lemma {:induction false} FreeTablesKeeps(st: St, p: Pid, n: nat)
    requires Core(st, {}) && forall k :: k in st.pte ==> k.0 != p
    ensures var st' := FreeTables(st, p, n);
            && Core(st', {}) && Framed(st) && Framed(st') && UserMem(st') == UserMem(st)
            && st'.pte == st.pte && st'.kern == TablesFrom(st.kern, p, n)
  {
    hide Core, UserMem;
    CoreIsFramed(st, {});
    if n == 0 {
      assert TablesFrom(st.kern, p, 0) == st.kern;
    } else {
      FreeTablesKeeps(st, p, n - 1);
      var s := FreeTables(st, p, n - 1);
      var t := Table(p, n - 1);
      if t in s.kern { FreeKernKeeps(s, {}, t); }
      assert TablesFrom(st.kern, p, n) == TablesFrom(st.kern, p, n - 1) - {t};
      assert t !in s.kern ==> TablesFrom(st.kern, p, n - 1) - {t} == TablesFrom(st.kern, p, n - 1);
    }
  }

  /** freevm releases exactly the pages, tables and directory of p. */
  lemma FreeVmKeeps(st: St, p: Pid)
    requires Core(st, {})
    ensures var st' := FreeVm(st, p);
            && Core(st', {}) && Framed(st) && Framed(st')
            && st'.pte == PteWithout(st.pte, p) && UserMem(st') == PteWithout(UserMem(st), p)
            && st'.kern == KernWithout(st.kern, p)
  {
    hide Core, UserMem, UnmapRange, FreeTables;
    CoreIsFramed(st, {});
    UnmapRangeKeeps(st, {}, p, 0, USERPAGES);
    var s1 := UnmapRange(st, p, 0, USERPAGES);
    SameKeys(st);
    AllUserPages(st, {});
    WithoutAll(st.pte, p);
    WithoutAll(UserMem(st), p);
    FreeTablesKeeps(s1, p, NPDENTRIES);
    var s2 := FreeTables(s1, p, NPDENTRIES);
    if Dir(p) in s2.kern { FreeKernKeeps(s2, {}, Dir(p)); }
    KernWithoutIs(st.kern, p);
  }

  lemma AllUserPages(st: St, held: set<nat>)
    requires Core(st, held)
    ensures forall k :: k in st.pte ==> k.1 < USERPAGES
    ensures TablesOk(st.kern)
  {
    forall k | k in st.pte ensures k.1 < USERPAGES { assert PteOk(st, k); }
  }

  lemma WithoutAll<V>(m: map<Key, V>, p: Pid)
    requires forall k :: k in m ==> k.1 < USERPAGES
    ensures Without(m, p, 0, USERPAGES) == PteWithout(m, p)
  {
  }

  lemma KernWithoutIs(kern: map<KSite, nat>, p: Pid)
    requires TablesOk(kern)
    ensures var k1 := TablesFrom(kern, p, NPDENTRIES);
            (if Dir(p) in k1 then k1 - {Dir(p)} else k1) == KernWithout(kern, p)
  {
    var k1 := TablesFrom(kern, p, NPDENTRIES);
    var k2 := if Dir(p) in k1 then k1 - {Dir(p)} else k1;
    forall s ensures s in k2 <==> s in KernWithout(kern, p) {
      if s.Table? && s in kern { assert Table(s.p, s.d) in kern; }
    }
  }

  /** p has no address space yet. */
  ghost predicate NoSpace(st: St, p: Pid) {
    && (forall k :: k in st.pte ==> k.0 != p)
    && (forall s :: s in st.kern ==> !VmSite(s, p))
  }

  /** Only address-space frames of p were added. */
  ghost predicate OnlySpace(kern: map<KSite, nat>, kern': map<KSite, nat>, p: Pid) {
    && (forall s :: s in kern ==> s in kern' && kern'[s] == kern[s])
    && (forall s :: s in kern' && s !in kern ==> VmSite(s, p))
  }

  lemma {:induction false} KvmTablesKeeps(st: St, p: Pid, n: nat)
    requires Core(st, {}) && n <= KVM_TABLES
    ensures var (st', ok) := KvmTables(st, p, n);
            && Core(st', {}) && Framed(st) && Framed(st') && UserMem(st') == UserMem(st)
            && st'.pte == st.pte && OnlyTables(st, st', p)
  {
    hide Core, UserMem, Walk, OnlyTables;
    CoreIsFramed(st, {});
    OnlyTablesTrans(st, st, st, p);
    if n > 0 {
      KvmTablesKeeps(st, p, n - 1);
      var (s, r) := KvmTables(st, p, n - 1);
      if r {
        WalkKeeps(s, {}, p, KvmSlot(n - 1));
        OnlyTablesTrans(st, s, Walk(s, p, KvmSlot(n - 1)).0, p);
      }
    }
  }

  lemma DropNewSpace(kern: map<KSite, nat>, kern': map<KSite, nat>, p: Pid)
    requires forall s :: s in kern ==> !VmSite(s, p)
    requires OnlySpace(kern, kern', p)
    ensures KernWithout(kern', p) == kern
  {
  }

  /** setupkvm builds an address space without user pages, or changes no owner at all. */
  lemma SetupKvmKeeps(st: St, p: Pid)
    requires Core(st, {}) && NoSpace(st, p)
    ensures var (st', ok) := SetupKvm(st, p);
            && Core(st', {}) && Framed(st) && Framed(st') && UserMem(st') == UserMem(st)
            && st'.pte == st.pte
            && (if ok then OnlySpace(st.kern, st'.kern, p) && Dir(p) in st'.kern else st'.kern == st.kern)
  {
    hide Core, UserMem, KvmTables, AllocKern, FreeVm;
    CoreIsFramed(st, {});
    assert VmSite(Dir(p), p);
    AllocKernKeeps(st, {}, Dir(p));
    var (s, r) := AllocKern(st, Dir(p));
    if r {
      KvmTablesKeeps(s, p, KVM_TABLES);
      var (s', ok) := KvmTables(s, p, KVM_TABLES);
      assert OnlySpace(st.kern, s'.kern, p);
      if !ok {
        FreeVmKeeps(s', p);
        DropNewSpace(st.kern, s'.kern, p);
        SameKeys(s');
        assert PteWithout(s'.pte, p) == st.pte;
        assert PteWithout(UserMem(s'), p) == UserMem(st);
      }
    }
  }

  /** copyuvm: the child sees a copy of every resident page, or nothing changed hands
      and the parent sees what it saw. */
  lemma CopyUvmKeeps(st: St, parent: Pid, child: Pid, n: nat)
    requires Core(st, {}) && NoSpace(st, child) && parent != child
    ensures var (st', ok) := CopyUvm(st, parent, child, n);
            && Core(st', {}) && Framed(st) && Framed(st')
            && (ok ==> && UserMem(st') == Copied(UserMem(st), parent, child, n)
                       && OnlySpace(st.kern, st'.kern, child) && Dir(child) in st'.kern
                       && SharedWith(st.pte, st'.pte, parent, child, n))
            && (!ok ==> && UserMem(st') == UserMem(st) && st'.kern == st.kern && st'.pte.Keys == st.pte.Keys
                        && forall k :: k in st.pte ==>
                             FlagsKept(st.pte[k], st'.pte[k]) && (k.0 != parent ==> st'.pte[k] == st.pte[k]))
  {
    hide Core, UserMem, SetupKvm, CopyRange, FreeVm, Copied;
    CoreIsFramed(st, {});
    SetupKvmKeeps(st, child);
    var (s, r) := SetupKvm(st, child);
    if r {
      var j := CopyRangeKeeps(s, parent, child, n);
      var (s', ok) := CopyRange(s, parent, child, n);
      assert OnlySpace(st.kern, s'.kern, child);
      if !ok {
        FreeVmKeeps(s', child);
        DropNewSpace(st.kern, s'.kern, child);
        SameKeys(st);
        CopiedWithout(UserMem(st), parent, child, j);
      }
    }
  }

  lemma CopiedWithout(m: UMem, parent: Pid, child: Pid, j: nat)
    requires forall k :: k in m ==> k.0 != child
    ensures PteWithout(Copied(m, parent, child, j), child) == m
  {
  }
}
