/** Processes, page tables and the reference-count invariant (proc.h, vm.c, kalloc.c). */
module VmState {
  import opened Mmu
  import opened Frames

  type Pid = nat
  /** A user page of one address space: process and virtual page number. */
  type Key = (Pid, nat)

  /** Frames owned by the kernel: on behalf of a process, or since boot and for good, for its own
      page directory and the stacks of the other processors. */
  datatype KSite = Dir(p: Pid) | Table(p: Pid, d: nat) | KStack(p: Pid) | Static(f: nat)

  /** The kernel owns s on behalf of p. */
  predicate For(s: KSite, p: Pid) {
    !s.Static? && s.p == p
  }

  datatype St = St(m: Mem, pte: map<Key, Pte>, kern: map<KSite, nat>)

  function UserSites(pte: map<Key, Pte>, f: nat): set<Key> {
    set k | k in pte && pte[k].frame == f
  }

  function KernSites(kern: map<KSite, nat>, f: nat): set<KSite> {
    set s | s in kern && kern[s] == f
  }

  /** Owners of frame `f`: user PTEs, kernel objects, and kernel code that holds
      the frame in a local variable (`held`). */
  function Owners(st: St, held: set<nat>, f: nat): nat {
    |UserSites(st.pte, f)| + |KernSites(st.kern, f)| + if f in held then 1 else 0
  }

  /** Reference conservation: every managed frame's count is its number of owners. */
  ghost predicate Counted(st: St, held: set<nat>) {
    forall f: nat {:trigger Owners(st, held, f)} :: Managed(st.m, f) ==> st.m.refcnt[f] == Owners(st, held, f)
  }

  ghost predicate Exclusive(m: Mem, f: nat) {
    Managed(m, f) && m.refcnt[f] == 1
  }

  ghost predicate KernelFramesExclusive(st: St, held: set<nat>) {
    && (forall s :: s in st.kern ==> Exclusive(st.m, st.kern[s]))
    && (forall f :: f in held ==> Exclusive(st.m, f))
  }

  /** A PTE never has both W and COW, and W means the frame has no other owner. */
  ghost predicate PteOk(st: St, k: Key)
    requires k in st.pte
  {
    var e := st.pte[k];
    && Managed(st.m, e.frame)
    && (e.w ==> !e.cow && Exclusive(st.m, e.frame))
    && k.1 < USERPAGES
    && Table(k.0, k.1 / NPTENTRIES) in st.kern
  }

  /** Sharing only ever happens at the same virtual page. */
  ghost predicate SharedAligned(pte: map<Key, Pte>) {
    forall k, l :: k in pte && l in pte && pte[k].frame == pte[l].frame ==> k.1 == l.1
  }

  ghost predicate TablesOk(kern: map<KSite, nat>) {
    forall p: Pid, d: nat :: Table(p, d) in kern ==> d < NPDENTRIES
  }

  /** What every kernel step keeps; `held` are frames in the hands of running kernel code. */
  ghost predicate Core(st: St, held: set<nat>) {
    && KmemInv(st.m)
    && Counted(st, held)
    && KernelFramesExclusive(st, held)
    && (forall k :: k in st.pte ==> PteOk(st, k))
    && SharedAligned(st.pte)
    && TablesOk(st.kern)
  }

  /** The tables differ at most in the entry at k, which is present afterwards. */
  ghost predicate OneEntry(pte: map<Key, Pte>, pte': map<Key, Pte>, k: Key) {
    && k in pte'
    && (forall l :: l in pte' <==> l in pte || l == k)
    && (forall l :: l in pte && l != k ==> pte'[l] == pte[l])
  }

  /** Kernel objects of st are still there in st', unmoved. */
  ghost predicate KernGrows(st: St, st': St) {
    forall t :: t in st.kern ==> t in st'.kern && st'.kern[t] == st.kern[t]
  }

  /** Only page tables of p were added. */
  ghost predicate OnlyTables(st: St, st': St, p: Pid) {
    && KernGrows(st, st')
    && forall t :: t in st'.kern ==> t in st.kern || (t.Table? && t.p == p)
  }

  /** A resident user page as its process sees it. */
  datatype UPage = UPage(data: Page, u: bool)

  type UMem = map<Key, UPage>

  ghost predicate Framed(st: St) {
    forall k :: k in st.pte ==> st.pte[k].frame < |st.m.data|
  }

  /** The user memory that the page tables and frames represent. */
  function UserMem(st: St): UMem
    requires Framed(st)
  {
    map k | k in st.pte :: UPage(st.m.data[st.pte[k].frame], st.pte[k].u)
  }

  // ---- counting ----

  lemma SitesAdd(pte: map<Key, Pte>, k: Key, e: Pte, f: nat)
    requires k !in pte
    ensures UserSites(pte[k := e], f) == UserSites(pte, f) + if e.frame == f then {k} else {}
    ensures |UserSites(pte[k := e], f)| == |UserSites(pte, f)| + if e.frame == f then 1 else 0
  {
    assert UserSites(pte[k := e], f) == UserSites(pte, f) + if e.frame == f then {k} else {};
  }

  lemma SitesDrop(pte: map<Key, Pte>, k: Key, f: nat)
    requires k in pte
    ensures |UserSites(pte - {k}, f)| == |UserSites(pte, f)| - if pte[k].frame == f then 1 else 0
  {
    assert UserSites(pte - {k}, f) == UserSites(pte, f) - {k};
    assert pte[k].frame == f ==> k in UserSites(pte, f);
  }

  lemma KernAdd(kern: map<KSite, nat>, s: KSite, g: nat, f: nat)
    requires s !in kern
    ensures |KernSites(kern[s := g], f)| == |KernSites(kern, f)| + if g == f then 1 else 0
  {
    assert KernSites(kern[s := g], f) == KernSites(kern, f) + if g == f then {s} else {};
  }

  lemma KernDrop(kern: map<KSite, nat>, s: KSite, f: nat)
    requires s in kern
    ensures |KernSites(kern - {s}, f)| == |KernSites(kern, f)| - if kern[s] == f then 1 else 0
  {
    assert KernSites(kern - {s}, f) == KernSites(kern, f) - {s};
    assert kern[s] == f ==> s in KernSites(kern, f);
  }

  lemma OneElement<T>(s: set<T>, x: T, y: T)
    requires |s| == 1 && x in s && y in s
    ensures x == y
  {
    assert |s - {x}| == 0;
  }

  /** An exclusively owned user frame is mapped once and by nobody else. */
  lemma ExclusiveUser(st: St, held: set<nat>, k: Key)
    requires Core(st, held) && k in st.pte && Exclusive(st.m, st.pte[k].frame)
    ensures forall l :: l in st.pte && st.pte[l].frame == st.pte[k].frame ==> l == k
    ensures forall s :: s in st.kern ==> st.kern[s] != st.pte[k].frame
    ensures st.pte[k].frame !in held
  {
    var f := st.pte[k].frame;
    assert st.m.refcnt[f] == Owners(st, held, f) && k in UserSites(st.pte, f);
    assert |UserSites(st.pte, f)| >= 1;
    forall l | l in st.pte && st.pte[l].frame == f ensures l == k {
      OneElement(UserSites(st.pte, f), k, l);
    }
    forall s | s in st.kern ensures st.kern[s] != f {
      assert st.kern[s] == f ==> s in KernSites(st.kern, f);
    }
  }

  /** A kernel-owned frame is mapped by no user page and owned by no other kernel object. */
  lemma ExclusiveKern(st: St, held: set<nat>, s: KSite)
    requires Core(st, held) && s in st.kern
    ensures forall l :: l in st.pte ==> st.pte[l].frame != st.kern[s]
    ensures forall t :: t in st.kern && st.kern[t] == st.kern[s] ==> t == s
    ensures st.kern[s] !in held
  {
    var f := st.kern[s];
    assert Exclusive(st.m, f) && st.m.refcnt[f] == Owners(st, held, f) && s in KernSites(st.kern, f);
    assert |KernSites(st.kern, f)| >= 1;
    forall t | t in st.kern && st.kern[t] == f ensures t == s {
      OneElement(KernSites(st.kern, f), s, t);
    }
    forall l | l in st.pte ensures st.pte[l].frame != f {
      assert st.pte[l].frame == f ==> l in UserSites(st.pte, f);
    }
  }

  /** A frame in the hands of kernel code, or on the free list, is mapped nowhere. */
  lemma Unmapped(st: St, held: set<nat>, f: nat)
    requires Core(st, held)
    requires f in held || (Managed(st.m, f) && st.m.refcnt[f] == 0)
    ensures forall l :: l in st.pte ==> st.pte[l].frame != f
    ensures forall s :: s in st.kern ==> st.kern[s] != f
    ensures UserSites(st.pte, f) == {} && KernSites(st.kern, f) == {}
  {
    assert st.m.refcnt[f] == Owners(st, held, f) by { assert f in held ==> Exclusive(st.m, f); }
    assert |UserSites(st.pte, f)| == 0 && |KernSites(st.kern, f)| == 0;
    forall l | l in st.pte ensures st.pte[l].frame != f {
      assert st.pte[l].frame == f ==> l in UserSites(st.pte, f);
    }
    forall s | s in st.kern ensures st.kern[s] != f {
      assert st.kern[s] == f ==> s in KernSites(st.kern, f);
    }
  }

  /** All mappings of one frame sit at one virtual page, so an address space maps it
      at most once: the count never exceeds the number of address spaces. */
  lemma CountBoundedBySpaces(st: St, f: nat, pids: set<Pid>)
    requires Core(st, {}) && Managed(st.m, f)
    requires forall k :: k in st.pte ==> k.0 in pids
    requires st.m.refcnt[f] > 1
    ensures st.m.refcnt[f] <= |pids|
  {
    forall s ensures s !in KernSites(st.kern, f) {
      assert s in KernSites(st.kern, f) ==> Exclusive(st.m, st.kern[s]);
    }
    assert KernSites(st.kern, f) == {} && st.m.refcnt[f] == Owners(st, {}, f);
    InjectOwners(UserSites(st.pte, f), pids);
  }

  lemma {:induction false} InjectOwners(ks: set<Key>, pids: set<Pid>)
    requires forall k :: k in ks ==> k.0 in pids
    requires forall k, l :: k in ks && l in ks ==> k.1 == l.1
    ensures |ks| <= |pids|
  {
    if ks != {} {
      var k :| k in ks;
      InjectOwners(ks - {k}, pids - {k.0});
    }
  }
}
