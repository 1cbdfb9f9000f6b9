/** What holds in every run at all, an sbrk that cuts an active mapping included: frames keep
    their owners, counts and exclusivity. */
module VmSound {
  import opened Prelude
  import opened Mmu
  import opened VmState
  import opened VmPrims
  import opened VmRanges
  import opened VmSystem
  import opened VmRefine

  /** VMAs are page-aligned and below KERNBASE, but may overlap or lie above sz. */
  ghost predicate RecordOk(q: Proc) {
    && |q.vmas| == MAX_VMAS && q.sz <= KERNBASE
    && forall i :: 0 <= i < MAX_VMAS && q.vmas[i].used ==>
         && q.vmas[i].start % PGSIZE == 0 && q.vmas[i].length % PGSIZE == 0
         && q.vmas[i].start + q.vmas[i].length <= KERNBASE
  }

  ghost predicate PidsOk(sys: Sys) {
    forall k :: k in sys.st.pte ==> k.0 in sys.procs
  }

  ghost predicate RecordsOk(procs: map<Pid, Proc>) {
    forall p :: p in procs ==> RecordOk(procs[p])
  }

  ghost predicate Sound(sys: Sys) {
    Core(sys.st, {}) && OwnersOk(sys) && PidsOk(sys) && RecordsOk(sys.procs)
  }

  lemma InvIsSound(sys: Sys)
    requires Inv(sys)
    ensures Sound(sys)
  {
    hide Core;
    forall k | k in sys.st.pte ensures k.0 in sys.procs {
      PageOkAt(sys, k);
    }
    forall p | p in sys.procs ensures RecordOk(sys.procs[p]) {
      assert ProcOk(sys.procs[p]);
    }
  }

  lemma SoundFramed(sys: Sys)
    requires Sound(sys)
    ensures Framed(sys.st)
  {
    CoreIsFramed(sys.st, {});
  }

  // ---- the memory of the others ----

  /** Nobody's memory changed but that of p. */
  ghost predicate OthersSame(st: St, s: St, p: Pid) {
    Framed(st) && Framed(s) && PteWithout(UserMem(s), p) == PteWithout(UserMem(st), p)
  }

  lemma OthersPut(m: UMem, k: Key, g: UPage)
    ensures PteWithout(m[k := g], k.0) == PteWithout(m, k.0)
  {
  }

  lemma OthersWithout(m: UMem, p: Pid, lo: nat, hi: nat)
    ensures PteWithout(Without(m, p, lo, hi), p) == PteWithout(m, p)
    ensures PteWithout(PteWithout(m, p), p) == PteWithout(m, p)
  {
  }

  lemma OthersZeroed(m: UMem, p: Pid, lo: nat, hi: nat)
    ensures PteWithout(Zeroed(m, p, lo, hi), p) == PteWithout(m, p)
  {
  }

  lemma OthersCopied(m: UMem, p: Pid, child: Pid, n: nat)
    ensures PteWithout(Copied(m, p, child, n), child) == PteWithout(m, child)
  {
    hide Copied;
    forall k: Key ensures k in PteWithout(Copied(m, p, child, n), child) <==> k in PteWithout(m, child) {
      CopiedAt(m, p, child, n, k);
    }
    forall k: Key | k in PteWithout(m, child) ensures Copied(m, p, child, n)[k] == m[k] {
      CopiedAt(m, p, child, n, k);
    }
  }

  // ---- faults and accesses ----

  /** The state changed at most by the entry k, page tables of k's process, and its page. */
  ghost predicate Touched(st: St, s: St, k: Key) {
    && Core(s, {}) && (OnlyTables(st, s, k.0) || s.kern == st.kern)
    && (forall l :: l in s.pte ==> l in st.pte || l == k)
    && OthersSame(st, s, k.0)
  }

  lemma CoveredPage(q: Proc, va: nat)
    requires RecordOk(q) && VmaFind(q, va).Some?
    ensures va / PGSIZE < USERPAGES && va < KERNBASE
  {
  }

  lemma DemandTouches(st: St, k: Key, w: bool)
    requires Core(st, {}) && k !in st.pte && k.1 < USERPAGES
    ensures var (s, ok) := DemandPage(st, k, w);
            && Touched(st, s, k)
            && (if ok then && k in s.pte && !s.pte[k].cow && s.pte[k].w == w
                           && UserMem(s) == UserMem(st)[k := UPage(Filled(0), true)]
                else UserMem(s) == UserMem(st))
  {
    hide Core, AllocPage, UserMem, OnlyTables, PteWithout;
    AllocPageKeeps(st, {}, k, w);
    var (s, r) := AllocPage(st, k, w);
    OthersPut(UserMem(st), k, UPage(Filled(0), true));
    if r.NoTable? {
      DropHeldKeeps(s, {}, r.frame);
    }
  }

  lemma CowTouches(st: St, k: Key)
    requires Core(st, {})
    ensures Touched(st, CowFault(st, k).0, k) && UserMem(CowFault(st, k).0) == UserMem(st)
    ensures CowFault(st, k).1 == Resolved ==> k in CowFault(st, k).0.pte && !CowFault(st, k).0.pte[k].cow
  {
    hide UserMem, PteWithout;
    CoreIsFramed(st, {});
    if k in st.pte {
      CowFaultKeeps(st, k);
    }
  }

  /** After a retry the page is there, and not COW if the access was a write. */
  lemma TrapTouches(st: St, q: Proc, p: Pid, va: nat, write: bool)
    requires Core(st, {}) && RecordOk(q)
    ensures var k := (p, va / PGSIZE);
            var (s, r) := Trap(st, q, p, va, FaultCode(k in st.pte, write));
            Touched(st, s, k) && (r == Retry ==> k in s.pte && (write ==> !s.pte[k].cow))
  {
    hide Core, CowFault, DemandPage, FindFrom, OnlyTables, UserMem, OthersSame;
    var k := (p, va / PGSIZE);
    NotTouched(st, k);
    CowTouches(st, k);
    if k !in st.pte && VmaFind(q, va).Some? {
      CoveredPage(q, va);
      DemandTouches(st, k, q.vmas[VmaFind(q, va).value].write);
    }
  }

  lemma NotTouched(st: St, k: Key)
    requires Core(st, {})
    ensures Touched(st, st, k)
  {
    CoreIsFramed(st, {});
  }

  /** An access ends within two faults: the bound in UserAccess is never exhausted. */
  lemma AccessTouches(st: St, q: Proc, p: Pid, va: nat, write: bool)
    requires Core(st, {}) && RecordOk(q)
    ensures var k := (p, va / PGSIZE);
            var (s, r) := UserAccess(st, q, p, va, write, 2);
            Touched(st, s, k) && (r == Done ==> HwAllows(s, k, write)) && r != StillFaulting
  {
    hide Core, Trap, OnlyTables, RecordOk, OthersSame;
    var k := (p, va / PGSIZE);
    NotTouched(st, k);
    if !HwAllows(st, k, write) {
      TrapTouches(st, q, p, va, write);
      var (s, r) := Trap(st, q, p, va, FaultCode(k in st.pte, write));
      if r == Retry && !HwAllows(s, k, write) {
        SecondKills(s, q, p, va, write);
      }
    }
  }

  /** A user access at or above KERNBASE kills, whatever the error code says about the kernel's
      own mapping there. */
  lemma KernelAddressKills(sys: Sys, p: Pid, va: nat, err: nat)
    requires Sound(sys) && p in sys.procs && va >= KERNBASE
    ensures Trap(sys.st, sys.procs[p], p, va, err) == (sys.st, Kill)
  {
    hide Core, OwnersOk, FindFrom;
    assert RecordOk(sys.procs[p]);
    if VmaFind(sys.procs[p], va).Some? {
      CoveredPage(sys.procs[p], va);
    }
    AboveUserPages(sys.st, (p, va / PGSIZE));
  }

  lemma StoreTouches(st: St, s: St, k: Key, o: nat, bs: seq<Byte>)
    requires Touched(st, s, k) && HwAllows(s, k, true) && o + |bs| <= PGSIZE
    ensures Touched(st, Store(s, k, o, bs), k)
  {
    hide Core, UserMem, Store, OnlyTables, PteWithout;
    StoreKeeps(s, k, o, bs);
    MemEntry(s, k);
    OthersPut(UserMem(s), k, UserMem(s)[k].(data := Splice(UserMem(s)[k].data, o, bs)));
    OnlyTablesTrans(st, s, Store(s, k, o, bs), k.0);
  }

  lemma CopyoutTouches(st: St, q: Proc, p: Pid, va: nat)
    requires Core(st, {}) && RecordOk(q)
    ensures var k := (p, va / PGSIZE);
            var (s, r) := CopyoutPage(st, q, p, va);
            && Framed(st) && Framed(s) && Touched(st, s, k) && (r == Done ==> HwAllows(s, k, true))
            && (UserMem(s) == UserMem(st)
                || (r == Done && k !in UserMem(st) && UserMem(s) == UserMem(st)[k := UPage(Filled(0), true)]))
  {
    hide Core, CowFault, DemandPage, FindFrom, OnlyTables, PteWithout, UserMem;
    var k := (p, va / PGSIZE);
    NotTouched(st, k);
    SameKeys(st);
    if k in st.pte {
      CowTouches(st, k);
    } else if VmaFind(q, va / PGSIZE * PGSIZE).Some? {
      CoveredPage(q, va / PGSIZE * PGSIZE);
      DemandTouches(st, k, true);
      var (s, ok) := DemandPage(st, k, true);
      if ok { EntryUser(s, k); }
    }
  }

  lemma EntryUser(s: St, k: Key)
    requires Framed(s) && k in s.pte && k in UserMem(s) && UserMem(s)[k] == UPage(Filled(0), true)
    ensures s.pte[k].u && LoadedByte(s, k, 0) == Value(0)
  {
  }

  /** The one process whose memory the operation may change. */
  function Subject(op: Op): Pid {
    if op.Fork? then op.child else op.p
  }

  /** The step ends in a sound state with the memory of all others as it was. */
  ghost predicate Fair(sys: Sys, op: Op) {
    Sound(Step(sys, op).0) && OthersSame(sys.st, Step(sys, op).0.st, Subject(op))
  }

  // ---- each operation ----

  lemma NoSpaceOf(sys: Sys, p: Pid)
    requires Sound(sys) && p !in sys.procs
    ensures NoSpace(sys.st, p) && KStack(p) !in sys.st.kern
  {
  }

  /** The record of one process replaced, its pages and page tables perhaps changed. */
  lemma RecordSound(sys: Sys, s: St, p: Pid, q: Proc)
    requires Sound(sys) && p in sys.procs && RecordOk(q) && Core(s, {})
    requires OnlyTables(sys.st, s, p) || s.kern == sys.st.kern
    requires forall k :: k in s.pte ==> k in sys.st.pte || k.0 == p
    ensures Sound(Sys(s, sys.procs[p := q])) && Sound(Sys(s, sys.procs))
  {
    hide Core, RecordOk;
    OwnersGrow(sys, s, p);
  }

  lemma AccessSound(sys: Sys, op: Op)
    requires Sound(sys) && Enabled(sys.procs, op) && (op.Load? || op.StoreTo? || op.KernelWrite?)
    ensures Fair(sys, op)
  {
    hide Core, UserAccess, CopyoutPage, Store, OnlyTables, OwnersOk, RecordOk, OthersSame;
    var p, q, k := op.p, sys.procs[op.p], (op.p, op.va / PGSIZE);
    AccessTouches(sys.st, q, p, op.va, !op.Load?);
    CopyoutTouches(sys.st, q, p, op.va);
    var (s, r) := if op.KernelWrite? then CopyoutPage(sys.st, q, p, op.va)
                  else UserAccess(sys.st, q, p, op.va, !op.Load?, 2);
    if r == Done && !op.Load? {
      StoreTouches(sys.st, s, k, op.va % PGSIZE, if op.StoreTo? then [op.b] else op.bs);
    }
    DeadOk(q);
    var t := Step(sys, op).0.st;
    assert Touched(sys.st, t, k);
    RecordSound(sys, t, p, Dead(q));
  }

  lemma DeadOk(q: Proc)
    requires RecordOk(q)
    ensures RecordOk(Dead(q))
  {
  }

  lemma ForkSound(sys: Sys, op: Op)
    requires Sound(sys) && Enabled(sys.procs, op) && op.Fork?
    ensures Fair(sys, op)
  {
    hide Core, ForkSt, UserMem, Copied, RecordOk, FlagsKept, PteWithout;
    NoSpaceOf(sys, op.child);
    ForkStKeeps(sys.st, op.p, op.child, PagesFor(sys.procs[op.p].sz));
    OthersCopied(UserMem(sys.st), op.p, op.child, PagesFor(sys.procs[op.p].sz));
  }

  lemma UserInitSound(sys: Sys, op: Op)
    requires Sound(sys) && Enabled(sys.procs, op) && op.UserInit?
    ensures Fair(sys, op)
  {
    hide Core, AllocKern, SetupKvm, AllocPage, Store, UserMem, Splice, RecordOk, OneEntry, PteWithout;
    var st, p, k := sys.st, op.p, (op.p, 0);
    CoreIsFramed(st, {});
    NoSpaceOf(sys, p);
    AllocKernKeeps(st, {}, KStack(p));
    var (s1, ok1) := AllocKern(st, KStack(p));
    if ok1 {
      assert NoSpace(s1, p);
      SetupKvmKeeps(s1, p);
      var (s2, ok2) := SetupKvm(s1, p);
      if ok2 {
        assert k !in s2.pte;
        AllocPageKeeps(s2, {}, k, true);
        var (s3, r) := AllocPage(s2, k, true);
        if r.Mapped? {
          EntryPresent(s2, s3, k);
          StoreKeeps(s3, k, 0, op.image);
          MemEntry(s3, k);
          OthersPut(UserMem(st), k, UPage(Filled(0), true));
          OthersPut(UserMem(s3), k, UserMem(s3)[k].(data := Splice(UserMem(s3)[k].data, 0, op.image)));
          SpawnSound(sys, Store(s3, k, 0, op.image), p);
        }
      }
    }
  }

  lemma SpawnSound(sys: Sys, s: St, p: Pid)
    requires Sound(sys) && p !in sys.procs && Core(s, {}) && OneEntry(sys.st.pte, s.pte, (p, 0))
    requires Dir(p) in s.kern && KStack(p) in s.kern
    requires forall t :: t in sys.st.kern ==> t in s.kern
    requires forall t :: t in s.kern ==> t in sys.st.kern || For(t, p)
    ensures Sound(Sys(s, sys.procs[p := InitProc()]))
  {
    hide Core;
  }

  lemma GrowTouches(st: St, p: Pid, lo: nat, hi: nat)
    requires Core(st, {}) && lo <= hi <= USERPAGES
    ensures var s := GrowUvm(st, p, lo, hi).0;
            && Core(s, {}) && (OnlyTables(st, s, p) || s.kern == st.kern) && OthersSame(st, s, p)
            && (forall k :: k in s.pte ==> k in st.pte || k.0 == p)
            && (GrowUvm(st, p, lo, hi).1.NoMemoryLeft? ==> UserMem(s) == Without(UserMem(st), p, lo, hi))
            && (GrowUvm(st, p, lo, hi).1.Grown? ==> UserMem(s) == Zeroed(UserMem(st), p, lo, hi))
  {
    hide Core, AllocRange, Undone, FirstResident, UserMem, Zeroed, OnlyTables, PteWithout, Without;
    var v := FirstResident(st.pte, p, lo, hi);
    assert forall k :: k in st.pte ==> !Within(k, p, lo, v);
    var j := AllocRangeKeeps(st, p, lo, v);
    var (s, r) := AllocRange(st, p, lo, v);
    OthersZeroed(UserMem(st), p, lo, j);
    OthersWithout(UserMem(st), p, lo, hi);
    if !r.Mapped? || v < hi {
      var u := if r.Mapped? then NoFrame else r;
      UndoneKeeps(s, p, lo, hi, u);
      WithoutOnly(s.pte, p, lo, hi);
      ZeroedGone(UserMem(st), p, lo, j, hi);
      OnlyTablesTrans(st, s, Undone(s, p, lo, hi, u), p);
    }
  }

  lemma ZeroedGone(m: UMem, p: Pid, lo: nat, j: nat, hi: nat)
    requires lo <= j <= hi
    ensures Without(Zeroed(m, p, lo, j), p, lo, hi) == Without(m, p, lo, hi)
  {
  }

  lemma SbrkSound(sys: Sys, op: Op)
    requires Sound(sys) && Enabled(sys.procs, op) && op.Sbrk?
    ensures Fair(sys, op)
  {
    hide Core, GrowUvm, UnmapRange, OnlyTables, OwnersOk, UserMem, Without, PteWithout;
    var p, q, n := op.p, sys.procs[op.p], op.n;
    CoreIsFramed(sys.st, {});
    if n > 0 && q.sz + n < KERNBASE {
      PagesMono(q.sz, q.sz + n);
      PagesMono(q.sz + n, KERNBASE);
      KernelAligned();
      GrowTouches(sys.st, p, PagesFor(q.sz), PagesFor(q.sz + n));
      RecordSound(sys, GrowUvm(sys.st, p, PagesFor(q.sz), PagesFor(q.sz + n)).0, p, Resized(q, n));
    } else if n < 0 && q.sz + n >= 0 {
      var lo, hi := PagesFor(q.sz + n), PagesFor(q.sz);
      UnmapRangeKeeps(sys.st, {}, p, lo, hi);
      WithoutOnly(sys.st.pte, p, lo, hi);
      OthersWithout(UserMem(sys.st), p, lo, hi);
      RecordSound(sys, UnmapRange(sys.st, p, lo, hi), p, Resized(q, n));
    }
  }

  lemma VmaSound(sys: Sys, op: Op)
    requires Sound(sys) && Enabled(sys.procs, op) && (op.Mmap? || op.Munmap? || op.Mprotect?)
    ensures Fair(sys, op)
  {
    hide Core, UnmapRange, ProtectRange, OnlyTables, OwnersOk, UserMem, Without, ExactSlot, FreeSlotFrom, PteWithout;
    var p, q := op.p, sys.procs[op.p];
    CoreIsFramed(sys.st, {});
    if op.Mmap? {
      RecordSound(sys, sys.st, p, MmapProc(q, op.n).0);
    } else {
      var r := ExactSlot(q, op.va, op.n);
      if r.Some? {
        var v := q.vmas[r.value];
        var lo, hi := v.start / PGSIZE, (v.start + v.length) / PGSIZE;
        if op.Munmap? {
          UnmapRangeKeeps(sys.st, {}, p, lo, hi);
          WithoutOnly(sys.st.pte, p, lo, hi);
          OthersWithout(UserMem(sys.st), p, lo, hi);
          RecordSound(sys, UnmapRange(sys.st, p, lo, hi), p, Forgotten(q, r.value));
        } else {
          var w := op.prot == PROT_READ + PROT_WRITE;
          ProtectRangeKeeps(sys.st, p, lo, hi, w);
          RecordSound(sys, ProtectRange(sys.st, p, lo, hi, w), p, Reprotected(q, r.value, w));
        }
      }
    }
  }

  lemma EndSound(sys: Sys, op: Op)
    requires Sound(sys) && Enabled(sys.procs, op) && (op.Exit? || op.Reap?)
    ensures Fair(sys, op)
  {
    hide Core, FreeVm, FreeKern, UserMem, PteWithout;
    var st, p := sys.st, op.p;
    CoreIsFramed(st, {});
    if op.Exit? {
      DeadOk(sys.procs[p]);
      RecordSound(sys, st, p, Dead(sys.procs[p]));
    } else {
      FreeKernKeeps(st, {}, KStack(p));
      FreeKernIs(st, KStack(p));
      FreeVmKeeps(FreeKern(st, KStack(p)), p);
      OthersWithout(UserMem(st), p, 0, 0);
      ReapedOwners(sys, ReapSt(st, p), p);
    }
  }

  lemma ReapedOwners(sys: Sys, s: St, p: Pid)
    requires Sound(sys) && Core(s, {}) && s.pte == PteWithout(sys.st.pte, p)
    requires s.kern == KernWithout(sys.st.kern - {KStack(p)}, p)
    ensures Sound(Sys(s, sys.procs - {p}))
  {
    hide Core, RecordOk, OwnersOk, KernWithout;
    ReapOwners(sys, s, p);
  }

  // ---- whole runs ----

  lemma StepFair(sys: Sys, op: Op)
    requires Sound(sys)
    ensures Fair(sys, op)
  {
    hide Sound, Fair;
    if !Enabled(sys.procs, op) {
      IdleFair(sys, op);
    }
    if Enabled(sys.procs, op) {
      match op {
        case UserInit(_, _) => UserInitSound(sys, op);
        case Fork(_, _) => ForkSound(sys, op);
        case Sbrk(_, _) => SbrkSound(sys, op);
        case Exit(_) => EndSound(sys, op);
        case Reap(_) => EndSound(sys, op);
        case Load(_, _) => AccessSound(sys, op);
        case StoreTo(_, _, _) => AccessSound(sys, op);
        case KernelWrite(_, _, _) => AccessSound(sys, op);
        case _ => VmaSound(sys, op);
      }
    }
  }

  lemma IdleFair(sys: Sys, op: Op)
    requires Sound(sys) && !Enabled(sys.procs, op)
    ensures Fair(sys, op)
  {
    CoreIsFramed(sys.st, {});
  }

  lemma StepSound(sys: Sys, op: Op)
    requires Sound(sys)
    ensures Sound(Step(sys, op).0)
  {
    hide Sound, Step;
    StepFair(sys, op);
  }

  lemma {:induction false} RunSound(sys: Sys, ops: seq<Op>)
    requires Sound(sys)
    ensures Sound(Run(sys, ops).0)
    decreases |ops|
  {
    hide Sound, Step;
    if ops != [] {
      StepSound(sys, ops[0]);
      RunSound(Step(sys, ops[0]).0, ops[1..]);
    }
  }
}
