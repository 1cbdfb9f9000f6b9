/** Where sbrk does not do what its callers expect, and exactly when. */
module VmSbrk {
  import opened Prelude
  import opened Mmu
  import opened Frames
  import opened VmState
  import opened VmPrims
  import opened VmRanges
  import opened VmSystem
  import opened VmRefine
  import opened VmSound
  import opened VmTheorems
  import opened VmSupply

  // ---- mmap after a shrink ----

  /** growproc shrinks sz without looking at the VMAs, and mmap starts at the rounded sz.  The
      next mmap keeps the mappings apart exactly when there is no slot for another mapping, or
      when every active mapping ends at or below the rounded new size. */
  lemma NextMmapApartIff(q: Proc, n: int)
    requires ProcOk(q) && 0 < q.sz + n < q.sz
    ensures (forall m: int :: Disjoint(MmapProc(Resized(q, n), m).0)) <==>
              FreeSlotFrom(q.vmas, 0).None? || EndsBelow(q, RoundUp(q.sz + n))
  {
    if FreeSlotFrom(q.vmas, 0).None? || EndsBelow(q, RoundUp(q.sz + n)) {
      forall m: int ensures Disjoint(MmapProc(Resized(q, n), m).0) {
        MmapStaysApart(q, n, m);
      }
    } else {
      var i :| 0 <= i < |q.vmas| && q.vmas[i].used && q.vmas[i].start + q.vmas[i].length > RoundUp(q.sz + n);
      MmapOverlaps(q, n, i);
    }
  }

  lemma MmapStaysApart(q: Proc, n: int, m: int)
    requires ProcOk(q) && 0 < q.sz + n < q.sz && (FreeSlotFrom(q.vmas, 0).None? || EndsBelow(q, RoundUp(q.sz + n)))
    ensures Disjoint(MmapProc(Resized(q, n), m).0)
  {
    hide FreeSlotFrom, RoundUp;
    var q1 := MmapProc(Resized(q, n), m).0;
    forall i, j | 0 <= i < j < |q1.vmas| && q1.vmas[i].used && q1.vmas[j].used ensures Apart(q1.vmas[i], q1.vmas[j]) {
      assert q1.vmas[i] == q.vmas[i] && q1.vmas[j] == q.vmas[j] ==> Apart(q.vmas[i], q.vmas[j]);
    }
  }

  lemma WholePages(start: nat, length: nat, low: nat, sz: nat)
    requires start % PGSIZE == 0 && length % PGSIZE == 0 && low % PGSIZE == 0 && low < start + length <= RoundUp(sz)
    requires sz <= KERNBASE
    ensures RoundUp(start + length - low) == start + length - low && RoundUp(low) == low && RoundUp(sz) <= KERNBASE
  {
    hide PagesFor;
    assert KERNBASE % PGSIZE == 0;
    assert (start + length - low) % PGSIZE == 0;
  }

  /** A mapping that ends above the rounded new size is met by an mmap that reaches its end. */
  lemma MmapOverlaps(q: Proc, n: int, i: nat)
    requires ProcOk(q) && 0 < q.sz + n < q.sz && i < MAX_VMAS && q.vmas[i].used && FreeSlotFrom(q.vmas, 0).Some?
    requires q.vmas[i].start + q.vmas[i].length > RoundUp(q.sz + n)
    ensures !Disjoint(MmapProc(Resized(q, n), q.vmas[i].start + q.vmas[i].length - RoundUp(q.sz + n)).0)
  {
    hide FreeSlotFrom, RoundUp;
    var v := q.vmas[i];
    var m := v.start + v.length - RoundUp(q.sz + n);
    assert v.start + v.length <= RoundUp(q.sz);
    WholePages(v.start, v.length, RoundUp(q.sz + n), q.sz);
    var j := FreeSlotFrom(q.vmas, 0).value;
    var q1 := MmapProc(Resized(q, n), m).0;
    assert q1.vmas[i] == v && q1.vmas[j] == Vma(RoundUp(q.sz + n), m, true, true);
    assert !Apart(q1.vmas[i], q1.vmas[j]) && !Apart(q1.vmas[j], q1.vmas[i]);
  }

  /** As long as p exists, its mappings do not overlap. */
  ghost predicate StaysApart(sys: Sys, p: Pid) {
    p in sys.procs ==> Disjoint(sys.procs[p])
  }

  /** Over whole runs: after a shrink the mappings of p stay apart, whatever happens short of
      another cut, exactly when every active mapping ends at or below the rounded new size. */
  lemma ShrinkApartIff(sys: Sys, p: Pid, n: int)
    requires Inv(sys) && Enabled(sys.procs, Sbrk(p, n)) && 0 < sys.procs[p].sz + n < sys.procs[p].sz
    ensures var s := Step(sys, Sbrk(p, n)).0;
            (forall ops :: Uncut(s, ops) ==> StaysApart(Run(s, ops).0, p)) <==>
              EndsBelow(sys.procs[p], RoundUp(sys.procs[p].sz + n))
  {
    hide Inv, Step, Run, RoundUp, UserMem, ProcOk;
    var q, s := sys.procs[p], Step(sys, Sbrk(p, n)).0;
    ProcOkAt(sys, p);
    if EndsBelow(q, RoundUp(q.sz + n)) {
      StepRefines(sys, Sbrk(p, n));
      forall ops | Uncut(s, ops) ensures StaysApart(Run(s, ops).0, p) {
        CowRefinesEager(s, ops);
        InvApart(Run(s, ops).0, p);
      }
    } else {
      var i :| 0 <= i < |q.vmas| && q.vmas[i].used && q.vmas[i].start + q.vmas[i].length > RoundUp(q.sz + n);
      var ops := CutOverlaps(sys, p, n, i);
      assert Uncut(s, ops) && !StaysApart(Run(s, ops).0, p);
    }
  }

  lemma InvApart(sys: Sys, p: Pid)
    requires Inv(sys)
    ensures StaysApart(sys, p)
  {
    hide Core, PagesOk, OwnersOk;
    assert p in sys.procs ==> ProcOk(sys.procs[p]);
  }

  /** After a cut, mmap overlaps the cut mapping, at once or after a munmap that makes room. */
  lemma CutOverlaps(sys: Sys, p: Pid, n: int, i: nat) returns (ops: seq<Op>)
    requires Runnable(sys.procs, p) && CutAt(sys.procs[p], n, i)
    ensures var s := Step(sys, Sbrk(p, n)).0; Uncut(s, ops) && !StaysApart(Run(s, ops).0, p)
  {
    hide Step, Run, UnmapRange, FreeSlotFrom, RoundUp, ExactSlot, MmapProc;
    var q, s := sys.procs[p], Step(sys, Sbrk(p, n)).0;
    ShrinkRecord(sys, p, n);
    var m := q.vmas[i].start + q.vmas[i].length - RoundUp(q.sz + n);
    CutPages(q, n, i);
    var a := Mmap(p, m);
    if FreeSlotFrom(q.vmas, 0).Some? {
      ops := [a];
      MmapOverlaps(q, n, i);
      MmapRun(s, p, m);
    } else {
      var j := if i == 0 then 1 else 0;
      assert q.vmas[j].used;
      var b := Munmap(p, q.vmas[j].start, q.vmas[j].length);
      ops := [b, a];
      ForgottenOk(q, j);
      RoomIn(q, j);
      assert Forgotten(q, j).vmas[i] == q.vmas[i] && Resized(Forgotten(q, j), n) == Forgotten(Resized(q, n), j);
      MmapOverlaps(Forgotten(q, j), n, i);
      ExactAt(q, n, j);
      MunmapRecord(s, p, j, b);
      var s1 := Step(s, b).0;
      MmapRun(s1, p, m);
      RunStep(s, b, [a]);
      assert [b] + [a] == ops && ops[1..] == [a];
    }
  }

  lemma ShrinkRecord(sys: Sys, p: Pid, n: int)
    requires Runnable(sys.procs, p) && -0x8000_0000 <= n && 0 < sys.procs[p].sz + n < sys.procs[p].sz
    ensures Step(sys, Sbrk(p, n)).0.procs == sys.procs[p := Resized(sys.procs[p], n)]
  {
    hide UnmapRange;
  }

  lemma RoomIn(q: Proc, j: nat)
    requires j < |q.vmas|
    ensures FreeSlotFrom(Forgotten(q, j).vmas, 0).Some?
  {
    assert !Forgotten(q, j).vmas[j].used;
  }

  /** Lookup by extent finds mapping j: mappings are disjoint and not empty. */
  lemma ExactAt(q: Proc, n: int, j: nat)
    requires ProcOk(q) && 0 <= q.sz + n && j < MAX_VMAS && q.vmas[j].used
    ensures ExactSlot(Resized(q, n), q.vmas[j].start, q.vmas[j].length) == Some(j)
  {
    var v := q.vmas[j];
    forall i | 0 <= i < MAX_VMAS && i != j ensures !Exactly(q.vmas[i], v.start, v.length) {
      assert q.vmas[i].used ==> Apart(q.vmas[i], v) || Apart(v, q.vmas[i]);
    }
  }

  lemma MunmapRecord(s: Sys, p: Pid, j: nat, b: Op)
    requires b.Munmap? && Enabled(s.procs, b) && b.p == p && ExactSlot(s.procs[p], b.va, b.n) == Some(j)
    ensures Step(s, b).0.procs == s.procs[p := Forgotten(s.procs[p], j)]
  {
    hide UnmapRange, ExactSlot;
  }

  lemma MmapRun(s: Sys, p: Pid, m: int)
    requires Enabled(s.procs, Mmap(p, m)) && !Disjoint(MmapProc(s.procs[p], m).0)
    ensures Uncut(s, [Mmap(p, m)]) && !StaysApart(Run(s, [Mmap(p, m)]).0, p)
  {
    hide MmapProc, Disjoint;
    RunStep(s, Mmap(p, m), []);
    assert [Mmap(p, m)] + [] == [Mmap(p, m)];
    assert [Mmap(p, m)][1..] == [];
  }

  // ---- runs, step by step ----

  lemma RunStep(sys: Sys, op: Op, ops: seq<Op>)
    ensures var (s, o) := Step(sys, op); var (t, os) := Run(s, ops); Run(sys, [op] + ops) == (t, [o] + os)
  {
    hide Step;
    assert ([op] + ops)[1..] == ops;
  }

  lemma RunNothing(sys: Sys)
    ensures Run(sys, []) == (sys, [])
  {
  }

  /** mmap, sbrk below the mapping, mmap again, by the first process: two active mappings of
      the same page. */
  lemma ShrinkThenMmapOverlaps(m: Mem, own: set<nat>, image: Page)
    requires BootMem(m, own) && |m.free| >= KVM_TABLES + 4
    ensures var s := Run(Boot(m, own), [UserInit(1, image), Mmap(1, PGSIZE), Sbrk(1, 0 - PGSIZE), Mmap(1, PGSIZE)]).0;
            && 1 in s.procs && |s.procs[1].vmas| == MAX_VMAS
            && s.procs[1].vmas[0].used && s.procs[1].vmas[0] == s.procs[1].vmas[1]
  {
    hide Step, Run, Inv;
    var a, b, c := Mmap(1, PGSIZE), Sbrk(1, 0 - PGSIZE), Mmap(1, PGSIZE);
    AfterUserInit(m, own, image);
    var s0 := Step(Boot(m, own), UserInit(1, image)).0;
    var s1, s2, s3 := Step(s0, a).0, Step(Step(s0, a).0, b).0, Step(Step(Step(s0, a).0, b).0, c).0;
    RunNothing(s3);
    RunStep(s2, c, []);
    RunStep(s1, b, [c]);
    RunStep(s0, a, [b, c]);
    RunStep(Boot(m, own), UserInit(1, image), [a, b, c]);
    assert [UserInit(1, image)] + [a, b, c] == [UserInit(1, image), a, b, c];
    assert [a] + [b, c] == [a, b, c] && [b] + [c] == [b, c] && [c] + [] == [c];
    OverlapRecord(s0);
  }

  lemma OverlapRecord(s0: Sys)
    requires s0.procs == map[1 := InitProc()]
    ensures var s2 := Step(Step(s0, Mmap(1, PGSIZE)).0, Sbrk(1, 0 - PGSIZE)).0;
            var s := Step(s2, Mmap(1, PGSIZE)).0;
            && 1 in s.procs && |s.procs[1].vmas| == MAX_VMAS
            && s.procs[1].vmas[0].used && s.procs[1].vmas[0] == s.procs[1].vmas[1]
  {
    hide UnmapRange;
    var q0 := InitProc();
    assert FreeSlotFrom(q0.vmas, 0) == Some(0);
    var q1 := MmapProc(q0, PGSIZE).0;
    assert q1.vmas[0] == Vma(PGSIZE, PGSIZE, true, true) && q1.sz == 2 * PGSIZE;
    var q2 := Resized(q1, 0 - PGSIZE);
    assert FreeSlotFrom(q2.vmas, 1) == Some(1);
    assert FreeSlotFrom(q2.vmas, 0) == Some(1);
  }

  // ---- sbrk that fails ----

  /** Some page of p from lo up to hi is resident. */
  ghost predicate Resident(st: St, p: Pid, lo: nat, hi: nat) {
    exists v: nat :: lo <= v < hi && (p, v) in st.pte
  }

  /** Both outcomes are a -1 to the caller. */
  predicate Failed(o: Outcome) {
    o == Ret(-1) || o == OutOfMemory
  }

  /** An sbrk that returns -1 has left memory alone, with two exceptions.  Shrinking to exactly
      zero reports failure after freeing every page, because growproc takes deallocuvm's 0 for an
      error.  And growing back over a page that a cut left resident above sz frees that page when
      memory runs out, because allocuvm undoes the whole range. */
  lemma FailedSbrkKeepsMemoryIff(sys: Sys, p: Pid, n: int)
    requires Sound(sys) && Enabled(sys.procs, Sbrk(p, n)) && Failed(Step(sys, Sbrk(p, n)).1)
    ensures var s, sz := Step(sys, Sbrk(p, n)).0, sys.procs[p].sz;
            && s.procs == sys.procs && Framed(sys.st) && Framed(s.st)
            && (UserMem(s.st) == UserMem(sys.st) <==>
                  && !(n < 0 && sz + n == 0 && Resident(sys.st, p, 0, PagesFor(sz)))
                  && !(n > 0 && sz + n < KERNBASE && Resident(sys.st, p, PagesFor(sz), PagesFor(sz + n))))
  {
    hide Core, UserMem, UnmapRange, GrowUvm, OwnersOk, RecordOk, Resident, OnlyTables, PteWithout, Without;
    SoundFramed(sys);
    var sz := sys.procs[p].sz;
    assert RecordOk(sys.procs[p]);
    if n > 0 && sz + n < KERNBASE {
      var lo, hi := PagesFor(sz), PagesFor(sz + n);
      PagesMono(sz, sz + n);
      PagesMono(sz + n, KERNBASE);
      KernelAligned();
      GrowTouches(sys.st, p, lo, hi);
      WithoutIff(sys.st, p, lo, hi);
    } else if n < 0 && sz + n == 0 {
      UnmapRangeKeeps(sys.st, {}, p, 0, PagesFor(sz));
      WithoutIff(sys.st, p, 0, PagesFor(sz));
      ZeroPages();
    }
  }

  lemma WithoutIff(st: St, p: Pid, lo: nat, hi: nat)
    requires Framed(st)
    ensures Without(UserMem(st), p, lo, hi) == UserMem(st) <==> !Resident(st, p, lo, hi)
  {
    var m := UserMem(st);
    if v: nat :| lo <= v < hi && (p, v) in st.pte {
      assert Within((p, v), p, lo, hi) && (p, v) in m && (p, v) !in Without(m, p, lo, hi);
    } else {
      forall k | k in m ensures !Within(k, p, lo, hi) {
        assert k == (k.0, k.1);
      }
      assert Without(m, p, lo, hi) == m;
    }
  }

  /** The first process, right after userinit, gives back its only page: sbrk returns -1, the
      size is still one page, and the page is gone. */
  lemma SbrkToZeroFails(m: Mem, own: set<nat>, image: Page)
    requires BootMem(m, own) && |m.free| >= KVM_TABLES + 4
    ensures var sys := Step(Boot(m, own), UserInit(1, image)).0;
            var (s, r) := Step(sys, Sbrk(1, 0 - PGSIZE));
            && (1, 0) in sys.st.pte && r == Ret(-1)
            && s.procs == sys.procs && 1 in s.procs && s.procs[1].sz == PGSIZE && (1, 0) !in s.st.pte
  {
    hide Inv, Step;
    AfterUserInit(m, own, image);
    GivesBackAll(Step(Boot(m, own), UserInit(1, image)).0);
  }

  /** With enough free frames the first process starts. */
  lemma AfterUserInit(m: Mem, own: set<nat>, image: Page)
    requires BootMem(m, own) && |m.free| >= KVM_TABLES + 4
    ensures Step(Boot(m, own), UserInit(1, image)).1 == Ret(0)
    ensures var sys := Step(Boot(m, own), UserInit(1, image)).0;
            && Inv(sys) && sys.procs == map[1 := InitProc()] && 1 in sys.procs && sys.procs[1] == InitProc()
            && sys.st.pte.Keys == {(1, 0)} && Supply(sys.st) + KVM_TABLES + 4 >= |m.free|
  {
    hide Inv, UserMem, UserInitSt;
    BootInv(m, own);
    InvIsSound(Boot(m, own));
    if Step(Boot(m, own), UserInit(1, image)).1 == OutOfMemory {
      NoMemoryMeansShort(Boot(m, own), UserInit(1, image));
    }
    StepRefines(Boot(m, own), UserInit(1, image));
    var sys := Step(Boot(m, own), UserInit(1, image)).0;
    CoreFreeOk(Boot(m, own).st, {});
    UserInitSupply(Boot(m, own).st, 1, image);
    assert UserMem(Boot(m, own).st) == map[] by { SameKeys(Boot(m, own).st); }
    assert UserMem(sys.st).Keys == {(1, 0)};
    SameKeys(sys.st);
    assert sys.st.pte.Keys == {(1, 0)};
  }

  lemma GivesBackAll(sys: Sys)
    requires Inv(sys) && 1 in sys.procs && sys.procs[1] == InitProc() && (1, 0) in sys.st.pte
    ensures var (s, r) := Step(sys, Sbrk(1, 0 - PGSIZE));
            r == Ret(-1) && s.procs == sys.procs && (1, 0) !in s.st.pte
  {
    hide Inv, UserMem, UnmapRange, Core;
    ZeroPages();
    InvCore(sys);
    UnmapRangeKeeps(sys.st, {}, 1, 0, 1);
  }

  lemma ZeroPages()
    ensures PagesFor(0) == 0 && PagesFor(PGSIZE) == 1
  {
  }

  /** mmap, sbrk below the mapping, a store to its last page, and sbrk back up, with fewer frames
      than pages: the last sbrk returns -1 and the page is gone. */
  lemma GrowAfterCutLosesPage(m: Mem, own: set<nat>, image: Page, b: Byte)
    requires BootMem(m, own) && |m.free| >= KVM_TABLES + 6 && |m.refcnt| + 3 <= USERPAGES
    ensures var v := |m.refcnt| + 1;
            var n := v * PGSIZE;
            var s := Run(Boot(m, own), [UserInit(1, image), Mmap(1, n), Sbrk(1, 0 - n),
                                        Mprotect(1, PGSIZE, n, PROT_READ + PROT_WRITE), StoreTo(1, n, b)]).0;
            var (t, o) := Step(s, Sbrk(1, n));
            && 1 in s.procs && o == OutOfMemory && t.procs == s.procs
            && (1, v) in s.st.pte && (1, v) !in t.st.pte
  {
    hide Step, Run, Inv, Core, UserMem, FindFrom, ProcOk, Sound;
    var v := |m.refcnt| + 1;
    var n := v * PGSIZE;
    var s0 := Step(Boot(m, own), UserInit(1, image)).0;
    AfterUserInit(m, own, image);
    var q1, s1 := BigMmap(s0, v);
    var w := Mprotect(1, PGSIZE, n, PROT_READ + PROT_WRITE);
    var s2 := Step(Step(s1, Sbrk(1, 0 - n)).0, w).0;
    var s3 := Step(s2, StoreTo(1, n, b)).0;
    RunFive(Boot(m, own), UserInit(1, image), Mmap(1, n), Sbrk(1, 0 - n), w, StoreTo(1, n, b));
    CutPages(q1, 0 - n, 0);
    assert LastPage(q1, 0) == v;
    CutThenProtect(s1, 1, 0 - n, 0);
    InvCore(s1);
    InvIsSound(s1);
    StepSound(s1, Sbrk(1, 0 - n));
    StepSound(Step(s1, Sbrk(1, 0 - n)).0, w);
    CutSupply(s1, 1, 0 - n, w);
    if Step(s2, StoreTo(1, n, b)).1 == OutOfMemory {
      NoMemoryMeansShort(s2, StoreTo(1, n, b));
    }
    CutStore(s2, 1, CutProc(q1, 0 - n, 0), 0, v, b);
    StepSound(s2, StoreTo(1, n, b));
    GrowBack(s3, 1, v);
  }

  /** One mapping of v pages behind the first page. */
  lemma BigMmap(s0: Sys, v: nat) returns (q: Proc, s: Sys)
    requires Inv(s0) && s0.procs == map[1 := InitProc()] && 1 in s0.procs && 0 < v && v + 2 <= USERPAGES
    ensures s == Step(s0, Mmap(1, v * PGSIZE)).0 && Inv(s) && 1 in s.procs && s.procs[1] == q && s.st == s0.st
    ensures q.sz == (v + 1) * PGSIZE && q.live && CutAt(q, 0 - v * PGSIZE, 0)
    ensures q.vmas[0] == Vma(PGSIZE, v * PGSIZE, true, true)
  {
    hide Inv, UserMem, ProcOk, RoundUp;
    s := Step(s0, Mmap(1, v * PGSIZE)).0;
    StepRefines(s0, Mmap(1, v * PGSIZE));
    q := MmapProc(InitProc(), v * PGSIZE).0;
    KernelAligned();
    assert FreeSlotFrom(InitProc().vmas, 0) == Some(0);
    assert RoundUp(v * PGSIZE) == v * PGSIZE && RoundUp(PGSIZE) == PGSIZE;
    ProcOkAt(s, 1);
  }

  /** Neither the cut nor the mprotect takes a frame. */
  lemma CutSupply(sys: Sys, p: Pid, n: int, w: Op)
    requires Core(sys.st, {}) && Enabled(sys.procs, Sbrk(p, n)) && n < 0 && w.Mprotect?
    ensures Supply(Step(Step(sys, Sbrk(p, n)).0, w).0.st) >= Supply(sys.st)
  {
    hide Core, UserMem, UnmapRange, ProtectRange, ExactSlot, PagesFor;
    var q, sz' := sys.procs[p], Shrunk(sys.procs[p].sz, n);
    UnmapSupply(sys.st, p, PagesFor(sz'), PagesFor(q.sz));
    UnmapRangeKeeps(sys.st, {}, p, PagesFor(sz'), PagesFor(q.sz));
    var s := Step(sys, Sbrk(p, n)).0;
    if Enabled(s.procs, w) && ExactSlot(s.procs[w.p], w.va, w.n).Some? {
      var v := s.procs[w.p].vmas[ExactSlot(s.procs[w.p], w.va, w.n).value];
      ProtectRangeKeeps(s.st, w.p, v.start / PGSIZE, (v.start + v.length) / PGSIZE, w.prot == PROT_READ + PROT_WRITE);
    }
  }

  /** Growing up to a resident page with too few frames on the way. */
  lemma GrowBack(s: Sys, p: Pid, v: nat)
    requires Sound(s) && Runnable(s.procs, p) && s.procs[p].sz == PGSIZE
    requires v == |s.st.m.refcnt| + 1 && v + 2 <= USERPAGES
    requires (p, v) in s.st.pte && forall u: nat :: 0 < u < v ==> (p, u) !in s.st.pte
    ensures var (t, o) := Step(s, Sbrk(p, v * PGSIZE));
            o == OutOfMemory && t.procs == s.procs && (p, v) !in t.st.pte
  {
    hide Core, AllocRange, Undone, FirstResident, OwnersOk, UserMem, RecordOk, OnlyTables, PteWithout, Without;
    KernelAligned();
    assert PagesFor(PGSIZE) == 1 && PagesFor(PGSIZE + v * PGSIZE) == v + 1;
    assert FirstResident(s.st.pte, p, 1, v + 1) == v;
    CoreFreeOk(s.st, {});
    SupplyBounded(s.st);
    AllocRangeSupply(s.st, p, 1, v);
    GrowTouches(s.st, p, 1, v + 1);
    SoundFramed(s);
    var t := GrowUvm(s.st, p, 1, v + 1).0;
    SameKeys(t);
    WithoutOnly(UserMem(s.st), p, 1, v + 1);
    assert Within((p, v), p, 1, v + 1);
  }

  // ---- a cut breaks copy-on-write ----
  // ---- a cut breaks copy-on-write ----

  /** The last page of mapping i. */
  function LastPage(q: Proc, i: nat): nat
    requires i < |q.vmas| && q.vmas[i].start + q.vmas[i].length >= PGSIZE
  {
    (q.vmas[i].start + q.vmas[i].length) / PGSIZE - 1
  }

  /** Shrink, make the mapping writable, write its last page, fork, read the page in the child. */
  function CutRun(q: Proc, p: Pid, n: int, i: nat, child: Pid, b: Byte): seq<Op>
    requires i < |q.vmas| && q.vmas[i].start + q.vmas[i].length >= PGSIZE
  {
    var va := LastPage(q, i) * PGSIZE;
    [Sbrk(p, n), Mprotect(p, q.vmas[i].start, q.vmas[i].length, PROT_READ + PROT_WRITE), StoreTo(p, va, b),
     Fork(p, child), Load(child, va)]
  }

  /** Process q after the first two steps. */
  function CutProc(q: Proc, n: int, i: nat): Proc
    requires i < |q.vmas| && 0 <= q.sz + n
  {
    Reprotected(Resized(q, n), i, true)
  }

  /** Mapping i of q is cut by a shrink of n. */
  ghost predicate CutAt(q: Proc, n: int, i: nat) {
    && ProcOk(q) && q.live && 0 < q.sz + n < q.sz && -0x8000_0000 <= n
    && i < MAX_VMAS && q.vmas[i].used && q.vmas[i].start + q.vmas[i].length > RoundUp(q.sz + n)
  }

  lemma CutPages(q: Proc, n: int, i: nat)
    requires CutAt(q, n, i)
    ensures i < |q.vmas|
    ensures q.vmas[i].length < 0x8000_0000 && q.vmas[i].start + q.vmas[i].length >= PGSIZE
    ensures var v := LastPage(q, i);
            && PagesFor(q.sz + n) <= v < PagesFor(q.sz) <= USERPAGES && v < USERPAGES
            && v * PGSIZE < KERNBASE < UINT && v * PGSIZE / PGSIZE == v && v * PGSIZE % PGSIZE == 0
            && Covers(q.vmas[i], v * PGSIZE)
    ensures q.vmas[i].start % PGSIZE == 0 && RoundUp(q.vmas[i].length) == q.vmas[i].length > 0
  {
    KernelAligned();
  }

  /** Lookup still finds mapping i, by address and by extent: only sz changed. */
  lemma CutLookup(q: Proc, n: int, i: nat)
    requires CutAt(q, n, i)
    ensures ExactSlot(Resized(q, n), q.vmas[i].start, q.vmas[i].length) == Some(i)
    ensures q.vmas[i].start + q.vmas[i].length >= PGSIZE
    ensures VmaFind(CutProc(q, n, i), LastPage(q, i) * PGSIZE) == Some(i)
    ensures CutProc(q, n, i).vmas[i].write && CutProc(q, n, i).live && CutProc(q, n, i).sz == q.sz + n
  {
    CutPages(q, n, i);
    ExactAt(q, n, i);
    ReprotectedOk(q, i, true);
    FindIs(Reprotected(q, i, true), i, LastPage(q, i) * PGSIZE);
    FindSame(Reprotected(q, i, true).vmas, CutProc(q, n, i).vmas, LastPage(q, i) * PGSIZE, 0);
  }

  /** The kernel before the write: the page is not resident, the mapping is there. */
  ghost predicate BeforeWrite(sys: Sys, p: Pid, q: Proc, i: nat, v: nat) {
    && Core(sys.st, {}) && p in sys.procs && sys.procs[p] == q && (p, v) !in sys.st.pte && v < USERPAGES
    && VmaFind(q, v * PGSIZE) == Some(i) && q.vmas[i].write && q.live
  }

  lemma CutThenProtect(sys: Sys, p: Pid, n: int, i: nat)
    requires Inv(sys) && p in sys.procs && CutAt(sys.procs[p], n, i)
    ensures var q := sys.procs[p];
            var s1 := Step(sys, Sbrk(p, n)).0;
            var s2 := Step(s1, Mprotect(p, q.vmas[i].start, q.vmas[i].length, PROT_READ + PROT_WRITE)).0;
            && q.vmas[i].start + q.vmas[i].length >= PGSIZE
            && BeforeWrite(s2, p, CutProc(q, n, i), i, LastPage(q, i)) && s2.procs.Keys == sys.procs.Keys
            && forall k :: k in s2.st.pte ==> k in sys.st.pte
  {
    hide Core, UnmapRange, ProtectRange, PagesOk, OwnersOk, UserMem, FindFrom, ExactSlot;
    var q := sys.procs[p];
    CutPages(q, n, i);
    CutLookup(q, n, i);
    BelowSz(sys, p);
    SameKeys(sys.st);
    var lo, hi, v := PagesFor(q.sz + n), PagesFor(q.sz), q.vmas[i];
    UnmapRangeKeeps(sys.st, {}, p, lo, hi);
    var st1 := UnmapRange(sys.st, p, lo, hi);
    assert (p, LastPage(q, i)) !in st1.pte;
    ProtectRangeKeeps(st1, p, v.start / PGSIZE, (v.start + v.length) / PGSIZE, true);
  }

  /** Writing brings the page in and leaves b in it. */
  lemma CutStore(sys: Sys, p: Pid, q: Proc, i: nat, v: nat, b: Byte)
    requires BeforeWrite(sys, p, q, i, v) && i < |q.vmas| && v * PGSIZE < UINT
    requires Step(sys, StoreTo(p, v * PGSIZE, b)).1 != OutOfMemory
    ensures var s := Step(sys, StoreTo(p, v * PGSIZE, b)).0;
            && Core(s.st, {}) && s.procs == sys.procs && (p, v) in s.st.pte && Supply(s.st) + 2 >= Supply(sys.st)
            && forall k :: k in s.st.pte ==> k in sys.st.pte || k == (p, v)
  {
    hide Core, FindFrom, UserMem, AllocPage, Splice, OnlyTables;
    var k, va := (p, v), v * PGSIZE;
    assert va / PGSIZE == v && va % PGSIZE == 0;
    AllocPageKeeps(sys.st, {}, k, true);
    CoreFreeOk(sys.st, {});
    AllocPageSupply(sys.st, k, true);
    var (s, ok) := DemandPage(sys.st, k, true);
    assert Trap(sys.st, q, p, va, FaultCode(false, true)) == (s, if ok then Retry else KillNoMemory);
    assert ok;
    MemEntry(s, k);
    StoreKeeps(s, k, 0, [b]);
  }

  /** The child of a fork gets nothing above the rounded size. */
  lemma CutFork(sys: Sys, p: Pid, q: Proc, i: nat, v: nat, child: Pid)
    requires Core(sys.st, {}) && p in sys.procs && sys.procs[p] == q
    requires q.live && child !in sys.procs && v >= PagesFor(q.sz)
    requires NoSpace(sys.st, child) && KStack(child) !in sys.st.kern && v < USERPAGES
    requires VmaFind(q, v * PGSIZE) == Some(i) && i < |q.vmas| && q.vmas[i].write
    requires Step(sys, Fork(p, child)).1 != OutOfMemory
    ensures BeforeWrite(Step(sys, Fork(p, child)).0, child, q, i, v)
    ensures Supply(Step(sys, Fork(p, child)).0.st) + KVM_TABLES + 2 + PagesFor(q.sz) >= Supply(sys.st)
  {
    hide Core, FindFrom, UserMem, ForkSt, Copied;
    ForkStKeeps(sys.st, p, child, PagesFor(q.sz));
    CoreFreeOk(sys.st, {});
    ForkSupply(sys.st, p, child, PagesFor(q.sz));
  }

  /** Reading the page in the child brings in a zero page. */
  lemma CutLoad(sys: Sys, p: Pid, q: Proc, i: nat, v: nat)
    requires BeforeWrite(sys, p, q, i, v) && i < |q.vmas| && v * PGSIZE < UINT
    requires Step(sys, Load(p, v * PGSIZE)).1 != OutOfMemory
    ensures Step(sys, Load(p, v * PGSIZE)).1 == Value(0)
  {
    hide Core, FindFrom, UserMem, AllocPage, OnlyTables;
    var k, va := (p, v), v * PGSIZE;
    assert va / PGSIZE == v && va % PGSIZE == 0;
    AllocPageKeeps(sys.st, {}, k, true);
    var (s, ok) := DemandPage(sys.st, k, true);
    assert Trap(sys.st, q, p, va, FaultCode(false, false)) == (s, if ok then Retry else KillNoMemory);
    assert ok;
    MemEntry(s, k);
    EntryUser(s, k);
  }

  /** The eager machine after the same first three steps holds b at the start of the page. */
  lemma EagerCutStore(e: Eager, p: Pid, n: int, i: nat, b: Byte)
    requires p in e.procs && CutAt(e.procs[p], n, i)
    ensures var q := e.procs[p];
            && q.vmas[i].start + q.vmas[i].length >= PGSIZE
            && var v := LastPage(q, i);
               var e1 := EagerStep(e, Sbrk(p, n), false).0;
               var e2 := EagerStep(e1, Mprotect(p, q.vmas[i].start, q.vmas[i].length, PROT_READ + PROT_WRITE), false).0;
               var e3 := EagerStep(e2, StoreTo(p, v * PGSIZE, b), false).0;
               && e3.procs == e.procs[p := CutProc(q, n, i)]
               && (p, v) in e3.mem && e3.mem[(p, v)].u && e3.mem[(p, v)].data[0] == b
  {
    hide FindFrom, ExactSlot, ProcOk;
    var q := e.procs[p];
    CutPages(q, n, i);
    CutLookup(q, n, i);
    var lo, hi, v := PagesFor(q.sz + n), PagesFor(q.sz), LastPage(q, i);
    WithoutOnly(e.mem, p, lo, hi);
    var m1 := Without(e.mem, p, lo, hi);
    assert Within((p, v), p, lo, hi) && (p, v) !in m1;
    assert MayWrite(CutProc(q, n, i), v * PGSIZE);
  }

  lemma EagerCutLoad(e: Eager, p: Pid, q: Proc, v: nat, child: Pid, b: Byte)
    requires p in e.procs && e.procs[p] == q && q.live && child !in e.procs && v < USERPAGES && v * PGSIZE < UINT
    requires (p, v) in e.mem && e.mem[(p, v)].u && e.mem[(p, v)].data[0] == b
    ensures var e4 := EagerStep(e, Fork(p, child), false).0;
            EagerStep(e4, Load(child, v * PGSIZE), false).1 == Value(b)
  {
    hide Copied, FindFrom;
    CopiedAt(e.mem, p, child, USERPAGES, (child, v));
    assert v * PGSIZE / PGSIZE == v && v * PGSIZE % PGSIZE == 0;
  }

  lemma EagerRunStep(e: Eager, op: Op, ops: seq<Op>, o: bool, oom: seq<bool>)
    requires |ops| == |oom|
    ensures var (e1, r) := EagerStep(e, op, o);
            var (e2, rs) := EagerRun(e1, ops, oom);
            EagerRun(e, [op] + ops, [o] + oom) == (e2, [r] + rs)
  {
    hide EagerStep;
    assert ([op] + ops)[1..] == ops && ([o] + oom)[1..] == oom;
  }

  lemma RunFive(sys: Sys, a: Op, b: Op, c: Op, d: Op, f: Op)
    ensures var s1 := Step(sys, a); var s2 := Step(s1.0, b); var s3 := Step(s2.0, c); var s4 := Step(s3.0, d);
            && Run(sys, [a, b, c, d, f]).0 == Step(s4.0, f).0
            && Run(sys, [a, b, c, d, f]).1 == [s1.1, s2.1, s3.1, s4.1, Step(s4.0, f).1]
  {
    hide Step, Run;
    var s1 := Step(sys, a).0;
    var s2 := Step(s1, b).0;
    var s3 := Step(s2, c).0;
    var s4 := Step(s3, d).0;
    RunNothing(Step(s4, f).0);
    RunStep(s4, f, []);
    RunStep(s3, d, [f]);
    RunStep(s2, c, [d, f]);
    RunStep(s1, b, [c, d, f]);
    RunStep(sys, a, [b, c, d, f]);
    assert [a] + [b, c, d, f] == [a, b, c, d, f] && [b] + [c, d, f] == [b, c, d, f];
    assert [c] + [d, f] == [c, d, f] && [d] + [f] == [d, f] && [f] + [] == [f];
  }

  lemma EagerFive(e: Eager, a: Op, b: Op, c: Op, d: Op, f: Op)
    ensures var e1 := EagerStep(e, a, false).0; var e2 := EagerStep(e1, b, false).0;
            var e3 := EagerStep(e2, c, false).0; var e4 := EagerStep(e3, d, false).0;
            var r := EagerRun(e, [a, b, c, d, f], [false, false, false, false, false]).1;
            |r| == 5 && r[4] == EagerStep(e4, f, false).1
  {
    hide EagerStep, EagerRun;
    var e1 := EagerStep(e, a, false).0;
    var e2 := EagerStep(e1, b, false).0;
    var e3 := EagerStep(e2, c, false).0;
    var e4 := EagerStep(e3, d, false).0;
    EagerNothing(EagerStep(e4, f, false).0);
    EagerRunStep(e4, f, [], false, []);
    EagerRunStep(e3, d, [f], false, [false]);
    EagerRunStep(e2, c, [d, f], false, [false, false]);
    EagerRunStep(e1, b, [c, d, f], false, [false, false, false]);
    EagerRunStep(e, a, [b, c, d, f], false, [false, false, false, false]);
    assert [a] + [b, c, d, f] == [a, b, c, d, f] && [b] + [c, d, f] == [b, c, d, f];
    assert [c] + [d, f] == [c, d, f] && [d] + [f] == [d, f] && [f] + [] == [f];
    assert [false] + [false, false, false, false] == [false, false, false, false, false];
    assert [false] + [false, false, false] == [false, false, false, false]
           && [false] + [false, false] == [false, false, false];
    assert [false] + [false] == [false, false] && [false] + [] == [false];
  }

  lemma EagerNothing(e: Eager)
    ensures EagerRun(e, [], []) == (e, [])
  {
  }

  /** The concrete half: the child reads 0. */
  lemma CutReadsZero(sys: Sys, p: Pid, n: int, i: nat, child: Pid, b: Byte)
    requires Inv(sys) && p in sys.procs && CutAt(sys.procs[p], n, i) && child !in sys.procs
    requires sys.procs[p].vmas[i].start + sys.procs[p].vmas[i].length >= PGSIZE
    requires OutOfMemory !in Run(sys, CutRun(sys.procs[p], p, n, i, child, b)).1
    ensures var os := Run(sys, CutRun(sys.procs[p], p, n, i, child, b)).1; |os| == 5 && os[4] == Value(0)
  {
    hide Inv, Core, Step, Run, FindFrom, ProcOk;
    var q := sys.procs[p];
    CutPages(q, n, i);
    CutLookup(q, n, i);
    var ops := CutRun(q, p, n, i, child, b);
    var q2, v := CutProc(q, n, i), LastPage(q, i);
    RunFive(sys, ops[0], ops[1], ops[2], ops[3], ops[4]);
    assert ops == [ops[0], ops[1], ops[2], ops[3], ops[4]];
    var os := Run(sys, ops).1;
    assert os[2] in os && os[3] in os && os[4] in os;
    CutThenProtect(sys, p, n, i);
    var s2 := Step(Step(sys, ops[0]).0, ops[1]).0;
    CutStore(s2, p, q2, i, v, b);
    var s3 := Step(s2, ops[2]).0;
    CutSpace(sys, p, n, i, child, b);
    CutFork(s3, p, q2, i, v, child);
    CutLoad(Step(s3, ops[3]).0, child, q2, i, v);
  }

  /** Nothing of the child's exists before the fork. */
  lemma CutSpace(sys: Sys, p: Pid, n: int, i: nat, child: Pid, b: Byte)
    requires Inv(sys) && p in sys.procs && child !in sys.procs && i < |sys.procs[p].vmas|
    requires sys.procs[p].vmas[i].start + sys.procs[p].vmas[i].length >= PGSIZE
    ensures var ops := CutRun(sys.procs[p], p, n, i, child, b);
            var s3 := Step(Step(Step(sys, ops[0]).0, ops[1]).0, ops[2]).0;
            NoSpace(s3.st, child) && KStack(child) !in s3.st.kern && child !in s3.procs
  {
    hide Sound, Step;
    var ops := CutRun(sys.procs[p], p, n, i, child, b);
    InvIsSound(sys);
    StepSound(sys, ops[0]);
    StepSound(Step(sys, ops[0]).0, ops[1]);
    StepSound(Step(Step(sys, ops[0]).0, ops[1]).0, ops[2]);
    SamePids(sys, ops[0]);
    SamePids(Step(sys, ops[0]).0, ops[1]);
    SamePids(Step(Step(sys, ops[0]).0, ops[1]).0, ops[2]);
    NoSpaceOf(Step(Step(Step(sys, ops[0]).0, ops[1]).0, ops[2]).0, child);
  }

  lemma SamePids(sys: Sys, op: Op)
    requires op.Sbrk? || op.Mprotect? || op.StoreTo?
    ensures Step(sys, op).0.procs.Keys == sys.procs.Keys
  {
    hide UserAccess, GrowUvm, UnmapRange, ProtectRange, Store;
  }

  /** Whatever the state, an sbrk that cuts a mapping can be followed by a run in which a child
      reads 0 where a kernel that copies every resident page gives it the parent's byte, as long
      as memory lasts: the condition of CowRefinesEager cannot be weakened. */
  lemma CutBreaksRefinement(sys: Sys, p: Pid, n: int, i: nat, child: Pid, b: Byte)
    requires Inv(sys) && Runnable(sys.procs, p) && child !in sys.procs && -0x8000_0000 <= n < 0 && b != 0
    requires Cuts(sys.procs, Sbrk(p, n)) && i < MAX_VMAS && sys.procs[p].vmas[i].used
    requires sys.procs[p].vmas[i].start + sys.procs[p].vmas[i].length > RoundUp(sys.procs[p].sz + n)
    ensures sys.procs[p].vmas[i].start + sys.procs[p].vmas[i].length >= PGSIZE && Framed(sys.st)
    ensures var ops := CutRun(sys.procs[p], p, n, i, child, b);
            var os := Run(sys, ops).1;
            OutOfMemory !in os ==> |os| == 5 && os[4] == Value(0) && EagerRun(Abs(sys), ops, NoMemoryAt(os)).1 != os
  {
    hide Inv, Run, EagerRun, UserMem, ProcOk, RoundUp;
    InvFramed(sys);
    ProcOkAt(sys, p);
    var q := sys.procs[p];
    CutPages(q, n, i);
    var ops := CutRun(q, p, n, i, child, b);
    var os := Run(sys, ops).1;
    if OutOfMemory !in os {
      CutReadsZero(sys, p, n, i, child, b);
      assert NoMemoryAt(os) == [false, false, false, false, false] by {
        assert forall k :: 0 <= k < |os| ==> os[k] in os;
      }
      assert ops == [ops[0], ops[1], ops[2], ops[3], ops[4]];
      EagerFive(Abs(sys), ops[0], ops[1], ops[2], ops[3], ops[4]);
      EagerReadsByte(Abs(sys), p, n, i, child, b);
    }
  }

  /** Frames enough for the whole of CutRun: nothing runs out. */
  lemma CutHasMemory(sys: Sys, p: Pid, n: int, i: nat, child: Pid, b: Byte)
    requires Inv(sys) && p in sys.procs && CutAt(sys.procs[p], n, i) && child !in sys.procs
    requires sys.procs[p].vmas[i].start + sys.procs[p].vmas[i].length >= PGSIZE
    requires Supply(sys.st) >= KVM_TABLES + 6 + PagesFor(sys.procs[p].sz)
    ensures OutOfMemory !in Run(sys, CutRun(sys.procs[p], p, n, i, child, b)).1
  {
    hide Inv, Core, Step, Run, FindFrom, ProcOk, Sound;
    var q := sys.procs[p];
    CutPages(q, n, i);
    CutLookup(q, n, i);
    var ops := CutRun(q, p, n, i, child, b);
    var q2, v := CutProc(q, n, i), LastPage(q, i);
    RunFive(sys, ops[0], ops[1], ops[2], ops[3], ops[4]);
    assert ops == [ops[0], ops[1], ops[2], ops[3], ops[4]];
    InvCore(sys);
    InvIsSound(sys);
    CutSupply(sys, p, n, ops[1]);
    CutThenProtect(sys, p, n, i);
    var s1 := Step(sys, ops[0]).0;
    var s2 := Step(s1, ops[1]).0;
    StepSound(sys, ops[0]);
    StepSound(s1, ops[1]);
    NeverShort(sys, ops[0]);
    NeverShort(s1, ops[1]);
    if Step(s2, ops[2]).1 == OutOfMemory { NoMemoryMeansShort(s2, ops[2]); }
    CutStore(s2, p, q2, i, v, b);
    var s3 := Step(s2, ops[2]).0;
    StepSound(s2, ops[2]);
    PagesMono(q.sz + n, q.sz);
    if Step(s3, ops[3]).1 == OutOfMemory { NoMemoryMeansShort(s3, ops[3]); }
    CutSpace(sys, p, n, i, child, b);
    CutFork(s3, p, q2, i, v, child);
    var s4 := Step(s3, ops[3]).0;
    StepSound(s3, ops[3]);
    if Step(s4, ops[4]).1 == OutOfMemory { NoMemoryMeansShort(s4, ops[4]); }
  }

  lemma NeverShort(sys: Sys, op: Op)
    requires op.Mprotect? || (op.Sbrk? && op.n < 0)
    ensures Step(sys, op).1 != OutOfMemory
  {
    hide UnmapRange, ProtectRange, ExactSlot;
  }

  /** The outcomes of the run are those of eager copying. */
  ghost predicate Agrees(sys: Sys, ops: seq<Op>) {
    && Framed(sys.st)
    && var os := Run(sys, ops).1; |os| == |ops| && EagerRun(Abs(sys), ops, NoMemoryAt(os)).1 == os
  }

  /** With frames for one store, one fork and one load to spare, copy-on-write agrees with eager
      copying in every continuation without a further cut exactly when the sbrk cuts no mapping. */
  lemma CowAgreesIff(sys: Sys, p: Pid, n: int, child: Pid)
    requires Inv(sys) && Enabled(sys.procs, Sbrk(p, n)) && child !in sys.procs
    requires Supply(sys.st) >= KVM_TABLES + 6 + PagesFor(sys.procs[p].sz)
    ensures var op := Sbrk(p, n);
            (forall ops :: Uncut(Step(sys, op).0, ops) ==> Agrees(sys, [op] + ops)) <==> !Cuts(sys.procs, op)
  {
    hide Inv, Step, Run, EagerRun, UserMem, ProcOk, RoundUp;
    var op := Sbrk(p, n);
    InvFramed(sys);
    ProcOkAt(sys, p);
    if !Cuts(sys.procs, op) {
      forall ops | Uncut(Step(sys, op).0, ops) ensures Agrees(sys, [op] + ops) {
        assert ([op] + ops)[1..] == ops;
        CowRefinesEager(sys, [op] + ops);
      }
    } else {
      var q := sys.procs[p];
      var i :| 0 <= i < |q.vmas| && q.vmas[i].used && q.vmas[i].start + q.vmas[i].length > RoundUp(q.sz + n);
      CutPages(q, n, i);
      var all := CutRun(q, p, n, i, child, 1);
      CutHasMemory(sys, p, n, i, child, 1);
      CutBreaksRefinement(sys, p, n, i, child, 1);
      NoSbrkUncut(Step(sys, op).0, all[1..]);
      assert [op] + all[1..] == all;
      assert Uncut(Step(sys, op).0, all[1..]) && !Agrees(sys, [op] + all[1..]);
    }
  }

  lemma {:induction false} NoSbrkUncut(sys: Sys, ops: seq<Op>)
    requires forall k :: 0 <= k < |ops| ==> !ops[k].Sbrk?
    ensures Uncut(sys, ops)
    decreases |ops|
  {
    hide Step;
    if ops != [] { NoSbrkUncut(Step(sys, ops[0]).0, ops[1..]); }
  }

  lemma EagerReadsByte(e: Eager, p: Pid, n: int, i: nat, child: Pid, b: Byte)
    requires p in e.procs && CutAt(e.procs[p], n, i) && child !in e.procs
    requires e.procs[p].vmas[i].start + e.procs[p].vmas[i].length >= PGSIZE
    ensures var ops := CutRun(e.procs[p], p, n, i, child, b);
            var e3 := EagerStep(EagerStep(EagerStep(e, ops[0], false).0, ops[1], false).0, ops[2], false).0;
            EagerStep(EagerStep(e3, ops[3], false).0, ops[4], false).1 == Value(b)
  {
    hide EagerStep, ProcOk;
    var q := e.procs[p];
    CutPages(q, n, i);
    CutLookup(q, n, i);
    EagerCutStore(e, p, n, i, b);
    var ops := CutRun(q, p, n, i, child, b);
    var e3 := EagerStep(EagerStep(EagerStep(e, ops[0], false).0, ops[1], false).0, ops[2], false).0;
    EagerCutLoad(e3, p, CutProc(q, n, i), LastPage(q, i), child, b);
  }
}
