/** Reachable states of the virtual-memory kernel: conservation, rollback and isolation. */
module VmTheorems {
  import opened Prelude
  import opened Mmu
  import opened Frames
  import opened VmState
  import opened VmRanges
  import opened VmSystem
  import opened VmRefine
  import opened VmSound

  /** After kinit2, before userinit: the frames `own` went to kvmalloc and startothers. */
  function Boot(m: Mem, own: set<nat>): Sys {
    Sys(St(m, map[], map f | f in own :: Static(f) := f), map[])
  }

  lemma BootInv(m: Mem, own: set<nat>)
    requires BootMem(m, own)
    ensures Inv(Boot(m, own))
  {
    var st := Boot(m, own).st;
    forall f: nat | Managed(m, f) ensures m.refcnt[f] == Owners(st, {}, f) {
      assert UserSites(st.pte, f) == {} && KernSites(st.kern, f) == if f in own then {Static(f)} else {};
    }
  }

  /** Reference conservation in every reachable state of every run: the frames are those of boot,
      a frame's count is its number of user PTEs plus its kernel owners, the duplicate-free free
      list is exactly the uncounted frames, all mappings of a frame sit at one virtual page, so a
      shared frame has at most one per process, and a writable mapping has no other owner and no
      COW mark. */
  lemma ReferencesConserved(m: Mem, own: set<nat>, ops: seq<Op>, f: nat)
    requires BootMem(m, own)
    ensures var s := Run(Boot(m, own), ops).0;
            && SameFrames(m, s.st.m)
            && (Managed(m, f) ==>
                  && s.st.m.refcnt[f] == |UserSites(s.st.pte, f)| + |KernSites(s.st.kern, f)|
                  && (f in s.st.m.free <==> s.st.m.refcnt[f] == 0) && Distinct(s.st.m.free)
                  && (s.st.m.refcnt[f] > 1 ==> s.st.m.refcnt[f] <= |s.procs| && KernSites(s.st.kern, f) == {})
                  && (forall k, l :: k in UserSites(s.st.pte, f) && l in UserSites(s.st.pte, f) ==> k.1 == l.1)
                  && (forall k :: k in UserSites(s.st.pte, f) && s.st.pte[k].w ==>
                        s.st.m.refcnt[f] == 1 && !s.st.pte[k].cow))
  {
    hide Run, Step;
    BootInv(m, own);
    InvIsSound(Boot(m, own));
    RunSound(Boot(m, own), ops);
    var s := Run(Boot(m, own), ops).0;
    if Managed(m, f) {
      assert s.st.m.refcnt[f] == Owners(s.st, {}, f);
      forall k | k in UserSites(s.st.pte, f) && s.st.pte[k].w ensures s.st.m.refcnt[f] == 1 && !s.st.pte[k].cow {
        assert PteOk(s.st, k);
      }
      if s.st.m.refcnt[f] > 1 {
        CountBoundedBySpaces(s.st, f, s.procs.Keys);
        assert |s.procs.Keys| == |s.procs|;
        forall t ensures t !in KernSites(s.st.kern, f) {
          assert t in KernSites(s.st.kern, f) ==> Exclusive(s.st.m, s.st.kern[t]);
        }
      }
    }
  }

  /** Owners decide counts: equal owner maps mean equal counts and the same free frames. */
  lemma SameOwnersSameCounts(st: St, st': St)
    requires Core(st, {}) && Core(st', {}) && SameFrames(st.m, st'.m)
    requires st'.kern == st.kern && st'.pte.Keys == st.pte.Keys
    requires forall k :: k in st.pte ==> st'.pte[k].frame == st.pte[k].frame
    ensures forall f: nat :: Managed(st.m, f) ==> st'.m.refcnt[f] == st.m.refcnt[f]
    ensures forall f: nat :: f in st'.m.free <==> f in st.m.free
  {
    forall f: nat | Managed(st.m, f) ensures st'.m.refcnt[f] == st.m.refcnt[f] {
      assert UserSites(st'.pte, f) == UserSites(st.pte, f);
      assert Owners(st', {}, f) == Owners(st, {}, f);
      assert st.m.refcnt[f] == Owners(st, {}, f);
    }
  }

  /** A fork that runs out of memory half-way leaves every count, the set of free frames and
      everything any process can read as they were. */
  lemma FailedForkRollsBack(sys: Sys, p: Pid, child: Pid)
    requires Sound(sys) && Step(sys, Fork(p, child)).1 == OutOfMemory
    ensures var s := Step(sys, Fork(p, child)).0;
            && Framed(sys.st) && Framed(s.st) && Abs(s) == Abs(sys) && s.st.kern == sys.st.kern
            && SameFrames(sys.st.m, s.st.m)
            && (forall f: nat :: Managed(sys.st.m, f) ==> s.st.m.refcnt[f] == sys.st.m.refcnt[f])
            && (forall f: nat :: f in s.st.m.free <==> f in sys.st.m.free)
  {
    hide Core, UserMem, ForkSt;
    NoSpaceOf(sys, child);
    ForkStKeeps(sys.st, p, child, PagesFor(sys.procs[p].sz));
    var (s, ok) := ForkSt(sys.st, p, child, PagesFor(sys.procs[p].sz));
    SameOwnersSameCounts(sys.st, s);
  }

  // ---- isolation ----

  /** The operation is neither issued by p nor creates p. */
  predicate Foreign(op: Op, p: Pid) {
    op.p != p && (op.Fork? ==> op.child != p)
  }

  /** What p has: its record and every page. */
  ghost predicate SameSpace(sys: Sys, s: Sys, p: Pid) {
    && Framed(sys.st) && Framed(s.st)
    && (p in s.procs <==> p in sys.procs) && (p in sys.procs ==> s.procs[p] == sys.procs[p])
    && forall v: nat :: var k := (p, v);
         && (k in UserMem(s.st) <==> k in UserMem(sys.st))
         && (k in UserMem(sys.st) ==> UserMem(s.st)[k] == UserMem(sys.st)[k])
  }

  /** Isolation: no step of one process changes a byte, the residency of a page, or the record of
      another. */
  lemma StepsAreIsolated(sys: Sys, op: Op, p: Pid)
    requires Sound(sys) && Foreign(op, p)
    ensures SameSpace(sys, Step(sys, op).0, p)
  {
    hide Sound, UserMem, Step;
    StepFair(sys, op);
    OtherRecords(sys, op, p);
    var s := Step(sys, op).0;
    forall v: nat ensures var k := (p, v); (k in UserMem(s.st) <==> k in UserMem(sys.st))
                                           && (k in UserMem(sys.st) ==> UserMem(s.st)[k] == UserMem(sys.st)[k])
    {
      var k, x := (p, v), Subject(op);
      assert k in PteWithout(UserMem(s.st), x) <==> k in UserMem(s.st);
      assert k in PteWithout(UserMem(sys.st), x) <==> k in UserMem(sys.st);
    }
  }

  lemma OtherRecords(sys: Sys, op: Op, p: Pid)
    requires Foreign(op, p)
    ensures var s := Step(sys, op).0;
            (p in s.procs <==> p in sys.procs) && (p in sys.procs ==> s.procs[p] == sys.procs[p])
  {
    hide UserInitSt, ForkSt, UserAccess, CopyoutPage, UnmapRange, ProtectRange, GrowUvm, ReapSt, MmapProc, ExactSlot;
  }

  /** Over every run in which p does nothing, whatever the others do. */
  lemma {:induction false} RunsAreIsolated(sys: Sys, ops: seq<Op>, p: Pid)
    requires Sound(sys) && forall i :: 0 <= i < |ops| ==> Foreign(ops[i], p)
    ensures SameSpace(sys, Run(sys, ops).0, p)
    decreases |ops|
  {
    hide Sound, UserMem, Step;
    SoundFramed(sys);
    if ops != [] {
      StepsAreIsolated(sys, ops[0], p);
      StepSound(sys, ops[0]);
      RunsAreIsolated(Step(sys, ops[0]).0, ops[1..], p);
    }
  }
}
