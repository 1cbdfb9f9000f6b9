/** How processes come and go: userinit, fork, exit, being killed, and wait (proc.c, trap.c). */
module VmLife {
  import opened Mmu
  import opened VmState
  import opened VmPrims
  import opened VmRanges
  import opened VmSystem
  import opened VmRefine
  import opened VmSound
  import opened VmCalls

  // ---- birth ----

  /** The first process: one page that holds initcode, no mappings. */
  lemma UserInitIs(sys: Sys, p: Pid, image: Page)
    requires Inv(sys) && p !in sys.procs
    ensures var (s, o) := Step(sys, UserInit(p, image));
            && (o == Ret(0) || o == OutOfMemory) && (o == OutOfMemory ==> s == sys)
            && Framed(sys.st) && Framed(s.st)
            && (o == Ret(0) ==>
                  && p in s.procs && s.procs == sys.procs[p := s.procs[p]]
                  && s.procs[p].sz == PGSIZE && s.procs[p].live && (forall a: nat :: !InMapping(s.procs[p], a))
                  && UserMem(s.st) == UserMem(sys.st)[(p, 0) := UPage(image, true)]
                  && forall v: nat :: (p, v) in UserMem(s.st) ==> v == 0)
  {
    hide UserMem, UserInitSt, Core, PagesOk;
    StepRefines(sys, UserInit(p, image));
    NoPagesOf(sys, p);
    SameKeys(sys.st);
  }

  /** fork returns the child's pid and gives it the parent's record and a copy of each of the
      parent's pages below sz, or it fails; the parent and everyone else keep what they had. */
  lemma ForkIs(sys: Sys, p: Pid, child: Pid)
    requires Sound(sys) && Runnable(sys.procs, p) && child !in sys.procs
    ensures var q := sys.procs[p];
            var (s, o) := Step(sys, Fork(p, child));
            && (o == Ret(child) || o == OutOfMemory) && Framed(sys.st) && Framed(s.st)
            && (o == OutOfMemory ==> s.procs == sys.procs && UserMem(s.st) == UserMem(sys.st))
            && (o == Ret(child) ==>
                  && s.procs == sys.procs[child := q]
                  && (forall v: nat :: (child, v) in UserMem(s.st) <==> (p, v) in UserMem(sys.st) && v * PGSIZE < q.sz)
                  && (forall v: nat :: (child, v) in UserMem(s.st) ==>
                        (p, v) in UserMem(sys.st) && UserMem(s.st)[(child, v)] == UserMem(sys.st)[(p, v)])
                  && forall k: Key :: k.0 != child ==>
                       (k in UserMem(s.st) <==> k in UserMem(sys.st))
                       && (k in UserMem(sys.st) ==> UserMem(s.st)[k] == UserMem(sys.st)[k]))
  {
    hide Core, UserMem, ForkSt, PagesFor, RecordsOk, OwnersOk, FlagsKept, SharedWith, Copied;
    var q := sys.procs[p];
    NoSpaceOf(sys, child);
    ForkStKeeps(sys.st, p, child, PagesFor(q.sz));
    NoChildPages(sys, child);
    CopiedBytes(UserMem(sys.st), p, child, q.sz);
  }

  lemma NoChildPages(sys: Sys, child: Pid)
    requires Sound(sys) && child !in sys.procs && Framed(sys.st)
    ensures forall v: nat :: (child, v) !in UserMem(sys.st)
  {
    hide Core;
    SameKeys(sys.st);
  }

  lemma CopiedBytes(m: UMem, p: Pid, child: Pid, sz: nat)
    requires p != child && forall v: nat :: (child, v) !in m
    ensures var m' := Copied(m, p, child, PagesFor(sz));
            && (forall v: nat :: (child, v) in m' <==> (p, v) in m && v * PGSIZE < sz)
            && (forall v: nat :: (child, v) in m' ==> (p, v) in m && m'[(child, v)] == m[(p, v)])
            && forall k: Key :: k.0 != child ==> (k in m' <==> k in m) && (k in m ==> m'[k] == m[k])
  {
    assert forall v: nat :: v < PagesFor(sz) <==> v * PGSIZE < sz;
  }

  // ---- death ----

  /** The step ends the process that takes it. */
  predicate Ends(op: Op, o: Outcome) {
    || (op.Exit? && o == Ret(0))
    || ((op.Load? || op.StoreTo?) && (o == Killed || o == OutOfMemory))
  }

  /** p is a zombie: it can do nothing more, and its parent can collect it. */
  ghost predicate Zombie(procs: map<Pid, Proc>, p: Pid) {
    (forall op: Op :: op.p == p && !op.Reap? ==> !Enabled(procs, op)) && Enabled(procs, Reap(p))
  }

  /** exit always ends the caller, and so does every access that is refused or finds no memory; the
      process keeps its size and mappings until wait. */
  lemma EndsInZombie(sys: Sys, op: Op)
    requires Runnable(sys.procs, op.p)
    ensures op.Exit? ==> Ends(op, Step(sys, op).1) && Step(sys, op).0.st == sys.st
    ensures Ends(op, Step(sys, op).1) ==>
              var s, q := Step(sys, op).0, sys.procs[op.p];
              Zombie(s.procs, op.p) && s.procs == sys.procs[op.p := q.(live := false)]
  {
    hide UserAccess, Store;
  }

  /** No other operation creates a zombie or changes who is running. */
  lemma OnlyEndsKill(sys: Sys, op: Op, p: Pid)
    requires Runnable(sys.procs, p) && !(op.p == p && Ends(op, Step(sys, op).1))
    ensures Runnable(Step(sys, op).0.procs, p)
  {
    hide UserInitSt, ForkSt, UserAccess, CopyoutPage, UnmapRange, ProtectRange, GrowUvm, ReapSt, FreeSlotFrom;
    hide ExactSlot;
  }

  /** Over every run a zombie stays one until it is collected. */
  lemma {:induction false} ZombieStays(sys: Sys, ops: seq<Op>, p: Pid)
    requires Zombie(sys.procs, p) && forall i :: 0 <= i < |ops| ==> ops[i] != Reap(p)
    ensures var (s, os) := Run(sys, ops);
            && Zombie(s.procs, p) && p in sys.procs && p in s.procs && s.procs[p] == sys.procs[p] && |os| == |ops|
            && forall i :: 0 <= i < |ops| && ops[i].p == p ==> os[i] == Disabled
    decreases |ops|
  {
    hide Step;
    ZombieRecord(sys.procs, p);
    if ops != [] {
      ZombieStep(sys, ops[0], p);
      var (s, o) := Step(sys, ops[0]);
      ZombieRecord(s.procs, p);
      ZombieStays(s, ops[1..], p);
    }
  }

  lemma ZombieRecord(procs: map<Pid, Proc>, p: Pid)
    ensures Zombie(procs, p) <==> p in procs && !procs[p].live
  {
    if Zombie(procs, p) {
      assert !Enabled(procs, Exit(p));
    }
  }

  lemma ZombieStep(sys: Sys, op: Op, p: Pid)
    requires p in sys.procs && !sys.procs[p].live && op != Reap(p)
    ensures var (s, o) := Step(sys, op); p in s.procs && s.procs[p] == sys.procs[p] && (op.p == p ==> o == Disabled)
  {
    hide UserInitSt, ForkSt, UserAccess, CopyoutPage, UnmapRange, ProtectRange, GrowUvm, ReapSt, MmapProc, ExactSlot;
  }

  /** wait collects a zombie: its record, its pages and the kernel's frames for it are gone. */
  lemma ReapIs(sys: Sys, p: Pid)
    requires Sound(sys) && Zombie(sys.procs, p)
    ensures var (s, o) := Step(sys, Reap(p));
            && o == Ret(p) && s.procs == sys.procs - {p}
            && (forall k :: k in s.st.pte ==> k.0 != p) && (forall t :: t in s.st.kern ==> !For(t, p))
  {
    hide Core, FreeVm, FreeKern, UserMem, RecordsOk;
    ZombieRecord(sys.procs, p);
    FreeKernKeeps(sys.st, {}, KStack(p));
    FreeKernIs(sys.st, KStack(p));
    FreeVmKeeps(FreeKern(sys.st, KStack(p)), p);
  }
}
