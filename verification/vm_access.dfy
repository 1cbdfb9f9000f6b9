/** Exactly when a load, a store and a copyout succeed, and what they read and write (trap.c,
    vm.c). */
module VmAccess {
  import opened Prelude
  import opened Mmu
  import opened VmState
  import opened VmPrims
  import opened VmRanges
  import opened VmSystem
  import opened VmRefine
  import opened VmSound
  import opened VmSupply
  import opened VmFrames
  import opened VmSyscalls
  import opened VmCalls

  /** p may touch address a: its page is there and is a user page, or a mapping promises it. */
  ghost predicate Readable(sys: Sys, p: Pid, a: nat)
    requires p in sys.procs
  {
    var k := (p, a / PGSIZE);
    if k in sys.st.pte then sys.st.pte[k].u else InMapping(sys.procs[p], a)
  }

  ghost predicate Writable(sys: Sys, p: Pid, a: nat)
    requires p in sys.procs
  {
    Readable(sys, p, a) && MayWrite(sys.procs[p], a)
  }

  /** Every byte that was there is there still, but for the n bytes of p from va on. */
  ghost predicate BytesKept(m: UMem, m': UMem, p: Pid, va: nat, n: nat) {
    forall x: Pid, a: nat :: (x != p || a < va || a >= va + n) && ByteAt(m, x, a).Some? ==>
      ByteAt(m', x, a) == ByteAt(m, x, a)
  }

  lemma EagerAllows(sys: Sys, p: Pid, a: nat, write: bool)
    requires Inv(sys) && p in sys.procs
    ensures Framed(sys.st)
    ensures EagerAccess(Abs(sys), sys.procs[p], p, a, write).1 <==>
              if write then Writable(sys, p, a) else Readable(sys, p, a)
  {
    InvFramed(sys);
    InMappingFound(sys.procs[p], a);
    SameKeys(sys.st);
  }

  /** A load returns the byte that is there, or 0 in an untouched page of a mapping, exactly where
      the process may read and a frame that this takes is free; elsewhere the process dies. */
  lemma LoadIs(sys: Sys, p: Pid, va: nat)
    requires Inv(sys) && Runnable(sys.procs, p) && va < UINT
    ensures var (s, o) := Step(sys, Load(p, va));
            && Framed(sys.st) && Framed(s.st)
            && o == (if Supply(sys.st) < AccessNeed(sys, p, va, false) then OutOfMemory
                     else if !Readable(sys, p, va) then Killed
                     else match ByteAt(UserMem(sys.st), p, va) case Some(x) => Value(x) case None => Value(0))
            && (o.Value? ==> s.procs == sys.procs)
            && BytesKept(UserMem(sys.st), UserMem(s.st), p, va, 0)
  {
    hide Inv, UserMem, Step, Readable, AccessNeed;
    StepRefines(sys, Load(p, va));
    EagerAllows(sys, p, va, false);
    InvIsSound(sys);
    OutOfMemoryIff(sys, Load(p, va));
  }

  /** A store writes its byte and no other exactly where the process may write and the frames that
      this takes are free; elsewhere the process dies. */
  lemma StoreIs(sys: Sys, p: Pid, va: nat, b: Byte)
    requires Inv(sys) && Runnable(sys.procs, p) && va < UINT
    ensures var (s, o) := Step(sys, StoreTo(p, va, b));
            && Framed(sys.st) && Framed(s.st)
            && o == (if Supply(sys.st) < AccessNeed(sys, p, va, true) then OutOfMemory
                     else if Writable(sys, p, va) then Ret(0) else Killed)
            && (o == Ret(0) ==> s.procs == sys.procs && ByteAt(UserMem(s.st), p, va) == Some(b))
            && BytesKept(UserMem(sys.st), UserMem(s.st), p, va, if o == Ret(0) then 1 else 0)
  {
    hide Inv, UserMem, Step, Writable, AccessNeed;
    StepRefines(sys, StoreTo(p, va, b));
    EagerAllows(sys, p, va, true);
    InvIsSound(sys);
    OutOfMemoryIff(sys, StoreTo(p, va, b));
  }

  // ---- copyout ----

  /** All addresses of a page are writable, or none is. */
  lemma WritablePage(sys: Sys, p: Pid, a: nat, b: nat)
    requires Inv(sys) && p in sys.procs && a / PGSIZE == b / PGSIZE
    ensures Writable(sys, p, a) <==> Writable(sys, p, b)
  {
    hide Inv, FindFrom;
    ProcOkAt(sys, p);
    var q := sys.procs[p];
    SamePage(q, a, 0);
    SamePage(q, b, 0);
    InMappingFound(q, a);
    InMappingFound(q, b);
  }

  lemma KernelNotWritable(sys: Sys, p: Pid, a: nat)
    requires Inv(sys) && p in sys.procs && a >= KERNBASE
    ensures !Writable(sys, p, a)
  {
    hide Core, PagesOk, OwnersOk, FindFrom;
    AboveUserPages(sys.st, (p, a / PGSIZE));
    assert ProcOk(sys.procs[p]);
    InMappingFound(sys.procs[p], a);
    if InMapping(sys.procs[p], a) {
      CoveredBelowSz(sys.procs[p], a);
    }
  }

  /** A copyout to one page takes at most a frame and a page table. */
  lemma CopyoutUses(st: St, q: Proc, p: Pid, va: nat)
    requires Core(st, {}) && RecordOk(q) && CopyoutPage(st, q, p, va).1 == Done
    ensures Supply(CopyoutPage(st, q, p, va).0) + 2 >= Supply(st)
  {
    hide Core, AllocPage, FindFrom, UserMem;
    var k := (p, va / PGSIZE);
    CoreFreeOk(st, {});
    AllocPageSupply(st, k, true);
    if k !in st.pte && VmaFind(q, va / PGSIZE * PGSIZE).Some? {
      CoveredPage(q, va / PGSIZE * PGSIZE);
      AllocPageKeeps(st, {}, k, true);
    }
  }

  /** One page of a copyout: it succeeds where a store would, and leaves every other page as it
      was. */
  lemma ChunkIff(sys: Sys, p: Pid, va: nat, bs: seq<Byte>)
    requires Inv(sys) && Runnable(sys.procs, p) && va < UINT && va % PGSIZE + |bs| <= PGSIZE
    ensures var (s, o) := Step(sys, KernelWrite(p, va, bs));
            && Inv(s) && s.procs == sys.procs && (o == Ret(0) || o == Ret(-1) || o == OutOfMemory)
            && (o == Ret(0) ==> Writable(sys, p, va) && Supply(s.st) + 2 >= Supply(sys.st))
            && (o == Ret(-1) ==> !Writable(sys, p, va))
            && (o == OutOfMemory ==> Supply(sys.st) <= 1)
            && forall a: nat :: a / PGSIZE != va / PGSIZE ==> (Writable(s, p, a) <==> Writable(sys, p, a))
  {
    hide Inv, UserMem, Writable, CopyoutPage, Splice;
    var op := KernelWrite(p, va, bs);
    StepRefines(sys, op);
    EagerAllows(sys, p, va, true);
    InvIsSound(sys);
    ChunkSupply(sys, p, va, bs);
    var s := Step(sys, op).0;
    forall a: nat | a / PGSIZE != va / PGSIZE ensures Writable(s, p, a) <==> Writable(sys, p, a) {
      EagerAllows(sys, p, a, true);
      EagerAllows(s, p, a, true);
    }
  }

  lemma ChunkSupply(sys: Sys, p: Pid, va: nat, bs: seq<Byte>)
    requires Sound(sys) && Enabled(sys.procs, KernelWrite(p, va, bs))
    ensures var (s, o) := Step(sys, KernelWrite(p, va, bs));
            && (o == Ret(0) ==> Supply(s.st) + 2 >= Supply(sys.st))
            && (o == OutOfMemory ==> Supply(sys.st) <= 1)
  {
    hide Core, CopyoutPage, RecordOk, Splice;
    if CopyoutPage(sys.st, sys.procs[p], p, va).1 == Done {
      CopyoutUses(sys.st, sys.procs[p], p, va);
    } else if CopyoutPage(sys.st, sys.procs[p], p, va).1 == DiesNoMemory {
      CopyoutSupply(sys.st, sys.procs[p], p, va);
    }
  }

  /** The number of pages that the n bytes from va on lie in. */
  function PagesTouched(va: nat, n: nat): nat {
    if n == 0 then 0 else (va + n - 1) / PGSIZE - va / PGSIZE + 1
  }

  /** copyout succeeds exactly when a store to each destination byte would and memory lasts, which
      it does with two free frames for each page. */
  lemma {:induction false} CopyoutIff(sys: Sys, p: Pid, va: nat, bs: seq<Byte>)
    requires Inv(sys) && Runnable(sys.procs, p)
    ensures var o := CopyoutAll(sys, p, va, bs).1;
            && (o == Ret(0) || o == Ret(-1) || o == OutOfMemory)
            && (o == Ret(0) ==> forall a: nat :: Between(a, va, va + |bs|) ==> Writable(sys, p, a))
            && (o == Ret(-1) ==> exists a: nat :: Between(a, va, va + |bs|) && !Writable(sys, p, a))
            && (o == OutOfMemory ==> Supply(sys.st) < 2 * PagesTouched(va, |bs|))
    decreases |bs|
  {
    hide Inv, Step, Writable;
    assert bs != [] ==> Between(va, va, va + |bs|);
    if bs != [] && va >= KERNBASE {
      KernelNotWritable(sys, p, va);
    } else if bs != [] {
      var n := Min(PGSIZE - va % PGSIZE, |bs|);
      ChunkIff(sys, p, va, bs[..n]);
      var (s, o) := Step(sys, KernelWrite(p, va, bs[..n]));
      FirstPage(sys, p, va, n);
      if o == Ret(0) {
        var next := va / PGSIZE * PGSIZE + PGSIZE;
        CopyoutIff(s, p, next, bs[n..]);
        OtherPages(sys, s, p, va, n, |bs|);
      }
    }
  }

  lemma FirstPage(sys: Sys, p: Pid, va: nat, n: nat)
    requires Inv(sys) && p in sys.procs && va % PGSIZE + n <= PGSIZE
    ensures forall a: nat :: Between(a, va, va + n) ==> (Writable(sys, p, a) <==> Writable(sys, p, va))
  {
    hide Inv, Writable;
    forall a: nat | Between(a, va, va + n) ensures Writable(sys, p, a) <==> Writable(sys, p, va) {
      assert a / PGSIZE == va / PGSIZE;
      WritablePage(sys, p, a, va);
    }
  }

  lemma OtherPages(sys: Sys, s: Sys, p: Pid, va: nat, n: nat, len: nat)
    requires p in sys.procs && p in s.procs && 0 < n <= len && n == Min(PGSIZE - va % PGSIZE, len)
    requires forall a: nat :: a / PGSIZE != va / PGSIZE ==> (Writable(s, p, a) <==> Writable(sys, p, a))
    ensures var next := va / PGSIZE * PGSIZE + PGSIZE;
            && (forall a: nat :: Between(a, next, next + (len - n)) ==> (Writable(s, p, a) <==> Writable(sys, p, a)))
            && PagesTouched(va, len) == PagesTouched(next, len - n) + 1
  {
    hide Writable;
  }
}
