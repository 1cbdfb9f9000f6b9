/** What each memory system call does, in terms of the caller's addresses: its exact result, the
    record it leaves, and the pages that come and go (sysproc.c, proc.c, vm.c). */
module VmCalls {
  import opened Mmu
  import opened VmState
  import opened VmPrims
  import opened VmRanges
  import opened VmSystem
  import opened VmRefine
  import opened VmSound

  // ---- the caller's view ----

  /** Address a lies in an active mapping. */
  ghost predicate InMapping(q: Proc, a: nat) {
    exists i :: 0 <= i < |q.vmas| && q.vmas[i].used && q.vmas[i].start <= a < q.vmas[i].start + q.vmas[i].length
  }

  /** An active mapping is exactly the len bytes from a. */
  ghost predicate Whole(q: Proc, a: nat, len: nat) {
    exists i :: 0 <= i < |q.vmas| && q.vmas[i].used && q.vmas[i].start == a && q.vmas[i].length == len
  }

  /** munmap and mprotect accept page-aligned arguments that name a whole mapping. */
  ghost predicate Names(q: Proc, a: nat, n: int) {
    n > 0 && a % PGSIZE == 0 && Whole(q, a, RoundUp(n))
  }

  predicate Between(a: nat, lo: nat, hi: nat) {
    lo <= a < hi
  }

  /** The page at k is one of process p that begins in [lo, hi). */
  predicate PageIn(k: Key, p: Pid, lo: nat, hi: nat) {
    k.0 == p && Between(k.1 * PGSIZE, lo, hi)
  }

  /** Outside [lo, hi) of p's addresses no page came, went or changed. */
  ghost predicate SameOutside(m: UMem, m': UMem, p: Pid, lo: nat, hi: nat) {
    forall k: Key :: !PageIn(k, p, lo, hi) ==> (k in m' <==> k in m) && (k in m ==> m'[k] == m[k])
  }

  ghost predicate NoneInside(m: UMem, p: Pid, lo: nat, hi: nat) {
    forall k: Key :: PageIn(k, p, lo, hi) ==> k !in m
  }

  /** Only the record of p changed, and it is still running. */
  ghost predicate OnlyRecord(sys: Sys, s: Sys, p: Pid) {
    p in sys.procs && p in s.procs && s.procs == sys.procs[p := s.procs[p]] && s.procs[p].live == sys.procs[p].live
  }

  /** Outside [lo, hi) the same addresses are mapped, with the same write permission. */
  ghost predicate SameRights(q: Proc, q': Proc, lo: nat, hi: nat) {
    forall a: nat :: !Between(a, lo, hi) ==>
      (InMapping(q', a) <==> InMapping(q, a)) && (MayWrite(q', a) <==> MayWrite(q, a))
  }

  lemma InMappingFound(q: Proc, a: nat)
    ensures InMapping(q, a) <==> VmaFind(q, a).Some?
  {
    if InMapping(q, a) {
      var i :| 0 <= i < |q.vmas| && q.vmas[i].used && q.vmas[i].start <= a < q.vmas[i].start + q.vmas[i].length;
      assert Covers(q.vmas[i], a);
    }
  }

  /** Changing one slot matters only where its old or its new range reaches. */
  lemma SlotRights(q: Proc, q': Proc, i: nat, lo: nat, hi: nat)
    requires i < |q.vmas| == |q'.vmas| && q'.vmas == q.vmas[i := q'.vmas[i]]
    requires forall a: nat :: !Between(a, lo, hi) ==> !Covers(q.vmas[i], a) && !Covers(q'.vmas[i], a)
    ensures SameRights(q, q', lo, hi)
  {
    forall a: nat | !Between(a, lo, hi)
      ensures (InMapping(q', a) <==> InMapping(q, a)) && (MayWrite(q', a) <==> MayWrite(q, a))
    {
      InMappingFound(q, a);
      InMappingFound(q', a);
      MayWriteElsewhere(q, q', i, a);
      FindSame(q.vmas, q'.vmas, a, 0);
    }
  }

  lemma NamesSlot(q: Proc, a: nat, n: int)
    ensures Names(q, a, n) <==> ExactSlot(q, a, n).Some?
  {
    if Names(q, a, n) {
      var i :| 0 <= i < |q.vmas| && q.vmas[i].used && q.vmas[i].start == a && q.vmas[i].length == RoundUp(n);
      assert Exactly(q.vmas[i], a, RoundUp(n));
    }
  }

  lemma PageRange(k: Key, p: Pid, lo: nat, hi: nat)
    ensures Within(k, p, PagesFor(lo), PagesFor(hi)) <==> PageIn(k, p, lo, hi)
  {
  }

  /** Removing whole pages, in bytes. */
  lemma WithoutBytes(m: UMem, p: Pid, lo: nat, hi: nat)
    ensures var m' := Without(m, p, PagesFor(lo), PagesFor(hi));
            SameOutside(m, m', p, lo, hi) && NoneInside(m', p, lo, hi)
  {
    hide PagesFor;
    forall k: Key ensures Within(k, p, PagesFor(lo), PagesFor(hi)) <==> PageIn(k, p, lo, hi) {
      PageRange(k, p, lo, hi);
    }
  }

  // ---- mmap ----

  /** There is room for n bytes below KERNBASE, and a slot to record them in. */
  ghost predicate Fits(q: Proc, n: int) {
    && n > 0 && RoundUp(n) < KERNBASE && RoundUp(q.sz) + RoundUp(n) <= KERNBASE
    && exists i :: 0 <= i < |q.vmas| && !q.vmas[i].used
  }

  /** mmap returns the rounded size exactly when the request fits, and then adds exactly those
      whole pages, writable; otherwise it returns -1 and changes nothing. */
  lemma MmapIff(sys: Sys, p: Pid, n: int)
    requires Runnable(sys.procs, p) && n < 0x8000_0000
    ensures var q := sys.procs[p];
            var (s, o) := Step(sys, Mmap(p, n));
            && (o == Ret(RoundUp(q.sz)) <==> Fits(q, n))
            && (!Fits(q, n) ==> o == Ret(-1) && s == sys)
            && (Fits(q, n) ==>
                  var lo, hi := RoundUp(q.sz), RoundUp(q.sz) + RoundUp(n);
                  && s.st == sys.st && OnlyRecord(sys, s, p) && s.procs[p].sz == hi
                  && SameRights(q, s.procs[p], lo, hi)
                  && forall a: nat :: Between(a, lo, hi) ==>
                       InMapping(s.procs[p], a) && (!InMapping(q, a) ==> MayWrite(s.procs[p], a)))
  {
    hide RoundUp, FreeSlotFrom;
    var q := sys.procs[p];
    if Fits(q, n) {
      var i, q' := FreeSlotFrom(q.vmas, 0).value, MmapProc(q, n).0;
      var lo, hi := RoundUp(q.sz), RoundUp(q.sz) + RoundUp(n);
      SlotRights(q, q', i, lo, hi);
      forall a: nat | Between(a, lo, hi) ensures InMapping(q', a) && (!InMapping(q, a) ==> MayWrite(q', a)) {
        NewMapping(q, q', i, a);
      }
    } else {
      assert sys.procs[p := q] == sys.procs;
    }
  }

  lemma NewMapping(q: Proc, q': Proc, i: nat, a: nat)
    requires i < |q.vmas| == |q'.vmas| && q'.vmas == q.vmas[i := q'.vmas[i]]
    requires Covers(q'.vmas[i], a) && q'.vmas[i].write
    ensures InMapping(q', a) && (!InMapping(q, a) ==> MayWrite(q', a))
  {
    if !InMapping(q, a) {
      forall j | 0 <= j < |q.vmas| && j != i ensures !Covers(q'.vmas[j], a) {
        assert q'.vmas[j] == q.vmas[j];
      }
    }
  }

  // ---- munmap ----

  /** munmap returns 0 exactly for a whole mapping, and then takes away that mapping and its pages
      and nothing else; otherwise it returns -1 and changes nothing. */
  lemma MunmapIff(sys: Sys, p: Pid, va: nat, n: int)
    requires Sound(sys) && Runnable(sys.procs, p) && n < 0x8000_0000
    ensures var q := sys.procs[p];
            var (s, o) := Step(sys, Munmap(p, va, n));
            && o == Ret(if Names(q, va, n) then 0 else -1) && (!Names(q, va, n) ==> s == sys)
            && Framed(sys.st) && Framed(s.st)
            && (Names(q, va, n) ==>
                  var hi := va + RoundUp(n);
                  && OnlyRecord(sys, s, p) && s.procs[p].sz == q.sz && SameRights(q, s.procs[p], va, hi)
                  && (Disjoint(q) ==> forall a: nat :: Between(a, va, hi) ==> !InMapping(s.procs[p], a))
                  && SameOutside(UserMem(sys.st), UserMem(s.st), p, va, hi) && NoneInside(UserMem(s.st), p, va, hi))
  {
    hide Core, OwnersOk, PidsOk, RecordsOk, UserMem, UnmapRange, ExactSlot, RoundUp, Names, SameOutside, NoneInside;
    SoundFramed(sys);
    var q := sys.procs[p];
    NamesSlot(q, va, n);
    if Names(q, va, n) {
      var i := ExactSlot(q, va, n).value;
      var v, hi := q.vmas[i], va + RoundUp(n);
      WholePageRange(sys, p, i);
      UnmapRangeKeeps(sys.st, {}, p, PagesFor(va), PagesFor(hi));
      WithoutBytes(UserMem(sys.st), p, va, hi);
      SlotRights(q, Forgotten(q, i), i, va, hi);
      if Disjoint(q) {
        forall a: nat | Between(a, va, hi) ensures !InMapping(Forgotten(q, i), a) {
          GoneMapping(q, i, a);
        }
      }
    }
  }

  lemma WholePageRange(sys: Sys, p: Pid, i: nat)
    requires Sound(sys) && p in sys.procs && i < |sys.procs[p].vmas| && sys.procs[p].vmas[i].used
    ensures var v := sys.procs[p].vmas[i];
            v.start / PGSIZE == PagesFor(v.start) && (v.start + v.length) / PGSIZE == PagesFor(v.start + v.length)
  {
    hide Core, OwnersOk, PidsOk;
    assert RecordOk(sys.procs[p]);
  }

  lemma GoneMapping(q: Proc, i: nat, a: nat)
    requires Disjoint(q) && i < |q.vmas| && Covers(q.vmas[i], a)
    ensures !InMapping(Forgotten(q, i), a)
  {
    forall j | 0 <= j < |q.vmas| && j != i && q.vmas[j].used ensures !Covers(q.vmas[j], a) {
      assert Apart(q.vmas[i], q.vmas[j]) || Apart(q.vmas[j], q.vmas[i]);
    }
  }

  // ---- mprotect ----

  /** mprotect returns 0 exactly for a whole mapping and PROT_READ or PROT_READ | PROT_WRITE; then
      its addresses may be written exactly if asked, and nothing else changes, no byte either. */
  lemma MprotectIff(sys: Sys, p: Pid, va: nat, n: int, prot: int)
    requires Sound(sys) && Runnable(sys.procs, p) && n < 0x8000_0000
    ensures var q := sys.procs[p];
            var (s, o) := Step(sys, Mprotect(p, va, n, prot));
            var ok := Names(q, va, n) && (prot == 1 || prot == 3);
            && o == Ret(if ok then 0 else -1) && (!ok ==> s == sys)
            && Framed(sys.st) && Framed(s.st) && UserMem(s.st) == UserMem(sys.st)
            && (ok ==>
                  var hi := va + RoundUp(n);
                  && OnlyRecord(sys, s, p) && s.procs[p].sz == q.sz && SameRights(q, s.procs[p], va, hi)
                  && forall a: nat :: Between(a, va, hi) ==>
                       InMapping(s.procs[p], a) && (Disjoint(q) ==> (MayWrite(s.procs[p], a) <==> prot == 3)))
  {
    hide Core, OwnersOk, PidsOk, RecordsOk, UserMem, ProtectRange, ExactSlot, RoundUp, Names;
    SoundFramed(sys);
    var q := sys.procs[p];
    NamesSlot(q, va, n);
    if Names(q, va, n) && (prot == 1 || prot == 3) {
      var i := ExactSlot(q, va, n).value;
      var v, hi := q.vmas[i], va + RoundUp(n);
      ProtectRangeKeeps(sys.st, p, v.start / PGSIZE, (v.start + v.length) / PGSIZE, prot == 3);
      SlotRights(q, Reprotected(q, i, prot == 3), i, va, hi);
      forall a: nat | Between(a, va, hi)
        ensures var q' := Reprotected(q, i, prot == 3);
                InMapping(q', a) && (Disjoint(q) ==> (MayWrite(q', a) <==> prot == 3))
      {
        NewRights(q, i, prot == 3, a);
      }
    }
  }

  lemma NewRights(q: Proc, i: nat, write: bool, a: nat)
    requires i < |q.vmas| && Covers(q.vmas[i], a)
    ensures var q' := Reprotected(q, i, write); InMapping(q', a) && (Disjoint(q) ==> (MayWrite(q', a) <==> write))
  {
    var q' := Reprotected(q, i, write);
    assert Covers(q'.vmas[i], a);
    if Disjoint(q) {
      forall j, k | 0 <= j < k < |q'.vmas| && q'.vmas[j].used && q'.vmas[k].used ensures Apart(q'.vmas[j], q'.vmas[k]) {
        assert Apart(q.vmas[j], q.vmas[k]);
      }
      FindIs(q', i, a);
    }
  }

  // ---- sbrk ----

  /** Between the rounded lo and hi every page is a fresh zero page. */
  ghost predicate ZeroInside(m: UMem, p: Pid, lo: nat, hi: nat) {
    forall k: Key :: PageIn(k, p, lo, hi) ==> k in m && m[k] == UPage(Filled(0), true)
  }

  lemma ZeroedBytes(m: UMem, p: Pid, lo: nat, hi: nat)
    ensures var m' := Zeroed(m, p, PagesFor(lo), PagesFor(hi));
            SameOutside(m, m', p, lo, hi) && ZeroInside(m', p, lo, hi)
  {
    hide PagesFor;
    forall k: Key ensures Within(k, p, PagesFor(lo), PagesFor(hi)) <==> PageIn(k, p, lo, hi) {
      PageRange(k, p, lo, hi);
      assert k == (k.0, k.1);
    }
  }

  /** A growing sbrk: -1 at KERNBASE; otherwise it returns the old size and adds zero pages up to
      the new one, unless memory runs out or a page is in the way. */
  lemma SbrkGrows(sys: Sys, p: Pid, n: int)
    requires Sound(sys) && Runnable(sys.procs, p) && 0 < n < 0x8000_0000
    ensures var q := sys.procs[p];
            var (s, o) := Step(sys, Sbrk(p, n));
            && Framed(sys.st) && Framed(s.st)
            && (o == Ret(-1) <==> q.sz + n >= KERNBASE)
            && (o == Ret(-1) || o == Ret(q.sz) || o == OutOfMemory || o == Panic)
            && (o == Ret(-1) || o == Panic ==> s == sys)
            && (o == Ret(q.sz) ==>
                  && s.procs == sys.procs[p := q.(sz := q.sz + n)]
                  && SameOutside(UserMem(sys.st), UserMem(s.st), p, q.sz, q.sz + n)
                  && ZeroInside(UserMem(s.st), p, q.sz, q.sz + n))
            && (o == OutOfMemory ==>
                  s.procs == sys.procs && SameOutside(UserMem(sys.st), UserMem(s.st), p, q.sz, q.sz + n))
  {
    hide Core, OwnersOk, PidsOk, UserMem, GrowUvm, SameOutside, ZeroInside, OnlyTables, OthersSame, PagesFor;
    hide NoneInside;
    SoundFramed(sys);
    var q := sys.procs[p];
    assert RecordOk(q);
    if q.sz + n < KERNBASE {
      PagesMono(q.sz, q.sz + n);
      PagesMono(q.sz + n, KERNBASE);
      assert PagesFor(KERNBASE) == USERPAGES;
      GrowTouches(sys.st, p, PagesFor(q.sz), PagesFor(q.sz + n));
      CoreIsFramed(GrowUvm(sys.st, p, PagesFor(q.sz), PagesFor(q.sz + n)).0, {});
      ZeroedBytes(UserMem(sys.st), p, q.sz, q.sz + n);
      WithoutBytes(UserMem(sys.st), p, q.sz, q.sz + n);
    }
  }

  /** sbrk(0) and a shrinking sbrk.  Below zero the new size wraps and nothing happens; at zero the
      pages go but the size stays and the result is -1; above zero it returns the old size. */
  lemma SbrkShrinks(sys: Sys, p: Pid, n: int)
    requires Sound(sys) && Runnable(sys.procs, p) && -0x8000_0000 <= n <= 0
    ensures var q := sys.procs[p];
            var (s, o) := Step(sys, Sbrk(p, n));
            && Framed(sys.st) && Framed(s.st)
            && (o == Ret(-1) || o == Ret(q.sz)) && (o == Ret(-1) <==> n < 0 && (q.sz + n == 0 || q.sz == 0))
            && (n == 0 || q.sz + n < 0 ==> s == sys)
            && (n < 0 && q.sz + n >= 0 ==>
                  && s.procs == (if q.sz + n == 0 then sys.procs else sys.procs[p := q.(sz := q.sz + n)])
                  && SameOutside(UserMem(sys.st), UserMem(s.st), p, q.sz + n, q.sz)
                  && NoneInside(UserMem(s.st), p, q.sz + n, q.sz))
  {
    hide Core, OwnersOk, PidsOk, UserMem, UnmapRange, SameOutside, NoneInside, PagesFor;
    SoundFramed(sys);
    var q := sys.procs[p];
    assert RecordOk(q);
    if n < 0 && q.sz + n >= 0 {
      UnmapRangeKeeps(sys.st, {}, p, PagesFor(q.sz + n), PagesFor(q.sz));
      WithoutBytes(UserMem(sys.st), p, q.sz + n, q.sz);
    }
  }
}
