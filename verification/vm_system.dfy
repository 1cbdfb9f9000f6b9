/** Processes with VMAs, the page-fault handler and the memory system calls
    (trap.c, sysproc.c, proc.c), beside a machine whose fork copies eagerly. */
module VmSystem {
  import opened Prelude
  import opened Mmu
  import opened Frames
  import opened VmState
  import opened VmPrims
  import opened VmRanges

  const MAX_VMAS: nat := 16
  const PROT_READ := 1
  const PROT_WRITE := 2

  datatype Vma = Vma(start: nat, length: nat, write: bool, used: bool)
  datatype Proc = Proc(sz: nat, vmas: seq<Vma>, live: bool)

  /** The running kernel, and the machine it should look like. */
  datatype Sys = Sys(st: St, procs: map<Pid, Proc>)
  datatype Eager = Eager(mem: UMem, procs: map<Pid, Proc>)

  datatype Op =
    | UserInit(p: Pid, image: Page)
    | Fork(p: Pid, child: Pid)
    | Load(p: Pid, va: nat)
    | StoreTo(p: Pid, va: nat, b: Byte)
    | KernelWrite(p: Pid, va: nat, bs: seq<Byte>)
    | Mmap(p: Pid, n: int)
    | Munmap(p: Pid, va: nat, n: int)
    | Mprotect(p: Pid, va: nat, n: int, prot: int)
    | Sbrk(p: Pid, n: int)
    | Exit(p: Pid)
    | Reap(p: Pid)

  /** Disabled: nobody can issue the operation now.  Panic: the kernel stops there. */
  datatype Outcome = Ret(r: int) | Value(b: Byte) | Killed | OutOfMemory | Panic | Disabled

  // ---- VMA lookup ----

  predicate Covers(v: Vma, a: nat) {
    v.used && v.start <= a && a - v.start < v.length
  }

  /** vma_find, from slot i on. */
  function FindFrom(vmas: seq<Vma>, a: nat, i: nat): (r: Option<nat>)
    ensures r.Some? ==> i <= r.value < |vmas| && Covers(vmas[r.value], a)
                        && forall j :: i <= j < r.value ==> !Covers(vmas[j], a)
    ensures r.None? ==> forall j :: i <= j < |vmas| ==> !Covers(vmas[j], a)
    decreases |vmas| - i
  {
    if i >= |vmas| then None else if Covers(vmas[i], a) then Some(i) else FindFrom(vmas, a, i + 1)
  }

  function VmaFind(q: Proc, a: nat): Option<nat> {
    FindFrom(q.vmas, a, 0)
  }

  predicate Exactly(v: Vma, a: nat, len: nat) {
    v.used && v.start == a && v.length == len
  }

  function FindExactFrom(vmas: seq<Vma>, a: nat, len: nat, i: nat): (r: Option<nat>)
    ensures r.Some? ==> i <= r.value < |vmas| && Exactly(vmas[r.value], a, len)
                        && forall j :: i <= j < r.value ==> !Exactly(vmas[j], a, len)
    ensures r.None? ==> forall j :: i <= j < |vmas| ==> !Exactly(vmas[j], a, len)
    decreases |vmas| - i
  {
    if i >= |vmas| then None else if Exactly(vmas[i], a, len) then Some(i) else FindExactFrom(vmas, a, len, i + 1)
  }

  function FreeSlotFrom(vmas: seq<Vma>, i: nat): (r: Option<nat>)
    ensures r.Some? ==> i <= r.value < |vmas| && !vmas[r.value].used
                        && forall j :: i <= j < r.value ==> vmas[j].used
    ensures r.None? ==> forall j :: i <= j < |vmas| ==> vmas[j].used
    decreases |vmas| - i
  {
    if i >= |vmas| then None else if !vmas[i].used then Some(i) else FreeSlotFrom(vmas, i + 1)
  }

  /** May process q write at address a, as far as its VMAs say?  Ordinary memory always may. */
  predicate MayWrite(q: Proc, a: nat) {
    var v := VmaFind(q, a);
    v.None? || q.vmas[v.value].write
  }

  // ---- system calls that only touch the process record ----

  function MmapProc(q: Proc, n: int): (Proc, int) {
    var failed: (Proc, int) := (q, -1);
    if n <= 0 then failed else
    var len, start := RoundUp(n), RoundUp(q.sz);
    if len == 0 || len >= KERNBASE || start >= KERNBASE || len > KERNBASE - start then failed else
    match FreeSlotFrom(q.vmas, 0)
    case None => failed
    case Some(i) => (q.(vmas := q.vmas[i := Vma(start, len, true, true)], sz := start + len), start)
  }

  /** The slot that munmap and mprotect act on, if the arguments name a whole mapping. */
  function ExactSlot(q: Proc, a: nat, n: int): (r: Option<nat>)
    ensures r.Some? ==> n > 0 && r.value < |q.vmas| && Exactly(q.vmas[r.value], a, RoundUp(n))
  {
    if n <= 0 || a % PGSIZE != 0 then None else FindExactFrom(q.vmas, a, RoundUp(n), 0)
  }

  const NO_VMA := Vma(0, 0, false, false)

  function Forgotten(q: Proc, i: nat): Proc
    requires i < |q.vmas|
  {
    q.(vmas := q.vmas[i := NO_VMA])
  }

  function Reprotected(q: Proc, i: nat, write: bool): Proc
    requires i < |q.vmas|
  {
    q.(vmas := q.vmas[i := q.vmas[i].(write := write)])
  }

  /** The size argument growproc computes for a shrinking sbrk: sz + n in 32-bit unsigned. */
  function Shrunk(sz: nat, n: int): nat
    requires -0x8000_0000 <= n < 0
  {
    if sz + n >= 0 then sz + n else sz + n + 0x1_0000_0000
  }

  /** What a successful growproc by n does to the process record: it never looks at the VMAs. */
  function Resized(q: Proc, n: int): Proc
    requires 0 <= q.sz + n
  {
    q.(sz := q.sz + n)
  }

  predicate EndsBelow(q: Proc, a: nat) {
    forall i :: 0 <= i < |q.vmas| && q.vmas[i].used ==> q.vmas[i].start + q.vmas[i].length <= a
  }

  /** A shrinking sbrk that leaves part of an active mapping above the new, rounded size. */
  predicate CutsMapping(q: Proc, n: int) {
    0 < q.sz + n < q.sz && !EndsBelow(q, RoundUp(q.sz + n))
  }

  predicate Runnable(procs: map<Pid, Proc>, p: Pid) {
    p in procs && procs[p].live
  }

  /** When an operation can be issued at all. */
  predicate Enabled(procs: map<Pid, Proc>, op: Op) {
    match op
    case UserInit(p, _) => p !in procs
    case Fork(p, child) => Runnable(procs, p) && child !in procs
    case Load(p, va) => Runnable(procs, p) && va < UINT
    case StoreTo(p, va, _) => Runnable(procs, p) && va < UINT
    case KernelWrite(p, va, bs) => Runnable(procs, p) && va < UINT && va % PGSIZE + |bs| <= PGSIZE
    case Sbrk(p, n) => Runnable(procs, p) && -0x8000_0000 <= n < 0x8000_0000
    case Mmap(p, n) => Runnable(procs, p) && n < 0x8000_0000
    case Munmap(p, _, n) => Runnable(procs, p) && n < 0x8000_0000
    case Mprotect(p, _, n, _) => Runnable(procs, p) && n < 0x8000_0000
    case Exit(p) => Runnable(procs, p)
    case Reap(p) => p in procs && !procs[p].live
  }

  function Dead(q: Proc): Proc {
    q.(live := false)
  }

  // ---- the copy-on-write kernel ----

  /** What the MMU lets a user-mode access do. */
  predicate HwAllows(st: St, k: Key, write: bool) {
    k in st.pte && st.pte[k].u && (write ==> st.pte[k].w)
  }

  /** Error code of a user-mode page fault: bit 0 present, bit 1 write, bit 2 user
      (section 4.7 of the Intel SDM, volume 3A). */
  function FaultCode(present: bool, write: bool): nat {
    (if present then 1 else 0) + (if write then 2 else 0) + 4
  }

  /** vm_alloc_mmap_page. */
  function DemandPage(st: St, k: Key, write: bool): (r: (St, bool))
    ensures SameFrames(st.m, r.0.m)
  {
    match AllocPage(st, k, write)
    case (s, Mapped) => (s, true)
    case (s, NoFrame) => (s, false)
    case (s, NoTable(f)) => (s.(m := Kfree(s.m, f)), false)
  }

  datatype Verdict = Retry | Kill | KillNoMemory

  /** The T_PGFLT case of trap for a fault from user mode. */
  function Trap(st: St, q: Proc, p: Pid, va: nat, err: nat): (r: (St, Verdict))
    ensures SameFrames(st.m, r.0.m)
  {
    var k := (p, va / PGSIZE);
    var v := VmaFind(q, va);
    if err % 4 == 3 then
      if v.Some? && !q.vmas[v.value].write then (st, Kill) else
      match CowFault(st, k)
      case (s, Resolved) => (s, Retry)
      case (s, NoMemory) => (s, KillNoMemory)
      case (s, NotCow) => (s, Kill)
    else if err % 2 == 1 then (st, Kill)
    else if v.None? then (st, Kill)
    else if (err / 2) % 2 == 1 && !q.vmas[v.value].write then (st, Kill)
    else
      match DemandPage(st, k, q.vmas[v.value].write)
      case (s, true) => (s, Retry)
      case (s, false) => (s, KillNoMemory)
  }

  datatype Access = Done | Dies | DiesNoMemory | StillFaulting

  /** A user access: try, trap, retry, with at most `faults` faults. */
  function UserAccess(st: St, q: Proc, p: Pid, va: nat, write: bool, faults: nat): (r: (St, Access))
    ensures SameFrames(st.m, r.0.m)
    decreases faults
  {
    var k := (p, va / PGSIZE);
    if HwAllows(st, k, write) then (st, Done)
    else if faults == 0 then (st, StillFaulting)
    else
      match Trap(st, q, p, va, FaultCode(k in st.pte, write))
      case (s, Retry) => UserAccess(s, q, p, va, write, faults - 1)
      case (s, Kill) => (s, Dies)
      case (s, KillNoMemory) => (s, DiesNoMemory)
  }

  /** copyout's handling of one destination page, up to the point where it may copy. */
  function CopyoutPage(st: St, q: Proc, p: Pid, va: nat): (r: (St, Access))
    ensures SameFrames(st.m, r.0.m)
  {
    var v := VmaFind(q, va / PGSIZE * PGSIZE);
    var k := (p, va / PGSIZE);
    if k !in st.pte && (v.None? || !q.vmas[v.value].write) then (st, Dies) else
    var (s, ok) := if k in st.pte then (st, true) else DemandPage(st, k, true);
    if !ok then (s, DiesNoMemory)
    else if v.Some? && !q.vmas[v.value].write then (s, Dies) else
    var (s', r) := if k in s.pte && s.pte[k].cow then CowFault(s, k) else (s, Resolved);
    if r == NoMemory then (s', DiesNoMemory)
    else if !HwAllows(s', k, true) then (s', Dies)
    else (s', Done)
  }

  /** fork: kernel stack, then copyuvm; a failure gives the stack back. */
  function ForkSt(st: St, p: Pid, child: Pid, n: nat): (r: (St, bool))
    ensures SameFrames(st.m, r.0.m)
  {
    match AllocKern(st, KStack(child))
    case (s, false) => (s, false)
    case (s, true) =>
      match CopyUvm(s, p, child, n)
      case (s', true) => (s', true)
      case (s', false) => (FreeKern(s', KStack(child)), false)
  }

  /** The part of wait that releases a zombie's memory. */
  function ReapSt(st: St, p: Pid): (r: St)
    ensures SameFrames(st.m, r.m)
  {
    FreeVm(FreeKern(st, KStack(p)), p)
  }

  /** The first page of p from v on, below hi, that is mapped. */
  function FirstResident(pte: map<Key, Pte>, p: Pid, v: nat, hi: nat): (r: nat)
    requires v <= hi
    ensures v <= r <= hi && (forall u :: v <= u < r ==> (p, u) !in pte) && (r < hi ==> (p, r) in pte)
    decreases hi - v
  {
    if v == hi || (p, v) in pte then v else FirstResident(pte, p, v + 1, hi)
  }

  datatype Growth = Grown | NoMemoryLeft | Remap

  /** allocuvm on any page table.  At the first page that is already mapped it still asks for a
      frame: mappages panics if there is one, and otherwise every page of the range goes. */
  function GrowUvm(st: St, p: Pid, lo: nat, hi: nat): (r: (St, Growth))
    requires lo <= hi
    ensures SameFrames(st.m, r.0.m)
  {
    var v := FirstResident(st.pte, p, lo, hi);
    match AllocRange(st, p, lo, v)
    case (s, Mapped) =>
      if v == hi then (s, Grown)
      else if Kalloc(s.m).1.None? then (Undone(s, p, lo, hi, NoFrame), NoMemoryLeft)
      else (st, Remap)
    case (s, r) => (Undone(s, p, lo, hi, r), NoMemoryLeft)
  }

  /** The byte that a permitted load returns. */
  function LoadedByte(st: St, k: Key, o: nat): Outcome
    requires o < PGSIZE
  {
    if k in st.pte && st.pte[k].frame < |st.m.data| then Value(st.m.data[st.pte[k].frame][o]) else Disabled
  }

  function InitProc(): Proc {
    Proc(PGSIZE, seq(MAX_VMAS, _ => NO_VMA), true)
  }

  /** userinit: kernel stack, kernel mappings, and one page that holds initcode. */
  function UserInitSt(st: St, p: Pid, image: Page): (r: (St, bool))
    ensures SameFrames(st.m, r.0.m)
  {
    var (s1, ok1) := AllocKern(st, KStack(p));
    if !ok1 then (st, false) else
    var (s2, ok2) := SetupKvm(s1, p);
    if !ok2 then (st, false) else
    var (s3, r) := AllocPage(s2, (p, 0), true);
    if !r.Mapped? then (st, false) else (Store(s3, (p, 0), 0, image), true)
  }

  lemma PagesMono(a: nat, b: nat)
    requires a <= b
    ensures PagesFor(a) <= PagesFor(b)
  {
  }

  function Step(sys: Sys, op: Op): (r: (Sys, Outcome))
    ensures SameFrames(sys.st.m, r.0.st.m)
  {
    if !Enabled(sys.procs, op) then (sys, Disabled) else
    var q := if op.UserInit? then InitProc() else sys.procs[op.p];
    match op
    case UserInit(p, image) =>
      (match UserInitSt(sys.st, p, image)
       case (s, true) => (Sys(s, sys.procs[p := q]), Ret(0))
       case (_, false) => (sys, OutOfMemory))
    case Fork(p, child) =>
      (match ForkSt(sys.st, p, child, PagesFor(q.sz))
       case (s, true) => (Sys(s, sys.procs[child := q]), Ret(child))
       case (s, false) => (Sys(s, sys.procs), OutOfMemory))
    case Load(p, va) =>
      (match UserAccess(sys.st, q, p, va, false, 2)
       case (s, Done) => (Sys(s, sys.procs), LoadedByte(s, (p, va / PGSIZE), va % PGSIZE))
       case (s, r) => (Sys(s, sys.procs[p := Dead(q)]), if r == DiesNoMemory then OutOfMemory else Killed))
    case StoreTo(p, va, b) =>
      (match UserAccess(sys.st, q, p, va, true, 2)
       case (s, Done) => (Sys(Store(s, (p, va / PGSIZE), va % PGSIZE, [b]), sys.procs), Ret(0))
       case (s, r) => (Sys(s, sys.procs[p := Dead(q)]), if r == DiesNoMemory then OutOfMemory else Killed))
    case KernelWrite(p, va, bs) =>
      (match CopyoutPage(sys.st, q, p, va)
       case (s, Done) => (Sys(Store(s, (p, va / PGSIZE), va % PGSIZE, bs), sys.procs), Ret(0))
       case (s, r) => (Sys(s, sys.procs), if r == DiesNoMemory then OutOfMemory else Ret(-1)))
    case Mmap(p, n) =>
      var (q', r) := MmapProc(q, n);
      (Sys(sys.st, sys.procs[p := q']), Ret(r))
    case Munmap(p, va, n) =>
      (match ExactSlot(q, va, n)
       case None => (sys, Ret(-1))
       case Some(i) =>
         var v := q.vmas[i];
         var s := UnmapRange(sys.st, p, v.start / PGSIZE, (v.start + v.length) / PGSIZE);
         (Sys(s, sys.procs[p := Forgotten(q, i)]), Ret(0)))
    case Mprotect(p, va, n, prot) =>
      if prot != PROT_READ && prot != PROT_READ + PROT_WRITE then (sys, Ret(-1)) else
      (match ExactSlot(q, va, n)
       case None => (sys, Ret(-1))
       case Some(i) =>
         var v, write := q.vmas[i], prot == PROT_READ + PROT_WRITE;
         var s := ProtectRange(sys.st, p, v.start / PGSIZE, (v.start + v.length) / PGSIZE, write);
         (Sys(s, sys.procs[p := Reprotected(q, i, write)]), Ret(0)))
    case Sbrk(p, n) =>
      if n > 0 then
        if q.sz + n >= KERNBASE then (sys, Ret(-1)) else
        PagesMono(q.sz, q.sz + n);
        (match GrowUvm(sys.st, p, PagesFor(q.sz), PagesFor(q.sz + n))
         case (s, Grown) => (Sys(s, sys.procs[p := Resized(q, n)]), Ret(q.sz))
         case (s, NoMemoryLeft) => (Sys(s, sys.procs), OutOfMemory)
         case (_, Remap) => (sys, Panic))
      else if n == 0 then (sys, Ret(q.sz))
      else
        var sz' := Shrunk(q.sz, n);
        if sz' >= q.sz then (sys, Ret(if q.sz == 0 then -1 else q.sz)) else
        var s := UnmapRange(sys.st, p, PagesFor(sz'), PagesFor(q.sz));
        if sz' == 0 then (Sys(s, sys.procs), Ret(-1))
        else (Sys(s, sys.procs[p := Resized(q, n)]), Ret(q.sz))
    case Exit(p) => (sys.(procs := sys.procs[p := Dead(q)]), Ret(0))
    case Reap(p) => (Sys(ReapSt(sys.st, p), sys.procs - {p}), Ret(p))
  }

  // ---- the eager machine ----

  /** Access to private memory: an untouched page of a mapping reads as zeroes. */
  function EagerAccess(e: Eager, q: Proc, p: Pid, va: nat, write: bool): (UMem, bool) {
    var k := (p, va / PGSIZE);
    if k in e.mem then (e.mem, e.mem[k].u && (write ==> MayWrite(q, va)))
    else if VmaFind(q, va).Some? && (write ==> MayWrite(q, va)) then (e.mem[k := UPage(Filled(0), true)], true)
    else (e.mem, false)
  }

  function Poke(m: UMem, k: Key, o: nat, bs: seq<Byte>): UMem
    requires o + |bs| <= PGSIZE
  {
    if k in m then m[k := m[k].(data := Splice(m[k].data, o, bs))] else m
  }

  /** The machine without sharing.  `oom` says that the kernel runs out of memory during this step. */
  function EagerStep(e: Eager, op: Op, oom: bool): (Eager, Outcome) {
    if !Enabled(e.procs, op) then (e, Disabled) else
    var q := if op.UserInit? then InitProc() else e.procs[op.p];
    if oom then
      (if op.Load? || op.StoreTo? then e.(procs := e.procs[op.p := Dead(q)]) else e, OutOfMemory)
    else
    match op
    case UserInit(p, image) => (Eager(e.mem[(p, 0) := UPage(image, true)], e.procs[p := q]), Ret(0))
    case Fork(p, child) =>
      (Eager(Copied(e.mem, p, child, USERPAGES), e.procs[child := q]), Ret(child))
    case Load(p, va) =>
      var (m, ok) := EagerAccess(e, q, p, va, false);
      if ok && (p, va / PGSIZE) in m then (e.(mem := m), Value(m[(p, va / PGSIZE)].data[va % PGSIZE]))
      else (e.(procs := e.procs[p := Dead(q)]), Killed)
    case StoreTo(p, va, b) =>
      var (m, ok) := EagerAccess(e, q, p, va, true);
      if ok then (e.(mem := Poke(m, (p, va / PGSIZE), va % PGSIZE, [b])), Ret(0))
      else (e.(procs := e.procs[p := Dead(q)]), Killed)
    case KernelWrite(p, va, bs) =>
      var (m, ok) := EagerAccess(e, q, p, va, true);
      if ok then (e.(mem := Poke(m, (p, va / PGSIZE), va % PGSIZE, bs)), Ret(0))
      else (e, Ret(-1))
    case Mmap(p, n) =>
      var (q', r) := MmapProc(q, n);
      (e.(procs := e.procs[p := q']), Ret(r))
    case Munmap(p, va, n) =>
      (match ExactSlot(q, va, n)
       case None => (e, Ret(-1))
       case Some(i) =>
         var v := q.vmas[i];
         var m := Without(e.mem, p, v.start / PGSIZE, (v.start + v.length) / PGSIZE);
         (Eager(m, e.procs[p := Forgotten(q, i)]), Ret(0)))
    case Mprotect(p, va, n, prot) =>
      if prot != PROT_READ && prot != PROT_READ + PROT_WRITE then (e, Ret(-1)) else
      (match ExactSlot(q, va, n)
       case None => (e, Ret(-1))
       case Some(i) => (e.(procs := e.procs[p := Reprotected(q, i, prot == PROT_READ + PROT_WRITE)]), Ret(0)))
    case Sbrk(p, n) =>
      if n > 0 then
        if q.sz + n >= KERNBASE then (e, Ret(-1)) else
        (Eager(Zeroed(e.mem, p, PagesFor(q.sz), PagesFor(q.sz + n)), e.procs[p := Resized(q, n)]), Ret(q.sz))
      else if n == 0 then (e, Ret(q.sz))
      else
        var sz' := Shrunk(q.sz, n);
        if sz' >= q.sz then (e, Ret(if q.sz == 0 then -1 else q.sz)) else
        var m := Without(e.mem, p, PagesFor(sz'), PagesFor(q.sz));
        if sz' == 0 then (e.(mem := m), Ret(-1))
        else (Eager(m, e.procs[p := Resized(q, n)]), Ret(q.sz))
    case Exit(p) => (e.(procs := e.procs[p := Dead(q)]), Ret(0))
    case Reap(p) => (Eager(PteWithout(e.mem, p), e.procs - {p}), Ret(p))
  }

  // ---- runs ----

  function Run(sys: Sys, ops: seq<Op>): (r: (Sys, seq<Outcome>))
    ensures SameFrames(sys.st.m, r.0.st.m)
    decreases |ops|
  {
    if ops == [] then (sys, []) else
    var (s, o) := Step(sys, ops[0]);
    var (s', os) := Run(s, ops[1..]);
    (s', [o] + os)
  }

  /** The eager machine, told only which steps ran out of memory. */
  function EagerRun(e: Eager, ops: seq<Op>, oom: seq<bool>): (Eager, seq<Outcome>)
    requires |oom| == |ops|
    decreases |ops|
  {
    if ops == [] then (e, []) else
    var (e1, o) := EagerStep(e, ops[0], oom[0]);
    var (e2, os) := EagerRun(e1, ops[1..], oom[1..]);
    (e2, [o] + os)
  }
}
