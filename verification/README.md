# Verified models of the kernel's core

Dafny models, with proofs, of the parts of this xv6 kernel whose correctness is hardest to see from
the code: copy-on-write memory with lazily mapped regions, the redo log, the buffer cache, file
blocks and contents, the user heap, pipes with sleep and wakeup, the priority scheduler, and the
shell's in-place pipeline parser. `dafny verify dfyconfig.toml` checks the whole project.

## How it is organised

Each component has value-level functions that say what one operation does to a state, lemmas that
state what those functions keep and mean (up to whole runs), and, where the source updates things in
place, a class whose methods have the source's loops and branches and are proved to do exactly what
the functions say.

| files | models |
|---|---|
| `prelude` | options, small facts about sets and sequences, constants of param.h |
| `mmu`, `kalloc` | pages, page-table entries; the frame allocator with reference counts |
| `vm_state`, `vm_prims`, `vm_ranges` | page tables, kernel-owned frames, single-page and range operations |
| `vm_system`, `vm_refine`, `vm_theorems` | processes and VMAs as a machine; its refinement of eager copying; run theorems |
| `vm_sound`, `vm_supply`, `vm_sbrk` | what every run keeps, cut mappings included; how much memory suffices; sbrk against mappings |
| `vm_calls`, `vm_life`, `vm_frames`, `vm_access` | each call's exact result and effect on addresses and pages; how processes begin and end; the frames each operation needs; exactly when accesses and copyout succeed |
| `vm_kernel`, `vm_syscalls` | vm.c, the page-fault path and the memory system calls in place |
| `log`, `log_device`, `log_admission` | commit and recovery as block writes; the log in place; begin_op, log_write, end_op interleaved |
| `bio_ring`, `bio`, `bio_inv`, `bio_class`, `bio_lru`, `bio_progress` | the LRU ring; the cache as a machine of atomic steps; its invariant; the ring in place; recency over runs; calls can finish |
| `fs_state`, `fs_blocks`, `fs_content`, `fs_files`, `fs_trunc`, `fs_runs` | blocks and inodes; bmap; writei; readi; itrunc; whole runs |
| `fs_device`, `fs_filewrite` | fs.c in place; filewrite and the size of its transactions |
| `fs_image`, `fs_encode`, `fs_crash` | which blocks an operation changes; blocks as words on the disk; crashes during commits |
| `pipe`, `pipe_wakeup`, `pipe_theorems`, `pipe_calls`, `pipe_progress`, `pipe_buffer` | pipes as a small-step machine, up to what each call puts in, takes out and returns, and that nobody is stuck; the ring buffer in place |
| `umalloc`, `umalloc_class` | the free list as a value; malloc and free in place |
| `sched`, `sched_runs`, `sched_laws` | the scheduler's loops; the process table over whole runs; what its users are promised |
| `mysh`, `mysh_text` | the pipeline parser in place; lines as commands written out |

A panic is a stop: it is a `None`, a flag, an outcome or a step that is not enabled, and it is claimed
absent only where a row says so.

## Properties that do not hold as the documentation suggests

Six properties hold only under a condition. The model keeps the code as it is; each has a concrete
failing case and the exact condition.

- Pipes can lose a wakeup. `pipewrite` returns without waking the reader when it gives up on a full
  pipe after writing bytes (pipe.c:84-90). `PipeTheorems.WakeupCanBeLost` gives a run, and
  `PipeTheorems.NoLostWakeupIff` says that runs without that event are exactly the safe ones. That a
  reader and a writer never both sleep holds without condition.
- Operations that respect MAXOPBLOCKS can still panic in `log_write`, because mkfs makes the log
  exactly LOGSIZE blocks including its header (mkfs.c:25, log.c:218). `LogAdmission.SmallLogPanics`
  gives runs. `LogAdmission.NoPanicIff`: operations that have logged fewer than MAXOPBLOCKS distinct
  blocks before each of their log_writes, whether they log a block for the first time or again, are
  safe if and only if the log has more than LOGSIZE blocks. With a log that large, a log_write panics
  exactly when the header is full, which means that the operation has spent its budget and logs one of
  its own blocks again (`LogAdmission.CheckPanicsIff`, with a run in `LogAdmission.RelogPanics`).
  Every transaction of filewrite meets the condition (`FileWrites.TransactionFits`,
  `FileWrites.FileWritesFitTheLog`).
- `sbrk` with a negative argument ignores VMAs, so a later mmap can overlap an active mapping
  (proc.c:210-227). `VmSbrk.ShrinkThenMmapOverlaps` is a run from boot. `VmSbrk.ShrinkApartIff` is the
  exact condition over whole runs: after a shrink the mappings stay apart, whatever happens short of
  another such shrink, if and only if every active mapping ends at or below the rounded new size.
- For the same reason a shrink that cuts an active mapping separates copy-on-write from eager copying.
  `VmRefine.CowRefinesEager` holds for runs without such a shrink, and `VmSbrk.CowAgreesIff` is the exact
  condition for one sbrk: with enough free memory all continuations agree if and only if it cuts
  nothing. `VmSbrk.CutBreaksRefinement` is the failing run. What does not depend on it is proved of
  every run, cuts included: `VmSound.RunSound`, `VmTheorems.ReferencesConserved` and
  `VmTheorems.RunsAreIsolated`.
- `sbrk` that returns -1 can have changed memory. A shrink to size 0 frees every page and then reports
  failure (proc.c:219-222, `VmSbrk.SbrkToZeroFails`). A growth that runs out of memory also frees the
  pages that an earlier cut left resident above the size (vm.c:672-676,
  `VmSbrk.GrowAfterCutLosesPage`). `VmSbrk.FailedSbrkKeepsMemoryIff`: there is no other case.
- `malloc` computes sizes in 32 bits. A request of nearly 2^32 bytes rounds up to a small block
  (umalloc.c:69): `UserHeap.HugeRequestGetsNothing` and `UserHeap.UnitsSufficeIff`. Any other request
  above 2^31 - 16 bytes makes morecore pass sbrk a product that is zero or negative (umalloc.c:54):
  `UserHeap.LargeRequestShrinks`. Block and argument are both right if and only if the request is at
  most 2^31 - 16 bytes: `UserHeap.RequestBackedIff`. `UserAllocator.Allocator.Malloc` says what follows:
  a request that some free block can hold never asks sbrk and leaves the break alone; otherwise the
  heap stays below the new break exactly when sbrk was asked for the whole block.

## Assumptions

- One block write is atomic and writes happen in order, as in memide.c:38-60; a crash may fall between
  any two.
- `sbrk` answers malloc with the old break, which lies above all of the heap, or refuses; which of the two is a parameter.
- Process choice, the order of threads, allocation failures and fault addresses are unconstrained
  inputs of the runs.
- A buffer holder passes its changes to log_write or bwrite before brelse, as every caller in the
  kernel does.

## Model

| member | source | states |
|---|---|---|
| Frames.KfreeKeepsInv | kalloc.c:129-185 | kfree of a counted frame lowers exactly that count, keeps the free list equal to the zero-count frames without duplicates, and junk-fills the page only when its last owner leaves |
| Frames.KallocKeepsInv | kalloc.c:218-244 | kalloc fails exactly on an empty free list; otherwise it returns an uncounted managed frame, now counted once, and the free list stays exact |
| Frames.SameCountsSameFree | kalloc.c:129-244 | the counts determine the set of free frames |
| Frames.Kmem.FreeRange | kalloc.c:76-95 | the boot loop frees each frame of a range once and changes no count, with frames below the range perhaps in use already; once all frames are handed over the allocator invariant holds |
| Frames.Kmem.KernelInit | main.c:20-35 | after kinit1, any number of frames taken by kvmalloc and startothers, and kinit2, exactly these frames have count 1 and the free list is exactly the others |
| Frames.Kmem.KfreeFrame | kalloc.c:129-185 | in place: the allocator becomes what Kfree says |
| Frames.Kmem.KallocFrame | kalloc.c:218-244 | in place: result and allocator are what Kalloc says |
| Frames.Kmem.KrefIncFrame | kalloc.c:253-274 | in place: one more reference on a counted frame |
| VmState.CountBoundedBySpaces | kalloc.c:253-274 | a frame with more than one reference has at most one per address space, because sharing only happens at the same virtual page |
| VmState.ExclusiveUser | vm.c:274-300 | a mapped frame with count 1 has no other user or kernel owner |
| VmPrims.UnmapOneKeeps | vm.c:202-234 | unmapping a page removes just that page from user memory and keeps all counts equal to owners |
| VmPrims.AllocPageKeeps | vm.c:90-128 | a demand page is zero-filled at exactly one new key; a failure changes no mapping and means no free frame was left |
| VmPrims.ShareOneKeeps | vm.c:770-839 | sharing one page gives the child the parent's bytes, turns write permission into COW on both sides, and keeps counts equal to owners, also when the page table cannot be allocated |
| VmPrims.CowFaultKeeps | vm.c:246-348 | resolving a COW fault changes nobody's view of memory and leaves a writable non-COW entry on a frame nobody else owns; it reports not-COW exactly for entries without COW and changes nothing when memory is short |
| VmPrims.ProtectOneKeeps | vm.c:137-194 | changing protection changes no byte; afterwards the page is writable-or-COW, or not writable, as asked, and W still implies a single owner |
| VmPrims.StoreKeeps | vm.c:160-187 | a store through a writable entry is seen by exactly one process |
| VmRanges.UnmapRangeKeeps | vm.c:202-234 | unmapping a range removes exactly the range |
| VmRanges.ProtectRangeKeeps | vm.c:137-194 | protecting a range changes permissions of exactly the resident pages in the range and no byte |
| VmRanges.AllocUvmKeeps | vm.c:659-687 | growth adds exactly zero pages; failure restores exactly the old user mappings |
| VmRanges.CopyRangeKeeps | vm.c:770-850 | at any point of the copy loop the child holds copies of a prefix of the parent's pages and the parent sees what it saw |
| VmRanges.FreeVmKeeps | vm.c:721-736 | freevm gives back exactly one address space's pages, tables and directory |
| VmRanges.SetupKvmKeeps | vm.c:556-574 | a new address space has kernel tables and no user page; failure leaves no owner behind |
| VmRanges.CopyUvmKeeps | vm.c:763-867 | copyuvm gives the child a copy of every resident page, or rolls back every owner and changes nothing anyone can read |
| VmRefine.TrapKeeps | trap.c:60-234 | one page fault at any address either makes the access possible, with the process's right to it, or kills exactly when the eager kernel would refuse the access too |
| VmRefine.DemandKeeps | trap.c:182-234 | demand paging gives a zero page whose write permission is the VMA's |
| VmRefine.AccessRefines | trap.c:60-234 | every user access, at any address, ends within two faults, and completes exactly as an access to eagerly copied memory does |
| VmRefine.CopyoutRefines | vm.c:903-1016 | copyout's page preparation grants and refuses what a user store would |
| VmRefine.MmapProcOk | sysproc.c:146-206 | a new mapping is page-aligned, disjoint from all others, above everything and found by lookup at each of its addresses; whether there is one is VmCalls.MmapIff |
| VmRefine.ReprotectedMayWrite | sysproc.c:273-334 | after mprotect a process may write inside the mapping exactly if it asked to, and nothing changes elsewhere |
| VmRefine.StepRefines | proc.c:210-371 | each system call, access and fault, unless it is an sbrk that cuts an active mapping, keeps the whole-system invariant and matches the eager kernel's step, results and kills included |
| VmRefine.CowRefinesEager | vm.c:763-867 | over every run of fork, access, faults, mmap, munmap, mprotect, sbrk, exit and wait in which no sbrk cuts an active mapping, the processes see the same outcomes and the same memory as under a kernel whose fork copies every resident page |
| VmSound.KernelAddressKills | trap.c:60-234 | a user access at or above KERNBASE kills and changes nothing, whatever the error code |
| VmSound.AccessTouches | trap.c:60-234 | also after a cut: every user access ends within two faults, and changes at most that page of that process and its page tables |
| VmSound.StepSound | proc.c:210-371 | every step, an sbrk that cuts a mapping included, keeps counts equal to owners, the free list exact, W only on unshared pages, and processes and address spaces in step |
| VmSound.RunSound | proc.c:210-371 | so does every run |
| VmSupply.NoMemoryMeansShort | kalloc.c:218-244 | an access or copyout reports no memory only with at most one free frame, a growing sbrk only with fewer than two per new page, fork only with fewer than its stack, directory, kernel tables and one page table per page of the parent, userinit only with fewer than the kernel tables and four more; the exact numbers are VmFrames.OutOfMemoryIff |
| VmTheorems.BootInv | main.c:20-35 | the state before userinit, with the frames that kvmalloc and startothers took, satisfies the invariant |
| VmTheorems.ReferencesConserved | kalloc.c:129-274 | in every state reachable from boot the frames are those of boot, a frame's count is its user mappings plus kernel owners, the free list is exactly the uncounted frames, shared frames have no kernel owner and are mapped at the same virtual page, once per process, and a writable mapping means count 1 and no COW mark |
| VmTheorems.SameOwnersSameCounts | kalloc.c:129-274 | equal owners mean equal counts and equal free sets |
| VmTheorems.FailedForkRollsBack | proc.c:232-281 | in every sound state a fork that runs out of memory leaves all counts, the free set and everything readable as before |
| VmTheorems.StepsAreIsolated | trap.c:60-234 | in every sound state no step of one process changes a byte, the residency of a page or the record of another |
| VmTheorems.RunsAreIsolated | trap.c:60-234 | over every run in which a process does nothing it keeps all of its memory and its record, whatever the others do, cuts included |
| VmSbrk.ShrinkApartIff | proc.c:210-227 | after a shrink the mappings of the process stay pairwise disjoint in every run without a further cut if and only if every active mapping ends at or below the rounded new size |
| VmSbrk.CutOverlaps | sysproc.c:146-262 | otherwise one mmap, after a munmap if the VMA table is full, overlaps the cut mapping |
| VmSbrk.NextMmapApartIff | sysproc.c:146-206 | the next mmap alone leaves them disjoint if and only if that holds or the VMA table is full |
| VmSbrk.MmapOverlaps | sysproc.c:146-206 | with a free slot, the mmap that reaches the end of a cut mapping overlaps it |
| VmSbrk.ShrinkThenMmapOverlaps | sysproc.c:146-206 | a run from boot, with any image and enough memory, after which two active mappings coincide |
| VmSbrk.CutBreaksRefinement | proc.c:210-227 | in every state, an sbrk that cuts an active mapping can be followed by mprotect, a store, fork and a load in which, as long as memory lasts, the child reads 0 where eager copying gives it the parent's byte |
| VmSbrk.CowAgreesIff | proc.c:210-227 | with frames for a store, a fork and a load to spare, the outcomes of every continuation without a further cut are those of eager copying if and only if the sbrk cuts no active mapping |
| VmSbrk.FailedSbrkKeepsMemoryIff | proc.c:210-227 | in every sound state an sbrk that returns -1 left memory alone, except exactly when it shrank to size 0 with a page resident below the size, or grew within bounds over a range with a resident page |
| VmSbrk.SbrkToZeroFails | proc.c:210-227 | with any image and enough memory: the first process gives back its only page, sbrk returns -1, the recorded size stays and the page is gone |
| VmSbrk.GrowAfterCutLosesPage | vm.c:659-687 | a run from boot: mmap, sbrk below the mapping, a store to its last page, and an sbrk back up that returns -1 for lack of memory and has freed that page |
| VmKernel.Kernel.WalkAlloc | vm.c:35-55 | in place: page-table allocation as in Walk |
| VmKernel.Kernel.MapOne | vm.c:60-80 | in place: installing one entry as in MapPage |
| VmKernel.Kernel.VmAllocMmapPage | vm.c:90-128 | in place: demand page, undone when the table cannot be allocated |
| VmKernel.Kernel.VmUnmapRange | vm.c:202-234 | the page loop unmaps what UnmapRange says |
| VmKernel.Kernel.VmProtectRange | vm.c:137-194 | the page loop changes what ProtectRange says |
| VmKernel.Kernel.CowFaultAt | vm.c:246-348 | in place: the three cases of cow_fault |
| VmKernel.Kernel.DeallocUvm | vm.c:693-717 | the loop that skips whole missing page tables frees the same pages as a page-by-page scan |
| VmKernel.Kernel.AllocUvmTo | vm.c:659-687 | bounds checks, page loop, undo, and the panic on a page that is already mapped, as GrowUvm |
| VmKernel.Kernel.FreeVmOf | vm.c:721-736 | in place: user pages, then tables, then directory |
| VmKernel.Kernel.SetupKvmFor | vm.c:556-574 | in place: as SetupKvm, undone on failure |
| VmKernel.Kernel.CopyUvmOf | vm.c:763-867 | the copy loop and its undo path, as CopyUvm |
| VmSyscalls.VmaFindIn | proc.c:75-90 | the search loop returns the slot that covers the address |
| VmSyscalls.VmaFindExactIn | proc.c:99-112 | the search loop returns the slot with exactly this start and length |
| VmSyscalls.CopyoutDelivers | vm.c:903-1016 | a successful copyout leaves exactly the given bytes at the destination, across pages, and changes no other byte of any process |
| VmSyscalls.Machine.SysMmap | sysproc.c:146-206 | the size and overflow checks, the slot search and the field updates give exactly the machine's Mmap step, whose result and effect are those of VmCalls.MmapIff |
| VmSyscalls.Machine.SysMunmap | sysproc.c:216-262 | the argument checks, exact lookup, unmapping and slot release give exactly the Munmap step |
| VmSyscalls.Machine.SysMprotect | sysproc.c:273-334 | the argument checks, exact lookup, page-table and VMA updates give exactly the Mprotect step |
| VmSyscalls.Machine.GrowProc | proc.c:210-227 | growing, shrinking, the zero result taken for failure and the panic give exactly the Sbrk step, also after a cut |
| VmSyscalls.Machine.ForkProc | proc.c:232-281 | kernel stack, copyuvm and the release of the stack on failure give exactly the Fork step |
| VmSyscalls.Machine.ReapZombie | proc.c:331-371 | freeing the stack and the address space of a zombie gives exactly the Reap step |
| VmSyscalls.Machine.TrapPgflt | trap.c:60-234 | in place: the branches of the fault handler, as Trap |
| VmSyscalls.CopyoutTo | vm.c:903-1016 | the copy loop over pages, as CopyoutAll |
| VmCalls.MmapIff | sysproc.c:146-206 | mmap returns the rounded size if and only if the length is positive, the rounded size plus the rounded length fit below KERNBASE and a VMA slot is unused; then exactly those addresses become mapped, and writable, and the size ends with them; otherwise it returns -1 and nothing changes |
| VmCalls.MunmapIff | sysproc.c:216-262 | munmap returns 0 if and only if the length is positive, the address page-aligned and an active mapping has exactly this start and rounded length; then that mapping and its pages are gone and every other page, address and permission is as before; otherwise it returns -1 and nothing changes |
| VmCalls.MprotectIff | sysproc.c:273-334 | mprotect returns 0 if and only if that holds and prot is PROT_READ or PROT_READ with PROT_WRITE; then the addresses of the mapping may be written exactly if asked, and no byte, mapping or other permission changes; otherwise it returns -1 and nothing changes |
| VmCalls.SbrkGrows | proc.c:210-227 | a growing sbrk returns -1 exactly when the new size would reach KERNBASE; when it returns the old size, the new pages are zero and all other pages as before |
| VmCalls.SbrkShrinks | proc.c:210-227 | sbrk(0) and a shrink below 0, which wraps around, change nothing; a shrink to 0 removes the pages, keeps the size and returns -1; any other removes exactly the pages above the new size and returns the old one |
| VmLife.UserInitIs | proc.c:172-207 | the first process has one page, which holds the image, and no mapping |
| VmLife.ForkIs | proc.c:232-281 | fork returns the child's pid or fails for lack of memory; the child has the parent's record and bytes, everyone else keeps what they had |
| VmLife.EndsInZombie | proc.c:286-328 | exit, and every access that is refused or finds no memory, leaves a process that can issue nothing more and that wait can collect |
| VmLife.OnlyEndsKill | trap.c:60-234 | nothing else stops a process |
| VmLife.ZombieStays | proc.c:286-371 | over every run a zombie keeps its record and every operation of it is impossible, until it is collected |
| VmLife.ReapIs | proc.c:331-371 | wait returns the zombie's pid, and its record, pages and kernel frames are gone |
| VmFrames.OutOfMemoryIff | kalloc.c:218-244 | in every sound state an operation runs out of memory if and only if fewer frames are free than it needs: copies of shared pages, new pages, and exactly the page tables that are missing |
| VmFrames.ForkNeeds | vm.c:763-867 | fork succeeds if and only if there are frames for the stack, the directory, the kernel tables and one table for each slot in which the parent has a page |
| VmFrames.SbrkPanicsIff | vm.c:659-687 | growing panics exactly when a page of the new range is mapped already and there are frames up to it and one more |
| VmAccess.LoadIs | trap.c:60-234 | a load gives the byte that is there, or 0 in an untouched page of a mapping, if and only if the process may read and the frames for it are free; no byte changes |
| VmAccess.StoreIs | trap.c:60-234 | a store writes its byte and no other if and only if the process may write and the frames for it are free; otherwise it kills and no byte changes |
| VmAccess.CopyoutIff | vm.c:903-1016 | copyout succeeds if and only if a store to every destination byte would and memory lasts, which it does with two free frames for each page |
| RedoLog.CommitWriteAt | log.c:177-202 | which block commit writes at each position: log blocks, header, home blocks, cleared header |
| RedoLog.RecoverIs | log.c:69-122 | recovery installs exactly what the header and log blocks say, whatever home held |
| RedoLog.RecoverCrash | log.c:115-122 | a crash at any point of recovery can be recovered from with the same result |
| RedoLog.RepeatedCrashes | log.c:115-122 | so can any number of crashes during recovery |
| RedoLog.CommitCrash | log.c:192-202 | a crash after k writes of a commit recovers to the old state if the header is not yet written, to the new state from then on, never to a mixture |
| RedoLog.RunsAreAtomic | log.c:69-202 | after any sequence of commits, empty ones included, cut off anywhere, and any crashes during recovery, home holds exactly the transactions whose header had been written |
| LogDevice.Log.LogWrite | log.c:213-233 | in place: the block joins the header unless it is there, and its newest data is pending |
| LogDevice.Log.WriteHead | log.c:101-113 | in place: one write of the header block |
| LogDevice.Log.WriteLog | log.c:177-190 | the loop writes the pending blocks to the log in order |
| LogDevice.Log.InstallTrans | log.c:69-82 | the loop writes the log's blocks home in order |
| LogDevice.Log.Commit | log.c:192-202 | the writes of commit are exactly CommitWrites of the pending blocks, and nothing when the header is empty |
| LogDevice.Log.RecoverFromLog | log.c:115-122 | in place: the disk becomes Recover of the disk |
| LogDevice.LogInPlace | log.c:177-202 | after write_log and write_head the log holds the whole transaction |
| LogAdmission.StepKeepsInv | log.c:125-174 | begin_op, log_write and end_op, interleaved, keep header entries distinct and header length plus unspent budgets within LOGSIZE, and a commit runs only with no operation outstanding, and always then if anything is logged |
| LogAdmission.AdmissionHolds | log.c:125-174 | over every interleaving the header never exceeds LOGSIZE, and with no operation outstanding whatever is logged is being committed |
| LogAdmission.HeaderIs | log.c:125-233 | over every interleaving the header names exactly the blocks that log_write recorded since the last commit |
| LogAdmission.IdleAdmits | log.c:125-174 | from every reachable state that has not panicked and has no operation outstanding, begin_op goes through, at once or after the one commit that is running, with an empty header |
| LogAdmission.NeverStuck | log.c:125-174 | from every such state with operations outstanding, they can all end, and the commit that the last one starts leaves the log empty and idle |
| LogAdmission.CheckPanicsIff | log.c:213-233 | with more than LOGSIZE log blocks a log_write panics exactly when the header is full; then no budget is left anywhere and the block is one the operation has logged before |
| LogAdmission.SpareRunsFit | log.c:213-233 | with more than LOGSIZE log blocks, operations that have logged fewer than MAXOPBLOCKS distinct blocks before each log_write never panic, whether the block is new or not |
| LogAdmission.ThriftyCallsFit | log.c:213-233 | that condition holds in every interleaving of operations whose own sequence of log_writes meets it |
| LogAdmission.SmallLogPanics | log.c:213-233 | for every smaller log some operations with budget to spare panic |
| LogAdmission.NoPanicIff | log.c:213-233 | operations with budget to spare at each log_write are safe if and only if the log has more than LOGSIZE blocks |
| LogAdmission.RelogPanics | log.c:213-233 | for every such log size, a run after which logging an own block again panics although nothing would be added |
| LruRing.LinkFrontKeeps | bio.c:46-55 | the four pointer writes put a buffer at the front of the ring, in both directions |
| LruRing.UnlinkKeeps | bio.c:130-136 | the two pointer writes take one buffer out of the ring and keep the rest in order |
| LruRing.AllPresent | bio.c:38-56 | a ring of NBUF distinct buffers holds every buffer |
| BufferRing.Bcache.constructor | bio.c:38-56 | binit links all NBUF buffers, last one first |
| BufferRing.Bcache.Lookup | bio.c:61-75 | the forward scan returns the first buffer from the front that caches the block |
| BufferRing.Bcache.PickVictim | bio.c:77-91 | the backward scan returns the last buffer in the list that is unreferenced and clean, which is the least recently used by BufferLru.RecyclesLru |
| BufferRing.Bcache.Bget | bio.c:61-93 | hit, recycling and panic, with the exact change to the buffers; the ring stays a ring of all buffers |
| BufferRing.Bcache.Release | bio.c:120-141 | brelse drops one reference; if it was the last, the buffer is first in the list and all others keep their relative order; if not, the list is unchanged |
| LruRing.TouchedMoves | bio.c:120-141 | moving a buffer to the front puts it first and keeps the relative order of all others |
| BufferLru.OrderIsRecency | bio.c:61-141 | over every run the list holds the buffers from the latest to the oldest last release, and those never released in their first order |
| BufferLru.RecyclesLru | bio.c:77-91 | over every run, when bget recycles a buffer, every other unreferenced clean buffer was released more recently |
| BufferLru.BgetIs | bio.c:61-93 | bget takes the buffer that caches the block if there is one, otherwise an unreferenced clean one, and panics exactly when there is neither |
| BufferProgress.CallFinishes | bio.c:96-141 | from every state a call that need not wait for a lock can finish by its own steps, and then exactly it is gone |
| BufferProgress.CallsFinish | bio.c:96-141 | from every state all calls in progress can finish one after the other |
| BufferTheorems.StepKeeps | bio.c:61-141 | every atomic step of bget, bread, log_write, bwrite and brelse keeps: each device block cached at most once, counts equal to calls in progress, one lock holder, dirty buffers exactly the logged blocks |
| BufferTheorems.CacheIsOverlay | bio.c:61-141 | over every interleaving the invariant holds and the disk overlaid with pending writes is exactly the published writes applied in order |
| BufferTheorems.BreadSees | bio.c:96-106 | a caller back from bread holds the disk block overlaid with the pending write of it |
| BufferTheorems.CleanEqualsDisk | bio.c:61-141 | a valid, clean, unlocked buffer equals its disk block |
| BufferTheorems.LoggedNeverRecycled | log.c:213-233 | bget changes no buffer that is dirty or referenced, except one count |
| BufferTheorems.BootInv | bio.c:38-56 | the cache after binit satisfies the invariant and shows the disk |
| FsBlocks.PlacedConserves | fs.c:56-78 | putting a free block into an empty slot keeps the bitmap equal to metadata plus reachable blocks, and no block reachable twice |
| FsBlocks.AddrPlaced | fs.c:378-388 | allocating a direct or indirect address fills just that slot; a fresh indirect block has no entries because balloc zeroes it |
| FsBlocks.EntryPlaced | fs.c:389-395 | allocating an indirect entry fills just that slot and changes no other file's blocks |
| FsBlocks.BmapFinds | fs.c:372-400 | inside a file bmap returns the block and changes nothing |
| FsBlocks.BmapGrows | fs.c:372-400 | at the end of a file bmap adds its next block, plus an indirect block when first needed, fails exactly when the disk has too few free blocks, and touches no other file |
| FsContent.LoopWrote | fs.c:481-511 | writei's loop stores exactly the bytes, takes exactly the blocks the growth needs, and panics exactly when they are missing |
| FsContent.LoopLogs | fs.c:481-511 | every block the loop passes to log_write is a data block it wrote, a bitmap block of one it allocated, or the indirect block or its bitmap block |
| FsFiles.AllowedIff | fs.c:493-496 | the 32-bit bounds checks of writei refuse exactly writes past the end or beyond the largest file |
| FsFiles.InodesAfter | fs.c:505-509 | a write changes no other inode, and its own only if the file gained a block, so the disk inode is current when iupdate is skipped |
| FsFiles.WriteiRefines | fs.c:481-511 | writei replaces exactly bytes off..off+n of one file's content, leaves every other file's content, keeps block conservation and disk inodes current, and returns -1 or panics exactly when it must |
| FsFiles.ReadiRefines | fs.c:452-476 | readi returns exactly the content from off, clipped to the size, changes nothing and never panics |
| FsFiles.ReadAfterWrite | fs.c:452-511 | what was written is read back, across direct and indirect blocks |
| FsTrunc.FreeAllFrees | fs.c:81-95 | freeing distinct used blocks never meets a free bit and clears exactly their bits |
| FsTrunc.ItruncFrees | fs.c:407-435 | itrunc never panics, frees precisely the blocks its inode owned, empties that file and leaves all others |
| FsRuns.StepRefines | fs.c:372-511 | each write or truncation matches the same operation on byte sequences with a count of free blocks, panics included |
| FsRuns.RunRefines | fs.c:372-511 | every run of writes and truncations panics exactly when the byte model runs out of blocks and otherwise holds exactly its files |
| FsRuns.FreshImage | mkfs.c:236-251 | an image whose bitmap marks just the metadata and whose inodes are empty satisfies the invariant |
| FsDevice.FileSystem.AllocBlock | fs.c:56-78 | the nested bitmap scan finds the first free block of the disk, marks and zeroes it, or finds none |
| FsDevice.FileSystem.ZeroOut | fs.c:42-51 | in place: the block becomes zero and is logged |
| FsDevice.FileSystem.FreeBlock | fs.c:81-95 | in place: the bit is cleared, or the panic for a free block |
| FsDevice.FileSystem.MapBlock | fs.c:372-400 | in place: as Bmap |
| FsDevice.FileSystem.UpdateInode | fs.c:220-236 | in place: the disk inode becomes the memory inode |
| FsDevice.FileSystem.Truncate | fs.c:407-435 | the direct loop, the indirect loop and the indirect block, as Itrunc |
| FsDevice.FileSystem.ReadAt | fs.c:452-476 | bounds checks and copy loop, as Readi |
| FsDevice.FileSystem.WriteAt | fs.c:481-511 | bounds checks, copy loop and size update, as Writei |
| FileWrites.TransactionFits | file.c:126-153 | every chunk that filewrite hands to writei logs at most MAXOPBLOCKS distinct blocks, wherever blocks are allocated, and has logged fewer before each of its log_writes |
| FileWrites.FileWritesFitTheLog | file.c:126-153 | in no interleaving of such transactions does log_write panic if the log has more than LOGSIZE blocks |
| FileWrites.OpenFile.WriteChunk | file.c:135-145 | one transaction: its effect on content, offset and log |
| FileWrites.FilewriteRefines | file.c:117-156 | with any writes and truncations by others, and any changes of a shared offset, before each of its transactions, filewrite does to the files exactly what the byte model does, and panics exactly when that runs out of blocks |
| FileWrites.FilewriteAlone | file.c:117-156 | with nobody else writing it stores exactly a prefix of the bytes, all of them if and only if the file may grow that far, changes no other file, and panics exactly when free blocks run out; the states between its transactions form a chain of writei calls, one chunk each |
| FileWrites.OpenFile.FileWrite | file.c:117-156 | in place: the loop ends as Filewrite says, and every transaction fits the log |
| FsImage.WriteiLogged | fs.c:481-511 | every block whose contents writei changes, bitmap and inode blocks included, was passed to log_write |
| FsImage.ItruncLogged | fs.c:407-435 | so was every block that itrunc changes |
| FsEncode.BitsFaithful | fs.c:56-78 | the words of a bitmap block determine its bits |
| FsEncode.InodesFaithful | fs.h:29-36 | the words of an inode block determine sizes and addresses |
| FsEncode.BytesFaithful | fs.c:481-511 | the words of a data block determine its bytes |
| FsCrash.CommitsAreCrashSafe | log.c:125-202 | after a crash at any block write of any sequence of commits, each of any number of writes and truncations, and any crashes during recovery, the disk holds exactly the file system after a whole number of commits, those whose header was written, and its files are those of the byte model after their operations |
| FsCrash.FileWriteIsCrashSafe | file.c:117-156 | for a filewrite whose transactions commit alone: a whole number of chunks, those whose header was written, are in the file and no other file changed |
| FsCrash.DiskDeterminesFiles | fs.c:220-236 | disks that agree outside the log hold the same bitmap, inodes and file contents |
| Pipe.PutFifo | pipe.c:84-94 | storing a byte appends it to the bytes under way, across wrap-around of the counters |
| Pipe.TakeFifo | pipe.c:106-117 | taking a byte removes the oldest one under way |
| PipeWakeup.StepBase | pipe.c:59-121 | every step of every thread keeps FIFO order, lock discipline, the writers' half of no-lost-wakeup, and that sleepers are all readers or all writers |
| PipeWakeup.StepReaders | pipe.c:78-98 | every step but an abandoning one keeps the readers' half |
| PipeWakeup.AbandonLosesWakeup | pipe.c:84-90 | an abandoning step leaves a reader asleep beside a full pipe |
| PipeTheorems.RunBase | proc.c:645-702 | over every interleaving the unconditional invariant holds |
| PipeTheorems.PipesAreFifo | pipe.c:78-121 | over every interleaving delivered bytes are a prefix of accepted ones and at most PIPESIZE are under way |
| PipeTheorems.NeverBothAsleep | pipe.c:78-121 | a reader and a writer of one pipe are never both asleep |
| PipeTheorems.NoLostWakeupIff | pipe.c:78-121 | a run loses no wakeup if and only if no pipewrite in it abandons |
| PipeTheorems.WakeupCanBeLost | pipe.c:84-90 | a concrete run that loses one |
| PipeCalls.CallsAreExact | pipe.c:59-121 | over every interleaving, what each pipewrite call has put in is exactly the first i bytes it was given, all of them when it returns their number, and -1 only when killed or with the read end closed; what each piperead call has taken is a contiguous part of the delivered bytes, at most n, and it returns their number, 0 only at end of file or for n = 0, -1 only when killed before taking any; pipeclose closes its end |
| PipeCalls.OnlyCallsMoveBytes | pipe.c:59-121 | over every interleaving only a pipewrite puts bytes in and only a piperead takes them out |
| PipeCalls.KillWakes | proc.c:707-728 | kill leaves its victim awake and marked, and no other thread changed |
| PipeProgress.SomeoneMoves | pipe.c:59-121 | in every reachable state in which a call has not returned and does not sleep, some thread can take a step |
| PipeProgress.StuckMeansWaiting | pipe.c:78-121 | when no thread can take a step, every call has returned or sleeps; writers sleep only with 512 bytes under way and the read end open, readers, unless a pipewrite abandoned them, only with none under way and the write end open |
| PipeBuffer.Buffer.WriteSome | pipe.c:84-94 | the write loop accepts a prefix, stopping only at a full ring |
| PipeBuffer.Buffer.ReadSome | pipe.c:110-117 | the read loop delivers the oldest bytes, stopping only at an empty ring |
| UserHeap.FreedKeeps | umalloc.c:24-44 | free keeps the heap valid: live and free blocks tile the memory from sbrk, sorted cycle, no two free blocks adjacent |
| UserHeap.TakeAllKeeps | umalloc.c:75-77 | taking a whole block keeps the heap valid |
| UserHeap.TakeTailKeeps | umalloc.c:78-82 | splitting a block keeps the heap valid and yields a block that overlaps nothing |
| UserHeap.GrownKeeps | umalloc.c:46-61 | adding a fresh region keeps the heap valid |
| UserHeap.OneOwner | umalloc.c:24-90 | each unit of the heap is in exactly one free or live block |
| UserHeap.HugeRequestGetsNothing | umalloc.c:69 | the largest request is rounded to a block with no room beside its header |
| UserHeap.UnitsSufficeIff | umalloc.c:69 | the block size computed in 32 bits suffices if and only if the request does not wrap around |
| UserHeap.RequestBackedIff | umalloc.c:46-69 | the block suffices and sbrk is asked for all of its bytes if and only if the request is at most 2^31 - 16 bytes |
| UserHeap.LargeRequestShrinks | umalloc.c:54 | above that bound, unless the rounding itself wraps around, sbrk is asked for zero or fewer bytes: zero exactly for the last eight requests, else it gives memory back |
| UserHeap.GrownBackedIff | umalloc.c:46-61 | the new break lies above the block that morecore builds if and only if the product in sbrk's argument did not wrap around |
| UserAllocator.StopsAt | umalloc.c:30-32 | the exit test of free's loop holds exactly at the last free block below the freed one, the wrap-around point included |
| UserAllocator.InsertWrites | umalloc.c:30-40 | linking the freed block in writes two headers, and p and q are its neighbours in address order |
| UserAllocator.FreeWritesAre | umalloc.c:33-43 | the pointer writes of free are insertion followed by merging with both neighbours |
| UserAllocator.FreedCovers | umalloc.c:24-44 | after free some free block is at least as large as the freed one |
| UserAllocator.Allocator.FindPlace | umalloc.c:30-32 | free's loop terminates, at the last free block below |
| UserAllocator.Allocator.Free | umalloc.c:24-44 | in place: exactly the given block leaves the live blocks, the heap is Freed, and freep is the free block below it |
| UserAllocator.Allocator.MoreCore | umalloc.c:46-61 | sbrk is asked for the 32-bit product of units and unit size, read as signed; a granted block is added whatever that product is, some free block then suffices, and the heap stays below the break exactly if the product did not wrap around; a refusal changes nothing |
| UserAllocator.Allocator.Carve | umalloc.c:75-84 | the whole block or its tail becomes live, and its address is returned |
| UserAllocator.Allocator.Malloc | umalloc.c:63-90 | if some free block is large enough, malloc takes the whole or the tail of the first such block in list order after freep, and neither the heap's memory nor the break changes; if none is and sbrk refuses, it fails and changes nothing; if sbrk grants, exactly the asked region is added, the first fit of the heap with it is taken, and the heap stays below the break exactly if all of it was asked for |
| Scheduler.Closer | proc.c:474-534 | each visit of the scheduler brings a given process closer, whatever is dispatched |
| Scheduler.WaitingBound | proc.c:447-536 | on any sequence of tables in which a process is runnable and not dispatched, others are dispatched at most MAX_PRIORITY * (NPROC - 1) times |
| Scheduler.CycleComesBack | proc.c:474-534 | on a fixed table the loops return to the start of a cycle within MAX_PRIORITY * NPROC visits, having dispatched exactly what a cycle dispatches |
| SchedulerRuns.PrioritiesHold | proc.c:121-417 | in every run from boot of fork, setprio, sleep, wakeup, kill, exit, wait, yield and the scheduler, every live process has a priority from 1 to MAX_PRIORITY and exactly the dispatched process is RUNNING |
| SchedulerRuns.RunVisits | proc.c:447-536 | in every run the scheduler's position and dispatches are those of its loops on the tables it finds |
| SchedulerRuns.BoundedWaiting | proc.c:447-536 | in every run from boot, while a process stays RUNNABLE others are dispatched at most MAX_PRIORITY * (NPROC - 1) times, whatever those and the interrupts do |
| SchedulerLaws.PriorityIs | proc.c:232-417 | over every run from boot the priority of each process is the one it last set with setprio, or its parent's at fork |
| SchedulerLaws.CycleShares | proc.c:447-536 | in every run of CPU-bound processes one cycle dispatches each runnable process exactly as often as its priority says and the next cycle starts |
| SchedulerLaws.SetPrioDelivers | proc.c:373-399 | after setprio(n) with n from 1 to 10, whatever happens until its next call, every such cycle dispatches the caller exactly n times |
| SchedulerLaws.RunnableGetsCpu | proc.c:447-536 | from every reachable state a runnable process gets the CPU within MAX_PRIORITY * NPROC visits and after at most MAX_PRIORITY * (NPROC - 1) dispatches of others |
| SchedulerLaws.SleepsUntilRoused | proc.c:645-728 | after sleep a process gets the CPU no more until a wakeup on its channel or a kill, and each of these makes it runnable |
| SchedulerLaws.ExitIsFinal | proc.c:286-371 | after exit a process never gets the CPU again and its slot stays taken until wait frees it |
| SchedulerLaws.ForkTakesUnused | proc.c:120-281 | fork finds a slot exactly when one is unused, changes no other, and makes the child runnable with its parent's priority, or the slot unused again |
| Scheduler.RoundVisits | proc.c:474-534 | with a fixed table one round dispatches exactly the eligible processes in order |
| Scheduler.RoundsCount | proc.c:474-534 | k rounds dispatch each runnable process min(k, priority) times |
| Scheduler.EmptyRoundIsLast | proc.c:526-533 | the early exit skips no eligible process |
| Scheduler.Cycle | proc.c:474-534 | the nested loops dispatch every runnable process exactly priority times in a cycle as long as the priorities add up to |
| Mysh.StagesExtend | mysh.c:86-235 | reading on only extends the last stage |
| Mysh.BadPrefix | mysh.c:86-235 | an overlong or empty stage, or too many stages, in a prefix rules out the whole line |
| Mysh.ParsePipeline | mysh.c:86-235 | the parser returns k exactly when the line is k stages of 1 to 15 words, 0 exactly when blank, else -1; on success every argv pointer denotes its word in the overwritten buffer and each row ends in null |
| MyshText.ReadsBack | mysh.c:86-235 | commands written out with '|' between them and any blanks around their words are read back word for word |
| MyshText.WritesBack | mysh.c:86-235 | every line is the commands it is read as, written out |
| MyshText.PipelineIff | mysh.c:86-235 | the lines that the parser accepts are exactly those that write out 1 to 8 commands of 1 to 15 words |
| MyshText.BlankIff | mysh.c:86-235 | a line counts as blank exactly when it holds nothing but blanks |

## Left out

- Device and boot code (ide.c, lapic.c, ioapic.c, mp.c, uart.c, kbd.c, console.c, bootmain.c, assembly): hardware access.
- swtch, trap frames, segments, the TLB and lcr3: a context switch is one step and a page-table change is seen at once.
- exec, ELF loading and argument checks.
- Kernel-mode page faults.
- Directories, path names, link counts, file descriptors other than filewrite's loop, and device inodes in readi and writei.
- The free list's links inside free pages, and type, device numbers and link count in inode blocks: the free list is a sequence of frames, and these inode words are 0.
- Fairness, apart from the scheduler's bound, and deadlock between calls that hold several buffers: in the cache each call holds one.
- Freeing the pipe's own page in pipeclose, which would only repeat the allocator results.
- mkfs: an initial image that satisfies the block invariant is assumed; FsRuns.FreshImage shows one without files.
- More than one CPU in the scheduler.
- sh.c, grep.c, printf, string helpers, user utilities and the test programs.
- UserAllocator.Allocator.Malloc: starts with a heap that lies below the break; calls after a request whose argument to sbrk wrapped around are not modelled.
- FsCrash.CommitsAreCrashSafe: the operations of one commit run one after the other; that concurrent operations on different inodes amount to that is not modelled.
