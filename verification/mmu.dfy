/** Page geometry and page-table entries (mmu.h, memlayout.h, mmap.h). */
module Mmu {
  import opened Prelude

  const PGSIZE: nat := 4096
  const KERNBASE: nat := 0x8000_0000
  /** Entries of one page table, and of the page directory. */
  const NPTENTRIES: nat := 1024
  const NPDENTRIES: nat := 1024
  /** Number of virtual pages below KERNBASE. */
  const USERPAGES: nat := 0x80000

  type Page = p: seq<Byte> | |p| == PGSIZE witness seq(PGSIZE, _ => 0)

  /** A present entry: the frame it points at and the PTE_W, PTE_U and PTE_COW bits. */
  datatype Pte = Pte(frame: nat, w: bool, u: bool, cow: bool)

  function Filled(b: Byte): Page {
    seq(PGSIZE, _ => b)
  }

  /** Number of whole pages needed to hold `n` bytes, which is PGROUNDUP(n) / PGSIZE. */
  function PagesFor(n: nat): (r: nat)
    ensures (r - 1) * PGSIZE < n <= r * PGSIZE || (n == 0 && r == 0)
  {
    (n + PGSIZE - 1) / PGSIZE
  }

  function RoundUp(n: nat): (r: nat)
    ensures n <= r < n + PGSIZE && r % PGSIZE == 0
    ensures n % PGSIZE == 0 ==> r == n
  {
    PagesFor(n) * PGSIZE
  }
}
