/**
 * The x86 paging constants and the JOS memory layout that the
 * copy-on-write fork library relies on (inc/mmu.h and inc/memlayout.h
 * of JOS; those headers are not part of this model, their values are
 * restated here).
 */
module Mmu {

  const PGSIZE: nat := 4096
  const NPTENTRIES: nat := 1024
  /** Bytes mapped by one page directory entry (4 MB). */
  const PTSIZE: nat := PGSIZE * NPTENTRIES

  /** Top of the part of the address space that user code may map. */
  const UTOP: nat := 0xEEC0_0000
  /** The user exception stack is the single page just below UXSTACKTOP. */
  const UXSTACKTOP: nat := UTOP
  /** The normal user stack ends one empty guard page below UXSTACKTOP - PGSIZE. */
  const USTACKTOP: nat := UTOP - 2 * PGSIZE
  const UTEMP: nat := PTSIZE
  /** Scratch page used by the page fault handler. */
  const PFTEMP: nat := UTEMP + PTSIZE - PGSIZE

  /** Page numbers of the addresses above. */
  const UTOP_PN: nat := UTOP / PGSIZE
  const UXSTACK_PN: nat := (UXSTACKTOP - PGSIZE) / PGSIZE
  const USTACK_PN: nat := (USTACKTOP - PGSIZE) / PGSIZE
  const PFTEMP_PN: nat := PFTEMP / PGSIZE

  /** Page table entry flag bits. */
  const PTE_P: bv32 := 0x001
  const PTE_W: bv32 := 0x002
  const PTE_U: bv32 := 0x004
  const PTE_PS: bv32 := 0x080
  const PTE_AVAIL: bv32 := 0xE00
  const PTE_SHARE: bv32 := 0x400
  /** Copy-on-write mark, one of the PTE_AVAIL bits (lib/fork.c:8). */
  const PTE_COW: bv32 := 0x800
  /** The only flags a user environment may pass to the page system calls. */
  const PTE_SYSCALL: bv32 := PTE_AVAIL | PTE_P | PTE_W | PTE_U

  /** Page fault error code bit: the faulting access was a write. */
  const FEC_WR: bv32 := 0x2

  /** PGNUM: the page number of a linear address. */
  function PageNumber(va: nat): nat { va / PGSIZE }

  /** PDX of the address of page `pn`: its page directory index. */
  function DirOf(pn: nat): nat { pn / NPTENTRIES }

  /** The flags user code may name in sys_page_alloc/sys_page_map (kern/syscall.c's checks). */
  predicate PermOk(perm: bv32)
  {
    perm & (PTE_U | PTE_P) == PTE_U | PTE_P && perm & !PTE_SYSCALL == 0
  }

  /** A virtual address the page system calls accept: page aligned, below UTOP. */
  predicate VaOk(va: nat)
  {
    va < UTOP && va % PGSIZE == 0
  }
}
