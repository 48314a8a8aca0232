/** The constants of the machine and the page table entry (include/hardware.h, memory/memory.h). */
module Hardware {

  const PAGE_SIZE: int := 0x2000
  const REGION_SIZE: int := 0x10_0000
  const REGION1_BASE: int := 0x10_0000
  const REGION1_LIMIT: int := 0x20_0000

  /** Entries of one page table: VMEM_REGION_SIZE >> PAGESHIFT. */
  const TABLE_LEN: nat := 128

  /** The kernel stack: the last two pages of region 0, KERNEL_STACK_MAXSIZE >> PAGESHIFT pages long. */
  const STACK_PAGES: nat := 2
  const STACK_BASE_PAGE: nat := 126
  const STACK_LIMIT_PAGE: nat := 128

  /** The three movable frame windows sit just below the kernel stack. */
  const WINDOW_BASE_PAGE: nat := 123

  /** A page frame number is a 24-bit field of the page table entry. */
  const MAX_FRAMES: nat := 0x100_0000

  /** sizeof(void *): the makefile builds for 32 bits. */
  const WORD_SIZE: nat := 4

  /** Words of one page, a word being what a pointer needs. */
  const PAGE_WORDS: nat := 2048

  type Page = p: seq<int> | |p| == PAGE_WORDS witness seq(PAGE_WORDS, _ => 0)

  function UpToPage(address: int): int {
    (address + PAGE_SIZE - 1) / PAGE_SIZE * PAGE_SIZE
  }

  function DownToPage(address: int): int {
    address / PAGE_SIZE * PAGE_SIZE
  }

  /** UP_TO_PAGE and DOWN_TO_PAGE: the page boundaries next to an address. */
  lemma PageBoundaries(address: int)
    ensures DownToPage(address) % PAGE_SIZE == 0 && DownToPage(address) <= address < DownToPage(address) + PAGE_SIZE
    ensures UpToPage(address) % PAGE_SIZE == 0 && UpToPage(address) - PAGE_SIZE < address <= UpToPage(address)
  {
  }

  function IndexOfPage(address: int): int {
    address / PAGE_SIZE
  }

  function PageAtIndex(index: int): int {
    index * PAGE_SIZE
  }

  /** The option bits of a page table entry, one field per bit. */
  datatype Flags = Flags(
    valid: bool, read: bool, write: bool, exec: bool,
    access: bool, modified: bool, cow: bool, spare: bool)

  datatype PTE = PTE(flags: Flags, pfn: nat)

  const NO_FLAGS := Flags(false, false, false, false, false, false, false, false)
  const DATA_FLAGS := Flags(true, true, true, false, false, false, false, false)
  const TEXT_FLAGS := Flags(true, true, false, true, false, false, false, false)

  /** What clearPageTable and createPTEWithOptions(0, 0) leave in an entry. */
  const NO_ENTRY := PTE(NO_FLAGS, 0)

  /** The options that the code rebuilds from an entry: PTE_VALID | (perm << 1) | (misc << 4). */
  function OptionsOf(e: PTE): Flags {
    e.flags.(valid := true)
  }

  /** What the memory trap makes of the options of a copy-on-write entry. */
  function Unshare(flags: Flags): Flags {
    flags.(cow := false, write := true)
  }

  /** What fork makes of the options of an entry below the stack page. */
  function MarkCopyOnWrite(flags: Flags): Flags {
    if flags.write then flags.(write := false, cow := true) else flags
  }
}
