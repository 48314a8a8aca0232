/**
  The page table entry as the machine has it (memory/memory.h, memory/memory.c): bit fields packed
  from option bits.  Flags is proved to be a faithful reading of them, rewriting included.
 */
module EntryBits {
  import opened Hardware

  const PTE_VALID: bv8 := 0x01
  const PTE_PERM_READ: bv8 := 0x02
  const PTE_PERM_WRITE: bv8 := 0x04
  const PTE_PERM_EXEC: bv8 := 0x08
  const PTE_PERM_MASK: bv8 := 0x0E
  const PTE_COPY_ON_WRITE: bv8 := 0x40
  const PTE_MISC_MASK: bv8 := 0xF0

  /** struct PTE */
  datatype Entry = Entry(valid: bv1, perm: bv3, misc: bv4, pfn: nat)

  /** createPTEWithOptions; the frame number is cut to its field. */
  function Create(options: bv8, frame: nat): Entry {
    Entry(
      (options & PTE_VALID) as bv1, ((options & PTE_PERM_MASK) >> 1) as bv3, ((options & PTE_MISC_MASK) >> 4) as bv4,
      frame % MAX_FRAMES)
  }

  /** The options that the code puts together again from an entry. */
  function Options(e: Entry): bv8 {
    PTE_VALID | ((e.perm as bv8) << 1) | ((e.misc as bv8) << 4)
  }

  function FlagsOf(e: Entry): Flags {
    Flags(
      e.valid == 1, e.perm & 1 != 0, e.perm & 2 != 0, e.perm & 4 != 0,
      e.misc & 1 != 0, e.misc & 2 != 0, e.misc & 4 != 0, e.misc & 8 != 0)
  }

  function Read(e: Entry): PTE {
    PTE(FlagsOf(e), e.pfn)
  }

  /** Packing and putting together again gives the options back, valid in any case; the frame number
      survives exactly when it fits its 24 bits. */
  lemma OptionsRoundTrip(options: bv8, frame: nat)
    ensures Options(Create(options, frame)) == options | PTE_VALID
    ensures Create(options, frame).pfn == frame <==> frame < MAX_FRAMES
  {
  }

  /** No two entries read the same. */
  lemma ReadIsInjective(a: Entry, b: Entry)
    requires Read(a) == Read(b)
    ensures a == b
  {
    BitsDetermine3(a.perm, b.perm);
    BitsDetermine4(a.misc, b.misc);
  }

  lemma BitsDetermine3(a: bv3, b: bv3)
    requires a & 1 != 0 <==> b & 1 != 0
    requires a & 2 != 0 <==> b & 2 != 0
    requires a & 4 != 0 <==> b & 4 != 0
    ensures a == b
  {
  }

  lemma BitsDetermine4(a: bv4, b: bv4)
    requires a & 1 != 0 <==> b & 1 != 0
    requires a & 2 != 0 <==> b & 2 != 0
    requires a & 4 != 0 <==> b & 4 != 0
    requires a & 8 != 0 <==> b & 8 != 0
    ensures a == b
  {
  }

  /** The three ways in which the kernel rewrites an entry, bit by bit, are the ones on Flags. */
  lemma RewritingIsRight(e: Entry, frame: nat)
    requires frame < MAX_FRAMES
    ensures Read(Create(Options(e), frame)) == PTE(OptionsOf(Read(e)), frame)
    ensures Read(Create((Options(e) & !PTE_COPY_ON_WRITE) | PTE_PERM_WRITE, frame)) ==
      PTE(Unshare(OptionsOf(Read(e))), frame)
    ensures var options := Options(e);
      Read(Create(if options & PTE_PERM_WRITE != 0 then (options & !PTE_PERM_WRITE) | PTE_COPY_ON_WRITE else options,
        frame))
        == PTE(MarkCopyOnWrite(OptionsOf(Read(e))), frame)
  {
    RebuiltBits(e, frame);
  }

  lemma RebuiltBits(e: Entry, frame: nat)
    ensures Create(Options(e), frame).perm == e.perm && Create(Options(e), frame).misc == e.misc
  {
  }

  /** The test of the memory trap, and the options of new entries. */
  lemma ConstantsAreRight(e: Entry, frame: nat)
    requires frame < MAX_FRAMES
    ensures ((e.misc as bv8) << 4) & PTE_COPY_ON_WRITE != 0 <==> Read(e).flags.cow
    ensures Read(Create(PTE_VALID | PTE_PERM_READ | PTE_PERM_WRITE, frame)) == PTE(DATA_FLAGS, frame)
    ensures Read(Create(PTE_VALID | PTE_PERM_READ | PTE_PERM_EXEC, frame)) == PTE(TEXT_FLAGS, frame)
    ensures Read(Create(0, 0)) == NO_ENTRY
  {
  }
}
