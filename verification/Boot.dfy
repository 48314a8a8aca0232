/**
  Start-up (init/init_memory.c, loadInit in init/init.c): the count table, the free list, the kernel
  page table and the first process.  What they build satisfies the invariant of KernelState.
 */
module Boot {
  import opened Hardware
  import opened FrameList
  import opened AddressSpace
  import opened UserSpace
  import opened Exec
  import opened Fork
  import opened KernelState
  import opened KernelSteps
  import opened HeapSteps
  import opened ProcessSteps
  import opened CountRange
  import opened KernelRuns
  import opened PhysicalMemory
  import opened PageTables
  import K = Kernel

  // ---------- the free list ----------

  /** The frames that initFrameList is meant to list: all from the kernel break to the end of memory
      but the kernel stack, in ascending order. */
  function Listing(first: nat, end: nat): (r: seq<nat>)
    requires first <= STACK_BASE_PAGE && STACK_LIMIT_PAGE <= end
    ensures |r| == STACK_BASE_PAGE - first + end - STACK_LIMIT_PAGE
    ensures forall i :: 0 <= i < |r| ==>
      r[i] == if i < STACK_BASE_PAGE - first then first + i else first + i + STACK_PAGES
  {
    seq(STACK_BASE_PAGE - first, i requires 0 <= i < STACK_BASE_PAGE - first => first + i) +
    seq(end - STACK_LIMIT_PAGE, i requires 0 <= i < end - STACK_LIMIT_PAGE => STACK_LIMIT_PAGE + i)
  }

  /** The words that the loop writes into frame i; `end` is the number of frames. */
  function PrevWord(i: nat, first: nat): int {
    if i == STACK_BASE_PAGE - 1 then PageAtIndex(i - 1)
    else if i == STACK_LIMIT_PAGE then PageAtIndex(STACK_BASE_PAGE) - PAGE_SIZE
    else if i == first then FRAME_HEAD else PageAtIndex(i - 1)
  }

  function NextWord(i: nat, end: nat, pmemSize: int): int {
    if i == STACK_BASE_PAGE - 1 then
      (if PageAtIndex(STACK_LIMIT_PAGE) < pmemSize then PageAtIndex(STACK_LIMIT_PAGE) else FRAME_HEAD)
    else if i == end - 1 then FRAME_HEAD else PageAtIndex(i + 1)
  }

  function InStackFrames(i: int): bool {
    STACK_BASE_PAGE <= i < STACK_LIMIT_PAGE
  }

  /** initFrameList.  The frames are written at their physical addresses, before virtual memory is on. */
  method InitFrameList(memory: Memory, kernelBrk: int, pmemSize: int)
    requires 0 <= kernelBrk && 0 <= IndexOfPage(pmemSize) == memory.pages.Length
    modifies memory, memory.pages
    ensures memory.headNext == kernelBrk && memory.headPrev == pmemSize - PAGE_SIZE
    ensures memory.free == old(memory.free)
    ensures forall i :: 0 <= i < memory.pages.Length ==>
      memory.pages[i] == if IndexOfPage(kernelBrk) <= i && !InStackFrames(i)
        then old(memory.pages[i])[PREV := PrevWord(i, IndexOfPage(kernelBrk))]
          [NEXT := NextWord(i, memory.pages.Length, pmemSize)]
        else old(memory.pages[i])
  {
    var first, end := IndexOfPage(kernelBrk), IndexOfPage(pmemSize);
    var i := first;
    while i < end
      invariant first <= i
      invariant memory.free == old(memory.free)
      invariant forall j :: 0 <= j < end ==>
        memory.pages[j] == if first <= j < i && !InStackFrames(j)
          then old(memory.pages[j])[PREV := PrevWord(j, first)][NEXT := NextWord(j, end, pmemSize)]
          else old(memory.pages[j])
    {
      if STACK_BASE_PAGE <= i < STACK_LIMIT_PAGE {
        i := i + 1;
        continue;
      }
      var prev, next;
      if i == STACK_BASE_PAGE - 1 {
        prev := PageAtIndex(i - 1);
        next := if PageAtIndex(STACK_LIMIT_PAGE) < pmemSize then PageAtIndex(STACK_LIMIT_PAGE) else FRAME_HEAD;
      } else if i == STACK_LIMIT_PAGE {
        prev := PageAtIndex(STACK_BASE_PAGE) - PAGE_SIZE;
        next := if i == end - 1 then FRAME_HEAD else PageAtIndex(i + 1);
      } else {
        prev := if i == first then FRAME_HEAD else PageAtIndex(i - 1);
        next := if i == end - 1 then FRAME_HEAD else PageAtIndex(i + 1);
      }
      memory.pages[i] := memory.pages[i][PREV := prev][NEXT := next];
      i := i + 1;
    }
    memory.headPrev := pmemSize - PAGE_SIZE;
    memory.headNext := kernelBrk;
  }

  /** Memory after initFrameList, with the listing that its links are meant to spell out. */
  ghost predicate Initialized(m: Phys, kernelBrk: int, pmemSize: int) {
    && 0 <= kernelBrk && IndexOfPage(kernelBrk) <= STACK_BASE_PAGE
    && STACK_LIMIT_PAGE <= IndexOfPage(pmemSize) <= MAX_FRAMES
    && |m.pages| == |m.counts| == IndexOfPage(pmemSize)
    && m.free == Listing(IndexOfPage(kernelBrk), IndexOfPage(pmemSize))
    && m.headNext == kernelBrk && m.headPrev == pmemSize - PAGE_SIZE
    && forall i :: IndexOfPage(kernelBrk) <= i < |m.pages| && !InStackFrames(i) ==>
         && m.pages[i][PREV] == PrevWord(i, IndexOfPage(kernelBrk))
         && m.pages[i][NEXT] == NextWord(i, |m.pages|, pmemSize)
  }

  /** What initFrameList needs: page-aligned limits, two free pages below the kernel stack, memory above it. */
  predicate BootFits(kernelBrk: int, pmemSize: int) {
    && kernelBrk % PAGE_SIZE == 0 && pmemSize % PAGE_SIZE == 0
    && IndexOfPage(kernelBrk) <= STACK_BASE_PAGE - 2
    && IndexOfPage(pmemSize) > STACK_LIMIT_PAGE
  }

  lemma ListingIsLinked(m: Phys, kernelBrk: int, pmemSize: int)
    requires Initialized(m, kernelBrk, pmemSize) && BootFits(kernelBrk, pmemSize)
    ensures FramesExist(m) && Linked(m)
  {
    var first, end := IndexOfPage(kernelBrk), IndexOfPage(pmemSize);
    forall i | 0 <= i < |m.free|
      ensures m.pages[m.free[i]][NEXT] == NodeAddress(m.free, i + 1)
      ensures m.pages[m.free[i]][PREV] == NodeAddress(m.free, i - 1)
    {
      var f := m.free[i];
      assert first <= f < end && !InStackFrames(f);
    }
  }

  /** The links spell out the listing, in both directions and at both ends, exactly under BootFits. */
  lemma FrameListIff(m: Phys, kernelBrk: int, pmemSize: int)
    requires Initialized(m, kernelBrk, pmemSize)
    ensures FramesExist(m) && (Linked(m) <==> BootFits(kernelBrk, pmemSize))
  {
    var first, end := IndexOfPage(kernelBrk), IndexOfPage(pmemSize);
    if BootFits(kernelBrk, pmemSize) {
      ListingIsLinked(m, kernelBrk, pmemSize);
    } else if first == STACK_BASE_PAGE - 1 && kernelBrk % PAGE_SIZE == 0 {
      assert m.free[0] == first;
      assert m.pages[first][PREV] == PageAtIndex(first - 1);
      assert NodeAddress(m.free, -1) == FRAME_HEAD;
    }
  }

  // ---------- the kernel page table and the counts ----------

  /** initFRCTable: the memset. */
  method InitFrcTable(counts: array<int>)
    modifies counts
    ensures forall i :: 0 <= i < counts.Length ==> counts[i] == 0
  {
    for i := 0 to counts.Length
      invariant forall j :: 0 <= j < i ==> counts[j] == 0
    {
      counts[i] := 0;
    }
  }

  /** An entry of the kernel page table with text below `data`, data below `brk` and the stack below `stack`. */
  function BootEntry(i: nat, data: nat, brk: nat, stack: nat): PTE {
    if i < data then PTE(TEXT_FLAGS, i)
    else if i < brk || STACK_BASE_PAGE <= i < stack then PTE(DATA_FLAGS, i)
    else NO_ENTRY
  }

  /** An entry maps its own frame: kernel text to be read and executed, data and stack to be read and written. */
  predicate MapsItself(e: PTE, i: nat, text: bool) {
    && e.pfn == i && e.flags.valid && e.flags.read && !e.flags.cow
    && e.flags.exec == text && e.flags.write == !text
  }

  /** The kernel's address space at start-up, with its permissions. */
  predicate KernelSpace(t: seq<PTE>, data: nat, brk: nat) {
    forall i :: 0 <= i < |t| ==>
      if i < brk || STACK_BASE_PAGE <= i < STACK_LIMIT_PAGE then MapsItself(t[i], i, i < data) else !t[i].flags.valid
  }

  predicate BootCounted(i: int, brk: nat, stack: nat) {
    i < brk || STACK_BASE_PAGE <= i < stack
  }

  /** initKernelPageTable: text and data where they are, and the boot stack. */
  method InitKernelPageTable(memory: Memory, data: nat, brk: nat)
    requires memory.kernelTable.Length == TABLE_LEN && data <= brk <= STACK_BASE_PAGE
    requires STACK_LIMIT_PAGE <= memory.counts.Length
    modifies memory.counts, memory.kernelTable
    ensures forall i :: 0 <= i < TABLE_LEN ==> memory.kernelTable[i] == BootEntry(i, data, brk, STACK_LIMIT_PAGE)
    ensures KernelSpace(memory.kernelTable[..], data, brk)
    ensures forall i :: 0 <= i < memory.counts.Length ==>
      memory.counts[i] == if BootCounted(i, brk, STACK_LIMIT_PAGE) then 1 else old(memory.counts[i])
  {
    ClearPageTable(memory.kernelTable);
    for i := 0 to data
      invariant forall j :: 0 <= j < TABLE_LEN ==> memory.kernelTable[j] == BootEntry(j, i, i, STACK_BASE_PAGE)
      invariant forall j :: 0 <= j < memory.counts.Length ==>
        memory.counts[j] == if j < i then 1 else old(memory.counts[j])
    {
      memory.kernelTable[i] := PTE(TEXT_FLAGS, i);
      memory.counts[i] := 1;
    }
    for i := data to brk
      invariant forall j :: 0 <= j < TABLE_LEN ==> memory.kernelTable[j] == BootEntry(j, data, i, STACK_BASE_PAGE)
      invariant forall j :: 0 <= j < memory.counts.Length ==>
        memory.counts[j] == if j < i then 1 else old(memory.counts[j])
    {
      memory.kernelTable[i] := PTE(DATA_FLAGS, i);
      memory.counts[i] := 1;
    }
    for i := STACK_BASE_PAGE to STACK_LIMIT_PAGE
      invariant forall j :: 0 <= j < TABLE_LEN ==> memory.kernelTable[j] == BootEntry(j, data, brk, i)
      invariant forall j :: 0 <= j < memory.counts.Length ==>
        memory.counts[j] == if BootCounted(j, brk, i) then 1 else old(memory.counts[j])
    {
      memory.kernelTable[i] := PTE(DATA_FLAGS, i);
      memory.counts[i] := 1;
    }
  }

  // ---------- the first state ----------

  /** The state that start-up builds, the first process still without a program. */
  ghost predicate Booted(s: Sys, kernelBrk: int, pmemSize: int) {
    && BootFits(kernelBrk, pmemSize) && 1 <= IndexOfPage(kernelBrk) <= WINDOW_BASE_PAGE
    && Initialized(s.mem, kernelBrk, pmemSize)
    && (forall f :: 0 <= f < |s.mem.counts| ==>
          s.mem.counts[f] == if f < IndexOfPage(kernelBrk) || InStackFrames(f) then 1 else 0)
    && |s.kernelMap| == WINDOW_BASE_PAGE && IdentityMap(s.kernelMap, IndexOfPage(kernelBrk))
    && s.stackMap == [PTE(DATA_FLAGS, STACK_BASE_PAGE), PTE(DATA_FLAGS, STACK_BASE_PAGE + 1)]
    && s.mem.pages[STACK_BASE_PAGE][DESCRIPTOR] == 1
    && s.ptbr == s.maxPid == 1 && s.ring == [1] && s.kernelBrk == kernelBrk
    && s.procs.Keys == {1}
    && var p := s.procs[1];
       p.running && p.pcb == [STACK_BASE_PAGE, STACK_BASE_PAGE + 1] && p.leader == 0
       && |p.table| == TABLE_LEN && Empty(p.table) && REGION1_BASE <= p.sp <= REGION1_LIMIT
  }

  predicate IdentityMap(t: seq<PTE>, n: int) {
    forall i :: 0 <= i < |t| ==> if i < n then t[i].flags.valid && t[i].pfn == i else !t[i].flags.valid
  }

  lemma {:induction false} IdentityRefs(t: seq<PTE>, n: int, f: nat)
    requires IdentityMap(t, n)
    ensures Refs(t, f) == if f < n && f < |t| then 1 else 0
  {
    if t != [] {
      IdentityRefs(t[..|t| - 1], n, f);
    }
  }

  /** Start-up establishes the invariant: the free list, conservation, the stack and who is current. */
  lemma BootedIsInv(s: Sys, kernelBrk: int, pmemSize: int)
    requires Booted(s, kernelBrk, pmemSize)
    ensures Inv(s) && NoSharedWriters(s)
  {
    FrameListIff(s.mem, kernelBrk, pmemSize);
    var first, end := IndexOfPage(kernelBrk), IndexOfPage(pmemSize);
    hide Linked, Refs, FrameRefs;
    forall f | 0 <= f < |s.mem.counts|
      ensures f in s.mem.free <==> s.mem.counts[f] == 0
    {
      if first <= f && !InStackFrames(f) {
        assert s.mem.free[if f < STACK_BASE_PAGE then f - first else f - first - STACK_PAGES] == f;
      }
    }
    assert 1 in s.procs.Keys && s.ring[0] == 1;
    BootShape(s, kernelBrk, pmemSize);
    forall f | 0 <= f < |s.mem.counts|
      ensures s.mem.counts[f] == Total(s, f)
    {
      BootTotal(s, kernelBrk, pmemSize, f);
    }
  }

  lemma BootShape(s: Sys, kernelBrk: int, pmemSize: int)
    requires Booted(s, kernelBrk, pmemSize) && WellFormed(s.mem)
    ensures Shape(s)
  {
    hide Linked, FreeIffUncounted;
    assert forall p :: p in s.procs ==> p in s.procs.Keys;
    assert s.ring[0] == 1 && 1 in s.procs.Keys;
  }

  lemma BootTotal(s: Sys, kernelBrk: int, pmemSize: int, f: nat)
    requires Booted(s, kernelBrk, pmemSize) && f < |s.mem.counts| && Listed(s.ring, s.procs)
    ensures s.mem.counts[f] == Total(s, f)
  {
    IdentityRefs(s.kernelMap, IndexOfPage(kernelBrk), f);
    var p := s.procs[1];
    EmptyRefs(p.table, f);
    FrameRefsOfTwo(STACK_BASE_PAGE, STACK_BASE_PAGE + 1, f);
    assert s.ring[..0] == [];
    assert RingRefs(s.ring, s.procs, f) == RingRefs(s.ring[..0], s.procs, f) + ProcRefs(p, f);
  }

  /** The first exec, which gives process 1 its program, makes the state good for runs. */
  lemma FirstExecIsGood(s: Sys, kernelBrk: int, pmemSize: int, l: Layout, image: seq<Page>, sp: int)
    requires Booted(s, kernelBrk, pmemSize)
    requires Inv(s) ==> ExecEnabled(s, l, image, sp)
    ensures Inv(s) && Good(ExecStep(s, l, image, sp)) && NoSharedWriters(ExecStep(s, l, image, sp))
  {
    BootedIsInv(s, kernelBrk, pmemSize);
    BootedCharCounts(s, kernelBrk, pmemSize);
    hide Inv, Booted, HeapOk, ExecStep, ExecEnabled, CharCounts;
    ExecStepKeepsRange(s, l, image, sp);
    ExecIsRight(s, l, image, sp);
    OnlyOne(s, kernelBrk, pmemSize);
    assert forall q :: q in ExecStep(s, l, image, sp).procs ==> q in ExecStep(s, l, image, sp).procs.Keys;
  }

  lemma BootedCharCounts(s: Sys, kernelBrk: int, pmemSize: int)
    requires Booted(s, kernelBrk, pmemSize)
    ensures CharCounts(s.mem)
  {
  }

  lemma OnlyOne(s: Sys, kernelBrk: int, pmemSize: int)
    requires Booted(s, kernelBrk, pmemSize)
    ensures s.procs.Keys == {1} && s.ptbr == 1
  {
  }

  /** KernelStart's calls in order, and loadInit up to the first loadProgram. */
  method Start(pages: array<Page>, counts: array<int>, kernelTable: array<PTE>, kernelData: int, kernelBrk: int,
      pmemSize: int, sp: int)
    returns (k: K.Kernel)
    requires kernelTable.Length == TABLE_LEN
    requires 0 <= kernelData && IndexOfPage(kernelData) <= IndexOfPage(kernelBrk)
    requires pages.Length == counts.Length == IndexOfPage(pmemSize) <= MAX_FRAMES
    requires BootFits(kernelBrk, pmemSize) && 1 <= IndexOfPage(kernelBrk) <= WINDOW_BASE_PAGE
    requires REGION1_BASE <= sp <= REGION1_LIMIT
    modifies pages, counts, kernelTable
    ensures k.Valid() && Booted(k.View(), kernelBrk, pmemSize) && Inv(k.View()) && fresh(k)
    ensures KernelSpace(kernelTable[..], IndexOfPage(kernelData), IndexOfPage(kernelBrk))
  {
    hide Inv, WellFormed, Linked, FreeIffUncounted, Distinct, NoSharedWriters, BootEntry, IdentityMap;
    var memory := BootMemory(pages, counts, kernelTable, kernelData, kernelBrk, pmemSize);
    BootMaps(kernelTable[..], IndexOfPage(kernelData), IndexOfPage(kernelBrk));
    ghost var m := memory.View();
    hide Initialized, Listing;
    var table := new PTE[TABLE_LEN](_ => NO_ENTRY);
    var first := new K.ProcessDescriptor(table, [STACK_BASE_PAGE, STACK_BASE_PAGE + 1]);
    first.sp := sp;
    pages[STACK_BASE_PAGE] := pages[STACK_BASE_PAGE][DESCRIPTOR := 1];
    k := new K.Kernel(memory, first, kernelBrk);
    NamedIsInitialized(m, k.View().mem, kernelBrk, pmemSize);
    assert k.View().procs[1] == first.View();
    BootedIsInv(k.View(), kernelBrk, pmemSize);
    InvIsWellFormed(k.View());
  }

  lemma BootMaps(t: seq<PTE>, data: nat, brk: nat)
    requires |t| == TABLE_LEN && data <= brk <= WINDOW_BASE_PAGE
    requires forall i :: 0 <= i < TABLE_LEN ==> t[i] == BootEntry(i, data, brk, STACK_LIMIT_PAGE)
    ensures IdentityMap(t[..WINDOW_BASE_PAGE], brk)
    ensures t[STACK_BASE_PAGE..] == [PTE(DATA_FLAGS, STACK_BASE_PAGE), PTE(DATA_FLAGS, STACK_BASE_PAGE + 1)]
  {
  }

  lemma InvIsWellFormed(s: Sys)
    requires Inv(s)
    ensures WellFormed(s.mem)
  {
  }

  /** Writing the first process's name into its stack touches no link. */
  lemma NamedIsInitialized(m: Phys, n: Phys, kernelBrk: int, pmemSize: int)
    requires Initialized(m, kernelBrk, pmemSize) && STACK_BASE_PAGE < |m.pages| == |n.pages|
    requires n == m.(pages := n.pages) && forall i :: 0 <= i < |m.pages| && i != STACK_BASE_PAGE ==>
      n.pages[i] == m.pages[i]
    ensures Initialized(n, kernelBrk, pmemSize)
  {
  }

  /** Counts, free list and kernel page table. */
  method BootMemory(pages: array<Page>, counts: array<int>, kernelTable: array<PTE>, kernelData: int, kernelBrk: int,
      pmemSize: int)
    returns (memory: Memory)
    requires kernelTable.Length == TABLE_LEN
    requires 0 <= kernelData && IndexOfPage(kernelData) <= IndexOfPage(kernelBrk)
    requires pages.Length == counts.Length == IndexOfPage(pmemSize) <= MAX_FRAMES
    requires BootFits(kernelBrk, pmemSize) && 1 <= IndexOfPage(kernelBrk) <= WINDOW_BASE_PAGE
    modifies pages, counts, kernelTable
    ensures fresh(memory) && memory.pages == pages && memory.counts == counts && memory.kernelTable == kernelTable
    ensures Initialized(memory.View(), kernelBrk, pmemSize)
    ensures forall i :: 0 <= i < counts.Length ==>
      counts[i] == if BootCounted(i, IndexOfPage(kernelBrk), STACK_LIMIT_PAGE) then 1 else 0
    ensures forall i :: 0 <= i < TABLE_LEN ==>
      kernelTable[i] == BootEntry(i, IndexOfPage(kernelData), IndexOfPage(kernelBrk), STACK_LIMIT_PAGE)
    ensures KernelSpace(kernelTable[..], IndexOfPage(kernelData), IndexOfPage(kernelBrk))
  {
    memory := new Memory(pages, counts, kernelTable);
    InitFrcTable(counts);
    InitFrameList(memory, kernelBrk, pmemSize);
    memory.free := Listing(IndexOfPage(kernelBrk), IndexOfPage(pmemSize));
    InitKernelPageTable(memory, IndexOfPage(kernelData), IndexOfPage(kernelBrk));
  }
}
