/**
  The loops of the kernel over one page table, in place: each method leaves memory and table as the
  function of the same name in AddressSpace, Exec or Fork says.
 */
module PageTables {
  import opened Hardware
  import opened FrameList
  import opened AddressSpace
  import opened UserSpace
  import opened Exec
  import opened Fork
  import opened ProcessSteps
  import opened PhysicalMemory

  /** A process's table is not the kernel's. */
  predicate Apart(memory: Memory, table: array<PTE>) {
    table != memory.kernelTable
  }

  /** Frame 0 holds kernel text, so the address 0 can stand for failure. */
  predicate FrameZeroKept(m: Phys) {
    |m.counts| > 0 && m.counts[0] > 0
  }

  /** handleMemoryTrap; `halted` when the frames have run out. */
  method HandleMemoryTrap(memory: Memory, table: array<PTE>, index: nat, inStack: bool) returns (halted: bool)
    requires memory.Valid() && Apart(memory, table) && index < table.Length
    requires EntriesExist(memory.View(), table[..]) && FrameZeroKept(memory.View())
    requires table[index].flags.cow ==> table[index].flags.valid && memory.counts[table[index].pfn] >= 1
    modifies memory, memory.pages, memory.counts, memory.kernelTable, table
    ensures memory.Valid()
    ensures halted <==> old(TrapNeedsFrame(memory.View(), table[index], inStack) && memory.free == [])
    ensures !halted ==> memory.View() == old(Trap(memory.View(), table[..], index, inStack).0)
    ensures !halted ==> table[..] == old(Trap(memory.View(), table[..], index, inStack).1)
    ensures memory.kernelTable[..WINDOW_BASE_PAGE] == old(memory.kernelTable[..WINDOW_BASE_PAGE])
    ensures memory.kernelTable[STACK_BASE_PAGE..] == old(memory.kernelTable[STACK_BASE_PAGE..])
  {
    hide Linked, FreeIffUncounted, Distinct;
    ghost var m, t := memory.View(), table[..];
    var entry := table[index];
    if entry.flags.cow {
      var options := OptionsOf(entry);
      if memory.counts[entry.pfn] > 1 {
        ReleaseKeepsWellFormed(m, entry.pfn);
        memory.counts[entry.pfn] := memory.counts[entry.pfn] - 1;
        assert memory.View() == Release(m, entry.pfn);
        if m.free != [] {
          AllocTakes(memory.View());
          AllocKeepsZero(m);
        }
        var frame := memory.AllocatePageFrame();
        if frame == 0 {
          return true;
        }
        CountedNotFree(Alloc(Release(m, entry.pfn)), m.free[0]);
        memory.MoveWindow(0, IndexOfPage(frame));
        memory.CopyToWindow(0, entry.pfn);
        assert memory.View() == Trap(m, t, index, inStack).0;
        WriteCounted(Alloc(Release(m, entry.pfn)), m.free[0], memory.pages[m.free[0]]);
        table[index] := PTE(Unshare(options), IndexOfPage(frame));
      } else {
        table[index] := PTE(Unshare(options), entry.pfn);
      }
    } else if inStack {
      if m.free != [] {
        AllocTakes(m);
        AllocKeepsZero(m);
      }
      var frame := memory.AllocatePageFrame();
      if frame == 0 {
        return true;
      }
      table[index] := PTE(DATA_FLAGS, IndexOfPage(frame));
    }
    return false;
  }

  lemma AllocTakes(m: Phys)
    requires WellFormed(m) && m.free != []
    ensures m.free[0] < |m.counts| && m.counts[m.free[0]] == 0 && Alloc(m).counts[m.free[0]] == 1
  {
    assert m.free[0] in m.free;
  }

  lemma CountedNotFree(m: Phys, f: nat)
    requires WellFormed(m) && f < |m.counts| && m.counts[f] != 0
    ensures f !in m.free
  {
  }

  /** increaseBrk: the loop that maps `n` new frames from entry `start` on. */
  method IncreaseBrk(memory: Memory, table: array<PTE>, start: nat, n: nat) returns (ok: bool)
    requires memory.Valid() && Apart(memory, table) && start + n <= table.Length
    requires FrameZeroKept(memory.View())
    modifies memory, memory.pages, memory.counts, memory.kernelTable, table
    ensures memory.Valid()
    ensures (memory.View(), table[..], ok) == old(Grow(memory.View(), table[..], start, n))
    ensures memory.kernelTable[..WINDOW_BASE_PAGE] == old(memory.kernelTable[..WINDOW_BASE_PAGE])
    ensures memory.kernelTable[STACK_BASE_PAGE..] == old(memory.kernelTable[STACK_BASE_PAGE..])
  {
    hide Linked, FreeIffUncounted, Distinct, Alloc;
    ghost var m, t := memory.View(), table[..];
    var i := 0;
    while i < n
      invariant 0 <= i <= n
      invariant memory.Valid() && FrameZeroKept(memory.View())
      invariant (memory.View(), table[..], true) == Grow(m, t, start, i)
      invariant memory.kernelTable[..WINDOW_BASE_PAGE] == old(memory.kernelTable[..WINDOW_BASE_PAGE])
      invariant memory.kernelTable[STACK_BASE_PAGE..] == old(memory.kernelTable[STACK_BASE_PAGE..])
    {
      ghost var before := memory.View();
      if memory.free != [] {
        AllocTakes(before);
        AllocKeepsZero(before);
      }
      var frame := memory.AllocatePageFrame();
      if frame == 0 {
        assert Grow(m, t, start, i + 1) == (before, table[..], false);
        GrowStaysFailed(m, t, start, i + 1, n);
        return false;
      }
      table[start + i] := PTE(DATA_FLAGS, IndexOfPage(frame));
      i := i + 1;
    }
    return true;
  }

  lemma AllocKeepsZero(m: Phys)
    requires WellFormed(m) && FrameZeroKept(m) && m.free != []
    ensures FrameZeroKept(Alloc(m)) && m.free[0] != 0
  {
    assert m.free[0] in m.free;
  }

  lemma {:induction false} GrowStaysFailed(m: Phys, t: seq<PTE>, start: nat, k: nat, n: nat)
    requires FramesExist(m) && start + n <= |t| && k <= n && !Grow(m, t, start, k).2
    ensures Grow(m, t, start, n) == Grow(m, t, start, k)
  {
    hide Alloc;
    if k < n {
      GrowStaysFailed(m, t, start, k, n - 1);
    }
  }

  /** decreaseBrk: the loop that frees `n` frames from entry `start` on. */
  method DecreaseBrk(memory: Memory, table: array<PTE>, start: nat, n: nat)
    requires memory.Valid() && Apart(memory, table) && start + n <= table.Length
    requires Covered(memory.View(), table[..]) && forall i :: start <= i < start + n ==> table[i].flags.valid
    modifies memory, memory.pages, memory.counts, memory.kernelTable, table
    ensures memory.Valid()
    ensures memory.View() == old(Shrink(memory.View(), table[..], start, n)).0
    ensures table[..] == old(Shrink(memory.View(), table[..], start, n)).1
    ensures memory.kernelTable[..WINDOW_BASE_PAGE] == old(memory.kernelTable[..WINDOW_BASE_PAGE])
    ensures memory.kernelTable[STACK_BASE_PAGE..] == old(memory.kernelTable[STACK_BASE_PAGE..])
  {
    hide Linked, FreeIffUncounted, Distinct, Release, Refs, Local;
    ghost var m, t := memory.View(), table[..];
    for i := 0 to n
      invariant memory.Valid()
      invariant (memory.View(), table[..]) == Shrink(m, t, start, i)
      invariant memory.kernelTable[..WINDOW_BASE_PAGE] == old(memory.kernelTable[..WINDOW_BASE_PAGE])
      invariant memory.kernelTable[STACK_BASE_PAGE..] == old(memory.kernelTable[STACK_BASE_PAGE..])
    {
      ShrinkIsLocal(m, t, start, i);
      LocalKeepsCovered(m, t, memory.View(), table[..]);
      UnmapIsLocal(memory.View(), table[..], start + i);
      var frame := PageAtIndex(table[start + i].pfn);
      memory.FreePageFrame(frame);
      table[start + i] := NO_ENTRY;
    }
  }

  /** increaseKernelBrk: the same loop on the kernel's own table, in which the windows move too. */
  method IncreaseKernelBrk(memory: Memory, start: nat, n: nat) returns (ok: bool)
    requires memory.Valid() && start + n <= WINDOW_BASE_PAGE && FrameZeroKept(memory.View())
    modifies memory, memory.pages, memory.counts, memory.kernelTable
    ensures memory.Valid()
    ensures (memory.View(), memory.kernelTable[..WINDOW_BASE_PAGE], ok) ==
      old(Grow(memory.View(), memory.kernelTable[..WINDOW_BASE_PAGE], start, n))
    ensures memory.kernelTable[STACK_BASE_PAGE..] == old(memory.kernelTable[STACK_BASE_PAGE..])
  {
    hide Linked, FreeIffUncounted, Distinct, Alloc;
    ghost var m, t := memory.View(), memory.kernelTable[..WINDOW_BASE_PAGE];
    var i := 0;
    while i < n
      invariant 0 <= i <= n
      invariant memory.Valid() && FrameZeroKept(memory.View())
      invariant (memory.View(), memory.kernelTable[..WINDOW_BASE_PAGE], true) == Grow(m, t, start, i)
      invariant memory.kernelTable[STACK_BASE_PAGE..] == old(memory.kernelTable[STACK_BASE_PAGE..])
    {
      ghost var before := memory.View();
      if memory.free != [] {
        AllocTakes(before);
        AllocKeepsZero(before);
      }
      var frame := memory.AllocatePageFrame();
      if frame == 0 {
        assert Grow(m, t, start, i + 1) == (before, memory.kernelTable[..WINDOW_BASE_PAGE], false);
        GrowStaysFailed(m, t, start, i + 1, n);
        return false;
      }
      memory.kernelTable[start + i] := PTE(DATA_FLAGS, IndexOfPage(frame));
      i := i + 1;
    }
    return true;
  }

  /** decreaseKernelBrk. */
  method DecreaseKernelBrk(memory: Memory, start: nat, n: nat)
    requires memory.Valid() && start + n <= WINDOW_BASE_PAGE
    requires Covered(memory.View(), memory.kernelTable[..WINDOW_BASE_PAGE])
    requires forall i :: start <= i < start + n ==> memory.kernelTable[i].flags.valid
    modifies memory, memory.pages, memory.counts, memory.kernelTable
    ensures memory.Valid()
    ensures (memory.View(), memory.kernelTable[..WINDOW_BASE_PAGE]) ==
      old(Shrink(memory.View(), memory.kernelTable[..WINDOW_BASE_PAGE], start, n))
    ensures memory.kernelTable[STACK_BASE_PAGE..] == old(memory.kernelTable[STACK_BASE_PAGE..])
  {
    hide Linked, FreeIffUncounted, Distinct, Release, Refs, Local;
    ghost var m, t := memory.View(), memory.kernelTable[..WINDOW_BASE_PAGE];
    for i := 0 to n
      invariant memory.Valid()
      invariant (memory.View(), memory.kernelTable[..WINDOW_BASE_PAGE]) == Shrink(m, t, start, i)
      invariant memory.kernelTable[STACK_BASE_PAGE..] == old(memory.kernelTable[STACK_BASE_PAGE..])
    {
      ghost var u := memory.kernelTable[..WINDOW_BASE_PAGE];
      ShrinkIsLocal(m, t, start, i);
      LocalKeepsCovered(m, t, memory.View(), u);
      UnmapIsLocal(memory.View(), u, start + i);
      var frame := PageAtIndex(memory.kernelTable[start + i].pfn);
      memory.FreePageFrame(frame);
      memory.kernelTable[start + i] := NO_ENTRY;
    }
  }

  /** freeAddressSpace. */
  method FreeAddressSpace(memory: Memory, table: array<PTE>)
    requires memory.Valid() && Apart(memory, table) && Covered(memory.View(), table[..])
    modifies memory, memory.pages, memory.counts, memory.kernelTable, table
    ensures memory.Valid()
    ensures memory.View() == old(FreeTo(memory.View(), table[..], table.Length))
    ensures table[..] == ClearedTo(old(table[..]), table.Length)
    ensures memory.kernelTable[..WINDOW_BASE_PAGE] == old(memory.kernelTable[..WINDOW_BASE_PAGE])
    ensures memory.kernelTable[STACK_BASE_PAGE..] == old(memory.kernelTable[STACK_BASE_PAGE..])
  {
    hide Linked, FreeIffUncounted, Distinct, Release, Refs, Local;
    ghost var m, t := memory.View(), table[..];
    for i := 0 to table.Length
      invariant memory.Valid() && table[..] == t
      invariant memory.View() == FreeTo(m, t, i)
      invariant memory.kernelTable[..WINDOW_BASE_PAGE] == old(memory.kernelTable[..WINDOW_BASE_PAGE])
      invariant memory.kernelTable[STACK_BASE_PAGE..] == old(memory.kernelTable[STACK_BASE_PAGE..])
    {
      FreeIsLocal(m, t, i);
      LocalKeepsCovered(m, t, memory.View(), ClearedTo(t, i));
      if table[i].flags.valid {
        UnmapIsLocal(memory.View(), ClearedTo(t, i), i);
        memory.FreePageFrame(PageAtIndex(table[i].pfn));
      }
    }
    ClearPageTable(table);
  }

  /** clearPageTable. */
  method ClearPageTable(table: array<PTE>)
    modifies table
    ensures table[..] == ClearedTo(old(table[..]), table.Length)
  {
    for i := 0 to table.Length
      invariant forall j :: 0 <= j < i ==> table[j] == NO_ENTRY
    {
      table[i] := NO_ENTRY;
    }
  }

  // ---------- fork ----------

  /** copyParentStack: eager copies of the pages from the stack page on, read through the parent's mapping. */
  method CopyParentStack(memory: Memory, parent: array<PTE>, child: array<PTE>, base: nat)
    requires memory.Valid() && Apart(memory, parent) && Apart(memory, child) && parent != child
    requires base <= parent.Length == child.Length && parent[..] == child[..]
    requires Covered(memory.View(), parent[..]) && FrameZeroKept(memory.View())
    requires ValidIn(parent[..], base, parent.Length) <= |memory.free|
    modifies memory, memory.pages, memory.counts, memory.kernelTable, child
    ensures memory.Valid()
    ensures (memory.View(), child[..]) == old(CopyStackTo(memory.View(), parent[..], base, parent.Length))
    ensures memory.kernelTable[..WINDOW_BASE_PAGE] == old(memory.kernelTable[..WINDOW_BASE_PAGE])
    ensures memory.kernelTable[STACK_BASE_PAGE..] == old(memory.kernelTable[STACK_BASE_PAGE..])
  {
    hide Linked, FreeIffUncounted, Distinct, Alloc, CopiedTo, Refs;
    ghost var m, t := memory.View(), parent[..];
    ValidInNone(t, base);
    for i := base to parent.Length
      invariant memory.Valid() && FrameZeroKept(memory.View()) && parent[..] == t
      invariant ValidIn(t, base, i) <= ValidIn(t, base, |t|)
      invariant (memory.View(), child[..]) == CopyStackTo(m, t, base, i)
      invariant memory.kernelTable[..WINDOW_BASE_PAGE] == old(memory.kernelTable[..WINDOW_BASE_PAGE])
      invariant memory.kernelTable[STACK_BASE_PAGE..] == old(memory.kernelTable[STACK_BASE_PAGE..])
    {
      ValidInGrows(t, base, i + 1, |t|);
      var entry := parent[i];
      if entry.flags.valid {
        ghost var n := memory.View();
        AllocTakes(n);
        AllocKeepsZero(n);
        var frame := memory.AllocatePageFrame();
        child[i] := PTE(OptionsOf(entry), IndexOfPage(frame));
        memory.MoveWindow(0, IndexOfPage(frame));
        memory.CopyToWindow(0, entry.pfn);
        WriteCounted(Alloc(n), n.free[0], memory.pages[n.free[0]]);
        assert (memory.View(), child[..]) == CopyStep(n, t, CopyStackTo(m, t, base, i).1, i);
      }
    }
  }

  lemma ValidInNone(t: seq<PTE>, base: nat)
    requires base <= |t|
    ensures ValidIn(t, base, base) == 0
  {
  }

  lemma {:induction false} ValidInGrows(t: seq<PTE>, base: nat, i: nat, n: nat)
    requires i <= n <= |t|
    ensures ValidIn(t, base, i) <= ValidIn(t, base, n)
  {
    if i < n {
      ValidInGrows(t, base, i, n - 1);
    }
  }

  /** setCopyOnWrite: marks the entries below the stack page; for the child it also counts them. */
  method SetCopyOnWrite(memory: Memory, table: array<PTE>, base: nat, isChild: bool)
    requires Apart(memory, table) && base <= table.Length
    requires forall i :: 0 <= i < table.Length && table[i].flags.valid ==> table[i].pfn < memory.counts.Length
    modifies memory.counts, table
    ensures table[..] == MarkTable(old(table[..]), base)
    ensures memory.counts[..] ==
      if isChild then ShareTo(old(memory.counts[..]), old(table[..]), base) else old(memory.counts[..])
  {
    ghost var counts, t := memory.counts[..], table[..];
    for i := 0 to base
      invariant table[..] == MarkTable(t, i)
      invariant memory.counts[..] == if isChild then ShareTo(counts, t, i) else counts
    {
      var entry := table[i];
      if entry.flags.valid {
        var options := OptionsOf(entry);
        if options.write {
          options := options.(write := false, cow := true);
        }
        if isChild {
          memory.counts[entry.pfn] := Char(memory.counts[entry.pfn] + 1);
        }
        table[i] := PTE(options, entry.pfn);
      }
    }
  }

  /** increaseFRCEntries, for a thread, whose pages below the stack stay writable. */
  method IncreaseFrcEntries(memory: Memory, table: array<PTE>, base: nat)
    requires base <= table.Length
    requires forall i :: 0 <= i < table.Length && table[i].flags.valid ==> table[i].pfn < memory.counts.Length
    modifies memory.counts
    ensures memory.counts[..] == ShareTo(old(memory.counts[..]), table[..], base)
  {
    ghost var counts := memory.counts[..];
    for i := 0 to base
      invariant memory.counts[..] == ShareTo(counts, table[..], i)
    {
      var entry := table[i];
      if entry.flags.valid {
        memory.counts[entry.pfn] := Char(memory.counts[entry.pfn] + 1);
      }
    }
  }

  /** The allocation in createProcessDescriptor, when the frames suffice: two frames for the kernel
      stack, the first of which gets to name its process. */
  method NewKernelStack(memory: Memory, child: int) returns (pcb: seq<nat>)
    requires memory.Valid() && FrameZeroKept(memory.View()) && |memory.free| >= STACK_PAGES
    modifies memory, memory.pages, memory.counts, memory.kernelTable
    ensures memory.Valid() && FrameZeroKept(memory.View())
    ensures pcb == old([memory.free[0], memory.free[1]])
    ensures memory.View() == old(NewStack(memory.View(), child))
    ensures memory.kernelTable[..WINDOW_BASE_PAGE] == old(memory.kernelTable[..WINDOW_BASE_PAGE])
    ensures memory.kernelTable[STACK_BASE_PAGE..] == old(memory.kernelTable[STACK_BASE_PAGE..])
  {
    hide Linked, FreeIffUncounted;
    ghost var m := memory.View();
    TwoTaken(m);
    var frame0 := memory.AllocatePageFrame();
    var frame1 := memory.AllocatePageFrame();
    pcb := [IndexOfPage(frame0), IndexOfPage(frame1)];
    memory.MoveWindow(0, pcb[0]);
    memory.WriteWindow(0, DESCRIPTOR, child);
    WriteCounted(Alloc(Alloc(m)), pcb[0], memory.pages[pcb[0]]);
    assert memory.View() == NewStack(m, child);
  }

  lemma TwoTaken(m: Phys)
    requires WellFormed(m) && FrameZeroKept(m) && |m.free| >= STACK_PAGES
    ensures WellFormed(Alloc(m)) && Alloc(m).free != [] && Alloc(m).free[0] == m.free[1] && m.free[0] != m.free[1]
    ensures WellFormed(Alloc(Alloc(m))) && FrameZeroKept(Alloc(Alloc(m)))
    ensures Alloc(Alloc(m)).counts[m.free[0]] == 1
  {
    AllocKeepsWellFormed(m);
    AllocKeepsZero(m);
    AllocTakes(m);
    AllocKeepsWellFormed(Alloc(m));
    AllocKeepsZero(Alloc(m));
    hide Linked, FreeIffUncounted;
  }

  /** createUserContext's part in the child's process info: its own descriptor, the parent's limits. */
  method CopyInfo(memory: Memory, pcb: seq<nat>, child: int)
    requires memory.kernelTable.Length == TABLE_LEN && |pcb| == STACK_PAGES && pcb[0] < memory.pages.Length
    requires memory.kernelTable[STACK_BASE_PAGE].pfn < memory.pages.Length
    requires memory.kernelTable[STACK_BASE_PAGE].pfn != pcb[0]
    modifies memory.pages, memory.kernelTable
    ensures memory.pages[..] == old(var parent := memory.pages[memory.kernelTable[STACK_BASE_PAGE].pfn];
      memory.pages[..][pcb[0] := ChildInfo(memory.pages[pcb[0]], parent, child)])
    ensures memory.kernelTable[..WINDOW_BASE_PAGE] == old(memory.kernelTable[..WINDOW_BASE_PAGE])
    ensures memory.kernelTable[STACK_BASE_PAGE..] == old(memory.kernelTable[STACK_BASE_PAGE..])
  {
    ghost var pages := memory.pages[..];
    var parent := memory.kernelTable[STACK_BASE_PAGE].pfn;
    memory.MoveWindow(0, pcb[0]);
    memory.WriteWindow(0, DESCRIPTOR, child);
    memory.WriteWindow(0, DATA_START, memory.pages[parent][DATA_START]);
    memory.WriteWindow(0, HEAP_START, memory.pages[parent][HEAP_START]);
    memory.WriteWindow(0, CURRENT_BRK, memory.pages[parent][CURRENT_BRK]);
    assert memory.pages[pcb[0]] == ChildInfo(pages[pcb[0]], pages[parent], child);
  }

  /** The stack copy of cloneKernelContext, page by page through one window each, with the child's
      process info saved before and put back after. */
  method CloneKernelStack(memory: Memory, pcb: seq<nat>)
    requires memory.kernelTable.Length == TABLE_LEN && |pcb| == STACK_PAGES
    requires pcb[0] < memory.pages.Length && memory.kernelTable[STACK_BASE_PAGE].pfn < memory.pages.Length
    requires pcb[1] < memory.pages.Length && memory.kernelTable[STACK_BASE_PAGE + 1].pfn < memory.pages.Length
    modifies memory.pages, memory.kernelTable
    ensures memory.pages[..] == old(CloneStack(memory.pages[..], pcb,
      [memory.kernelTable[STACK_BASE_PAGE].pfn, memory.kernelTable[STACK_BASE_PAGE + 1].pfn]))
    ensures memory.kernelTable[..WINDOW_BASE_PAGE] == old(memory.kernelTable[..WINDOW_BASE_PAGE])
    ensures memory.kernelTable[STACK_BASE_PAGE..] == old(memory.kernelTable[STACK_BASE_PAGE..])
  {
    memory.MoveWindow(0, pcb[0]);
    var info := memory.pages[memory.WindowFrame(0)][..INFO_WORDS];
    memory.MoveWindow(0, pcb[0]);
    memory.CopyToWindow(0, memory.kernelTable[STACK_BASE_PAGE].pfn);
    memory.MoveWindow(1, pcb[1]);
    memory.CopyToWindow(1, memory.kernelTable[STACK_BASE_PAGE + 1].pfn);
    memory.MoveWindow(0, pcb[0]);
    var frame := memory.WindowFrame(0);
    memory.pages[frame] := info + memory.pages[frame][INFO_WORDS..];
  }

  // ---------- exec ----------

  /** The three mapping loops of loadProgram: text, data and stack, all writable at first. */
  method MapProgram(memory: Memory, table: array<PTE>, l: Layout) returns (ok: bool)
    requires memory.Valid() && Apart(memory, table) && table.Length == TABLE_LEN && LayoutFits(l)
    requires FrameZeroKept(memory.View())
    modifies memory, memory.pages, memory.counts, memory.kernelTable, table
    ensures memory.Valid()
    ensures (memory.View(), table[..], ok) == old(MapSegments(memory.View(), table[..], l))
    ensures memory.kernelTable[..WINDOW_BASE_PAGE] == old(memory.kernelTable[..WINDOW_BASE_PAGE])
    ensures memory.kernelTable[STACK_BASE_PAGE..] == old(memory.kernelTable[STACK_BASE_PAGE..])
  {
    hide Linked, FreeIffUncounted, Distinct, Grow;
    GrowKeepsZero(memory.View(), table[..], l.text, l.textPages);
    ok := IncreaseBrk(memory, table, l.text, l.textPages);
    if !ok { return; }
    GrowKeepsZero(memory.View(), table[..], l.data, l.dataPages);
    ok := IncreaseBrk(memory, table, l.data, l.dataPages);
    if !ok { return; }
    ok := IncreaseBrk(memory, table, StackStart(l), l.stackPages);
  }

  lemma GrowKeepsZero(m: Phys, t: seq<PTE>, start: nat, n: nat)
    requires WellFormed(m) && FrameZeroKept(m) && start + n <= |t|
    ensures FrameZeroKept(Grow(m, t, start, n).0)
  {
    hide Linked, FreeIffUncounted, Distinct, Grow;
    GrowTakesTheFront(m, t, start, n);
  }

  /** What reading the program file, zeroing and the argument stack leave in the mapped pages. */
  method FillPages(memory: Memory, table: array<PTE>, image: seq<Page>)
    requires memory.Valid() && Apart(memory, table) && |image| == table.Length
    requires Covered(memory.View(), table[..]) && Owned(memory.View(), table[..])
    modifies memory.pages
    ensures memory.Valid() && memory.View() == old(FillTo(memory.View(), table[..], image, table.Length))
  {
    hide Linked, FreeIffUncounted, Distinct, Refs, Local;
    ghost var m := memory.View();
    for i := 0 to table.Length
      invariant memory.Valid() && memory.View() == FillTo(m, table[..], image, i)
    {
      FillIsLocal(m, table[..], image, i + 1);
      if table[i].flags.valid {
        memory.pages[table[i].pfn] := image[i];
      }
      assert memory.View() == FillTo(m, table[..], image, i + 1);
      LocalSizes(m, table[..], memory.View(), table[..]);
    }
  }

  /** The loop that takes the write permission from the text. */
  method ProtectText(table: array<PTE>, start: nat, n: nat)
    requires start + n <= table.Length
    modifies table
    ensures table[..] == Protect(old(table[..]), start, n)
  {
    ghost var t := table[..];
    for i := 0 to n
      invariant table[..] == Protect(t, start, i)
    {
      table[start + i] := PTE(TEXT_FLAGS, table[start + i].pfn);
    }
  }

  /** Everything that fork or createThread does to frames and tables, in the order of the code:
      kernel stack, table copy, user stack copy, process info, sharing, and the clone of the stack. */
  method SpawnFrames(memory: Memory, parent: array<PTE>, base: nat, child: int, thread: bool)
    returns (pcb: seq<nat>, table: array<PTE>)
    requires memory.Valid() && Apart(memory, parent) && FrameZeroKept(memory.View())
    requires SpawnFits(memory.View(), parent[..], base, MappedStack(memory))
    requires Covered(memory.View(), parent[..]) && CountsFit(memory.View(), parent[..], base)
    requires forall i :: 0 <= i < STACK_PAGES ==> memory.counts[MappedStack(memory)[i]] != 0
    modifies memory, memory.pages, memory.counts, memory.kernelTable, parent
    ensures memory.Valid() && fresh(table) && table.Length == TABLE_LEN
    ensures var r := old(Spawn(memory.View(), parent[..], base, MappedStack(memory), child));
      && memory.View() == r.mem && pcb == r.pcb && |r.table| == TABLE_LEN
      && table[..] == if thread then r.table else MarkTable(r.table, base)
    ensures parent[..] == if thread then old(parent[..]) else MarkTable(old(parent[..]), base)
    ensures memory.kernelTable[..WINDOW_BASE_PAGE] == old(memory.kernelTable[..WINDOW_BASE_PAGE])
    ensures memory.kernelTable[STACK_BASE_PAGE..] == old(memory.kernelTable[STACK_BASE_PAGE..])
  {
    hide Linked, FreeIffUncounted, Distinct, Refs, FrameRefs, CopyStep, CopiedTo, NewStack, CloneStack, SpawnedRight,
      MarkTable, ShareTo, ChildInfo;
    ghost var m, t, stack := memory.View(), parent[..], MappedStack(memory);
    SpawnIsRight(m, t, base, stack, child);
    SpawnedIsWellFormed(m, t, base, stack, child, Spawn(m, t, base, stack, child));
    NewStackIs(m, t, child);
    pcb := NewKernelStack(memory, child);
    table := new PTE[TABLE_LEN](i requires 0 <= i < TABLE_LEN && parent.Length == TABLE_LEN reads parent => parent[i]);
    assert table[..] == t;
    CopyParentStack(memory, parent, table, base);
    ghost var copied, c := memory.View(), table[..];
    CopyInfo(memory, pcb, child);
    if thread {
      IncreaseFrcEntries(memory, table, base);
    } else {
      SetCopyOnWrite(memory, parent, base, false);
      SetCopyOnWrite(memory, table, base, true);
    }
    assert memory.kernelTable[STACK_BASE_PAGE..][1] == memory.kernelTable[STACK_BASE_PAGE + 1];
    assert MappedStack(memory) == stack && stack[0] < |m.pages| && stack[1] < |m.pages|;
    CloneKernelStack(memory, pcb);
    assert memory.View() == Spawn(m, t, base, stack, child).mem;
  }

  /** The frames that the kernel stack is mapped to. */
  function MappedStack(memory: Memory): seq<nat>
    requires memory.kernelTable.Length == TABLE_LEN
    reads memory.kernelTable
  {
    [memory.kernelTable[STACK_BASE_PAGE].pfn, memory.kernelTable[STACK_BASE_PAGE + 1].pfn]
  }

  lemma SpawnedIsWellFormed(m: Phys, t: seq<PTE>, base: nat, stack: seq<nat>, child: int, r: Spawned)
    requires SpawnFits(m, t, base, stack) && SpawnedRight(m, t, base, stack, child, r)
    ensures WellFormed(r.mem) && |r.table| == |t|
  {
  }
}
