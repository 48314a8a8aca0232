/**
  The kernel's own state in place: descriptors and page tables as objects, physical memory and the
  kernel page table as arrays.  Every method is proved to take the state as a value from one step of
  KernelSteps, HeapSteps or ProcessSteps to the next.
 */
module Kernel {
  import opened Hardware
  import opened FrameList
  import opened AddressSpace
  import opened UserSpace
  import opened Exec
  import opened Fork
  import opened KernelState
  import opened KernelSteps
  import opened HeapSteps
  import opened ProcessSteps
  import opened PhysicalMemory
  import Ring
  import opened PageTables

  /** What a system call returns that leaves its caller without a usable program. */
  const KILL: int := -2

  /** struct ProcessDescriptor, as far as memory and switching go. */
  class ProcessDescriptor {
    const pageTable: array<PTE>
    var running: bool            // state is not PROCESS_ZOMBIE
    var pcbFrames: seq<nat>
    var sp: int                  // user_context.sp
    var leader: int              // thread_leader, 0 for none
    var parent: int
    var context: int             // kernel_context

    constructor (pageTable: array<PTE>, pcbFrames: seq<nat>)
      ensures this.pageTable == pageTable && this.pcbFrames == pcbFrames && running
      ensures leader == 0 && parent == 0
    {
      this.pageTable, this.pcbFrames := pageTable, pcbFrames;
      running, sp, leader, parent, context := true, 0, 0, 0, 0;
    }

    ghost function View(): Proc
      reads this, pageTable
    {
      Proc(running, pcbFrames, pageTable[..], sp, leader, parent, context)
    }
  }

  class Kernel {
    const memory: Memory
    var descriptorAt: map<int, ProcessDescriptor>   // the kernel heap: address to descriptor
    var processList: seq<int>                       // the ring behind process_head
    var kernelBrk: int                              // KERNEL_BRK
    var maxPid: int                                 // max_pid
    var ptbr: int                                   // REG_PTBR1, as the process whose table it names

    /** The kernel with its first process, process 1, on the stack that the machine booted with. */
    constructor (memory: Memory, first: ProcessDescriptor, kernelBrk: int)
      ensures this.memory == memory && descriptorAt == map[1 := first] && processList == [1]
      ensures this.kernelBrk == kernelBrk && maxPid == ptbr == 1
    {
      this.memory, this.kernelBrk := memory, kernelBrk;
      descriptorAt, processList, maxPid, ptbr := map[1 := first], [1], 1, 1;
    }

    ghost function Footprint(): set<object>
      reads this
    {
      {this, memory, memory.pages, memory.counts, memory.kernelTable} + Descriptors() + Tables()
    }

    ghost function Descriptors(): set<object>
      reads this
    {
      set p | p in descriptorAt :: descriptorAt[p]
    }

    ghost function Tables(): set<object>
      reads this
    {
      set p | p in descriptorAt :: descriptorAt[p].pageTable
    }

    /** Descriptors and tables are distinct objects. */
    ghost predicate Valid()
      reads Footprint()
    {
      && memory.Valid()
      && (forall p :: p in descriptorAt ==>
            descriptorAt[p].pageTable.Length == TABLE_LEN && Apart(memory, descriptorAt[p].pageTable))
      && (forall p, q :: p in descriptorAt && q in descriptorAt && p != q ==>
            descriptorAt[p] != descriptorAt[q] && descriptorAt[p].pageTable != descriptorAt[q].pageTable)
    }

    ghost function View(): Sys
      requires memory.kernelTable.Length == TABLE_LEN
      reads Footprint()
    {
      Sys(
        memory.View(),
        memory.kernelTable[..WINDOW_BASE_PAGE],
        memory.kernelTable[STACK_BASE_PAGE..],
        ptbr,
        map p | p in descriptorAt :: descriptorAt[p].View(),
        processList,
        kernelBrk,
        maxPid)
    }

    /** getCurrentProcess(): read from memory through the mapped kernel stack. */
    method GetCurrentProcess() returns (p: int)
      requires Valid() && Inv(View())
      ensures p == CurrentProcess(View()) == ptbr && p in descriptorAt
      ensures Valid() && View() == old(View())
    {
      CurrentIsMapped(View());
      p := memory.pages[memory.kernelTable[STACK_BASE_PAGE].pfn][DESCRIPTOR];
    }

    lemma ZeroKept()
      requires Valid() && Inv(View())
      ensures FrameZeroKept(memory.View())
    {
      assert View().kernelMap[0].flags.valid;
    }

    lemma TableIsFull()
      requires Valid()
      ensures memory.kernelTable.Length == TABLE_LEN
    {
    }

    lemma ProcSeen(p: int)
      requires Valid() && p in descriptorAt
      ensures p in View().procs && View().procs[p] == descriptorAt[p].View()
    {
      hide Linked, FreeIffUncounted, Distinct;
    }

    lemma FieldsSeen()
      requires Valid()
      ensures View().ptbr == ptbr && View().maxPid == maxPid && View().procs.Keys == descriptorAt.Keys
    {
      hide Linked, FreeIffUncounted, Distinct;
    }

    lemma StackSeen()
      requires Valid() && InfoMapped(View())
      ensures memory.kernelTable.Length == TABLE_LEN
      ensures memory.kernelTable[STACK_BASE_PAGE].pfn < memory.pages.Length
    {
      hide Linked, FreeIffUncounted, Distinct;
    }

    twostate lemma NothingChanged()
      requires old(Valid()) && unchanged(old(Footprint()))
      ensures Valid() && View() == old(View())
    {
    }

    /** When at most one process's descriptor and table have changed. */
    twostate lemma OneChanged(p: int)
      requires old(Valid()) && Valid() && descriptorAt == old(descriptorAt) && p in descriptorAt
      requires forall q :: q in descriptorAt && q != p ==>
        unchanged(descriptorAt[q]) && unchanged(descriptorAt[q].pageTable)
      ensures View().procs == old(View().procs)[p := descriptorAt[p].View()]
    {
      hide Linked, FreeIffUncounted, Distinct;
      var a, b := old(View().procs), View().procs;
      forall q | q in descriptorAt && q != p
        ensures b[q] == a[q]
      {
        assert old(descriptorAt[q].pageTable[..]) == descriptorAt[q].pageTable[..];
        assert a[q] == old(descriptorAt[q].View()) && b[q] == descriptorAt[q].View();
      }
    }

    /** When only frames and the kernel's map have changed. */
    twostate lemma NoneChanged()
      requires old(Valid()) && memory.Valid() && descriptorAt == old(descriptorAt)
      requires forall q :: q in descriptorAt ==> unchanged(descriptorAt[q]) && unchanged(descriptorAt[q].pageTable)
      ensures Valid() && View().procs == old(View().procs)
    {
      hide Linked, FreeIffUncounted, Distinct;
      var a, b := old(View().procs), View().procs;
      forall q | q in descriptorAt
        ensures b[q] == a[q]
      {
        assert old(descriptorAt[q].pageTable[..]) == descriptorAt[q].pageTable[..];
      }
    }

    /** The memory trap on the current process's table. */
    method HandleTrap(address: int) returns (halted: bool)
      requires Valid() && Inv(View()) && InRegion1(address)
      modifies Footprint()
      ensures halted <==> !old(TrapEnabled(View(), address))
      ensures !halted ==> Valid() && View() == old(TrapStep(View(), address))
      ensures unchanged(this)
    {
      hide Linked, FreeIffUncounted, RingRefs, Refs, FrameRefs, Distinct, Maps, Conserved, StacksOwned, KernelOwns,
        TableShape, Trap, Alloc;
      ghost var s := View();
      CurrentInfo(s);
      ZeroKept();
      ProcessCovered(s, ptbr);
      ShapeParts(s.procs[ptbr].table);
      var p := GetCurrentProcess();
      var d := descriptorAt[p];
      assert s.procs[p] == d.View();
      if d.pageTable[PageOf(address)].flags.valid { RefsPositive(d.pageTable[..], PageOf(address)); }
      halted := HandleMemoryTrap(memory, d.pageTable, PageOf(address), InStack(d.sp, address));
      if !halted {
        OneChanged(p);
      }
    }

    /** A store through a writable entry. */
    method StoreThrough(address: int, value: int)
      requires Valid() && InRegion1(address) && StoreOpen(View(), address)
      modifies memory.pages
      ensures Valid()
      ensures var e := old(View()).procs[ptbr].table[PageOf(address)];
        View() == old(View()).(mem := Poke(old(View()).mem, e, WordOf(address), value))
    {
      hide Linked, FreeIffUncounted, Distinct;
      ghost var s := View();
      var d := descriptorAt[ptbr];
      assert s.procs[ptbr] == d.View();
      var f := d.pageTable[PageOf(address)].pfn;
      WriteCounted(s.mem, f, s.mem.pages[f][WordOf(address) := value]);
      memory.pages[f] := memory.pages[f][WordOf(address) := value];
      assert memory.View() == Poke(s.mem, d.pageTable[PageOf(address)], WordOf(address), value);
      NoneChanged();
    }

    /** A user store: the machine translates with the current table, traps if the entry refuses, and
        tries once more. */
    method UserStore(address: int, value: int) returns (halted: bool)
      requires Valid() && Inv(View()) && InRegion1(address)
      modifies Footprint()
      ensures halted <==> !old(StorePossible(View(), address))
      ensures !halted ==> Valid() && View() == old(StoreStep(View(), address, value))
    {
      hide Valid, View, Inv, Shape, WellFormed, Trap;
      TableIsFull();
      FieldsSeen();
      ghost var s := View();
      CurrentInfo(s);
      NewPid(s);
      ShapeParts(s.procs[ptbr].table);
      ProcSeen(ptbr);
      var d := descriptorAt[ptbr];
      if Writable(d.pageTable[PageOf(address)]) {
        OpenNow(s, address);
        StoreThrough(address, value);
        assert s.procs[s.ptbr := s.procs[s.ptbr]] == s.procs;
        return false;
      }
      halted := HandleTrap(address);
      if halted { return; }
      OpenAfterTrap(s, address);
      ProcSeen(ptbr);
      if Writable(d.pageTable[PageOf(address)]) {
        StoreThrough(address, value);
      }
    }

    /** A write to the process info through the mapping of the kernel stack. */
    method WriteInfo(word: nat, value: int)
      requires Valid() && InfoMapped(View()) && word < INFO_WORDS
      requires View().mem.counts[View().stackMap[0].pfn] != 0
      modifies memory.pages
      ensures Valid() && View() == SetInfo(old(View()), word, value)
    {
      hide Linked, FreeIffUncounted, Distinct;
      ghost var s := View();
      var f := memory.kernelTable[STACK_BASE_PAGE].pfn;
      WriteCounted(s.mem, f, s.mem.pages[f][word := value]);
      memory.pages[f] := memory.pages[f][word := value];
      assert memory.View() == SetInfo(s, word, value).mem;
      assert View().procs == s.procs;
    }

    function ReadInfo(word: nat): (value: int)
      requires memory.kernelTable.Length == TABLE_LEN && word < INFO_WORDS
      requires memory.kernelTable[STACK_BASE_PAGE].pfn < memory.pages.Length
      ensures InfoMapped(View()) && value == Info(View(), word)
      reads memory, memory.pages, memory.kernelTable
    {
      memory.pages[memory.kernelTable[STACK_BASE_PAGE].pfn][word]
    }

    /** increaseBrk on the current process's table. */
    method GrowCurrent(start: nat, n: nat) returns (ok: bool)
      requires Valid() && Inv(View()) && start + n <= TABLE_LEN
      modifies memory, memory.pages, memory.counts, memory.kernelTable, descriptorAt[ptbr].pageTable
      ensures Valid() && |old(View()).procs[old(ptbr)].table| == TABLE_LEN
      ensures var r := old(Grow(View().mem, View().procs[ptbr].table, start, n));
        ok == r.2 && View() == Update(old(View()), old(ptbr), r.0, r.1)
    {
      hide Linked, FreeIffUncounted, RingRefs, Refs, FrameRefs, Distinct, Maps, Conserved, KernelOwns, StacksOwned,
        TableShape, Grow;
      ghost var s := View();
      CurrentInfo(s);
      ZeroKept();
      var d := descriptorAt[ptbr];
      assert s.procs[ptbr] == d.View();
      ok := IncreaseBrk(memory, d.pageTable, start, n);
      OneChanged(ptbr);
    }

    /** decreaseBrk on the current process's table. */
    method ShrinkCurrent(start: nat, n: nat)
      requires Valid() && Inv(View()) && start + n <= TABLE_LEN
      requires |View().procs[ptbr].table| == TABLE_LEN
      requires forall i :: start <= i < start + n ==> View().procs[ptbr].table[i].flags.valid
      modifies memory, memory.pages, memory.counts, memory.kernelTable, descriptorAt[ptbr].pageTable
      ensures Valid() && forall i :: start <= i < start + n ==>
        old(View()).procs[old(ptbr)].table[i].pfn < |old(View()).mem.counts|
      ensures var r := old(Shrink(View().mem, View().procs[ptbr].table, start, n));
        View() == Update(old(View()), old(ptbr), r.0, r.1)
    {
      hide Linked, FreeIffUncounted, RingRefs, Refs, FrameRefs, Distinct, Maps, Conserved, KernelOwns, StacksOwned,
        TableShape, Shrink;
      ghost var s := View();
      CurrentInfo(s);
      ProcessCovered(s, ptbr);
      var d := descriptorAt[ptbr];
      assert s.procs[ptbr] == d.View();
      DecreaseBrk(memory, d.pageTable, start, n);
      OneChanged(ptbr);
    }

    /** setProcessBrk. */
    method SetProcessBrk(address: int) returns (status: int)
      requires Valid() && Inv(View()) && HeapsOk(View())
      modifies Footprint()
      ensures Valid() && View() == old(BrkStep(View(), address).0)
      ensures status == old(BrkStep(View(), address).1)
      ensures unchanged(this)
    {
      hide Valid, View, Inv, Shape, HeapsOk, Grow, Shrink, WellFormed, Covered;
      TableIsFull();
      ghost var s := View();
      CurrentInfo(s);
      HeapLimits(s);
      var p := GetCurrentProcess();
      ProcSeen(p);
      FieldsSeen();
      StackSeen();
      assert View() == s;
      var brk, up := ReadInfo(CURRENT_BRK), UpToPage(address);
      if up >= DownToPage(descriptorAt[p].sp) { return -1; }
      if DownToPage(address) < ReadInfo(HEAP_START) { return -1; }
      if up == brk { return 0; }
      if up > brk {
        GrowKeepsStacks(s, PageOf(brk), (up - brk) / PAGE_SIZE);
        var ok := GrowCurrent(PageOf(brk), (up - brk) / PAGE_SIZE);
        if !ok { return -1; }
      } else {
        ShrinkKeepsStacks(s, PageOf(up), (brk - up) / PAGE_SIZE);
        ShrinkCurrent(PageOf(up), (brk - up) / PAGE_SIZE);
      }
      WriteInfo(CURRENT_BRK, up);
      return 0;
    }

    /** SetKernelBrk, with virtual memory on. */
    method SetKernelBrk(address: int) returns (status: int)
      requires Valid() && Inv(View()) && UpToPage(address) >= PAGE_SIZE
      modifies this, memory, memory.pages, memory.counts, memory.kernelTable
      ensures Valid() && View() == old(KernelBrkStep(View(), address).0)
      ensures status == old(KernelBrkStep(View(), address).1)
    {
      hide Inv, Shape, WellFormed, Covered, FrameZeroKept, Grow, Shrink;
      ghost var s := View();
      ZeroKept();
      KernelCovered(s);
      KernelIsMapped(s);
      var up := UpToPage(address);
      if up >= PageAtIndex(WINDOW_BASE_PAGE) { return -1; }
      if up == kernelBrk { return 0; }
      if up > kernelBrk {
        var ok := IncreaseKernelBrk(memory, IndexOfPage(kernelBrk), (up - kernelBrk) / PAGE_SIZE);
        NoneChanged();
        if !ok { return -1; }
      } else {
        assert forall i :: 0 <= i < WINDOW_BASE_PAGE ==> memory.kernelTable[i] == s.kernelMap[i];
        DecreaseKernelBrk(memory, IndexOfPage(up), (kernelBrk - up) / PAGE_SIZE);
        NoneChanged();
      }
      kernelBrk := up;
      assert View().procs == s.procs;
      return 0;
    }

    /** switchKernelContext: the stack of the target is mapped in place of the caller's. */
    method SwitchKernelContext(caller: int, target: int, saved: int) returns (resumed: int)
      requires Valid() && Inv(View()) && SwitchEnabled(View(), target) && caller in descriptorAt
      modifies this`ptbr, memory.kernelTable, Descriptors()
      ensures Valid()
      ensures caller != old(CurrentProcess(View())) ==> View() == old(View()) && resumed == saved
      ensures caller == old(CurrentProcess(View())) ==>
        View() == old(SwitchStep(View(), target, saved)) && resumed == descriptorAt[target].context
      ensures CurrentProcess(old(View())) == old(ptbr)
    {
      hide Inv, Shape, WellFormed;
      ghost var s := View();
      CurrentIsMapped(s);
      TargetHasStack(s, target);
      var current := GetCurrentProcess();
      if caller != current {
        assert View().procs == s.procs;
        return saved;
      }
      ProcSeen(target);
      SaveContext(caller, saved);
      MapStack(descriptorAt[target].pcbFrames);
      ptbr := target;
      return descriptorAt[target].context;
    }

    method SaveContext(p: int, saved: int)
      requires Valid() && p in descriptorAt
      modifies descriptorAt[p]
      ensures p in old(View()).procs && descriptorAt[p].pcbFrames == old(descriptorAt[p].pcbFrames)
      ensures Valid()
        && View() == old(View()).(procs := old(View()).procs[p := old(View()).procs[p].(context := saved)])
    {
      hide Linked, FreeIffUncounted, Distinct;
      ProcSeen(p);
      descriptorAt[p].context := saved;
      OneChanged(p);
    }

    method MapStack(frames: seq<nat>)
      requires Valid() && |frames| == STACK_PAGES
      modifies memory.kernelTable
      ensures Valid() && View() == old(View()).(stackMap := [PTE(DATA_FLAGS, frames[0]), PTE(DATA_FLAGS, frames[1])])
    {
      hide Linked, FreeIffUncounted, Distinct;
      memory.kernelTable[STACK_BASE_PAGE] := PTE(DATA_FLAGS, frames[0]);
      memory.kernelTable[STACK_BASE_PAGE + 1] := PTE(DATA_FLAGS, frames[1]);
      NoneChanged();
    }

    // ---------- fork and createThread ----------

    /** Frames and table of the new process, and what sharing does to its parent's table. */
    method SpawnCurrent(child: int, thread: bool) returns (pcb: seq<nat>, table: array<PTE>)
      requires Valid() && Inv(View()) && SpawnEnabled(View()) && child == maxPid + 1
      modifies memory, memory.pages, memory.counts, memory.kernelTable, descriptorAt[ptbr].pageTable
      ensures Valid() && fresh(table) && table.Length == TABLE_LEN
      ensures Spawns(old(View()), thread, View(), pcb, table[..])
    {
      hide Inv, Shape, SpawnPossible, WellFormed, Covered, CountsFit, ValidIn, Fork.Spawn, MarkTable, FrameZeroKept;
      ghost var s := View();
      SpawnReady(s);
      ProcSeen(ptbr);
      var parent := descriptorAt[ptbr];
      pcb, table := SpawnFrames(memory, parent.pageTable, StackBase(parent.sp), child, thread);
      OneChanged(ptbr);
    }

    /** Frames, table and descriptor of the new process, not yet listed. */
    method NewProcess(p: int, child: int, saved: int, thread: bool) returns (d: ProcessDescriptor)
      requires Valid() && Inv(View()) && SpawnEnabled(View()) && p == ptbr && child == maxPid + 1
      modifies memory, memory.pages, memory.counts, memory.kernelTable, descriptorAt[p], descriptorAt[p].pageTable
      ensures Valid() && fresh(d) && fresh(d.pageTable) && d.pageTable.Length == TABLE_LEN
      ensures var s, r := old(View()), old(SpawnStep(View(), saved, thread));
        && child in r.procs && p in s.procs && p in r.procs
        && View() == s.(mem := r.mem, procs := s.procs[p := r.procs[p]])
        && d.View() == r.procs[child]
    {
      hide Valid, View, Inv, Shape, SpawnPossible, CountsFit, WellFormed, Spawns, SpawnStep;
      TableIsFull();
      ghost var s := View();
      FieldsSeen();
      CurrentInfo(s);
      var parent := descriptorAt[p];
      var pcb, table := SpawnCurrent(child, thread);
      SpawnDescriptors(s, saved, thread, View(), pcb, table[..]);
      SaveContext(p, saved);
      ProcSeen(p);
      label contextSaved:
      d := new ProcessDescriptor(table, pcb);
      d.sp, d.context := parent.sp, saved;
      if thread {
        d.leader := p;
      } else {
        d.parent := p;
      }
      NothingChanged@contextSaved();
    }

    /** The part that forkProcess and createThread have in common. */
    method Spawn(saved: int, thread: bool) returns (child: int)
      requires Valid() && Inv(View()) && SpawnEnabled(View())
      modifies Footprint()
      ensures Valid() && View() == old(SpawnStep(View(), saved, thread))
      ensures child == old(maxPid) + 1
    {
      hide View, Inv, Shape, SpawnStep, SpawnPossible, CountsFit, WellFormed, PlaceAfter;
      TableIsFull();
      FieldsSeen();
      ghost var s, r := View(), SpawnStep(View(), saved, thread);
      SpawnFields(s, saved, thread);
      var p := GetCurrentProcess();
      child := maxPid + 1;
      var d := NewProcess(p, child, saved, thread);
      TakePlace(p, child, thread);
      Enlist(child, d);
    }

    /** Where a new process goes in the ring, and the pid that it takes. */
    method TakePlace(p: int, child: int, thread: bool)
      requires Valid()
      modifies this`maxPid, this`processList
      ensures Valid() && View() == old(View().(
        maxPid := child,
        ring :=
          if thread then
            var i := PlaceAfter(View().ring, p);
            View().ring[..i] + [child] + View().ring[i..]
          else
            View().ring + [child]))
    {
      maxPid := child;
      if thread {
        var place := PlaceAfter(processList, p);
        processList := processList[..place] + [child] + processList[place..];
      } else {
        processList := processList + [child];
      }
    }

    method Enlist(child: int, d: ProcessDescriptor)
      requires Valid() && child !in descriptorAt
      requires d.pageTable.Length == TABLE_LEN && Apart(memory, d.pageTable)
      requires forall q :: q in descriptorAt ==> descriptorAt[q] != d && descriptorAt[q].pageTable != d.pageTable
      modifies this`descriptorAt
      ensures Valid() && descriptorAt == old(descriptorAt)[child := d]
      ensures View() == old(View()).(procs := old(View()).procs[child := d.View()])
    {
      descriptorAt := descriptorAt[child := d];
    }

    /** forkProcess, as it returns in the process that called it. */
    method ForkProcess(saved: int) returns (result: int)
      requires Valid() && Inv(View())
      requires View().procs[ptbr].leader == 0 ==> SpawnEnabled(View())
      modifies Footprint()
      ensures old(View().procs[ptbr].leader) != 0 ==> result == -1 && Valid() && View() == old(View())
      ensures old(View().procs[ptbr].leader) == 0 ==>
        && Valid() && View() == old(SpawnStep(View(), saved, false))
        && InfoMapped(View()) && result == ForkResult(View(), old(ptbr), old(maxPid) + 1) == old(maxPid) + 1
    {
      hide Valid, View, Inv, Shape, SpawnStep, SpawnPossible, CountsFit, WellFormed;
      TableIsFull();
      FieldsSeen();
      ghost var s := View();
      CurrentInfo(s);
      var parent := GetCurrentProcess();
      ProcSeen(parent);
      if descriptorAt[parent].leader != 0 { return -1; }
      SpawnKeepsInv(s, saved, false);
      var child := Spawn(saved, false);
      CurrentInfo(View());
      var current := GetCurrentProcess();
      result := if current == parent then child else 0;
    }

    /** createThread. */
    method CreateThread(saved: int) returns (result: int)
      requires Valid() && Inv(View())
      requires View().procs[ptbr].leader == 0 ==> SpawnEnabled(View())
      modifies Footprint()
      ensures old(View().procs[ptbr].leader) != 0 ==> result == -1 && Valid() && View() == old(View())
      ensures old(View().procs[ptbr].leader) == 0 ==>
        && Valid() && View() == old(SpawnStep(View(), saved, true))
        && InfoMapped(View()) && result == ForkResult(View(), old(ptbr), old(maxPid) + 1) == old(maxPid) + 1
    {
      hide Valid, View, Inv, Shape, SpawnStep, SpawnPossible, CountsFit, WellFormed;
      TableIsFull();
      FieldsSeen();
      ghost var s := View();
      CurrentInfo(s);
      var parent := GetCurrentProcess();
      ProcSeen(parent);
      if descriptorAt[parent].leader != 0 { return -1; }
      SpawnKeepsInv(s, saved, true);
      var child := Spawn(saved, true);
      CurrentInfo(View());
      var current := GetCurrentProcess();
      result := if current == parent then child else 0;
    }

    // ---------- exec ----------

    /** The current process's address space dropped. */
    method DropCurrent()
      requires Valid() && Inv(View())
      modifies memory, memory.pages, memory.counts, memory.kernelTable, descriptorAt[ptbr].pageTable
      ensures Valid() && View() == old(DropSpace(View()))
    {
      hide Linked, FreeIffUncounted, RingRefs, Refs, FrameRefs, Distinct, Maps, Conserved, KernelOwns, StacksOwned,
        TableShape, FreeTo, ClearedTo;
      ghost var s := View();
      CurrentInfo(s);
      ProcessCovered(s, ptbr);
      var d := descriptorAt[ptbr];
      assert s.procs[ptbr] == d.View();
      PageTables.FreeAddressSpace(memory, d.pageTable);
      OneChanged(ptbr);
    }

    /** loadProgram from its checks on; `image` is what the loader puts into the pages. */
    method LoadProgram(l: Layout, image: seq<Page>, sp: int) returns (status: int)
      requires Valid() && Inv(View()) && l.text + l.textPages <= l.data && |image| == TABLE_LEN
      requires View().procs[ptbr].leader == 0 && LayoutFits(l) ==> ExecEnabled(View(), l, image, sp)
      modifies Footprint()
      ensures status == -1 <==> old(View().procs[ptbr].leader != 0) || !LayoutFits(l)
      ensures status == -1 ==> Valid() && View() == old(View())
      ensures status != -1 ==>
        && status == (if old(ExecServed(View(), l)) then 0 else KILL)
        && Valid() && View() == old(ExecStep(View(), l, image, sp))
    {
      hide Inv, Shape, Linked, FreeIffUncounted, RingRefs, Refs, FrameRefs, Distinct, TableShape, Load, ExecEnabled,
        Unloaded;
      ghost var s := View();
      var p := GetCurrentProcess();
      var d := descriptorAt[p];
      assert s.procs[p] == d.View();
      if d.leader != 0 { return -1; }
      if l.stackPages + l.data + l.dataPages >= TABLE_LEN { return -1; }
      ExecFrames(s, l, image, sp);
      Unload(l, sp);
      UnloadedIsRight(s, l, sp);
      var ok := LoadCurrent(l, image);
      return if ok then 0 else KILL;
    }

    /** The old program goes, the stack pointer and the heap limits of the new one are set. */
    method Unload(l: Layout, sp: int)
      requires Valid() && Inv(View()) && REGION1_BASE <= sp <= REGION1_LIMIT
      modifies Footprint()
      ensures Valid() && View() == Unloaded(old(View()), l, sp) && unchanged(this)
    {
      hide Valid, View, Inv, Shape, DropSpace, SetLimits, HeapStart, WellFormed;
      TableIsFull();
      FieldsSeen();
      ghost var s := View();
      CurrentInfo(s);
      DropSpaceKeepsInv(s);
      DropCurrent();
      SetStackPointer(sp);
      MoveStackKeepsInv(DropSpace(s), sp);
      CurrentInfo(View());
      SetHeapLimits(l);
    }

    method SetStackPointer(sp: int)
      requires Valid() && ptbr in descriptorAt
      modifies descriptorAt[ptbr]
      ensures ptbr in old(View()).procs && Valid() && View() == WithStack(old(View()), sp)
    {
      hide Linked, FreeIffUncounted, Distinct;
      ProcSeen(ptbr);
      descriptorAt[ptbr].sp := sp;
      OneChanged(ptbr);
    }

    method SetHeapLimits(l: Layout)
      requires Valid() && Inv(View()) && InfoMapped(View())
      modifies memory.pages
      ensures Valid() && View() == SetLimits(old(View()), l)
    {
      hide Linked, FreeIffUncounted, RingRefs, Refs, FrameRefs, Distinct, Maps, Conserved, KernelOwns, TableShape;
      ghost var s := View();
      StacksCounted(s);
      WriteInfo(DATA_START, REGION1_BASE + PageAtIndex(l.data));
      WriteInfo(HEAP_START, HeapStart(l));
      WriteInfo(CURRENT_BRK, HeapStart(l));
    }

    method LoadCurrent(l: Layout, image: seq<Page>) returns (ok: bool)
      requires Valid() && Inv(View()) && LayoutFits(l) && |image| == TABLE_LEN && Empty(View().procs[ptbr].table)
      modifies memory, memory.pages, memory.counts, memory.kernelTable, descriptorAt[ptbr].pageTable
      ensures Valid()
      ensures |old(View()).procs[old(ptbr)].table| == TABLE_LEN
      ensures var r := old(Load(View().mem, View().procs[ptbr].table, l, image));
        ok == r.2 && View() == Update(old(View()), old(ptbr), r.0, r.1)
      ensures ok <==> PagesOf(l) <= |old(View()).mem.free|
    {
      hide Linked, FreeIffUncounted, RingRefs, Refs, FrameRefs, Distinct, Maps, Conserved, KernelOwns, TableShape,
        MapSegments, FillTo, Local;
      ghost var s := View();
      CurrentInfo(s);
      ZeroKept();
      ProcessCovered(s, ptbr);
      var d := descriptorAt[ptbr];
      assert s.procs[ptbr] == d.View();
      MapSegmentsIsLocal(s.mem, d.pageTable[..], l);
      ok := MapProgram(memory, d.pageTable, l);
      if ok {
        FillPages(memory, d.pageTable, image);
        ProtectText(d.pageTable, l.text, l.textPages);
      }
      OneChanged(ptbr);
    }

    // ---------- exit ----------

    /** killProcess for the current process without children and threads, and killKernelContext. */
    method KillCurrentProcess(next: int, saved: int)
      requires Valid() && Inv(View()) && ExitEnabled(View(), next)
      modifies Footprint()
      ensures Valid() && View() == old(ExitStep(View(), next, saved))
    {
      hide Valid, View, Inv, Shape, DropSpace, SwitchStep, Zombify, Forget, ExitEnabled, Drained, FramesExist;
      TableIsFull();
      var p := LeaveProcess(next, saved);
      ghost var left := View();
      FreeStack(p);
      ZombifyParts(left, p);
      ReleaseIfOrphan(p);
    }

    /** Pages and processor given up; only the stack is left of the process. */
    method LeaveProcess(next: int, saved: int) returns (p: int)
      requires Valid() && Inv(View()) && ExitEnabled(View(), next)
      modifies this`ptbr, memory, memory.pages, memory.counts, memory.kernelTable, Descriptors(), Tables()
      ensures Valid() && p == old(View()).ptbr && p in descriptorAt && p in View().procs
      ensures var s := old(View());
        && Inv(DropSpace(s)) && SwitchEnabled(DropSpace(s), next) && InfoMapped(DropSpace(s))
        && CurrentProcess(DropSpace(s)) in DropSpace(s).procs
        && View() == SwitchStep(DropSpace(s), next, saved)
      ensures Inv(View()) && Drained(View(), p)
    {
      hide Inv, Shape, Linked, FreeIffUncounted, RingRefs, Refs, FrameRefs, Distinct, TableShape, DropSpace,
        SwitchStep;
      ghost var s := View();
      CurrentInfo(s);
      CurrentIsMapped(s);
      DropSpaceKeepsInv(s);
      p := GetCurrentProcess();
      DropCurrent();
      DrainedAfterSwitch(s, next, saved);
      CurrentIsMapped(View());
      var _ := SwitchKernelContext(p, next, saved);
    }

    /** The end of killKernelContext: nobody but process 1 would ever ask for this process. */
    method ReleaseIfOrphan(p: int)
      requires Valid() && p in View().procs
      modifies this`descriptorAt, this`processList
      ensures Valid()
      ensures var proc := old(View()).procs[p];
        View() == if proc.leader == 0 && proc.parent == 1 then Forget(old(View()), p) else old(View())
    {
      ProcSeen(p);
      if descriptorAt[p].leader == 0 && descriptorAt[p].parent == 1 {
        ReleaseProcess(p);
      }
    }

    /** The two frames of a kernel stack that nobody runs on any more. */
    method FreeStack(p: int)
      requires Valid() && Inv(View()) && Drained(View(), p)
      modifies memory, memory.pages, memory.counts, memory.kernelTable, descriptorAt[p]
      ensures p in old(View()).procs && |old(View()).procs[p].pcb| == STACK_PAGES && FramesExist(old(View()).mem)
      ensures forall i :: 0 <= i < STACK_PAGES ==> old(View()).procs[p].pcb[i] < |old(View()).mem.counts|
      ensures Valid() && View() == Zombify(old(View()), p)
    {
      hide Linked, FreeIffUncounted, RingRefs, Refs, FrameRefs, Distinct, Maps, Conserved, KernelOwns, TableShape,
        Release;
      ghost var s := View();
      StackFramesExist(s, p);
      StacksDisjoint(s, p, p, 0, 1);
      var d := descriptorAt[p];
      assert s.procs[p] == d.View();
      assert s.mem.counts[s.procs[p].pcb[0]] == 1 && s.mem.counts[s.procs[p].pcb[1]] == 1;
      ReleaseOther(s.mem, d.pcbFrames[0], d.pcbFrames[1]);
      memory.FreePageFrame(PageAtIndex(d.pcbFrames[0]));
      memory.FreePageFrame(PageAtIndex(d.pcbFrames[1]));
      d.running := false;
      OneChanged(p);
    }

    /** releaseProcess of a process without children: out of the ring, and its descriptor freed. */
    method ReleaseProcess(p: int)
      requires Valid() && p in descriptorAt
      modifies this`descriptorAt, this`processList
      ensures Valid() && View() == Forget(old(View()), p)
    {
      ghost var procs := View().procs;
      processList := Ring.Without(processList, p);
      descriptorAt := descriptorAt - {p};
      assert View().procs == procs - {p};
    }
  }

  /** The entry permits a store, to a frame that is counted. */
  ghost predicate StoreOpen(s: Sys, address: int) {
    && s.ptbr in s.procs && |s.procs[s.ptbr].table| == TABLE_LEN && 0 <= PageOf(address) < TABLE_LEN
    && |s.mem.counts| == |s.mem.pages|
    && var e := s.procs[s.ptbr].table[PageOf(address)];
       Writable(e) && e.pfn < |s.mem.counts| && s.mem.counts[e.pfn] != 0
  }

  lemma OpenNow(s: Sys, address: int)
    requires Inv(s) && InRegion1(address) && Writable(s.procs[s.ptbr].table[PageOf(address)])
    ensures StoreOpen(s, address)
  {
    hide Linked, FreeIffUncounted, RingRefs, Refs, FrameRefs, Distinct, Maps, Conserved, StacksOwned, KernelOwns,
      TableShape;
    CurrentInfo(s);
    ProcessCovered(s, s.ptbr);
    RefsPositive(s.procs[s.ptbr].table, PageOf(address));
  }

  /** Whatever the trap does, an entry that permits a store afterwards maps a counted frame. */
  lemma OpenAfterTrap(s: Sys, address: int)
    requires Inv(s) && TrapEnabled(s, address) && !Writable(s.procs[s.ptbr].table[PageOf(address)])
    ensures var r := TrapStep(s, address);
      && r.ptbr == s.ptbr && s.ptbr in r.procs && |r.procs[s.ptbr].table| == TABLE_LEN
      && (Writable(r.procs[s.ptbr].table[PageOf(address)]) ==> StoreOpen(r, address))
  {
    hide Linked, FreeIffUncounted, RingRefs, Refs, FrameRefs, Distinct, Maps, Conserved, StacksOwned, KernelOwns,
      TableShape;
    CurrentInfo(s);
    TrapKeepsInvIff(s, address);
    var e, r := s.procs[s.ptbr].table[PageOf(address)], TrapStep(s, address);
    if !(e.flags.valid && !e.flags.cow && InStack(s.procs[s.ptbr].sp, address))
      && Writable(r.procs[s.ptbr].table[PageOf(address)]) {
      OpenNow(r, address);
    }
  }

  /** Growing and shrinking a heap do not touch the count of the mapped kernel stack. */
  lemma GrowKeepsStacks(s: Sys, start: nat, n: nat)
    requires Inv(s) && InfoMapped(s) && start + n <= |s.procs[s.ptbr].table|
    ensures var (m, u, _) := Grow(s.mem, s.procs[s.ptbr].table, start, n);
      InfoMapped(Update(s, s.ptbr, m, u)) && s.stackMap[0].pfn < |m.counts| && m.counts[s.stackMap[0].pfn] != 0
  {
    hide Linked, FreeIffUncounted, RingRefs, Refs, FrameRefs, Distinct, Maps, Conserved, KernelOwns, TableShape, Grow;
    GrowTakesTheFront(s.mem, s.procs[s.ptbr].table, start, n);
  }

  lemma ShrinkKeepsStacks(s: Sys, start: nat, n: nat)
    requires Inv(s) && InfoMapped(s) && start + n <= |s.procs[s.ptbr].table|
    requires forall i :: start <= i < start + n ==>
      s.procs[s.ptbr].table[i].flags.valid && s.procs[s.ptbr].table[i].pfn < |s.mem.counts|
    ensures var (m, u) := Shrink(s.mem, s.procs[s.ptbr].table, start, n);
      InfoMapped(Update(s, s.ptbr, m, u)) && s.stackMap[0].pfn < |m.counts| && m.counts[s.stackMap[0].pfn] != 0
  {
    hide Linked, FreeIffUncounted, RingRefs, Refs, FrameRefs, Distinct, Maps, Conserved, KernelOwns, TableShape,
      Shrink;
    ProcessCovered(s, s.ptbr);
    var t := s.procs[s.ptbr].table;
    ShrinkIsLocal(s.mem, t, start, n);
    StackHeld(s, s.ptbr, s.ptbr, 0);
    var (m, u) := Shrink(s.mem, t, start, n);
    assert m.counts[s.stackMap[0].pfn] - Refs(u, s.stackMap[0].pfn) ==
      s.mem.counts[s.stackMap[0].pfn] - Refs(t, s.stackMap[0].pfn);
  }

  /** What spawning asks of memory follows from the invariant. */
  lemma SpawnReady(s: Sys)
    requires Inv(s) && SpawnEnabled(s)
    ensures s.ptbr in s.procs && |s.stackMap| == STACK_PAGES && 0 <= StackBase(s.procs[s.ptbr].sp) <= TABLE_LEN
    ensures |s.procs[s.ptbr].table| == TABLE_LEN
    ensures SpawnFits(s.mem, s.procs[s.ptbr].table, StackBase(s.procs[s.ptbr].sp), StackFrames(s))
    ensures Covered(s.mem, s.procs[s.ptbr].table) && FrameZeroKept(s.mem)
    ensures CountsFit(s.mem, s.procs[s.ptbr].table, StackBase(s.procs[s.ptbr].sp))
    ensures forall i :: 0 <= i < STACK_PAGES ==>
      StackFrames(s)[i] < |s.mem.counts| && s.mem.counts[StackFrames(s)[i]] != 0
  {
    hide Linked, FreeIffUncounted, RingRefs, Refs, FrameRefs, Distinct, Maps, Conserved, TableShape, CountsFit;
    CurrentInfo(s);
    StacksCounted(s);
    ProcessCovered(s, s.ptbr);
    assert s.kernelMap[0].flags.valid;
  }

  /** Memory and tables after spawning, before any descriptor is written. */
  ghost predicate Spawns(s: Sys, thread: bool, r: Sys, pcb: seq<nat>, table: seq<PTE>) {
    && s.ptbr in s.procs && |s.stackMap| == STACK_PAGES
    && var t, base := s.procs[s.ptbr].table, StackBase(s.procs[s.ptbr].sp);
       0 <= base && SpawnFits(s.mem, t, base, StackFrames(s))
       && var m := Fork.Spawn(s.mem, t, base, StackFrames(s), s.maxPid + 1);
          && |m.table| == TABLE_LEN && pcb == m.pcb
          && table == (if thread then m.table else MarkTable(m.table, base))
          && r == Update(s, s.ptbr, m.mem, if thread then t else MarkTable(t, base))
  }

  /** With the saved context and a descriptor of its own for the child this is what spawning does. */
  lemma SpawnDescriptors(s: Sys, context: int, thread: bool, m: Sys, pcb: seq<nat>, table: seq<PTE>)
    requires Inv(s) && SpawnEnabled(s) && Spawns(s, thread, m, pcb, table)
    ensures var r, p, child := SpawnStep(s, context, thread), s.ptbr, s.maxPid + 1;
      && p in s.procs && p in m.procs && p in r.procs && child in r.procs && m.procs[p].sp == s.procs[p].sp
      && m.(procs := m.procs[p := m.procs[p].(context := context)]) ==
           s.(mem := r.mem, procs := s.procs[p := r.procs[p]])
      && r.procs[child] ==
           Proc(true, pcb, table, s.procs[p].sp, if thread then p else 0, if thread then 0 else p, context)
  {
    hide Shape, Conserved, KernelOwns, StacksOwned, CurrentMapped, Fork.Spawn, MarkTable, CountsFit;
    NewPid(s);
  }

  lemma KernelIsMapped(s: Sys)
    requires Inv(s)
    ensures |s.kernelMap| == WINDOW_BASE_PAGE && s.kernelBrk % PAGE_SIZE == 0
    ensures 1 <= IndexOfPage(s.kernelBrk) <= WINDOW_BASE_PAGE
    ensures forall i :: 0 <= i < IndexOfPage(s.kernelBrk) ==>
      s.kernelMap[i].flags.valid && s.kernelMap[i].pfn < |s.mem.counts|
    ensures FramesExist(s.mem)
  {
  }

  lemma TargetHasStack(s: Sys, target: int)
    requires Inv(s) && SwitchEnabled(s, target)
    ensures InfoMapped(s) && |s.procs[target].pcb| == STACK_PAGES
  {
  }

  lemma ExecFrames(s: Sys, l: Layout, image: seq<Page>, sp: int)
    requires Inv(s) && ExecEnabled(s, l, image, sp)
    ensures REGION1_BASE <= sp <= REGION1_LIMIT
    ensures ExecServed(s, l) <==> PagesOf(l) <= |Unloaded(s, l, sp).mem.free|
  {
    hide Linked, FreeIffUncounted, RingRefs, Refs, FrameRefs, Distinct, Maps, Conserved, KernelOwns, Unloaded, FreeTo;
    CurrentInfo(s);
  }

  lemma ReleaseOther(m: Phys, f: nat, g: nat)
    requires WellFormed(m) && f < |m.counts| && g < |m.counts| && f != g
    ensures Release(m, f).counts[g] == m.counts[g]
  {
  }

  lemma DrainedAfterSwitch(s: Sys, next: int, saved: int)
    requires Inv(s) && ExitEnabled(s, next)
    ensures Inv(DropSpace(s)) && SwitchEnabled(DropSpace(s), next) && InfoMapped(DropSpace(s))
    ensures CurrentProcess(DropSpace(s)) == s.ptbr
    ensures s.ptbr in DropSpace(s).procs
    ensures Inv(SwitchStep(DropSpace(s), next, saved)) && Drained(SwitchStep(DropSpace(s), next, saved), s.ptbr)
  {
    hide Linked, FreeIffUncounted, RingRefs, Refs, FrameRefs, Distinct, Maps, Conserved, KernelOwns, TableShape;
    DropSpaceKeepsInv(s);
    CurrentInfo(DropSpace(s));
    SwitchIsRight(DropSpace(s), next, saved);
  }
}
