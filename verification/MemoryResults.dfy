/**
  What memory operations do, said in addresses: where a store goes and when it grows the stack, which
  pages fork copies and which it shares, and what descriptors the child and its parent end up with.
 */
module MemoryResults {
  import opened Hardware
  import opened FrameList
  import opened AddressSpace
  import opened UserSpace
  import opened Fork
  import opened KernelState
  import opened KernelSteps
  import opened HeapSteps
  import opened ProcessSteps
  import opened Exec
  import opened KernelRuns
  import opened CountRange

  // ---------- stores and faults ----------

  /** The entry behind an address of region 1. */
  function Page1(address: int): int {
    (address - REGION1_BASE) / PAGE_SIZE
  }

  lemma PageOfIs(address: int)
    ensures PageOf(address) == Page1(address)
    ensures InRegion1(address) ==> 0 <= Page1(address) < TABLE_LEN
  {
  }

  /** A fault on an entry that is not valid gets a page exactly when its address is not in a page below
      that of the stack pointer. */
  lemma FaultGrowsStackIff(s: Sys, address: int)
    requires Inv(s) && REGION1_BASE <= address < REGION1_LIMIT && s.mem.free != []
    requires s.ptbr in s.procs && |s.procs[s.ptbr].table| == TABLE_LEN
    requires !s.procs[s.ptbr].table[Page1(address)].flags.valid
    ensures TrapEnabled(s, address)
    ensures var r := TrapStep(s, address);
      && s.ptbr in r.procs && |r.procs[s.ptbr].table| == TABLE_LEN
      && (r.procs[s.ptbr].table[Page1(address)].flags.valid <==> address / PAGE_SIZE >= s.procs[s.ptbr].sp / PAGE_SIZE)
      && (forall i :: 0 <= i < TABLE_LEN && i != Page1(address) ==>
            r.procs[s.ptbr].table[i] == s.procs[s.ptbr].table[i])
      && (address / PAGE_SIZE < s.procs[s.ptbr].sp / PAGE_SIZE ==> r == s)
  {
    hide Linked, FreeIffUncounted, RingRefs, Refs, FrameRefs, Distinct, Maps, Conserved, KernelOwns, StacksOwned;
    PageOfIs(address);
    assert s.procs[s.ptbr := s.procs[s.ptbr]] == s.procs;
  }

  /** The page with one word written. */
  predicate WordWritten(before: Page, after: Page, address: int, value: int) {
    var word := address % PAGE_SIZE / WORD_SIZE;
    && 0 <= word < PAGE_WORDS && after[word] == value
    && forall w :: 0 <= w < PAGE_WORDS && w != word ==> after[w] == before[w]
  }

  /** What the process sees of one page changes as `i` says, of the others not at all. */
  predicate OnlyPage(before: seq<UserPage>, after: seq<UserPage>, i: int) {
    |after| == |before| && forall j :: 0 <= j < |before| && j != i ==> after[j] == before[j]
  }

  /** What one page becomes under a store that the machine lets grow the stack or not; a fresh page holds
      what was found in its frame. */
  predicate PageStored(before: UserPage, after: UserPage, grows: bool, found: Page, address: int, value: int) {
    match before
    case Present(page, read, write, exec) =>
      if write then
        after.Present? && after == before.(page := after.page) && WordWritten(page, after.page, address, value)
      else
        after == before
    case Absent =>
      if grows then
        && after.Present? && after.read && after.write && !after.exec
        && WordWritten(found, after.page, address, value)
      else
        after == Absent
  }

  /** What the process sees of its memory before and after a store.  A page that it may write has the
      value at the word of the address and nowhere else, whether or not it is shared; an absent page
      appears, with the value, exactly when it is not below the page of the stack pointer; otherwise
      nothing changes.  Without threads no other page changes. */
  ghost predicate Stored(s: Sys, r: Sys, address: int, value: int)
    requires Inv(s) && Inv(r) && r.ptbr == s.ptbr
  {
    var before, after := Space(s.mem, s.procs[s.ptbr].table), Space(r.mem, r.procs[s.ptbr].table);
    var i, grows := Page1(address), address / PAGE_SIZE >= s.procs[s.ptbr].sp / PAGE_SIZE;
    && 0 <= i < |before| == |after|
    && (before[i].Absent? && grows ==> s.mem.free != [])
    && PageStored(before[i], after[i], grows, FreshPage(s.mem), address, value)
    && (NoSharedWriters(s) ==> OnlyPage(before, after, i))
  }

  lemma StoreSeenIs(before: seq<UserPage>, i: nat, grows: bool, address: int, value: int, found: Page)
    requires i < |before|
    ensures var after := StoreSeen(before, i, grows, WordOf(address), value, found);
      OnlyPage(before, after, i) && PageStored(before[i], after[i], grows, found, address, value)
  {
  }

  lemma StoreIsRight(s: Sys, address: int, value: int)
    requires Inv(s) && StoreEnabled(s, address)
    ensures var r := StoreStep(s, address, value); Inv(r) && r.ptbr == s.ptbr && Stored(s, r, address, value)
  {
    PageOfIs(address);
    AnyStoreKeepsInv(s, address, value);
    StoreOnePage(s, address, value);
    if NoSharedWriters(s) {
      StoreKeepsInv(s, address, value);
    }
    hide Inv, NoSharedWriters, StoreStep, StoreSeen, OnlyPage, PageStored, FreshPage;
    StoreFrames(s, address);
    var before, i := Space(s.mem, s.procs[s.ptbr].table), PageOf(address);
    StoreSeenIs(before, i, InStack(s.procs[s.ptbr].sp, address), address, value, FreshPage(s.mem));
    StoreSeenIs([before[i]], 0, InStack(s.procs[s.ptbr].sp, address), address, value, FreshPage(s.mem));
  }

  lemma StoreOnePage(s: Sys, address: int, value: int)
    requires Inv(s) && StoreEnabled(s, address) && Inv(StoreStep(s, address, value))
    ensures var r, i, grows := StoreStep(s, address, value), PageOf(address), InStack(s.procs[s.ptbr].sp, address);
      && r.ptbr == s.ptbr && |s.procs[s.ptbr].table| == |r.procs[s.ptbr].table| == TABLE_LEN
      && Space(r.mem, r.procs[s.ptbr].table)[i] ==
         StoreSeen([Space(s.mem, s.procs[s.ptbr].table)[i]], 0, grows, WordOf(address), value, FreshPage(s.mem))[0]
  {
    hide Linked, FreeIffUncounted, RingRefs, Refs, FrameRefs, Distinct, Maps, Conserved, KernelOwns, StacksOwned,
      TableShape, Store, StoreSeen;
    CurrentInfo(s);
    ProcessCovered(s, s.ptbr);
    ShapeParts(s.procs[s.ptbr].table);
    StoreReachesPage(s.mem, s.procs[s.ptbr].table, PageOf(address), InStack(s.procs[s.ptbr].sp, address),
      WordOf(address),
      value);
  }

  /** The page itself, also where threads share its frame. */
  lemma StoreReachesPage(m: Phys, t: seq<PTE>, i: nat, inStack: bool, word: nat, value: int)
    requires Covered(m, t) && i < |t| && word < PAGE_WORDS && CopyOnWriteShape(t)
    requires !Writable(t[i]) ==> TrapFits(t[i], inStack)
    requires !Writable(t[i]) && TrapNeedsFrame(m, t[i], inStack) ==> m.free != []
    ensures var (n, u) := Store(m, t, i, inStack, word, value);
      && |u| == |t| && (u[i].flags.valid ==> u[i].pfn < |n.pages|)
      && PageSeen(n, u[i]) == StoreSeen([PageSeen(m, t[i])], 0, inStack, word, value, FreshPage(m))[0]
  {
    hide Linked, FreeIffUncounted, Distinct, Refs;
    if !Writable(t[i]) {
      hide Trap;
      TrapKeepsContents(m, t, i, inStack);
      TrapKeepsCounts(m, t, i, inStack);
      TrapOpens(m, t, i, inStack);
      TrapIsLocal(m, t, i, inStack);
    }
  }

  /** Threads: a store through a writable entry is seen by whoever maps the frame. */
  lemma SharersSeeStores(s: Sys, address: int, value: int, q: int, j: nat)
    requires Inv(s) && StoreEnabled(s, address) && |s.procs[s.ptbr].table| == TABLE_LEN
    requires q in s.procs && s.procs[q].running && j < |s.procs[q].table| && s.procs[q].table[j].flags.valid
    requires Writable(s.procs[s.ptbr].table[Page1(address)])
    requires s.procs[q].table[j].pfn == s.procs[s.ptbr].table[Page1(address)].pfn
    ensures var r, f := StoreStep(s, address, value), s.procs[q].table[j].pfn;
      && q in r.procs && j < |r.procs[q].table| && r.procs[q].table[j] == s.procs[q].table[j]
      && f < |s.mem.pages| && f < |r.mem.pages| && WordWritten(s.mem.pages[f], r.mem.pages[f], address, value)
  {
    hide Linked, FreeIffUncounted, RingRefs, Refs, FrameRefs, Distinct, Maps, Conserved, KernelOwns, StacksOwned,
      TableShape;
    PageOfIs(address);
    CurrentInfo(s);
  }

  lemma StoreFrames(s: Sys, address: int)
    requires Inv(s) && StoreEnabled(s, address)
    ensures var p := s.procs[s.ptbr];
      && |p.table| == TABLE_LEN && FramesExist(s.mem) && EntriesExist(s.mem, p.table)
      && (!p.table[PageOf(address)].flags.valid && InStack(p.sp, address) ==> s.mem.free != [])
  {
    hide Linked, FreeIffUncounted, RingRefs, Refs, FrameRefs, Distinct, Maps, Conserved, KernelOwns, StacksOwned;
    CurrentInfo(s);
  }

  // ---------- fork and thread creation ----------

  /** Where the page of an entry begins. */
  function AddressOf(i: int): int {
    REGION1_BASE + i * PAGE_SIZE
  }

  /** The child has a page of its own, with the same contents. */
  ghost predicate OwnPage(m: Phys, mine: PTE, n: Phys, hers: PTE) {
    && mine.pfn < |m.counts| == |m.pages| && hers.pfn < |n.counts| == |n.pages|
    && hers.flags.valid && hers.pfn != mine.pfn && n.counts[hers.pfn] == 1 && n.pages[hers.pfn] == m.pages[mine.pfn]
  }

  /** After fork neither side writes a shared page before a fault, and what could be written is marked. */
  predicate Guarded(before: Flags, after: Flags) {
    && after.valid && !after.write && (after.cow <==> before.write || before.cow)
    && after.read == before.read && after.exec == before.exec
  }

  /** Pages that end at or below the stack pointer are shared, frame by frame, by threads with the rights
      that they had; the page of the stack pointer and those above it the child has as copies of its own. */
  ghost predicate SharesBelowStack(m: Phys, p: Proc, n: Phys, mine: Proc, hers: Proc, thread: bool) {
    && |p.table| == |mine.table| == |hers.table| == TABLE_LEN
    && (forall i :: 0 <= i < TABLE_LEN ==>
          && hers.table[i].flags.valid == mine.table[i].flags.valid == p.table[i].flags.valid
          && mine.table[i].pfn == p.table[i].pfn)
    && (forall i :: 0 <= i < TABLE_LEN && p.table[i].flags.valid && AddressOf(i + 1) <= p.sp ==>
          && hers.table[i].pfn == p.table[i].pfn && mine.table[i].flags == hers.table[i].flags
          && (if thread then mine.table[i].flags ==
                p.table[i].flags else Guarded(p.table[i].flags, mine.table[i].flags)))
    && (forall i :: 0 <= i < TABLE_LEN && p.table[i].flags.valid && AddressOf(i + 1) > p.sp ==>
          && OwnPage(m, p.table[i], n, hers.table[i])
          && hers.table[i].flags == mine.table[i].flags == p.table[i].flags)
  }

  lemma SpawnSharesBelowStack(s: Sys, context: int, thread: bool)
    requires Inv(s) && SpawnEnabled(s)
    ensures var r, p, child := SpawnStep(s, context, thread), s.ptbr, s.maxPid + 1;
      && child in r.procs && p in r.procs && p in s.procs
      && SharesBelowStack(s.mem, s.procs[p], r.mem, r.procs[p], r.procs[child], thread)
  {
    hide Inv, SpawnStep, SpawnPossible, CountsFit, SpawnedRight;
    CurrentInfo(s);
    NewPid(s);
    ProcessCovered(s, s.ptbr);
    var m := SpawnHasParts(s, context, thread);
    var t, base := s.procs[s.ptbr].table, StackBase(s.procs[s.ptbr].sp);
    SpawnedPages(s.mem, t, base, StackFrames(s), s.maxPid + 1, m);
  }

  /** Which pages of a spawned table are shared and which are copies. */
  lemma SpawnedPages(m: Phys, t: seq<PTE>, base: nat, stack: seq<nat>, child: int, r: Spawned)
    requires Covered(m, t) && SpawnFits(m, t, base, stack) && SpawnedRight(m, t, base, stack, child, r)
    ensures |r.table| == |t| && forall i :: 0 <= i < |t| && (i < base || !t[i].flags.valid) ==> r.table[i] == t[i]
    ensures forall i :: base <= i < |t| && t[i].flags.valid ==>
      r.table[i].flags == t[i].flags && OwnPage(m, t[i], r.mem, r.table[i])
  {
    hide Linked, FreeIffUncounted, Refs, FrameRefs, Distinct, Maps;
    forall i | base <= i < |t| && t[i].flags.valid
      ensures r.table[i].pfn != t[i].pfn
    {
      RefsPositive(t, i);
      RefsPositive(r.table, i);
    }
  }

  /** The descriptors after spawning: the child runs on the parent's saved context and stack pointer,
      as a child of its parent or as a thread of its leader, last in the list or right behind it. */
  ghost predicate Fathered(s: Sys, r: Sys, context: int, thread: bool) {
    var p, child := s.ptbr, s.maxPid + 1;
    && p in s.procs && child !in s.procs && r.procs.Keys == s.procs.Keys + {child} && r.maxPid == child
    && r.ptbr == s.ptbr && r.kernelMap == s.kernelMap && r.stackMap == s.stackMap && r.kernelBrk == s.kernelBrk
    && (forall q :: q in s.procs && q != p ==> r.procs[q] == s.procs[q])
    && (if thread then
          exists i :: 0 <= i < |s.ring| && s.ring[i] == p && r.ring == s.ring[..i + 1] + [child] + s.ring[i + 1..]
        else
          r.ring == s.ring + [child])
    && var c, before, after := r.procs[child], s.procs[p], r.procs[p];
       && c.running && c.sp == before.sp && c.context == context
       && (if thread then c.leader == p && c.parent == 0 else c.leader == 0 && c.parent == p)
       && after == before.(table := after.table, context := context)
  }

  lemma SpawnedDescriptors(s: Sys, context: int, thread: bool)
    requires Inv(s) && SpawnEnabled(s)
    ensures Fathered(s, SpawnStep(s, context, thread), context, thread)
  {
    hide Linked, FreeIffUncounted, RingRefs, Refs, FrameRefs, Distinct, Maps, Conserved, KernelOwns, StacksOwned,
      TableShape, Spawn, MarkTable, PlaceAfter;
    CurrentInfo(s);
    SpawnFields(s, context, thread);
    if thread {
      PlaceIsBehind(s.ring, s.ptbr);
      assert s.ring[PlaceAfter(s.ring, s.ptbr) - 1] == s.ptbr;
    }
  }

  lemma {:induction false} PlaceIsBehind(ring: seq<int>, p: int)
    requires p in ring
    ensures PlaceAfter(ring, p) > 0 && ring[PlaceAfter(ring, p) - 1] == p
  {
    if ring[0] != p {
      PlaceIsBehind(ring[1..], p);
    }
  }

  // ---------- every event of a run ----------

  /** A new process or thread, and whose its pages are. */
  ghost predicate SpawnEffect(s: Sys, r: Sys, context: int, thread: bool) {
    && Fathered(s, r, context, thread)
    && SharesBelowStack(s.mem, s.procs[s.ptbr], r.mem, r.procs[s.ptbr], r.procs[s.maxPid + 1], thread)
  }

  ghost predicate BrkEffect(s: Sys, r: Sys, address: int) {
    && r.ptbr == s.ptbr && s.ptbr in s.procs && InfoMapped(s) && InfoMapped(r)
    && Info(r, HEAP_START) == Info(s, HEAP_START)
    && var served :=
         && UpToPage(address) < DownToPage(s.procs[s.ptbr].sp) && DownToPage(address) >= Info(s, HEAP_START)
         && (UpToPage(address) - Info(s, CURRENT_BRK)) / PAGE_SIZE <= |s.mem.free|;
       Info(r, CURRENT_BRK) == if served then UpToPage(address) else Info(s, CURRENT_BRK)
  }

  predicate KernelBrkEffect(s: Sys, r: Sys, address: int) {
    && r == s.(mem := r.mem, kernelMap := r.kernelMap, kernelBrk := r.kernelBrk)
    && var served :=
         && UpToPage(address) < PageAtIndex(WINDOW_BASE_PAGE)
         && (UpToPage(address) - s.kernelBrk) / PAGE_SIZE <= |s.mem.free|;
       r.kernelBrk == if served then UpToPage(address) else s.kernelBrk
  }

  ghost predicate ExecEffect(s: Sys, r: Sys, l: Layout, image: seq<Page>, sp: int)
    requires Inv(s) && Inv(r) && |image| == TABLE_LEN
  {
    && r.ptbr == s.ptbr && r.procs[s.ptbr] == s.procs[s.ptbr].(table := r.procs[s.ptbr].table, sp := sp)
    && (ExecServed(s, l) ==> Space(r.mem, r.procs[s.ptbr].table) == Loaded(l, image))
  }

  predicate SwitchEffect(s: Sys, r: Sys, target: int, context: int) {
    && s.ptbr in s.procs && InfoMapped(r)
    && r.ptbr == target == CurrentProcess(r) && r.mem == s.mem && r.ring == s.ring
    && r.procs == s.procs[s.ptbr := s.procs[s.ptbr].(context := context)]
  }

  predicate ExitEffect(s: Sys, r: Sys, next: int) {
    InfoMapped(r) && r.ptbr == next == CurrentProcess(r) && (s.ptbr in r.procs ==> !r.procs[s.ptbr].running)
  }

  /** What an event does to the descriptors, the breaks, what its process sees, and who is current. */
  ghost predicate Effect(s: Sys, e: Event, r: Sys)
    requires Inv(s) && Inv(r)
  {
    match e
    case DoStore(address, value) => r.ptbr == s.ptbr && r.ring == s.ring && Stored(s, r, address, value)
    case DoMoveStack(sp) => s.ptbr in s.procs && r == s.(procs := s.procs[s.ptbr := s.procs[s.ptbr].(sp := sp)])
    case DoFork(context) => SpawnEffect(s, r, context, false)
    case DoThread(context) => SpawnEffect(s, r, context, true)
    case DoBrk(address) => BrkEffect(s, r, address)
    case DoKernelBrk(address) => KernelBrkEffect(s, r, address)
    case DoExec(layout, image, sp) => |image| == TABLE_LEN && ExecEffect(s, r, layout, image, sp)
    case DoSwitch(target, context) => SwitchEffect(s, r, target, context)
    case DoExit(next, _) => ExitEffect(s, r, next)
    case DoReap(child) => r == s.(procs := s.procs - {child}, ring := r.ring) && child !in r.ring
  }

  /** Each event of a run has the effect of its call. */
  lemma StepIsRight(s: Sys, e: Event)
    requires Good(s) && Enabled(s, e)
    ensures Inv(Step(s, e)) && Effect(s, e, Step(s, e))
  {
    hide Shape, Conserved, KernelOwns, StacksOwned, CurrentMapped, HeapsOk, CharCounts, NoSharedWriters, Stored,
      Fathered, Space, StoreStep, SpawnStep, BrkStep, KernelBrkStep, ExecStep, ExitStep, SwitchStep, Forget,
      StoreEnabled, BrkEnabled, KernelBrkEnabled, ExecEnabled, ExitEnabled, SpawnPossible, CountsFit, Abandoned,
      ExecServed;
    StepKeepsGood(s, e);
    CurrentInfo(s);
    CurrentInfo(Step(s, e));
    match e
    case DoStore(address, value) =>
      StoreIsRight(s, address, value);
      StoreLeaves(s, address, value);
    case DoMoveStack(sp) =>
    case DoFork(context) => SpawnedDescriptors(s, context, false); SpawnSharesBelowStack(s, context, false);
    case DoThread(context) => SpawnedDescriptors(s, context, true); SpawnSharesBelowStack(s, context, true);
    case DoBrk(address) => BrkSucceedsIff(s, address); BrkLeaves(s, address);
    case DoKernelBrk(address) => KernelBrkKeepsInv(s, address); KernelBrkLeaves(s, address);
    case DoExec(layout, image, sp) => ExecIsRight(s, layout, image, sp); ImageFits(s, layout, image, sp);
    case DoSwitch(target, context) => SwitchIsRight(s, target, context); SwitchLeaves(s, target, context);
    case DoExit(next, context) => ExitIsRight(s, next, context);
    case DoReap(child) => ForgetKeepsInv(s, child); ReapedUnlisted(s, child);
  }

  lemma ImageFits(s: Sys, l: Layout, image: seq<Page>, sp: int)
    requires Inv(s) && ExecEnabled(s, l, image, sp)
    ensures |image| == TABLE_LEN
  {
    hide Inv;
  }

  lemma StoreLeaves(s: Sys, address: int, value: int)
    requires Inv(s) && StoreEnabled(s, address)
    ensures var r := StoreStep(s, address, value); r.ptbr == s.ptbr && r.ring == s.ring
  {
    hide Inv;
  }

  lemma BrkLeaves(s: Sys, address: int)
    requires Inv(s) && HeapsOk(s)
    ensures BrkStep(s, address).0.ptbr == s.ptbr
  {
    hide Linked, FreeIffUncounted, RingRefs, Refs, FrameRefs, Distinct, Maps, Conserved, KernelOwns, StacksOwned;
  }

  lemma KernelBrkLeaves(s: Sys, address: int)
    requires Inv(s) && KernelBrkEnabled(s, address)
    ensures var r := KernelBrkStep(s, address).0;
      r == s.(mem := r.mem, kernelMap := r.kernelMap, kernelBrk := r.kernelBrk)
    ensures KernelServed(s, address) && UpToPage(address) < PageAtIndex(WINDOW_BASE_PAGE) <==>
      && UpToPage(address) < PageAtIndex(WINDOW_BASE_PAGE)
      && (UpToPage(address) - s.kernelBrk) / PAGE_SIZE <= |s.mem.free|
  {
    hide Linked, FreeIffUncounted, RingRefs, Refs, FrameRefs, Distinct, Maps, Conserved, StacksOwned;
  }

  lemma ReapedUnlisted(s: Sys, child: int)
    requires Inv(s) && child in s.procs && !s.procs[child].running
    ensures child !in Forget(s, child).ring
  {
    hide Linked, FreeIffUncounted, RingRefs, Refs, FrameRefs, Maps, Conserved, KernelOwns, StacksOwned, TableShape;
    var i := ForgetConserves(s, child);
  }
}
