/** The Brk system call (memory/brk.c) and the kernel's own break (SetKernelBrk in memory/memory.c). */
module HeapSteps {
  import opened Hardware
  import opened FrameList
  import opened AddressSpace
  import opened UserSpace
  import opened Fork
  import opened KernelState
  import opened KernelSteps

  // ---------- the user heap (setProcessBrk) ----------

  /** The heap limits that a process's info holds, and the entries between them. */
  ghost predicate HeapOk(page: Page, t: seq<PTE>) {
    && page[HEAP_START] % PAGE_SIZE == 0 && page[CURRENT_BRK] % PAGE_SIZE == 0
    && REGION1_BASE <= page[HEAP_START] <= page[CURRENT_BRK] <= REGION1_LIMIT
    && |t| == TABLE_LEN
    && forall i :: PageOf(page[HEAP_START]) <= i < PageOf(page[CURRENT_BRK]) ==> t[i].flags.valid
  }

  ghost predicate HeapsOk(s: Sys)
    requires Shape(s)
  {
    forall p :: p in s.procs && s.procs[p].running ==> HeapOk(s.mem.pages[s.procs[p].pcb[0]], s.procs[p].table)
  }

  predicate BrkGrows(s: Sys, address: int)
    requires InfoMapped(s) && s.ptbr in s.procs
  {
    && UpToPage(address) < DownToPage(s.procs[s.ptbr].sp)
    && DownToPage(address) >= Info(s, HEAP_START)
    && UpToPage(address) > Info(s, CURRENT_BRK)
  }

  predicate BrkShrinks(s: Sys, address: int)
    requires InfoMapped(s) && s.ptbr in s.procs
  {
    && UpToPage(address) < DownToPage(s.procs[s.ptbr].sp)
    && DownToPage(address) >= Info(s, HEAP_START)
    && UpToPage(address) < Info(s, CURRENT_BRK)
  }

  /** How many pages a growing Brk maps: as many as asked for, unless the frames run out. */
  function Granted(s: Sys, address: int): nat
    requires InfoMapped(s) && s.ptbr in s.procs && BrkGrows(s, address)
  {
    Served(s.mem, (UpToPage(address) - Info(s, CURRENT_BRK)) / PAGE_SIZE)
  }

  /** Growing the break over pages that are already mapped would lose their frames. */
  ghost predicate BrkEnabled(s: Sys, address: int)
    requires Inv(s) && HeapsOk(s)
  {
    CurrentInfo(s);
    BrkGrows(s, address) ==>
      var brk := PageOf(Info(s, CURRENT_BRK));
      forall i :: brk <= i < brk + Granted(s, address) && i < TABLE_LEN ==> !s.procs[s.ptbr].table[i].flags.valid
  }

  /** setProcessBrk with increaseBrk and decreaseBrk: the new state and the result. */
  ghost function BrkStep(s: Sys, address: int): (Sys, int)
    requires Inv(s) && HeapsOk(s)
  {
    CurrentInfo(s);
    var p := s.procs[s.ptbr];
    var brk, up := Info(s, CURRENT_BRK), UpToPage(address);
    if up >= DownToPage(p.sp) then (s, -1)
    else if DownToPage(address) < Info(s, HEAP_START) then (s, -1)
    else if up == brk then (s, 0)
    else if up > brk then
      var (n, u, ok) := Grow(s.mem, p.table, PageOf(brk), (up - brk) / PAGE_SIZE);
      var r := Update(s, s.ptbr, n, u);
      if ok then (SetInfo(r, CURRENT_BRK, up), 0) else (r, -1)
    else
      var (n, u) := Shrink(s.mem, p.table, PageOf(up), (brk - up) / PAGE_SIZE);
      (SetInfo(Update(s, s.ptbr, n, u), CURRENT_BRK, up), 0)
  }

  lemma LocalKeepsInfo(s: Sys, p: int, n: Phys, u: seq<PTE>, q: int)
    requires Inv(s) && p in s.procs && s.procs[p].running && q in s.procs && s.procs[q].running
    requires Local(s.mem, s.procs[p].table, n, u)
    ensures s.procs[q].pcb[0] < |n.pages| && n.pages[s.procs[q].pcb[0]] == s.mem.pages[s.procs[q].pcb[0]]
  {
    hide Linked, FreeIffUncounted, RingRefs, Refs, FrameRefs, TableShape, Distinct, Maps;
    StackHeld(s, p, q, 0);
  }

  /** A local step followed by a new break: what is left to show is about the process's own heap. */
  lemma NewBreakKeepsHeaps(s: Sys, n: Phys, u: seq<PTE>, up: int)
    requires Inv(s) && HeapsOk(s)
    requires Local(s.mem, s.procs[s.ptbr].table, n, u) && TableShape(u)
    requires InfoMapped(s) && up % PAGE_SIZE == 0 && Info(s, HEAP_START) <= up <= REGION1_LIMIT
    requires forall i :: PageOf(Info(s, HEAP_START)) <= i < PageOf(up) && 0 <= i < |u| ==> u[i].flags.valid
    ensures var m := Update(s, s.ptbr, n, u);
      && InfoMapped(m)
      && var r := SetInfo(m, CURRENT_BRK, up);
      && Inv(r) && HeapsOk(r) && Info(r, CURRENT_BRK) == up && Info(r, HEAP_START) == Info(s, HEAP_START)
  {
    hide Linked, FreeIffUncounted, RingRefs, Refs, FrameRefs, Distinct, Maps, Local;
    LocalKeepsInv(s, s.ptbr, n, u);
    var m := Update(s, s.ptbr, n, u);
    CurrentInfo(m);
    SetInfoKeepsInv(m, CURRENT_BRK, up);
    hide TableShape, CopyOnWriteShape;
    forall q | q in s.procs && s.procs[q].running
      ensures n.pages[s.procs[q].pcb[0]] == s.mem.pages[s.procs[q].pcb[0]]
    {
      LocalKeepsInfo(s, s.ptbr, n, u, q);
    }
  }

  /** A local step that leaves the entries of the heap valid. */
  lemma LocalKeepsHeaps(s: Sys, n: Phys, u: seq<PTE>)
    requires Inv(s) && HeapsOk(s) && InfoMapped(s)
    requires Local(s.mem, s.procs[s.ptbr].table, n, u) && TableShape(u)
    requires forall i :: PageOf(Info(s, HEAP_START)) <= i < PageOf(Info(s, CURRENT_BRK)) && 0 <= i < |u| ==>
      u[i].flags.valid
    ensures Inv(Update(s, s.ptbr, n, u)) && HeapsOk(Update(s, s.ptbr, n, u))
  {
    hide Linked, FreeIffUncounted, RingRefs, Refs, FrameRefs, Distinct, Maps, Local;
    LocalKeepsInv(s, s.ptbr, n, u);
    forall q | q in s.procs && s.procs[q].running
      ensures n.pages[s.procs[q].pcb[0]] == s.mem.pages[s.procs[q].pcb[0]]
    {
      LocalKeepsInfo(s, s.ptbr, n, u, q);
    }
  }

  lemma GrowKeepsShape(m: Phys, t: seq<PTE>, start: nat, n: nat)
    requires WellFormed(m) && TableShape(t) && start + n <= |t|
    ensures TableShape(Grow(m, t, start, n).1)
    ensures forall i :: 0 <= i < |t| && i < start ==> Grow(m, t, start, n).1[i] == t[i]
    ensures forall i :: 0 <= i < |t| && t[i].flags.valid ==> Grow(m, t, start, n).1[i].flags.valid
    ensures n <= |m.free| ==> forall i :: start <= i < start + n ==> Grow(m, t, start, n).1[i].flags == DATA_FLAGS
  {
    hide Linked, FreeIffUncounted, Distinct, Grow;
    GrowTakesTheFront(m, t, start, n);
  }

  /** Growing the heap: the invariant is kept whether or not the frames suffice; with success the
      entries of the heap are valid up to the new break, which lies below the stack pointer's page. */
  lemma BrkGrowKeepsInv(s: Sys, address: int)
    requires Inv(s) && HeapsOk(s) && BrkEnabled(s, address) && InfoMapped(s) && BrkGrows(s, address)
    ensures var (r, result) := BrkStep(s, address);
      && Inv(r) && HeapsOk(r) && InfoMapped(r)
      && (result == 0 <==> PageOf(UpToPage(address)) - PageOf(Info(s, CURRENT_BRK)) <= |s.mem.free|)
      && (result == 0 ==> Info(r, CURRENT_BRK) == UpToPage(address) < DownToPage(s.procs[s.ptbr].sp))
      && (result != 0 ==> result == -1 && Info(r, CURRENT_BRK) == Info(s, CURRENT_BRK))
  {
    hide Linked, FreeIffUncounted, RingRefs, Refs, FrameRefs, Distinct, Maps, Local, Grow, TableShape;
    CurrentInfo(s);
    var t := s.procs[s.ptbr].table;
    var brk, up := Info(s, CURRENT_BRK), UpToPage(address);
    var start, n := PageOf(brk), (up - brk) / PAGE_SIZE;
    ProcessCovered(s, s.ptbr);
    GrowIsLocal(s.mem, t, start, n);
    GrowKeepsShape(s.mem, t, start, n);
    GrowTakesTheFront(s.mem, t, start, n);
    var (m, u, ok) := Grow(s.mem, t, start, n);
    assert PageOf(up) == start + n;
    assert HeapOk(s.mem.pages[s.procs[s.ptbr].pcb[0]], t);
    forall i | PageOf(Info(s, HEAP_START)) <= i < start && 0 <= i < |u|
      ensures u[i].flags.valid
    {
      assert t[i].flags.valid;
    }
    if ok {
      NewBreakKeepsHeaps(s, m, u, up);
    } else {
      LocalKeepsHeaps(s, m, u);
      LocalKeepsInfo(s, s.ptbr, m, u, s.ptbr);
    }
  }

  lemma BrkShrinkKeepsInv(s: Sys, address: int)
    requires Inv(s) && HeapsOk(s) && InfoMapped(s) && BrkShrinks(s, address)
    ensures var (r, result) := BrkStep(s, address);
      && Inv(r) && HeapsOk(r) && InfoMapped(r)
      && result == 0 && Info(r, CURRENT_BRK) == UpToPage(address)
  {
    hide Linked, FreeIffUncounted, RingRefs, Refs, FrameRefs, Distinct, Maps, Local, Shrink;
    CurrentInfo(s);
    var t := s.procs[s.ptbr].table;
    var brk, up := Info(s, CURRENT_BRK), UpToPage(address);
    var start, n := PageOf(up), (brk - up) / PAGE_SIZE;
    ProcessCovered(s, s.ptbr);
    assert HeapOk(s.mem.pages[s.procs[s.ptbr].pcb[0]], t);
    assert PageOf(brk) == start + n && PageOf(Info(s, HEAP_START)) <= start;
    ShrinkIsLocal(s.mem, t, start, n);
    var (m, u) := Shrink(s.mem, t, start, n);
    NewBreakKeepsHeaps(s, m, u, up);
  }

  /** What Brk does to the caller's memory as the caller sees it: fresh writable pages from the old
      break on, or absent pages from the new break on, or nothing. */
  lemma BrkIsSeen(s: Sys, address: int)
    requires Inv(s) && HeapsOk(s) && NoSharedWriters(s) && InfoMapped(s) && BrkEnabled(s, address)
    ensures var (r, result) := BrkStep(s, address);
      var before, after := Space(s.mem, s.procs[s.ptbr].table), r.procs[s.ptbr].table;
      var brk, up := PageOf(Info(s, CURRENT_BRK)), PageOf(UpToPage(address));
      && Inv(r) && NoSharedWriters(r)
      && (!BrkGrows(s, address) && !BrkShrinks(s, address) ==> r == s)
      && (BrkGrows(s, address) ==>
            && 0 <= brk && brk + Granted(s, address) <= TABLE_LEN == |after|
            && (forall i :: brk <= i < brk + Granted(s, address) ==> after[i].pfn < |r.mem.pages|)
            && Space(r.mem, after) == GrowSeen(before, brk, Found(r.mem, after, brk, Granted(s, address))))
      && (BrkShrinks(s, address) ==>
            0 <= up <= brk <= TABLE_LEN && Space(r.mem, after) == ShrinkSeen(before, up, brk - up))
  {
    hide Linked, FreeIffUncounted, RingRefs, Refs, FrameRefs, Distinct, Maps, Local, Shrink, Grow, TableShape;
    CurrentInfo(s);
    if BrkGrows(s, address) {
      BrkGrowIsSeen(s, address);
    } else if BrkShrinks(s, address) {
      BrkShrinkIsSeen(s, address);
    }
  }

  lemma BrkGrowIsSeen(s: Sys, address: int)
    requires Inv(s) && HeapsOk(s) && NoSharedWriters(s) && InfoMapped(s) && BrkEnabled(s, address)
      && BrkGrows(s, address)
    ensures var (r, result) := BrkStep(s, address);
      var before, after := Space(s.mem, s.procs[s.ptbr].table), r.procs[s.ptbr].table;
      var start, k := PageOf(Info(s, CURRENT_BRK)), Granted(s, address);
      && Inv(r) && NoSharedWriters(r)
      && 0 <= start && start + k <= TABLE_LEN == |after|
      && (forall i :: start <= i < start + k ==> after[i].pfn < |r.mem.pages|)
      && Space(r.mem, after) == GrowSeen(before, start, Found(r.mem, after, start, k))
  {
    hide Linked, FreeIffUncounted, RingRefs, Refs, FrameRefs, Distinct, Maps, Local, Grow, TableShape;
    CurrentInfo(s);
    var t := s.procs[s.ptbr].table;
    var brk, up := Info(s, CURRENT_BRK), UpToPage(address);
    var start, n := PageOf(brk), (up - brk) / PAGE_SIZE;
    ProcessCovered(s, s.ptbr);
    ShapeParts(t);
    GrowIsLocal(s.mem, t, start, n);
    GrowKeepsShape(s.mem, t, start, n);
    GrowTakesTheFront(s.mem, t, start, n);
    GrowIsSeen(s.mem, t, start, n);
    var (m, u, ok) := Grow(s.mem, t, start, n);
    assert PageOf(up) == start + n;
    LocalKeepsNoSharedWriters(s, s.ptbr, m, u);
    if ok {
      var r := Update(s, s.ptbr, m, u);
      CurrentInfo(r);
      SetInfoKeepsInv(r, CURRENT_BRK, up);
      InfoKeepsFound(r, up, start, n);
    }
  }

  /** The info word is on no user page. */
  lemma InfoKeepsFound(s: Sys, value: int, start: nat, n: nat)
    requires Inv(s) && InfoMapped(s) && start + n <= TABLE_LEN
    requires |s.procs[s.ptbr].table| == TABLE_LEN
    requires forall i :: start <= i < start + n ==> s.procs[s.ptbr].table[i].flags.valid
    ensures forall i :: start <= i < start + n ==> s.procs[s.ptbr].table[i].pfn < |s.mem.pages|
    ensures Found(SetInfo(s, CURRENT_BRK, value).mem, s.procs[s.ptbr].table, start, n) ==
      Found(s.mem, s.procs[s.ptbr].table, start, n)
  {
    hide Linked, FreeIffUncounted, RingRefs, Refs, FrameRefs, Distinct, Maps, TableShape;
    StackNotUser(s, s.ptbr, s.ptbr, 0);
    forall i | start <= i < start + n
      ensures s.procs[s.ptbr].table[i].pfn != s.stackMap[0].pfn
    {
      RefsPositive(s.procs[s.ptbr].table, i);
    }
  }

  lemma BrkShrinkIsSeen(s: Sys, address: int)
    requires Inv(s) && HeapsOk(s) && NoSharedWriters(s) && InfoMapped(s) && BrkShrinks(s, address)
    ensures var (r, result) := BrkStep(s, address);
      var before, after := Space(s.mem, s.procs[s.ptbr].table), r.procs[s.ptbr].table;
      var start, n := PageOf(UpToPage(address)), PageOf(Info(s, CURRENT_BRK)) - PageOf(UpToPage(address));
      && Inv(r) && NoSharedWriters(r)
      && 0 <= start && 0 <= n && start + n <= TABLE_LEN
      && Space(r.mem, after) == ShrinkSeen(before, start, n)
  {
    hide Linked, FreeIffUncounted, RingRefs, Refs, FrameRefs, Distinct, Maps, Local, Shrink, HeapOk, Conserved,
      KernelOwns, StacksOwned;
    CurrentInfo(s);
    HeapLimits(s);
    var t := s.procs[s.ptbr].table;
    var brk, up := Info(s, CURRENT_BRK), UpToPage(address);
    var start, n := PageOf(up), (brk - up) / PAGE_SIZE;
    ProcessCovered(s, s.ptbr);
    assert PageOf(brk) == start + n && PageOf(Info(s, HEAP_START)) <= start;
    ShrinkIsLocal(s.mem, t, start, n);
    ShrinkIsSeen(s.mem, t, start, n);
    var (m, u) := Shrink(s.mem, t, start, n);
    LocalKeepsNoSharedWriters(s, s.ptbr, m, u);
    CurrentInfo(Update(s, s.ptbr, m, u));
    SetInfoKeepsInv(Update(s, s.ptbr, m, u), CURRENT_BRK, up);
  }

  /** Brk keeps the invariant, in success and in failure, exactly if every entry that it gets to map was
      invalid: a page left over from an earlier, deeper stack loses its frame. */
  lemma BrkKeepsInvIff(s: Sys, address: int)
    requires Inv(s) && HeapsOk(s)
    ensures Inv(BrkStep(s, address).0) <==> BrkEnabled(s, address)
  {
    hide Linked, FreeIffUncounted, RingRefs, Refs, FrameRefs, Distinct, Maps, Local, Grow, Shrink;
    CurrentInfo(s);
    if BrkShrinks(s, address) {
      BrkShrinkKeepsInv(s, address);
    } else if BrkGrows(s, address) {
      if BrkEnabled(s, address) {
        BrkGrowKeepsInv(s, address);
      } else {
        BrkGrowLeaks(s, address);
      }
    }
  }

  lemma BrkGrowLeaks(s: Sys, address: int)
    requires Inv(s) && HeapsOk(s) && InfoMapped(s) && BrkGrows(s, address) && !BrkEnabled(s, address)
    ensures !Inv(BrkStep(s, address).0)
  {
    hide Linked, FreeIffUncounted, Distinct, TableShape, Grow, StacksOwned, KernelOwns, CurrentMapped, Total;
    HeapLimits(s);
    var start, n := PageOf(Info(s, CURRENT_BRK)), (UpToPage(address) - Info(s, CURRENT_BRK)) / PAGE_SIZE;
    assert PageOf(UpToPage(address)) == start + n;
    var i :| start <= i < start + Served(s.mem, n) && s.procs[s.ptbr].table[i].flags.valid;
    GrowLeaks(s, start, n, i);
    var (m, u, _) := Grow(s.mem, s.procs[s.ptbr].table, start, n);
    SameTotals(Update(s, s.ptbr, m, u), BrkStep(s, address).0, s.procs[s.ptbr].table[i].pfn);
  }

  lemma SameTotals(s: Sys, r: Sys, f: nat)
    requires Listed(s.ring, s.procs) && r.ring == s.ring && r.procs == s.procs && r.kernelMap == s.kernelMap
    ensures Total(r, f) == Total(s, f)
  {
  }

  /** Growing over a valid entry puts the count of its frame off the sum of its uses. */
  lemma GrowLeaks(s: Sys, start: nat, n: nat, i: nat)
    requires Inv(s) && |s.procs[s.ptbr].table| == TABLE_LEN && start + n <= TABLE_LEN
    requires start <= i < start + Served(s.mem, n) && s.procs[s.ptbr].table[i].flags.valid
    ensures var (m, u, _) := Grow(s.mem, s.procs[s.ptbr].table, start, n);
      var f, r := s.procs[s.ptbr].table[i].pfn, Update(s, s.ptbr, m, u);
      Listed(r.ring, r.procs) && f < |m.counts| && m.counts[f] != Total(r, f)
  {
    hide Linked, FreeIffUncounted, RingRefs, Refs, FrameRefs, Distinct, Maps, Grow, TableShape, StacksOwned,
      KernelOwns;
    var t := s.procs[s.ptbr].table;
    var k, f := Served(s.mem, n), t[i].pfn;
    GrowBalance(s.mem, t, start, n, f);
    assert t[start..start + k][i - start] == t[i];
    RefsPositive(t[start..start + k], i - start);
    RingUpdate(s.ring, s.procs, s.ptbr, s.procs[s.ptbr].(table := Grow(s.mem, t, start, n).1), f);
    assert s.mem.counts[f] == Total(s, f);
  }

  // ---------- when the heap is exactly what its limits say ----------

  /** Between heap start and `limit` exactly the entries below the break are valid. */
  predicate HeapExact(heap: int, brk: int, t: seq<PTE>, limit: int) {
    forall i :: 0 <= i < |t| && heap <= i < limit ==> (t[i].flags.valid <==> i < brk)
  }

  /** No entry is valid between the break and the stack. */
  predicate GapClear(t: seq<PTE>, from: int, limit: int) {
    forall i :: 0 <= i < |t| && from <= i < limit ==> !t[i].flags.valid
  }

  function StackPage(s: Sys): int
    requires s.ptbr in s.procs
  {
    PageOf(DownToPage(s.procs[s.ptbr].sp))
  }

  function Max(a: int, b: int): int {
    if a >= b then a else b
  }

  /** After Brk the entries from heap start to the stack's page are valid exactly below the break, if
      and only if nothing was left between the higher of both breaks and the stack, and, when frames
      ran out, there was not even one to leave behind. */
  lemma BrkIsExactIff(s: Sys, address: int)
    requires Inv(s) && HeapsOk(s) && InfoMapped(s)
    ensures var (r, result) := BrkStep(s, address);
      && InfoMapped(r)
      && var heap, brk, now := PageOf(Info(s, HEAP_START)), PageOf(Info(s, CURRENT_BRK)), PageOf(Info(r, CURRENT_BRK));
         HeapExact(heap, now, r.procs[s.ptbr].table, StackPage(s)) <==>
           && GapClear(s.procs[s.ptbr].table, Max(brk, now), StackPage(s))
           && (BrkGrows(s, address) && result == -1 ==> s.mem.free == [])
  {
    hide HeapExact, GapClear, Inv, Shape, BrkStep, InfoMapped, Grow, Shrink, GrewTo, TookFront, TableShape;
    BrkLimits(s, address);
    BrkTable(s, address);
    HeapLimits(s);
    var t, stack, u := s.procs[s.ptbr].table, StackPage(s), BrkStep(s, address).0.procs[s.ptbr].table;
    var brk, up, heap := PageOf(Info(s, CURRENT_BRK)), PageOf(UpToPage(address)), PageOf(Info(s, HEAP_START));
    if BrkGrows(s, address) {
      GrownExactIff(t, u, heap, brk, Granted(s, address), BrkMoves(s, address), stack);
    } else if BrkShrinks(s, address) {
      ShrunkExactIff(t, u, heap, up, brk, stack);
    } else {
      ShrunkExactIff(t, u, heap, brk, brk, stack);
    }
  }

  lemma HeapLimits(s: Sys)
    requires Inv(s) && HeapsOk(s) && InfoMapped(s)
    ensures s.ptbr in s.procs && |s.procs[s.ptbr].table| == TABLE_LEN
      && REGION1_BASE <= s.procs[s.ptbr].sp <= REGION1_LIMIT
    ensures var heap, brk := Info(s, HEAP_START), Info(s, CURRENT_BRK);
      && heap % PAGE_SIZE == 0 && brk % PAGE_SIZE == 0 && REGION1_BASE <= heap <= brk <= REGION1_LIMIT
      && forall i :: PageOf(heap) <= i < PageOf(brk) ==> s.procs[s.ptbr].table[i].flags.valid
  {
    hide Linked, FreeIffUncounted, RingRefs, Refs, FrameRefs, Distinct, Maps, Conserved, KernelOwns;
    CurrentInfo(s);
    assert HeapOk(s.mem.pages[s.procs[s.ptbr].pcb[0]], s.procs[s.ptbr].table);
  }

  /** Which entries are valid after growing. */
  lemma GrownValid(m: Phys, t: seq<PTE>, start: nat, n: nat)
    requires WellFormed(m) && start + n <= |t|
    ensures var (_, u, ok) := Grow(m, t, start, n);
      && (ok <==> n <= |m.free|) && |u| == |t|
      && forall i :: 0 <= i < |t| ==> (u[i].flags.valid <==> start <= i < start + Served(m, n) || t[i].flags.valid)
  {
    hide Linked, FreeIffUncounted, Distinct, Grow;
    GrowTakesTheFront(m, t, start, n);
  }

  /** Which entries are valid after Brk. */
  lemma BrkTable(s: Sys, address: int)
    requires Inv(s) && HeapsOk(s) && InfoMapped(s)
    ensures var (r, result) := BrkStep(s, address);
      var t, brk, up := s.procs[s.ptbr].table, PageOf(Info(s, CURRENT_BRK)), PageOf(UpToPage(address));
      && s.ptbr in r.procs && |r.procs[s.ptbr].table| == |t|
      && (BrkGrows(s, address) ==> (result == -1 <==> !BrkMoves(s, address)))
      && forall i :: 0 <= i < |t| ==>
           (r.procs[s.ptbr].table[i].flags.valid <==>
             if BrkGrows(s, address) then brk <= i < brk + Granted(s, address) || t[i].flags.valid
             else if BrkShrinks(s, address) then t[i].flags.valid && !(up <= i < brk)
             else t[i].flags.valid)
  {
    hide Linked, FreeIffUncounted, RingRefs, Refs, FrameRefs, Distinct, Maps, Grow, Shrink, TableShape, Conserved,
      KernelOwns, StacksOwned, HeapOk;
    HeapLimits(s);
    if BrkGrows(s, address) {
      var brk, up := Info(s, CURRENT_BRK), UpToPage(address);
      GrownValid(s.mem, s.procs[s.ptbr].table, PageOf(brk), (up - brk) / PAGE_SIZE);
    }
  }

  /** The break that Brk leaves, and that heap start stays. */
  lemma BrkLimits(s: Sys, address: int)
    requires Inv(s) && HeapsOk(s) && InfoMapped(s)
    ensures var r := BrkStep(s, address).0;
      && InfoMapped(r) && Info(r, HEAP_START) == Info(s, HEAP_START)
      && Info(r, CURRENT_BRK) == if BrkMoves(s, address) then UpToPage(address) else Info(s, CURRENT_BRK)
  {
    hide Linked, FreeIffUncounted, RingRefs, Refs, FrameRefs, Distinct, Maps, Grow, Shrink, TableShape, KernelOwns,
      Local;
    CurrentInfo(s);
    var t := s.procs[s.ptbr].table;
    var brk, up := Info(s, CURRENT_BRK), UpToPage(address);
    assert HeapOk(s.mem.pages[s.procs[s.ptbr].pcb[0]], t);
    if BrkGrows(s, address) {
      GrowTakesTheFront(s.mem, t, PageOf(brk), (up - brk) / PAGE_SIZE);
    } else if BrkShrinks(s, address) {
      ProcessCovered(s, s.ptbr);
      ShrinkIsLocal(s.mem, t, PageOf(up), (brk - up) / PAGE_SIZE);
      var (m, u) := Shrink(s.mem, t, PageOf(up), (brk - up) / PAGE_SIZE);
      LocalKeepsInfo(s, s.ptbr, m, u, s.ptbr);
    }
  }

  /** What Brk returns, for every address and however many frames are free: success exactly when the
      rounded address lies below the stack page, its page is not below heap start, and the pages beyond
      the current break are not more than the free frames; and the break moves exactly then. */
  lemma BrkSucceedsIff(s: Sys, address: int)
    requires Inv(s) && HeapsOk(s) && InfoMapped(s)
    ensures var (r, result) := BrkStep(s, address);
      var sp, heap, brk := s.procs[s.ptbr].sp, Info(s, HEAP_START), Info(s, CURRENT_BRK);
      && (result == 0 <==>
            && UpToPage(address) < DownToPage(sp) && DownToPage(address) >= heap
            && (UpToPage(address) - brk) / PAGE_SIZE <= |s.mem.free|)
      && (result != 0 ==> result == -1)
      && InfoMapped(r) && Info(r, HEAP_START) == heap
      && Info(r, CURRENT_BRK) == (if result == 0 then UpToPage(address) else brk)
      && (UpToPage(address) >= DownToPage(sp) || DownToPage(address) < heap || UpToPage(address) == brk ==> r == s)
  {
    hide Linked, FreeIffUncounted, RingRefs, Refs, FrameRefs, Distinct, Maps, Grow, Shrink, TableShape, Conserved,
      KernelOwns, StacksOwned, HeapOk;
    HeapLimits(s);
    BrkLimits(s, address);
    BrkTable(s, address);
  }

  lemma GrownExactIff(t: seq<PTE>, u: seq<PTE>, heap: nat, brk: nat, k: nat, moves: bool, stack: int)
    requires |u| == |t| && heap <= brk && brk + k < |t| && brk + k <= stack && brk < stack
    requires forall i :: heap <= i < brk ==> t[i].flags.valid
    requires forall i :: 0 <= i < |t| ==> (u[i].flags.valid <==> brk <= i < brk + k || t[i].flags.valid)
    ensures var now := if moves then brk + k else brk;
      HeapExact(heap, now, u, stack) <==> GapClear(t, now, stack) && (!moves ==> k == 0)
  {
    if !moves && k > 0 {
      assert u[brk].flags.valid;
    }
  }

  lemma ShrunkExactIff(t: seq<PTE>, u: seq<PTE>, heap: nat, now: nat, brk: nat, stack: int)
    requires |u| == |t| && heap <= now <= brk <= |t|
    requires forall i :: heap <= i < brk ==> t[i].flags.valid
    requires forall i :: 0 <= i < |t| ==> (u[i].flags.valid <==> t[i].flags.valid && !(now <= i < brk))
    ensures HeapExact(heap, now, u, stack) <==> GapClear(t, brk, stack)
  {
  }

  /** The break moves when Brk succeeds in growing or shrinks. */
  predicate BrkMoves(s: Sys, address: int)
    requires InfoMapped(s) && s.ptbr in s.procs
  {
    BrkShrinks(s, address) ||
    (BrkGrows(s, address) && (UpToPage(address) - Info(s, CURRENT_BRK)) / PAGE_SIZE <= |s.mem.free|)
  }

  // ---------- the kernel's own break ----------

  /** SetKernelBrk, increaseKernelBrk and decreaseKernelBrk once virtual memory is on. */
  ghost function KernelBrkStep(s: Sys, address: int): (Sys, int)
    requires Inv(s) && UpToPage(address) >= 0
  {
    var up := UpToPage(address);
    if up >= PageAtIndex(WINDOW_BASE_PAGE) then (s, -1)
    else if up == s.kernelBrk then (s, 0)
    else if up > s.kernelBrk then
      var (n, u, ok) := Grow(s.mem, s.kernelMap, IndexOfPage(s.kernelBrk), (up - s.kernelBrk) / PAGE_SIZE);
      if ok then (s.(mem := n, kernelMap := u, kernelBrk := up), 0) else (s.(mem := n, kernelMap := u), -1)
    else
      var (n, u) := Shrink(s.mem, s.kernelMap, IndexOfPage(up), (s.kernelBrk - up) / PAGE_SIZE);
      (s.(mem := n, kernelMap := u, kernelBrk := up), 0)
  }

  /** The frames suffice, or the address is refused before any is asked for. */
  predicate KernelServed(s: Sys, address: int) {
    UpToPage(address) >= PageAtIndex(WINDOW_BASE_PAGE) || (UpToPage(address) - s.kernelBrk) / PAGE_SIZE <= |s.mem.free|
  }

  /** malloc never gives back the kernel's first page; and a growth that cannot be served leaves pages
      above the break, unless there was not one frame. */
  ghost predicate KernelBrkEnabled(s: Sys, address: int)
    requires Inv(s)
  {
    UpToPage(address) >= PAGE_SIZE && (KernelServed(s, address) || s.mem.free == [])
  }

  lemma KernelCovered(s: Sys)
    requires Inv(s)
    ensures Covered(s.mem, s.kernelMap)
  {
    hide Linked, FreeIffUncounted, RingRefs, Refs, FrameRefs, Distinct, Maps;
  }

  /** Whatever some process refers to is held outside the kernel's map. */
  lemma ProcessHeld(s: Sys, p: int, f: nat)
    requires Inv(s) && p in s.procs && s.procs[p].running && f < |s.mem.counts|
    requires Refs(s.procs[p].table, f) > 0 || FrameRefs(s.procs[p].pcb, f) > 0
    ensures HeldOutside(s.mem, s.kernelMap, f)
  {
    hide Linked, FreeIffUncounted, RingRefs, Refs, FrameRefs, Distinct, Maps;
    RingAtLeastOne(s.ring, s.procs, p, f);
  }

  /** The kernel changing its own map is local as well. */
  lemma KernelLocalKeepsInv(s: Sys, n: Phys, u: seq<PTE>, brk: int)
    requires Inv(s) && Local(s.mem, s.kernelMap, n, u) && KernelMapRight(n, u, brk)
    requires brk % PAGE_SIZE == 0 && 1 <= IndexOfPage(brk) <= WINDOW_BASE_PAGE
    ensures var r := s.(mem := n, kernelMap := u, kernelBrk := brk);
      && Inv(r)
      && forall p :: p in s.procs && s.procs[p].running ==>
           && Space(n, s.procs[p].table) == Space(s.mem, s.procs[p].table)
           && n.pages[s.procs[p].pcb[0]] == s.mem.pages[s.procs[p].pcb[0]]
           && (SoleWriter(s.mem, s.procs[p].table) ==> SoleWriter(n, s.procs[p].table))
  {
    hide Linked, FreeIffUncounted, RingRefs, Refs, FrameRefs, Distinct, Maps, TableShape;
    var r := s.(mem := n, kernelMap := u, kernelBrk := brk);
    assert Shape(r) && Conserved(r);
    forall p | p in s.procs && s.procs[p].running
      ensures Space(n, s.procs[p].table) == Space(s.mem, s.procs[p].table)
      ensures SoleWriter(s.mem, s.procs[p].table) ==> SoleWriter(n, s.procs[p].table)
    {
      forall i | 0 <= i < |s.procs[p].table| && s.procs[p].table[i].flags.valid
        ensures HeldOutside(s.mem, s.kernelMap, s.procs[p].table[i].pfn)
      {
        RefsPositive(s.procs[p].table, i);
        ProcessHeld(s, p, s.procs[p].table[i].pfn);
      }
    }
    forall p, j: nat | p in s.procs && s.procs[p].running && j < STACK_PAGES
      ensures HeldOutside(s.mem, s.kernelMap, s.procs[p].pcb[j])
    {
      FrameRefsOfTwo(s.procs[p].pcb[0], s.procs[p].pcb[1], s.procs[p].pcb[j]);
      assert s.procs[p].pcb == [s.procs[p].pcb[0], s.procs[p].pcb[1]];
      ProcessHeld(s, p, s.procs[p].pcb[j]);
    }
  }

  /** The kernel's own heap moves and no process notices. */
  lemma KernelBrkKeepsInv(s: Sys, address: int)
    requires Inv(s) && KernelBrkEnabled(s, address)
    ensures var (r, result) := KernelBrkStep(s, address);
      && Inv(r)
      && (result == 0 <==> UpToPage(address) < PageAtIndex(WINDOW_BASE_PAGE) && KernelServed(s, address))
      && (result == 0 ==> r.kernelBrk == UpToPage(address))
      && (result != 0 ==> result == -1 && r == s)
      && r.procs == s.procs && r.ring == s.ring && r.ptbr == s.ptbr
      && forall p :: p in s.procs && s.procs[p].running ==>
           && Space(r.mem, s.procs[p].table) == Space(s.mem, s.procs[p].table)
           && r.mem.pages[s.procs[p].pcb[0]] == s.mem.pages[s.procs[p].pcb[0]]
           && (SoleWriter(s.mem, s.procs[p].table) ==> SoleWriter(r.mem, s.procs[p].table))
  {
    hide Linked, FreeIffUncounted, RingRefs, Refs, FrameRefs, Distinct, Maps, Local, TableShape, Grow, Shrink;
    var up := UpToPage(address);
    if PageAtIndex(WINDOW_BASE_PAGE) > up > s.kernelBrk {
      if KernelServed(s, address) {
        KernelGrowIsLocal(s, up);
      } else {
        GrowNothing(s.mem, s.kernelMap, IndexOfPage(s.kernelBrk), (up - s.kernelBrk) / PAGE_SIZE);
      }
    } else if up < s.kernelBrk {
      KernelShrinkIsLocal(s, up);
    }
    if up < PageAtIndex(WINDOW_BASE_PAGE) && up != s.kernelBrk && KernelServed(s, address) {
      var r := KernelBrkStep(s, address).0;
      KernelLocalKeepsInv(s, r.mem, r.kernelMap, up);
    }
  }

  /** SetKernelBrk keeps the invariant exactly when it is served or there is not one frame: otherwise the
      pages that it got stay mapped above the break. */
  lemma KernelBrkKeepsInvIff(s: Sys, address: int)
    requires Inv(s) && UpToPage(address) >= PAGE_SIZE
    ensures Inv(KernelBrkStep(s, address).0) <==> KernelServed(s, address) || s.mem.free == []
  {
    hide Linked, FreeIffUncounted, RingRefs, Refs, FrameRefs, Distinct, Maps, Local, TableShape, Grow, Shrink,
      Conserved, StacksOwned;
    if KernelBrkEnabled(s, address) {
      KernelBrkKeepsInv(s, address);
    } else {
      var start, n := IndexOfPage(s.kernelBrk), (UpToPage(address) - s.kernelBrk) / PAGE_SIZE;
      GrowTakesTheFront(s.mem, s.kernelMap, start, n);
      var r := KernelBrkStep(s, address).0;
      assert r.kernelMap[start].flags.valid && r.kernelBrk == s.kernelBrk;
    }
  }

  /** What KernelLocalKeepsInv asks of a new map. */
  ghost predicate KernelMapRight(n: Phys, u: seq<PTE>, brk: int) {
    && |u| == WINDOW_BASE_PAGE && u[0].pfn == 0
    && forall i :: 0 <= i < WINDOW_BASE_PAGE ==>
         && (u[i].flags.valid <==> i < IndexOfPage(brk))
         && (u[i].flags.valid ==> u[i].pfn < |n.counts| && n.counts[u[i].pfn] == 1)
  }

  lemma KernelGrowIsLocal(s: Sys, up: int)
    requires Inv(s) && up % PAGE_SIZE == 0 && s.kernelBrk < up <= PageAtIndex(WINDOW_BASE_PAGE)
    requires (up - s.kernelBrk) / PAGE_SIZE <= |s.mem.free|
    ensures var (n, u, ok) := Grow(s.mem, s.kernelMap, IndexOfPage(s.kernelBrk), (up - s.kernelBrk) / PAGE_SIZE);
      ok && Local(s.mem, s.kernelMap, n, u) && KernelMapRight(n, u, up)
  {
    hide Linked, FreeIffUncounted, RingRefs, Refs, FrameRefs, Distinct, Maps, Local, TableShape, Grow, Conserved,
      StacksOwned;
    KernelCovered(s);
    var start, n := IndexOfPage(s.kernelBrk), (up - s.kernelBrk) / PAGE_SIZE;
    GrowTakesTheFront(s.mem, s.kernelMap, start, n);
    GrowIsLocal(s.mem, s.kernelMap, start, n);
    KernelEntriesCounted(s);
    var (m, u, ok) := Grow(s.mem, s.kernelMap, start, n);
    forall i | start <= i < start + n
      ensures u[i] == PTE(DATA_FLAGS, s.mem.free[i - start]) && m.counts[u[i].pfn] == 1
    {
    }
  }

  lemma KernelShrinkIsLocal(s: Sys, up: int)
    requires Inv(s) && up % PAGE_SIZE == 0 && PAGE_SIZE <= up < s.kernelBrk
    ensures var (n, u) := Shrink(s.mem, s.kernelMap, IndexOfPage(up), (s.kernelBrk - up) / PAGE_SIZE);
      Local(s.mem, s.kernelMap, n, u) && KernelMapRight(n, u, up)
  {
    hide Linked, FreeIffUncounted, RingRefs, Refs, FrameRefs, Distinct, Maps, Local, TableShape, Shrink, Conserved,
      StacksOwned;
    KernelCovered(s);
    var start, n := IndexOfPage(up), (s.kernelBrk - up) / PAGE_SIZE;
    ShrinkIsLocal(s.mem, s.kernelMap, start, n);
    var (m, u) := Shrink(s.mem, s.kernelMap, start, n);
    LocalSizes(s.mem, s.kernelMap, m, u);
    ShrinkKeepsOnes(s.mem, s.kernelMap, m, u);
  }

  lemma KernelEntriesCounted(s: Sys)
    requires Inv(s)
    ensures forall i :: 0 <= i < WINDOW_BASE_PAGE && s.kernelMap[i].flags.valid ==>
      s.mem.counts[s.kernelMap[i].pfn] == 1
  {
  }

  /** Entries that stay keep their count of 1. */
  lemma ShrinkKeepsOnes(m: Phys, t: seq<PTE>, n: Phys, u: seq<PTE>)
    requires Covered(m, t) && Local(m, t, n, u)
    requires forall i :: 0 <= i < |t| ==> u[i] == t[i] || !u[i].flags.valid
    ensures forall i :: 0 <= i < |t| && u[i].flags.valid && m.counts[t[i].pfn] == 1 ==> n.counts[u[i].pfn] == 1
  {
    hide Linked, FreeIffUncounted, Refs, Distinct, Maps;
    forall i | 0 <= i < |t| && u[i].flags.valid && m.counts[t[i].pfn] == 1
      ensures n.counts[u[i].pfn] == 1
    {
      RefsPositive(u, i);
      RefsOfPart(t, u, t[i].pfn);
    }
  }
}
