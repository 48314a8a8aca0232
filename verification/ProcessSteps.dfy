/** Exec, context switches, fork, thread creation and exit on the whole memory state. */
module ProcessSteps {
  import opened Hardware
  import opened FrameList
  import opened AddressSpace
  import opened UserSpace
  import opened Exec
  import opened Fork
  import opened KernelState
  import opened KernelSteps
  import opened HeapSteps
  import Ring

  // ---------- switching (switchKernelContext) ----------

  ghost predicate SwitchEnabled(s: Sys, target: int)
    requires Inv(s)
  {
    target in s.procs && s.procs[target].running
  }

  /** Saves the context of the current process and maps the target's kernel stack and table. */
  function SwitchStep(s: Sys, target: int, context: int): (r: Sys)
    requires InfoMapped(s) && CurrentProcess(s) in s.procs
    requires target in s.procs && |s.procs[target].pcb| == STACK_PAGES
  {
    var p := CurrentProcess(s);
    s.(procs := s.procs[p := s.procs[p].(context := context)],
       stackMap := [PTE(DATA_FLAGS, s.procs[target].pcb[0]), PTE(DATA_FLAGS, s.procs[target].pcb[1])],
       ptbr := target)
  }

  /** After a switch getCurrentProcess() is the target, the caller's context is saved, and every
      process's memory is as it was. */
  lemma SwitchIsRight(s: Sys, target: int, context: int)
    requires Inv(s) && SwitchEnabled(s, target)
    ensures InfoMapped(s) && CurrentProcess(s) == s.ptbr
    ensures var r := SwitchStep(s, target, context);
      && Inv(r)
      && CurrentProcess(r) == r.ptbr == target
      && r.procs[s.ptbr].context == context
      && r.mem == s.mem && r.ring == s.ring && r.procs.Keys == s.procs.Keys
      && forall p :: p in s.procs ==> r.procs[p].(context := 0) == s.procs[p].(context := 0)
  {
    hide Linked, FreeIffUncounted, RingRefs, Refs, FrameRefs, Distinct, Maps, TableShape;
    CurrentIsMapped(s);
    var r := SwitchStep(s, target, context);
    assert Shape(r);
    forall f | 0 <= f < |s.mem.counts|
      ensures Total(r, f) == Total(s, f)
    {
      RingSame(s.ring, s.procs, r.procs, f);
    }
    CurrentIsMapped(r);
  }

  lemma SwitchLeaves(s: Sys, target: int, context: int)
    requires Inv(s) && SwitchEnabled(s, target) && InfoMapped(s) && CurrentProcess(s) == s.ptbr
    ensures SwitchStep(s, target, context).procs == s.procs[s.ptbr := s.procs[s.ptbr].(context := context)]
  {
  }

  // ---------- dropping an address space (freeAddressSpace) ----------

  ghost function DropSpace(s: Sys): Sys
    requires Inv(s)
  {
    var t := s.procs[s.ptbr].table;
    Update(s, s.ptbr, FreeTo(s.mem, t, |t|), ClearedTo(t, |t|))
  }

  lemma DropSpaceKeepsInv(s: Sys)
    requires Inv(s)
    ensures var r := DropSpace(s);
      && Inv(r) && r.ptbr == s.ptbr && r.ring == s.ring && r.procs.Keys == s.procs.Keys
      && r.procs[s.ptbr] == s.procs[s.ptbr].(table := ClearedTo(s.procs[s.ptbr].table, |s.procs[s.ptbr].table|))
      && (NoSharedWriters(s) ==> NoSharedWriters(r))
      && forall q :: q in s.procs && q != s.ptbr ==>
           && r.procs[q] == s.procs[q]
           && (s.procs[q].running ==>
                 && Space(r.mem, s.procs[q].table) == Space(s.mem, s.procs[q].table)
                 && r.mem.pages[s.procs[q].pcb[0]] == s.mem.pages[s.procs[q].pcb[0]])
  {
    hide Linked, FreeIffUncounted, FrameRefs, Refs, RingRefs, Maps, Distinct, Local, Space;
    var t := s.procs[s.ptbr].table;
    var n, u := FreeTo(s.mem, t, |t|), ClearedTo(t, |t|);
    ProcessCovered(s, s.ptbr);
    FreeIsLocal(s.mem, t, |t|);
    LocalKeepsInv(s, s.ptbr, n, u);
    if NoSharedWriters(s) {
      LocalKeepsNoSharedWriters(s, s.ptbr, n, u);
    }
    forall q | q in s.procs && q != s.ptbr && s.procs[q].running
      ensures Space(n, s.procs[q].table) == Space(s.mem, s.procs[q].table)
      ensures n.pages[s.procs[q].pcb[0]] == s.mem.pages[s.procs[q].pcb[0]]
    {
      LocalLeavesOthers(s, s.ptbr, n, u, q);
      LocalKeepsInfo(s, s.ptbr, n, u, q);
    }
  }

  // ---------- exec (loadProgram) ----------

  ghost predicate ExecEnabled(s: Sys, l: Layout, image: seq<Page>, sp: int)
    requires Inv(s)
  {
    var p := s.procs[s.ptbr];
    && p.leader == 0
    && |image| == TABLE_LEN && LayoutFits(l)
    && REGION1_BASE <= sp <= REGION1_LIMIT
    && REGION1_LIMIT - DownToPage(sp) == PageAtIndex(l.stackPages)
  }

  /** Whether the frames that are free once the old program is gone suffice for the new one. */
  ghost predicate ExecServed(s: Sys, l: Layout)
    requires Inv(s)
  {
    PagesOf(l) <= |FreeTo(s.mem, s.procs[s.ptbr].table, |s.procs[s.ptbr].table|).free|
  }

  function HeapStart(l: Layout): int {
    REGION1_BASE + PageAtIndex(l.data + l.dataPages)
  }

  /** What is left when the frames run out stays mapped, and the process goes on with it. */
  ghost function ExecStep(s: Sys, l: Layout, image: seq<Page>, sp: int): Sys
    requires Inv(s) && ExecEnabled(s, l, image, sp)
  {
    var a := Unloaded(s, l, sp);
    var (n, u, _) := Load(a.mem, a.procs[s.ptbr].table, l, image);
    Update(a, s.ptbr, n, u)
  }

  /** After freeAddressSpace: no page is mapped, and the process info has the new program's limits. */
  ghost function Unloaded(s: Sys, l: Layout, sp: int): (r: Sys)
    requires Inv(s) && REGION1_BASE <= sp <= REGION1_LIMIT
    ensures Inv(r) && InfoMapped(r) && r.ptbr == s.ptbr && Empty(r.procs[r.ptbr].table)
    ensures r.mem.free == FreeTo(s.mem, s.procs[s.ptbr].table, |s.procs[s.ptbr].table|).free
  {
    UnloadedIsRight(s, l, sp);
    SetLimits(WithStack(DropSpace(s), sp), l)
  }

  function WithStack(s: Sys, sp: int): Sys
    requires s.ptbr in s.procs
  {
    s.(procs := s.procs[s.ptbr := s.procs[s.ptbr].(sp := sp)])
  }

  function SetLimits(s: Sys, l: Layout): Sys
    requires InfoMapped(s)
  {
    SetInfo(SetInfo(SetInfo(s,
      DATA_START, REGION1_BASE + PageAtIndex(l.data)),
      HEAP_START, HeapStart(l)),
      CURRENT_BRK, HeapStart(l))
  }

  lemma UnloadedIsRight(s: Sys, l: Layout, sp: int)
    requires Inv(s) && REGION1_BASE <= sp <= REGION1_LIMIT
    ensures InfoMapped(DropSpace(s)) && s.ptbr in DropSpace(s).procs && InfoMapped(WithStack(DropSpace(s), sp))
    ensures var r := SetLimits(WithStack(DropSpace(s), sp), l);
      && Inv(r) && InfoMapped(r) && r.ptbr == s.ptbr && r.ring == s.ring && r.procs.Keys == s.procs.Keys
      && Empty(r.procs[r.ptbr].table)
      && r.procs[r.ptbr] == s.procs[s.ptbr].(table := r.procs[r.ptbr].table, sp := sp)
      && r.mem.free == FreeTo(s.mem, s.procs[s.ptbr].table, |s.procs[s.ptbr].table|).free
      && Info(r, HEAP_START) == HeapStart(l) && Info(r, CURRENT_BRK) == HeapStart(l)
      && (NoSharedWriters(s) ==> NoSharedWriters(r))
      && (forall q :: q in s.procs && q != s.ptbr ==> r.procs[q] == s.procs[q])
      && forall q :: q in s.procs && s.procs[q].running && q != s.ptbr ==>
           && Space(r.mem, s.procs[q].table) == Space(s.mem, s.procs[q].table)
           && r.mem.pages[s.procs[q].pcb[0]] == s.mem.pages[s.procs[q].pcb[0]]
  {
    hide Shape, Conserved, KernelOwns, StacksOwned, CurrentMapped, NoSharedWriters, Space;
    DropSpaceKeepsInv(s);
    var d := DropSpace(s);
    CurrentInfo(d);
    MoveStackKeepsInv(d, sp);
    var w := WithStack(d, sp);
    CurrentInfo(w);
    SetThreeKeepInv(w, REGION1_BASE + PageAtIndex(l.data), HeapStart(l));
  }

  lemma LoadKeepsShape(m: Phys, t: seq<PTE>, l: Layout, image: seq<Page>)
    requires Covered(m, t) && Empty(t) && |t| == TABLE_LEN == |image| && LayoutFits(l)
    ensures TableShape(Load(m, t, l, image).1)
  {
    hide Linked, FreeIffUncounted, Distinct, Refs, Local, FillTo, MapSegments;
    MapSegmentsIsLocal(m, t, l);
  }

  /** Exec replaces what its caller sees by the program and nothing else; the heap starts empty.  When
      the frames run out the invariant is kept as well, and no page of the old program is left. */
  lemma ExecIsRight(s: Sys, l: Layout, image: seq<Page>, sp: int)
    requires Inv(s) && ExecEnabled(s, l, image, sp)
    ensures var r := ExecStep(s, l, image, sp);
      && Inv(r)
      && r.procs.Keys == s.procs.Keys && r.ptbr == s.ptbr && r.ring == s.ring
      && (NoSharedWriters(s) ==> NoSharedWriters(r))
      && (if ExecServed(s, l) then Space(r.mem, r.procs[s.ptbr].table) == Loaded(l, image)
          else Abandoned(l, Space(r.mem, r.procs[s.ptbr].table)))
      && HeapOk(r.mem.pages[r.procs[s.ptbr].pcb[0]], r.procs[s.ptbr].table)
      && r.mem.pages[r.procs[s.ptbr].pcb[0]][HEAP_START] == r.mem.pages[r.procs[s.ptbr].pcb[0]][CURRENT_BRK] ==
           REGION1_BASE + PageAtIndex(l.data + l.dataPages)
      && r.mem.pages[r.procs[s.ptbr].pcb[0]][DATA_START] == REGION1_BASE + PageAtIndex(l.data)
      && r.procs[s.ptbr] == s.procs[s.ptbr].(table := r.procs[s.ptbr].table, sp := sp)
      && (forall q :: q in s.procs && q != s.ptbr ==> r.procs[q] == s.procs[q])
      && forall q :: q in s.procs && s.procs[q].running && q != s.ptbr ==>
           && Space(r.mem, s.procs[q].table) == Space(s.mem, s.procs[q].table)
           && r.mem.pages[s.procs[q].pcb[0]] == s.mem.pages[s.procs[q].pcb[0]]
  {
    hide Linked, FreeIffUncounted, RingRefs, Refs, FrameRefs, Distinct, Maps, TableShape, Local, Load, Conserved,
      KernelOwns, HeapOk, HeapStart, Abandoned;
    UnloadedIsRight(s, l, sp);
    var a, p := Unloaded(s, l, sp), s.ptbr;
    var t := a.procs[p].table;
    ProcessCovered(a, p);
    ShapeParts(t);
    CurrentInfo(a);
    LoadIsSeen(a.mem, t, l, image);
    LoadKeepsShape(a.mem, t, l, image);
    var (n, u, _) := Load(a.mem, t, l, image);
    LocalKeepsInv(a, p, n, u);
    if NoSharedWriters(s) {
      LocalKeepsNoSharedWriters(a, p, n, u);
    }
    LocalKeepsInfo(a, p, n, u, p);
    ShapeParts(u);
    EmptyHeapIsOk(n.pages[a.procs[p].pcb[0]], u, l);
    HeapStartIs(l);
    forall q | q in s.procs && s.procs[q].running && q != p
      ensures Space(n, s.procs[q].table) == Space(a.mem, s.procs[q].table)
      ensures n.pages[s.procs[q].pcb[0]] == a.mem.pages[s.procs[q].pcb[0]]
    {
      LocalLeavesOthers(a, p, n, u, q);
      LocalKeepsInfo(a, p, n, u, q);
    }
  }

  lemma HeapStartIs(l: Layout)
    ensures HeapStart(l) == REGION1_BASE + PageAtIndex(l.data + l.dataPages)
  {
  }

  lemma EmptyHeapIsOk(page: Page, t: seq<PTE>, l: Layout)
    requires page[HEAP_START] == page[CURRENT_BRK] == HeapStart(l) && LayoutFits(l) && |t| == TABLE_LEN
    ensures HeapOk(page, t)
  {
  }

  /** The user's stack pointer is the user's business. */
  lemma MoveStackKeepsInv(s: Sys, sp: int)
    requires Inv(s) && REGION1_BASE <= sp <= REGION1_LIMIT
    ensures var r := WithStack(s, sp); Inv(r) && (NoSharedWriters(s) ==> NoSharedWriters(r))
  {
    hide Linked, FreeIffUncounted, RingRefs, Refs, FrameRefs, Distinct, Maps, TableShape;
    var r := s.(procs := s.procs[s.ptbr := s.procs[s.ptbr].(sp := sp)]);
    assert Shape(r);
    forall f | 0 <= f < |s.mem.counts|
      ensures Total(r, f) == Total(s, f)
    {
      RingSame(s.ring, s.procs, r.procs, f);
    }
  }

  lemma SetThreeKeepInv(s: Sys, data: int, heap: int)
    requires Inv(s) && InfoMapped(s)
    ensures var r := SetInfo(SetInfo(SetInfo(s, DATA_START, data), HEAP_START, heap), CURRENT_BRK, heap);
      && Inv(r) && InfoMapped(r)
      && (NoSharedWriters(s) ==> NoSharedWriters(r))
      && Info(r, HEAP_START) == heap && Info(r, CURRENT_BRK) == heap
      && forall p :: p in s.procs && s.procs[p].running ==>
           && Space(r.mem, s.procs[p].table) == Space(s.mem, s.procs[p].table)
           && (p != s.ptbr ==> r.mem.pages[s.procs[p].pcb[0]] == s.mem.pages[s.procs[p].pcb[0]])
  {
    hide Inv, NoSharedWriters;
    SetOneKeepsInv(s, DATA_START, data);
    var a := SetInfo(s, DATA_START, data);
    SetOneKeepsInv(a, HEAP_START, heap);
    var b := SetInfo(a, HEAP_START, heap);
    SetOneKeepsInv(b, CURRENT_BRK, heap);
  }

  lemma SetOneKeepsInv(s: Sys, word: nat, value: int)
    requires Inv(s) && InfoMapped(s) && word < INFO_WORDS && word != DESCRIPTOR
    ensures Shape(s)
    ensures var r := SetInfo(s, word, value);
      && Inv(r) && Shape(r) && InfoMapped(r)
      && (NoSharedWriters(s) ==> NoSharedWriters(r))
      && (forall w: nat :: w < INFO_WORDS ==> Info(r, w) == if w == word then value else Info(s, w))
      && (forall p :: p in s.procs && s.procs[p].running ==>
           && Space(r.mem, s.procs[p].table) == Space(s.mem, s.procs[p].table)
           && s.procs[p].pcb[0] < |s.mem.pages| == |r.mem.pages| && |s.procs[p].pcb| == STACK_PAGES
           && (p != s.ptbr ==> r.mem.pages[s.procs[p].pcb[0]] == s.mem.pages[s.procs[p].pcb[0]]))
  {
    hide Linked, FreeIffUncounted, RingRefs, Refs, FrameRefs, Distinct, Maps, TableShape;
    SetInfoKeepsInv(s, word, value);
  }

  // ---------- fork and createThread ----------

  /** setCopyOnWrite without the counts: entries below the stack page stop being writable. */
  function MarkTable(t: seq<PTE>, base: nat): (r: seq<PTE>)
    requires base <= |t|
    ensures |r| == |t|
    ensures forall i :: 0 <= i < |t| ==>
      r[i] == if i < base && t[i].flags.valid then PTE(MarkCopyOnWrite(OptionsOf(t[i])), t[i].pfn) else t[i]
  {
    seq(|t|, i requires 0 <= i < |t| =>
      if i < base && t[i].flags.valid then PTE(MarkCopyOnWrite(OptionsOf(t[i])), t[i].pfn) else t[i])
  }

  /** The first page of the user stack, as the code finds it from the stack pointer. */
  function StackBase(sp: int): int {
    IndexOfPage(sp - REGION1_BASE)
  }

  function StackFrames(s: Sys): seq<nat>
    requires |s.stackMap| == STACK_PAGES
  {
    [s.stackMap[0].pfn, s.stackMap[1].pfn]
  }

  /** The caller is no thread and the frames suffice, which the code does not check. */
  ghost predicate SpawnPossible(s: Sys)
    requires Inv(s)
  {
    var p := s.procs[s.ptbr];
    p.leader == 0 && STACK_PAGES + ValidIn(p.table, StackBase(p.sp), TABLE_LEN) <= |s.mem.free|
  }

  /** No count of a page that is about to be shared overflows. */
  ghost predicate SpawnEnabled(s: Sys)
    requires Inv(s)
  {
    SpawnPossible(s) && CountsFit(s.mem, s.procs[s.ptbr].table, StackBase(s.procs[s.ptbr].sp))
  }

  /** Where insertNode puts a thread: right behind its leader. */
  function PlaceAfter(ring: seq<int>, p: int): (i: nat)
    ensures i <= |ring|
  {
    if ring == [] || ring[0] == p then (if ring == [] then 0 else 1) else 1 + PlaceAfter(ring[1..], p)
  }

  ghost function SpawnStep(s: Sys, context: int, thread: bool): Sys
    requires Inv(s) && SpawnPossible(s)
  {
    CurrentInfo(s);
    StacksCounted(s);
    var p, parent, child := s.ptbr, s.procs[s.ptbr], s.maxPid + 1;
    var base := StackBase(parent.sp);
    var r := Spawn(s.mem, parent.table, base, StackFrames(s), child);
    SpawnTable(s.mem, parent.table, base, StackFrames(s), child);
    var mine := if thread then parent.table else MarkTable(parent.table, base);
    var hers := if thread then r.table else MarkTable(r.table, base);
    var place := if thread then PlaceAfter(s.ring, p) else |s.ring|;
    s.(mem := r.mem,
       procs := s.procs[p := parent.(table := mine, context := context)]
                       [child := Proc(true, r.pcb, hers, parent.sp,
                          if thread then p else 0, if thread then 0 else p, context)],
       ring := s.ring[..place] + [child] + s.ring[place..],
       maxPid := child)
  }

  /** The fields of the state after spawning that do not depend on memory. */
  lemma SpawnFields(s: Sys, context: int, thread: bool)
    requires Inv(s) && SpawnPossible(s)
    ensures var r, p, child := SpawnStep(s, context, thread), s.ptbr, s.maxPid + 1;
      && child !in s.procs && p in r.procs && child in r.procs
      && r.procs == s.procs[p := r.procs[p]][child := r.procs[child]]
      && r == s.(mem := r.mem, procs := r.procs, ring := r.ring, maxPid := child)
      && r.ring == if thread then s.ring[..PlaceAfter(s.ring, p)] + [child] + s.ring[PlaceAfter(s.ring, p)..]
           else s.ring + [child]
  {
    hide Linked, FreeIffUncounted, RingRefs, Refs, FrameRefs, Distinct, Maps, Conserved, KernelOwns, StacksOwned,
      TableShape, Spawn, MarkTable;
    assert s.ring[..|s.ring|] + [s.maxPid + 1] + s.ring[|s.ring|..] == s.ring + [s.maxPid + 1];
  }

  lemma SpawnTable(m: Phys, t: seq<PTE>, base: nat, stack: seq<nat>, child: int)
    requires SpawnFits(m, t, base, stack)
    ensures |Spawn(m, t, base, stack, child).table| == |t|
  {
    hide CopyStep;
  }

  lemma StacksCounted(s: Sys)
    requires Inv(s)
    ensures |StackFrames(s)| == STACK_PAGES
    ensures forall i :: 0 <= i < STACK_PAGES ==>
      StackFrames(s)[i] < |s.mem.counts| && s.mem.counts[StackFrames(s)[i]] == 1
        && StackFrames(s)[i] == s.procs[s.ptbr].pcb[i]
    ensures FramesExist(s.mem)
  {
  }

  /** Marking changes neither references nor what the process sees. */
  lemma MarkingIsInvisible(m: Phys, t: seq<PTE>, base: nat)
    requires FramesExist(m) && EntriesExist(m, t) && TableShape(t) && base <= |t|
    ensures var u := MarkTable(t, base);
      && TableShape(u) && EntriesExist(m, u)
      && (forall f: nat :: Refs(u, f) == Refs(t, f))
      && Space(m, u) == Space(m, t)
      && forall i :: 0 <= i < |t| ==> (Writable(u[i]) <==> i >= base && Writable(t[i])) && u[i].pfn == t[i].pfn
  {
    var u := MarkTable(t, base);
    forall f: nat
      ensures Refs(u, f) == Refs(t, f)
    {
      RefsSameFrames(t, u, f);
    }
  }

  /** The child's table, before marking, shows the child what the parent sees. */
  lemma CopySeesTheSame(m: Phys, t: seq<PTE>, base: nat, stack: seq<nat>, child: int, r: Spawned)
    requires Covered(m, t) && TableShape(t) && SpawnFits(m, t, base, stack) && SpawnedRight(m, t, base, stack, child, r)
    ensures FramesExist(r.mem) && EntriesExist(r.mem, t) && EntriesExist(r.mem, r.table)
    ensures Space(r.mem, t) == Space(m, t)
    ensures Space(r.mem, r.table) == Space(m, t)
    ensures TableShape(r.table)
  {
    hide Linked, FreeIffUncounted, Refs, FrameRefs, Distinct;
    forall i | 0 <= i < |t| && t[i].flags.valid
      ensures m.counts[t[i].pfn] != 0
    {
      RefsPositive(t, i);
    }
  }

  /** After marking, neither side writes through a shared frame. */
  lemma SpawnedSole(m: Phys, t: seq<PTE>, base: nat, stack: seq<nat>, child: int, r: Spawned)
    requires Covered(m, t) && TableShape(t) && SpawnFits(m, t, base, stack) && SpawnedRight(m, t, base, stack, child, r)
    requires SoleWriter(m, t)
    ensures EntriesExist(r.mem, MarkTable(t, base)) && SoleWriter(r.mem, MarkTable(t, base))
    ensures EntriesExist(r.mem, MarkTable(r.table, base)) && SoleWriter(r.mem, MarkTable(r.table, base))
  {
    hide Linked, FreeIffUncounted, FrameRefs, Refs, Distinct;
    CopySeesTheSame(m, t, base, stack, child, r);
    MarkingIsInvisible(r.mem, t, base);
    MarkingIsInvisible(r.mem, r.table, base);
    forall i | base <= i < |t| && Writable(t[i])
      ensures r.mem.counts[t[i].pfn] == 1
    {
      SoleStaysSole(m, t, base, stack, child, r, i);
    }
  }

  /** A frame with a single reference before has it after: it is not among the new references. */
  lemma SoleStaysSole(m: Phys, t: seq<PTE>, base: nat, stack: seq<nat>, child: int, r: Spawned, i: nat)
    requires Covered(m, t) && SpawnFits(m, t, base, stack) && SpawnedRight(m, t, base, stack, child, r)
    requires base <= i < |t| && t[i].flags.valid && m.counts[t[i].pfn] == 1
    ensures r.mem.counts[t[i].pfn] == 1
  {
    hide Linked, FreeIffUncounted, FrameRefs, Refs, Distinct;
    var f := t[i].pfn;
    UntouchedCount(m, t, base, stack, child, r, f);
    if Refs(r.table, f) > 0 {
      var j := RefsWitness(r.table, f);
      if j < base {
        RefsTwice(t, j, i);
      } else if r.mem.counts[f] == 1 {
        assert m.counts[f] + Refs(r.table, f) >= 2;
      }
    }
  }

  lemma UntouchedCount(m: Phys, t: seq<PTE>, base: nat, stack: seq<nat>, child: int, r: Spawned, f: nat)
    requires SpawnFits(m, t, base, stack) && SpawnedRight(m, t, base, stack, child, r) && f < |m.counts|
      && m.counts[f] >= 1
    ensures FrameRefs(r.pcb, f) == 0
  {
    hide Linked, FreeIffUncounted, FrameRefs, Refs, Distinct;
    assert r.pcb == [r.pcb[0], r.pcb[1]];
    FrameRefsOfTwo(r.pcb[0], r.pcb[1], f);
  }

  /** The parts of SpawnStep's result, once the memory is known to be right. */
  ghost predicate SpawnParts(s: Sys, r: Sys, m: Spawned, thread: bool, context: int)
    requires Inv(s)
  {
    var p, parent, child := s.ptbr, s.procs[s.ptbr], s.maxPid + 1;
    var base := StackBase(parent.sp);
    && |parent.table| == TABLE_LEN && base <= TABLE_LEN
    && SpawnFits(s.mem, parent.table, base, StackFrames(s))
    && SpawnedRight(s.mem, parent.table, base, StackFrames(s), child, m)
    && r.mem == m.mem
    && r.procs == s.procs
         [p := parent.(table := if thread then parent.table else MarkTable(parent.table, base), context := context)]
         [child := Proc(true, m.pcb, if thread then m.table else MarkTable(m.table, base), parent.sp,
            if thread then p else 0, if thread then 0 else p, context)]
    && (exists i: nat :: i <= |s.ring| && r.ring == s.ring[..i] + [child] + s.ring[i..])
    && r.maxPid == child && r.kernelMap == s.kernelMap && r.stackMap == s.stackMap && r.ptbr == s.ptbr
    && r.kernelBrk == s.kernelBrk
  }

  lemma SpawnHasParts(s: Sys, context: int, thread: bool) returns (m: Spawned)
    requires Inv(s) && SpawnEnabled(s)
    ensures SpawnParts(s, SpawnStep(s, context, thread), m, thread, context)
  {
    hide Linked, FreeIffUncounted, FrameRefs, Refs, RingRefs, Distinct, TableShape, Maps, SpawnedRight, Spawn;
    CurrentInfo(s);
    StacksCounted(s);
    ProcessCovered(s, s.ptbr);
    var parent := s.procs[s.ptbr];
    m := Spawn(s.mem, parent.table, StackBase(parent.sp), StackFrames(s), s.maxPid + 1);
    SpawnIsRight(s.mem, parent.table, StackBase(parent.sp), StackFrames(s), s.maxPid + 1);
  }

  lemma SpawnConserves(s: Sys, r: Sys, m: Spawned, thread: bool, context: int)
    requires Inv(s) && SpawnParts(s, r, m, thread, context)
    ensures Shape(r) && Conserved(r)
  {
    hide Linked, FreeIffUncounted, FrameRefs, Refs, RingRefs, Maps, Distinct, TableShape, SpawnedRight, Conserved,
      KernelOwns, StacksOwned, ProcRefs, ProcShape, SpawnFits, Shape;
    SpawnTables(s, r, m, thread, context);
    var i := SpawnPlace(s, r, m, thread, context);
    InsertShape(s, r, i, r.procs[s.ptbr], r.procs[s.maxPid + 1]);
    SpawnTotals(s, r, i, r.procs[s.ptbr], r.procs[s.maxPid + 1]);
  }

  lemma SpawnPlace(s: Sys, r: Sys, m: Spawned, thread: bool, context: int) returns (i: nat)
    requires Inv(s) && SpawnParts(s, r, m, thread, context)
    ensures i <= |s.ring| && r.ring == s.ring[..i] + [s.maxPid + 1] + s.ring[i..]
    ensures s.ptbr in s.procs && s.ptbr in r.procs && s.maxPid + 1 in r.procs
    ensures r.procs == s.procs[s.ptbr := r.procs[s.ptbr]][s.maxPid + 1 := r.procs[s.maxPid + 1]]
    ensures r.kernelMap == s.kernelMap && r.maxPid == s.maxPid + 1 > 0
  {
    hide Linked, FreeIffUncounted, FrameRefs, Refs, RingRefs, Maps, Distinct, TableShape, SpawnedRight, Conserved,
      KernelOwns, StacksOwned, ProcRefs, ProcShape, SpawnFits;
    i :| i <= |s.ring| && r.ring == s.ring[..i] + [s.maxPid + 1] + s.ring[i..];
  }

  /** The parent's and the child's descriptors after spawning. */
  ghost predicate Descriptors(s: Sys, r: Sys)
    requires s.ptbr in s.procs
  {
    var p, child := s.ptbr, s.maxPid + 1;
    && p in r.procs && child in r.procs && child !in s.procs && child !in s.ring
    && WellFormed(r.mem) && |r.mem.counts| == |s.mem.counts|
    && ProcShape(r.mem, r.procs[p]) && ProcShape(r.mem, r.procs[child])
    && forall f :: 0 <= f < |s.mem.counts| ==>
         && ProcRefs(r.procs[p], f) == ProcRefs(s.procs[p], f)
         && r.mem.counts[f] == s.mem.counts[f] + ProcRefs(r.procs[child], f)
  }

  /** The new process's number is new. */
  lemma NewPid(s: Sys)
    requires Inv(s)
    ensures s.maxPid + 1 !in s.procs && s.maxPid + 1 !in s.ring
    ensures s.ptbr in s.procs && s.procs[s.ptbr].running && ProcShape(s.mem, s.procs[s.ptbr])
  {
    hide Linked, FreeIffUncounted, FrameRefs, Refs, RingRefs, Maps, Distinct, Conserved, KernelOwns, StacksOwned,
      TableShape;
  }

  lemma SpawnedBasics(m: Phys, t: seq<PTE>, base: nat, stack: seq<nat>, child: int, r: Spawned)
    requires SpawnFits(m, t, base, stack) && SpawnedRight(m, t, base, stack, child, r)
    ensures WellFormed(r.mem) && |r.mem.counts| == |m.counts| && EntriesExist(r.mem, r.table) && |r.table| == |t|
    ensures |r.pcb| == STACK_PAGES && forall i :: 0 <= i < STACK_PAGES ==> r.pcb[i] < |r.mem.counts|
    ensures forall f :: 0 <= f < |m.counts| ==> r.mem.counts[f] == m.counts[f] + Refs(r.table, f) + FrameRefs(r.pcb, f)
  {
    hide Linked, FreeIffUncounted, FrameRefs, Refs, Distinct;
  }

  lemma SpawnTables(s: Sys, r: Sys, m: Spawned, thread: bool, context: int)
    requires Inv(s) && SpawnParts(s, r, m, thread, context)
    ensures Descriptors(s, r)
  {
    hide Shape, Conserved, KernelOwns, StacksOwned, WellFormed, SpawnedRight, TableShape, Refs, FrameRefs, Maps;
    var p, parent, child := s.ptbr, s.procs[s.ptbr], s.maxPid + 1;
    var base := StackBase(parent.sp);
    CurrentInfo(s);
    NewPid(s);
    ProcessCovered(s, p);
    SpawnedBasics(s.mem, parent.table, base, StackFrames(s), child, m);
    CopySeesTheSame(s.mem, parent.table, base, StackFrames(s), child, m);
    MarkingIsInvisible(m.mem, parent.table, base);
    MarkingIsInvisible(m.mem, m.table, base);
  }

  lemma InsertShape(s: Sys, r: Sys, i: nat, mine: Proc, hers: Proc)
    requires Shape(s) && WellFormed(r.mem) && |r.mem.counts| == |s.mem.counts| && i <= |s.ring|
    requires var p, child := s.ptbr, s.maxPid + 1;
      && p in s.procs && r.ring == s.ring[..i] + [child] + s.ring[i..] && child !in s.ring
      && r.procs == s.procs[p := mine][child := hers] && r.kernelMap == s.kernelMap && r.maxPid == child
      && child > 0 && ProcShape(r.mem, mine) && ProcShape(r.mem, hers)
    ensures Shape(r)
  {
    hide Linked, FreeIffUncounted, TableShape, Distinct;
    var child := s.maxPid + 1;
    forall q | q in r.procs
      ensures q in r.ring
    {
      if q != child { RingKeeps(s.ring, i, child, q); }
    }
    RingDistinct(s.ring, i, child);
  }

  /** The sums, given what became of the parent's and the child's references. */
  lemma SpawnTotals(s: Sys, r: Sys, i: nat, mine: Proc, hers: Proc)
    requires Inv(s) && Shape(r) && |r.mem.counts| == |s.mem.counts| && i <= |s.ring|
    requires var p, child := s.ptbr, s.maxPid + 1;
      && r.ring == s.ring[..i] + [child] + s.ring[i..] && child !in s.ring
      && r.procs == s.procs[p := mine][child := hers] && r.kernelMap == s.kernelMap
    requires forall f :: 0 <= f < |s.mem.counts| ==>
      && ProcRefs(mine, f) == ProcRefs(s.procs[s.ptbr], f)
      && r.mem.counts[f] == s.mem.counts[f] + ProcRefs(hers, f)
    ensures Conserved(r)
  {
    hide Linked, FreeIffUncounted, FrameRefs, Refs, RingRefs, Maps, Distinct, KernelOwns, StacksOwned, ProcShape,
      ProcRefs;
    forall f | 0 <= f < |s.mem.counts|
      ensures r.mem.counts[f] == Total(r, f)
    {
      RingUpdate(s.ring, s.procs, s.ptbr, mine, f);
      RingInsert(s.ring, s.procs[s.ptbr := mine], i, s.maxPid + 1, hers, f);
    }
  }

  lemma RingKeeps(ring: seq<int>, i: nat, child: int, q: int)
    requires i <= |ring| && q in ring
    ensures q in ring[..i] + [child] + ring[i..]
  {
    var j :| 0 <= j < |ring| && ring[j] == q;
    assert (ring[..i] + [child] + ring[i..])[if j < i then j else j + 1] == q;
  }

  lemma RingDistinct(ring: seq<int>, i: nat, child: int)
    requires i <= |ring| && Distinct(ring) && child !in ring
    ensures Distinct(ring[..i] + [child] + ring[i..])
  {
  }

  /** Fork and thread creation keep the invariant; the child's first stack frame names the child and
      carries the parent's heap limits. */
  lemma SpawnKeepsInv(s: Sys, context: int, thread: bool)
    requires Inv(s) && SpawnEnabled(s)
    ensures var r, child := SpawnStep(s, context, thread), s.maxPid + 1;
      && Inv(r)
      && child !in s.procs && r.procs.Keys == s.procs.Keys + {child} && r.procs[child].running
      && CurrentProcess(r) == r.ptbr == s.ptbr
      && (HeapsOk(s) ==> HeapsOk(r))
  {
    hide SpawnStep, SpawnedRight, Shape, Conserved, KernelOwns, StacksOwned, CurrentMapped, HeapsOk, SpawnPossible,
      CountsFit;
    var m := SpawnHasParts(s, context, thread);
    var r, child := SpawnStep(s, context, thread), s.maxPid + 1;
    SpawnConserves(s, r, m, thread, context);
    SpawnedProcs(s, r, m, thread, context);
    CurrentInfo(s);
    SpawnStacks(s, r, m, thread, context);
    CurrentIsMapped(r);
    if HeapsOk(s) {
      SpawnHeaps(s, r, m, thread, context);
    }
  }

  lemma SpawnStacks(s: Sys, r: Sys, m: Spawned, thread: bool, context: int)
    requires Inv(s) && SpawnParts(s, r, m, thread, context) && Shape(r) && Conserved(r)
    ensures KernelOwns(r) && StacksOwned(r) && CurrentMapped(r)
  {
    hide Conserved, SpawnedRight, SpawnFits, WellFormed, Refs, Maps, TableShape, Distinct;
    SpawnedProcs(s, r, m, thread, context);
    CurrentInfo(s);
    SpawnedStack(s, m);
    forall f | 0 <= f < |s.mem.counts| && s.mem.counts[f] == 1 && Refs(s.procs[s.ptbr].table, f) == 0
      ensures r.mem.counts[f] == 1
    {
      UnmappedStaysOne(s, m, f);
    }
    forall i | 0 <= i < WINDOW_BASE_PAGE && s.kernelMap[i].flags.valid
      ensures Refs(s.procs[s.ptbr].table, s.kernelMap[i].pfn) == 0
    {
      KernelHeld(s, s.ptbr, i);
    }
    forall q, j: nat | Lives(s, q) && j < STACK_PAGES
      ensures Refs(s.procs[s.ptbr].table, s.procs[q].pcb[j]) == 0
    {
      StackNotUser(s, q, s.ptbr, j);
    }
  }

  /** The child's stack frames are its own and name it; other counted frames keep their contents. */
  lemma SpawnedStack(s: Sys, m: Spawned)
    requires Inv(s) && |s.procs[s.ptbr].table| == TABLE_LEN && 0 <= StackBase(s.procs[s.ptbr].sp) <= TABLE_LEN
    requires SpawnFits(s.mem, s.procs[s.ptbr].table, StackBase(s.procs[s.ptbr].sp), StackFrames(s))
    requires SpawnedRight(s.mem, s.procs[s.ptbr].table, StackBase(s.procs[s.ptbr].sp), StackFrames(s), s.maxPid + 1, m)
    ensures |m.pcb| == STACK_PAGES && |m.mem.counts| == |s.mem.counts| == |m.mem.pages| == |s.mem.pages|
    ensures m.pcb[0] < |m.mem.counts| && m.pcb[1] < |m.mem.counts|
    ensures m.mem.counts[m.pcb[0]] == 1 == m.mem.counts[m.pcb[1]] && m.mem.pages[m.pcb[0]][DESCRIPTOR] == s.maxPid + 1
    ensures forall f :: 0 <= f < |s.mem.counts| && s.mem.counts[f] != 0 ==> m.mem.pages[f] == s.mem.pages[f]
  {
    hide Linked, FreeIffUncounted, FrameRefs, Refs, Distinct, Conserved, KernelOwns, StacksOwned;
  }

  /** A frame counted once that the parent does not map is not shared with the child either. */
  lemma UnmappedStaysOne(s: Sys, m: Spawned, f: nat)
    requires Inv(s) && |s.procs[s.ptbr].table| == TABLE_LEN
    requires StackBase(s.procs[s.ptbr].sp) <= TABLE_LEN
    requires SpawnFits(s.mem, s.procs[s.ptbr].table, StackBase(s.procs[s.ptbr].sp), StackFrames(s))
    requires SpawnedRight(s.mem, s.procs[s.ptbr].table, StackBase(s.procs[s.ptbr].sp), StackFrames(s), s.maxPid + 1, m)
    requires f < |s.mem.counts| && s.mem.counts[f] == 1 && Refs(s.procs[s.ptbr].table, f) == 0
    ensures m.mem.counts[f] == 1
  {
    hide Linked, FreeIffUncounted, FrameRefs, Refs, RingRefs, Maps, Distinct, TableShape;
    var t, base := s.procs[s.ptbr].table, StackBase(s.procs[s.ptbr].sp);
    UntouchedCount(s.mem, t, base, StackFrames(s), s.maxPid + 1, m, f);
    if Refs(m.table, f) > 0 {
      var j := RefsWitness(m.table, f);
      if t[j].flags.valid && j < base {
        RefsPositive(t, j);
      }
    }
  }

  predicate Lives(s: Sys, p: int) {
    p in s.procs && s.procs[p].running
  }

  /** Tables of which the same entries are valid. */
  predicate SameValid(t: seq<PTE>, u: seq<PTE>) {
    |u| == |t| && forall i :: 0 <= i < |t| ==> u[i].flags.valid == t[i].flags.valid
  }

  /** What spawning leaves of the running processes, and what the child gets. */
  lemma SpawnedProcs(s: Sys, r: Sys, m: Spawned, thread: bool, context: int)
    requires Inv(s) && SpawnParts(s, r, m, thread, context)
    ensures s.maxPid + 1 !in s.procs && Lives(r, s.maxPid + 1)
    ensures var child := r.procs[s.maxPid + 1];
      child.pcb == m.pcb && SameValid(m.table, child.table) && child.sp == s.procs[s.ptbr].sp
    ensures forall p :: Lives(r, p) && p != s.maxPid + 1 ==> Lives(s, p)
    ensures forall p :: Lives(s, p) ==>
      && |s.procs[p].pcb| == STACK_PAGES && s.procs[p].pcb[0] < |s.mem.counts| && s.mem.counts[s.procs[p].pcb[0]] != 0
      && Lives(r, p) && r.procs[p].pcb == s.procs[p].pcb && SameValid(s.procs[p].table, r.procs[p].table)
  {
    hide Linked, FreeIffUncounted, FrameRefs, Refs, RingRefs, Maps, Distinct, Conserved, TableShape, KernelOwns,
      SpawnedRight;
    forall p | Lives(s, p)
      ensures |s.procs[p].pcb| == STACK_PAGES && s.procs[p].pcb[0] < |s.mem.counts|
        && s.mem.counts[s.procs[p].pcb[0]] == 1
    {
    }
  }

  lemma SpawnHeaps(s: Sys, r: Sys, m: Spawned, thread: bool, context: int)
    requires Inv(s) && SpawnParts(s, r, m, thread, context) && Inv(r) && HeapsOk(s)
    ensures HeapsOk(r)
  {
    hide Shape, Conserved, KernelOwns, StacksOwned, CurrentMapped, SpawnedRight, HeapOk;
    CurrentInfo(s);
    StacksCounted(s);
    SpawnedProcs(s, r, m, thread, context);
    var t, base, child := s.procs[s.ptbr].table, StackBase(s.procs[s.ptbr].sp), s.maxPid + 1;
    SpawnedInfo(s.mem, t, base, StackFrames(s), child, m);
    forall q | Lives(r, q)
      ensures HeapOk(r.mem.pages[r.procs[q].pcb[0]], r.procs[q].table)
    {
      var p := if q == child then s.ptbr else q;
      HeapOkMoves(s.mem.pages[s.procs[p].pcb[0]], s.procs[p].table, r.mem.pages[r.procs[q].pcb[0]], r.procs[q].table);
    }
  }

  /** Heap limits copied to another table with at least the same valid entries. */
  lemma HeapOkMoves(page: Page, t: seq<PTE>, other: Page, u: seq<PTE>)
    requires HeapOk(page, t) && |u| == |t|
    requires other[HEAP_START] == page[HEAP_START] && other[CURRENT_BRK] == page[CURRENT_BRK]
    requires forall i :: 0 <= i < |t| && t[i].flags.valid ==> u[i].flags.valid
    ensures HeapOk(other, u)
  {
  }

  lemma SpawnedInfo(m: Phys, t: seq<PTE>, base: nat, stack: seq<nat>, child: int, r: Spawned)
    requires SpawnFits(m, t, base, stack) && SpawnedRight(m, t, base, stack, child, r)
    ensures |r.pcb| == STACK_PAGES && r.pcb[0] < |r.mem.pages| && |m.pages| == |m.counts|
    ensures forall f :: 0 <= f < |m.counts| && m.counts[f] != 0 ==> f < |r.mem.pages| && r.mem.pages[f] == m.pages[f]
    ensures forall w: nat :: 0 < w < INFO_WORDS ==> r.mem.pages[r.pcb[0]][w] == m.pages[stack[0]][w]
    ensures |r.table| == |t| && forall i :: 0 <= i < |t| && t[i].flags.valid ==> r.table[i].flags.valid
  {
    hide Linked, FreeIffUncounted, FrameRefs, Refs, Distinct;
  }

  /** The child sees what its parent saw, and nobody who was running sees a change. */
  ghost predicate ForkSeen(s: Sys, r: Sys, child: int)
    requires Inv(s)
  {
    && Inv(r) && NoSharedWriters(r) && Lives(r, child) && child !in s.procs
    && Space(r.mem, r.procs[child].table) == Space(s.mem, s.procs[s.ptbr].table)
    && forall q :: Lives(s, q) ==> Lives(r, q) && Space(r.mem, r.procs[q].table) == Space(s.mem, s.procs[q].table)
  }

  /** The refinement step for fork: the child sees a copy of everything the parent sees, the parent
      and everybody else see no change, and still nobody writes through a shared frame. */
  lemma ForkCopiesTheView(s: Sys, context: int)
    requires Inv(s) && SpawnEnabled(s) && NoSharedWriters(s)
    ensures ForkSeen(s, SpawnStep(s, context, false), s.maxPid + 1)
  {
    hide Linked, FreeIffUncounted, FrameRefs, Refs, RingRefs, Maps, SpawnStep, Distinct, SpawnedRight, TableShape,
      Space;
    SpawnKeepsInv(s, context, false);
    var m := SpawnHasParts(s, context, false);
    var r, child := SpawnStep(s, context, false), s.maxPid + 1;
    var p, t, base := s.ptbr, s.procs[s.ptbr].table, StackBase(s.procs[s.ptbr].sp);
    ProcessCovered(s, p);
    CopySeesTheSame(s.mem, t, base, StackFrames(s), child, m);
    SpawnedSole(s.mem, t, base, StackFrames(s), child, m);
    MarkingIsInvisible(m.mem, t, base);
    MarkingIsInvisible(m.mem, m.table, base);
    forall q | q in s.procs && s.procs[q].running && q != p
      ensures EntriesExist(r.mem, s.procs[q].table) && SoleWriter(r.mem, s.procs[q].table)
      ensures Space(r.mem, s.procs[q].table) == Space(s.mem, s.procs[q].table)
    {
      SpawnLeavesOthers(s, m, q);
    }
  }

  lemma SpawnLeavesOthers(s: Sys, m: Spawned, q: int)
    requires Inv(s) && NoSharedWriters(s) && |s.procs[s.ptbr].table| == TABLE_LEN
    requires StackBase(s.procs[s.ptbr].sp) <= TABLE_LEN
    requires SpawnFits(s.mem, s.procs[s.ptbr].table, StackBase(s.procs[s.ptbr].sp), StackFrames(s))
    requires SpawnedRight(s.mem, s.procs[s.ptbr].table, StackBase(s.procs[s.ptbr].sp), StackFrames(s), s.maxPid + 1, m)
    requires q in s.procs && s.procs[q].running && q != s.ptbr
    ensures FramesExist(m.mem) && EntriesExist(m.mem, s.procs[q].table) && SoleWriter(m.mem, s.procs[q].table)
    ensures Space(m.mem, s.procs[q].table) == Space(s.mem, s.procs[q].table)
  {
    hide Linked, FreeIffUncounted, FrameRefs, Refs, RingRefs, Maps, Distinct, TableShape;
    var other := s.procs[q].table;
    ProcessCovered(s, q);
    OtherHeld(s, s.ptbr, q);
    forall i | 0 <= i < |other| && other[i].flags.valid
      ensures s.mem.counts[other[i].pfn] != 0
      ensures s.mem.counts[other[i].pfn] == 1 ==> m.mem.counts[other[i].pfn] == 1
    {
      RefsPositive(other, i);
      if s.mem.counts[other[i].pfn] == 1 {
        UnmappedStaysOne(s, m, other[i].pfn);
      }
    }
  }

  /** Fork and thread creation keep the invariant exactly when the counts of the pages below the
      stack, as signed chars, can take the new references: at most 127 sharers. */
  lemma SpawnKeepsInvIff(s: Sys, context: int, thread: bool)
    requires Inv(s) && SpawnPossible(s) && CharCounts(s.mem)
    ensures Inv(SpawnStep(s, context, thread)) <==>
      CountsFit(s.mem, s.procs[s.ptbr].table, StackBase(s.procs[s.ptbr].sp))
  {
    hide Linked, FreeIffUncounted, FrameRefs, Refs, RingRefs, Maps, SpawnStep, Distinct, TableShape;
    CurrentInfo(s);
    var t, base := s.procs[s.ptbr].table, StackBase(s.procs[s.ptbr].sp);
    if CountsFit(s.mem, t, base) {
      SpawnKeepsInv(s, context, thread);
    } else {
      var f :| 0 <= f < |s.mem.counts| && s.mem.counts[f] + Refs(t[..base], f) > 127;
      OverflowGoesNegative(s, context, thread, f);
      if Inv(SpawnStep(s, context, thread)) {
        CountsNotNegative(SpawnStep(s, context, thread));
      }
    }
  }

  lemma CountsNotNegative(s: Sys)
    requires Inv(s)
    ensures forall f :: 0 <= f < |s.mem.counts| ==> s.mem.counts[f] >= 0
  {
  }

  lemma {:induction false} RefsBounded(t: seq<PTE>, f: nat)
    ensures Refs(t, f) <= |t|
  {
    if t != [] { RefsBounded(t[..|t| - 1], f); }
  }

  lemma OverflowGoesNegative(s: Sys, context: int, thread: bool, f: nat)
    requires Inv(s) && SpawnPossible(s) && f < |s.mem.counts| && s.mem.counts[f] <= 127
    requires var t, base := s.procs[s.ptbr].table, StackBase(s.procs[s.ptbr].sp);
      s.mem.counts[f] + Refs(t[..base], f) > 127
    ensures f < |SpawnStep(s, context, thread).mem.counts| && SpawnStep(s, context, thread).mem.counts[f] < 0
  {
    hide Shape, Conserved, KernelOwns, StacksOwned, CurrentMapped, Spawn, Refs, MarkTable;
    CurrentInfo(s);
    StacksCounted(s);
    ProcessCovered(s, s.ptbr);
    MemoryOverflows(s.mem, s.procs[s.ptbr].table, StackBase(s.procs[s.ptbr].sp), StackFrames(s), s.maxPid + 1, f);
  }

  lemma MemoryOverflows(m: Phys, t: seq<PTE>, base: nat, stack: seq<nat>, child: int, f: nat)
    requires Covered(m, t) && SpawnFits(m, t, base, stack) && f < |m.counts| && m.counts[f] <= 127
    requires m.counts[f] + Refs(t[..base], f) > 127
    ensures f < |Spawn(m, t, base, stack, child).mem.counts| && Spawn(m, t, base, stack, child).mem.counts[f] < 0
  {
    hide Linked, FreeIffUncounted, FrameRefs, Refs, Maps, Distinct, CopyStep, NewStack, CloneStack, CopiedTo;
    RefsBounded(t[..base], f);
    assert t == t[..base] + t[base..];
    RefsConcat(t[..base], t[base..], f);
    NewStackIs(m, t, child);
    var n := NewStack(m, child);
    CopyStackCopies(n, t, base, TABLE_LEN);
    var (m1, c) := CopyStackTo(n, t, base, TABLE_LEN);
    CopiedLow(n, t, base, TABLE_LEN, m1, c);
    assert c[..base] == t[..base];
    CopiedCounts(n, t, base, TABLE_LEN, m1, c, f);
    ShareAddsRefs(m1.counts, c, base, f);
  }

  /** What fork returns to whoever runs next in its copy of the call (process/fork.c:145). */
  function ForkResult(s: Sys, parent: int, child: int): int
    requires InfoMapped(s)
  {
    if CurrentProcess(s) == parent then child else 0
  }

  /** The parent returns from fork with the child's pid. */
  lemma ForkReturnsPid(s: Sys, context: int)
    requires Inv(s) && SpawnEnabled(s)
    ensures var r, child := SpawnStep(s, context, false), s.maxPid + 1;
      InfoMapped(r) && ForkResult(r, s.ptbr, child) == child && child in r.procs && r.procs[child].context == context
  {
    hide Linked, FreeIffUncounted, FrameRefs, Refs, RingRefs, Maps, SpawnStep, Distinct, TableShape, SpawnedRight,
      Conserved;
    SpawnKeepsInv(s, context, false);
    var m := SpawnHasParts(s, context, false);
    CurrentInfo(SpawnStep(s, context, false));
  }

  /** The child returns from its copy of the call with 0, whenever it is switched to in any later
      state: it runs on its own stack frame, which names it. */
  lemma ForkReturnsZero(later: Sys, parent: int, child: int, context: int)
    requires Inv(later) && SwitchEnabled(later, child) && parent != child
    ensures InfoMapped(later) && CurrentProcess(later) in later.procs
    ensures var w := SwitchStep(later, child, context);
      InfoMapped(w) && CurrentProcess(w) == child && ForkResult(w, parent, child) == 0
  {
    hide Linked, FreeIffUncounted, FrameRefs, Refs, RingRefs, Maps, Distinct, TableShape, Conserved;
    SwitchIsRight(later, child, context);
    CurrentInfo(SwitchStep(later, child, context));
  }

  // ---------- exit of a process without children and threads, and its parent's wait ----------

  /** The process is nobody's parent or leader, its own parent is known, and somebody else can run. */
  ghost predicate ExitEnabled(s: Sys, next: int)
    requires Inv(s)
  {
    var p := s.procs[s.ptbr];
    && next in s.procs && s.procs[next].running && next != s.ptbr
    && (p.leader != 0 || p.parent != 0)
    && forall q :: q in s.procs ==> s.procs[q].parent != s.ptbr && s.procs[q].leader != s.ptbr
  }

  /** A running process other than the current one whose table is empty. */
  ghost predicate Drained(s: Sys, p: int)
    requires Inv(s)
  {
    p in s.procs && s.procs[p].running && p != s.ptbr && Empty(s.procs[p].table)
  }

  lemma {:induction false} EmptyRefs(t: seq<PTE>, f: nat)
    requires Empty(t)
    ensures Refs(t, f) == 0
  {
    if t != [] { EmptyRefs(t[..|t| - 1], f); }
  }

  /** Freeing the two stack frames of a drained process. */
  lemma ReleaseStack(s: Sys, p: int)
    requires Inv(s) && Drained(s, p)
    ensures var pcb := s.procs[p].pcb;
      && pcb[0] < |s.mem.counts| && pcb[1] < |s.mem.counts|
      && var n := Release(Release(s.mem, pcb[0]), pcb[1]);
         && WellFormed(n) && |n.counts| == |s.mem.counts|
         && (forall f :: 0 <= f < |n.counts| ==> n.counts[f] == s.mem.counts[f] - FrameRefs(pcb, f))
         && (forall f :: 0 <= f < |n.counts| && n.counts[f] != 0 ==> n.pages[f] == s.mem.pages[f])
  {
    hide Linked, FreeIffUncounted, FrameRefs, Refs, RingRefs, Maps, Distinct;
    var pcb := s.procs[p].pcb;
    StacksDisjoint(s, p, p, 0, 1);
    ReleaseKeepsWellFormed(s.mem, pcb[0]);
    ReleaseKeepsWellFormed(Release(s.mem, pcb[0]), pcb[1]);
    assert pcb == [pcb[0], pcb[1]];
    forall f: nat
      ensures FrameRefs(pcb, f) == (if pcb[0] == f then 1 else 0) + (if pcb[1] == f then 1 else 0)
    {
      FrameRefsOfTwo(pcb[0], pcb[1], f);
    }
  }

  /** The state with the stack freed and the process a zombie, before it may be forgotten. */
  ghost function Zombify(s: Sys, p: int): Sys
    requires FramesExist(s.mem) && p in s.procs && |s.procs[p].pcb| == STACK_PAGES
    requires forall i :: 0 <= i < STACK_PAGES ==> s.procs[p].pcb[i] < |s.mem.counts|
  {
    s.(mem := Release(Release(s.mem, s.procs[p].pcb[0]), s.procs[p].pcb[1]),
       procs := s.procs[p := s.procs[p].(running := false)])
  }

  lemma ZombifyConserves(s: Sys, p: int)
    requires Inv(s) && Drained(s, p)
    ensures s.procs[p].pcb[0] < |s.mem.counts| && s.procs[p].pcb[1] < |s.mem.counts|
    ensures Shape(Zombify(s, p)) && Conserved(Zombify(s, p))
  {
    hide Linked, FreeIffUncounted, FrameRefs, Refs, RingRefs, Maps, Distinct, TableShape, Release;
    ReleaseStack(s, p);
    var r := Zombify(s, p);
    assert Shape(r);
    forall f | 0 <= f < |r.mem.counts|
      ensures r.mem.counts[f] == Total(r, f)
    {
      RingUpdate(s.ring, s.procs, p, r.procs[p], f);
      EmptyRefs(s.procs[p].table, f);
    }
  }

  lemma ZombifyKeepsInv(s: Sys, p: int)
    requires Inv(s) && Drained(s, p)
    ensures s.procs[p].pcb[0] < |s.mem.counts| && s.procs[p].pcb[1] < |s.mem.counts|
    ensures var r := Zombify(s, p);
      && Inv(r)
      && (NoSharedWriters(s) ==> NoSharedWriters(r))
      && forall q :: q in s.procs && s.procs[q].running && q != p ==>
           && Space(r.mem, s.procs[q].table) == Space(s.mem, s.procs[q].table)
           && r.mem.pages[s.procs[q].pcb[0]] == s.mem.pages[s.procs[q].pcb[0]]
  {
    hide Linked, FreeIffUncounted, FrameRefs, Refs, RingRefs, Maps, Distinct, TableShape, Release, Conserved;
    ZombifyConserves(s, p);
    ReleaseStack(s, p);
    var r := Zombify(s, p);
    forall f: nat
      ensures FrameRefs(s.procs[p].pcb, f) ==
        (if s.procs[p].pcb[0] == f then 1 else 0) + (if s.procs[p].pcb[1] == f then 1 else 0)
    {
      assert s.procs[p].pcb == [s.procs[p].pcb[0], s.procs[p].pcb[1]];
      FrameRefsOfTwo(s.procs[p].pcb[0], s.procs[p].pcb[1], f);
    }
    forall q | q in s.procs && s.procs[q].running && q != p
      ensures forall i, j :: 0 <= i < STACK_PAGES && 0 <= j < STACK_PAGES ==> s.procs[q].pcb[i] != s.procs[p].pcb[j]
      ensures forall i :: 0 <= i < |s.procs[q].table| && s.procs[q].table[i].flags.valid ==>
        s.mem.counts[s.procs[q].table[i].pfn] == r.mem.counts[s.procs[q].table[i].pfn] != 0
    {
      forall i, j | 0 <= i < STACK_PAGES && 0 <= j < STACK_PAGES
        ensures s.procs[q].pcb[i] != s.procs[p].pcb[j]
      {
        StacksDisjoint(s, q, p, i, j);
      }
      ProcessCovered(s, q);
      StackNotUser(s, p, q, 0);
      StackNotUser(s, p, q, 1);
      forall i | 0 <= i < |s.procs[q].table| && s.procs[q].table[i].flags.valid
        ensures s.mem.counts[s.procs[q].table[i].pfn] == r.mem.counts[s.procs[q].table[i].pfn] != 0
      {
        RefsPositive(s.procs[q].table, i);
      }
    }
    forall i | 0 <= i < WINDOW_BASE_PAGE && s.kernelMap[i].flags.valid
      ensures s.kernelMap[i].pfn != s.procs[p].pcb[0] && s.kernelMap[i].pfn != s.procs[p].pcb[1]
    {
      RefsPositive(s.kernelMap, i);
      StacksDisjoint(s, p, p, 0, 1);
      StacksDisjoint(s, p, p, 1, 0);
    }
  }

  /** removeNode(&process->process_list) and free(process). */
  function Forget(s: Sys, p: int): Sys {
    s.(procs := s.procs - {p}, ring := Ring.Without(s.ring, p))
  }

  lemma RingDistinctWithout(ring: seq<int>, i: nat)
    requires i < |ring| && Distinct(ring)
    ensures Distinct(ring[..i] + ring[i + 1..]) && ring[i] !in ring[..i] + ring[i + 1..]
  {
  }

  lemma RingKeepsWithout(ring: seq<int>, i: nat, q: int)
    requires i < |ring| && q in ring && q != ring[i]
    ensures q in ring[..i] + ring[i + 1..]
  {
    var j :| 0 <= j < |ring| && ring[j] == q;
    assert (ring[..i] + ring[i + 1..])[if j < i then j else j - 1] == q;
  }

  lemma ForgetShape(s: Sys, p: int)
    requires Inv(s) && p in s.procs && !s.procs[p].running
    ensures Shape(Forget(s, p))
  {
    hide Linked, FreeIffUncounted, FrameRefs, Refs, RingRefs, Maps, TableShape, Distinct, ProcRefs, ProcShape,
      Conserved, KernelOwns, StacksOwned;
    var i := Ring.WithoutSplits(s.ring, p);
    RingDistinctWithout(s.ring, i);
    forall q | q in s.procs && q != p
      ensures q in Forget(s, p).ring
    {
      RingKeepsWithout(s.ring, i, q);
    }
  }

  lemma ForgetConserves(s: Sys, p: int) returns (i: nat)
    requires Inv(s) && p in s.procs && !s.procs[p].running
    ensures Shape(Forget(s, p)) && Conserved(Forget(s, p))
    ensures i < |s.ring| && s.ring[i] == p && Forget(s, p).ring == s.ring[..i] + s.ring[i + 1..]
  {
    hide Linked, FreeIffUncounted, FrameRefs, Refs, RingRefs, Maps, TableShape, Distinct, ProcShape, ProcRefs,
      KernelOwns, StacksOwned;
    i := Ring.WithoutSplits(s.ring, p);
    ForgetShape(s, p);
    forall f | 0 <= f < |s.mem.counts|
      ensures Total(Forget(s, p), f) == Total(s, f)
    {
      NoneIfStopped(s.procs[p], f);
      RingRemove(s.ring, s.procs, i, f);
    }
  }

  lemma ForgetKeepsInv(s: Sys, p: int)
    requires Inv(s) && p in s.procs && !s.procs[p].running
    ensures var r := Forget(s, p);
      && Inv(r) && (NoSharedWriters(s) ==> NoSharedWriters(r))
      && r == s.(procs := s.procs - {p}, ring := r.ring) && r.ptbr in r.procs
      && exists i :: 0 <= i < |s.ring| && s.ring[i] == p && r.ring == s.ring[..i] + s.ring[i + 1..]
  {
    hide Linked, FreeIffUncounted, RingRefs, Maps, TableShape, Distinct, ProcShape, Conserved;
    var i := ForgetConserves(s, p);
  }

  lemma NoneIfStopped(p: Proc, f: nat)
    requires !p.running
    ensures ProcRefs(p, f) == 0
  {
  }

  /** killProcess and killKernelContext: the address space is dropped, another process runs, the
      kernel stack is freed; a process whose parent is process 1 leaves the ring at once. */
  ghost function ExitStep(s: Sys, next: int, context: int): Sys
    requires Inv(s) && ExitEnabled(s, next)
  {
    DropSpaceKeepsInv(s);
    SwitchIsRight(DropSpace(s), next, context);
    var r := SwitchStep(DropSpace(s), next, context);
    StackFramesExist(r, s.ptbr);
    var z := Zombify(r, s.ptbr);
    if z.procs[s.ptbr].leader == 0 && z.procs[s.ptbr].parent == 1 then Forget(z, s.ptbr) else z
  }

  lemma StackFramesExist(s: Sys, p: int)
    requires Inv(s) && p in s.procs && s.procs[p].running
    ensures FramesExist(s.mem) && |s.procs[p].pcb| == STACK_PAGES
    ensures forall i :: 0 <= i < STACK_PAGES ==> s.procs[p].pcb[i] < |s.mem.counts|
  {
  }

  /** Everybody but p keeps descriptor, view and process info. */
  ghost predicate OthersUnchanged(s: Sys, r: Sys, p: int)
    requires Inv(s) && Inv(r)
  {
    forall q :: q in s.procs && q != p ==>
      && q in r.procs && r.procs[q] == s.procs[q]
      && (s.procs[q].running ==>
            && Space(r.mem, s.procs[q].table) == Space(s.mem, s.procs[q].table)
            && r.mem.pages[s.procs[q].pcb[0]] == s.mem.pages[s.procs[q].pcb[0]])
  }

  lemma UnchangedTwice(s: Sys, m: Sys, r: Sys, p: int)
    requires Inv(s) && Inv(m) && Inv(r) && OthersUnchanged(s, m, p) && OthersUnchanged(m, r, p)
    ensures OthersUnchanged(s, r, p)
  {
    hide Linked, FreeIffUncounted, FrameRefs, Refs, RingRefs, Maps, TableShape, Distinct, Conserved, Space;
  }

  lemma SameMemoryUnchanged(s: Sys, r: Sys, p: int)
    requires Inv(s) && Inv(r) && r.mem == s.mem
    requires forall q :: q in s.procs && q != p ==> q in r.procs && r.procs[q] == s.procs[q]
    ensures OthersUnchanged(s, r, p)
  {
    hide Linked, FreeIffUncounted, FrameRefs, Refs, RingRefs, Maps, TableShape, Distinct, Conserved, Space;
  }

  lemma DroppedUnchanged(s: Sys)
    requires Inv(s)
    ensures Inv(DropSpace(s)) && OthersUnchanged(s, DropSpace(s), s.ptbr)
  {
    hide Linked, FreeIffUncounted, FrameRefs, Refs, RingRefs, Maps, TableShape, Distinct, Conserved, Space, DropSpace;
    DropSpaceKeepsInv(s);
  }

  lemma ZombifiedUnchanged(s: Sys, p: int)
    requires Inv(s) && Drained(s, p)
    ensures FramesExist(s.mem) && |s.procs[p].pcb| == STACK_PAGES
    ensures forall i :: 0 <= i < STACK_PAGES ==> s.procs[p].pcb[i] < |s.mem.counts|
    ensures Inv(Zombify(s, p)) && OthersUnchanged(s, Zombify(s, p), p)
  {
    hide Linked, FreeIffUncounted, FrameRefs, Refs, RingRefs, Maps, TableShape, Distinct, Conserved, Space, Zombify;
    StackFramesExist(s, p);
    ZombifyKeepsInv(s, p);
    ZombifyParts(s, p);
  }

  /** Exit gives every frame of the process back and nobody else notices. */
  lemma ExitIsRight(s: Sys, next: int, context: int)
    requires Inv(s) && ExitEnabled(s, next)
    ensures var r := ExitStep(s, next, context);
      && Inv(r) && InfoMapped(r) && CurrentProcess(r) == r.ptbr == next
      && (NoSharedWriters(s) ==> NoSharedWriters(r))
      && r.procs.Keys <= s.procs.Keys
      && (s.ptbr in r.procs ==>
            && !r.procs[s.ptbr].running
            && r.procs[s.ptbr].leader == s.procs[s.ptbr].leader && r.procs[s.ptbr].parent == s.procs[s.ptbr].parent)
      && (s.ptbr in r.procs <==> s.procs[s.ptbr].leader != 0 || s.procs[s.ptbr].parent != 1)
      && OthersUnchanged(s, r, s.ptbr)
  {
    hide Shape, Conserved, KernelOwns, StacksOwned, CurrentMapped, NoSharedWriters, DropSpace, Zombify, SwitchStep,
      Forget, OthersUnchanged, FramesExist;
    var p := s.ptbr;
    DropSpaceKeepsInv(s);
    DroppedUnchanged(s);
    var d := DropSpace(s);
    SwitchIsRight(d, next, context);
    StackFramesExist(d, next);
    SwitchLeaves(d, next, context);
    var r := SwitchStep(d, next, context);
    SwitchKeepsSole(d, next, context);
    SameMemoryUnchanged(d, r, p);
    UnchangedTwice(s, d, r, p);
    EmptyOnceCleared(s.procs[p].table);
    CurrentInfo(s);
    assert Drained(r, p);
    ZombifiedUnchanged(r, p);
    ZombifyKeepsInv(r, p);
    ZombifyParts(r, p);
    var z := Zombify(r, p);
    UnchangedTwice(s, r, z, p);
    CurrentIsMapped(z);
    CurrentInfo(z);
    if z.procs[p].leader == 0 && z.procs[p].parent == 1 {
      ForgetKeepsInv(z, p);
      SameMemoryUnchanged(z, Forget(z, p), p);
      UnchangedTwice(s, z, Forget(z, p), p);
      CurrentIsMapped(Forget(z, p));
      CurrentInfo(Forget(z, p));
    }
  }

  lemma EmptyOnceCleared(t: seq<PTE>)
    ensures Empty(ClearedTo(t, |t|))
  {
  }

  lemma ZombifyParts(s: Sys, p: int)
    requires FramesExist(s.mem) && p in s.procs && |s.procs[p].pcb| == STACK_PAGES
    requires forall i :: 0 <= i < STACK_PAGES ==> s.procs[p].pcb[i] < |s.mem.counts|
    ensures Zombify(s, p).procs == s.procs[p := s.procs[p].(running := false)]
    ensures Zombify(s, p).ptbr == s.ptbr
  {
  }

  lemma SwitchKeepsSole(s: Sys, target: int, context: int)
    requires Inv(s) && SwitchEnabled(s, target) && InfoMapped(s) && CurrentProcess(s) in s.procs
    requires Inv(SwitchStep(s, target, context))
    ensures NoSharedWriters(s) ==> NoSharedWriters(SwitchStep(s, target, context))
  {
    hide Linked, FreeIffUncounted, FrameRefs, Refs, RingRefs, Maps, TableShape, Distinct;
  }
}
