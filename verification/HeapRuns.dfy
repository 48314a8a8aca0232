/**
  User heaps over whole runs: from exec on, as long as growing breaks get their frames, the entries
  from heap start to the deepest stack so far are valid exactly below the break.
 */
module HeapRuns {
  import opened Hardware
  import opened FrameList
  import opened AddressSpace
  import opened UserSpace
  import opened Exec
  import opened Fork
  import opened KernelState
  import opened KernelSteps
  import opened HeapSteps
  import opened ProcessSteps
  import opened KernelRuns
  import opened Refinement

  ghost function InfoPage(s: Sys, p: int): Page
    requires Shape(s) && Lives(s, p)
  {
    s.mem.pages[s.procs[p].pcb[0]]
  }

  /** The first page of a process's stack. */
  function StackOf(s: Sys, p: int): int {
    if p in s.procs then PageOf(DownToPage(s.procs[p].sp)) else TABLE_LEN
  }

  /** The heap of p is exactly what its limits say, up to a page. */
  ghost predicate ExactUpTo(s: Sys, p: int, limit: int)
    requires Shape(s) && Lives(s, p)
  {
    HeapExact(PageOf(InfoPage(s, p)[HEAP_START]), PageOf(InfoPage(s, p)[CURRENT_BRK]), s.procs[p].table, limit)
  }

  /** p has the same limits, and below a page the same entries are valid. */
  ghost predicate SameHeap(s: Sys, r: Sys, p: int, limit: int)
    requires Shape(s) && Shape(r) && Lives(s, p) && Lives(r, p)
  {
    && InfoPage(r, p)[HEAP_START] == InfoPage(s, p)[HEAP_START]
    && InfoPage(r, p)[CURRENT_BRK] == InfoPage(s, p)[CURRENT_BRK]
    && |r.procs[p].table| == |s.procs[p].table|
    && forall i :: 0 <= i < |s.procs[p].table| && i < limit ==>
         r.procs[p].table[i].flags.valid == s.procs[p].table[i].flags.valid
  }

  lemma SameHeapIsExact(s: Sys, r: Sys, p: int, limit: int)
    requires Shape(s) && Shape(r) && Lives(s, p) && Lives(r, p) && SameHeap(s, r, p, limit) && ExactUpTo(s, p, limit)
    ensures ExactUpTo(r, p, limit)
  {
  }

  /** What the theorem asks of an event: p does not exec, and a growing Brk of p gets its frames. */
  ghost predicate Gentle(s: Sys, e: Event, p: int)
    requires Good(s)
  {
    CurrentInfo(s);
    s.ptbr == p ==> !e.DoExec? && (e.DoBrk? && BrkGrows(s, e.address) ==> BrkMoves(s, e.address))
  }

  // ---------- stores ----------

  /** Only an address in the stack makes an entry valid. */
  lemma StoreKeepsValidBits(m: Phys, t: seq<PTE>, i: nat, inStack: bool, word: nat, value: int)
    requires FramesExist(m) && EntriesExist(m, t) && i < |t| && word < PAGE_WORDS
    requires t[i].flags.cow ==> t[i].flags.valid
    requires !Writable(t[i]) && TrapNeedsFrame(m, t[i], inStack) ==> m.free != []
    ensures var u := Store(m, t, i, inStack, word, value).1;
      |u| == |t| && forall j :: 0 <= j < |t| && (j != i || !inStack) ==> u[j].flags.valid == t[j].flags.valid
  {
    hide FramesExist, Alloc, Linked;
  }

  lemma StoreKeepsHeap(s: Sys, address: int, value: int, p: int, limit: int)
    requires Good(s) && StoreEnabled(s, address) && Lives(s, p) && (p == s.ptbr ==> limit <= StackOf(s, p))
    ensures var r := StoreStep(s, address, value); Inv(r) && Lives(r, p) && SameHeap(s, r, p, limit)
  {
    hide Linked, FreeIffUncounted, FrameRefs, Refs, RingRefs, Maps, TableShape, Distinct, Conserved, Store,
      KernelOwns;
    AnyStoreKeepsInv(s, address, value);
    StoreKeepsInfo(s, address, value, p);
    CurrentInfo(s);
    var c := s.procs[s.ptbr];
    ShapeParts(c.table);
    StoreKeepsValidBits(s.mem, c.table, PageOf(address), InStack(c.sp, address), WordOf(address), value);
  }

  // ---------- fork and thread creation ----------

  lemma SpawnKeepsHeaps(s: Sys, context: int, thread: bool, p: int, limit: int)
    requires Good(s) && SpawnEnabled(s) && Lives(s, p)
    ensures Keeps(s, SpawnStep(s, context, thread), p, limit)
  {
    hide SpawnStep, SpawnParts, SpawnPossible, CountsFit, Shape;
    SpawnKeepsInv(s, context, thread);
    var m := SpawnHasParts(s, context, thread);
    PartsKeepHeaps(s, SpawnStep(s, context, thread), m, thread, context, p, limit);
  }

  /** The invariant and the heap of p. */
  ghost predicate Keeps(s: Sys, r: Sys, p: int, limit: int)
    requires Shape(s) && Lives(s, p)
  {
    Inv(r) && Lives(r, p) && SameHeap(s, r, p, limit)
  }

  lemma PartsKeepHeaps(s: Sys, r: Sys, m: Spawned, thread: bool, context: int, p: int, limit: int)
    requires Inv(s) && Inv(r) && SpawnParts(s, r, m, thread, context) && Lives(s, p)
    ensures Lives(r, p) && SameHeap(s, r, p, limit)
  {
    hide Shape, Conserved, KernelOwns, StacksOwned, CurrentMapped, SpawnedRight;
    CurrentInfo(s);
    SpawnedProcs(s, r, m, thread, context);
    SpawnedInfo(s.mem, s.procs[s.ptbr].table, StackBase(s.procs[s.ptbr].sp), StackFrames(s), s.maxPid + 1, m);
  }

  /** A child's table has the same valid entries as its parent's. */
  lemma SpawnedValidBits(m: Phys, t: seq<PTE>, base: nat, stack: seq<nat>, child: int, r: Spawned)
    requires SpawnFits(m, t, base, stack) && SpawnedRight(m, t, base, stack, child, r)
    ensures SameValid(t, r.table)
  {
    hide Linked, FreeIffUncounted, FrameRefs, Refs, Distinct;
  }

  /** A child starts with the heap of its parent. */
  lemma ChildHasParentsHeap(s: Sys, context: int, thread: bool, limit: int)
    requires Good(s) && SpawnEnabled(s) && Lives(s, s.ptbr) && ExactUpTo(s, s.ptbr, limit)
    ensures Inherits(s, SpawnStep(s, context, thread), s.maxPid + 1, limit)
  {
    hide SpawnStep, SpawnParts, SpawnPossible, CountsFit, Shape, ExactUpTo;
    SpawnKeepsInv(s, context, thread);
    var m := SpawnHasParts(s, context, thread);
    PartsGiveHeap(s, SpawnStep(s, context, thread), m, thread, context, limit);
  }

  ghost predicate Inherits(s: Sys, r: Sys, child: int, limit: int) {
    Inv(r) && Lives(r, child) && ExactUpTo(r, child, limit) && StackOf(r, child) == StackOf(s, s.ptbr)
  }

  lemma PartsGiveHeap(s: Sys, r: Sys, m: Spawned, thread: bool, context: int, limit: int)
    requires Inv(s) && Inv(r) && SpawnParts(s, r, m, thread, context) && Lives(s, s.ptbr) && ExactUpTo(s, s.ptbr, limit)
    ensures Inherits(s, r, s.maxPid + 1, limit)
  {
    hide Shape, Conserved, KernelOwns, StacksOwned, CurrentMapped, SpawnedRight;
    StacksCounted(s);
    CurrentInfo(s);
    SpawnedProcs(s, r, m, thread, context);
    var t, base := s.procs[s.ptbr].table, StackBase(s.procs[s.ptbr].sp);
    SpawnedInfo(s.mem, t, base, StackFrames(s), s.maxPid + 1, m);
    SpawnedValidBits(s.mem, t, base, StackFrames(s), s.maxPid + 1, m);
  }

  // ---------- Brk ----------

  lemma BrkKeepsOtherHeaps(s: Sys, address: int, p: int, limit: int)
    requires Good(s) && BrkEnabled(s, address) && Lives(s, p) && p != s.ptbr
    ensures var r := BrkStep(s, address).0; Inv(r) && Lives(r, p) && SameHeap(s, r, p, limit)
  {
    hide Linked, FreeIffUncounted, FrameRefs, Refs, RingRefs, Maps, TableShape, Distinct, Conserved, Space, BrkStep,
      HeapOk, BrkEnabled;
    BrkKeepsGood(s, address);
    BrkLeavesOthers(s, address);
  }

  lemma GrownStaysExact(t: seq<PTE>, u: seq<PTE>, heap: nat, brk: nat, k: nat, limit: int)
    requires |u| == |t| && HeapExact(heap, brk, t, limit) && heap <= brk
    requires forall i :: 0 <= i < |t| ==> (u[i].flags.valid <==> brk <= i < brk + k || t[i].flags.valid)
    ensures HeapExact(heap, brk + k, u, limit)
  {
  }

  lemma ShrunkStaysExact(t: seq<PTE>, u: seq<PTE>, heap: nat, now: nat, brk: nat, limit: int)
    requires |u| == |t| && HeapExact(heap, brk, t, limit) && now <= brk
    requires forall i :: 0 <= i < |t| ==> (u[i].flags.valid <==> t[i].flags.valid && !(now <= i < brk))
    ensures HeapExact(heap, now, u, limit)
  {
  }

  /** The caller's own Brk moves the break and the valid entries together. */
  lemma BrkStaysExact(s: Sys, address: int, limit: int)
    requires Good(s) && BrkEnabled(s, address) && Lives(s, s.ptbr) && ExactUpTo(s, s.ptbr, limit)
      && Gentle(s, DoBrk(address), s.ptbr)
    ensures var r := BrkStep(s, address).0; Inv(r) && Lives(r, s.ptbr) && ExactUpTo(r, s.ptbr, limit)
  {
    hide Linked, FreeIffUncounted, FrameRefs, Refs, RingRefs, Maps, TableShape, Distinct, Conserved, BrkStep, HeapOk,
      BrkEnabled, HeapExact, KernelOwns;
    BrkKeepsGood(s, address);
    BrkLeavesOthers(s, address);
    CurrentInfo(s);
    BrkTable(s, address);
    BrkLimits(s, address);
    HeapLimits(s);
    var r := BrkStep(s, address).0;
    CurrentInfo(r);
    var t, u := s.procs[s.ptbr].table, r.procs[s.ptbr].table;
    var heap, brk, up := PageOf(Info(s, HEAP_START)), PageOf(Info(s, CURRENT_BRK)), PageOf(UpToPage(address));
    if BrkGrows(s, address) {
      GrownStaysExact(t, u, heap, brk, Granted(s, address), limit);
    } else if BrkShrinks(s, address) {
      ShrunkStaysExact(t, u, heap, up, brk, limit);
    } else {
      ShrunkStaysExact(t, u, heap, brk, brk, limit);
    }
  }

  // ---------- every event, and every run ----------

  lemma StepStaysExact(s: Sys, e: Event, p: int, limit: int)
    requires Good(s) && Enabled(s, e) && Lives(s, p) && Lives(Step(s, e), p)
    requires Gentle(s, e, p) && ExactUpTo(s, p, limit) && limit <= StackOf(s, p)
    ensures Good(Step(s, e)) && ExactUpTo(Step(s, e), p, limit)
  {
    hide Linked, FreeIffUncounted, FrameRefs, Refs, RingRefs, Maps, TableShape, Distinct, Conserved, Space, HeapOk,
      StoreStep, SpawnStep, BrkStep, KernelBrkStep, ExecStep, ExitStep, StoreEnabled, BrkEnabled, ExecEnabled,
      KernelOwns, CharCounts, SameHeap, ExactUpTo;
    StepKeepsGood(s, e);
    if e.DoBrk? && p == s.ptbr {
      BrkStaysExact(s, e.address, limit);
    } else {
      OtherStepKeepsHeap(s, e, p, limit);
      SameHeapIsExact(s, Step(s, e), p, limit);
    }
  }

  lemma OtherStepKeepsHeap(s: Sys, e: Event, p: int, limit: int)
    requires Good(s) && Enabled(s, e) && Lives(s, p) && Lives(Step(s, e), p) && Good(Step(s, e))
    requires Gentle(s, e, p) && limit <= StackOf(s, p) && !(e.DoBrk? && p == s.ptbr)
    ensures SameHeap(s, Step(s, e), p, limit)
  {
    hide Linked, FreeIffUncounted, FrameRefs, Refs, RingRefs, Maps, TableShape, Distinct, Conserved, Space, HeapOk,
      StoreStep, SpawnStep, BrkStep, KernelBrkStep, ExecStep, ExitStep, StoreEnabled, BrkEnabled, ExecEnabled,
      KernelOwns, CharCounts;
    match e
    case DoStore(address, value) => StoreKeepsHeap(s, address, value, p, limit);
    case DoMoveStack(sp) =>
    case DoFork(context) => SpawnKeepsHeaps(s, context, false, p, limit);
    case DoThread(context) => SpawnKeepsHeaps(s, context, true, p, limit);
    case DoBrk(address) => BrkKeepsOtherHeaps(s, address, p, limit);
    case DoKernelBrk(address) => KernelBrkKeepsInv(s, address);
    case DoExec(layout, image, sp) => ExecIsRight(s, layout, image, sp);
    case DoSwitch(target, context) => SwitchIsRight(s, target, context); SwitchParts(s, target, context);
    case DoExit(next, context) => ExitIsRight(s, next, context);
    case DoReap(child) => ForgetKeepsInv(s, child);
  }

  /** p lives through the run, does not exec, and its growing breaks get their frames. */
  ghost predicate Tame(s: Sys, es: seq<Event>, p: int)
    requires Good(s) && Possible(s, es)
    decreases es
  {
    && Lives(s, p)
    && (es != [] ==> Gentle(s, es[0], p) && (StepKeepsGood(s, es[0]); Tame(Step(s, es[0]), es[1..], p)))
  }

  /** The deepest page that p's stack pointer has been in. */
  ghost function DeepestStack(s: Sys, es: seq<Event>, p: int): int
    requires Good(s) && Possible(s, es)
    decreases es
  {
    if es == [] then StackOf(s, p)
    else
      StepKeepsGood(s, es[0]);
      var later := DeepestStack(Step(s, es[0]), es[1..], p);
      if later < StackOf(s, p) then later else StackOf(s, p)
  }

  lemma {:induction false} RunStaysExact(s: Sys, es: seq<Event>, p: int, limit: int)
    requires Good(s) && Possible(s, es) && Tame(s, es, p) && ExactUpTo(s, p, limit) && limit <= DeepestStack(s, es, p)
    ensures Lives(Run(s, es), p) && ExactUpTo(Run(s, es), p, limit)
    decreases es
  {
    hide Inv, HeapsOk, CharCounts, Enabled, Step, ExactUpTo, Gentle, StackOf;
    if es != [] {
      StepKeepsGood(s, es[0]);
      StepStaysExact(s, es[0], p, limit);
      RunStaysExact(Step(s, es[0]), es[1..], p, limit);
    }
  }

  /** Right after exec nothing is mapped between the heap, which is empty, and the stack. */
  lemma ExecIsExact(s: Sys, l: Layout, image: seq<Page>, sp: int)
    requires Good(s) && ExecEnabled(s, l, image, sp)
    ensures var r := ExecStep(s, l, image, sp);
      Good(r) && Lives(r, s.ptbr) && ExactUpTo(r, s.ptbr, StackOf(r, s.ptbr))
  {
    hide Linked, FreeIffUncounted, FrameRefs, Refs, RingRefs, Maps, TableShape, Distinct, Conserved, HeapOk, ExecStep,
      KernelOwns;
    StepKeepsGood(s, DoExec(l, image, sp));
    ExecIsRight(s, l, image, sp);
    var r := ExecStep(s, l, image, sp);
    CurrentInfo(r);
    LoadedIsExact(r.mem, r.procs[s.ptbr].table, l, image);
    assert PageOf(DownToPage(sp)) == StackStart(l);
  }

  lemma LoadedIsExact(m: Phys, t: seq<PTE>, l: Layout, image: seq<Page>)
    requires FramesExist(m) && EntriesExist(m, t) && |t| == TABLE_LEN == |image| && LayoutFits(l)
    requires Space(m, t) == Loaded(l, image) || Abandoned(l, Space(m, t))
    ensures HeapExact(l.data + l.dataPages, l.data + l.dataPages, t, StackStart(l))
  {
    forall i | 0 <= i < TABLE_LEN
      ensures t[i].flags.valid ==> InText(l, i) || InDataOrStack(l, i)
    {
      if Space(m, t) == Loaded(l, image) {
        assert Space(m, t)[i] == Loaded(l, image)[i];
      } else {
        assert Space(m, t)[i].Present? <==> t[i].flags.valid;
      }
    }
  }

  /** Main result on heaps: since its exec, and as long as its growing breaks got their frames, a process
      has from heap start to the deepest stack so far exactly the pages below its break. */
  lemma HeapIsExactSinceExec(s: Sys, l: Layout, image: seq<Page>, sp: int, es: seq<Event>)
    requires Good(s) && ExecEnabled(s, l, image, sp)
    requires Good(ExecStep(s, l, image, sp)) && Possible(ExecStep(s, l, image, sp), es)
    requires Tame(ExecStep(s, l, image, sp), es, s.ptbr)
    ensures var a := ExecStep(s, l, image, sp);
      Lives(Run(a, es), s.ptbr) && ExactUpTo(Run(a, es), s.ptbr, DeepestStack(a, es, s.ptbr))
  {
    hide Inv, HeapsOk, CharCounts, ExecStep, ExactUpTo, Tame, ExecEnabled, DeepestStack, HeapExact;
    ExecIsExact(s, l, image, sp);
    var a := ExecStep(s, l, image, sp);
    DeepestIsDeep(a, es, s.ptbr);
    ExactBelow(a, s.ptbr, StackOf(a, s.ptbr), DeepestStack(a, es, s.ptbr));
    RunStaysExact(a, es, s.ptbr, DeepestStack(a, es, s.ptbr));
  }

  lemma DeepestIsDeep(s: Sys, es: seq<Event>, p: int)
    requires Good(s) && Possible(s, es)
    ensures DeepestStack(s, es, p) <= StackOf(s, p)
  {
    hide Inv, HeapsOk, CharCounts, StackOf, Step, Enabled;
  }

  lemma ExactBelow(s: Sys, p: int, limit: int, lower: int)
    requires Inv(s) && Lives(s, p) && ExactUpTo(s, p, limit) && lower <= limit
    ensures ExactUpTo(s, p, lower)
  {
  }
}
