/**
  Copy-on-write refines eager copying.  The ideal machine below knows no frames, counts or
  copy-on-write bits: each process has its own pages and fork copies them all.
 */
module Refinement {
  import opened Hardware
  import opened FrameList
  import opened AddressSpace
  import opened UserSpace
  import opened Exec
  import opened Fork
  import opened KernelState
  import opened KernelSteps
  import opened HeapSteps
  import opened ProcessSteps
  import opened KernelRuns

  type Spaces = map<int, seq<UserPage>>

  /** What can happen on the ideal machine.  The contents of fresh pages are given with the deed,
      since the kernel does not clear the frames it hands out. */
  datatype Deed =
    | Nothing
    | Stored(p: int, page: nat, inStack: bool, word: nat, value: int, found: Page)
    | Copied(p: int, child: int)
    | Mapped(p: int, start: nat, pages: seq<Page>)
    | Unmapped(p: int, start: nat, n: nat)
    | Replaced(p: int, layout: Layout, image: seq<Page>)
    | Gutted(p: int, layout: Layout, left: seq<UserPage>)
    | Ended(p: int)

  predicate Fits(spaces: Spaces, d: Deed) {
    match d
    case Nothing => true
    case Stored(p, page, _, word, _, _) => p in spaces && page < |spaces[p]| && word < PAGE_WORDS
    case Copied(p, child) => p in spaces && child !in spaces
    case Mapped(p, start, pages) => p in spaces && start + |pages| <= |spaces[p]|
    case Unmapped(p, start, n) => p in spaces && start + n <= |spaces[p]|
    case Replaced(p, _, image) => p in spaces && |image| == TABLE_LEN
    case Gutted(p, layout, left) => p in spaces && |left| == TABLE_LEN && Abandoned(layout, left)
    case Ended(p) => p in spaces
  }

  function Do(spaces: Spaces, d: Deed): Spaces
    requires Fits(spaces, d)
  {
    match d
    case Nothing => spaces
    case Stored(p, page, inStack, word, value, found) =>
      spaces[p := StoreSeen(spaces[p], page, inStack, word, value, found)]
    case Copied(p, child) => spaces[child := spaces[p]]
    case Mapped(p, start, pages) => spaces[p := GrowSeen(spaces[p], start, pages)]
    case Unmapped(p, start, n) => spaces[p := ShrinkSeen(spaces[p], start, n)]
    case Replaced(p, layout, image) => spaces[p := Loaded(layout, image)]
    case Gutted(p, _, left) => spaces[p := left]
    case Ended(p) => spaces - {p}
  }

  /** What every running process sees. */
  ghost function Views(s: Sys): Spaces
    requires Shape(s)
  {
    map p | p in s.procs && s.procs[p].running :: Space(s.mem, s.procs[p].table)
  }

  ghost function BrkMeaning(s: Sys, address: int): Deed
    requires Good(s) && NoSharedWriters(s) && BrkEnabled(s, address)
  {
    CurrentInfo(s);
    BrkIsSeen(s, address);
    var r, brk, up := BrkStep(s, address).0, PageOf(Info(s, CURRENT_BRK)), PageOf(UpToPage(address));
    if BrkGrows(s, address) then
      Mapped(s.ptbr, brk, Found(r.mem, r.procs[s.ptbr].table, brk, Granted(s, address)))
    else if BrkShrinks(s, address) then
      Unmapped(s.ptbr, up, brk - up)
    else
      Nothing
  }

  /** An exec that runs out of frames leaves pages of the new program, with what the frames held. */
  ghost function ExecMeaning(s: Sys, l: Layout, image: seq<Page>, sp: int): Deed
    requires Good(s) && ExecEnabled(s, l, image, sp)
  {
    ExecIsRight(s, l, image, sp);
    var r := ExecStep(s, l, image, sp);
    if ExecServed(s, l) then Replaced(s.ptbr, l, image)
    else Gutted(s.ptbr, l, Space(r.mem, r.procs[s.ptbr].table))
  }

  /** What an event of the kernel is on the ideal machine. */
  ghost function Meaning(s: Sys, e: Event): Deed
    requires Good(s) && NoSharedWriters(s) && Enabled(s, e)
  {
    match e
    case DoStore(address, value) =>
      Stored(s.ptbr, PageOf(address), InStack(s.procs[s.ptbr].sp, address), WordOf(address), value, FreshPage(s.mem))
    case DoFork(_) => Copied(s.ptbr, s.maxPid + 1)
    case DoBrk(address) => BrkMeaning(s, address)
    case DoExec(layout, image, sp) => ExecMeaning(s, layout, image, sp)
    case DoExit(_, _) => Ended(s.ptbr)
    case _ => Nothing
  }

  lemma ViewsOf(s: Sys, p: int)
    requires Inv(s) && p in s.procs && s.procs[p].running
    ensures p in Views(s) && Views(s)[p] == Space(s.mem, s.procs[p].table) && |Views(s)[p]| == TABLE_LEN
  {
  }

  /** One process's view is new, all others are as before. */
  lemma OneViewChanges(s: Sys, r: Sys, p: int)
    requires Inv(s) && Inv(r) && p in r.procs && r.procs[p].running
    requires forall q :: q in r.procs && r.procs[q].running && q != p ==> q in s.procs && s.procs[q].running
    requires forall q :: q in s.procs && s.procs[q].running && q != p ==>
      q in r.procs && r.procs[q].running && Space(r.mem, r.procs[q].table) == Space(s.mem, s.procs[q].table)
    ensures Views(r) == Views(s)[p := Space(r.mem, r.procs[p].table)]
  {
    hide Linked, FreeIffUncounted, FrameRefs, Refs, RingRefs, Maps, TableShape, Distinct, Conserved, Space;
    var a, b := Views(r), Views(s)[p := Space(r.mem, r.procs[p].table)];
    forall q
      ensures q in a <==> q in b
      ensures q in a ==> a[q] == b[q]
    {
    }
  }

  lemma StoreRefines(s: Sys, address: int, value: int)
    requires Good(s) && NoSharedWriters(s) && StoreEnabled(s, address)
    ensures var e, r := DoStore(address, value), StoreStep(s, address, value);
      Inv(r) && NoSharedWriters(r) && Fits(Views(s), Meaning(s, e)) && Views(r) == Do(Views(s), Meaning(s, e))
  {
    hide Linked, FreeIffUncounted, FrameRefs, Refs, RingRefs, Maps, TableShape, Distinct, Conserved, Space, Store,
      StoreSeen, HeapOk, Local;
    StoreKeepsInv(s, address, value);
    ViewsOf(s, s.ptbr);
    var r := StoreStep(s, address, value);
    forall q | q in s.procs && s.procs[q].running && q != s.ptbr
      ensures Space(r.mem, s.procs[q].table) == Space(s.mem, s.procs[q].table)
    {
      LocalLeavesOthers(s, s.ptbr, r.mem, r.procs[s.ptbr].table, q);
    }
  }

  lemma ForkRefines(s: Sys, context: int)
    requires Good(s) && NoSharedWriters(s) && SpawnEnabled(s)
    ensures var e, r := DoFork(context), SpawnStep(s, context, false);
      Inv(r) && NoSharedWriters(r) && Fits(Views(s), Meaning(s, e)) && Views(r) == Do(Views(s), Meaning(s, e))
  {
    hide Linked, FreeIffUncounted, FrameRefs, Refs, RingRefs, Maps, TableShape, Distinct, Conserved, Space, SpawnStep,
      SpawnParts, SpawnPossible, CountsFit, HeapOk, Shape, KernelOwns, StacksOwned;
    ForkCopiesTheView(s, context);
    CurrentInfo(s);
    ViewsOf(s, s.ptbr);
    var r, child := SpawnStep(s, context, false), s.maxPid + 1;
    var m := SpawnHasParts(s, context, false);
    SpawnedProcs(s, r, m, false, context);
    OneViewChanges(s, r, child);
  }

  lemma BrkRefines(s: Sys, address: int)
    requires Good(s) && NoSharedWriters(s) && BrkEnabled(s, address)
    ensures var e, r := DoBrk(address), BrkStep(s, address).0;
      Inv(r) && NoSharedWriters(r) && Fits(Views(s), Meaning(s, e)) && Views(r) == Do(Views(s), Meaning(s, e))
  {
    hide Inv, NoSharedWriters, Space, HeapsOk, CharCounts, Views, BrkStep, BrkEnabled, GrowSeen, ShrinkSeen, Found;
    CurrentInfo(s);
    BrkIsSeen(s, address);
    BrkLeavesOthers(s, address);
    ViewsOf(s, s.ptbr);
    var r := BrkStep(s, address).0;
    forall q | q in r.procs
      ensures q in s.procs
    {
      assert q in r.procs.Keys;
    }
    OneViewChanges(s, r, s.ptbr);
    if !BrkGrows(s, address) && !BrkShrinks(s, address) {
      assert r == s;
    }
  }

  lemma BrkLeavesOthers(s: Sys, address: int)
    requires Good(s) && BrkEnabled(s, address)
    ensures var r := BrkStep(s, address).0;
      && r.procs.Keys == s.procs.Keys && r.ptbr == s.ptbr && r.procs[s.ptbr].running
      && FramesExist(r.mem)
      && forall q :: q in s.procs && q != s.ptbr ==>
           && r.procs[q] == s.procs[q]
           && (s.procs[q].running ==>
                 && EntriesExist(r.mem, s.procs[q].table)
                 && Space(r.mem, s.procs[q].table) == Space(s.mem, s.procs[q].table)
                 && r.mem.pages[s.procs[q].pcb[0]] == s.mem.pages[s.procs[q].pcb[0]])
  {
    hide Linked, FreeIffUncounted, FrameRefs, Refs, RingRefs, Maps, TableShape, Distinct, Conserved, Space, Grow,
      Shrink, Local;
    CurrentInfo(s);
    ProcessCovered(s, s.ptbr);
    var t := s.procs[s.ptbr].table;
    var brk, up := Info(s, CURRENT_BRK), UpToPage(address);
    assert HeapOk(s.mem.pages[s.procs[s.ptbr].pcb[0]], t);
    if BrkGrows(s, address) {
      var start, n := PageOf(brk), (up - brk) / PAGE_SIZE;
      assert PageOf(up) == start + n;
      GrowIsLocal(s.mem, t, start, n);
      GrowKeepsShape(s.mem, t, start, n);
      var (m, u, ok) := Grow(s.mem, t, start, n);
      LocalThenBreakLeaves(s, m, u, up);
    } else if BrkShrinks(s, address) {
      var start, n := PageOf(up), (brk - up) / PAGE_SIZE;
      assert PageOf(brk) == start + n && PageOf(Info(s, HEAP_START)) <= start;
      ShrinkIsLocal(s.mem, t, start, n);
      ShrinkKeepsShape(s.mem, t, start, n);
      var (m, u) := Shrink(s.mem, t, start, n);
      LocalThenBreakLeaves(s, m, u, up);
    }
  }

  lemma ShrinkKeepsShape(m: Phys, t: seq<PTE>, start: nat, n: nat)
    requires FramesExist(m) && TableShape(t) && start + n <= |t| && forall i :: start <= i < start + n ==>
      t[i].pfn < |m.counts|
    ensures TableShape(Shrink(m, t, start, n).1)
  {
    hide Shrink;
  }

  lemma LocalThenBreakLeaves(s: Sys, n: Phys, u: seq<PTE>, up: int)
    requires Inv(s) && Local(s.mem, s.procs[s.ptbr].table, n, u) && TableShape(u)
    ensures var a := Update(s, s.ptbr, n, u);
      && InfoMapped(a) && FramesExist(n)
      && var b := SetInfo(a, CURRENT_BRK, up);
         FramesExist(b.mem)
         && forall q :: q in s.procs && q != s.ptbr && s.procs[q].running ==>
              && EntriesExist(n, s.procs[q].table) && EntriesExist(b.mem, s.procs[q].table)
              && Space(n, s.procs[q].table) == Space(s.mem, s.procs[q].table)
              && Space(b.mem, s.procs[q].table) == Space(s.mem, s.procs[q].table)
              && n.pages[s.procs[q].pcb[0]] == b.mem.pages[s.procs[q].pcb[0]] == s.mem.pages[s.procs[q].pcb[0]]
  {
    hide Linked, FreeIffUncounted, FrameRefs, Refs, RingRefs, Maps, TableShape, Distinct, Conserved, Space, Local;
    LocalKeepsInv(s, s.ptbr, n, u);
    var a := Update(s, s.ptbr, n, u);
    CurrentInfo(a);
    SetInfoKeepsInv(a, CURRENT_BRK, up);
    forall q | q in s.procs && q != s.ptbr && s.procs[q].running
      ensures Space(n, s.procs[q].table) == Space(s.mem, s.procs[q].table)
      ensures n.pages[s.procs[q].pcb[0]] == s.mem.pages[s.procs[q].pcb[0]]
    {
      LocalKeepsInfo(s, s.ptbr, n, u, q);
      LocalLeavesOthers(s, s.ptbr, n, u, q);
    }
  }

  lemma ExecRefines(s: Sys, l: Layout, image: seq<Page>, sp: int)
    requires Good(s) && NoSharedWriters(s) && ExecEnabled(s, l, image, sp)
    ensures var e, r := DoExec(l, image, sp), ExecStep(s, l, image, sp);
      Inv(r) && NoSharedWriters(r) && Fits(Views(s), Meaning(s, e)) && Views(r) == Do(Views(s), Meaning(s, e))
  {
    hide Linked, FreeIffUncounted, FrameRefs, Refs, RingRefs, Maps, TableShape, Distinct, Conserved, Space, HeapOk,
      ExecStep, Loaded, Abandoned, ExecServed;
    ExecIsRight(s, l, image, sp);
    ViewsOf(s, s.ptbr);
    var r := ExecStep(s, l, image, sp);
    ViewsOf(r, s.ptbr);
    assert forall q :: q in r.procs ==> q in s.procs by {
      assert forall q :: q in r.procs.Keys ==> q in s.procs.Keys;
    }
    OneViewChanges(s, r, s.ptbr);
  }

  /** One process is gone, all others see what they saw. */
  lemma OneViewGoes(s: Sys, r: Sys, p: int)
    requires Inv(s) && Inv(r) && !Lives(r, p) && r.procs.Keys <= s.procs.Keys
    requires forall q :: q in s.procs && q != p ==>
      && q in r.procs && r.procs[q] == s.procs[q]
      && (s.procs[q].running ==> Space(r.mem, s.procs[q].table) == Space(s.mem, s.procs[q].table))
    ensures Views(r) == Views(s) - {p}
  {
    hide Linked, FreeIffUncounted, FrameRefs, Refs, RingRefs, Maps, TableShape, Distinct, Conserved, Space,
      KernelOwns;
    var a, b := Views(r), Views(s) - {p};
    forall q
      ensures q in a <==> q in b
      ensures q in a ==> a[q] == b[q]
    {
      assert q in r.procs ==> q in r.procs.Keys;
    }
    assert a == b;
  }

  lemma ExitRefines(s: Sys, next: int, context: int)
    requires Good(s) && NoSharedWriters(s) && ExitEnabled(s, next)
    ensures var e, r := DoExit(next, context), ExitStep(s, next, context);
      Inv(r) && NoSharedWriters(r) && Fits(Views(s), Meaning(s, e)) && Views(r) == Do(Views(s), Meaning(s, e))
  {
    hide Linked, FreeIffUncounted, FrameRefs, Refs, RingRefs, Maps, TableShape, Distinct, Conserved, Space, HeapOk,
      ExitStep, Views, KernelOwns, StacksOwned, ExitEnabled;
    ExitIsRight(s, next, context);
    CurrentInfo(s);
    ViewsOf(s, s.ptbr);
    OneViewGoes(s, ExitStep(s, next, context), s.ptbr);
  }

  /** The steps that the ideal machine does not notice. */
  lemma SilentRefines(s: Sys, e: Event)
    requires Good(s) && NoSharedWriters(s) && Enabled(s, e)
    requires e.DoMoveStack? || e.DoKernelBrk? || e.DoSwitch? || e.DoReap?
    ensures Good(Step(s, e)) && NoSharedWriters(Step(s, e)) && Views(Step(s, e)) == Views(s)
  {
    hide Linked, FreeIffUncounted, FrameRefs, Refs, RingRefs, Maps, TableShape, Distinct, Conserved, Space, HeapOk,
      KernelBrkStep;
    StepKeepsGood(s, e);
    match e
    case DoMoveStack(sp) => MoveStackKeepsInv(s, sp);
    case DoKernelBrk(address) =>
      KernelBrkKeepsInv(s, address);
      ViewsOf(s, s.ptbr);
      OneViewChanges(s, KernelBrkStep(s, address).0, s.ptbr);
    case DoSwitch(target, context) =>
      SwitchIsRight(s, target, context);
      SwitchKeepsSole(s, target, context);
      SwitchParts(s, target, context);
    case DoReap(child) => ForgetKeepsInv(s, child);
  }

  /** One step of the kernel is one deed on the ideal machine; thread creation, which shares writable
      frames on purpose, is the one step left out. */
  lemma StepRefines(s: Sys, e: Event)
    requires Good(s) && NoSharedWriters(s) && Enabled(s, e) && !e.DoThread?
    ensures Good(Step(s, e)) && NoSharedWriters(Step(s, e))
    ensures Fits(Views(s), Meaning(s, e)) && Views(Step(s, e)) == Do(Views(s), Meaning(s, e))
  {
    hide Linked, FreeIffUncounted, FrameRefs, Refs, RingRefs, Maps, TableShape, Distinct, Conserved, Space, HeapOk,
      StoreStep, SpawnStep, BrkStep, KernelBrkStep, ExecStep, ExitStep, StoreEnabled, BrkEnabled, ExecEnabled,
      BrkMeaning, ExecMeaning, Do;
    StepKeepsGood(s, e);
    match e
    case DoStore(address, value) => StoreRefines(s, address, value);
    case DoFork(context) => ForkRefines(s, context);
    case DoBrk(address) => BrkRefines(s, address);
    case DoExec(layout, image, sp) => ExecRefines(s, layout, image, sp);
    case DoExit(next, context) => ExitRefines(s, next, context);
    case DoThread(_) => assert false;
    case DoMoveStack(_) => SilentRefines(s, e); DoNothing(Views(s));
    case DoKernelBrk(_) => SilentRefines(s, e); DoNothing(Views(s));
    case DoSwitch(_, _) => SilentRefines(s, e); DoNothing(Views(s));
    case DoReap(_) => SilentRefines(s, e); DoNothing(Views(s));
  }

  lemma DoNothing(spaces: Spaces)
    ensures Do(spaces, Nothing) == spaces
  {
  }

  // ---------- runs ----------

  /** Each event of a run is possible when its turn comes. */
  ghost predicate Possible(s: Sys, es: seq<Event>)
    requires Good(s)
    decreases es
  {
    es == [] || (Enabled(s, es[0]) && (StepKeepsGood(s, es[0]); Possible(Step(s, es[0]), es[1..])))
  }

  ghost function Run(s: Sys, es: seq<Event>): (r: Sys)
    requires Good(s) && Possible(s, es)
    ensures Good(r)
    decreases es
  {
    if es == [] then s else StepKeepsGood(s, es[0]); Run(Step(s, es[0]), es[1..])
  }

  predicate ForkOnly(es: seq<Event>) {
    forall i :: 0 <= i < |es| ==> !es[i].DoThread?
  }

  ghost predicate AllFit(spaces: Spaces, deeds: seq<Deed>)
    decreases deeds
  {
    deeds == [] || (Fits(spaces, deeds[0]) && AllFit(Do(spaces, deeds[0]), deeds[1..]))
  }

  ghost function DoAll(spaces: Spaces, deeds: seq<Deed>): Spaces
    requires AllFit(spaces, deeds)
    decreases deeds
  {
    if deeds == [] then spaces else DoAll(Do(spaces, deeds[0]), deeds[1..])
  }

  ghost function Meanings(s: Sys, es: seq<Event>): (deeds: seq<Deed>)
    requires Good(s) && NoSharedWriters(s) && Possible(s, es) && ForkOnly(es)
    ensures |deeds| == |es|
    decreases es
  {
    if es == [] then []
    else
      StepRefines(s, es[0]);
      [Meaning(s, es[0])] + Meanings(Step(s, es[0]), es[1..])
  }

  /** Main result: over every run of stores, faults, forks, breaks, execs, switches and exits, what the
      processes see is what they would see if fork copied the whole address space. */
  lemma {:induction false} CopyOnWriteRefinesEagerCopy(s: Sys, es: seq<Event>)
    requires Good(s) && NoSharedWriters(s) && Possible(s, es) && ForkOnly(es)
    ensures NoSharedWriters(Run(s, es))
    ensures AllFit(Views(s), Meanings(s, es))
    ensures Views(Run(s, es)) == DoAll(Views(s), Meanings(s, es))
    decreases es
  {
    hide Inv, HeapsOk, NoSharedWriters, Enabled, Step, Meaning, Fits, Do, Views;
    if es != [] {
      StepRefines(s, es[0]);
      var deeds := Meanings(s, es);
      assert deeds[1..] == Meanings(Step(s, es[0]), es[1..]);
      CopyOnWriteRefinesEagerCopy(Step(s, es[0]), es[1..]);
    }
  }

  /** Over a run, q itself does nothing that is meant to change what it sees. */
  ghost predicate QuietFor(s: Sys, es: seq<Event>, q: int)
    requires Good(s) && Possible(s, es)
    decreases es
  {
    es == [] ||
    (&& (s.ptbr == q ==> !(es[0].DoStore? || es[0].DoBrk? || es[0].DoExec? || es[0].DoExit?))
     && (StepKeepsGood(s, es[0]); QuietFor(Step(s, es[0]), es[1..], q)))
  }

  /** Isolation: whatever the others do, in any interleaving, a process that does not change its memory
      itself sees no change; in particular a parent never sees its child's writes, nor a child its parent's. */
  lemma {:induction false} OthersNeverShow(s: Sys, es: seq<Event>, q: int)
    requires Good(s) && NoSharedWriters(s) && Possible(s, es) && ForkOnly(es)
    requires q in Views(s) && QuietFor(s, es, q)
    ensures q in Views(Run(s, es)) && Views(Run(s, es))[q] == Views(s)[q]
    decreases es
  {
    if es != [] {
      StepLeaves(s, es[0], q);
      hide Inv, HeapsOk, NoSharedWriters, Enabled, Step, Views;
      StepRefines(s, es[0]);
      OthersNeverShow(Step(s, es[0]), es[1..], q);
    }
  }

  lemma StepLeaves(s: Sys, e: Event, q: int)
    requires Good(s) && NoSharedWriters(s) && Enabled(s, e) && !e.DoThread? && q in Views(s)
    requires s.ptbr == q ==> !(e.DoStore? || e.DoBrk? || e.DoExec? || e.DoExit?)
    ensures Good(Step(s, e)) && q in Views(Step(s, e)) && Views(Step(s, e))[q] == Views(s)[q]
  {
    hide Linked, FreeIffUncounted, FrameRefs, Refs, RingRefs, Maps, TableShape, Distinct, Conserved, Space, HeapOk,
      StoreStep, SpawnStep, BrkStep, KernelBrkStep, ExecStep, ExitStep, StoreEnabled, BrkEnabled, ExecEnabled, Step,
      StoreSeen, GrowSeen, ShrinkSeen, Loaded;
    StepRefines(s, e);
  }
}
