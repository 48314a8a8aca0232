/**
  Runs of the kernel: every sequence of system calls, stores, faults and switches.  The main results
  are that all of them keep the invariant, and that runs without threads are runs of a machine in
  which fork copies the whole address space.
 */
module KernelRuns {
  import opened Hardware
  import opened FrameList
  import opened AddressSpace
  import opened UserSpace
  import opened Exec
  import opened Fork
  import opened KernelState
  import opened KernelSteps
  import opened HeapSteps
  import opened ProcessSteps
  import opened CountRange

  datatype Event =
    | DoStore(address: int, value: int)
    | DoMoveStack(sp: int)
    | DoFork(context: int)
    | DoThread(context: int)
    | DoBrk(address: int)
    | DoKernelBrk(address: int)
    | DoExec(layout: Layout, image: seq<Page>, sp: int)
    | DoSwitch(target: int, context: int)
    | DoExit(next: int, context: int)
    | DoReap(child: int)

  ghost predicate Good(s: Sys) {
    Inv(s) && HeapsOk(s) && CharCounts(s.mem)
  }

  ghost predicate Enabled(s: Sys, e: Event)
    requires Good(s)
  {
    match e
    case DoStore(address, _) => StoreEnabled(s, address)
    case DoMoveStack(sp) => REGION1_BASE <= sp <= REGION1_LIMIT
    case DoFork(_) => SpawnEnabled(s)
    case DoThread(_) => SpawnEnabled(s)
    case DoBrk(address) => BrkEnabled(s, address)
    case DoKernelBrk(address) => KernelBrkEnabled(s, address)
    case DoExec(layout, image, sp) => ExecEnabled(s, layout, image, sp)
    case DoSwitch(target, _) => SwitchEnabled(s, target)
    case DoExit(next, _) => ExitEnabled(s, next)
    case DoReap(child) => child in s.procs && !s.procs[child].running && s.procs[child].parent == s.ptbr
  }

  ghost function Step(s: Sys, e: Event): Sys
    requires Good(s) && Enabled(s, e)
  {
    match e
    case DoStore(address, value) => StoreStep(s, address, value)
    case DoMoveStack(sp) => WithStack(s, sp)
    case DoFork(context) => SpawnStep(s, context, false)
    case DoThread(context) => SpawnStep(s, context, true)
    case DoBrk(address) => BrkStep(s, address).0
    case DoKernelBrk(address) => KernelBrkStep(s, address).0
    case DoExec(layout, image, sp) => ExecStep(s, layout, image, sp)
    case DoSwitch(target, context) => CurrentInfo(s); SwitchIsRight(s, target, context); SwitchStep(s, target, context)
    case DoExit(next, context) => ExitStep(s, next, context)
    case DoReap(child) => Forget(s, child)
  }

  // ---------- every step keeps the invariant ----------

  lemma StoreKeepsValid(m: Phys, t: seq<PTE>, i: nat, inStack: bool, word: nat, value: int)
    requires FramesExist(m) && EntriesExist(m, t) && i < |t| && word < PAGE_WORDS
    requires t[i].flags.cow ==> t[i].flags.valid
    requires !Writable(t[i]) && TrapNeedsFrame(m, t[i], inStack) ==> m.free != []
    ensures var u := Store(m, t, i, inStack, word, value).1;
      |u| == |t| && forall j :: 0 <= j < |t| && t[j].flags.valid ==> u[j].flags.valid
  {
    hide FramesExist, Alloc, Linked;
  }

  /** No store reaches a kernel stack frame: the info pages stay as they are. */
  lemma StoreKeepsInfo(s: Sys, address: int, value: int, q: int)
    requires Inv(s) && StoreEnabled(s, address) && q in s.procs && s.procs[q].running
    ensures var f := s.procs[q].pcb[0];
      && f < |s.mem.pages| && f < |StoreStep(s, address, value).mem.pages|
      && StoreStep(s, address, value).mem.pages[f] == s.mem.pages[f]
  {
    hide Linked, FreeIffUncounted, FrameRefs, Refs, RingRefs, Maps, TableShape, Distinct, Conserved, Local, Trap;
    var p, i := s.procs[s.ptbr], PageOf(address);
    ShapeParts(p.table);
    CurrentInfo(s);
    ProcessCovered(s, s.ptbr);
    StackNotUser(s, q, s.ptbr, 0);
    if Writable(p.table[i]) {
      RefsPositive(p.table, i);
    } else {
      var inStack := InStack(p.sp, address);
      TrapKeepsInvIff(s, address);
      TrapIsLocal(s.mem, p.table, i, inStack);
      var (n, u) := Trap(s.mem, p.table, i, inStack);
      LocalKeepsInfo(s, s.ptbr, n, u, q);
      var r := TrapStep(s, address);
      CurrentInfo(r);
      StackNotUser(r, q, s.ptbr, 0);
      if Writable(u[i]) {
        RefsPositive(u, i);
      }
    }
  }

  lemma StoreKeepsGood(s: Sys, address: int, value: int)
    requires Good(s) && StoreEnabled(s, address)
    ensures Good(StoreStep(s, address, value))
  {
    hide Linked, FreeIffUncounted, FrameRefs, Refs, RingRefs, Maps, TableShape, Distinct, Conserved, Store;
    AnyStoreKeepsInv(s, address, value);
    StoreStepKeepsRange(s, address, value);
    CurrentInfo(s);
    var p := s.procs[s.ptbr];
    ShapeParts(p.table);
    StoreKeepsValid(s.mem, p.table, PageOf(address), InStack(p.sp, address), WordOf(address), value);
    var r := StoreStep(s, address, value);
    forall q | q in s.procs && s.procs[q].running
      ensures HeapOk(r.mem.pages[r.procs[q].pcb[0]], r.procs[q].table)
    {
      StoreKeepsInfo(s, address, value, q);
    }
  }

  lemma BrkKeepsGood(s: Sys, address: int)
    requires Good(s) && BrkEnabled(s, address)
    ensures Good(BrkStep(s, address).0)
  {
    hide Linked, FreeIffUncounted, FrameRefs, Refs, RingRefs, Maps, TableShape, Distinct, Conserved, Grow, Shrink;
    CurrentInfo(s);
    BrkStepKeepsRange(s, address);
    if BrkGrows(s, address) {
      BrkGrowKeepsInv(s, address);
    } else if BrkShrinks(s, address) {
      BrkShrinkKeepsInv(s, address);
    }
  }

  lemma OthersKeepHeaps(s: Sys, r: Sys)
    requires Good(s) && Inv(r) && CharCounts(r.mem)
    requires forall q :: q in r.procs && r.procs[q].running ==>
      || (q in s.procs && s.procs[q].running && r.procs[q].table == s.procs[q].table && r.procs[q].pcb == s.procs[q].pcb
          && r.mem.pages[s.procs[q].pcb[0]] == s.mem.pages[s.procs[q].pcb[0]])
      || HeapOk(r.mem.pages[r.procs[q].pcb[0]], r.procs[q].table)
    ensures Good(r)
  {
    hide Linked, FreeIffUncounted, FrameRefs, Refs, RingRefs, Maps, TableShape, Distinct, Conserved, HeapOk;
  }

  lemma StepKeepsGood(s: Sys, e: Event)
    requires Good(s) && Enabled(s, e)
    ensures Good(Step(s, e))
  {
    hide Linked, FreeIffUncounted, FrameRefs, Refs, RingRefs, Maps, TableShape, Distinct, Conserved, Space, HeapOk,
      StoreStep, SpawnStep, BrkStep, KernelBrkStep, ExecStep, ExitStep, StoreEnabled, BrkEnabled, ExecEnabled,
      CharCounts;
    match e
    case DoStore(address, value) => StoreKeepsGood(s, address, value);
    case DoMoveStack(sp) => MoveStackKeepsInv(s, sp); OthersKeepHeaps(s, Step(s, e));
    case DoFork(context) => SpawnKeepsInv(s, context, false); SpawnStepKeepsRange(s, context, false);
    case DoThread(context) => SpawnKeepsInv(s, context, true); SpawnStepKeepsRange(s, context, true);
    case DoBrk(address) => BrkKeepsGood(s, address);
    case DoKernelBrk(address) => KernelBrkKeepsInv(s, address); KernelBrkStepKeepsRange(s, address);
      OthersKeepHeaps(s, Step(s, e));
    case DoExec(layout, image, sp) => ExecIsRight(s, layout, image, sp); ExecStepKeepsRange(s, layout, image, sp);
      OthersKeepHeaps(s, Step(s, e));
    case DoSwitch(target, context) => SwitchIsRight(s, target, context); SwitchParts(s, target, context);
      OthersKeepHeaps(s, Step(s, e));
    case DoExit(next, context) => ExitIsRight(s, next, context); ExitStepKeepsRange(s, next, context);
      OthersKeepHeaps(s, Step(s, e));
    case DoReap(child) => ForgetKeepsInv(s, child); OthersKeepHeaps(s, Step(s, e));
  }

  lemma SwitchParts(s: Sys, target: int, context: int)
    requires Inv(s) && SwitchEnabled(s, target) && InfoMapped(s) && CurrentProcess(s) in s.procs
    ensures var r := SwitchStep(s, target, context);
      forall q :: q in r.procs ==>
        && q in s.procs && r.procs[q].running == s.procs[q].running
        && r.procs[q].table == s.procs[q].table && r.procs[q].pcb == s.procs[q].pcb
  {
  }
}
