/** What the invariant says in plain terms, for every state that a run of the kernel reaches. */
module RunProperties {
  import opened Hardware
  import opened FrameList
  import opened AddressSpace
  import opened UserSpace
  import opened Fork
  import opened KernelState
  import opened KernelSteps
  import opened ProcessSteps
  import opened KernelRuns
  import opened Refinement

  /** Conservation: after any run a frame's count is the number of its valid entries in the page tables
      of running processes, its uses as a kernel stack frame and its kernel mappings; and it is on the
      free list, once, exactly when there is none.  A signed char always holds the count. */
  lemma CountsAreConserved(s: Sys, es: seq<Event>, f: nat)
    requires Good(s) && Possible(s, es) && f < |Run(s, es).mem.counts|
    ensures var r := Run(s, es);
      && 0 <= r.mem.counts[f] <= 127
      && r.mem.counts[f] == RingRefs(r.ring, r.procs, f) + Refs(r.kernelMap, f)
      && (f in r.mem.free <==> Total(r, f) == 0)
      && (forall i, j :: 0 <= i < |r.mem.free| && 0 <= j < |r.mem.free| && r.mem.free[i] == f == r.mem.free[j] ==>
            i == j)
  {
    hide Linked, Run, RingRefs, Refs, FrameRefs;
  }

  /** Sole writer: in runs without threads a page that some process may write is mapped by nobody else,
      nor twice by itself, and its frame has count 1. */
  lemma WritableIsUnshared(s: Sys, es: seq<Event>, p: int, i: nat, q: int, j: nat)
    requires Good(s) && NoSharedWriters(s) && Possible(s, es) && ForkOnly(es)
    requires var r := Run(s, es);
      && p in r.procs && r.procs[p].running && q in r.procs && r.procs[q].running
      && i < TABLE_LEN && j < TABLE_LEN
      && |r.procs[p].table| == |r.procs[q].table| == TABLE_LEN
      && Writable(r.procs[p].table[i])
    ensures var r := Run(s, es);
      && var e, o := r.procs[p].table[i], r.procs[q].table[j];
      && e.pfn < |r.mem.counts| && r.mem.counts[e.pfn] == 1 && !e.flags.cow
      && (o.flags.valid && o.pfn == e.pfn ==> p == q && i == j)
  {
    CopyOnWriteRefinesEagerCopy(s, es);
    SoleMapping(Run(s, es), p, i, q, j);
  }

  lemma SoleMapping(r: Sys, p: int, i: nat, q: int, j: nat)
    requires Inv(r) && NoSharedWriters(r)
    requires p in r.procs && r.procs[p].running && q in r.procs && r.procs[q].running
    requires i < |r.procs[p].table| && j < |r.procs[q].table| && Writable(r.procs[p].table[i])
    ensures var e, o := r.procs[p].table[i], r.procs[q].table[j];
      && e.pfn < |r.mem.counts| && r.mem.counts[e.pfn] == 1 && !e.flags.cow
      && (o.flags.valid && o.pfn == e.pfn ==> p == q && i == j)
  {
    hide Linked, FreeIffUncounted, RingRefs, Refs, FrameRefs, Distinct, Conserved;
    var t, u := r.procs[p].table, r.procs[q].table;
    ProcessCovered(r, p);
    if u[j].flags.valid && u[j].pfn == t[i].pfn && !(p == q && i == j) {
      if p == q {
        if i < j { RefsTwice(t, i, j); } else { RefsTwice(t, j, i); }
      } else {
        RefsPositive(t, i);
        RefsPositive(u, j);
        OtherHeld(r, p, q);
      }
    }
  }

  /** Program text is never writable and never becomes it by a fault, in any run, threads included;
      and write and copy-on-write never stand together. */
  lemma TextStaysProtected(s: Sys, es: seq<Event>, p: int, i: nat)
    requires Good(s) && Possible(s, es) && p in Run(s, es).procs && i < TABLE_LEN
    ensures var t := Run(s, es).procs[p].table;
      && i < |t|
      && (t[i].flags.exec ==> !t[i].flags.write && !t[i].flags.cow)
      && !(t[i].flags.write && t[i].flags.cow)
      && (!t[i].flags.valid ==> t[i] == NO_ENTRY)
  {
    hide Run;
  }

  /** Kernel stacks: in every reachable state the mapped stack names the process whose table the machine
      uses, and no two running processes share a stack frame, with each other or with user pages. */
  lemma StacksStayApart(s: Sys, es: seq<Event>, p: int, q: int, i: nat, j: nat)
    requires Good(s) && Possible(s, es)
    requires var r := Run(s, es); p in r.procs && r.procs[p].running && q in r.procs && r.procs[q].running
    requires i < STACK_PAGES && j < STACK_PAGES && (p != q || i != j)
    ensures var r := Run(s, es);
      && |r.stackMap| == STACK_PAGES && r.stackMap[0].pfn < |r.mem.pages| && CurrentProcess(r) == r.ptbr
      && |r.procs[p].pcb| == |r.procs[q].pcb| == STACK_PAGES
      && r.procs[p].pcb[i] != r.procs[q].pcb[j] && Refs(r.procs[q].table, r.procs[p].pcb[i]) == 0
  {
    CurrentIsMapped(Run(s, es));
    StacksDisjoint(Run(s, es), p, q, i, j);
  }

  /** In every state that a run reaches, fork and thread creation keep the invariant exactly when no
      count of a page below the stack passes 127. */
  lemma SpawnAfterRunIff(s: Sys, es: seq<Event>, context: int, thread: bool)
    requires Good(s) && Possible(s, es) && SpawnPossible(Run(s, es))
    ensures var r := Run(s, es);
      && 0 <= StackBase(r.procs[r.ptbr].sp) <= |r.procs[r.ptbr].table|
      && (Inv(SpawnStep(r, context, thread)) <==>
            CountsFit(r.mem, r.procs[r.ptbr].table, StackBase(r.procs[r.ptbr].sp)))
  {
    hide Run, Inv, CountsFit;
    CurrentInfo(Run(s, es));
    SpawnKeepsInvIff(Run(s, es), context, thread);
  }
}
