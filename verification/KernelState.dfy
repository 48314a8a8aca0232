/**
  The whole kernel memory state as a value: physical memory, the kernel's mappings, and every
  process with its page table and kernel stack; and the invariant that all of it rests on.
 */
module KernelState {
  import opened Hardware
  import opened FrameList
  import opened AddressSpace
  import opened UserSpace
  import opened Fork

  /** A process descriptor.  A process that is not running is a zombie. */
  datatype Proc = Proc(
    running: bool,
    pcb: seq<nat>,        // the frames of its kernel stack
    table: seq<PTE>,
    sp: int,
    leader: int,          // 0 unless it is a thread
    parent: int,
    context: int)         // the saved kernel context

  datatype Sys = Sys(
    mem: Phys,
    kernelMap: seq<PTE>,      // kernel_page_table below the windows
    stackMap: seq<PTE>,       // kernel_page_table at the kernel stack
    ptbr: int,                // whose table the machine translates with
    procs: map<int, Proc>,    // descriptors, by the address that stands for them
    ring: seq<int>,           // process_list
    kernelBrk: int,
    maxPid: int)

  // ---------- references of all processes ----------

  function ProcRefs(p: Proc, f: nat): nat {
    if p.running then Refs(p.table, f) + FrameRefs(p.pcb, f) else 0
  }

  predicate Listed(ring: seq<int>, procs: map<int, Proc>) {
    forall i :: 0 <= i < |ring| ==> ring[i] in procs
  }

  function RingRefs(ring: seq<int>, procs: map<int, Proc>, f: nat): nat
    requires Listed(ring, procs)
  {
    if ring == [] then 0
    else RingRefs(ring[..|ring| - 1], procs, f) + ProcRefs(procs[ring[|ring| - 1]], f)
  }

  lemma {:induction false} RingConcat(a: seq<int>, b: seq<int>, procs: map<int, Proc>, f: nat)
    requires Listed(a, procs) && Listed(b, procs)
    ensures Listed(a + b, procs) && RingRefs(a + b, procs, f) == RingRefs(a, procs, f) + RingRefs(b, procs, f)
  {
    if b == [] {
      assert a + b == a;
    } else {
      RingConcat(a, b[..|b| - 1], procs, f);
      assert (a + b)[..|a + b| - 1] == a + b[..|b| - 1];
    }
  }

  lemma RingSplit(ring: seq<int>, procs: map<int, Proc>, i: nat, f: nat)
    requires Listed(ring, procs) && i < |ring|
    ensures RingRefs(ring, procs, f) ==
      RingRefs(ring[..i], procs, f) + ProcRefs(procs[ring[i]], f) + RingRefs(ring[i + 1..], procs, f)
  {
    hide ProcRefs;
    assert ring == ring[..i + 1] + ring[i + 1..];
    RingConcat(ring[..i + 1], ring[i + 1..], procs, f);
    assert ring[..i + 1][..i] == ring[..i];
  }

  lemma {:induction false} RingSame(ring: seq<int>, procs: map<int, Proc>, others: map<int, Proc>, f: nat)
    requires Listed(ring, procs) && Listed(ring, others)
    requires forall i :: 0 <= i < |ring| ==> ProcRefs(procs[ring[i]], f) == ProcRefs(others[ring[i]], f)
    ensures RingRefs(ring, procs, f) == RingRefs(ring, others, f)
  {
    hide ProcRefs;
    if ring != [] {
      RingSame(ring[..|ring| - 1], procs, others, f);
    }
  }

  /** Changing one process of the ring changes the sum by the difference. */
  lemma RingUpdate(ring: seq<int>, procs: map<int, Proc>, p: int, proc: Proc, f: nat)
    requires Listed(ring, procs) && Distinct(ring) && p in ring
    ensures Listed(ring, procs[p := proc])
    ensures RingRefs(ring, procs[p := proc], f) == RingRefs(ring, procs, f) - ProcRefs(procs[p], f) + ProcRefs(proc, f)
  {
    hide ProcRefs;
    var i :| 0 <= i < |ring| && ring[i] == p;
    RingSplit(ring, procs, i, f);
    RingSplit(ring, procs[p := proc], i, f);
    RingSame(ring[..i], procs, procs[p := proc], f);
    RingSame(ring[i + 1..], procs, procs[p := proc], f);
  }

  lemma RingAtLeastOne(ring: seq<int>, procs: map<int, Proc>, p: int, f: nat)
    requires Listed(ring, procs) && p in ring
    ensures RingRefs(ring, procs, f) >= ProcRefs(procs[p], f)
  {
    hide ProcRefs;
    var i :| 0 <= i < |ring| && ring[i] == p;
    RingSplit(ring, procs, i, f);
  }

  lemma RingAtLeastTwo(ring: seq<int>, procs: map<int, Proc>, p: int, q: int, f: nat)
    requires Listed(ring, procs) && p in ring && q in ring && p != q
    ensures RingRefs(ring, procs, f) >= ProcRefs(procs[p], f) + ProcRefs(procs[q], f)
  {
    hide ProcRefs;
    var i :| 0 <= i < |ring| && ring[i] == p;
    RingSplit(ring, procs, i, f);
    var j :| 0 <= j < |ring| && ring[j] == q;
    if j < i {
      assert ring[..i][j] == q;
      RingAtLeastOne(ring[..i], procs, q, f);
    } else {
      assert ring[i + 1..][j - i - 1] == q;
      RingAtLeastOne(ring[i + 1..], procs, q, f);
    }
  }

  /** A new process somewhere in the ring adds its references. */
  lemma RingInsert(ring: seq<int>, procs: map<int, Proc>, i: nat, p: int, proc: Proc, f: nat)
    requires Listed(ring, procs) && i <= |ring| && p !in ring
    ensures Listed(ring[..i] + [p] + ring[i..], procs[p := proc])
    ensures RingRefs(ring[..i] + [p] + ring[i..], procs[p := proc], f) == RingRefs(ring, procs, f) + ProcRefs(proc, f)
  {
    hide ProcRefs;
    var all, added := ring[..i] + [p] + ring[i..], procs[p := proc];
    RingSplit(all, added, i, f);
    assert all[..i] == ring[..i] && all[i + 1..] == ring[i..] && ring == ring[..i] + ring[i..];
    RingConcat(ring[..i], ring[i..], procs, f);
    RingSame(ring[..i], procs, added, f);
    RingSame(ring[i..], procs, added, f);
  }

  /** Taking out a process takes its references away. */
  lemma RingRemove(ring: seq<int>, procs: map<int, Proc>, i: nat, f: nat)
    requires Listed(ring, procs) && Distinct(ring) && i < |ring|
    ensures Listed(ring[..i] + ring[i + 1..], procs - {ring[i]})
    ensures RingRefs(ring[..i] + ring[i + 1..], procs - {ring[i]}, f) ==
      RingRefs(ring, procs, f) - ProcRefs(procs[ring[i]], f)
  {
    hide ProcRefs;
    RingSplit(ring, procs, i, f);
    RingSame(ring[..i], procs, procs - {ring[i]}, f);
    RingSame(ring[i + 1..], procs, procs - {ring[i]}, f);
    RingConcat(ring[..i], ring[i + 1..], procs - {ring[i]}, f);
  }

  // ---------- the invariant ----------

  /** getCurrentProcess(): the word at the bottom of the mapped kernel stack. */
  function CurrentProcess(s: Sys): int
    requires |s.stackMap| == STACK_PAGES && s.stackMap[0].pfn < |s.mem.pages|
  {
    s.mem.pages[s.stackMap[0].pfn][DESCRIPTOR]
  }

  /** Write and copy-on-write exclude each other, text is neither, and cleared entries are zero. */
  ghost predicate TableShape(t: seq<PTE>) {
    && |t| == TABLE_LEN
    && CopyOnWriteShape(t)
    && (forall i :: 0 <= i < |t| && t[i].flags.exec ==> !t[i].flags.write && !t[i].flags.cow)
    && (forall i :: 0 <= i < |t| && !t[i].flags.valid ==> t[i] == NO_ENTRY)
  }

  ghost predicate ProcShape(m: Phys, p: Proc) {
    && TableShape(p.table)
    && |p.pcb| == STACK_PAGES
    && REGION1_BASE <= p.sp <= REGION1_LIMIT
    && (p.running ==> EntriesExist(m, p.table) && forall i :: 0 <= i < STACK_PAGES ==> p.pcb[i] < |m.counts|)
  }

  ghost predicate Shape(s: Sys) {
    && WellFormed(s.mem)
    && |s.kernelMap| == WINDOW_BASE_PAGE && EntriesExist(s.mem, s.kernelMap)
    && Distinct(s.ring) && Listed(s.ring, s.procs)
    && (forall p :: p in s.procs ==> p in s.ring && 0 < p <= s.maxPid && ProcShape(s.mem, s.procs[p]))
  }

  function Total(s: Sys, f: nat): nat
    requires Listed(s.ring, s.procs)
  {
    RingRefs(s.ring, s.procs, f) + Refs(s.kernelMap, f)
  }

  /** Conservation: each count is the number of valid user entries of running processes, uses as a
      kernel stack frame and kernel mappings. */
  ghost predicate Conserved(s: Sys)
    requires Shape(s)
  {
    forall f :: 0 <= f < |s.mem.counts| ==> s.mem.counts[f] == Total(s, f)
  }

  /** The kernel maps exactly the pages below its break, each frame for itself alone. */
  ghost predicate KernelOwns(s: Sys)
    requires Shape(s)
  {
    && s.kernelBrk % PAGE_SIZE == 0 && 1 <= IndexOfPage(s.kernelBrk) <= WINDOW_BASE_PAGE
    && (forall i :: 0 <= i < WINDOW_BASE_PAGE ==> (s.kernelMap[i].flags.valid <==> i < IndexOfPage(s.kernelBrk)))
    && (forall i :: 0 <= i < WINDOW_BASE_PAGE && s.kernelMap[i].flags.valid ==> s.mem.counts[s.kernelMap[i].pfn] == 1)
    && s.kernelMap[0].pfn == 0
  }

  /** Every running process has its kernel stack frames to itself, and the first one names it. */
  ghost predicate StacksOwned(s: Sys)
    requires Shape(s)
  {
    forall p :: p in s.procs && s.procs[p].running ==>
      && s.mem.counts[s.procs[p].pcb[0]] == 1 && s.mem.counts[s.procs[p].pcb[1]] == 1
      && s.mem.pages[s.procs[p].pcb[0]][DESCRIPTOR] == p
  }

  /** The mapped kernel stack and the translation base both belong to one running process. */
  ghost predicate CurrentMapped(s: Sys)
    requires Shape(s)
  {
    && |s.stackMap| == STACK_PAGES
    && s.ptbr in s.procs && s.procs[s.ptbr].running
    && forall i :: 0 <= i < STACK_PAGES ==> s.stackMap[i] == PTE(DATA_FLAGS, s.procs[s.ptbr].pcb[i])
  }

  ghost predicate Inv(s: Sys) {
    Shape(s) && Conserved(s) && KernelOwns(s) && StacksOwned(s) && CurrentMapped(s)
  }

  /** No frame that somebody may write is mapped twice: what makes copy-on-write safe without threads. */
  ghost predicate NoSharedWriters(s: Sys)
    requires Shape(s)
  {
    forall p :: p in s.procs && s.procs[p].running ==> SoleWriter(s.mem, s.procs[p].table)
  }

  /** Who is current is what the mapped stack says. */
  lemma CurrentIsMapped(s: Sys)
    requires Inv(s)
    ensures s.stackMap[0].pfn < |s.mem.pages| && CurrentProcess(s) == s.ptbr
  {
  }

  /** A process's own references are counted. */
  lemma ProcessCovered(s: Sys, p: int)
    requires Inv(s) && p in s.procs && s.procs[p].running
    ensures Covered(s.mem, s.procs[p].table)
  {
    hide Linked, FreeIffUncounted, RingRefs, Refs, FrameRefs;
    forall f | 0 <= f < |s.mem.counts|
      ensures s.mem.counts[f] >= Refs(s.procs[p].table, f)
    {
      RingAtLeastOne(s.ring, s.procs, p, f);
    }
  }

  /** Stack frames of running processes are disjoint: from each other's, from user pages, from the kernel's. */
  lemma StacksDisjoint(s: Sys, p: int, q: int, i: nat, j: nat)
    requires Inv(s) && p in s.procs && q in s.procs && s.procs[p].running && s.procs[q].running
    requires i < STACK_PAGES && j < STACK_PAGES && (p != q || i != j)
    ensures s.procs[p].pcb[i] != s.procs[q].pcb[j]
    ensures Refs(s.procs[q].table, s.procs[p].pcb[i]) == 0
    ensures Refs(s.kernelMap, s.procs[p].pcb[i]) == 0
  {
    hide Linked, FreeIffUncounted, RingRefs, Refs, FrameRefs, Distinct;
    var f := s.procs[p].pcb[i];
    FrameRefsOfTwo(s.procs[p].pcb[0], s.procs[p].pcb[1], f);
    FrameRefsOfTwo(s.procs[q].pcb[0], s.procs[q].pcb[1], f);
    assert s.procs[p].pcb == [s.procs[p].pcb[0], s.procs[p].pcb[1]];
    assert s.procs[q].pcb == [s.procs[q].pcb[0], s.procs[q].pcb[1]];
    if p != q {
      RingAtLeastTwo(s.ring, s.procs, p, q, f);
    } else {
      RingAtLeastOne(s.ring, s.procs, p, f);
    }
  }

  // ---------- local steps keep the invariant ----------

  /** One process's table and the frames change, nothing else. */
  function Update(s: Sys, p: int, n: Phys, u: seq<PTE>): Sys
    requires p in s.procs
  {
    s.(mem := n, procs := s.procs[p := s.procs[p].(table := u)])
  }

  lemma KernelHeld(s: Sys, p: int, i: nat)
    requires Inv(s) && p in s.procs && s.procs[p].running && i < WINDOW_BASE_PAGE && s.kernelMap[i].flags.valid
    ensures HeldOutside(s.mem, s.procs[p].table, s.kernelMap[i].pfn)
  {
    hide Linked, FreeIffUncounted, RingRefs, Refs, FrameRefs, Distinct;
    RefsPositive(s.kernelMap, i);
    RingAtLeastOne(s.ring, s.procs, p, s.kernelMap[i].pfn);
  }

  lemma StackHeld(s: Sys, p: int, q: int, i: nat)
    requires Inv(s) && p in s.procs && s.procs[p].running && q in s.procs && s.procs[q].running && i < STACK_PAGES
    ensures HeldOutside(s.mem, s.procs[p].table, s.procs[q].pcb[i])
  {
    hide Linked, FreeIffUncounted, RingRefs, Refs, FrameRefs, Distinct;
    if p == q {
      StacksDisjoint(s, q, p, i, 1 - i);
    } else {
      StacksDisjoint(s, q, p, i, i);
    }
  }

  lemma OtherHeld(s: Sys, p: int, q: int)
    requires Inv(s) && p in s.procs && s.procs[p].running && q in s.procs && s.procs[q].running && p != q
    ensures forall f: nat :: f < |s.mem.counts| ==>
      s.mem.counts[f] >= Refs(s.procs[p].table, f) + Refs(s.procs[q].table, f)
  {
    hide Linked, FreeIffUncounted, RingRefs, Refs, FrameRefs, Distinct;
    forall f: nat | f < |s.mem.counts|
      ensures s.mem.counts[f] >= Refs(s.procs[p].table, f) + Refs(s.procs[q].table, f)
    {
      RingAtLeastTwo(s.ring, s.procs, p, q, f);
    }
  }

  lemma LocalConserves(s: Sys, p: int, n: Phys, u: seq<PTE>)
    requires Inv(s) && p in s.procs && s.procs[p].running
    requires Local(s.mem, s.procs[p].table, n, u) && TableShape(u)
    ensures Shape(Update(s, p, n, u)) && Conserved(Update(s, p, n, u))
  {
    hide Linked, FreeIffUncounted, RingRefs, Refs, FrameRefs, HeldOutside, TableShape;
    var r := Update(s, p, n, u);
    forall f | 0 <= f < |n.counts|
      ensures n.counts[f] == Total(r, f)
    {
      RingUpdate(s.ring, s.procs, p, s.procs[p].(table := u), f);
    }
  }

  /** A local operation of a running process keeps the invariant. */
  lemma LocalKeepsInv(s: Sys, p: int, n: Phys, u: seq<PTE>)
    requires Inv(s) && p in s.procs && s.procs[p].running
    requires Local(s.mem, s.procs[p].table, n, u) && TableShape(u)
    ensures Inv(Update(s, p, n, u))
  {
    hide Linked, FreeIffUncounted, RingRefs, Refs, FrameRefs, TableShape, Distinct;
    LocalConserves(s, p, n, u);
    forall i | 0 <= i < WINDOW_BASE_PAGE && s.kernelMap[i].flags.valid
      ensures n.counts[s.kernelMap[i].pfn] == 1
    {
      KernelHeld(s, p, i);
    }
    forall q, i: nat | q in s.procs && s.procs[q].running && i < STACK_PAGES
      ensures n.counts[s.procs[q].pcb[i]] == 1 && n.pages[s.procs[q].pcb[i]] == s.mem.pages[s.procs[q].pcb[i]]
    {
      StackHeld(s, p, q, i);
    }
  }

  /** What the other processes see, and whether they are the only writers, does not depend on it. */
  lemma LocalLeavesOthers(s: Sys, p: int, n: Phys, u: seq<PTE>, q: int)
    requires Inv(s) && p in s.procs && s.procs[p].running && q in s.procs && s.procs[q].running && p != q
    requires Local(s.mem, s.procs[p].table, n, u)
    ensures FramesExist(n) && EntriesExist(n, s.procs[q].table)
    ensures Space(n, s.procs[q].table) == Space(s.mem, s.procs[q].table)
    ensures SoleWriter(s.mem, s.procs[q].table) ==> SoleWriter(n, s.procs[q].table)
  {
    hide Linked, FreeIffUncounted, RingRefs, Refs, FrameRefs, TableShape, Distinct;
    ProcessCovered(s, p);
    OtherHeld(s, p, q);
    var t, other := s.procs[p].table, s.procs[q].table;
    OthersSeeNoChange(s.mem, t, n, u, other);
    forall i | 0 <= i < |other| && Writable(other[i]) && s.mem.counts[other[i].pfn] == 1
      ensures n.counts[other[i].pfn] == 1
    {
      RefsPositive(other, i);
      assert HeldOutside(s.mem, t, other[i].pfn);
    }
  }
}
