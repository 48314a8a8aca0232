/**
  The steps of the kernel on the whole memory state, one function for each operation, and for each
  the proof that it keeps the invariant of KernelState.
 */
module KernelSteps {
  import opened Hardware
  import opened FrameList
  import opened AddressSpace
  import opened UserSpace
  import opened Exec
  import opened Fork
  import opened KernelState

  /** What the code assumes of the memory of the process info. */
  predicate InfoMapped(s: Sys) {
    |s.stackMap| == STACK_PAGES && s.stackMap[0].pfn < |s.mem.pages|
  }

  function Info(s: Sys, word: nat): int
    requires InfoMapped(s) && word < INFO_WORDS
  {
    s.mem.pages[s.stackMap[0].pfn][word]
  }

  function SetInfo(s: Sys, word: nat, value: int): Sys
    requires InfoMapped(s) && word < INFO_WORDS
  {
    s.(mem := s.mem.(pages := SetWord(s.mem.pages, s.stackMap[0].pfn, word, value)))
  }

  lemma SetInfoKeepsInv(s: Sys, word: nat, value: int)
    requires Inv(s) && InfoMapped(s) && word < INFO_WORDS && word != DESCRIPTOR
    ensures var r := SetInfo(s, word, value);
      && Inv(r)
      && InfoMapped(r)
      && (forall p :: p in s.procs && s.procs[p].running ==>
            && (NoSharedWriters(s) ==> SoleWriter(r.mem, s.procs[p].table))
            && Space(r.mem, s.procs[p].table) == Space(s.mem, s.procs[p].table)
            && (p != s.ptbr ==> r.mem.pages[s.procs[p].pcb[0]] == s.mem.pages[s.procs[p].pcb[0]]))
  {
    hide Linked, FreeIffUncounted, RingRefs, Refs, FrameRefs, TableShape, Distinct, Maps;
    var f, r := s.stackMap[0].pfn, SetInfo(s, word, value);
    WriteCounted(s.mem, f, s.mem.pages[f][word := value]);
    assert Shape(r) && Conserved(r);
    forall p | p in s.procs && s.procs[p].running
      ensures Space(r.mem, s.procs[p].table) == Space(s.mem, s.procs[p].table)
      ensures p != s.ptbr ==> s.procs[p].pcb[0] != f
    {
      StacksDisjoint(s, s.ptbr, p, 0, 1);
      forall i | 0 <= i < |s.procs[p].table| && s.procs[p].table[i].flags.valid
        ensures s.procs[p].table[i].pfn != f
      {
        RefsPositive(s.procs[p].table, i);
      }
      if p != s.ptbr {
        StacksDisjoint(s, s.ptbr, p, 0, 0);
      }
    }
  }

  // ---------- user stores and the memory trap ----------

  function PageOf(address: int): int {
    IndexOfPage(DownToPage(address) - REGION1_BASE)
  }

  function WordOf(address: int): (w: nat)
    ensures w < PAGE_WORDS
  {
    address % PAGE_SIZE / WORD_SIZE
  }

  predicate InRegion1(address: int) {
    REGION1_BASE <= address < REGION1_LIMIT
  }

  /** The trap's test for growing the stack. */
  predicate InStack(sp: int, address: int) {
    DownToPage(sp) <= address
  }

  /** Without a frame that the trap needs the machine halts. */
  ghost predicate StorePossible(s: Sys, address: int)
    requires Inv(s)
  {
    && InRegion1(address)
    && var e := s.procs[s.ptbr].table[PageOf(address)];
       !Writable(e) && TrapNeedsFrame(s.mem, e, InStack(s.procs[s.ptbr].sp, address)) ==> s.mem.free != []
  }

  /** The stores of runs do not grow the stack onto a valid entry, which TrapKeepsInvIff is about. */
  ghost predicate StoreEnabled(s: Sys, address: int)
    requires Inv(s)
  {
    && StorePossible(s, address)
    && var e := s.procs[s.ptbr].table[PageOf(address)];
       !Writable(e) ==> TrapFits(e, InStack(s.procs[s.ptbr].sp, address))
  }

  ghost function StoreStep(s: Sys, address: int, value: int): Sys
    requires Inv(s) && StorePossible(s, address)
  {
    var p := s.procs[s.ptbr];
    var (n, u) := Store(s.mem, p.table, PageOf(address), InStack(p.sp, address), WordOf(address), value);
    Update(s, s.ptbr, n, u)
  }

  lemma StoreKeepsShape(m: Phys, t: seq<PTE>, i: nat, inStack: bool, word: nat, value: int)
    requires FramesExist(m) && EntriesExist(m, t) && TableShape(t) && i < |t| && word < PAGE_WORDS
    requires !Writable(t[i]) && TrapNeedsFrame(m, t[i], inStack) ==> m.free != []
    ensures TableShape(Store(m, t, i, inStack, word, value).1)
  {
    hide FramesExist, Alloc, Linked;
  }

  /** Without sharing of writable frames a store is local; it changes what its own process sees, as
      StoreSeen says, and nothing else. */
  lemma StoreKeepsInv(s: Sys, address: int, value: int)
    requires Inv(s) && StoreEnabled(s, address) && NoSharedWriters(s)
    ensures var r := StoreStep(s, address, value);
      && Inv(r) && NoSharedWriters(r)
      && Space(r.mem, r.procs[s.ptbr].table) == StoreSeen(Space(s.mem, s.procs[s.ptbr].table),
           PageOf(address), InStack(s.procs[s.ptbr].sp, address), WordOf(address), value, FreshPage(s.mem))
      && Local(s.mem, s.procs[s.ptbr].table, r.mem, r.procs[s.ptbr].table)
  {
    hide Linked, FreeIffUncounted, RingRefs, Refs, FrameRefs, TableShape, Distinct, Maps, Local, Store;
    var p := s.procs[s.ptbr];
    ProcessCovered(s, s.ptbr);
    ShapeParts(p.table);
    StoreIsSeen(s.mem, p.table, PageOf(address), InStack(p.sp, address), WordOf(address), value);
    StoreKeepsShape(s.mem, p.table, PageOf(address), InStack(p.sp, address), WordOf(address), value);
    var (n, u) := Store(s.mem, p.table, PageOf(address), InStack(p.sp, address), WordOf(address), value);
    LocalKeepsInv(s, s.ptbr, n, u);
    LocalKeepsNoSharedWriters(s, s.ptbr, n, u);
  }

  lemma ShapeParts(t: seq<PTE>)
    requires TableShape(t)
    ensures |t| == TABLE_LEN && CopyOnWriteShape(t)
  {
  }

  lemma LocalKeepsNoSharedWriters(s: Sys, p: int, n: Phys, u: seq<PTE>)
    requires Inv(s) && NoSharedWriters(s) && p in s.procs && s.procs[p].running
    requires Local(s.mem, s.procs[p].table, n, u) && TableShape(u) && EntriesExist(n, u) && SoleWriter(n, u)
    ensures Inv(Update(s, p, n, u)) && NoSharedWriters(Update(s, p, n, u))
  {
    hide Linked, FreeIffUncounted, RingRefs, Refs, FrameRefs, TableShape, Distinct, Maps, Local;
    LocalKeepsInv(s, p, n, u);
    forall q | q in s.procs && s.procs[q].running && q != p
      ensures EntriesExist(n, s.procs[q].table) && SoleWriter(n, s.procs[q].table)
    {
      LocalLeavesOthers(s, p, n, u, q);
    }
  }

  // ---------- the trap alone, threads or not ----------

  ghost predicate TrapEnabled(s: Sys, address: int)
    requires Inv(s)
  {
    && InRegion1(address)
    && (TrapNeedsFrame(s.mem, s.procs[s.ptbr].table[PageOf(address)], InStack(s.procs[s.ptbr].sp, address)) ==>
          s.mem.free != [])
  }

  /** handleMemoryTrap on its own. */
  ghost function TrapStep(s: Sys, address: int): Sys
    requires Inv(s) && TrapEnabled(s, address)
  {
    var p := s.procs[s.ptbr];
    var (n, u) := Trap(s.mem, p.table, PageOf(address), InStack(p.sp, address));
    Update(s, s.ptbr, n, u)
  }

  lemma TrapKeepsShape(m: Phys, t: seq<PTE>, i: nat, inStack: bool)
    requires FramesExist(m) && EntriesExist(m, t) && TableShape(t) && i < |t|
    requires TrapNeedsFrame(m, t[i], inStack) ==> m.free != []
    ensures TableShape(Trap(m, t, i, inStack).1)
  {
    hide FramesExist, Alloc, Linked;
  }

  /** Growing the stack onto a valid entry loses the frame that the entry mapped. */
  lemma GrowingOntoValidLeaks(s: Sys, address: int)
    requires Inv(s) && TrapEnabled(s, address)
    requires var e := s.procs[s.ptbr].table[PageOf(address)];
      e.flags.valid && !e.flags.cow && InStack(s.procs[s.ptbr].sp, address)
    ensures var r := TrapStep(s, address);
      var f := s.procs[s.ptbr].table[PageOf(address)].pfn;
      Listed(r.ring, r.procs) && f < |r.mem.counts| && r.mem.counts[f] == Total(r, f) + 1
  {
    var p, i := s.procs[s.ptbr], PageOf(address);
    var f := p.table[i].pfn;
    RefsPositive(p.table, i);
    ProcessCovered(s, s.ptbr);
    assert s.mem.free[0] in s.mem.free;
    RefsUpdate(p.table, i, PTE(DATA_FLAGS, s.mem.free[0]));
    RingUpdate(s.ring, s.procs, s.ptbr, p.(table := p.table[i := PTE(DATA_FLAGS, s.mem.free[0])]), f);
    hide Linked, FreeIffUncounted, RingRefs, FrameRefs, TableShape, Distinct;
  }

  /** The memory trap keeps the invariant, conservation included, exactly when it does not grow the
      stack onto an entry that is valid and not copy-on-write. */
  lemma TrapKeepsInvIff(s: Sys, address: int)
    requires Inv(s) && TrapEnabled(s, address)
    ensures var e := s.procs[s.ptbr].table[PageOf(address)];
      Inv(TrapStep(s, address)) <==> !(e.flags.valid && !e.flags.cow && InStack(s.procs[s.ptbr].sp, address))
  {
    hide Linked, FreeIffUncounted, RingRefs, Refs, FrameRefs, TableShape, Distinct, Maps, Local, Trap;
    var p, i := s.procs[s.ptbr], PageOf(address);
    ShapeParts(p.table);
    var e, inStack := p.table[i], InStack(p.sp, address);
    ProcessCovered(s, s.ptbr);
    if e.flags.valid && !e.flags.cow && inStack {
      GrowingOntoValidLeaks(s, address);
    } else {
      TrapIsLocal(s.mem, p.table, i, inStack);
      TrapKeepsShape(s.mem, p.table, i, inStack);
      var (n, u) := Trap(s.mem, p.table, i, inStack);
      LocalKeepsInv(s, s.ptbr, n, u);
    }
  }

  /** A store through a writable entry keeps the invariant however many processes share the frame. */
  lemma PokeKeepsInv(s: Sys, p: int, i: nat, word: nat, value: int)
    requires Inv(s) && p in s.procs && s.procs[p].running && i < TABLE_LEN && word < PAGE_WORDS
    requires Writable(s.procs[p].table[i])
    ensures Inv(s.(mem := Poke(s.mem, s.procs[p].table[i], word, value)))
  {
    hide Linked, FreeIffUncounted, RingRefs, Refs, FrameRefs, TableShape, Distinct, Maps;
    ShapeParts(s.procs[p].table);
    var f, r := s.procs[p].table[i].pfn, s.(mem := Poke(s.mem, s.procs[p].table[i], word, value));
    ProcessCovered(s, p);
    RefsPositive(s.procs[p].table, i);
    WriteCounted(s.mem, f, s.mem.pages[f][word := value]);
    assert Shape(r) && Conserved(r);
    forall q | q in s.procs && s.procs[q].running
      ensures s.procs[q].pcb[0] != f && s.procs[q].pcb[1] != f
    {
      StackNotUser(s, q, p, 0);
      StackNotUser(s, q, p, 1);
    }
  }

  lemma StackNotUser(s: Sys, q: int, p: int, j: nat)
    requires Inv(s) && p in s.procs && s.procs[p].running && q in s.procs && s.procs[q].running && j < STACK_PAGES
    ensures Refs(s.procs[p].table, s.procs[q].pcb[j]) == 0
  {
    StacksDisjoint(s, q, p, j, 1 - j);
  }

  /** A store with its fault keeps the invariant, threads or not. */
  lemma AnyStoreKeepsInv(s: Sys, address: int, value: int)
    requires Inv(s) && StoreEnabled(s, address)
    ensures Inv(StoreStep(s, address, value))
  {
    hide Linked, FreeIffUncounted, RingRefs, Refs, FrameRefs, TableShape, Distinct, Maps, Local, Trap;
    var p, i := s.procs[s.ptbr], PageOf(address);
    ShapeParts(p.table);
    if Writable(p.table[i]) {
      PokeKeepsInv(s, s.ptbr, i, WordOf(address), value);
      assert s.procs[s.ptbr := p] == s.procs;
    } else {
      TrapKeepsInvIff(s, address);
      var r := TrapStep(s, address);
      ShapeParts(r.procs[s.ptbr].table);
      if Writable(r.procs[s.ptbr].table[i]) {
        PokeKeepsInv(r, s.ptbr, i, WordOf(address), value);
      }
    }
  }

  lemma CurrentInfo(s: Sys)
    requires Inv(s)
    ensures InfoMapped(s) && s.ptbr in s.procs && s.procs[s.ptbr].running
    ensures s.stackMap[0].pfn == s.procs[s.ptbr].pcb[0]
    ensures |s.procs[s.ptbr].table| == TABLE_LEN && EntriesExist(s.mem, s.procs[s.ptbr].table)
    ensures REGION1_BASE <= s.procs[s.ptbr].sp <= REGION1_LIMIT
    ensures forall i :: 0 <= i < TABLE_LEN ==> s.procs[s.ptbr].table[i].pfn < |s.mem.counts|
  {
    assert s.mem.counts[s.procs[s.ptbr].pcb[0]] == 1;
  }
}
