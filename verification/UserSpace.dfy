/**
  What a user process sees of its memory: the contents and rights of its pages, whatever frames and
  copy-on-write bits are behind them.  Each kernel operation is related to its effect on that view.
 */
module UserSpace {
  import opened Hardware
  import opened FrameList
  import opened AddressSpace

  /** A page as its process sees it.  A copy-on-write page counts as writable: writing to it works. */
  datatype UserPage = Absent | Present(page: Page, read: bool, write: bool, exec: bool)

  function PageSeen(m: Phys, e: PTE): UserPage
    requires e.flags.valid ==> e.pfn < |m.pages|
  {
    if e.flags.valid then Present(m.pages[e.pfn], e.flags.read, e.flags.write || e.flags.cow, e.flags.exec)
    else Absent
  }

  function Space(m: Phys, t: seq<PTE>): (r: seq<UserPage>)
    requires FramesExist(m) && EntriesExist(m, t)
    ensures |r| == |t| && forall i :: 0 <= i < |t| ==> r[i] == PageSeen(m, t[i])
  {
    seq(|t|, i requires 0 <= i < |t| => PageSeen(m, t[i]))
  }

  // ---------- other processes ----------

  /** A local operation of one process leaves the view of every other table alone whose references
      are counted besides its own. */
  lemma OthersSeeNoChange(m: Phys, t: seq<PTE>, n: Phys, u: seq<PTE>, other: seq<PTE>)
    requires Covered(m, t) && Local(m, t, n, u) && EntriesExist(m, other)
    requires forall f: nat :: f < |m.counts| ==> m.counts[f] >= Refs(t, f) + Refs(other, f)
    ensures EntriesExist(n, other) && Space(n, other) == Space(m, other)
  {
    forall i | 0 <= i < |other| && other[i].flags.valid
      ensures n.pages[other[i].pfn] == m.pages[other[i].pfn]
    {
      RefsPositive(other, i);
      assert HeldOutside(m, t, other[i].pfn);
    }
  }

  // ---------- user writes ----------

  /** A store through a writable entry. */
  function Poke(m: Phys, e: PTE, word: nat, value: int): Phys
    requires e.pfn < |m.pages| && word < PAGE_WORDS
  {
    m.(pages := SetWord(m.pages, e.pfn, word, value))
  }

  predicate Writable(e: PTE) {
    e.flags.valid && e.flags.write
  }

  /** A store as the machine carries it out: an entry that does not permit it traps, and the
      instruction is tried again.  A second refusal leaves memory alone. */
  function Store(m: Phys, t: seq<PTE>, i: nat, inStack: bool, word: nat, value: int): (Phys, seq<PTE>)
    requires FramesExist(m) && EntriesExist(m, t) && i < |t| && word < PAGE_WORDS
    requires t[i].flags.cow ==> t[i].flags.valid
    requires !Writable(t[i]) && TrapNeedsFrame(m, t[i], inStack) ==> m.free != []
  {
    if Writable(t[i]) then
      (Poke(m, t[i], word, value), t)
    else
      var (n, u) := Trap(m, t, i, inStack);
      if Writable(u[i]) then (Poke(n, u[i], word, value), u) else (n, u)
  }

  /** Every frame that the table may write through has no other reference. */
  ghost predicate SoleWriter(m: Phys, t: seq<PTE>)
    requires EntriesExist(m, t)
  {
    forall i :: 0 <= i < |t| && Writable(t[i]) ==> m.counts[t[i].pfn] == 1
  }

  ghost predicate CopyOnWriteShape(t: seq<PTE>) {
    forall i :: 0 <= i < |t| && t[i].flags.cow ==> t[i].flags.valid && !t[i].flags.write
  }

  lemma PokeIsLocal(m: Phys, t: seq<PTE>, i: nat, word: nat, value: int)
    requires Covered(m, t) && i < |t| && Writable(t[i]) && m.counts[t[i].pfn] == 1 && word < PAGE_WORDS
    ensures Local(m, t, Poke(m, t[i], word, value), t)
    ensures Space(Poke(m, t[i], word, value), t) ==
      Space(m, t)[i := Space(m, t)[i].(page := Space(m, t)[i].page[word := value])]
  {
    var f := t[i].pfn;
    RefsPositive(t, i);
    WriteOwnIsLocal(m, t, f, m.pages[f][word := value]);
    forall j | 0 <= j < |t| && j != i && t[j].flags.valid
      ensures t[j].pfn != f
    {
      if t[j].pfn == f {
        RefsTwice(t, if i < j then i else j, if i < j then j else i);
      }
    }
  }

  /** The trap shows the process nothing new, except that growing the stack hands it a page. */
  lemma TrapSeen(m: Phys, t: seq<PTE>, i: nat, inStack: bool)
    requires Covered(m, t) && i < |t| && TrapFits(t[i], inStack)
    requires CopyOnWriteShape(t) && SoleWriter(m, t)
    requires TrapNeedsFrame(m, t[i], inStack) ==> m.free != []
    ensures var (n, u) := Trap(m, t, i, inStack);
      && EntriesExist(n, u) && CopyOnWriteShape(u) && SoleWriter(n, u) && FramesExist(n)
      && Space(n, u) ==
         if t[i].flags.cow || !inStack then Space(m, t)
         else Space(m, t)[i := Present(m.pages[m.free[0]], true, true, false)]
  {
    hide Linked, FreeIffUncounted, Distinct, Local, Refs, HeldOutside;
    TrapIsLocal(m, t, i, inStack);
    TrapKeepsContents(m, t, i, inStack);
    TrapKeepsCounts(m, t, i, inStack);
    forall j | 0 <= j < |t| && t[j].flags.valid
      ensures m.counts[t[j].pfn] != 0
    {
      RefsPositive(t, j);
    }
  }

  /** The trap takes references away from no frame but the shared one it leaves. */
  lemma TrapKeepsCounts(m: Phys, t: seq<PTE>, i: nat, inStack: bool)
    requires Covered(m, t) && i < |t| && TrapFits(t[i], inStack)
    requires TrapNeedsFrame(m, t[i], inStack) ==> m.free != []
    ensures var (n, u) := Trap(m, t, i, inStack);
      && (forall f :: 0 <= f < |m.counts| && m.counts[f] == 1 ==> n.counts[f] == 1)
      && (!t[i].flags.cow && inStack ==>
            n.counts[u[i].pfn] == 1 && u[i].flags == DATA_FLAGS && n.pages[u[i].pfn] == m.pages[m.free[0]])
  {
  }

  /** What a store means to the process: nothing about frames, sharing or copy-on-write. */
  function StoreSeen(space: seq<UserPage>, i: nat, inStack: bool, word: nat, value: int, found: Page)
    : (r: seq<UserPage>)
    requires i < |space| && word < PAGE_WORDS
    ensures |r| == |space|
  {
    match space[i]
    case Present(page, _, write, _) => if write then space[i := space[i].(page := page[word := value])] else space
    case Absent => if inStack then space[i := Present(found[word := value], true, true, false)] else space
  }

  function FreshPage(m: Phys): Page
    requires FramesExist(m)
  {
    if m.free == [] then seq(PAGE_WORDS, _ => 0) else m.pages[m.free[0]]
  }

  lemma StoreIsSeen(m: Phys, t: seq<PTE>, i: nat, inStack: bool, word: nat, value: int)
    requires Covered(m, t) && i < |t| && word < PAGE_WORDS
    requires CopyOnWriteShape(t) && SoleWriter(m, t)
    requires !Writable(t[i]) ==> TrapFits(t[i], inStack)
    requires !Writable(t[i]) && TrapNeedsFrame(m, t[i], inStack) ==> m.free != []
    ensures var (n, u) := Store(m, t, i, inStack, word, value);
      && Local(m, t, n, u)
      && CopyOnWriteShape(u) && SoleWriter(n, u)
      && Space(n, u) == StoreSeen(Space(m, t), i, inStack, word, value, FreshPage(m))
  {
    hide Trap, Linked, FreeIffUncounted, Distinct, Local, HeldOutside, Refs;
    if Writable(t[i]) {
      PokeIsLocal(m, t, i, word, value);
    } else {
      TrapIsLocal(m, t, i, inStack);
      TrapSeen(m, t, i, inStack);
      var (n, u) := Trap(m, t, i, inStack);
      LocalKeepsCovered(m, t, n, u);
      LocalSizes(m, t, n, u);
      TrapOpens(m, t, i, inStack);
      if Writable(u[i]) {
        PokeIsLocal(n, u, i, word, value);
        LocalTransitive(m, t, n, u, Poke(n, u[i], word, value), u);
      }
    }
  }

  lemma LocalSizes(m: Phys, t: seq<PTE>, n: Phys, u: seq<PTE>)
    requires Local(m, t, n, u)
    ensures WellFormed(n) && |n.counts| == |m.counts| && |u| == |t| && EntriesExist(n, u)
  {
  }

  lemma TrapOpens(m: Phys, t: seq<PTE>, i: nat, inStack: bool)
    requires FramesExist(m) && i < |t| && (t[i].flags.cow ==> t[i].flags.valid && t[i].pfn < |m.counts|)
    requires TrapNeedsFrame(m, t[i], inStack) ==> m.free != []
    requires !Writable(t[i])
    ensures Writable(Trap(m, t, i, inStack).1[i]) <==> t[i].flags.cow || inStack
  {
  }

  // ---------- the heap ----------

  /** `n` absent pages from `start` on become fresh writable pages. */
  function GrowSeen(space: seq<UserPage>, start: nat, found: seq<Page>): (r: seq<UserPage>)
    requires start + |found| <= |space|
    ensures |r| == |space|
  {
    seq(|space|, i requires 0 <= i < |space| =>
      if start <= i < start + |found| then Present(found[i - start], true, true, false) else space[i])
  }

  function ShrinkSeen(space: seq<UserPage>, start: nat, n: nat): (r: seq<UserPage>)
    requires start + n <= |space|
    ensures |r| == |space|
  {
    seq(|space|, i requires 0 <= i < |space| => if start <= i < start + n then Absent else space[i])
  }

  /** What a run of freshly mapped frames holds. */
  function Found(m: Phys, t: seq<PTE>, start: nat, n: nat): (r: seq<Page>)
    requires start + n <= |t| && forall i :: start <= i < start + n ==> t[i].pfn < |m.pages|
    ensures |r| == n
  {
    seq(n, i requires 0 <= i < n => m.pages[t[start + i].pfn])
  }

  /** Also when the frames run out: the pages mapped so far are there and nobody else's. */
  lemma GrowIsSeen(m: Phys, t: seq<PTE>, start: nat, n: nat)
    requires Covered(m, t) && start + n <= |t|
    requires CopyOnWriteShape(t) && SoleWriter(m, t)
    ensures var (r, u, _) := Grow(m, t, start, n);
      var k := Served(m, n);
      && EntriesExist(r, u) && CopyOnWriteShape(u) && SoleWriter(r, u)
      && (forall i :: start <= i < start + k ==> u[i].pfn < |r.pages|)
      && Space(r, u) == GrowSeen(Space(m, t), start, Found(r, u, start, k))
  {
    hide Linked, FreeIffUncounted, Distinct, Grow, Refs;
    GrowTakesTheFront(m, t, start, n);
    forall i | 0 <= i < |t| && t[i].flags.valid
      ensures m.counts[t[i].pfn] != 0
    {
      RefsPositive(t, i);
    }
    var (r, u, _) := Grow(m, t, start, n);
    forall i | start <= i < start + Served(m, n)
      ensures u[i] == PTE(DATA_FLAGS, m.free[i - start]) && r.counts[u[i].pfn] == 1
    {
    }
  }

  lemma ShrinkIsSeen(m: Phys, t: seq<PTE>, start: nat, n: nat)
    requires Covered(m, t) && start + n <= |t|
    requires forall i :: start <= i < start + n ==> t[i].flags.valid
    requires CopyOnWriteShape(t) && SoleWriter(m, t)
    ensures var (r, u) := Shrink(m, t, start, n);
      && EntriesExist(r, u) && CopyOnWriteShape(u) && SoleWriter(r, u)
      && Space(r, u) == ShrinkSeen(Space(m, t), start, n)
  {
    hide Linked, FreeIffUncounted, Distinct, Shrink, Refs, Local;
    ShrinkIsLocal(m, t, start, n);
    ShrinkKeepsContents(m, t, start, n);
    var (r, u) := Shrink(m, t, start, n);
    LocalKeepsCovered(m, t, r, u);
    forall i | 0 <= i < |u| && u[i].flags.valid
      ensures r.counts[u[i].pfn] >= 1
    {
      RefsPositive(u, i);
    }
  }
}
