/**
  What the kernel does to one page table and the frames under it, as functions on values, and what
  all of it has in common: an operation of one process on its own table is `Local`.
 */
module AddressSpace {
  import opened Hardware
  import opened FrameList

  // ---------- references from a table to a frame ----------

  function Maps(e: PTE, f: nat): nat {
    if e.flags.valid && e.pfn == f then 1 else 0
  }

  /** How many valid entries of a table map a frame. */
  function Refs(t: seq<PTE>, f: nat): nat {
    if t == [] then 0 else Refs(t[..|t| - 1], f) + Maps(t[|t| - 1], f)
  }

  lemma {:induction false} RefsConcat(a: seq<PTE>, b: seq<PTE>, f: nat)
    ensures Refs(a + b, f) == Refs(a, f) + Refs(b, f)
  {
    if b == [] {
      assert a + b == a;
    } else {
      RefsConcat(a, b[..|b| - 1], f);
      assert (a + b)[..|a + b| - 1] == a + b[..|b| - 1];
    }
  }

  lemma NoRefs(f: nat)
    ensures Refs([], f) == 0
  {
  }

  lemma RefsOne(e: PTE, f: nat)
    ensures Refs([e], f) == Maps(e, f)
  {
    assert [e][..0] == [];
  }

  lemma RefsSplit(t: seq<PTE>, i: nat, f: nat)
    requires i < |t|
    ensures Refs(t, f) == Refs(t[..i], f) + Maps(t[i], f) + Refs(t[i + 1..], f)
  {
    assert t == t[..i + 1] + t[i + 1..];
    RefsConcat(t[..i + 1], t[i + 1..], f);
    assert t[..i + 1][..i] == t[..i];
  }

  lemma RefsUpdate(t: seq<PTE>, i: nat, e: PTE)
    requires i < |t|
    ensures forall f: nat :: Refs(t[i := e], f) == Refs(t, f) - Maps(t[i], f) + Maps(e, f)
  {
    forall f: nat
      ensures Refs(t[i := e], f) == Refs(t, f) - Maps(t[i], f) + Maps(e, f)
    {
      RefsSplit(t, i, f);
      RefsSplit(t[i := e], i, f);
      assert t[i := e][..i] == t[..i] && t[i := e][i + 1..] == t[i + 1..];
    }
  }

  lemma RefsPositive(t: seq<PTE>, i: nat)
    requires i < |t| && t[i].flags.valid
    ensures Refs(t, t[i].pfn) >= 1
  {
    RefsSplit(t, i, t[i].pfn);
  }

  lemma RefsTwice(t: seq<PTE>, i: nat, j: nat)
    requires i < j < |t| && t[i].flags.valid && t[j].flags.valid && t[i].pfn == t[j].pfn
    ensures Refs(t, t[i].pfn) >= 2
  {
    RefsSplit(t, j, t[i].pfn);
    assert t[..j][i] == t[i];
    RefsPositive(t[..j], i);
  }

  lemma {:induction false} RefsWitness(t: seq<PTE>, f: nat) returns (i: nat)
    requires Refs(t, f) >= 1
    ensures i < |t| && t[i].flags.valid && t[i].pfn == f
  {
    var last := |t| - 1;
    if Maps(t[last], f) == 1 {
      i := last;
    } else {
      i := RefsWitness(t[..last], f);
    }
  }

  /** Same valid bits and frames, same references: flags other than `valid` do not count. */
  lemma {:induction false} RefsSameFrames(t: seq<PTE>, u: seq<PTE>, f: nat)
    requires |t| == |u|
    requires forall i :: 0 <= i < |t| ==>
      t[i].flags.valid == u[i].flags.valid && (t[i].flags.valid ==> t[i].pfn == u[i].pfn)
    ensures Refs(t, f) == Refs(u, f)
  {
    if t != [] {
      RefsSameFrames(t[..|t| - 1], u[..|u| - 1], f);
    }
  }

  // ---------- local operations ----------

  predicate EntriesExist(m: Phys, t: seq<PTE>) {
    forall i :: 0 <= i < |t| && t[i].flags.valid ==> t[i].pfn < |m.counts|
  }

  /** Every reference that the table holds has been counted. */
  ghost predicate Covered(m: Phys, t: seq<PTE>) {
    && WellFormed(m)
    && EntriesExist(m, t)
    && forall f :: 0 <= f < |m.counts| ==> m.counts[f] >= Refs(t, f)
  }

  /** Somebody else than the owner of the table holds a reference to the frame. */
  ghost predicate HeldOutside(m: Phys, t: seq<PTE>, f: nat)
    requires f < |m.counts|
  {
    m.counts[f] > Refs(t, f)
  }

  /** From frames m and table t to frames n and table u: the change of each count is the change of
      the table's references, and frames that others hold keep their contents and are not newly mapped. */
  ghost predicate Local(m: Phys, t: seq<PTE>, n: Phys, u: seq<PTE>) {
    && WellFormed(m) && WellFormed(n)
    && |n.counts| == |m.counts| && |u| == |t|
    && EntriesExist(n, u)
    && (forall f :: 0 <= f < |m.counts| ==> n.counts[f] - Refs(u, f) == m.counts[f] - Refs(t, f))
    && (forall f :: 0 <= f < |m.counts| && HeldOutside(m, t, f) ==>
          n.pages[f] == m.pages[f] && Refs(u, f) <= Refs(t, f))
  }

  lemma LocalReflexive(m: Phys, t: seq<PTE>)
    requires Covered(m, t)
    ensures Local(m, t, m, t)
  {
  }

  lemma LocalTransitive(m: Phys, t: seq<PTE>, n: Phys, u: seq<PTE>, o: Phys, v: seq<PTE>)
    requires Local(m, t, n, u) && Local(n, u, o, v)
    ensures Local(m, t, o, v)
  {
    forall f | 0 <= f < |m.counts| && HeldOutside(m, t, f)
      ensures o.pages[f] == m.pages[f] && Refs(v, f) <= Refs(t, f)
    {
      assert HeldOutside(n, u, f);
    }
  }

  lemma LocalKeepsCovered(m: Phys, t: seq<PTE>, n: Phys, u: seq<PTE>)
    requires Covered(m, t) && Local(m, t, n, u)
    ensures Covered(n, u)
  {
    forall f | 0 <= f < |n.counts|
      ensures n.counts[f] >= Refs(u, f)
    {
      assert n.counts[f] - Refs(u, f) == m.counts[f] - Refs(t, f);
    }
  }

  lemma MapFreshIsLocal(m: Phys, t: seq<PTE>, i: nat, flags: Flags)
    requires Covered(m, t) && m.free != [] && i < |t| && !t[i].flags.valid && flags.valid
    ensures Local(m, t, Alloc(m), t[i := PTE(flags, m.free[0])])
    ensures Refs(t, m.free[0]) == 0
  {
    hide Linked, Distinct, Refs, SetWord;
    AllocKeepsWellFormed(m);
    RefsUpdate(t, i, PTE(flags, m.free[0]));
    assert m.free[0] in m.free;
  }

  lemma FreshIsOwn(m: Phys, t: seq<PTE>, i: nat, flags: Flags)
    requires Covered(m, t) && m.free != [] && i < |t| && !t[i].flags.valid && flags.valid
    ensures |Alloc(m).pages| == |Alloc(m).counts| == |m.counts| && m.free[0] < |m.counts|
    ensures Alloc(m).counts[m.free[0]] == 1
    ensures !HeldOutside(Alloc(m), t[i := PTE(flags, m.free[0])], m.free[0])
  {
    var u := t[i := PTE(flags, m.free[0])];
    RefsPositive(u, i);
  }

  lemma FreshCopyIsLocal(m: Phys, t: seq<PTE>, i: nat, flags: Flags, page: Page)
    requires Covered(m, t) && m.free != [] && i < |t| && !t[i].flags.valid && flags.valid
    ensures var n := Alloc(m);
      m.free[0] < |n.pages| && Local(m, t, n.(pages := n.pages[m.free[0] := page]), t[i := PTE(flags, m.free[0])])
  {
    hide Linked, FreeIffUncounted, Distinct, Alloc, Refs, Local;
    MapFreshIsLocal(m, t, i, flags);
    FreshIsOwn(m, t, i, flags);
    var n, u := Alloc(m), t[i := PTE(flags, m.free[0])];
    LocalKeepsCovered(m, t, n, u);
    WriteOwnIsLocal(n, u, m.free[0], page);
    LocalTransitive(m, t, n, u, n.(pages := n.pages[m.free[0] := page]), u);
  }

  lemma UnmapIsLocal(m: Phys, t: seq<PTE>, i: nat)
    requires Covered(m, t) && i < |t| && t[i].flags.valid
    ensures m.counts[t[i].pfn] >= 1
    ensures Local(m, t, Release(m, t[i].pfn), t[i := NO_ENTRY])
  {
    RefsPositive(t, i);
    ReleaseKeepsWellFormed(m, t[i].pfn);
    RefsUpdate(t, i, NO_ENTRY);
  }

  lemma ReflagIsLocal(m: Phys, t: seq<PTE>, i: nat, flags: Flags)
    requires Covered(m, t) && i < |t| && t[i].flags.valid == flags.valid
    ensures Local(m, t, m, t[i := PTE(flags, t[i].pfn)])
  {
    RefsUpdate(t, i, PTE(flags, t[i].pfn));
  }

  lemma WriteOwnIsLocal(m: Phys, t: seq<PTE>, f: nat, page: Page)
    requires Covered(m, t) && f < |m.counts| && m.counts[f] != 0 && !HeldOutside(m, t, f)
    ensures Local(m, t, m.(pages := m.pages[f := page]), t)
  {
    assert f !in m.free;
  }

  // ---------- the memory trap (handleMemoryTrap) ----------

  /** Whether the trap has to take a frame from the free list. */
  predicate TrapNeedsFrame(m: Phys, e: PTE, inStack: bool)
    requires e.flags.cow ==> e.pfn < |m.counts|
  {
    if e.flags.cow then m.counts[e.pfn] > 1 else inStack
  }

  /** A shared copy-on-write page moves to a frame of its own, an unshared one just becomes writable,
      and an address at or above the stack pointer's page gets a new frame. */
  function Trap(m: Phys, t: seq<PTE>, i: nat, inStack: bool): (Phys, seq<PTE>)
    requires FramesExist(m) && i < |t| && (t[i].flags.cow ==> t[i].pfn < |m.counts|)
    requires TrapNeedsFrame(m, t[i], inStack) ==> m.free != []
  {
    var e := t[i];
    if e.flags.cow then
      var flags := Unshare(OptionsOf(e));
      if m.counts[e.pfn] > 1 then
        var n := Alloc(m.(counts := m.counts[e.pfn := m.counts[e.pfn] - 1]));
        (n.(pages := n.pages[m.free[0] := n.pages[e.pfn]]), t[i := PTE(flags, m.free[0])])
      else
        (m, t[i := PTE(flags, e.pfn)])
    else if inStack then
      (Alloc(m), t[i := PTE(DATA_FLAGS, m.free[0])])
    else
      (m, t)
  }

  /** What the code relies on: copy-on-write entries are valid and the stack grows onto invalid ones. */
  predicate TrapFits(e: PTE, inStack: bool) {
    if e.flags.cow then e.flags.valid else inStack ==> !e.flags.valid
  }

  lemma TrapIsLocal(m: Phys, t: seq<PTE>, i: nat, inStack: bool)
    requires Covered(m, t) && i < |t| && TrapFits(t[i], inStack)
    requires TrapNeedsFrame(m, t[i], inStack) ==> m.free != []
    ensures Local(m, t, Trap(m, t, i, inStack).0, Trap(m, t, i, inStack).1)
  {
    var e := t[i];
    if e.flags.cow {
      if m.counts[e.pfn] > 1 {
        UnshareIsLocal(m, t, i);
      } else {
        ReflagIsLocal(m, t, i, Unshare(OptionsOf(e)));
      }
    } else if inStack {
      MapFreshIsLocal(m, t, i, DATA_FLAGS);
    }
  }

  lemma UnshareIsLocal(m: Phys, t: seq<PTE>, i: nat)
    requires Covered(m, t) && i < |t| && t[i].flags.cow && t[i].flags.valid
    requires m.counts[t[i].pfn] > 1 && m.free != []
    ensures Local(m, t, Trap(m, t, i, false).0, Trap(m, t, i, false).1)
  {
    var e := t[i];
    UnmapIsLocal(m, t, i);
    var m1, t1 := Release(m, e.pfn), t[i := NO_ENTRY];
    assert m1 == m.(counts := m.counts[e.pfn := m.counts[e.pfn] - 1]);
    hide Linked, FreeIffUncounted, Distinct, Alloc, Refs, Local, Release;
    LocalKeepsCovered(m, t, m1, t1);
    FreshCopyIsLocal(m1, t1, i, Unshare(OptionsOf(e)), Alloc(m1).pages[e.pfn]);
    assert t1[i := PTE(Unshare(OptionsOf(e)), m.free[0])] == t[i := PTE(Unshare(OptionsOf(e)), m.free[0])];
    LocalTransitive(m, t, m1, t1, Trap(m, t, i, false).0, Trap(m, t, i, false).1);
  }

  /** The trap changes what no page holds: every mapped frame keeps its contents and the page that
      trapped keeps them too. */
  lemma TrapKeepsContents(m: Phys, t: seq<PTE>, i: nat, inStack: bool)
    requires Covered(m, t) && i < |t| && TrapFits(t[i], inStack)
    requires TrapNeedsFrame(m, t[i], inStack) ==> m.free != []
    ensures var (n, u) := Trap(m, t, i, inStack);
      && (forall f :: 0 <= f < |m.counts| && m.counts[f] != 0 ==> n.pages[f] == m.pages[f])
      && u == t[i := u[i]]
      && (t[i].flags.valid ==> u[i].flags.valid && n.pages[u[i].pfn] == m.pages[t[i].pfn])
      && (t[i].flags.cow ==> u[i].flags == Unshare(t[i].flags) && n.counts[u[i].pfn] == 1)
  {
    var e := t[i];
    if e.flags.valid {
      RefsPositive(t, i);
    }
    if TrapNeedsFrame(m, e, inStack) {
      var m1 := if e.flags.cow then Release(m, e.pfn) else m;
      if e.flags.cow { ReleaseKeepsWellFormed(m, e.pfn); }
      assert m.free[0] in m.free;
      AllocKeepsWellFormed(m1);
    }
  }

  // ---------- growing and shrinking a heap (increaseBrk, decreaseBrk and the kernel's own) ----------

  /** Allocates `n` frames one after the other for the entries from `start` on; stops at the first
      failure, leaving what was mapped so far. */
  function Grow(m: Phys, t: seq<PTE>, start: nat, n: nat): (r: (Phys, seq<PTE>, bool))
    requires FramesExist(m) && start + n <= |t|
    ensures FramesExist(r.0) && |r.0.counts| == |m.counts| && |r.1| == |t|
    ensures EntriesExist(m, t) ==> EntriesExist(r.0, r.1)
  {
    if n == 0 then
      (m, t, true)
    else
      var (m1, t1, ok) := Grow(m, t, start, n - 1);
      GrowStep(m1, t1, start + n - 1, ok)
  }

  /** Frees the frames of `n` entries from `start` on and clears the entries. */
  function Shrink(m: Phys, t: seq<PTE>, start: nat, n: nat): (r: (Phys, seq<PTE>))
    requires FramesExist(m) && start + n <= |t|
    requires forall i :: start <= i < start + n ==> t[i].pfn < |m.counts|
    ensures FramesExist(r.0) && |r.0.counts| == |m.counts| && |r.1| == |t|
    ensures forall i :: 0 <= i < |t| ==> r.1[i] == if start <= i < start + n then NO_ENTRY else t[i]
  {
    if n == 0 then
      (m, t)
    else
      var (m1, t1) := Shrink(m, t, start, n - 1);
      (Release(m1, t[start + n - 1].pfn), t1[start + n - 1 := NO_ENTRY])
  }

  /** The state after the first k frames of the free list went to the entries from `start` on. */
  ghost predicate TookFront(m: Phys, t: seq<PTE>, start: nat, k: nat, n: Phys, u: seq<PTE>)
    requires FramesExist(m) && start + k <= |t| && k <= |m.free|
  {
    && WellFormed(n)
    && |n.counts| == |m.counts| && |u| == |t|
    && n.free == m.free[k..]
    && (forall i :: 0 <= i < |t| ==>
          u[i] == if start <= i < start + k then PTE(DATA_FLAGS, m.free[i - start]) else t[i])
    && (forall i :: 0 <= i < k ==> n.counts[m.free[i]] == 1)
    && (forall f :: 0 <= f < |m.counts| && m.counts[f] != 0 ==> n.counts[f] == m.counts[f] && n.pages[f] == m.pages[f])
  }

  lemma TookFrontStep(m: Phys, t: seq<PTE>, start: nat, k: nat, n: Phys, u: seq<PTE>)
    requires WellFormed(m) && start + k < |t| && k < |m.free| && TookFront(m, t, start, k, n, u)
    ensures TookFront(m, t, start, k + 1, Alloc(n), u[start + k := PTE(DATA_FLAGS, n.free[0])])
  {
    AllocKeepsWellFormed(n);
    var g := m.free[k];
    assert n.free[0] == g && g in m.free;
    assert n.free[1..] == m.free[k + 1..];
  }

  /** One round of the growing loop. */
  function GrowStep(m: Phys, t: seq<PTE>, i: nat, ok: bool): (Phys, seq<PTE>, bool)
    requires FramesExist(m) && i < |t|
  {
    if !ok || m.free == [] then (m, t, false) else (Alloc(m), t[i := PTE(DATA_FLAGS, m.free[0])], true)
  }

  /** How many entries growing maps: all that it is asked for, unless the frames run out. */
  function Served(m: Phys, n: nat): (k: nat)
    ensures k <= n && k <= |m.free|
  {
    if n <= |m.free| then n else |m.free|
  }

  ghost predicate GrewTo(m: Phys, t: seq<PTE>, start: nat, n: nat, r: (Phys, seq<PTE>, bool))
    requires FramesExist(m) && start + n <= |t|
  {
    r.2 == (n <= |m.free|) && TookFront(m, t, start, Served(m, n), r.0, r.1)
  }

  lemma GrewNone(m: Phys, t: seq<PTE>, start: nat)
    requires WellFormed(m) && start <= |t|
    ensures GrewTo(m, t, start, 0, (m, t, true))
  {
  }

  lemma GrewStep(m: Phys, t: seq<PTE>, start: nat, n: nat, n1: Phys, t1: seq<PTE>, ok: bool)
    requires WellFormed(m) && start + n < |t| && GrewTo(m, t, start, n, (n1, t1, ok))
    ensures FramesExist(n1) && |t1| == |t|
    ensures GrewTo(m, t, start, n + 1, GrowStep(n1, t1, start + n, ok))
  {
    hide Linked, FreeIffUncounted;
    if n < |m.free| {
      TookFrontStep(m, t, start, n, n1, t1);
    }
  }

  /** The frames that growing takes are the first of the free list, in order. */
  lemma {:induction false} GrowTakesTheFront(m: Phys, t: seq<PTE>, start: nat, n: nat)
    requires WellFormed(m) && start + n <= |t|
    ensures GrewTo(m, t, start, n, Grow(m, t, start, n))
  {
    hide GrewTo, GrowStep, Linked, FreeIffUncounted, Distinct;
    if n == 0 {
      GrewNone(m, t, start);
    } else {
      GrowTakesTheFront(m, t, start, n - 1);
      var r := Grow(m, t, start, n - 1);
      GrewStep(m, t, start, n - 1, r.0, r.1, r.2);
    }
  }

  /** The next frame that growing takes is uncounted and its entry is as it was. */
  lemma GrowNext(m: Phys, t: seq<PTE>, start: nat, n: nat)
    requires WellFormed(m) && start + n < |t| && n < |m.free|
    ensures var (m1, t1, ok) := Grow(m, t, start, n);
      ok && WellFormed(m1) && m1.free != [] && m1.counts[m1.free[0]] == 0 && t1[start + n] == t[start + n]
  {
    GrowTakesTheFront(m, t, start, n);
    var m1 := Grow(m, t, start, n).0;
    assert m1.free[0] in m1.free;
  }

  lemma GrowStepBalance(m: Phys, t: seq<PTE>, i: nat, f: nat)
    requires FramesExist(m) && m.free != [] && m.counts[m.free[0]] == 0 && i < |t| && f < |m.counts|
    ensures var (m1, t1, _) := GrowStep(m, t, i, true);
      m1.counts[f] - Refs(t1, f) == m.counts[f] - Refs(t, f) + Maps(t[i], f)
  {
    RefsUpdate(t, i, PTE(DATA_FLAGS, m.free[0]));
  }

  /** Without a single frame growing does nothing. */
  lemma {:induction false} GrowNothing(m: Phys, t: seq<PTE>, start: nat, n: nat)
    requires FramesExist(m) && start + n <= |t| && m.free == [] && n > 0
    ensures Grow(m, t, start, n) == (m, t, false)
  {
    if n > 1 {
      GrowNothing(m, t, start, n - 1);
    }
  }

  /** Growing puts the counts off by exactly the references it overwrites. */
  lemma {:induction false} GrowBalance(m: Phys, t: seq<PTE>, start: nat, n: nat, f: nat)
    requires WellFormed(m) && start + n <= |t| && f < |m.counts|
    ensures var (m1, t1, ok) := Grow(m, t, start, n);
      m1.counts[f] - Refs(t1, f) == m.counts[f] - Refs(t, f) + Refs(t[start..start + Served(m, n)], f)
  {
    hide Linked, FreeIffUncounted, Distinct, Alloc, Refs;
    if n == 0 {
      NoRefs(f);
    } else {
      GrowBalance(m, t, start, n - 1, f);
      if n <= |m.free| {
        GrowNext(m, t, start, n - 1);
        GrowStepBalance(Grow(m, t, start, n - 1).0, Grow(m, t, start, n - 1).1, start + n - 1, f);
        RefsConcat(t[start..start + n - 1], [t[start + n - 1]], f);
        RefsOne(t[start + n - 1], f);
        assert t[start..start + n] == t[start..start + n - 1] + [t[start + n - 1]];
      } else {
        GrowTakesTheFront(m, t, start, n - 1);
      }
    }
  }

  /** Growing is local when the entries that it gets to map are invalid. */
  lemma {:induction false} GrowIsLocal(m: Phys, t: seq<PTE>, start: nat, n: nat)
    requires Covered(m, t) && start + n <= |t|
    requires forall i :: start <= i < start + Served(m, n) ==> !t[i].flags.valid
    ensures Local(m, t, Grow(m, t, start, n).0, Grow(m, t, start, n).1)
  {
    hide Local, Alloc, Linked, FreeIffUncounted, Distinct, Refs;
    if n == 0 {
      LocalReflexive(m, t);
    } else {
      GrowIsLocal(m, t, start, n - 1);
      GrowTakesTheFront(m, t, start, n - 1);
      var (m1, t1, ok) := Grow(m, t, start, n - 1);
      if ok && m1.free != [] {
        LocalKeepsCovered(m, t, m1, t1);
        MapFreshIsLocal(m1, t1, start + n - 1, DATA_FLAGS);
        LocalTransitive(m, t, m1, t1, Alloc(m1), t1[start + n - 1 := PTE(DATA_FLAGS, m1.free[0])]);
      }
    }
  }

  lemma {:induction false} ShrinkIsLocal(m: Phys, t: seq<PTE>, start: nat, n: nat)
    requires Covered(m, t) && start + n <= |t|
    requires forall i :: start <= i < start + n ==> t[i].flags.valid
    ensures Local(m, t, Shrink(m, t, start, n).0, Shrink(m, t, start, n).1)
  {
    hide Local, Linked, FreeIffUncounted, Distinct, Release;
    if n == 0 {
      LocalReflexive(m, t);
    } else {
      ShrinkIsLocal(m, t, start, n - 1);
      var (m1, t1) := Shrink(m, t, start, n - 1);
      LocalKeepsCovered(m, t, m1, t1);
      UnmapIsLocal(m1, t1, start + n - 1);
      LocalTransitive(m, t, m1, t1, Release(m1, t[start + n - 1].pfn), t1[start + n - 1 := NO_ENTRY]);
    }
  }

  function Reversed<T>(s: seq<T>): (r: seq<T>)
    ensures |r| == |s| && forall i :: 0 <= i < |s| ==> r[i] == s[|s| - 1 - i]
  {
    if s == [] then [] else Reversed(s[1..]) + [s[0]]
  }

  /** The state after n frames were taken from the front and the first k of them given back. */
  ghost predicate GaveBack(m: Phys, n: nat, k: nat, r: Phys)
    requires FramesExist(m) && k <= n <= |m.free|
  {
    && WellFormed(r)
    && |r.counts| == |m.counts|
    && r.free == Reversed(m.free[..k]) + m.free[n..]
    && (forall i :: k <= i < n ==> r.counts[m.free[i]] == 1)
    && (forall f :: 0 <= f < |m.counts| && m.counts[f] != 0 ==> r.counts[f] == m.counts[f])
  }

  lemma GaveBackStep(m: Phys, n: nat, k: nat, r: Phys)
    requires WellFormed(m) && k < n <= |m.free| && GaveBack(m, n, k, r)
    ensures GaveBack(m, n, k + 1, Release(r, m.free[k]))
  {
    hide Linked, FreeIffUncounted;
    var f := m.free[k];
    ReleaseKeepsWellFormed(r, f);
    TakenIsUncounted(m, k);
    assert m.free[..k + 1][1..] == m.free[1..k + 1];
    assert Reversed(m.free[..k + 1]) == [f] + Reversed(m.free[..k]);
  }

  lemma TakenIsUncounted(m: Phys, k: nat)
    requires WellFormed(m) && k < |m.free|
    ensures m.counts[m.free[k]] == 0
  {
    assert m.free[k] in m.free;
  }

  lemma GaveBackAll(m: Phys, n: nat, r: Phys)
    requires WellFormed(m) && n <= |m.free| && GaveBack(m, n, n, r)
    ensures r.counts == m.counts
  {
    forall f | 0 <= f < |m.counts| && m.counts[f] == 0
      ensures r.counts[f] == 0
    {
      var i :| 0 <= i < |m.free| && m.free[i] == f;
      assert f == if i < n then r.free[n - 1 - i] else r.free[i];
      assert f in r.free;
    }
  }

  /** The frames behind the entries that growing mapped, before any is given back. */
  lemma GrownFrames(m: Phys, t: seq<PTE>, start: nat, n: nat)
    requires WellFormed(m) && start + n <= |t| && n <= |m.free|
    ensures var (m1, t1, _) := Grow(m, t, start, n);
      && (forall i :: start <= i < start + n ==> t1[i].pfn == m.free[i - start])
      && GaveBack(m, n, 0, m1)
  {
    hide Linked, FreeIffUncounted, Distinct;
    GrowTakesTheFront(m, t, start, n);
    assert Reversed(m.free[..0]) == [];
  }

  lemma {:induction false} ShrinkAfterGrow(m: Phys, t: seq<PTE>, start: nat, n: nat, k: nat)
    requires WellFormed(m) && start + n <= |t| && n <= |m.free| && k <= n
    ensures var (m1, t1, _) := Grow(m, t, start, n);
      && (forall i :: start <= i < start + n ==> t1[i].pfn < |m.counts|)
      && GaveBack(m, n, k, Shrink(m1, t1, start, k).0)
  {
    hide GaveBack, Linked, FreeIffUncounted, Distinct, Grow, Release;
    GrownFrames(m, t, start, n);
    if k > 0 {
      ShrinkAfterGrow(m, t, start, n, k - 1);
      var (m1, t1, _) := Grow(m, t, start, n);
      GaveBackStep(m, n, k - 1, Shrink(m1, t1, start, k - 1).0);
    }
  }

  /** Growing a heap by n pages and shrinking it back restores every entry, every count and the set of
      free frames; the n frames come back in reverse order at the front of the list. */
  lemma GrowThenShrink(m: Phys, t: seq<PTE>, start: nat, n: nat)
    requires WellFormed(m) && start + n <= |t| && n <= |m.free|
    requires forall i :: start <= i < start + n ==> t[i] == NO_ENTRY
    ensures var (m1, t1, ok) := Grow(m, t, start, n);
      && ok
      && (forall i :: start <= i < start + n ==> t1[i].pfn < |m.counts|)
      && var (m2, t2) := Shrink(m1, t1, start, n);
      && t2 == t
      && m2.counts == m.counts
      && m2.free == Reversed(m.free[..n]) + m.free[n..]
  {
    GrowTakesTheFront(m, t, start, n);
    ShrinkAfterGrow(m, t, start, n, n);
    var (m1, t1, _) := Grow(m, t, start, n);
    GaveBackAll(m, n, Shrink(m1, t1, start, n).0);
    hide Shrink, Grow, Linked, FreeIffUncounted, Distinct;
    assert m.free[..n] == m.free[..n];
  }

  /** Shrinking only lowers counts, and frames that stay counted keep their contents. */
  lemma {:induction false} ShrinkKeepsContents(m: Phys, t: seq<PTE>, start: nat, n: nat)
    requires Covered(m, t) && start + n <= |t|
    requires forall i :: start <= i < start + n ==> t[i].flags.valid
    ensures var r := Shrink(m, t, start, n).0;
      && |r.pages| == |m.pages|
      && forall f :: 0 <= f < |m.counts| ==>
           r.counts[f] <= m.counts[f] && (r.counts[f] > 0 ==> r.pages[f] == m.pages[f])
  {
    hide Refs, Linked, FreeIffUncounted, Distinct, Local, Release;
    if n > 0 {
      ShrinkKeepsContents(m, t, start, n - 1);
      ShrinkIsLocal(m, t, start, n - 1);
      var (m1, t1) := Shrink(m, t, start, n - 1);
      LocalKeepsCovered(m, t, m1, t1);
      UnmapIsLocal(m1, t1, start + n - 1);
      ReleaseKeepsContents(m1, t[start + n - 1].pfn);
    }
  }

  lemma ReleaseKeepsContents(m: Phys, f: nat)
    requires WellFormed(m) && f < |m.pages| && m.counts[f] >= 1
    ensures var r := Release(m, f);
      && |r.pages| == |m.pages| && |r.counts| == |m.counts|
      && forall g :: 0 <= g < |m.counts| ==>
           r.counts[g] <= m.counts[g] && (r.counts[g] > 0 ==> r.pages[g] == m.pages[g])
  {
    ReleaseKeepsWellFormed(m, f);
  }

  /** Clearing entries takes references away. */
  lemma {:induction false} RefsOfPart(t: seq<PTE>, u: seq<PTE>, f: nat)
    requires |u| == |t| && forall i :: 0 <= i < |t| ==> u[i] == t[i] || !u[i].flags.valid
    ensures Refs(u, f) <= Refs(t, f)
  {
    if t != [] {
      RefsOfPart(t[..|t| - 1], u[..|u| - 1], f);
    }
  }

  // ---------- dropping a whole address space (freeAddressSpace) ----------

  function ClearedTo(t: seq<PTE>, n: nat): (r: seq<PTE>)
    requires n <= |t|
    ensures |r| == |t| && forall i :: 0 <= i < |t| ==> r[i] == if i < n then NO_ENTRY else t[i]
  {
    seq(n, _ => NO_ENTRY) + t[n..]
  }

  /** The frames of the first n entries freed; the entries themselves are cleared at the end. */
  function FreeTo(m: Phys, t: seq<PTE>, n: nat): (r: Phys)
    requires FramesExist(m) && EntriesExist(m, t) && n <= |t|
    ensures FramesExist(r) && |r.counts| == |m.counts|
  {
    if n == 0 then m
    else
      var r := FreeTo(m, t, n - 1);
      if t[n - 1].flags.valid then Release(r, t[n - 1].pfn) else r
  }

  lemma {:induction false} FreeIsLocal(m: Phys, t: seq<PTE>, n: nat)
    requires Covered(m, t) && n <= |t|
    ensures Local(m, t, FreeTo(m, t, n), ClearedTo(t, n))
  {
    hide Local, Refs, Linked, FreeIffUncounted, Distinct, Release;
    if n == 0 {
      assert ClearedTo(t, 0) == t;
      LocalReflexive(m, t);
    } else {
      FreeIsLocal(m, t, n - 1);
      var m1, t1 := FreeTo(m, t, n - 1), ClearedTo(t, n - 1);
      LocalKeepsCovered(m, t, m1, t1);
      assert ClearedTo(t, n) == t1[n - 1 := NO_ENTRY];
      if t[n - 1].flags.valid {
        UnmapIsLocal(m1, t1, n - 1);
      } else {
        ClearInvalidIsLocal(m1, t1, n - 1);
      }
      LocalTransitive(m, t, m1, t1, FreeTo(m, t, n), ClearedTo(t, n));
    }
  }

  lemma ClearInvalidIsLocal(m: Phys, t: seq<PTE>, i: nat)
    requires Covered(m, t) && i < |t| && !t[i].flags.valid
    ensures Local(m, t, m, t[i := NO_ENTRY])
  {
    RefsUpdate(t, i, NO_ENTRY);
  }
}
