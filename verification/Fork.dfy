/**
  What fork and thread creation do to memory (process/fork.c, setCopyOnWrite in process/process.c,
  cloneKernelContext in process/switch.c): two kernel stack frames, an eager copy of the user stack,
  shared pages below it.
 */
module Fork {
  import opened Hardware
  import opened FrameList
  import opened AddressSpace
  import opened UserSpace

  // ---------- counts are signed chars ----------

  function Char(c: int): int {
    (c + 128) % 256 - 128
  }

  /** No count is above what a signed char holds. */
  ghost predicate CharCounts(m: Phys) {
    forall f :: 0 <= f < |m.counts| ==> m.counts[f] <= 127
  }

  /** frc_table[pfn]++ for the first n entries of a table that are valid. */
  function ShareTo(counts: seq<int>, t: seq<PTE>, n: nat): (r: seq<int>)
    requires n <= |t| && forall i :: 0 <= i < |t| && t[i].flags.valid ==> t[i].pfn < |counts|
    ensures |r| == |counts|
  {
    if n == 0 then counts
    else
      var r := ShareTo(counts, t, n - 1);
      if t[n - 1].flags.valid then r[t[n - 1].pfn := Char(r[t[n - 1].pfn] + 1)] else r
  }

  /** The increments add the references, as far as a signed char can hold the sum. */
  lemma {:induction false} ShareAddsRefs(counts: seq<int>, t: seq<PTE>, n: nat, f: nat)
    requires n <= |t| && forall i :: 0 <= i < |t| && t[i].flags.valid ==> t[i].pfn < |counts|
    requires f < |counts| && -128 <= counts[f] <= 127
    ensures ShareTo(counts, t, n)[f] == Char(counts[f] + Refs(t[..n], f))
  {
    if n > 0 {
      ShareAddsRefs(counts, t, n - 1, f);
      assert t[..n][..n - 1] == t[..n - 1];
    }
  }

  // ---------- copying the stack ----------

  /** Valid entries in [from, to). */
  function ValidIn(t: seq<PTE>, from: nat, to: nat): nat
    requires to <= |t|
  {
    if to <= from then 0 else ValidIn(t, from, to - 1) + if t[to - 1].flags.valid then 1 else 0
  }

  /** copyParentStack up to entry n: the child's table starts as a copy of the parent's t. */
  function CopyStackTo(m: Phys, t: seq<PTE>, base: nat, n: nat): (r: (Phys, seq<PTE>))
    requires FramesExist(m) && EntriesExist(m, t) && n <= |t| && ValidIn(t, base, n) <= |m.free|
    ensures FramesExist(r.0) && |r.0.counts| == |m.counts| && |r.1| == |t| && EntriesExist(r.0, r.1)
    ensures |r.0.free| == |m.free| - ValidIn(t, base, n)
  {
    if n <= base then (m, t)
    else
      var (m1, c) := CopyStackTo(m, t, base, n - 1);
      if t[n - 1].flags.valid then CopyStep(m1, t, c, n - 1) else (m1, c)
  }

  function CopyStep(m: Phys, t: seq<PTE>, c: seq<PTE>, i: nat): (Phys, seq<PTE>)
    requires FramesExist(m) && m.free != [] && i < |t| == |c| && t[i].pfn < |m.pages|
  {
    var n := Alloc(m);
    (n.(pages := n.pages[m.free[0] := n.pages[t[i].pfn]]), c[i := PTE(OptionsOf(t[i]), m.free[0])])
  }

  /** Entries [base, n) of c have frames of their own with the contents that t's have. */
  ghost predicate CopiedTo(m: Phys, t: seq<PTE>, base: nat, n: nat, m1: Phys, c: seq<PTE>) {
    && WellFormed(m1)
    && |m1.counts| == |m.counts| == |m.pages| && |c| == |t| && n <= |t|
    && EntriesExist(m, t) && EntriesExist(m1, c)
    && (forall i :: 0 <= i < |t| && !(base <= i < n && t[i].flags.valid) ==> c[i] == t[i])
    && (forall i :: base <= i < n && t[i].flags.valid ==>
          && c[i].flags == t[i].flags
          && m1.counts[c[i].pfn] == 1
          && m1.pages[c[i].pfn] == m.pages[t[i].pfn])
    && (forall f :: 0 <= f < |m.counts| && m.counts[f] != 0 ==>
          m1.counts[f] == m.counts[f] && m1.pages[f] == m.pages[f])
  }

  lemma CopyStepCopies(m: Phys, t: seq<PTE>, base: nat, n: nat, m1: Phys, c: seq<PTE>)
    requires base <= n < |t| && CopiedTo(m, t, base, n, m1, c) && t[n].flags.valid
    requires m.counts[t[n].pfn] != 0 && m1.free != []
    ensures CopiedTo(m, t, base, n + 1, CopyStep(m1, t, c, n).0, CopyStep(m1, t, c, n).1)
    ensures m1.counts[m1.free[0]] == 0
  {
    AllocKeepsWellFormed(m1);
    var g := m1.free[0];
    assert g in m1.free;
  }

  lemma CopySkips(m: Phys, t: seq<PTE>, base: nat, n: nat, m1: Phys, c: seq<PTE>)
    requires base <= n < |t| && CopiedTo(m, t, base, n, m1, c) && !t[n].flags.valid
    ensures CopiedTo(m, t, base, n + 1, m1, c)
  {
  }

  lemma CopyNone(m: Phys, t: seq<PTE>, base: nat, n: nat)
    requires WellFormed(m) && EntriesExist(m, t) && n <= |t| && n <= base
    ensures CopiedTo(m, t, base, n, m, t)
  {
  }

  lemma {:induction false} CopyStackCopies(m: Phys, t: seq<PTE>, base: nat, n: nat)
    requires Covered(m, t) && n <= |t| && ValidIn(t, base, n) <= |m.free|
    ensures CopiedTo(m, t, base, n, CopyStackTo(m, t, base, n).0, CopyStackTo(m, t, base, n).1)
  {
    hide Linked, FreeIffUncounted, Distinct, CopiedTo, CopyStep, Refs;
    if n <= base {
      CopyNone(m, t, base, n);
    } else {
      CopyStackCopies(m, t, base, n - 1);
      var r := CopyStackTo(m, t, base, n - 1);
      if t[n - 1].flags.valid {
        RefsPositive(t, n - 1);
        CopyStepCopies(m, t, base, n - 1, r.0, r.1);
      } else {
        CopySkips(m, t, base, n - 1, r.0, r.1);
      }
    }
  }

  /** Every frame that the copy took is counted once, for the child's entry. */
  lemma {:induction false} CopyStackBalance(m: Phys, t: seq<PTE>, base: nat, n: nat, f: nat)
    requires Covered(m, t) && base <= n <= |t| && ValidIn(t, base, n) <= |m.free| && f < |m.counts|
    ensures var (m1, c) := CopyStackTo(m, t, base, n);
      m1.counts[f] == m.counts[f] + Refs(c[base..n], f)
  {
    hide Linked, FreeIffUncounted, Distinct, Refs, CopiedTo, Alloc;
    var (m1, c) := CopyStackTo(m, t, base, n);
    if n == base {
      assert c[base..n] == [];
      NoRefs(f);
    } else {
      CopyStackBalance(m, t, base, n - 1, f);
      var (m0, c0) := CopyStackTo(m, t, base, n - 1);
      RefsConcat(c[base..n - 1], [c[n - 1]], f);
      RefsOne(c[n - 1], f);
      assert c[base..n] == c[base..n - 1] + [c[n - 1]];
      assert c[base..n - 1] == c0[base..n - 1];
      CopyStackCopies(m, t, base, n - 1);
      if t[n - 1].flags.valid {
        RefsPositive(t, n - 1);
        CopyStepCopies(m, t, base, n - 1, m0, c0);
        CopyStepCounts(m0, t, c0, n - 1, f);
      } else {
        CopiedEntry(m, t, base, n - 1, m0, c0);
      }
    }
  }

  lemma CopiedEntry(m: Phys, t: seq<PTE>, base: nat, n: nat, m1: Phys, c: seq<PTE>)
    requires CopiedTo(m, t, base, n, m1, c)
    ensures forall i :: n <= i < |t| ==> c[i] == t[i]
  {
  }

  lemma CopyStepCounts(m: Phys, t: seq<PTE>, c: seq<PTE>, i: nat, f: nat)
    requires FramesExist(m) && m.free != [] && i < |t| == |c| && t[i].pfn < |m.pages|
    requires m.counts[m.free[0]] == 0 && t[i].flags.valid && f < |m.counts|
    ensures CopyStep(m, t, c, i).0.counts[f] == m.counts[f] + Maps(CopyStep(m, t, c, i).1[i], f)
    ensures CopyStep(m, t, c, i).1 == c[i := CopyStep(m, t, c, i).1[i]]
  {
  }

  // ---------- the whole of it ----------

  /** The words of ProcessInfo, at the bottom of a kernel stack's first frame. */
  const DESCRIPTOR: nat := 0
  const DATA_START: nat := 1
  const HEAP_START: nat := 2
  const CURRENT_BRK: nat := 3
  const INFO_WORDS: nat := 4

  /** How many of a process's kernel stack frames are f. */
  function FrameRefs(frames: seq<nat>, f: nat): nat {
    if frames == [] then 0 else FrameRefs(frames[..|frames| - 1], f) + if frames[|frames| - 1] == f then 1 else 0
  }

  /** Copies the stack frames over the child's, but keeps the child's own process info. */
  function CloneStack(pages: seq<Page>, pcb: seq<nat>, stack: seq<nat>): (r: seq<Page>)
    requires |pcb| == |stack| == STACK_PAGES
    requires forall i :: 0 <= i < STACK_PAGES ==> pcb[i] < |pages| && stack[i] < |pages|
    ensures |r| == |pages|
  {
    var info := pages[pcb[0]][..INFO_WORDS];
    var first := pages[pcb[0] := pages[stack[0]]];
    var both := first[pcb[1] := first[stack[1]]];
    both[pcb[0] := info + both[pcb[0]][INFO_WORDS..]]
  }

  /** The child's info: its own descriptor and the parent's segment limits. */
  function ChildInfo(page: Page, parent: Page, child: int): Page {
    [child] + parent[DATA_START..INFO_WORDS] + page[INFO_WORDS..]
  }

  datatype Spawned = Spawned(mem: Phys, pcb: seq<nat>, table: seq<PTE>)

  /** createProcessDescriptor: two frames, the first naming the child. */
  function NewStack(m: Phys, child: int): (r: Phys)
    requires FramesExist(m) && |m.free| >= STACK_PAGES
    ensures FramesExist(r) && |r.counts| == |m.counts| && |r.free| == |m.free| - STACK_PAGES
  {
    var n := Alloc(Alloc(m));
    n.(pages := SetWord(n.pages, m.free[0], DESCRIPTOR, child))
  }

  predicate SpawnFits(m: Phys, t: seq<PTE>, base: nat, stack: seq<nat>) {
    && FramesExist(m) && EntriesExist(m, t)
    && |t| == TABLE_LEN && base <= TABLE_LEN
    && STACK_PAGES + ValidIn(t, base, TABLE_LEN) <= |m.free|
    && |stack| == STACK_PAGES && forall i :: 0 <= i < STACK_PAGES ==> stack[i] < |m.pages|
  }

  /** Memory after fork or thread creation: t is the parent's table, its entries from base on are
      the user stack and `stack` are the frames of the running kernel stack. */
  function Spawn(m: Phys, t: seq<PTE>, base: nat, stack: seq<nat>, child: int): Spawned
    requires SpawnFits(m, t, base, stack)
  {
    var pcb := [m.free[0], m.free[1]];
    var (m1, table) := CopyStackTo(NewStack(m, child), t, base, TABLE_LEN);
    var m2 := m1.(pages := m1.pages[pcb[0] := ChildInfo(m1.pages[pcb[0]], m1.pages[stack[0]], child)]);
    var m3 := m2.(counts := ShareTo(m2.counts, table, base));
    Spawned(m3.(pages := CloneStack(m3.pages, pcb, stack)), pcb, table)
  }

  // ---------- what spawning achieves ----------

  /** Writing a counted frame keeps the free list. */
  lemma WriteCounted(m: Phys, f: nat, page: Page)
    requires WellFormed(m) && f < |m.counts| && m.counts[f] != 0
    ensures WellFormed(m.(pages := m.pages[f := page]))
  {
    assert f !in m.free;
  }

  lemma NewStackIs(m: Phys, t: seq<PTE>, child: int)
    requires Covered(m, t) && |m.free| >= STACK_PAGES
    ensures var n := NewStack(m, child);
      && Covered(n, t)
      && m.free[0] != m.free[1]
      && (forall i :: 0 <= i < STACK_PAGES ==> m.counts[m.free[i]] == 0 && n.counts[m.free[i]] == 1)
      && (forall f :: 0 <= f < |m.counts| && f != m.free[0] && f != m.free[1] ==> n.counts[f] == m.counts[f])
      && (forall f :: 0 <= f < |m.counts| && m.counts[f] != 0 ==> n.pages[f] == m.pages[f])
      && n.pages[m.free[0]][DESCRIPTOR] == child
  {
    hide Refs;
    AllocKeepsWellFormed(m);
    var a := Alloc(m);
    assert a.free[0] == m.free[1];
    assert m.free[0] in m.free && m.free[1] in m.free;
    AllocKeepsWellFormed(a);
    hide Linked, Alloc;
    WriteCounted(Alloc(a), m.free[0], Alloc(a).pages[m.free[0]][DESCRIPTOR := child]);
  }

  /** More references to frames that are already counted. */
  lemma ShareKeepsWellFormed(m: Phys, counts: seq<int>)
    requires WellFormed(m) && |counts| == |m.counts|
    requires forall f :: 0 <= f < |counts| ==> (counts[f] == 0 <==> m.counts[f] == 0)
    ensures WellFormed(m.(counts := counts))
  {
  }

  /** The condition under which no count overflows a signed char: what a caller can check before. */
  ghost predicate CountsFit(m: Phys, t: seq<PTE>, base: nat)
    requires base <= |t|
  {
    forall f :: 0 <= f < |m.counts| ==> m.counts[f] + Refs(t[..base], f) <= 127
  }

  ghost predicate Shares(t: seq<PTE>, base: nat, c: seq<PTE>) {
    |c| == |t| && forall i :: 0 <= i < |t| && (i < base || !t[i].flags.valid) ==> c[i] == t[i]
  }

  ghost predicate Copies(m: Phys, t: seq<PTE>, base: nat, n: Phys, c: seq<PTE>)
    requires EntriesExist(m, t) && EntriesExist(n, c) && |m.pages| == |m.counts| && |n.pages| == |n.counts|
  {
    && |c| == |t|
    && forall i :: base <= i < |t| && t[i].flags.valid ==>
         c[i].flags == t[i].flags && n.counts[c[i].pfn] == 1 && n.pages[c[i].pfn] == m.pages[t[i].pfn]
  }

  /** The state after spawning, without the functions that lead there. */
  ghost predicate SpawnedRight(m: Phys, t: seq<PTE>, base: nat, stack: seq<nat>, child: int, r: Spawned)
    requires SpawnFits(m, t, base, stack)
  {
    && WellFormed(r.mem) && |r.mem.counts| == |m.counts|
    && EntriesExist(r.mem, r.table)
    && |r.pcb| == STACK_PAGES
    && (forall i :: 0 <= i < STACK_PAGES ==> r.pcb[i] < |m.counts| && r.mem.counts[r.pcb[i]] == 1)
    && (forall f :: 0 <= f < |m.counts| && m.counts[f] != 0 ==> r.mem.pages[f] == m.pages[f])
    && (forall f :: 0 <= f < |m.counts| ==> r.mem.counts[f] == m.counts[f] + Refs(r.table, f) + FrameRefs(r.pcb, f))
    && r.mem.pages[r.pcb[0]] == [child] + m.pages[stack[0]][DATA_START..]
    && r.mem.pages[r.pcb[1]] == m.pages[stack[1]]
    && Shares(t, base, r.table)
    && Copies(m, t, base, r.mem, r.table)
  }

  lemma FrameRefsOfTwo(a: nat, b: nat, f: nat)
    ensures FrameRefs([a, b], f) == (if a == f then 1 else 0) + (if b == f then 1 else 0)
  {
    assert [a, b][..1] == [a] && [a][..0] == [];
    assert FrameRefs([a], f) == if a == f then 1 else 0;
  }

  /** One count, from the old memory to the new. */
  lemma SpawnedCount(m: Phys, t: seq<PTE>, base: nat, child: int, f: nat)
    requires Covered(m, t) && |t| == TABLE_LEN && base <= TABLE_LEN
    requires STACK_PAGES + ValidIn(t, base, TABLE_LEN) <= |m.free|
    requires CountsFit(m, t, base) && f < |m.counts|
    ensures var (m1, c) := CopyStackTo(NewStack(m, child), t, base, TABLE_LEN);
      var shared := ShareTo(m1.counts, c, base);
      && shared[f] == m.counts[f] + Refs(c, f) + FrameRefs([m.free[0], m.free[1]], f)
      && (m1.counts[f] == 0 ==> shared[f] == 0)
      && (m1.counts[f] == 1 && m.counts[f] == 0 ==> shared[f] == 1)
      && 0 <= m1.counts[f] <= shared[f]
      && (m1.counts[f] == 1 && Refs(c[base..], f) > 0 ==> m.counts[f] == 0)
  {
    hide Linked, FreeIffUncounted, Distinct, CopiedTo, CopyStep, Refs, NewStack, FrameRefs;
    NewStackIs(m, t, child);
    var n := NewStack(m, child);
    var (m1, c) := CopyStackTo(n, t, base, TABLE_LEN);
    CopyStackBalance(n, t, base, TABLE_LEN, f);
    CopyStackCopies(n, t, base, TABLE_LEN);
    CopiedLow(n, t, base, TABLE_LEN, m1, c);
    assert c[..base] == t[..base];
    assert c == c[..base] + c[base..] && c[base..TABLE_LEN] == c[base..];
    RefsConcat(c[..base], c[base..], f);
    assert t == t[..base] + t[base..];
    RefsConcat(t[..base], t[base..], f);
    FrameRefsOfTwo(m.free[0], m.free[1], f);
    CopiedCounts(n, t, base, TABLE_LEN, m1, c, f);
    if n.counts[f] == 0 && Refs(c[base..], f) > 0 {
      CopiedNew(n, t, base, m1, c, f);
    }
    ShareAddsRefs(m1.counts, c, base, f);
  }

  lemma CopiedLow(m: Phys, t: seq<PTE>, base: nat, n: nat, m1: Phys, c: seq<PTE>)
    requires CopiedTo(m, t, base, n, m1, c)
    ensures |c| == |t| && forall i :: 0 <= i < |t| && i < base ==> c[i] == t[i]
  {
  }

  lemma CopiedNew(m: Phys, t: seq<PTE>, base: nat, m1: Phys, c: seq<PTE>, f: nat)
    requires base <= |t| && CopiedTo(m, t, base, |t|, m1, c) && Refs(c[base..], f) > 0 && f < |m.counts|
    ensures m1.counts[f] == 1
  {
    var i := RefsWitness(c[base..], f);
    assert c[base..][i] == c[base + i];
  }

  lemma CopiedCounts(m: Phys, t: seq<PTE>, base: nat, n: nat, m1: Phys, c: seq<PTE>, f: nat)
    requires CopiedTo(m, t, base, n, m1, c) && f < |m.counts|
    ensures m.counts[f] != 0 ==> m1.counts[f] == m.counts[f]
  {
  }

  /** A memory in which exactly `frames` may have changed, all of them counted. */
  lemma CloneIs(m: Phys, pcb: seq<nat>, stack: seq<nat>)
    requires WellFormed(m) && |pcb| == |stack| == STACK_PAGES && pcb[0] != pcb[1]
    requires forall i :: 0 <= i < STACK_PAGES ==> pcb[i] < |m.counts| && m.counts[pcb[i]] != 0
    requires forall i :: 0 <= i < STACK_PAGES ==> stack[i] < |m.counts| && stack[i] != pcb[0] && stack[i] != pcb[1]
    ensures var pages := CloneStack(m.pages, pcb, stack);
      && WellFormed(m.(pages := pages))
      && (forall f :: 0 <= f < |m.counts| && f != pcb[0] && f != pcb[1] ==> pages[f] == m.pages[f])
      && pages[pcb[0]] == m.pages[pcb[0]][..INFO_WORDS] + m.pages[stack[0]][INFO_WORDS..]
      && pages[pcb[1]] == m.pages[stack[1]]
  {
    assert pcb[0] !in m.free && pcb[1] !in m.free;
  }

  /** Spawning gives the child two stack frames that hold the parent's kernel stack under the child's
      own info, shares the entries below `base` and copies those from there on. */
  lemma SpawnIsRight(m: Phys, t: seq<PTE>, base: nat, stack: seq<nat>, child: int)
    requires Covered(m, t) && SpawnFits(m, t, base, stack) && CountsFit(m, t, base)
    requires forall i :: 0 <= i < STACK_PAGES ==> m.counts[stack[i]] != 0
    ensures SpawnedRight(m, t, base, stack, child, Spawn(m, t, base, stack, child))
  {
    hide Linked, FreeIffUncounted, Distinct, CopyStep, Refs, FrameRefs, NewStack, CloneStack;
    NewStackIs(m, t, child);
    var n, pcb := NewStack(m, child), [m.free[0], m.free[1]];
    var (m1, c) := CopyStackTo(n, t, base, TABLE_LEN);
    CopyStackCopies(n, t, base, TABLE_LEN);
    var info := ChildInfo(m1.pages[pcb[0]], m1.pages[stack[0]], child);
    WriteCounted(m1, pcb[0], info);
    var m2 := m1.(pages := m1.pages[pcb[0] := info]);
    var counts := ShareTo(m2.counts, c, base);
    forall f | 0 <= f < |m.counts|
      ensures counts[f] == m.counts[f] + Refs(c, f) + FrameRefs(pcb, f)
      ensures m1.counts[f] == 0 ==> counts[f] == 0
      ensures m1.counts[f] == 1 && m.counts[f] == 0 ==> counts[f] == 1
      ensures 0 <= m1.counts[f] <= counts[f]
      ensures m1.counts[f] == 1 && Refs(c[base..], f) > 0 ==> m.counts[f] == 0
    {
      SpawnedCount(m, t, base, child, f);
    }
    forall i | base <= i < |t| && t[i].flags.valid
      ensures counts[c[i].pfn] == 1 && c[i].pfn != pcb[0] && c[i].pfn != pcb[1]
      ensures m.counts[t[i].pfn] != 0
    {
      assert c[base..][i - base] == c[i];
      RefsPositive(c[base..], i - base);
      RefsPositive(c, i);
      RefsPositive(t, i);
      FrameRefsOfTwo(pcb[0], pcb[1], c[i].pfn);
    }
    ShareKeepsWellFormed(m2, counts);
    var m3 := m2.(counts := counts);
    CloneIs(m3, pcb, stack);
    assert info[..INFO_WORDS] == [child] + m.pages[stack[0]][DATA_START..INFO_WORDS];
    assert info[..INFO_WORDS] + m.pages[stack[0]][INFO_WORDS..] == [child] + m.pages[stack[0]][DATA_START..];
  }
}
