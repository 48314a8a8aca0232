/**
  Physical memory as a value: the page frames, their reference counts and the free list whose
  link words live inside the free frames.  The class in PhysicalMemory.dfy edits the same state in
  place and is proved against the functions of this module.
 */
module FrameList {
  import opened Hardware

  /** Where a LinkedListNode keeps its two words inside a frame. */
  const NEXT: nat := 0
  const PREV: nat := 1

  /** The address of frame_head in the kernel's data; all that matters is that no frame starts there. */
  const FRAME_HEAD: int := 0x10

  /** `free` is the sequence that the links spell out. */
  datatype Phys = Phys(pages: seq<Page>, counts: seq<int>, headNext: int, headPrev: int, free: seq<nat>)

  /** The address of the i-th member of the list; the head stands at both ends. */
  function NodeAddress(free: seq<nat>, i: int): int {
    if 0 <= i < |free| then PageAtIndex(free[i]) else FRAME_HEAD
  }

  predicate Distinct<T(==)>(s: seq<T>) {
    forall i, j :: 0 <= i < j < |s| ==> s[i] != s[j]
  }

  predicate FramesExist(m: Phys) {
    |m.counts| == |m.pages| <= MAX_FRAMES && forall i :: 0 <= i < |m.free| ==> m.free[i] < |m.pages|
  }

  /** Next and prev words, read from the frames, spell out `free` in both directions. */
  predicate Linked(m: Phys)
    requires FramesExist(m)
  {
    && m.headNext == NodeAddress(m.free, 0)
    && m.headPrev == NodeAddress(m.free, |m.free| - 1)
    && (forall i {:trigger m.pages[m.free[i]]} :: 0 <= i < |m.free| ==>
          m.pages[m.free[i]][NEXT] == NodeAddress(m.free, i + 1))
    && (forall i {:trigger m.pages[m.free[i]]} :: 0 <= i < |m.free| ==>
          m.pages[m.free[i]][PREV] == NodeAddress(m.free, i - 1))
  }

  /** The members of the list are exactly the frames with count 0. */
  predicate FreeIffUncounted(m: Phys)
    requires FramesExist(m)
  {
    forall f :: 0 <= f < |m.counts| ==> (f in m.free <==> m.counts[f] == 0)
  }

  predicate WellFormed(m: Phys) {
    FramesExist(m) && Distinct(m.free) && Linked(m) && FreeIffUncounted(m)
  }

  function SetWord(pages: seq<Page>, f: nat, w: nat, v: int): (r: seq<Page>)
    requires f < |pages| && w < PAGE_WORDS
    ensures |r| == |pages|
  {
    pages[f := pages[f][w := v]]
  }

  /** allocatePageFrame, given that the list is not empty: the frame taken is m.free[0]. */
  function Alloc(m: Phys): Phys
    requires FramesExist(m) && m.free != []
  {
    var rest := m.free[1..];
    Phys(
      if rest == [] then m.pages else SetWord(m.pages, rest[0], PREV, FRAME_HEAD),
      m.counts[m.free[0] := 1],
      NodeAddress(rest, 0),
      NodeAddress(rest, |rest| - 1),
      rest)
  }

  /** freePageFrame. */
  function Release(m: Phys, f: nat): Phys
    requires FramesExist(m) && f < |m.pages|
  {
    var counts := m.counts[f := m.counts[f] - 1];
    if counts[f] > 0 then
      m.(counts := counts)
    else
      var linked := SetWord(SetWord(m.pages, f, PREV, FRAME_HEAD), f, NEXT, NodeAddress(m.free, 0));
      var pages := if m.free == [] then linked else SetWord(linked, m.free[0], PREV, PageAtIndex(f));
      Phys(pages, counts, PageAtIndex(f), if m.free == [] then PageAtIndex(f) else m.headPrev, [f] + m.free)
  }

  lemma AllocKeepsWellFormed(m: Phys)
    requires WellFormed(m) && m.free != []
    ensures WellFormed(Alloc(m))
    ensures forall f :: 0 <= f < |m.pages| && m.counts[f] != 0 ==> Alloc(m).pages[f] == m.pages[f]
    ensures Alloc(m).pages[m.free[0]] == m.pages[m.free[0]]
  {
    var n := Alloc(m);
    assert forall i :: 0 <= i < |n.free| ==> n.free[i] == m.free[i + 1];
    forall f | 0 <= f < |n.counts|
      ensures f in n.free <==> n.counts[f] == 0
    {
      assert f in m.free <==> f == m.free[0] || f in n.free;
    }
  }

  lemma ReleaseKeepsWellFormed(m: Phys, f: nat)
    requires WellFormed(m) && f < |m.pages| && m.counts[f] >= 1
    ensures WellFormed(Release(m, f))
    ensures forall g :: 0 <= g < |m.pages| && m.counts[g] != 0 && g != f ==> Release(m, f).pages[g] == m.pages[g]
    ensures m.counts[f] > 1 ==> Release(m, f).pages == m.pages
  {
    var n := Release(m, f);
    if m.counts[f] == 1 {
      assert f !in m.free;
      assert forall i :: 0 < i < |n.free| ==> n.free[i] == m.free[i - 1];
      forall g | 0 <= g < |n.counts|
        ensures g in n.free <==> n.counts[g] == 0
      {
        assert g in n.free <==> g == f || g in m.free;
      }
    }
  }

  /** Freeing an unshared frame and allocating again returns that frame and restores the list. */
  lemma ReleaseThenAlloc(m: Phys, f: nat)
    requires WellFormed(m) && f < |m.pages| && m.counts[f] == 1
    ensures Release(m, f).free[0] == f
    ensures var n := Alloc(Release(m, f));
      && n.free == m.free && n.counts == m.counts
      && n.headNext == m.headNext && n.headPrev == m.headPrev
      && forall g :: 0 <= g < |m.pages| && g != f ==> n.pages[g] == m.pages[g]
  {
    ReleaseKeepsWellFormed(m, f);
    AllocKeepsWellFormed(Release(m, f));
    var n := Alloc(Release(m, f));
    assert ([f] + m.free)[1..] == m.free;
    if m.free != [] {
      var g := m.free[0];
      assert m.pages[g][PREV] == FRAME_HEAD;
      assert n.pages[g] == m.pages[g];
    }
  }
}
