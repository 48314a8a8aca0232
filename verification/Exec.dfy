/**
  The part of loadProgram that replaces an address space (process/load.c): everything is freed,
  three segments are mapped, filled through writable entries, and the text is then protected.
 */
module Exec {
  import opened Hardware
  import opened FrameList
  import opened AddressSpace
  import opened UserSpace

  /** Where a program goes, in pages of region 1; the stack ends at the region's limit. */
  datatype Layout = Layout(text: nat, textPages: nat, data: nat, dataPages: nat, stackPages: nat)

  /** The check of the code, at least one page between data and stack, and the order of the segments
      that executable files have. */
  predicate LayoutFits(l: Layout) {
    l.stackPages + l.data + l.dataPages < TABLE_LEN && l.text + l.textPages <= l.data
  }

  function StackStart(l: Layout): nat
    requires LayoutFits(l)
  {
    TABLE_LEN - l.stackPages
  }

  predicate InText(l: Layout, i: int) {
    l.text <= i < l.text + l.textPages
  }

  predicate InDataOrStack(l: Layout, i: int) {
    l.data <= i < l.data + l.dataPages || TABLE_LEN - l.stackPages <= i < TABLE_LEN
  }

  function MapSegments(m: Phys, t: seq<PTE>, l: Layout): (r: (Phys, seq<PTE>, bool))
    requires FramesExist(m) && |t| == TABLE_LEN && LayoutFits(l)
    ensures FramesExist(r.0) && |r.0.counts| == |m.counts| && |r.1| == |t|
    ensures EntriesExist(m, t) ==> EntriesExist(r.0, r.1)
  {
    var a := Grow(m, t, l.text, l.textPages);
    if !a.2 then a
    else
      var b := Grow(a.0, a.1, l.data, l.dataPages);
      if !b.2 then b else Grow(b.0, b.1, StackStart(l), l.stackPages)
  }

  /** The loader fills every mapped page: what the program file, the zeroed data and the arguments put there. */
  function FillTo(m: Phys, t: seq<PTE>, image: seq<Page>, n: nat): (r: Phys)
    requires FramesExist(m) && EntriesExist(m, t) && n <= |t| == |image|
    ensures r == m.(pages := r.pages) && |r.pages| == |m.pages|
  {
    if n == 0 then m
    else
      var r := FillTo(m, t, image, n - 1);
      if t[n - 1].flags.valid then r.(pages := r.pages[t[n - 1].pfn := image[n - 1]]) else r
  }

  function Protect(t: seq<PTE>, start: nat, n: nat): (r: seq<PTE>)
    requires start + n <= |t|
    ensures |r| == |t|
    ensures forall i :: 0 <= i < |t| ==> r[i] == if start <= i < start + n then PTE(TEXT_FLAGS, t[i].pfn) else t[i]
  {
    seq(|t|, i requires 0 <= i < |t| => if start <= i < start + n then PTE(TEXT_FLAGS, t[i].pfn) else t[i])
  }

  /** Loads a program into an empty address space; false when the frames ran out on the way. */
  function Load(m: Phys, t: seq<PTE>, l: Layout, image: seq<Page>): (Phys, seq<PTE>, bool)
    requires FramesExist(m) && EntriesExist(m, t) && |t| == TABLE_LEN == |image| && LayoutFits(l)
  {
    var (n, u, ok) := MapSegments(m, t, l);
    if !ok then (n, u, false) else (FillTo(n, u, image, TABLE_LEN), Protect(u, l.text, l.textPages), true)
  }

  /** What the new program sees; its text is not writable. */
  function Loaded(l: Layout, image: seq<Page>): (r: seq<UserPage>)
    requires |image| == TABLE_LEN
    ensures |r| == TABLE_LEN
  {
    seq(TABLE_LEN, i requires 0 <= i < TABLE_LEN =>
      if InText(l, i) then Present(image[i], true, false, true)
      else if InDataOrStack(l, i) then Present(image[i], true, true, false)
      else Absent)
  }

  // ---------- proofs ----------

  ghost predicate Owned(m: Phys, t: seq<PTE>) {
    EntriesExist(m, t) && forall i :: 0 <= i < |t| && t[i].flags.valid ==> m.counts[t[i].pfn] == 1
  }

  /** One more segment onto invalid entries of a table that owns all its frames. */
  lemma GrowOwned(m: Phys, t: seq<PTE>, start: nat, n: nat)
    requires Covered(m, t) && Owned(m, t) && start + n <= |t|
    requires forall i :: start <= i < start + n ==> !t[i].flags.valid
    ensures var (r, u, ok) := Grow(m, t, start, n);
      && (ok <==> n <= |m.free|) && |r.free| == |m.free| - Served(m, n)
      && Covered(r, u) && Owned(r, u) && Local(m, t, r, u)
      && (forall i :: 0 <= i < |t| && !(start <= i < start + Served(m, n)) ==> u[i] == t[i])
      && (forall i :: start <= i < start + Served(m, n) ==> u[i].flags == DATA_FLAGS)
  {
    hide Linked, FreeIffUncounted, Distinct, Grow, Refs, Local;
    GrowTakesTheFront(m, t, start, n);
    GrowIsLocal(m, t, start, n);
    var (r, u, _) := Grow(m, t, start, n);
    LocalKeepsCovered(m, t, r, u);
  }

  predicate Empty(t: seq<PTE>) {
    forall i :: 0 <= i < |t| ==> t[i] == NO_ENTRY
  }

  /** Pages of the new program, as the mapping loops make them. */
  predicate MappedFor(l: Layout, t: seq<PTE>) {
    forall i :: 0 <= i < |t| && t[i].flags.valid ==> t[i].flags == DATA_FLAGS && (InText(l, i) || InDataOrStack(l, i))
  }

  predicate Cleared(t: seq<PTE>) {
    forall i :: 0 <= i < |t| && !t[i].flags.valid ==> t[i] == NO_ENTRY
  }

  function PagesOf(l: Layout): nat {
    l.textPages + l.dataPages + l.stackPages
  }

  /** Mapping succeeds exactly when the frames suffice; all of its pages are mapped then, and some of
      them otherwise. */
  lemma MapSegmentsIsLocal(m: Phys, t: seq<PTE>, l: Layout)
    requires Covered(m, t) && |t| == TABLE_LEN && Empty(t) && LayoutFits(l)
    ensures var (r, u, ok) := MapSegments(m, t, l);
      && (ok <==> PagesOf(l) <= |m.free|)
      && Covered(r, u) && Owned(r, u) && Local(m, t, r, u) && MappedFor(l, u) && Cleared(u)
      && (ok ==> forall i :: 0 <= i < TABLE_LEN ==> (u[i].flags.valid <==> InText(l, i) || InDataOrStack(l, i)))
  {
    hide Linked, FreeIffUncounted, Distinct, Refs, Local, Grow;
    var a := Grow(m, t, l.text, l.textPages);
    GrowOwned(m, t, l.text, l.textPages);
    if a.2 {
      var b := Grow(a.0, a.1, l.data, l.dataPages);
      GrowOwned(a.0, a.1, l.data, l.dataPages);
      LocalTransitive(m, t, a.0, a.1, b.0, b.1);
      if b.2 {
        var c := Grow(b.0, b.1, StackStart(l), l.stackPages);
        GrowOwned(b.0, b.1, StackStart(l), l.stackPages);
        LocalTransitive(m, t, b.0, b.1, c.0, c.1);
      }
    }
  }

  lemma {:induction false} FillIsLocal(m: Phys, t: seq<PTE>, image: seq<Page>, n: nat)
    requires Covered(m, t) && Owned(m, t) && n <= |t| == |image|
    ensures var r := FillTo(m, t, image, n);
      && Local(m, t, r, t)
      && forall i :: 0 <= i < n && t[i].flags.valid ==> r.pages[t[i].pfn] == image[i]
  {
    hide Linked, FreeIffUncounted, Distinct, Refs, Local;
    if n == 0 {
      LocalReflexive(m, t);
    } else {
      FillIsLocal(m, t, image, n - 1);
      var r := FillTo(m, t, image, n - 1);
      LocalKeepsCovered(m, t, r, t);
      if t[n - 1].flags.valid {
        var f := t[n - 1].pfn;
        RefsPositive(t, n - 1);
        WriteOwnIsLocal(r, t, f, image[n - 1]);
        LocalTransitive(m, t, r, t, r.(pages := r.pages[f := image[n - 1]]), t);
        forall i | 0 <= i < n - 1 && t[i].flags.valid
          ensures t[i].pfn != f
        {
          if t[i].pfn == f { RefsTwice(t, i, n - 1); }
        }
      }
    }
  }

  lemma ProtectIsLocal(m: Phys, t: seq<PTE>, start: nat, n: nat)
    requires Covered(m, t) && start + n <= |t|
    requires forall i :: start <= i < start + n ==> t[i].flags.valid
    ensures Local(m, t, m, Protect(t, start, n))
  {
    hide Linked, FreeIffUncounted, Distinct, Refs, Protect;
    forall f: nat
      ensures Refs(t, f) == Refs(Protect(t, start, n), f)
    {
      RefsSameFrames(t, Protect(t, start, n), f);
    }
  }

  /** What is left when the frames run out: pages of the new program's segments, not yet filled. */
  predicate Abandoned(l: Layout, space: seq<UserPage>) {
    forall i :: 0 <= i < |space| && space[i].Present? ==>
      space[i].read && space[i].write && !space[i].exec && (InText(l, i) || InDataOrStack(l, i))
  }

  /** Loading is a local operation; it leaves the process with the program exactly when the frames
      suffice, and with some of its pages otherwise. */
  lemma LoadIsSeen(m: Phys, t: seq<PTE>, l: Layout, image: seq<Page>)
    requires Covered(m, t) && Empty(t) && |t| == TABLE_LEN == |image| && LayoutFits(l)
    ensures var (n, u, ok) := Load(m, t, l, image);
      && (ok <==> PagesOf(l) <= |m.free|) && Local(m, t, n, u)
      && CopyOnWriteShape(u) && SoleWriter(n, u) && Cleared(u)
      && (if ok then Space(n, u) == Loaded(l, image) else Abandoned(l, Space(n, u)))
  {
    hide Linked, FreeIffUncounted, Distinct, Refs, Local, HeldOutside, FillTo, MapSegments;
    MapSegmentsIsLocal(m, t, l);
    var (m1, t1, ok) := MapSegments(m, t, l);
    if ok {
      FillIsLocal(m1, t1, image, TABLE_LEN);
      var m2 := FillTo(m1, t1, image, TABLE_LEN);
      LocalTransitive(m, t, m1, t1, m2, t1);
      LocalKeepsCovered(m1, t1, m2, t1);
      ProtectIsLocal(m2, t1, l.text, l.textPages);
      LocalTransitive(m, t, m2, t1, m2, Protect(t1, l.text, l.textPages));
      assert Space(m2, Protect(t1, l.text, l.textPages)) == Loaded(l, image);
    } else {
      LocalSizes(m, t, m1, t1);
    }
  }
}
