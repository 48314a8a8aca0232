/** No step takes a count out of the range of a signed char: frc_table is an array of char. */
module CountRange {
  import opened Hardware
  import opened FrameList
  import opened AddressSpace
  import opened UserSpace
  import opened Exec
  import opened Fork
  import opened KernelState
  import opened KernelSteps
  import opened HeapSteps
  import opened ProcessSteps

  lemma AllocKeepsRange(m: Phys)
    requires FramesExist(m) && m.free != [] && CharCounts(m)
    ensures CharCounts(Alloc(m))
  {
  }

  lemma ReleaseKeepsRange(m: Phys, f: nat)
    requires FramesExist(m) && f < |m.pages| && CharCounts(m)
    ensures CharCounts(Release(m, f))
    ensures FramesExist(Release(m, f)) && |Release(m, f).pages| == |m.pages|
  {
  }

  lemma {:induction false} GrowKeepsRange(m: Phys, t: seq<PTE>, start: nat, n: nat)
    requires FramesExist(m) && start + n <= |t| && CharCounts(m)
    ensures CharCounts(Grow(m, t, start, n).0)
  {
    hide CharCounts, Alloc;
    if n > 0 {
      GrowKeepsRange(m, t, start, n - 1);
      var r := Grow(m, t, start, n - 1).0;
      if r.free != [] { AllocKeepsRange(r); }
    }
  }

  lemma {:induction false} ShrinkKeepsRange(m: Phys, t: seq<PTE>, start: nat, n: nat)
    requires FramesExist(m) && start + n <= |t| && CharCounts(m)
    requires forall i :: start <= i < start + n ==> t[i].pfn < |m.counts|
    ensures CharCounts(Shrink(m, t, start, n).0)
  {
    hide CharCounts, Release;
    if n > 0 {
      ShrinkKeepsRange(m, t, start, n - 1);
      ReleaseKeepsRange(Shrink(m, t, start, n - 1).0, t[start + n - 1].pfn);
    }
  }

  lemma {:induction false} FreeKeepsRange(m: Phys, t: seq<PTE>, n: nat)
    requires FramesExist(m) && EntriesExist(m, t) && n <= |t| && CharCounts(m)
    ensures CharCounts(FreeTo(m, t, n))
  {
    hide CharCounts, Release;
    if n > 0 {
      FreeKeepsRange(m, t, n - 1);
      if t[n - 1].flags.valid { ReleaseKeepsRange(FreeTo(m, t, n - 1), t[n - 1].pfn); }
    }
  }

  lemma {:induction false} CopyKeepsRange(m: Phys, t: seq<PTE>, base: nat, n: nat)
    requires FramesExist(m) && EntriesExist(m, t) && n <= |t| && ValidIn(t, base, n) <= |m.free| && CharCounts(m)
    ensures CharCounts(CopyStackTo(m, t, base, n).0)
  {
    if n > base {
      CopyKeepsRange(m, t, base, n - 1);
    }
  }

  lemma {:induction false} ShareKeepsRange(counts: seq<int>, t: seq<PTE>, n: nat)
    requires n <= |t| && forall i :: 0 <= i < |t| && t[i].flags.valid ==> t[i].pfn < |counts|
    requires forall f :: 0 <= f < |counts| ==> counts[f] <= 127
    ensures forall f :: 0 <= f < |counts| ==> ShareTo(counts, t, n)[f] <= 127
  {
    if n > 0 {
      ShareKeepsRange(counts, t, n - 1);
      var r := ShareTo(counts, t, n - 1);
      if t[n - 1].flags.valid {
        CharIsInRange(r[t[n - 1].pfn] + 1);
        assert ShareTo(counts, t, n) == r[t[n - 1].pfn := Char(r[t[n - 1].pfn] + 1)];
      }
    }
  }

  lemma CharIsInRange(c: int)
    ensures -128 <= Char(c) <= 127
  {
  }

  lemma SpawnKeepsRange(m: Phys, t: seq<PTE>, base: nat, stack: seq<nat>, child: int)
    requires SpawnFits(m, t, base, stack) && CharCounts(m)
    ensures CharCounts(Spawn(m, t, base, stack, child).mem)
  {
    hide CopyStackTo, ShareTo, CloneStack;
    var n := NewStack(m, child);
    CopyKeepsRange(n, t, base, TABLE_LEN);
    var (m1, c) := CopyStackTo(n, t, base, TABLE_LEN);
    ShareKeepsRange(m1.counts, c, base);
    assert Spawn(m, t, base, stack, child).mem.counts == ShareTo(m1.counts, c, base);
  }

  lemma LoadKeepsRange(m: Phys, t: seq<PTE>, l: Layout, image: seq<Page>)
    requires FramesExist(m) && EntriesExist(m, t) && |t| == TABLE_LEN == |image| && LayoutFits(l) && CharCounts(m)
    ensures CharCounts(Load(m, t, l, image).0)
  {
    hide CharCounts, Grow, FillTo;
    var a := Grow(m, t, l.text, l.textPages);
    GrowKeepsRange(m, t, l.text, l.textPages);
    var b := Grow(a.0, a.1, l.data, l.dataPages);
    GrowKeepsRange(a.0, a.1, l.data, l.dataPages);
    var c := Grow(b.0, b.1, StackStart(l), l.stackPages);
    GrowKeepsRange(b.0, b.1, StackStart(l), l.stackPages);
    SameCounts(c.0, FillTo(c.0, c.1, image, TABLE_LEN));
  }

  lemma SameCounts(m: Phys, n: Phys)
    requires CharCounts(m) && n.counts == m.counts
    ensures CharCounts(n)
  {
  }

  // ---------- the steps of the kernel ----------

  lemma StoreStepKeepsRange(s: Sys, address: int, value: int)
    requires Inv(s) && StoreEnabled(s, address) && CharCounts(s.mem)
    ensures CharCounts(StoreStep(s, address, value).mem)
  {
    hide Linked, FreeIffUncounted, Distinct, Conserved, KernelOwns, StacksOwned;
  }

  lemma BrkStepKeepsRange(s: Sys, address: int)
    requires Inv(s) && HeapsOk(s) && CharCounts(s.mem)
    ensures CharCounts(BrkStep(s, address).0.mem)
  {
    hide Linked, FreeIffUncounted, Distinct, Conserved, KernelOwns, StacksOwned, Grow, Shrink, CharCounts, Refs,
      RingRefs;
    CurrentInfo(s);
    var t, brk, up := s.procs[s.ptbr].table, Info(s, CURRENT_BRK), UpToPage(address);
    if BrkGrows(s, address) {
      GrowKeepsRange(s.mem, t, PageOf(brk), (up - brk) / PAGE_SIZE);
      var r := Grow(s.mem, t, PageOf(brk), (up - brk) / PAGE_SIZE).0;
      SameCounts(r, BrkStep(s, address).0.mem);
    } else if BrkShrinks(s, address) {
      assert HeapOk(s.mem.pages[s.procs[s.ptbr].pcb[0]], t);
      ShrinkKeepsRange(s.mem, t, PageOf(up), (brk - up) / PAGE_SIZE);
      var r := Shrink(s.mem, t, PageOf(up), (brk - up) / PAGE_SIZE).0;
      SameCounts(r, BrkStep(s, address).0.mem);
    }
  }

  lemma KernelBrkStepKeepsRange(s: Sys, address: int)
    requires Inv(s) && UpToPage(address) >= 0 && CharCounts(s.mem)
    ensures CharCounts(KernelBrkStep(s, address).0.mem)
  {
    hide Linked, FreeIffUncounted, Distinct, Conserved, StacksOwned, Grow, Shrink, CharCounts, Refs, RingRefs;
    var up := UpToPage(address);
    if s.kernelBrk < up < PageAtIndex(WINDOW_BASE_PAGE) {
      GrowKeepsRange(s.mem, s.kernelMap, IndexOfPage(s.kernelBrk), (up - s.kernelBrk) / PAGE_SIZE);
    } else if up < s.kernelBrk {
      ShrinkKeepsRange(s.mem, s.kernelMap, IndexOfPage(up), (s.kernelBrk - up) / PAGE_SIZE);
    }
  }

  lemma ExecStepKeepsRange(s: Sys, l: Layout, image: seq<Page>, sp: int)
    requires Inv(s) && ExecEnabled(s, l, image, sp) && CharCounts(s.mem)
    ensures CharCounts(ExecStep(s, l, image, sp).mem)
  {
    hide Linked, FreeIffUncounted, Distinct, Conserved, KernelOwns, StacksOwned, FreeTo, Load, CharCounts, Refs,
      RingRefs;
    CurrentInfo(s);
    var t := s.procs[s.ptbr].table;
    FreeKeepsRange(s.mem, t, |t|);
    UnloadedIsRight(s, l, sp);
    var a := Unloaded(s, l, sp);
    SameCounts(FreeTo(s.mem, t, |t|), a.mem);
    LoadKeepsRange(a.mem, a.procs[s.ptbr].table, l, image);
  }

  lemma SpawnStepKeepsRange(s: Sys, context: int, thread: bool)
    requires Inv(s) && SpawnPossible(s) && CharCounts(s.mem)
    ensures CharCounts(SpawnStep(s, context, thread).mem)
  {
    hide Linked, FreeIffUncounted, Distinct, Conserved, KernelOwns, StacksOwned, Spawn, Refs, RingRefs, TableShape,
      CharCounts;
    CurrentInfo(s);
    StacksCounted(s);
    SpawnKeepsRange(s.mem, s.procs[s.ptbr].table, StackBase(s.procs[s.ptbr].sp), StackFrames(s), s.maxPid + 1);
  }

  lemma ExitStepKeepsRange(s: Sys, next: int, context: int)
    requires Inv(s) && ExitEnabled(s, next) && CharCounts(s.mem)
    ensures CharCounts(ExitStep(s, next, context).mem)
  {
    hide Linked, FreeIffUncounted, Distinct, Conserved, KernelOwns, StacksOwned, FreeTo, CharCounts, Refs, RingRefs,
      Release;
    CurrentInfo(s);
    var t := s.procs[s.ptbr].table;
    FreeKeepsRange(s.mem, t, |t|);
    DropSpaceKeepsInv(s);
    SwitchIsRight(DropSpace(s), next, context);
    var r := SwitchStep(DropSpace(s), next, context);
    StackFramesExist(r, s.ptbr);
    ReleaseKeepsRange(r.mem, r.procs[s.ptbr].pcb[0]);
    ReleaseKeepsRange(Release(r.mem, r.procs[s.ptbr].pcb[0]), r.procs[s.ptbr].pcb[1]);
  }
}
