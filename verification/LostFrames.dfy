/**
  How conservation is really lost.  The exact conditions under which Brk, the memory trap and fork keep
  the invariant fail on runs that any program can make; here are those runs.
 */
module LostFrames {
  import opened Hardware
  import opened FrameList
  import opened AddressSpace
  import opened UserSpace
  import opened Exec
  import opened Fork
  import opened KernelState
  import opened KernelSteps
  import opened HeapSteps
  import opened ProcessSteps
  import opened KernelRuns
  import opened Refinement
  import Boot

  lemma RunOneMore(s: Sys, e: Event, es: seq<Event>)
    requires Good(s) && Enabled(s, e)
    requires Good(Step(s, e)) ==> Possible(Step(s, e), es)
    ensures Good(Step(s, e)) && Possible(s, [e] + es) && Run(s, [e] + es) == Run(Step(s, e), es)
  {
    hide Inv, HeapsOk, CharCounts, Enabled, Step;
    StepKeepsGood(s, e);
    assert ([e] + es)[0] == e && ([e] + es)[1..] == es;
  }

  // ---------- Brk over a page of an earlier, deeper stack ----------

  /** A store to an absent page at or above the stack pointer's maps the first free frame there. */
  lemma StoreMapsPage(s: Sys, address: int, value: int)
    requires Good(s) && InRegion1(address) && s.mem.free != []
    requires s.ptbr in s.procs && InStack(s.procs[s.ptbr].sp, address)
    requires |s.procs[s.ptbr].table| == TABLE_LEN && !s.procs[s.ptbr].table[PageOf(address)].flags.valid
    ensures StoreEnabled(s, address)
    ensures var p, i, r := s.procs[s.ptbr], PageOf(address), StoreStep(s, address, value);
      && r.procs == s.procs[s.ptbr := p.(table := p.table[i := PTE(DATA_FLAGS, s.mem.free[0])])]
      && r.mem.free == s.mem.free[1..]
      && r.ptbr == s.ptbr && r.stackMap == s.stackMap
  {
    hide Linked, FreeIffUncounted, RingRefs, Refs, FrameRefs, Distinct, Maps, Conserved, KernelOwns, StacksOwned,
      HeapsOk;
    CurrentInfo(s);
  }

  /** A process whose heap does not reach its stack can move its stack pointer to the break, store
      there and move it back; the next page that Brk gives it then costs a frame for ever. */
  lemma BrkCanLoseAFrame(s: Sys, value: int)
    requires Good(s) && InfoMapped(s) && s.ptbr in s.procs && |s.procs[s.ptbr].table| == TABLE_LEN
    requires var brk := PageOf(Info(s, CURRENT_BRK));
      0 <= brk && brk + 1 < StackPage(s) <= TABLE_LEN && !s.procs[s.ptbr].table[brk].flags.valid
    requires |s.mem.free| >= 2
    ensures var brk := Info(s, CURRENT_BRK);
      var es := [DoMoveStack(brk), DoStore(brk, value), DoMoveStack(s.procs[s.ptbr].sp)];
      Possible(s, es) && !Inv(BrkStep(Run(s, es), brk + PAGE_SIZE).0)
  {
    hide Inv, Possible, Run, HeapsOk, CharCounts, StoreStep, StoreEnabled, BrkStep, BrkEnabled;
    HeapLimits(s);
    var brk, sp := Info(s, CURRENT_BRK), s.procs[s.ptbr].sp;
    var a := WithStack(s, brk);
    StepKeepsGood(s, DoMoveStack(brk));
    StoreMapsPage(a, brk, value);
    var b := StoreStep(a, brk, value);
    StepKeepsGood(a, DoStore(brk, value));
    InfoStays(a, brk, value);
    var c := WithStack(b, sp);
    StepKeepsGood(b, DoMoveStack(sp));
    MappedIsNotEnabled(c, brk + PAGE_SIZE);
    BrkKeepsInvIff(c, brk + PAGE_SIZE);
    ThreeEvents(s, DoMoveStack(brk), DoStore(brk, value), DoMoveStack(sp), a, b, c);
  }

  lemma ThreeEvents(s: Sys, e: Event, f: Event, g: Event, a: Sys, b: Sys, c: Sys)
    requires Good(s) && Enabled(s, e) && a == Step(s, e)
    requires Good(a) && Enabled(a, f) && b == Step(a, f)
    requires Good(b) && Enabled(b, g) && c == Step(b, g) && Good(c)
    ensures Possible(s, [e, f, g]) && Run(s, [e, f, g]) == c
  {
    hide Inv, HeapsOk, CharCounts, Enabled, Step;
    NothingMore(c);
    RunOneMore(b, g, []);
    assert [g] + [] == [g] && [f] + [g] == [f, g] && [e] + [f, g] == [e, f, g];
    RunOneMore(a, f, [g]);
    RunOneMore(s, e, [f, g]);
  }

  lemma NothingMore(s: Sys)
    requires Good(s)
    ensures Possible(s, []) && Run(s, []) == s
  {
  }

  lemma InfoStays(s: Sys, address: int, value: int)
    requires Good(s) && StoreEnabled(s, address)
    ensures var r := StoreStep(s, address, value);
      && InfoMapped(s) && InfoMapped(r)
      && forall w: nat :: w < INFO_WORDS ==> Info(r, w) == Info(s, w)
  {
    hide Linked, FreeIffUncounted, RingRefs, Refs, FrameRefs, Distinct, Maps, Conserved, KernelOwns, TableShape,
      Store;
    CurrentInfo(s);
    StoreKeepsInfo(s, address, value, s.ptbr);
  }

  /** One page more than the break, which is mapped already. */
  lemma MappedIsNotEnabled(s: Sys, address: int)
    requires Good(s) && InfoMapped(s) && s.ptbr in s.procs && |s.procs[s.ptbr].table| == TABLE_LEN
    requires address == Info(s, CURRENT_BRK) + PAGE_SIZE && s.mem.free != []
    requires var brk := PageOf(Info(s, CURRENT_BRK));
      0 <= brk && brk + 1 < StackPage(s) <= TABLE_LEN && s.procs[s.ptbr].table[brk].flags.valid
    ensures !BrkEnabled(s, address)
  {
    hide Inv, CharCounts;
    HeapLimits(s);
  }

  // ---------- the stack pointer below a page that must not be written ----------

  /** A process that moves its stack pointer to a page of its text and stores there makes the trap lose
      the frame of the text. */
  lemma TrapCanLoseAFrame(s: Sys, i: nat)
    requires Good(s) && s.ptbr in s.procs && |s.procs[s.ptbr].table| == TABLE_LEN && i < TABLE_LEN
    requires var e := s.procs[s.ptbr].table[i]; e.flags.valid && !e.flags.write && !e.flags.cow
    requires s.mem.free != []
    ensures var address := REGION1_BASE + PageAtIndex(i);
      && Possible(s, [DoMoveStack(address)])
      && TrapEnabled(Run(s, [DoMoveStack(address)]), address)
      && !Inv(TrapStep(Run(s, [DoMoveStack(address)]), address))
  {
    hide Linked, FreeIffUncounted, RingRefs, Refs, FrameRefs, Distinct, Maps, Conserved, KernelOwns, StacksOwned,
      HeapsOk, CharCounts, Possible, Run, TrapStep;
    var address := REGION1_BASE + PageAtIndex(i);
    var r := WithStack(s, address);
    StepKeepsGood(s, DoMoveStack(address));
    NothingMore(r);
    RunOneMore(s, DoMoveStack(address), []);
    assert [DoMoveStack(address)] + [] == [DoMoveStack(address)];
    TrapKeepsInvIff(r, address);
  }

  // ---------- one fork too many ----------

  lemma {:induction false} ValidInSame(t: seq<PTE>, u: seq<PTE>, from: nat, to: nat)
    requires to <= |t| == |u| && forall i :: from <= i < to ==> t[i] == u[i]
    ensures ValidIn(t, from, to) == ValidIn(u, from, to)
  {
    if from < to {
      ValidInSame(t, u, from, to - 1);
    }
  }

  /** How many frames a fork takes. */
  ghost function ForkCost(s: Sys): nat
    requires Inv(s)
  {
    CurrentInfo(s);
    STACK_PAGES + ValidIn(s.procs[s.ptbr].table, StackBase(s.procs[s.ptbr].sp), TABLE_LEN)
  }

  /** What stays of the parent over a fork. */
  lemma ParentStays(s: Sys, r: Sys, m: Spawned, context: int)
    requires Inv(s) && SpawnParts(s, r, m, false, context)
    ensures var p := s.procs[s.ptbr];
      && r.ptbr == s.ptbr && r.ptbr in r.procs && r.mem == m.mem
      && r.procs[s.ptbr].sp == p.sp && r.procs[s.ptbr].leader == p.leader
      && |p.table| == TABLE_LEN && 0 <= StackBase(p.sp) <= TABLE_LEN
      && r.procs[s.ptbr].table == MarkTable(p.table, StackBase(p.sp))
  {
    hide Linked, FreeIffUncounted, RingRefs, Refs, FrameRefs, Distinct, Maps, Conserved, KernelOwns, StacksOwned,
      TableShape, SpawnedRight, MarkTable;
    CurrentInfo(s);
  }

  /** What becomes of the parent and of the frames over one fork. */
  lemma OneFork(s: Sys, context: int, j: nat)
    requires Good(s) && SpawnEnabled(s)
    requires j < StackBase(s.procs[s.ptbr].sp) && s.procs[s.ptbr].table[j].flags.valid
    ensures var r, p, f := SpawnStep(s, context, false), s.procs[s.ptbr], s.procs[s.ptbr].table[j].pfn;
      && Good(r) && r.ptbr == s.ptbr && r.ptbr in r.procs && |r.procs[s.ptbr].table| == TABLE_LEN
      && r.procs[s.ptbr].sp == p.sp && r.procs[s.ptbr].leader == 0
      && r.procs[s.ptbr].table[j].flags.valid && r.procs[s.ptbr].table[j].pfn == f
      && ForkCost(r) == ForkCost(s) && |r.mem.free| == |s.mem.free| - ForkCost(s)
      && f < |s.mem.counts| == |r.mem.counts| && r.mem.counts[f] > s.mem.counts[f]
  {
    hide Inv, HeapsOk, CharCounts, CountsFit, SpawnStep, SpawnedRight, SpawnFits;
    StepKeepsGood(s, DoFork(context));
    CurrentInfo(s);
    var m := SpawnHasParts(s, context, false);
    ForkTakes(s, context);
    var r, t, base := SpawnStep(s, context, false), s.procs[s.ptbr].table, StackBase(s.procs[s.ptbr].sp);
    ParentStays(s, r, m, context);
    ValidInSame(t, r.procs[s.ptbr].table, base, TABLE_LEN);
    SharedGains(s.mem, t, base, StackFrames(s), s.maxPid + 1, m, j);
  }

  lemma SharedGains(m: Phys, t: seq<PTE>, base: nat, stack: seq<nat>, child: int, r: Spawned, j: nat)
    requires SpawnFits(m, t, base, stack) && SpawnedRight(m, t, base, stack, child, r)
    requires j < base && t[j].flags.valid
    ensures t[j].pfn < |m.counts| == |r.mem.counts| && r.mem.counts[t[j].pfn] > m.counts[t[j].pfn]
  {
    hide Linked, FreeIffUncounted, Refs, FrameRefs, Distinct, Maps;
    RefsPositive(r.table, j);
  }

  lemma ForkTakes(s: Sys, context: int)
    requires Inv(s) && SpawnPossible(s)
    ensures |SpawnStep(s, context, false).mem.free| == |s.mem.free| - ForkCost(s)
  {
    hide Linked, FreeIffUncounted, RingRefs, Refs, FrameRefs, Distinct, Maps, Conserved, KernelOwns, StacksOwned,
      TableShape, CopyStep, CloneStack, MarkTable;
    CurrentInfo(s);
    StacksCounted(s);
  }

  /** A process with a page below its stack and enough memory forks at most 127 times before the page's
      count cannot take the next child. */
  lemma {:induction false} ForkCanOverflow(s: Sys, context: int, j: nat, n: nat) returns (es: seq<Event>)
    requires Good(s) && s.ptbr in s.procs && s.procs[s.ptbr].leader == 0
    requires |s.procs[s.ptbr].table| == TABLE_LEN && 0 <= StackBase(s.procs[s.ptbr].sp) <= TABLE_LEN
    requires j < StackBase(s.procs[s.ptbr].sp) && s.procs[s.ptbr].table[j].flags.valid
    requires s.procs[s.ptbr].table[j].pfn < |s.mem.counts| && s.mem.counts[s.procs[s.ptbr].table[j].pfn] + n >= 128
    requires n * ForkCost(s) <= |s.mem.free|
    ensures |es| < n && (forall i :: 0 <= i < |es| ==> es[i] == DoFork(context))
    ensures Possible(s, es) && SpawnPossible(Run(s, es)) && !Inv(SpawnStep(Run(s, es), context, false))
    decreases n
  {
    hide Inv, Possible, Run, HeapsOk, SpawnStep;
    CountIsChar(s, s.procs[s.ptbr].table[j].pfn);
    Multiple(n, ForkCost(s));
    EnoughForOne(s);
    SpawnKeepsInvIff(s, context, false);
    if SpawnEnabled(s) {
      OneFork(s, context, j);
      MustFit(s, j);
      es := ForkCanOverflow(SpawnStep(s, context, false), context, j, n - 1);
      RunOneMore(s, DoFork(context), es);
      es := [DoFork(context)] + es;
    } else {
      NothingMore(s);
      es := [];
    }
  }

  lemma Multiple(n: nat, cost: nat)
    requires n > 0
    ensures n * cost == cost + (n - 1) * cost && cost <= n * cost
  {
  }

  lemma CountIsChar(s: Sys, f: nat)
    requires Good(s) && f < |s.mem.counts|
    ensures s.mem.counts[f] <= 127
  {
  }

  lemma EnoughForOne(s: Sys)
    requires Inv(s) && s.procs[s.ptbr].leader == 0 && ForkCost(s) <= |s.mem.free|
    ensures SpawnPossible(s)
  {
  }

  /** Where a fork is allowed the count of a shared page is below 127. */
  lemma MustFit(s: Sys, j: nat)
    requires Good(s) && SpawnEnabled(s)
    requires j < StackBase(s.procs[s.ptbr].sp) && s.procs[s.ptbr].table[j].flags.valid
    ensures var f := s.procs[s.ptbr].table[j].pfn; f < |s.mem.counts| && s.mem.counts[f] + 1 <= 127
  {
    hide Linked, FreeIffUncounted, RingRefs, Refs, FrameRefs, Distinct, Maps, Conserved, KernelOwns, StacksOwned;
    CurrentInfo(s);
    var t, base := s.procs[s.ptbr].table, StackBase(s.procs[s.ptbr].sp);
    assert t[..base][j] == t[j];
    RefsPositive(t[..base], j);
  }

  // ---------- all three from boot ----------

  /** What a freshly loaded program has. */
  lemma JustLoaded(s: Sys, l: Layout, image: seq<Page>, sp: int)
    requires Inv(s) && ExecEnabled(s, l, image, sp) && ExecServed(s, l)
    ensures var r := ExecStep(s, l, image, sp);
      && InfoMapped(r) && r.ptbr in r.procs && |r.procs[r.ptbr].table| == TABLE_LEN && r.procs[r.ptbr].leader == 0
      && PageOf(Info(r, CURRENT_BRK)) == l.data + l.dataPages
      && StackPage(r) == StackBase(r.procs[r.ptbr].sp) == StackStart(l)
      && forall i :: 0 <= i < TABLE_LEN ==>
           && (r.procs[r.ptbr].table[i].flags.valid <==> InText(l, i) || InDataOrStack(l, i))
           && (InText(l, i) ==> !r.procs[r.ptbr].table[i].flags.write && !r.procs[r.ptbr].table[i].flags.cow)
  {
    hide Linked, FreeIffUncounted, RingRefs, Refs, FrameRefs, Distinct, Maps, Conserved, KernelOwns, StacksOwned,
      TableShape, ExecStep;
    ExecIsRight(s, l, image, sp);
    var r := ExecStep(s, l, image, sp);
    CurrentInfo(r);
    forall i | 0 <= i < TABLE_LEN
      ensures Space(r.mem, r.procs[r.ptbr].table)[i] == Loaded(l, image)[i]
    {
    }
  }

  /** The first program after boot can lose frames in all three ways, whatever it is, if it has text and
      two pages between data and stack, in a memory large enough. */
  lemma FirstProgramCanLoseFrames(s: Sys, kernelBrk: int, pmemSize: int, l: Layout, image: seq<Page>, sp: int)
    returns (forks: seq<Event>)
    requires Boot.Booted(s, kernelBrk, pmemSize) && (Inv(s) ==> ExecEnabled(s, l, image, sp) && ExecServed(s, l))
    requires LayoutFits(l) && l.textPages > 0 && l.data + l.dataPages + 1 < StackStart(l)
    ensures Inv(s) && Good(ExecStep(s, l, image, sp))
    ensures var r := ExecStep(s, l, image, sp);
      |r.mem.free| >= 128 * ForkCost(r) ==>
        && (exists es, address :: Possible(r, es) && !Inv(BrkStep(Run(r, es), address).0))
        && (exists es, address :: Possible(r, es) && TrapEnabled(Run(r, es), address)
              && !Inv(TrapStep(Run(r, es), address)))
        && Possible(r, forks) && SpawnPossible(Run(r, forks)) && !Inv(SpawnStep(Run(r, forks), 0, false))
  {
    hide Inv, HeapsOk, CharCounts, ExecStep, ExecEnabled, ExecServed, Possible, Run, BrkStep, TrapStep, SpawnStep;
    forks := [];
    Boot.FirstExecIsGood(s, kernelBrk, pmemSize, l, image, sp);
    JustLoaded(s, l, image, sp);
    var r := ExecStep(s, l, image, sp);
    CurrentInfo(r);
    CountsNotNegative(r);
    if |r.mem.free| >= 128 * ForkCost(r) {
      BrkCanLoseAFrame(r, 0);
      TrapCanLoseAFrame(r, l.text);
      forks := ForkCanOverflow(r, 0, l.text, 128);
    }
  }
}
