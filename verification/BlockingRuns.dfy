/** Properties of every run of Blocking, over all interleavings. */
module BlockingRuns {
  import opened WaitQueues
  import opened Blocking
  import opened BlockingInv
  import opened TerminalInv

  /** Nobody is there, nobody waits, and nothing is locked or has been written. */
  ghost predicate Initial(s: State) {
    && s.calls == map[] && s.asleep == {}
    && (forall id :: Q(s, id) == [])
    && (forall m :: MutexOf(s, m) == Mutex(false, 0) && Holders(s, m) == {})
    && (forall t :: TtyOf(s, t) == NEW_TTY)
  }

  lemma InitialIsInv(s: State)
    requires Initial(s)
    ensures Inv(s) && Exclusive(s)
  {
    assert forall t :: SentNow(s, t) == [];
    assert Concat([]) == [];
  }

  lemma ResumeKeepsInv(s: State, p: int)
    requires Inv(s) && p in s.calls && p !in s.asleep && s.calls[p] != User
    ensures Inv(Resume(s, p))
  {
    CallersKnown(s);
    WaitersAsleep(s);
    hide QueuesOk, MutexesOk, ReadersOk, AcquireLoop, Acquire, ReadLoop, TransmitLoop, WritersOkBut;
    if s.calls[p].InTransmit? {
      ResumedBut(s, p);
      TransmitKeepsInv(s, p, s.calls[p].t, s.calls[p].message, s.calls[p].position + TERMINAL_MAX_LINE);
    } else if s.calls[p].InAcquire? {
      AcquireLoopKeepsInv(s, p, s.calls[p].m);
    } else if s.calls[p].InWait? {
      AcquireKeepsInv(s, p, s.calls[p].m);
    } else {
      ReadLoopKeepsInv(s, p, s.calls[p].t, s.calls[p].length);
    }
  }

  lemma CallersKnown(s: State)
    requires Inv(s)
    ensures s.asleep <= s.calls.Keys && forall p :: p in s.calls ==> p > 0
  {
    hide MutexesOk, ReadersOk, WritersOk;
    forall p | p in s.asleep
      ensures p in s.calls.Keys
    {
    }
  }

  lemma StepKeepsInv(s: State, e: Event)
    requires Inv(s) && Enabled(s, e)
    ensures Inv(Step(s, e))
  {
    hide Inv, Resume, Acquire, Release, Wait, Wake, ReadLoop, WriteLoop, LineArrives, WriteFinished, Return,
      Transmitting;
    match e
    case DoSpawn(p) => CallersKnown(s); ReturnKeepsInv(s, p);
    case DoAcquire(p, m) => AcquireKeepsInv(s, p, m);
    case DoRelease(p, m) => ReleaseKeepsInv(s, p, m);
    case DoWait(p, c, m) => WaitKeepsInv(s, p, c, m);
    case DoSignal(_, c) => WakeKeepsInv(s, CvarQ(c), true);
    case DoBroadcast(_, c) => WakeKeepsInv(s, CvarQ(c), false);
    case DoRead(p, t, length) => if ValidTty(t) { ReadLoopKeepsInv(s, p, t, length); }
    case DoWrite(p, t, message) => if ValidTty(t) { WriteLoopKeepsInv(s, p, t, message); }
    case DoResume(p) => ResumeKeepsInv(s, p);
    case DoLine(t, bytes) => if ValidTty(t) { LineArrivesKeepsInv(s, t, bytes); }
    case DoTransmitted(t) => if ValidTty(t) { WriteFinishedKeepsInv(s, t); }
  }

  predicate Possible(s: State, es: seq<Event>)
    decreases es
  {
    es == [] || (Enabled(s, es[0]) && Possible(Step(s, es[0]), es[1..]))
  }

  function Run(s: State, es: seq<Event>): State
    requires Possible(s, es)
    decreases es
  {
    if es == [] then s else Run(Step(s, es[0]), es[1..])
  }

  /** Every state of every run satisfies the invariant: queues, mutexes, readers and writers. */
  lemma {:induction false} RunKeepsInv(s: State, es: seq<Event>)
    requires Inv(s) && Possible(s, es)
    ensures Inv(Run(s, es))
    decreases es
  {
    hide Inv, Step, Enabled;
    if es != [] {
      StepKeepsInv(s, es[0]);
      RunKeepsInv(Step(s, es[0]), es[1..]);
    }
  }

  // ---------- wait queues ----------

  /** A process is asleep exactly when it has a node, and then it has one node on one queue. */
  lemma AsleepIffQueued(s: State, p: int)
    requires Inv(s)
    ensures p in s.asleep <==> exists id, i :: 0 <= i < |Q(s, id)| && Q(s, id)[i].pid == p
    ensures forall id, i, other, j ::
      0 <= i < |Q(s, id)| && 0 <= j < |Q(s, other)| && Q(s, id)[i].pid == p == Q(s, other)[j].pid ==>
      id == other && i == j
  {
    hide MutexesOk, ReadersOk, WritersOk;
    if p in s.asleep {
      var id := QueueOf(s.calls[p]);
      var i :| 0 <= i < |Q(s, id)| && Q(s, id)[i].pid == p;
    }
    forall id, i, other, j | 0 <= i < |Q(s, id)| && 0 <= j < |Q(s, other)| && Q(s, id)[i].pid == p == Q(s, other)[j].pid
      ensures id == other && i == j
    {
      assert WaiterOk(s, id, Q(s, id)[i]) && WaiterOk(s, other, Q(s, other)[j]);
      assert NoRepeats(Q(s, id));
    }
    if exists id, i :: 0 <= i < |Q(s, id)| && Q(s, id)[i].pid == p {
      var id, i :| 0 <= i < |Q(s, id)| && Q(s, id)[i].pid == p;
      assert WaiterOk(s, id, Q(s, id)[i]);
    }
  }

  // ---------- mutual exclusion ----------

  /** Who has acquired and not released is the owner, or nobody. */
  ghost predicate Exclusive(s: State) {
    forall m :: Holders(s, m) == if MutexOf(s, m).locked then {MutexOf(s, m).owner} else {}
  }

  /** Only the holder releases a mutex or waits with it. */
  predicate HolderReleases(s: State, e: Event) {
    match e
    case DoRelease(p, m) => p in Holders(s, m)
    case DoWait(p, _, m) => p in Holders(s, m)
    case _ => true
  }

  ghost predicate Disciplined(s: State, es: seq<Event>)
    requires Possible(s, es)
    decreases es
  {
    es == [] || (HolderReleases(s, es[0]) && Disciplined(Step(s, es[0]), es[1..]))
  }

  lemma MutexPartKept(s: State, r: State)
    requires r.mutexes == s.mutexes && r.holders == s.holders
    ensures Exclusive(s) <==> Exclusive(r)
  {
    assert forall m :: Holders(r, m) == Holders(s, m) && MutexOf(r, m) == MutexOf(s, m);
  }

  /** The one step that can break exclusion, and exactly when it does: mutexRelease does not check its
      caller, so a release by anybody but the owner of a locked mutex lets a second process in. */
  lemma ReleaseKeepsExclusiveIff(s: State, p: int, m: int)
    requires Inv(s) && Exclusive(s)
    ensures Exclusive(Release(s, p, m)) <==> !MutexOf(s, m).locked || MutexOf(s, m).owner == p
  {
    hide QueuesOk, ReadersOk, WritersOk, Wake;
    var f := SetMutex(s, m, Mutex(false, 0), Holders(s, m) - {p});
    WakeParts(f, MutexQ(m), true);
    MutexPartKept(f, Release(s, p, m));
    assert forall n :: n != m ==> Holders(f, n) == Holders(s, n) && MutexOf(f, n) == MutexOf(s, n);
    assert Holders(f, m) == Holders(s, m) - {p} && MutexOf(f, m) == Mutex(false, 0);
    assert Holders(s, m) == if MutexOf(s, m).locked then {MutexOf(s, m).owner} else {};
    if MutexOf(s, m).locked && MutexOf(s, m).owner != p {
      assert MutexOf(s, m).owner in Holders(f, m);
    }
  }

  lemma AcquireKeepsExclusive(s: State, p: int, m: int)
    requires Exclusive(s)
    ensures Exclusive(Acquire(s, p, m)) && Exclusive(AcquireLoop(s, p, m))
  {
    hide Enqueue;
    var r := AcquireLoop(s, p, m);
    if MutexOf(s, m).locked {
      MutexPartKept(s, r);
    } else {
      assert Holders(s, m) == {};
      assert forall n :: n != m ==> Holders(r, n) == Holders(s, n) && MutexOf(r, n) == MutexOf(s, n);
    }
    MutexPartKept(s, Return(s, p));
  }

  /** Steps other than those of mutexes touch no mutex. */
  lemma OtherStepsKeepMutexes(s: State, e: Event)
    requires Enabled(s, e)
      && (e.DoSpawn? || e.DoSignal? || e.DoBroadcast? || e.DoRead? || e.DoWrite? || e.DoLine? || e.DoTransmitted?)
    ensures Step(s, e).mutexes == s.mutexes && Step(s, e).holders == s.holders
  {
  }

  lemma ResumeKeepsExclusive(s: State, p: int)
    requires p in s.calls && s.calls[p] != User && Exclusive(s)
    ensures Exclusive(Resume(s, p))
  {
    if s.calls[p].InAcquire? || s.calls[p].InWait? {
      AcquireKeepsExclusive(s, p, s.calls[p].m);
    } else {
      hide Exclusive;
      MutexPartKept(s, Resume(s, p));
    }
  }

  lemma StepKeepsExclusive(s: State, e: Event)
    requires Inv(s) && Enabled(s, e) && Exclusive(s) && HolderReleases(s, e)
    ensures Exclusive(Step(s, e))
  {
    match e
    case DoRelease(p, m) => ReleaseKeepsExclusiveIff(s, p, m);
    case DoWait(p, c, m) =>
      ReleaseKeepsExclusiveIff(s, p, m);
      MutexPartKept(Release(s, p, m), Wait(s, p, c, m));
    case DoAcquire(p, m) => AcquireKeepsExclusive(s, p, m);
    case DoResume(p) => ResumeKeepsExclusive(s, p);
    case _ => OtherStepsKeepMutexes(s, e); MutexPartKept(s, Step(s, e));
  }

  /** Main result on mutexes: in every run in which only holders release, at most one process is
      between a completed acquire and its release, and it is the recorded owner. */
  lemma {:induction false} MutualExclusion(s: State, es: seq<Event>)
    requires Inv(s) && Exclusive(s) && Possible(s, es) && Disciplined(s, es)
    ensures Exclusive(Run(s, es))
    ensures forall m, p, q :: p in Holders(Run(s, es), m) && q in Holders(Run(s, es), m) ==>
      p == q == MutexOf(Run(s, es), m).owner
    decreases es
  {
    if es != [] {
      StepKeepsExclusive(s, es[0]);
      StepKeepsInv(s, es[0]);
      hide Inv, Step, Enabled, Exclusive, HolderReleases;
      MutualExclusion(Step(s, es[0]), es[1..]);
    } else {
      forall m, p, q | p in Holders(s, m) && q in Holders(s, m)
        ensures p == q == MutexOf(s, m).owner
      {
        assert Holders(s, m) == if MutexOf(s, m).locked then {MutexOf(s, m).owner} else {};
      }
    }
  }

  /** No lost wake-up, in any run and whoever releases: a free mutex that somebody sleeps on has a
      process that is awake inside the acquire loop. */
  lemma NoLostWakeup(s: State, es: seq<Event>, m: int)
    requires Inv(s) && Possible(s, es)
    requires var r := Run(s, es); !MutexOf(r, m).locked && Q(r, MutexQ(m)) != []
    ensures AcquirePending(Run(s, es), m)
  {
    RunKeepsInv(s, es);
    hide QueuesOk, ReadersOk, WritersOk, AcquirePending;
  }

  /** mutexAcquire and cvarWait return only with their caller as owner of the mutex. */
  lemma ReturnsAsOwner(s: State, p: int, m: int)
    requires Inv(s) && p in s.calls && p !in s.asleep
    requires s.calls[p] == InAcquire(m) || (s.calls[p].InWait? && s.calls[p].m == m)
    requires Resume(s, p).calls[p] == User
    ensures MutexOf(Resume(s, p), m) == Mutex(true, p)
  {
    hide ReadersOk, WritersOk, AcquirePending, Enqueue;
    assert MutexOf(s, m).locked <==> MutexOf(s, m).owner != 0;
    hide MutexesOk;
    CallersPositive(s);
  }

  lemma AcquireReturnsAsOwner(s: State, p: int, m: int)
    requires Inv(s) && InUser(s, p) && Acquire(s, p, m).calls[p] == User
    ensures MutexOf(Acquire(s, p, m), m) == Mutex(true, p)
  {
    hide ReadersOk, WritersOk, AcquirePending, Enqueue;
    assert MutexOf(s, m).locked <==> MutexOf(s, m).owner != 0;
    hide MutexesOk;
    CallersPositive(s);
  }

  lemma CallersPositive(s: State)
    requires QueuesOk(s)
    ensures forall p :: p in s.calls ==> p > 0
  {
  }

  lemma RunOfOne(s: State, a: Event)
    requires Enabled(s, a)
    ensures Possible(s, [a]) && Run(s, [a]) == Step(s, a)
  {
    hide Enabled, Step;
    assert [a][1..] == [];
  }

  /** Two runs one after the other. */
  lemma {:induction false} RunOn(s: State, es: seq<Event>, fs: seq<Event>)
    requires Possible(s, es) && Possible(Run(s, es), fs)
    ensures Possible(s, es + fs) && Run(s, es + fs) == Run(Run(s, es), fs)
    decreases es
  {
    hide Enabled, Step;
    if es == [] {
      assert es + fs == fs;
    } else {
      assert (es + fs)[0] == es[0] && (es + fs)[1..] == es[1..] + fs;
      RunOn(Step(s, es[0]), es[1..], fs);
    }
  }

  lemma RunOneMore(s: State, es: seq<Event>, e: Event, all: seq<Event>)
    requires Possible(s, es) && Enabled(Run(s, es), e) && all == es + [e]
    ensures Possible(s, all) && Run(s, all) == Step(Run(s, es), e)
  {
    hide Enabled, Step, Run, Possible;
    RunOfOne(Run(s, es), e);
    RunOn(s, es, [e]);
  }

  // ---------- terminals ----------

  /** Main result on output: in every reachable state what a terminal has got is whole messages in
      the order in which their writers finished, and then the message of the one process that has the
      terminal up to the chunk under way. */
  lemma OutputNeverMixes(s: State, es: seq<Event>, t: int)
    requires Inv(s) && Possible(s, es)
    ensures var r, tty := Run(s, es), TtyOf(Run(s, es), t);
      if tty.writeCurrent == 0 then tty.sent == Concat(tty.finished)
      else
        && TransmitsOn(r, tty.writeCurrent, t)
        && (forall q :: TransmitsOn(r, q, t) ==> q == tty.writeCurrent)
        && tty.sent == Concat(tty.finished)
             + SentOf(r.calls[tty.writeCurrent].message, r.calls[tty.writeCurrent].position)
  {
    RunKeepsInv(s, es);
    hide QueuesOk, MutexesOk, ReadersOk, Concat, SentOf, Run;
  }

  /** Each transmit carries at least one and at most TERMINAL_MAX_LINE bytes of the message. */
  lemma ChunksAreBounded(message: seq<int>, position: nat)
    requires position < |message|
    ensures 1 <= |Chunk(message, position)| <= TERMINAL_MAX_LINE
    ensures message[..position] + Chunk(message, position) == SentOf(message, position)
  {
    ChunkExtends(message, position);
  }

  /** The flaw of the protocol: a process that finds the terminal taken is never woken again, whatever
      happens afterwards, because every completion wakes the transmitting process in front of it and
      finishing a message signals nobody. */
  lemma {:induction false} BlockedWriterNeverWakes(s: State, es: seq<Event>, p: int)
    requires Inv(s) && Possible(s, es) && p in s.calls && s.calls[p].InWrite?
    ensures var r := Run(s, es); p in r.asleep && p in r.calls && r.calls[p] == s.calls[p]
    decreases es
  {
    WaitersAsleep(s);
    if es != [] {
      BlockedWriterStays(s, es[0], p);
      StepKeepsInv(s, es[0]);
      hide Inv, Step, Enabled;
      BlockedWriterNeverWakes(Step(s, es[0]), es[1..], p);
    }
  }

  lemma BlockedWriterStays(s: State, e: Event, p: int)
    requires Inv(s) && Enabled(s, e) && p in s.calls && s.calls[p].InWrite?
    ensures p in Step(s, e).calls && Step(s, e).calls[p] == s.calls[p]
  {
    hide Inv, Harden, Woken, Pids, Transmitting, Resume, Acquire, ReadLoop, WriteLoop;
    WriterSleeps(s, p);
    if e.DoResume? {
      ResumeKeepsOtherCalls(s, e.p, p);
    } else if e.DoAcquire? {
      AcquireKeepsOtherCalls(s, e.p, e.m, p);
    } else if e.DoRead? {
      ReadKeepsOtherCalls(s, e.p, e.t, e.length, p);
    } else if e.DoWrite? {
      WriteKeepsOtherCalls(s, e.p, e.t, e.message, p);
    }
  }

  lemma WriterSleeps(s: State, p: int)
    requires Inv(s) && p in s.calls && s.calls[p].InWrite?
    ensures p in s.asleep
  {
    hide QueuesOk, MutexesOk, ReadersOk;
    WaitersAsleep(s);
  }

  lemma AcquireKeepsOtherCalls(s: State, p: int, m: int, q: int)
    requires q in s.calls && q != p
    ensures var r, l := Acquire(s, p, m), AcquireLoop(s, p, m);
      q in r.calls && r.calls[q] == s.calls[q] && q in l.calls && l.calls[q] == s.calls[q]
  {
    hide Enqueue;
  }

  lemma ReadKeepsOtherCalls(s: State, p: int, t: int, length: nat, q: int)
    requires q in s.calls && q != p
    ensures var r := ReadLoop(s, p, t, length); q in r.calls && r.calls[q] == s.calls[q]
  {
    hide Enqueue, AfterRead, Woken, Pids;
  }

  lemma WriteKeepsOtherCalls(s: State, p: int, t: int, message: seq<int>, q: int)
    requires q in s.calls && q != p
    ensures var r := WriteLoop(s, p, t, message); q in r.calls && r.calls[q] == s.calls[q]
  {
    hide Enqueue, Chunk;
  }

  lemma ResumeKeepsOtherCalls(s: State, p: int, q: int)
    requires p in s.calls && s.calls[p] != User && q in s.calls && q != p
    ensures var r := Resume(s, p); q in r.calls && r.calls[q] == s.calls[q]
  {
    hide Acquire, AcquireLoop, ReadLoop, WriteLoop, Enqueue, Chunk;
    match s.calls[p]
    case InAcquire(m) => AcquireKeepsOtherCalls(s, p, m, q);
    case InWait(_, m) => AcquireKeepsOtherCalls(s, p, m, q);
    case InRead(t, length) => ReadKeepsOtherCalls(s, p, t, length, q);
    case InWrite(t, message) => WriteKeepsOtherCalls(s, p, t, message, q);
    case InTransmit(_, _, _) =>
  }

  /** In a run p's write returns, with its message the last that the terminal has finished. */
  predicate GetsThrough(s: State, es: seq<Event>, p: int, t: int, finished: seq<seq<int>>) {
    && Possible(s, es)
    && var r := Run(s, es); InUser(r, p) && TtyOf(r, t).finished == finished
  }

  /** p has transmitted up to a position of the message and sleeps until that is out. */
  predicate SendsUpTo(s: State, p: int, t: int, message: seq<int>, position: nat) {
    p in s.calls && p in s.asleep && s.calls[p] == InTransmit(t, message, position)
  }

  lemma TransmittedStep(s: State, p: int, t: int, message: seq<int>, position: nat)
    requires Inv(s) && ValidTty(t) && SendsUpTo(s, p, t, message, position)
    ensures Enabled(s, DoTransmitted(t))
    ensures var a := Step(s, DoTransmitted(t)); a.calls == s.calls && a.asleep == s.asleep - {p} && a.ttys == s.ttys
  {
    hide QueuesOk, MutexesOk, ReadersOk, WriteFinished, SentNow, Concat;
    assert TransmitsOn(s, p, t);
    CompletionWakesTransmitter(s, t);
  }

  lemma ResumedStep(a: State, p: int, t: int, message: seq<int>, position: nat)
    requires p in a.calls && p !in a.asleep && a.calls[p] == InTransmit(t, message, position)
    ensures Enabled(a, DoResume(p))
    ensures var b, next := Step(a, DoResume(p)), position + TERMINAL_MAX_LINE;
      if next < |message| then SendsUpTo(b, p, t, message, next) && TtyOf(b, t).finished == TtyOf(a, t).finished
      else InUser(b, p) && TtyOf(b, t).finished == TtyOf(a, t).finished + [message]
  {
    hide Enqueue, Chunk;
  }

  /** While p transmits, the completions and p's own steps are a run that brings the message out. */
  lemma {:induction false} TransmitGetsThrough(s: State, p: int, t: int, message: seq<int>, position: nat)
    returns (es: seq<Event>)
    requires Inv(s) && ValidTty(t) && SendsUpTo(s, p, t, message, position)
    ensures GetsThrough(s, es, p, t, TtyOf(s, t).finished + [message])
    decreases |message| - position
  {
    hide Inv, Enabled, Step, Possible, Run;
    TransmittedStep(s, p, t, message, position);
    StepKeepsInv(s, DoTransmitted(t));
    var a := Step(s, DoTransmitted(t));
    ResumedStep(a, p, t, message, position);
    StepKeepsInv(a, DoResume(p));
    var b, next := Step(a, DoResume(p)), position + TERMINAL_MAX_LINE;
    var first, rest := [DoTransmitted(t)], [];
    RunOfOne(s, DoTransmitted(t));
    RunOneMore(s, first, DoResume(p), first + [DoResume(p)]);
    RunOnNothing(b);
    if next < |message| {
      rest := TransmitGetsThrough(b, p, t, message, next);
    }
    es := first + [DoResume(p)] + rest;
    RunOn(s, first + [DoResume(p)], rest);
  }

  lemma RunOnNothing(s: State)
    ensures Possible(s, []) && Run(s, []) == s
  {
  }

  /** So a write can get its message out, in some run, if and only if the terminal is free at the call:
      a free terminal it needs only the completions of its own chunks, and a busy one it waits for forever. */
  lemma WriteGetsThroughIff(s: State, p: int, t: int, message: seq<int>)
    requires Inv(s) && InUser(s, p) && ValidTty(t)
    ensures var r := Step(s, DoWrite(p, t, message));
      TtyOf(s, t).writeCurrent == 0 <==>
        exists es, finished :: GetsThrough(r, es, p, t, finished) && message in finished
    ensures var r := Step(s, DoWrite(p, t, message));
      TtyOf(s, t).writeCurrent == 0 ==> exists es :: GetsThrough(r, es, p, t, TtyOf(s, t).finished + [message])
  {
    hide Inv, Possible, Run, Enqueue, Chunk;
    var r := Step(s, DoWrite(p, t, message));
    StepKeepsInv(s, DoWrite(p, t, message));
    if TtyOf(s, t).writeCurrent != 0 {
      forall es | Possible(r, es)
        ensures !InUser(Run(r, es), p)
      {
        BlockedWriterNeverWakes(r, es, p);
      }
    } else {
      var es := [];
      RunOnNothing(r);
      if message != [] {
        es := TransmitGetsThrough(r, p, t, message, 0);
      }
      var finished := TtyOf(s, t).finished + [message];
      assert GetsThrough(r, es, p, t, finished);
      assert finished[|finished| - 1] == message;
    }
  }

  /** Between two lines the reads, by whomever, hand out a prefix of the line in order, and a reader
      that could go on is never left asleep without one on its way. */
  lemma ReadsInOrder(s: State, es: seq<Event>, t: int)
    requires Inv(s) && Possible(s, es)
    ensures var r, tty := Run(s, es), TtyOf(Run(s, es), t);
      && (tty.buffer.Line? ==> tty.position <= |tty.buffer.bytes| && tty.handedOut == tty.buffer.bytes[..tty.position])
      && (HasUnread(tty) && Q(r, ReadQ(t)) != [] ==> ReadPending(r, t))
  {
    RunKeepsInv(s, es);
    hide QueuesOk, MutexesOk, WritersOk, ReadPending, Run;
    var tty := TtyOf(Run(s, es), t);
    assert tty.buffer.Line? ==> tty.position <= |tty.buffer.bytes|;
  }

  // ---------- two runs that show what goes wrong ----------

  const NOBODY := State(map[], {}, map[], map[], map[], map[])

  /** Process 2 releases the mutex that process 1 holds and takes it: two holders. */
  lemma StrangerBreaksExclusion()
    ensures Initial(NOBODY)
    ensures var es := [DoSpawn(1), DoSpawn(2), DoAcquire(1, 0), DoRelease(2, 0), DoAcquire(2, 0)];
      Possible(NOBODY, es) && Holders(Run(NOBODY, es), 0) == {1, 2}
  {
    hide Run, Possible;
    RunOfOne(NOBODY, DoSpawn(1));
    RunOneMore(NOBODY, [DoSpawn(1)], DoSpawn(2),
      [DoSpawn(1), DoSpawn(2)]);
    RunOneMore(NOBODY, [DoSpawn(1), DoSpawn(2)], DoAcquire(1, 0),
      [DoSpawn(1), DoSpawn(2), DoAcquire(1, 0)]);
    RunOneMore(NOBODY, [DoSpawn(1), DoSpawn(2), DoAcquire(1, 0)], DoRelease(2, 0),
      [DoSpawn(1), DoSpawn(2), DoAcquire(1, 0), DoRelease(2, 0)]);
    RunOneMore(NOBODY, [DoSpawn(1), DoSpawn(2), DoAcquire(1, 0), DoRelease(2, 0)], DoAcquire(2, 0),
      [DoSpawn(1), DoSpawn(2), DoAcquire(1, 0), DoRelease(2, 0), DoAcquire(2, 0)]);
  }

  /** Process 2 writes while process 1 does; when process 1 has finished, the terminal is free and
      process 2 still sleeps for it. */
  lemma SecondWriterIsLost()
    ensures var es := [DoSpawn(1), DoSpawn(2), DoWrite(1, 0, [7]), DoWrite(2, 0, [8]), DoTransmitted(0), DoResume(1)];
      && Possible(NOBODY, es)
      && var r := Run(NOBODY, es);
         TtyOf(r, 0).writeCurrent == 0 && r.calls == map[1 := User, 2 := InWrite(0, [8])] && r.asleep == {2}
  {
    hide Run, Possible, Concat;
    BothWriting();
    var es := [DoSpawn(1), DoSpawn(2), DoWrite(1, 0, [7]), DoWrite(2, 0, [8])];
    OnlyFrontIsTaken([Waiter(1, false), Waiter(2, true)]);
    hide Harden, Woken, Pids;
    RunOneMore(NOBODY, es, DoTransmitted(0), es + [DoTransmitted(0)]);
    RunOneMore(NOBODY, es + [DoTransmitted(0)], DoResume(1),
      [DoSpawn(1), DoSpawn(2), DoWrite(1, 0, [7]), DoWrite(2, 0, [8]), DoTransmitted(0), DoResume(1)]);
  }

  lemma BothWriting()
    ensures var es := [DoSpawn(1), DoSpawn(2), DoWrite(1, 0, [7]), DoWrite(2, 0, [8])];
      && Possible(NOBODY, es)
      && var r := Run(NOBODY, es);
         && r.calls == map[1 := InTransmit(0, [7], 0), 2 := InWrite(0, [8])] && r.asleep == {1, 2}
         && Q(r, WriteQ(0)) == [Waiter(1, false), Waiter(2, true)]
  {
    hide Run, Possible, Concat;
    RunOfOne(NOBODY, DoSpawn(1));
    RunOneMore(NOBODY, [DoSpawn(1)], DoSpawn(2),
      [DoSpawn(1), DoSpawn(2)]);
    RunOneMore(NOBODY, [DoSpawn(1), DoSpawn(2)], DoWrite(1, 0, [7]),
      [DoSpawn(1), DoSpawn(2), DoWrite(1, 0, [7])]);
    RunOneMore(NOBODY, [DoSpawn(1), DoSpawn(2), DoWrite(1, 0, [7])], DoWrite(2, 0, [8]),
      [DoSpawn(1), DoSpawn(2), DoWrite(1, 0, [7]), DoWrite(2, 0, [8])]);
  }
}
