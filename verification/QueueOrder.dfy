/**
  Order of arrival on every wait queue, over all interleavings: exclusive nodes leave in the order in
  which their processes came to sleep, and a waiter moves up by one with each wake-up and by nothing
  else.
 */
module QueueOrder {
  import opened WaitQueues
  import opened Blocking
  import opened BlockingInv
  import opened TerminalInv
  import opened BlockingRuns

  /** The exclusive sleepers of a queue, in order. */
  function Order(s: State, id: QueueId): seq<int> {
    Exclusives(Q(s, id))
  }

  /** Process p, if it is the one that has now come to sleep on the queue as an exclusive node. */
  function Came(r: State, p: int, id: QueueId): seq<int> {
    if p in r.asleep && p in r.calls && !r.calls[p].User? && !r.calls[p].InTransmit?
      && QueueOf(r.calls[p]) == id then [p] else []
  }

  function Arrives(s: State, e: Event, id: QueueId): seq<int>
    requires Enabled(s, e)
  {
    if e.DoLine? || e.DoTransmitted? then [] else Came(Step(s, e), e.p, id)
  }

  /** How many exclusive nodes an event wakes on a queue, if that many are there. */
  function Takes(s: State, e: Event, id: QueueId): nat
    requires Enabled(s, e)
  {
    match e
    case DoRelease(_, m) => if id == MutexQ(m) then 1 else 0
    case DoWait(_, _, m) => if id == MutexQ(m) then 1 else 0
    case DoSignal(_, c) => if id == CvarQ(c) then 1 else 0
    case DoBroadcast(_, c) => if id == CvarQ(c) then |Order(s, id)| else 0
    case DoRead(_, t, _) => if ValidTty(t) && Hands(s, t, id) then 1 else 0
    case DoLine(t, _) => if ValidTty(t) && id == ReadQ(t) then 1 else 0
    case DoResume(p) => if s.calls[p].InRead? && Hands(s, s.calls[p].t, id) then 1 else 0
    case _ => 0
  }

  /** A reader who finds data on terminal t wakes the next one. */
  predicate Hands(s: State, t: int, id: QueueId) {
    id == ReadQ(t) && HasUnread(TtyOf(s, t))
  }

  // ---------- what the parts of a step do to the order ----------

  lemma SleepOrder(s: State, p: int, call: Call, id: QueueId)
    requires !call.User?
    ensures Order(Sleep(s, p, call), id) == Order(s, id) + Came(Sleep(s, p, call), p, id)
  {
    hide Enqueue;
    EnqueueAddsAtBack(Q(s, QueueOf(call)), Waiter(p, !call.InTransmit?));
  }

  lemma WakeOrder(s: State, signalled: QueueId, exclusively: bool, id: QueueId)
    ensures Order(Wake(s, signalled, exclusively), id) ==
      if id != signalled then Order(s, id) else if exclusively then Drop(Order(s, id), 1) else []
  {
    hide Woken, Pids;
    SignalTakesFirst(Q(s, signalled), exclusively);
  }

  lemma AcquireOrder(s: State, p: int, m: int, id: QueueId)
    requires p !in s.asleep
    ensures Order(AcquireLoop(s, p, m), id) == Order(s, id) + Came(AcquireLoop(s, p, m), p, id)
    ensures Order(Acquire(s, p, m), id) == Order(s, id) + Came(Acquire(s, p, m), p, id)
  {
    hide Exclusives, Sleep;
    if MutexOf(s, m).locked {
      SleepOrder(s, p, InAcquire(m), id);
    }
  }

  lemma ReleaseOrder(s: State, p: int, m: int, id: QueueId)
    ensures Order(Release(s, p, m), id) == if id == MutexQ(m) then Drop(Order(s, id), 1) else Order(s, id)
  {
    hide Exclusives, Wake;
    WakeOrder(SetMutex(s, m, Mutex(false, 0), Holders(s, m) - {p}), MutexQ(m), true, id);
  }

  lemma WaitOrder(s: State, p: int, c: int, m: int, id: QueueId)
    ensures Order(Wait(s, p, c, m), id) ==
      (if id == MutexQ(m) then Drop(Order(s, id), 1) else Order(s, id)) + Came(Wait(s, p, c, m), p, id)
  {
    hide Exclusives, Sleep, Release;
    ReleaseOrder(s, p, m, id);
    SleepOrder(Release(s, p, m), p, InWait(c, m), id);
  }

  lemma ReadOrder(s: State, p: int, t: int, length: nat, id: QueueId)
    requires p !in s.asleep
    ensures Order(ReadLoop(s, p, t, length), id) ==
      (if Hands(s, t, id) then Drop(Order(s, id), 1) else Order(s, id)) + Came(ReadLoop(s, p, t, length), p, id)
  {
    hide Exclusives, Sleep, Woken, AfterRead;
    if HasUnread(TtyOf(s, t)) {
      var f := Return(s, p).(ttys := s.ttys[t := AfterRead(TtyOf(s, t), length)]);
      WakeOrder(f, ReadQ(t), true, id);
      assert ReadLoop(s, p, t, length) == Wake(f, ReadQ(t), true);
    } else {
      SleepOrder(s, p, InRead(t, length), id);
    }
  }

  lemma TransmitOrder(s: State, p: int, t: int, message: seq<int>, position: nat, id: QueueId)
    requires p !in s.asleep
    ensures Order(TransmitLoop(s, p, t, message, position), id) == Order(s, id)
    ensures Came(TransmitLoop(s, p, t, message, position), p, id) == []
  {
    hide Exclusives, Enqueue, Chunk;
    if position < |message| {
      SleepOrder(SetTty(s, t, TtyOf(s, t).(sent := TtyOf(s, t).sent + Chunk(message, position))), p,
        InTransmit(t, message, position), id);
    }
  }

  lemma WriteOrder(s: State, p: int, t: int, message: seq<int>, id: QueueId)
    requires p !in s.asleep
    ensures Order(WriteLoop(s, p, t, message), id) == Order(s, id) + Came(WriteLoop(s, p, t, message), p, id)
  {
    hide Exclusives, Sleep, TransmitLoop;
    if TtyOf(s, t).writeCurrent != 0 {
      SleepOrder(s, p, InWrite(t, message), id);
    } else {
      TransmitOrder(SetTty(s, t, TtyOf(s, t).(writeCurrent := p)), p, t, message, 0, id);
    }
  }

  /** The transmitting process is hardened and taken in one trap: it is never among the exclusive ones. */
  lemma TransmittedOrder(s: State, t: int, id: QueueId)
    requires Inv(s) && Transmitting(s, t)
    ensures Order(WriteFinished(s, t), id) == Order(s, id)
  {
    hide Inv, Transmitting, WriteFinished, TransmitsOn;
    CompletionWakesTransmitter(s, t);
    TransmitterInFront(s, t);
  }

  lemma ResumeOrder(s: State, p: int, id: QueueId)
    requires p in s.calls && s.calls[p] != User && p !in s.asleep
    ensures Order(Resume(s, p), id) ==
      (if s.calls[p].InRead? && Hands(s, s.calls[p].t, id) then Drop(Order(s, id), 1) else Order(s, id))
        + Came(Resume(s, p), p, id)
  {
    hide Exclusives, AcquireLoop, Acquire, ReadLoop, WriteLoop, TransmitLoop, Came;
    match s.calls[p]
    case InAcquire(m) => AcquireOrder(s, p, m, id);
    case InWait(_, m) => AcquireOrder(s, p, m, id);
    case InRead(t, length) => ReadOrder(s, p, t, length, id);
    case InWrite(t, message) => WriteOrder(s, p, t, message, id);
    case InTransmit(t, message, position) => TransmitOrder(s, p, t, message, position + TERMINAL_MAX_LINE, id);
  }

  /** One step on any queue: the exclusive sleepers that it wakes are the first, and who comes is last. */
  lemma StepOrder(s: State, e: Event, id: QueueId)
    requires Inv(s) && Enabled(s, e)
    ensures Order(Step(s, e), id) == Drop(Order(s, id), Takes(s, e, id)) + Arrives(s, e, id)
  {
    hide Inv, Exclusives, Acquire, Release, Wait, Wake, ReadLoop, WriteLoop, WriteFinished, Resume, Transmitting;
    match e
    case DoSpawn(p) =>
    case DoAcquire(p, m) => AcquireOrder(s, p, m, id);
    case DoRelease(p, m) => ReleaseOrder(s, p, m, id); NobodyCame(s, e, id);
    case DoWait(p, c, m) => WaitOrder(s, p, c, m, id);
    case DoSignal(p, c) => WakeOrder(s, CvarQ(c), true, id); NobodyCame(s, e, id);
    case DoBroadcast(p, c) => WakeOrder(s, CvarQ(c), false, id); NobodyCame(s, e, id);
    case DoRead(p, t, length) => if ValidTty(t) { ReadOrder(s, p, t, length, id); }
    case DoWrite(p, t, message) => if ValidTty(t) { WriteOrder(s, p, t, message, id); }
    case DoResume(p) => ResumeOrder(s, p, id);
    case DoLine(t, bytes) =>
      if ValidTty(t) {
        WakeOrder(SetTty(s, t, TtyOf(s, t).(buffer := Line(bytes), position := 0, handedOut := [])), ReadQ(t), true,
          id);
      }
    case DoTransmitted(t) => if ValidTty(t) { TransmittedOrder(s, t, id); }
  }

  lemma NobodyCame(s: State, e: Event, id: QueueId)
    requires Enabled(s, e) && (e.DoRelease? || e.DoSignal? || e.DoBroadcast?)
    ensures Arrives(s, e, id) == []
  {
    hide Woken, Pids;
  }

  // ---------- runs ----------

  /** Everybody who comes to sleep on a queue as an exclusive node in a run, in order of arrival. */
  function ArrivalsIn(s: State, es: seq<Event>, id: QueueId): seq<int>
    requires Possible(s, es)
    decreases es
  {
    if es == [] then [] else Arrives(s, es[0], id) + ArrivalsIn(Step(s, es[0]), es[1..], id)
  }

  function TakesIn(s: State, es: seq<Event>, id: QueueId): nat
    requires Possible(s, es)
    decreases es
  {
    if es == [] then 0 else Takes(s, es[0], id) + TakesIn(Step(s, es[0]), es[1..], id)
  }

  predicate IsSuffix(part: seq<int>, all: seq<int>) {
    |part| <= |all| && part == all[|all| - |part|..]
  }

  /** Main result on order: on every queue, over every run, the exclusive sleepers are those of the
      beginning and those who came since, in order of arrival, less the first of them. */
  lemma {:induction false} SleepersInOrderOfArrival(s: State, es: seq<Event>, id: QueueId)
    requires Inv(s) && Possible(s, es)
    ensures IsSuffix(Order(Run(s, es), id), Order(s, id) + ArrivalsIn(s, es, id))
    decreases es
  {
    hide Inv, Step, Enabled, Order, Arrives, Takes;
    if es != [] {
      var r := Step(s, es[0]);
      StepOrder(s, es[0], id);
      StepKeepsInv(s, es[0]);
      SleepersInOrderOfArrival(r, es[1..], id);
      SuffixAfter(Order(s, id), Takes(s, es[0], id), Arrives(s, es[0], id), ArrivalsIn(r, es[1..], id),
        Order(Run(s, es), id));
    }
  }

  lemma SuffixAfter(before: seq<int>, n: nat, came: seq<int>, later: seq<int>, now: seq<int>)
    requires IsSuffix(now, Drop(before, n) + came + later)
    ensures IsSuffix(now, before + (came + later))
  {
    var all, rest := before + (came + later), Drop(before, n) + came + later;
    assert rest == all[|all| - |rest|..];
  }

  /** From the start of the system, then, a queue holds the last of all arrivals. */
  lemma SleepersAreTheLastToCome(s: State, es: seq<Event>, id: QueueId)
    requires Initial(s) && Possible(s, es)
    ensures IsSuffix(Order(Run(s, es), id), ArrivalsIn(s, es, id))
  {
    InitialIsInv(s);
    hide Inv, Run, ArrivalsIn;
    SleepersInOrderOfArrival(s, es, id);
    assert Order(s, id) + ArrivalsIn(s, es, id) == ArrivalsIn(s, es, id);
  }

  /** Process p sleeps on the queue behind k others. */
  predicate WaitsAt(s: State, p: int, id: QueueId, k: int) {
    0 <= k < |Order(s, id)| && Order(s, id)[k] == p
  }

  /** A waiter behind k others is, after any run that wakes n <= k, behind k - n: it moves up with each
      wake-up and by nothing else, whatever else happens. */
  lemma {:induction false} WaiterKeepsPlace(s: State, es: seq<Event>, p: int, id: QueueId, k: nat)
    requires Inv(s) && Possible(s, es) && WaitsAt(s, p, id, k) && TakesIn(s, es, id) <= k
    ensures WaitsAt(Run(s, es), p, id, k - TakesIn(s, es, id))
    decreases es
  {
    hide Inv, Step, Enabled, Order, Arrives, Takes;
    if es != [] {
      StepOrder(s, es[0], id);
      StepKeepsInv(s, es[0]);
      WaiterKeepsPlace(Step(s, es[0]), es[1..], p, id, k - Takes(s, es[0], id));
    }
  }

  /** The first of the exclusive sleepers is the one whom an exclusive signal wakes. */
  lemma SignalWakesFirst(s: State, p: int, id: QueueId)
    requires WaitsAt(s, p, id, 0)
    ensures p !in Wake(s, id, true).asleep
  {
    hide Woken, Pids, Exclusives;
    SignalTakesFirst(Q(s, id), true);
  }

  // ---------- mutexes and condition variables ----------

  /** Calls to mutexRelease, alone or in cvarWait. */
  function Releases(es: seq<Event>, m: int): nat {
    if es == [] then 0
    else (if (es[0].DoRelease? || es[0].DoWait?) && es[0].m == m then 1 else 0) + Releases(es[1..], m)
  }

  function Signals(es: seq<Event>, c: int): nat {
    if es == [] then 0 else (if es[0].DoSignal? && es[0].c == c then 1 else 0) + Signals(es[1..], c)
  }

  predicate NoBroadcast(es: seq<Event>, c: int) {
    forall i :: 0 <= i < |es| ==> !(es[i].DoBroadcast? && es[i].c == c)
  }

  lemma {:induction false} OnlyReleasesTake(s: State, es: seq<Event>, m: int)
    requires Possible(s, es)
    ensures TakesIn(s, es, MutexQ(m)) == Releases(es, m)
    decreases es
  {
    hide Step, Enabled;
    if es != [] {
      OnlyReleasesTake(Step(s, es[0]), es[1..], m);
    }
  }

  lemma {:induction false} OnlySignalsTake(s: State, es: seq<Event>, c: int)
    requires Possible(s, es) && NoBroadcast(es, c)
    ensures TakesIn(s, es, CvarQ(c)) == Signals(es, c)
    decreases es
  {
    hide Step, Enabled;
    if es != [] {
      assert !(es[0].DoBroadcast? && es[0].c == c);
      assert forall i :: 0 <= i < |es[1..]| ==> es[1..][i] == es[i + 1];
      OnlySignalsTake(Step(s, es[0]), es[1..], c);
    }
  }

  /** A process that sleeps on a mutex behind k others moves up by one with each release of it and by
      nothing else; whoever takes the mutex in between does not take its place. */
  lemma MutexWaiterKeepsPlace(s: State, es: seq<Event>, p: int, m: int, k: nat)
    requires Inv(s) && Possible(s, es) && WaitsAt(s, p, MutexQ(m), k) && Releases(es, m) <= k
    ensures WaitsAt(Run(s, es), p, MutexQ(m), k - Releases(es, m))
  {
    hide Inv, Run, Possible, TakesIn;
    OnlyReleasesTake(s, es, m);
    WaiterKeepsPlace(s, es, p, MutexQ(m), k);
  }

  /** No signal is lost and none is stolen: as long as there is no broadcast, a process that waits on
      a variable behind k others moves up by one with each signal and by nothing else. */
  lemma CvarWaiterKeepsPlace(s: State, es: seq<Event>, p: int, c: int, k: nat)
    requires Inv(s) && Possible(s, es) && WaitsAt(s, p, CvarQ(c), k)
    requires NoBroadcast(es, c) && Signals(es, c) <= k
    ensures WaitsAt(Run(s, es), p, CvarQ(c), k - Signals(es, c))
  {
    hide Inv, Run, Possible, TakesIn, NoBroadcast;
    OnlySignalsTake(s, es, c);
    WaiterKeepsPlace(s, es, p, CvarQ(c), k);
  }

  /** Release and sleep are atomic: when cvarWait has let the mutex go, and before anybody else runs,
      its caller is queued on the variable, behind those who came before. */
  lemma WaitQueuesAtOnce(s: State, p: int, c: int, m: int)
    requires Inv(s) && InUser(s, p)
    ensures var r := Wait(s, p, c, m);
      && Order(r, CvarQ(c)) == Order(s, CvarQ(c)) + [p] && p in r.asleep
      && MutexOf(r, m) == Mutex(false, 0)
  {
    hide QueuesOk, MutexesOk, ReadersOk, WritersOk, Exclusives;
    WaitOrder(s, p, c, m, CvarQ(c));
    WakeParts(SetMutex(s, m, Mutex(false, 0), Holders(s, m) - {p}), MutexQ(m), true);
    hide Wake;
  }

  lemma BroadcastWakesEverybody(s: State, p: int, c: int, k: nat)
    requires Inv(s) && WaitsAt(s, p, CvarQ(c), k)
    ensures p !in Wake(s, CvarQ(c), false).asleep && Q(Wake(s, CvarQ(c), false), CvarQ(c)) == []
  {
    hide QueuesOk, MutexesOk, ReadersOk, WritersOk;
    var q := Q(s, CvarQ(c));
    BroadcastWakesAll(q);
    var i := PlaceOfExclusive(q, k);
    assert q[..|q|][i].pid == p;
  }

  lemma {:induction false} PlaceOfExclusive(q: seq<Waiter>, k: nat) returns (i: nat)
    requires k < |Exclusives(q)|
    ensures i < |q| && q[i].pid == Exclusives(q)[k]
  {
    if q[0].exclusive && k == 0 {
      i := 0;
    } else {
      var j := PlaceOfExclusive(q[1..], if q[0].exclusive then k - 1 else k);
      i := j + 1;
    }
  }
}
