/**
  What the blocking calls do for their caller: when mutexAcquire and cvarWait sleep, and what ttyRead
  hands out, for one call and over runs.
 */
module CallResults {
  import opened WaitQueues
  import opened Blocking
  import opened BlockingInv
  import opened TerminalInv
  import opened BlockingRuns

  // ---------- mutexAcquire and cvarWait ----------

  /** p has got the mutex m, which was free, and is back in user mode; all else is as before. */
  ghost predicate Got(s: State, r: State, p: int, m: int) {
    && InUser(r, p) && MutexOf(r, m) == Mutex(true, p) && Holders(r, m) == Holders(s, m) + {p}
    && (forall n :: n != m ==> MutexOf(r, n) == MutexOf(s, n) && Holders(r, n) == Holders(s, n))
    && r.queues == s.queues && r.asleep == s.asleep && r.ttys == s.ttys
    && forall q :: q in s.calls && q != p ==> q in r.calls && r.calls[q] == s.calls[q]
  }

  /** p sleeps for m behind everybody else; the mutex, its holders and other queues are as before. */
  ghost predicate Sleeps(s: State, r: State, p: int, m: int) {
    && p in r.asleep && p in r.calls && r.calls[p] == InAcquire(m)
    && Q(r, MutexQ(m)) == Q(s, MutexQ(m)) + [Waiter(p, true)]
    && r.mutexes == s.mutexes && r.holders == s.holders && r.ttys == s.ttys && r.asleep == s.asleep + {p}
    && (forall id :: id != MutexQ(m) ==> Q(r, id) == Q(s, id))
  }

  /** mutexAcquire sleeps exactly when somebody else has the mutex.  The owner is back at once and nothing
      has changed, and a free mutex is its own. */
  lemma AcquireSleepsIff(s: State, p: int, m: int)
    requires Inv(s) && InUser(s, p)
    ensures var r, mutex := Step(s, DoAcquire(p, m)), MutexOf(s, m);
      && (p in r.asleep <==> mutex.locked && mutex.owner != p)
      && (mutex.locked && mutex.owner != p ==> Sleeps(s, r, p, m))
      && (mutex.locked && mutex.owner == p ==> r == s)
      && (!mutex.locked ==> Got(s, r, p, m))
  {
    LockedIffOwned(s, m);
    CallersKnown(s);
    hide Inv;
    assert s.calls[p := User] == s.calls;
  }

  lemma LockedIffOwned(s: State, m: int)
    requires Inv(s)
    ensures MutexOf(s, m).locked <==> MutexOf(s, m).owner != 0
  {
    hide QueuesOk, ReadersOk, WritersOk, AcquirePending;
  }

  /** So does cvarWait once it has been woken. */
  lemma WokenWaitSleepsIff(s: State, p: int, c: int, m: int)
    requires Inv(s) && p in s.calls && p !in s.asleep && s.calls[p] == InWait(c, m)
    ensures Enabled(s, DoResume(p))
    ensures var r, mutex := Step(s, DoResume(p)), MutexOf(s, m);
      && (p in r.asleep <==> mutex.locked && mutex.owner != p)
      && (mutex.locked && mutex.owner != p ==> Sleeps(s, r, p, m))
      && (mutex.locked && mutex.owner == p ==> InUser(r, p) && r == s.(calls := r.calls))
      && (!mutex.locked ==> Got(s, r, p, m))
  {
    LockedIffOwned(s, m);
    CallersKnown(s);
    hide Inv;
  }

  /** And mutexAcquire each time that it looks at the mutex again. */
  lemma WokenAcquireSleepsIff(s: State, p: int, m: int)
    requires Inv(s) && p in s.calls && p !in s.asleep && s.calls[p] == InAcquire(m)
    ensures Enabled(s, DoResume(p))
    ensures var r := Step(s, DoResume(p));
      && (p in r.asleep <==> MutexOf(s, m).locked)
      && if MutexOf(s, m).locked then Sleeps(s, r, p, m) else Got(s, r, p, m)
  {
    hide Inv;
  }

  // ---------- ttyRead ----------

  /** A read finds its terminal like this: part of a line has not been read. */
  predicate Unread(tty: Tty, bytes: seq<int>) {
    tty.buffer == Line(bytes) && tty.position < |bytes|
  }

  /** n more bytes of the line have been handed out. */
  predicate HandsOut(before: Tty, after: Tty, n: nat) {
    && before.buffer.Line? && before.position + n <= |before.buffer.bytes|
    && after.handedOut == before.handedOut + before.buffer.bytes[before.position..before.position + n]
    && after == before.(position := before.position + n, handedOut := after.handedOut)
  }

  function Least(a: nat, b: nat): (c: nat)
    ensures c <= a && c <= b && (c == a || c == b)
  {
    if a <= b then a else b
  }

  /** What a read of a number of bytes gets of an unread line: as many as it asks for, or as there are. */
  predicate Reads(tty: Tty, length: nat, got: seq<int>) {
    && tty.buffer.Line? && tty.position < |tty.buffer.bytes|
    && |got| == Least(length, |tty.buffer.bytes| - tty.position)
    && got == tty.buffer.bytes[tty.position..tty.position + |got|]
  }

  lemma TakenIs(tty: Tty, length: nat)
    requires HasUnread(tty)
    ensures Reads(tty, length, Taken(tty, length))
  {
  }

  lemma ReadLoopGets(s: State, p: int, t: int, length: nat, bytes: seq<int>)
    requires Unread(TtyOf(s, t), bytes) && p !in s.asleep
    ensures var r := ReadLoop(s, p, t, length);
      && InUser(r, p) && HandsOut(TtyOf(s, t), TtyOf(r, t), Least(length, |bytes| - TtyOf(s, t).position))
      && (forall u :: u != t ==> TtyOf(r, u) == TtyOf(s, u))
      && r.mutexes == s.mutexes && r.holders == s.holders
  {
    AfterReadHandsOut(TtyOf(s, t), length, bytes);
    hide Wake, Taken, AfterRead, HandsOut;
    var a := Return(s, p).(ttys := s.ttys[t := AfterRead(TtyOf(s, t), length)]);
    WakeParts(a, ReadQ(t), true);
  }

  lemma AfterReadHandsOut(tty: Tty, length: nat, bytes: seq<int>)
    requires Unread(tty, bytes)
    ensures HandsOut(tty, AfterRead(tty, length), Least(length, |bytes| - tty.position))
  {
  }

  lemma ReadLoopSleeps(s: State, p: int, t: int, length: nat)
    requires forall bytes :: !Unread(TtyOf(s, t), bytes)
    ensures var r := ReadLoop(s, p, t, length);
      p in r.asleep && p in r.calls && r.calls[p] == InRead(t, length) && r.ttys == s.ttys
  {
    hide Enqueue;
    var tty := TtyOf(s, t);
    assert tty.buffer.Line? ==> !Unread(tty, tty.buffer.bytes);
  }

  /** A read returns exactly when a part of the line is unread, and then gets as many bytes as it asks
      for or as there are. */
  lemma ReadGetsIff(s: State, p: int, t: int, length: nat)
    requires InUser(s, p) && ValidTty(t)
    ensures var r, tty := Step(s, DoRead(p, t, length)), TtyOf(s, t);
      && (InUser(r, p) <==> exists bytes :: Unread(tty, bytes))
      && (InUser(r, p) ==>
            && tty.buffer.Line? && tty.position < |tty.buffer.bytes|
            && HandsOut(tty, TtyOf(r, t), Least(length, |tty.buffer.bytes| - tty.position)))
      && (!InUser(r, p) ==> p in r.asleep && r.ttys == s.ttys)
  {
    var tty := TtyOf(s, t);
    if bytes :| Unread(tty, bytes) {
      ReadLoopGets(s, p, t, length, bytes);
    } else {
      ReadLoopSleeps(s, p, t, length);
    }
  }

  // ---------- reads over runs ----------

  /** What a step asks of terminal t for a reader that starts or goes on. */
  function Asks(s: State, e: Event, t: int): nat
    requires Enabled(s, e)
  {
    match e
    case DoRead(_, u, length) => if u == t then length else 0
    case DoResume(p) => if s.calls[p].InRead? && s.calls[p].t == t then s.calls[p].length else 0
    case _ => 0
  }

  function AsksIn(s: State, es: seq<Event>, t: int): nat
    requires Possible(s, es)
    decreases es
  {
    if es == [] then 0 else Asks(s, es[0], t) + AsksIn(Step(s, es[0]), es[1..], t)
  }

  predicate NoLineFor(es: seq<Event>, t: int) {
    forall i :: 0 <= i < |es| ==> !(es[i].DoLine? && es[i].t == t)
  }

  /** The line is the same and n more bytes of it have been asked for. */
  predicate ReadsOn(before: Tty, after: Tty, n: nat) {
    && before.buffer.Line? && after.buffer == before.buffer
    && before.position <= |before.buffer.bytes|
    && after.position == Least(|before.buffer.bytes|, before.position + n)
  }

  lemma LineStays(s: State, e: Event, t: int)
    requires Enabled(s, e) && ValidTty(t) && !(e.DoLine? && e.t == t) && Asks(s, e, t) == 0
    requires !(e.DoRead? && e.t == t) && !(e.DoResume? && s.calls[e.p].InRead? && s.calls[e.p].t == t)
    ensures TtyOf(Step(s, e), t).buffer == TtyOf(s, t).buffer
    ensures TtyOf(Step(s, e), t).position == TtyOf(s, t).position
  {
    hide Enqueue, Woken, Pids, Harden, Chunk, Transmitting, ReadLoop, Resume, Acquire;
    if e.DoResume? {
      ResumedLineStays(s, e.p, t);
    } else if e.DoRead? {
      OtherLineStays(s, e.p, e.t, e.length, t);
    } else if e.DoAcquire? {
      AcquireKeepsTerminals(s, e.p, e.m);
    }
  }

  lemma AcquireKeepsTerminals(s: State, p: int, m: int)
    ensures Acquire(s, p, m).ttys == s.ttys && AcquireLoop(s, p, m).ttys == s.ttys
  {
    hide Enqueue;
  }

  lemma OtherLineStays(s: State, p: int, u: int, length: nat, t: int)
    requires u != t
    ensures TtyOf(ReadLoop(s, p, u, length), t) == TtyOf(s, t)
  {
    hide Enqueue, Woken, Pids, AfterRead;
  }

  lemma ResumedLineStays(s: State, p: int, t: int)
    requires p in s.calls && !s.calls[p].User? && !(s.calls[p].InRead? && s.calls[p].t == t)
    ensures TtyOf(Resume(s, p), t).buffer == TtyOf(s, t).buffer
      && TtyOf(Resume(s, p), t).position == TtyOf(s, t).position
  {
    hide Enqueue, Chunk, ReadLoop, Acquire, AcquireLoop;
    if s.calls[p].InRead? {
      OtherLineStays(s, p, s.calls[p].t, s.calls[p].length, t);
    } else if s.calls[p].InAcquire? || s.calls[p].InWait? {
      AcquireKeepsTerminals(s, p, s.calls[p].m);
    }
  }

  lemma ReadLoopReadsOn(s: State, p: int, t: int, length: nat)
    requires p !in s.asleep && TtyOf(s, t).buffer.Line? && TtyOf(s, t).position <= |TtyOf(s, t).buffer.bytes|
    ensures ReadsOn(TtyOf(s, t), TtyOf(ReadLoop(s, p, t, length), t), length)
  {
    hide ReadLoop;
    var tty := TtyOf(s, t);
    if bytes :| Unread(tty, bytes) {
      ReadLoopGets(s, p, t, length, bytes);
    } else {
      ReadLoopSleeps(s, p, t, length);
      assert !Unread(tty, tty.buffer.bytes);
    }
  }

  lemma StepReadsOn(s: State, e: Event, t: int)
    requires Enabled(s, e) && ValidTty(t) && !(e.DoLine? && e.t == t)
    requires TtyOf(s, t).buffer.Line? && TtyOf(s, t).position <= |TtyOf(s, t).buffer.bytes|
    ensures ReadsOn(TtyOf(s, t), TtyOf(Step(s, e), t), Asks(s, e, t))
  {
    hide ReadLoop;
    if e.DoRead? && e.t == t {
      ReadLoopReadsOn(s, e.p, t, e.length);
    } else if e.DoResume? && s.calls[e.p].InRead? && s.calls[e.p].t == t {
      ReadLoopReadsOn(s, e.p, t, s.calls[e.p].length);
    } else {
      hide Step;
      LineStays(s, e, t);
    }
  }

  lemma {:induction false} RunReadsOn(s: State, es: seq<Event>, t: int)
    requires Possible(s, es) && ValidTty(t) && NoLineFor(es, t)
    requires TtyOf(s, t).buffer.Line? && TtyOf(s, t).position <= |TtyOf(s, t).buffer.bytes|
    ensures ReadsOn(TtyOf(s, t), TtyOf(Run(s, es), t), AsksIn(s, es, t))
    decreases es
  {
    hide Enabled, Step;
    if es != [] {
      StepReadsOn(s, es[0], t);
      RunReadsOn(Step(s, es[0]), es[1..], t);
    }
  }

  /** Main result on input: from the arrival of a line to that of the next, the reads, by whomever and in
      any interleaving, have handed out as much of its beginning as they have asked for together, and all
      of it once they have asked for that much. */
  lemma LineIsReadWhole(s: State, t: int, bytes: seq<int>, es: seq<Event>)
    requires Inv(s) && ValidTty(t) && Possible(Step(s, DoLine(t, bytes)), es) && NoLineFor(es, t)
    ensures var a := Step(s, DoLine(t, bytes));
      var tty, n := TtyOf(Run(a, es), t), Least(|bytes|, AsksIn(a, es, t));
      && tty.buffer == Line(bytes) && tty.position == n && tty.handedOut == bytes[..n]
      && (AsksIn(a, es, t) >= |bytes| ==> tty.handedOut == bytes)
  {
    hide Inv, Run, Possible, ReadLoop;
    var a := Step(s, DoLine(t, bytes));
    LineIsThere(s, t, bytes);
    RunReadsOn(a, es, t);
    StepKeepsInv(s, DoLine(t, bytes));
    ReadsInOrder(a, es, t);
  }

  /** An arriving line replaces what was there, read or not, and wakes the first reader if one sleeps. */
  lemma LineIsThere(s: State, t: int, bytes: seq<int>)
    requires Inv(s) && ValidTty(t)
    ensures var r := Step(s, DoLine(t, bytes));
      && TtyOf(r, t) == TtyOf(s, t).(buffer := Line(bytes), position := 0, handedOut := [])
      && (forall u :: u != t ==> TtyOf(r, u) == TtyOf(s, u))
      && (Q(s, ReadQ(t)) != [] ==> Q(s, ReadQ(t))[0].pid !in r.asleep)
  {
    hide MutexesOk, ReadersOk, WritersOk, QueuesOk, Wake;
    var a := s.(ttys := s.ttys[t := TtyOf(s, t).(buffer := Line(bytes), position := 0, handedOut := [])]);
    SameQueues(s, a);
    WakeParts(a, ReadQ(t), true);
    WakeKeepsQueues(a, ReadQ(t), true);
  }

  lemma SameQueues(s: State, a: State)
    requires QueuesOk(s) && a == s.(ttys := a.ttys)
    ensures QueuesOk(a)
  {
    SetCallKeepsQueues(s, a);
  }
}
