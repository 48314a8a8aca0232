/** What every step of Blocking keeps, and with it every run in every interleaving. */
module BlockingInv {
  import opened WaitQueues
  import opened Blocking

  // ---------- queues ----------

  /** A queued node belongs to a sleeping process that stopped in a call which sleeps on this queue. */
  ghost predicate WaiterOk(s: State, id: QueueId, w: Waiter) {
    && w.pid in s.asleep && w.pid in s.calls && !s.calls[w.pid].User?
    && QueueOf(s.calls[w.pid]) == id
    && w.exclusive == !s.calls[w.pid].InTransmit?
  }

  /** A process is asleep exactly when it has a node, just one, on the queue of its call. */
  ghost predicate QueuesOk(s: State) {
    && (forall id, i :: 0 <= i < |Q(s, id)| ==> WaiterOk(s, id, Q(s, id)[i]))
    && (forall id :: NoRepeats(Q(s, id)) && Ordered(Q(s, id)))
    && (forall p :: p in s.asleep ==> p in s.calls && !s.calls[p].User? && p in Pids(Q(s, QueueOf(s.calls[p]))))
    && (forall p :: p in s.calls ==> p > 0)
  }

  lemma SleepKeepsQueues(s: State, p: int, call: Call)
    requires QueuesOk(s) && p !in s.asleep && p > 0 && !call.User?
    ensures QueuesOk(Sleep(s, p, call))
  {
    hide Enqueue, Pids, NoRepeats, Ordered;
    var id, r := QueueOf(call), Sleep(s, p, call);
    var w := Waiter(p, !call.InTransmit?);
    SleeperNotQueued(s, id, p);
    EnqueueKeepsOrder(Q(s, id), w);
    EnqueueAdds(Q(s, id), w);
    forall other, i | 0 <= i < |Q(r, other)|
      ensures WaiterOk(r, other, Q(r, other)[i])
    {
      var v := Q(r, other)[i];
      assert v in Q(r, other);
      if other != id || v != w {
        var j :| 0 <= j < |Q(s, other)| && Q(s, other)[j] == v;
        assert WaiterOk(s, other, Q(s, other)[j]);
        PidOf(Q(s, other), j);
      }
    }
    assert forall other :: Q(r, other) == if other == id then Enqueue(Q(s, id), w) else Q(s, other);
  }

  /** Who is awake is on no queue. */
  lemma SleeperNotQueued(s: State, id: QueueId, p: int)
    requires QueuesOk(s) && p !in s.asleep
    ensures p !in Pids(Q(s, id))
  {
    assert forall i :: 0 <= i < |Q(s, id)| ==> WaiterOk(s, id, Q(s, id)[i]);
  }

  lemma PidOf(q: seq<Waiter>, i: nat)
    requires i < |q|
    ensures q[i].pid in Pids(q)
  {
  }

  lemma EnqueueAdds(q: seq<Waiter>, w: Waiter)
    requires NoRepeats(q) && w.pid !in Pids(q)
    ensures NoRepeats(Enqueue(q, w)) && Pids(Enqueue(q, w)) == Pids(q) + {w.pid}
    ensures forall v :: v in Enqueue(q, w) <==> v == w || v in q
  {
    var r := Enqueue(q, w);
    forall i | 0 <= i < |q|
      ensures q[i].pid in Pids(r) && q[i].pid != w.pid
    {
      assert r[if w.exclusive then i else i + 1] == q[i];
    }
    assert r[if w.exclusive then |q| else 0] == w;
  }

  lemma WakeKeepsQueues(s: State, id: QueueId, exclusively: bool)
    requires QueuesOk(s)
    ensures var r := Wake(s, id, exclusively);
      && QueuesOk(r)
      && (forall p :: p in s.asleep && p !in r.asleep ==> QueueOf(s.calls[p]) == id)
      && (Q(s, id) != [] ==> WaiterOk(s, id, Q(s, id)[0]) && Q(s, id)[0].pid !in r.asleep)
  {
    hide Pids, NoRepeats, Ordered, Woken;
    var q, k, r := Q(s, id), Woken(Q(s, id), exclusively), Wake(s, id, exclusively);
    DropKeepsOrder(q, k);
    DropSplits(q, k);
    SomebodyIsWoken(q, exclusively);
    forall other, i | 0 <= i < |Q(r, other)|
      ensures WaiterOk(r, other, Q(r, other)[i])
    {
      var j := if other == id then k + i else i;
      assert WaiterOk(s, other, Q(s, other)[j]);
      PidOf(Q(r, other), i);
      OnlyOwnQueue(s, id, other, j, k);
    }
    forall p | p in s.asleep && p !in r.asleep
      ensures QueueOf(s.calls[p]) == id
    {
      var i := WithPid(q[..k], p);
      assert WaiterOk(s, id, q[i]);
    }
    assert forall other :: Q(r, other) == if other == id then q[k..] else Q(s, other);
    if q != [] {
      assert WaiterOk(s, id, q[0]);
      PidOf(q[..k], 0);
    }
  }

  /** A signal takes a process off its own queue only. */
  lemma OnlyOwnQueue(s: State, id: QueueId, other: QueueId, j: nat, k: nat)
    requires QueuesOk(s) && k <= |Q(s, id)| && j < |Q(s, other)| && (other == id ==> k <= j)
    ensures Q(s, other)[j].pid !in Pids(Q(s, id)[..k])
  {
    assert WaiterOk(s, other, Q(s, other)[j]);
    if other == id {
      NotAmong(Q(s, id), k, j);
    } else {
      assert forall i :: 0 <= i < k ==> WaiterOk(s, id, Q(s, id)[i]);
    }
  }

  lemma DropSplits(q: seq<Waiter>, k: nat)
    requires k <= |q|
    ensures Pids(q) == Pids(q[..k]) + Pids(q[k..])
  {
    assert forall i :: 0 <= i < |q| ==> q[i] == if i < k then q[..k][i] else q[k..][i - k];
  }

  lemma SomebodyIsWoken(q: seq<Waiter>, exclusively: bool)
    ensures q != [] ==> Woken(q, exclusively) > 0
  {
  }

  lemma WithPid(q: seq<Waiter>, p: int) returns (i: nat)
    requires p in Pids(q)
    ensures i < |q| && q[i].pid == p
  {
    i :| i < |q| && q[i].pid == p;
  }

  lemma NotAmong(q: seq<Waiter>, k: nat, j: nat)
    requires NoRepeats(q) && k <= j < |q|
    ensures q[j].pid !in Pids(q[..k])
  {
  }

  lemma SetCallKeepsQueues(s: State, r: State)
    requires QueuesOk(s) && r.queues == s.queues && r.asleep == s.asleep
    requires forall p :: p in s.calls || p in r.calls ==>
      p in r.calls && p > 0 && (p in s.asleep ==> p in s.calls && r.calls[p] == s.calls[p])
    ensures QueuesOk(r)
  {
    forall id, i | 0 <= i < |Q(r, id)|
      ensures WaiterOk(r, id, Q(r, id)[i])
    {
      assert WaiterOk(s, id, Q(s, id)[i]);
    }
    assert forall id :: Q(r, id) == Q(s, id);
  }

  // ---------- mutexes ----------

  /** Somebody is inside the acquire loop of m and awake, about to test the mutex again. */
  ghost predicate AcquirePending(s: State, m: int) {
    exists p :: p in s.calls && s.calls[p] == InAcquire(m) && p !in s.asleep
  }

  /** `locked` and `current_owner` agree, and no wake-up is lost: a free mutex with waiters has a
      dequeued process on its way. */
  ghost predicate MutexesOk(s: State) {
    forall m ::
      && (MutexOf(s, m).locked <==> MutexOf(s, m).owner != 0)
      && (!MutexOf(s, m).locked && Q(s, MutexQ(m)) != [] ==> AcquirePending(s, m))
  }

  // ---------- terminals ----------

  ghost predicate ReadPending(s: State, t: int) {
    exists p :: p in s.calls && s.calls[p].InRead? && s.calls[p].t == t && p !in s.asleep
  }

  /** What arrived last, what has been read of it, and no lost wake-up for readers. */
  ghost predicate ReadersOk(s: State) {
    forall t ::
      && TtyOf(s, t).handedOut == (if TtyOf(s, t).buffer.Line? then ReadSoFar(TtyOf(s, t)) else [])
      && (TtyOf(s, t).buffer.Line? ==> TtyOf(s, t).position <= |TtyOf(s, t).buffer.bytes|)
      && (HasUnread(TtyOf(s, t)) && Q(s, ReadQ(t)) != [] ==> ReadPending(s, t))
  }

  function ReadSoFar(tty: Tty): seq<int>
    requires tty.buffer.Line?
  {
    tty.buffer.bytes[..Min(tty.position, |tty.buffer.bytes|)]
  }

  function Concat(messages: seq<seq<int>>): seq<int> {
    if messages == [] then [] else Concat(messages[..|messages| - 1]) + messages[|messages| - 1]
  }

  /** What the terminal has got of the message of a process in ttyWrite. */
  function SentOf(message: seq<int>, position: nat): seq<int> {
    message[..Min(position + TERMINAL_MAX_LINE, |message|)]
  }

  ghost predicate TransmitsOn(s: State, p: int, t: int) {
    p in s.calls && s.calls[p].InTransmit? && s.calls[p].t == t
  }

  /** The terminal belongs to the process named in write_current, which is the only one that transmits;
      what was sent is whole messages and the part of its message up to the current chunk; a process
      that waits for the terminal is asleep. */
  ghost predicate WritersOk(s: State) {
    && (forall t, p :: TransmitsOn(s, p, t) ==> TtyOf(s, t).writeCurrent == p)
    && (forall t :: TtyOf(s, t).writeCurrent != 0 ==> TransmitsOn(s, TtyOf(s, t).writeCurrent, t))
    && (forall p :: p in s.calls && s.calls[p].InTransmit? ==>
          s.calls[p].position < |s.calls[p].message| && s.calls[p].position % TERMINAL_MAX_LINE == 0)
    && (forall p :: p in s.calls && s.calls[p].InWrite? ==> p in s.asleep)
    && (forall t :: TtyOf(s, t).sent == Concat(TtyOf(s, t).finished) + SentNow(s, t))
  }

  ghost function SentNow(s: State, t: int): seq<int> {
    var p := TtyOf(s, t).writeCurrent;
    if p != 0 && TransmitsOn(s, p, t) then SentOf(s.calls[p].message, s.calls[p].position) else []
  }

  ghost predicate Inv(s: State) {
    QueuesOk(s) && MutexesOk(s) && ReadersOk(s) && WritersOk(s)
  }

  // ---------- what keeps the parts of the invariant ----------

  /** A free mutex with waiters still has somebody on the way, whether or not its queue changed. */
  lemma MutexesFrame(s: State, r: State)
    requires MutexesOk(s) && r.mutexes == s.mutexes
    requires forall m :: !MutexOf(s, m).locked ==>
      AcquirePending(r, m) || (Q(r, MutexQ(m)) == Q(s, MutexQ(m)) && !AcquirePending(s, m))
    ensures MutexesOk(r)
  {
    hide AcquirePending;
    forall m
      ensures MutexOf(r, m) == MutexOf(s, m)
      ensures !MutexOf(r, m).locked && Q(r, MutexQ(m)) != [] ==> AcquirePending(r, m)
    {
      assert MutexOf(s, m).locked <==> MutexOf(s, m).owner != 0;
    }
  }

  lemma ReadersFrame(s: State, r: State)
    requires ReadersOk(s)
    requires forall t ::
      && TtyOf(r, t).position == TtyOf(s, t).position && TtyOf(r, t).buffer == TtyOf(s, t).buffer
      && TtyOf(r, t).handedOut == TtyOf(s, t).handedOut
    requires forall t :: HasUnread(TtyOf(s, t)) ==>
      ReadPending(r, t) || (Q(r, ReadQ(t)) == Q(s, ReadQ(t)) && !ReadPending(s, t))
    ensures ReadersOk(r)
  {
  }

  lemma WritersFrame(s: State, r: State)
    requires WritersOk(s)
    requires forall t :: SameOutput(TtyOf(r, t), TtyOf(s, t))
    requires forall p :: p in r.calls && r.calls[p].InTransmit? ==> p in s.calls && s.calls[p] == r.calls[p]
    requires forall p :: p in s.calls && s.calls[p].InTransmit? ==> p in r.calls && r.calls[p] == s.calls[p]
    requires forall p :: p in r.calls && r.calls[p].InWrite? ==> p in r.asleep
    ensures WritersOk(r)
  {
    hide Concat, SentOf;
    assert forall t, q :: TransmitsOn(r, q, t) <==> TransmitsOn(s, q, t);
    assert forall t :: SentNow(r, t) == SentNow(s, t);
  }

  predicate SameOutput(a: Tty, b: Tty) {
    a.writeCurrent == b.writeCurrent && a.sent == b.sent && a.finished == b.finished
  }

  // ---------- sleeping and waking ----------

  lemma SleepKeepsMutexes(s: State, p: int, call: Call)
    requires MutexesOk(s) && p in s.calls && p !in s.asleep && !call.User?
    requires call.InAcquire? ==> MutexOf(s, call.m).locked
    requires s.calls[p].InAcquire? ==> MutexOf(s, s.calls[p].m).locked
    ensures MutexesOk(Sleep(s, p, call))
  {
    hide MutexesOk, Enqueue;
    var r := Sleep(s, p, call);
    forall m | !MutexOf(s, m).locked
      ensures AcquirePending(r, m) || (Q(r, MutexQ(m)) == Q(s, MutexQ(m)) && !AcquirePending(s, m))
    {
      if AcquirePending(s, m) {
        var w :| w in s.calls && s.calls[w] == InAcquire(m) && w !in s.asleep;
        assert w in r.calls && r.calls[w] == InAcquire(m) && w !in r.asleep;
      }
    }
    MutexesFrame(s, r);
  }

  lemma SleepKeepsReaders(s: State, p: int, call: Call)
    requires ReadersOk(s) && p in s.calls && p !in s.asleep && !call.User?
    requires call.InRead? ==> !HasUnread(TtyOf(s, call.t))
    requires s.calls[p].InRead? ==> !HasUnread(TtyOf(s, s.calls[p].t))
    ensures ReadersOk(Sleep(s, p, call))
  {
    hide ReadersOk, Enqueue;
    var r := Sleep(s, p, call);
    forall t | HasUnread(TtyOf(s, t))
      ensures ReadPending(r, t) || (Q(r, ReadQ(t)) == Q(s, ReadQ(t)) && !ReadPending(s, t))
    {
      if ReadPending(s, t) {
        var w :| w in s.calls && s.calls[w].InRead? && s.calls[w].t == t && w !in s.asleep;
        assert w in r.calls && r.calls[w] == s.calls[w] && w !in r.asleep;
      }
    }
    ReadersFrame(s, r);
  }

  /** Sleeping in a call that waits for nothing that is free. */
  lemma SleepKeepsInv(s: State, p: int, call: Call)
    requires Inv(s) && p in s.calls && p !in s.asleep && !call.User? && !call.InTransmit? && !s.calls[p].InTransmit?
    requires call.InRead? ==> !HasUnread(TtyOf(s, call.t))
    requires call.InAcquire? ==> MutexOf(s, call.m).locked
    requires s.calls[p].InAcquire? ==> MutexOf(s, s.calls[p].m).locked
    requires s.calls[p].InRead? ==> !HasUnread(TtyOf(s, s.calls[p].t))
    ensures Inv(Sleep(s, p, call))
  {
    SleepKeepsQueues(s, p, call);
    SleepKeepsMutexes(s, p, call);
    SleepKeepsReaders(s, p, call);
    WaitersAsleep(s);
    hide QueuesOk, WaiterOk, MutexesOk, ReadersOk, WritersOk, Enqueue;
    WritersFrame(s, Sleep(s, p, call));
  }

  lemma WaitersAsleep(s: State)
    requires WritersOk(s)
    ensures forall p :: p in s.calls && s.calls[p].InWrite? ==> p in s.asleep
  {
  }

  /** The parts of a signal that concern nobody's queue. */
  lemma WakeParts(s: State, id: QueueId, exclusively: bool)
    ensures var r := Wake(s, id, exclusively);
      && r.calls == s.calls && r.asleep <= s.asleep && r.mutexes == s.mutexes && r.ttys == s.ttys
      && r.holders == s.holders
      && forall other :: other != id ==> Q(r, other) == Q(s, other)
  {
  }

  lemma WakePendsAcquire(s: State, id: QueueId, exclusively: bool, m: int)
    requires QueuesOk(s) && (AcquirePending(s, m) || (id == MutexQ(m) && Q(s, id) != []))
    ensures AcquirePending(Wake(s, id, exclusively), m)
  {
    WakeParts(s, id, exclusively);
    WakeKeepsQueues(s, id, exclusively);
    hide QueuesOk, Wake;
    var r := Wake(s, id, exclusively);
    if AcquirePending(s, m) {
      var p :| p in s.calls && s.calls[p] == InAcquire(m) && p !in s.asleep;
      assert p in r.calls && r.calls[p] == InAcquire(m) && p !in r.asleep;
    } else {
      var p := Q(s, id)[0].pid;
      assert p in r.calls && r.calls[p] == InAcquire(m) && p !in r.asleep;
    }
  }

  lemma WakePendsRead(s: State, id: QueueId, exclusively: bool, t: int)
    requires QueuesOk(s) && (ReadPending(s, t) || (id == ReadQ(t) && Q(s, id) != []))
    ensures ReadPending(Wake(s, id, exclusively), t)
  {
    WakeParts(s, id, exclusively);
    WakeKeepsQueues(s, id, exclusively);
    hide QueuesOk, Wake;
    var r := Wake(s, id, exclusively);
    if ReadPending(s, t) {
      var p :| p in s.calls && s.calls[p].InRead? && s.calls[p].t == t && p !in s.asleep;
      assert p in r.calls && r.calls[p] == s.calls[p] && p !in r.asleep;
    } else {
      var p := Q(s, id)[0].pid;
      assert p in r.calls && r.calls[p].InRead? && r.calls[p].t == t && p !in r.asleep;
    }
  }

  lemma WakeKeepsMutexes(s: State, id: QueueId, exclusively: bool)
    requires QueuesOk(s) && MutexesOk(s)
    ensures MutexesOk(Wake(s, id, exclusively))
  {
    WakeParts(s, id, exclusively);
    hide QueuesOk, MutexesOk, Wake, AcquirePending;
    var r := Wake(s, id, exclusively);
    forall m
      ensures AcquirePending(r, m) || (Q(r, MutexQ(m)) == Q(s, MutexQ(m)) && !AcquirePending(s, m))
    {
      if AcquirePending(s, m) || (id == MutexQ(m) && Q(s, id) != []) {
        WakePendsAcquire(s, id, exclusively, m);
      } else if id == MutexQ(m) {
        WakeEmpty(s, id, exclusively);
      }
    }
    MutexesFrame(s, r);
  }

  lemma WakeKeepsReaders(s: State, id: QueueId, exclusively: bool)
    requires QueuesOk(s) && ReadersOk(s)
    ensures ReadersOk(Wake(s, id, exclusively))
  {
    WakeParts(s, id, exclusively);
    hide QueuesOk, ReadersOk, Wake, ReadPending;
    var r := Wake(s, id, exclusively);
    forall t
      ensures ReadPending(r, t) || (Q(r, ReadQ(t)) == Q(s, ReadQ(t)) && !ReadPending(s, t))
    {
      if ReadPending(s, t) || (id == ReadQ(t) && Q(s, id) != []) {
        WakePendsRead(s, id, exclusively, t);
      } else if id == ReadQ(t) {
        WakeEmpty(s, id, exclusively);
      }
    }
    ReadersFrame(s, r);
  }

  lemma WakeKeepsWriters(s: State, id: QueueId, exclusively: bool)
    requires QueuesOk(s) && WritersOk(s) && !id.WriteQ?
    ensures WritersOk(Wake(s, id, exclusively))
  {
    WakeKeepsQueues(s, id, exclusively);
    WakeParts(s, id, exclusively);
    WaitersAsleep(s);
    hide QueuesOk, WritersOk, Wake;
    WritersFrame(s, Wake(s, id, exclusively));
  }

  /** A signal on any queue but a writers' one. */
  lemma WakeKeepsInv(s: State, id: QueueId, exclusively: bool)
    requires Inv(s) && !id.WriteQ?
    ensures Inv(Wake(s, id, exclusively))
  {
    hide QueuesOk, MutexesOk, ReadersOk, WritersOk, Wake, WaiterOk;
    WakeKeepsQueues(s, id, exclusively);
    WakeKeepsMutexes(s, id, exclusively);
    WakeKeepsReaders(s, id, exclusively);
    WakeKeepsWriters(s, id, exclusively);
  }

  lemma WakeEmpty(s: State, id: QueueId, exclusively: bool)
    requires Q(s, id) == []
    ensures Q(Wake(s, id, exclusively), id) == Q(s, id)
  {
  }

  // ---------- mutex steps ----------

  /** A process not waiting for anything that is free goes back to user mode. */
  lemma ReturnKeepsInv(s: State, p: int)
    requires Inv(s) && p > 0 && p !in s.asleep
    requires p in s.calls ==>
      s.calls[p].User? || s.calls[p].InWait? || (s.calls[p].InAcquire? && MutexOf(s, s.calls[p].m).locked)
    ensures Inv(Return(s, p))
  {
    var r := Return(s, p);
    SetCallKeepsQueues(s, r);
    WaitersAsleep(s);
    hide QueuesOk, WaiterOk, MutexesOk, ReadersOk, WritersOk;
    forall m | !MutexOf(s, m).locked
      ensures AcquirePending(r, m) || (Q(r, MutexQ(m)) == Q(s, MutexQ(m)) && !AcquirePending(s, m))
    {
      if AcquirePending(s, m) {
        var w :| w in s.calls && s.calls[w] == InAcquire(m) && w !in s.asleep;
        assert w in r.calls && r.calls[w] == InAcquire(m) && w !in r.asleep;
      }
    }
    MutexesFrame(s, r);
    forall t
      ensures ReadPending(r, t) || (Q(r, ReadQ(t)) == Q(s, ReadQ(t)) && !ReadPending(s, t))
    {
      if ReadPending(s, t) {
        var w :| w in s.calls && s.calls[w].InRead? && s.calls[w].t == t && w !in s.asleep;
        assert w in r.calls && r.calls[w] == s.calls[w] && w !in r.asleep;
      }
    }
    ReadersFrame(s, r);
    WritersFrame(s, r);
  }

  function SetMutex(s: State, m: int, mutex: Mutex, holders: set<int>): State {
    s.(mutexes := s.mutexes[m := mutex], holders := s.holders[m := holders])
  }

  lemma SetMutexKeepsRest(s: State, m: int, mutex: Mutex, holders: set<int>)
    requires QueuesOk(s) && ReadersOk(s) && WritersOk(s)
    ensures var r := SetMutex(s, m, mutex, holders); QueuesOk(r) && ReadersOk(r) && WritersOk(r)
  {
    var r := SetMutex(s, m, mutex, holders);
    SetCallKeepsQueues(s, r);
    hide QueuesOk, WaiterOk, ReadersOk;
    assert forall t :: ReadPending(s, t) ==> ReadPending(r, t);
    ReadersFrame(s, r);
    WaitersAsleep(s);
    hide WritersOk;
    WritersFrame(s, r);
  }

  /** The loop of mutexAcquire; a free mutex goes to whoever runs, waiters or not. */
  lemma AcquireLoopKeepsInv(s: State, p: int, m: int)
    requires Inv(s) && p in s.calls && p !in s.asleep
    requires s.calls[p].User? || s.calls[p].InWait? || s.calls[p] == InAcquire(m)
    ensures Inv(AcquireLoop(s, p, m))
  {
    if MutexOf(s, m).locked {
      SleepKeepsInv(s, p, InAcquire(m));
    } else {
      var holders := Holders(s, m) + {p};
      SetMutexKeepsRest(s, m, Mutex(true, p), holders);
      var r := SetMutex(s, m, Mutex(true, p), holders);
      assert p > 0;
      hide QueuesOk, WaiterOk, ReadersOk, WritersOk;
      LockKeepsMutexes(s, p, m, holders);
      ReturnKeepsInv(r, p);
    }
  }

  lemma LockKeepsMutexes(s: State, p: int, m: int, holders: set<int>)
    requires MutexesOk(s) && p != 0
    ensures MutexesOk(SetMutex(s, m, Mutex(true, p), holders))
  {
    var r := SetMutex(s, m, Mutex(true, p), holders);
    forall n
      ensures MutexOf(r, n).locked <==> MutexOf(r, n).owner != 0
      ensures !MutexOf(r, n).locked && Q(r, MutexQ(n)) != [] ==> AcquirePending(r, n)
    {
      assert Q(r, MutexQ(n)) == Q(s, MutexQ(n));
      assert n != m ==> MutexOf(r, n) == MutexOf(s, n);
      assert AcquirePending(s, n) ==> AcquirePending(r, n);
    }
  }

  lemma AcquireKeepsInv(s: State, p: int, m: int)
    requires Inv(s) && p in s.calls && p !in s.asleep && (s.calls[p].User? || s.calls[p].InWait?)
    ensures Inv(Acquire(s, p, m))
  {
    if MutexOf(s, m).owner == p {
      assert p > 0;
      ReturnKeepsInv(s, p);
    } else {
      AcquireLoopKeepsInv(s, p, m);
    }
  }

  /** Releasing a mutex that has waiters puts one of them on the way. */
  lemma ReleaseKeepsInv(s: State, p: int, m: int)
    requires Inv(s)
    ensures Inv(Release(s, p, m))
    ensures Release(s, p, m).calls == s.calls && Release(s, p, m).asleep <= s.asleep && Release(s, p, m).ttys == s.ttys
  {
    var holders := Holders(s, m) - {p};
    var f := SetMutex(s, m, Mutex(false, 0), holders);
    SetMutexKeepsRest(s, m, Mutex(false, 0), holders);
    hide QueuesOk, WaiterOk, MutexesOk, ReadersOk, WritersOk, Wake;
    WakeKeepsQueues(f, MutexQ(m), true);
    WakeParts(f, MutexQ(m), true);
    WakeKeepsReaders(f, MutexQ(m), true);
    WakeKeepsWriters(f, MutexQ(m), true);
    UnlockKeepsMutexes(s, m, holders);
  }

  lemma UnlockKeepsMutexes(s: State, m: int, holders: set<int>)
    requires QueuesOk(s) && MutexesOk(s) && QueuesOk(SetMutex(s, m, Mutex(false, 0), holders))
    ensures MutexesOk(Wake(SetMutex(s, m, Mutex(false, 0), holders), MutexQ(m), true))
  {
    var f := SetMutex(s, m, Mutex(false, 0), holders);
    var r := Wake(f, MutexQ(m), true);
    WakeParts(f, MutexQ(m), true);
    hide QueuesOk, WaiterOk, Wake, AcquirePending;
    forall n
      ensures MutexOf(r, n).locked <==> MutexOf(r, n).owner != 0
      ensures !MutexOf(r, n).locked && Q(r, MutexQ(n)) != [] ==> AcquirePending(r, n)
    {
      assert Q(f, MutexQ(n)) == Q(s, MutexQ(n));
      if n == m {
        if Q(f, MutexQ(m)) != [] {
          WakePendsAcquire(f, MutexQ(m), true, m);
        } else {
          WakeEmpty(f, MutexQ(m), true);
        }
      } else {
        assert MutexOf(r, n) == MutexOf(s, n);
        if AcquirePending(s, n) {
          PendingSurvives(s, f, n);
          WakePendsAcquire(f, MutexQ(m), true, n);
        }
      }
    }
  }

  lemma PendingSurvives(s: State, r: State, m: int)
    requires AcquirePending(s, m) && r.calls == s.calls && r.asleep == s.asleep
    ensures AcquirePending(r, m)
  {
  }

  lemma WaitKeepsInv(s: State, p: int, c: int, m: int)
    requires Inv(s) && p in s.calls && p !in s.asleep && s.calls[p].User?
    ensures Inv(Wait(s, p, c, m))
  {
    ReleaseKeepsInv(s, p, m);
    SleepKeepsInv(Release(s, p, m), p, InWait(c, m));
  }
}
