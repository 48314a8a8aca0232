/** The terminal steps of Blocking, and with them every run. */
module TerminalInv {
  import opened WaitQueues
  import opened Blocking
  import opened BlockingInv

  // ---------- reading ----------

  function SetTty(s: State, t: int, tty: Tty): State {
    s.(ttys := s.ttys[t := tty])
  }

  /** A change of the input side of a terminal, followed by a signal to its readers. */
  lemma InputThenWake(s: State, t: int, tty: Tty)
    requires QueuesOk(s) && MutexesOk(s) && WritersOk(s)
    requires forall u :: u != t ==> ReaderOk(s, u)
    requires SameOutput(tty, TtyOf(s, t)) && tty.buffer.Line?
    requires tty.position <= |tty.buffer.bytes| && tty.handedOut == ReadSoFar(tty)
    ensures Inv(Wake(SetTty(s, t, tty), ReadQ(t), true))
  {
    hide QueuesOk, WaiterOk, Wake, ReadPending, AcquirePending, MutexesOk, WritersOk, ReaderOk, ReadersOk, SetTty,
      SameOutput, ReadSoFar;
    var f := SetTty(s, t, tty);
    InputKeepsRest(s, t, tty);
    WakeKeepsQueues(f, ReadQ(t), true);
    WakeKeepsMutexes(f, ReadQ(t), true);
    WakeKeepsWriters(f, ReadQ(t), true);
    forall u
      ensures ReaderOk(Wake(f, ReadQ(t), true), u)
    {
      InputThenReader(s, t, tty, u);
    }
    ReadersAll(Wake(f, ReadQ(t), true));
  }

  lemma InputKeepsRest(s: State, t: int, tty: Tty)
    requires QueuesOk(s) && MutexesOk(s) && WritersOk(s) && SameOutput(tty, TtyOf(s, t))
    ensures var f := SetTty(s, t, tty); QueuesOk(f) && MutexesOk(f) && WritersOk(f)
  {
    var f := SetTty(s, t, tty);
    SetCallKeepsQueues(s, f);
    WaitersAsleep(s);
    hide QueuesOk, WaiterOk, AcquirePending, MutexesOk, WritersOk;
    forall m
      ensures AcquirePending(f, m) || (Q(f, MutexQ(m)) == Q(s, MutexQ(m)) && !AcquirePending(s, m))
    {
      if AcquirePending(s, m) { PendingSurvives(s, f, m); }
    }
    MutexesFrame(s, f);
    WritersFrame(s, f);
  }

  lemma InputThenReader(s: State, t: int, tty: Tty, u: int)
    requires QueuesOk(s) && QueuesOk(SetTty(s, t, tty)) && (u != t ==> ReaderOk(s, u))
    requires tty.buffer.Line? && tty.position <= |tty.buffer.bytes| && tty.handedOut == ReadSoFar(tty)
    ensures ReaderOk(Wake(SetTty(s, t, tty), ReadQ(t), true), u)
  {
    hide QueuesOk, WaiterOk, Wake, ReadPending, ReadSoFar;
    var f := SetTty(s, t, tty);
    WakeParts(f, ReadQ(t), true);
    if u == t {
      if Q(f, ReadQ(t)) != [] {
        WakePendsRead(f, ReadQ(t), true, t);
      } else {
        WakeEmpty(f, ReadQ(t), true);
      }
    } else if ReadPending(s, u) {
      ReaderSurvives(s, f, u);
      WakePendsRead(f, ReadQ(t), true, u);
    }
  }

  ghost predicate ReaderOk(s: State, t: int) {
    && TtyOf(s, t).handedOut == (if TtyOf(s, t).buffer.Line? then ReadSoFar(TtyOf(s, t)) else [])
    && (TtyOf(s, t).buffer.Line? ==> TtyOf(s, t).position <= |TtyOf(s, t).buffer.bytes|)
    && (HasUnread(TtyOf(s, t)) && Q(s, ReadQ(t)) != [] ==> ReadPending(s, t))
  }

  lemma ReadersAll(s: State)
    ensures ReadersOk(s) <==> forall t :: ReaderOk(s, t)
  {
    hide ReadPending;
    if ReadersOk(s) {
      forall t ensures ReaderOk(s, t) { }
    }
    if forall t :: ReaderOk(s, t) {
      forall t
        ensures TtyOf(s, t).handedOut == (if TtyOf(s, t).buffer.Line? then ReadSoFar(TtyOf(s, t)) else [])
        ensures TtyOf(s, t).buffer.Line? ==> TtyOf(s, t).position <= |TtyOf(s, t).buffer.bytes|
        ensures HasUnread(TtyOf(s, t)) && Q(s, ReadQ(t)) != [] ==> ReadPending(s, t)
      {
        assert ReaderOk(s, t);
      }
    }
  }

  lemma ReaderSurvives(s: State, r: State, t: int)
    requires ReadPending(s, t) && r.calls == s.calls && r.asleep == s.asleep
    ensures ReadPending(r, t)
  {
  }

  /** The process that reads leaves the loop; that matters only to its own terminal. */
  lemma ReaderReturns(s: State, p: int, t: int)
    requires Inv(s) && p in s.calls && p !in s.asleep
    requires s.calls[p].User? || (s.calls[p].InRead? && s.calls[p].t == t)
    ensures var r := Return(s, p);
      QueuesOk(r) && MutexesOk(r) && WritersOk(r) && forall u :: u != t ==> ReaderOk(r, u)
  {
    var r := Return(s, p);
    assert p > 0;
    SetCallKeepsQueues(s, r);
    WaitersAsleep(s);
    ReadersAll(s);
    hide QueuesOk, WaiterOk, MutexesOk, ReadersOk, WritersOk;
    forall m
      ensures AcquirePending(r, m) || (Q(r, MutexQ(m)) == Q(s, MutexQ(m)) && !AcquirePending(s, m))
    {
      if AcquirePending(s, m) {
        var w :| w in s.calls && s.calls[w] == InAcquire(m) && w !in s.asleep;
        assert w in r.calls && r.calls[w] == InAcquire(m) && w !in r.asleep;
      }
    }
    MutexesFrame(s, r);
    WritersFrame(s, r);
    forall u | u != t
      ensures ReaderOk(r, u)
    {
      assert ReaderOk(s, u) && Q(r, ReadQ(u)) == Q(s, ReadQ(u));
      if ReadPending(s, u) {
        var w :| w in s.calls && s.calls[w].InRead? && s.calls[w].t == u && w !in s.asleep;
        assert w in r.calls && r.calls[w] == s.calls[w] && w !in r.asleep;
      }
    }
  }

  lemma ReadLoopKeepsInv(s: State, p: int, t: int, length: nat)
    requires Inv(s) && p in s.calls && p !in s.asleep
    requires s.calls[p].User? || (s.calls[p].InRead? && s.calls[p].t == t)
    ensures Inv(ReadLoop(s, p, t, length))
  {
    hide QueuesOk, MutexesOk, WritersOk;
    var tty := TtyOf(s, t);
    if !HasUnread(tty) {
      SleepKeepsInv(s, p, InRead(t, length));
    } else {
      ReadersAll(s);
      assert ReaderOk(s, t);
      hide ReadersOk;
      ReaderReturns(s, p, t);
      var next := AfterRead(tty, length);
      assert next.handedOut == ReadSoFar(next);
      InputThenWake(Return(s, p), t, next);
    }
  }

  lemma LineArrivesKeepsInv(s: State, t: int, bytes: seq<int>)
    requires Inv(s)
    ensures Inv(LineArrives(s, t, bytes))
  {
    ReadersAll(s);
    hide QueuesOk, MutexesOk, WritersOk, ReadersOk;
    InputThenWake(s, t, TtyOf(s, t).(buffer := Line(bytes), position := 0, handedOut := []));
  }

  // ---------- writing ----------

  /** The invariant of the writers but for process p, which is running and has terminal t, whose
      output is whole messages and `message` up to `position`. */
  ghost predicate WritersOkBut(s: State, p: int, t: int, message: seq<int>, position: nat) {
    && p > 0 && p in s.calls && p !in s.asleep && position % TERMINAL_MAX_LINE == 0
    && TtyOf(s, t).writeCurrent == p
    && TtyOf(s, t).sent == Concat(TtyOf(s, t).finished) + message[..Min(position, |message|)]
    && (forall u, q :: q != p && TransmitsOn(s, q, u) ==> TtyOf(s, u).writeCurrent == q)
    && (forall u :: u != t && TtyOf(s, u).writeCurrent != 0 ==>
          TtyOf(s, u).writeCurrent != p && TransmitsOn(s, TtyOf(s, u).writeCurrent, u))
    && (forall q :: q in s.calls && q != p && s.calls[q].InTransmit? ==>
          s.calls[q].position < |s.calls[q].message| && s.calls[q].position % TERMINAL_MAX_LINE == 0)
    && (forall q :: q in s.calls && s.calls[q].InWrite? ==> q in s.asleep)
    && (forall u :: u != t ==> TtyOf(s, u).sent == Concat(TtyOf(s, u).finished) + SentNow(s, u))
  }

  lemma ConcatOneMore(messages: seq<seq<int>>, message: seq<int>)
    ensures Concat(messages + [message]) == Concat(messages) + message
  {
    assert (messages + [message])[..|messages|] == messages;
  }

  lemma ChunkExtends(message: seq<int>, position: nat)
    requires position <= |message|
    ensures message[..position] + Chunk(message, position) == SentOf(message, position)
  {
  }

  /** One round of the transmit loop: the next chunk continues the message, or the message is done. */
  lemma TransmitKeepsWriters(s: State, p: int, t: int, message: seq<int>, position: nat)
    requires WritersOkBut(s, p, t, message, position)
    ensures WritersOk(TransmitLoop(s, p, t, message, position))
  {
    hide Concat, WritersOk, WritersOkBut;
    if position < |message| {
      NextChunkKeepsWriters(s, p, t, message, position);
    } else {
      LastChunkKeepsWriters(s, p, t, message, position);
    }
  }

  lemma NextChunkKeepsWriters(s: State, p: int, t: int, message: seq<int>, position: nat)
    requires WritersOkBut(s, p, t, message, position) && position < |message|
    ensures WritersOk(TransmitLoop(s, p, t, message, position))
  {
    hide Concat, Enqueue;
    var tty := TtyOf(s, t);
    var r := TransmitLoop(s, p, t, message, position);
    assert forall u :: u != t ==> TtyOf(r, u) == TtyOf(s, u);
    assert TtyOf(r, t) == tty.(sent := tty.sent + Chunk(message, position));
    assert r.calls == s.calls[p := InTransmit(t, message, position)] && r.asleep == s.asleep + {p};
    ChunkExtends(message, position);
    SentGrows(Concat(tty.finished), message[..position], Chunk(message, position));
    hide Sleep, TransmitLoop, Chunk;
    assert SentNow(r, t) == SentOf(message, position);
    forall u, q | TransmitsOn(r, q, u)
      ensures TtyOf(r, u).writeCurrent == q
    {
      assert q != p ==> TransmitsOn(s, q, u);
    }
    forall u | u != t
      ensures TtyOf(r, u).writeCurrent != 0 ==> TransmitsOn(r, TtyOf(r, u).writeCurrent, u)
      ensures SentNow(r, u) == SentNow(s, u)
      ensures TtyOf(r, u).sent == Concat(TtyOf(r, u).finished) + SentNow(r, u)
    {
      assert TtyOf(r, u) == TtyOf(s, u);
      assert TtyOf(s, u).writeCurrent != 0 ==> TransmitsOn(s, TtyOf(s, u).writeCurrent, u);
    }
  }

  lemma SentGrows(a: seq<int>, b: seq<int>, c: seq<int>)
    ensures a + b + c == a + (b + c)
  {
  }

  lemma LastChunkKeepsWriters(s: State, p: int, t: int, message: seq<int>, position: nat)
    requires WritersOkBut(s, p, t, message, position) && position >= |message|
    ensures WritersOk(TransmitLoop(s, p, t, message, position))
  {
    hide Concat;
    var tty := TtyOf(s, t);
    var r := TransmitLoop(s, p, t, message, position);
    assert forall u :: u != t ==> TtyOf(r, u) == TtyOf(s, u);
    assert TtyOf(r, t) == tty.(writeCurrent := 0, finished := tty.finished + [message]);
    assert r.calls == s.calls[p := User] && r.asleep == s.asleep;
    ConcatOneMore(tty.finished, message);
    assert message[..Min(position, |message|)] == message;
    hide TransmitLoop;
    assert SentNow(r, t) == [];
    forall u, q | TransmitsOn(r, q, u)
      ensures TtyOf(r, u).writeCurrent == q
    {
      assert q != p ==> TransmitsOn(s, q, u);
    }
    forall u | u != t
      ensures TtyOf(r, u).writeCurrent != 0 ==> TransmitsOn(r, TtyOf(r, u).writeCurrent, u)
      ensures SentNow(r, u) == SentNow(s, u)
      ensures TtyOf(r, u).sent == Concat(TtyOf(r, u).finished) + SentNow(r, u)
    {
      assert TtyOf(r, u) == TtyOf(s, u);
      assert TtyOf(s, u).writeCurrent != 0 ==> TransmitsOn(s, TtyOf(s, u).writeCurrent, u);
    }
  }

  /** Nobody waits on account of a process that writes. */
  lemma TransmitKeepsInv(s: State, p: int, t: int, message: seq<int>, position: nat)
    requires QueuesOk(s) && MutexesOk(s) && ReadersOk(s) && WritersOkBut(s, p, t, message, position)
    requires s.calls[p].User? || s.calls[p].InTransmit?
    ensures Inv(TransmitLoop(s, p, t, message, position))
  {
    TransmitKeepsWriters(s, p, t, message, position);
    hide QueuesOk, MutexesOk, ReadersOk, WritersOk, Concat, Sleep;
    var tty := TtyOf(s, t);
    if position < |message| {
      var f := SetTty(s, t, tty.(sent := tty.sent + Chunk(message, position)));
      OutputKeepsRest(s, f, t);
      SleepKeepsQueues(f, p, InTransmit(t, message, position));
      SleepKeepsMutexes(f, p, InTransmit(t, message, position));
      SleepKeepsReaders(f, p, InTransmit(t, message, position));
    } else {
      var f := SetTty(s, t, tty.(writeCurrent := 0, finished := tty.finished + [message]));
      OutputKeepsRest(s, f, t);
      WriterReturns(f, p);
    }
  }

  lemma OutputKeepsRest(s: State, r: State, t: int)
    requires QueuesOk(s) && MutexesOk(s) && ReadersOk(s)
    requires r == SetTty(s, t, TtyOf(r, t))
    requires TtyOf(r, t).buffer == TtyOf(s, t).buffer && TtyOf(r, t).position == TtyOf(s, t).position
    requires TtyOf(r, t).handedOut == TtyOf(s, t).handedOut
    ensures QueuesOk(r) && MutexesOk(r) && ReadersOk(r)
  {
    SetCallKeepsQueues(s, r);
    hide QueuesOk, ReadersOk, MutexesOk;
    assert forall m :: AcquirePending(s, m) ==> AcquirePending(r, m);
    assert forall u :: ReadPending(s, u) ==> ReadPending(r, u);
    MutexesFrame(s, r);
    ReadersFrame(s, r);
  }

  lemma WriterReturns(s: State, p: int)
    requires QueuesOk(s) && MutexesOk(s) && ReadersOk(s) && p > 0 && p in s.calls && p !in s.asleep
    requires s.calls[p].User? || s.calls[p].InTransmit?
    ensures var r := Return(s, p); QueuesOk(r) && MutexesOk(r) && ReadersOk(r)
  {
    var r := Return(s, p);
    SetCallKeepsQueues(s, r);
    hide QueuesOk, MutexesOk, ReadersOk;
    forall m
      ensures AcquirePending(r, m) || (Q(r, MutexQ(m)) == Q(s, MutexQ(m)) && !AcquirePending(s, m))
    {
      if AcquirePending(s, m) {
        var w :| w in s.calls && s.calls[w] == InAcquire(m) && w !in s.asleep;
        assert w in r.calls && r.calls[w] == InAcquire(m) && w !in r.asleep;
      }
    }
    MutexesFrame(s, r);
    forall t
      ensures ReadPending(r, t) || (Q(r, ReadQ(t)) == Q(s, ReadQ(t)) && !ReadPending(s, t))
    {
      if ReadPending(s, t) {
        var w :| w in s.calls && s.calls[w].InRead? && s.calls[w].t == t && w !in s.asleep;
        assert w in r.calls && r.calls[w] == s.calls[w] && w !in r.asleep;
      }
    }
    ReadersFrame(s, r);
  }

  lemma WriteLoopKeepsInv(s: State, p: int, t: int, message: seq<int>)
    requires Inv(s) && p in s.calls && p !in s.asleep && s.calls[p].User?
    ensures Inv(WriteLoop(s, p, t, message))
  {
    var tty := TtyOf(s, t);
    if tty.writeCurrent != 0 {
      hide QueuesOk, MutexesOk, ReadersOk, WritersOk;
      SleepKeepsInv(s, p, InWrite(t, message));
    } else {
      assert p > 0;
      var f := SetTty(s, t, tty.(writeCurrent := p));
      OutputKeepsRest(s, f, t);
      assert forall q :: q in s.calls ==> q > 0;
      hide QueuesOk, MutexesOk, ReadersOk, WaiterOk;
      ClaimedBut(s, p, t, message);
      TransmitKeepsInv(f, p, t, message, 0);
    }
  }

  lemma ClaimedBut(s: State, p: int, t: int, message: seq<int>)
    requires WritersOk(s) && p in s.calls && p !in s.asleep && s.calls[p].User? && TtyOf(s, t).writeCurrent == 0
    requires forall q :: q in s.calls ==> q > 0
    ensures WritersOkBut(SetTty(s, t, TtyOf(s, t).(writeCurrent := p)), p, t, message, 0)
  {
    hide Concat;
    var f := SetTty(s, t, TtyOf(s, t).(writeCurrent := p));
    assert forall u :: u != t ==> TtyOf(f, u) == TtyOf(s, u);
    assert forall u, q :: TransmitsOn(f, q, u) <==> TransmitsOn(s, q, u);
    assert forall u :: u != t ==> SentNow(f, u) == SentNow(s, u);
    assert SentNow(s, t) == [];
    assert message[..0] == [];
    forall u, q | q != p && TransmitsOn(f, q, u)
      ensures TtyOf(f, u).writeCurrent == q
    {
      assert TransmitsOn(s, q, u);
    }
    forall u | u != t
      ensures TtyOf(f, u).sent == Concat(TtyOf(f, u).finished) + SentNow(f, u)
    {
      assert TtyOf(f, u) == TtyOf(s, u);
    }
    forall u | u != t && TtyOf(f, u).writeCurrent != 0
      ensures TtyOf(f, u).writeCurrent != p && TransmitsOn(f, TtyOf(f, u).writeCurrent, u)
    {
      assert TransmitsOn(s, TtyOf(s, u).writeCurrent, u);
    }
    assert TtyOf(f, t).sent == Concat(TtyOf(f, t).finished) + message[..Min(0, |message|)];
  }

  lemma ResumedBut(s: State, p: int)
    requires WritersOk(s) && p > 0 && p in s.calls && p !in s.asleep && s.calls[p].InTransmit?
    ensures WritersOkBut(s, p, s.calls[p].t, s.calls[p].message, s.calls[p].position + TERMINAL_MAX_LINE)
  {
    hide Concat;
    var t := s.calls[p].t;
    assert TransmitsOn(s, p, t);
    assert SentNow(s, t) == SentOf(s.calls[p].message, s.calls[p].position);
    forall u | u != t && TtyOf(s, u).writeCurrent != 0
      ensures TtyOf(s, u).writeCurrent != p
    {
      assert TransmitsOn(s, TtyOf(s, u).writeCurrent, u);
    }
  }

  // ---------- the completion trap ----------

  lemma {:induction false} HardenExclusive(q: seq<Waiter>)
    requires forall i :: 0 <= i < |q| ==> q[i].exclusive
    ensures Harden(q) == q
  {
  }

  /** The transmitting process is at the front, the only node that is not exclusive. */
  lemma TransmitterInFront(s: State, t: int)
    requires Inv(s) && Transmitting(s, t)
    ensures var q, p := Q(s, WriteQ(t)), TtyOf(s, t).writeCurrent;
      && q != [] && q[0] == Waiter(p, false) && p in s.asleep && TransmitsOn(s, p, t)
      && forall i :: 0 < i < |q| ==> q[i].exclusive
  {
    hide MutexesOk, ReadersOk, Concat, SentNow, SentOf, Ordered, NoRepeats;
    var q := Q(s, WriteQ(t));
    var p :| p in s.asleep && p in s.calls && s.calls[p].InTransmit? && s.calls[p].t == t;
    assert TransmitsOn(s, p, t);
    var k :| 0 <= k < |q| && q[k].pid == p;
    assert WaiterOk(s, WriteQ(t), q[k]);
    forall i | 0 <= i < |q| && !q[i].exclusive
      ensures q[i].pid == p
    {
      assert WaiterOk(s, WriteQ(t), q[i]);
      assert TransmitsOn(s, q[i].pid, t);
    }
    OnlyOneInFront(q, k);
  }

  /** Ordered, without repeats, and all nodes that are not exclusive the same: that node is in front. */
  lemma OnlyOneInFront(q: seq<Waiter>, k: nat)
    requires Ordered(q) && NoRepeats(q) && k < |q| && !q[k].exclusive
    requires forall i :: 0 <= i < |q| && !q[i].exclusive ==> q[i].pid == q[k].pid
    ensures k == 0 && forall i :: 0 < i < |q| ==> q[i].exclusive
  {
    assert !q[0].exclusive;
  }

  /** The completion trap wakes exactly the process that issued the transmit: no other writer. */
  lemma CompletionWakesTransmitter(s: State, t: int)
    requires Inv(s) && Transmitting(s, t)
    ensures WriteFinished(s, t).asleep == s.asleep - {TtyOf(s, t).writeCurrent}
    ensures WriteFinished(s, t) == s.(queues := s.queues[WriteQ(t) := Q(s, WriteQ(t))[1..]],
                                      asleep := s.asleep - {TtyOf(s, t).writeCurrent})
  {
    hide Inv, Transmitting, TransmitsOn, Harden, Woken, Pids;
    TransmitterInFront(s, t);
    OnlyFrontIsTaken(Q(s, WriteQ(t)));
  }

  lemma OnlyFrontIsTaken(q: seq<Waiter>)
    requires q != [] && !q[0].exclusive && forall i :: 0 < i < |q| ==> q[i].exclusive
    ensures var h := Harden(q); Woken(h, true) == 1 && h[1..] == q[1..] && Pids(h[..1]) == {q[0].pid}
  {
    HardenExclusive(q[1..]);
    var h := Harden(q);
    assert h == [q[0].(exclusive := true)] + q[1..];
    assert h[..1][0].pid == q[0].pid;
  }

  lemma WriteFinishedKeepsInv(s: State, t: int)
    requires Inv(s) && Transmitting(s, t)
    ensures Inv(WriteFinished(s, t))
  {
    CompletionWakesTransmitter(s, t);
    TransmitterInFront(s, t);
    PopKeepsQueues(s, t);
    hide QueuesOk, MutexesOk, ReadersOk, WritersOk, WriteFinished, Transmitting;
    PopKeepsRest(s, WriteFinished(s, t), TtyOf(s, t).writeCurrent, t);
  }

  /** A transmitting process that wakes up is nobody whom others wait for. */
  lemma PopKeepsRest(s: State, r: State, p: int, t: int)
    requires MutexesOk(s) && ReadersOk(s) && WritersOk(s) && TransmitsOn(s, p, t)
    requires r == s.(queues := s.queues[WriteQ(t) := Q(r, WriteQ(t))], asleep := s.asleep - {p})
    ensures MutexesOk(r) && ReadersOk(r) && WritersOk(r)
  {
    WaitersAsleep(s);
    hide MutexesOk, ReadersOk, WritersOk;
    assert forall id :: id != WriteQ(t) ==> Q(r, id) == Q(s, id);
    forall m
      ensures AcquirePending(s, m) <==> AcquirePending(r, m)
    {
    }
    MutexesFrame(s, r);
    forall u
      ensures ReadPending(s, u) <==> ReadPending(r, u)
    {
    }
    ReadersFrame(s, r);
    WritersFrame(s, r);
  }

  lemma PopKeepsQueues(s: State, t: int)
    requires QueuesOk(s) && Q(s, WriteQ(t)) != []
    ensures QueuesOk(s.(
      queues := s.queues[WriteQ(t) := Q(s, WriteQ(t))[1..]], asleep := s.asleep - {Q(s, WriteQ(t))[0].pid}))
  {
    var q := Q(s, WriteQ(t));
    var r := s.(queues := s.queues[WriteQ(t) := q[1..]], asleep := s.asleep - {q[0].pid});
    DropKeepsOrder(q, 1);
    assert WaiterOk(s, WriteQ(t), q[0]);
    forall id, i | 0 <= i < |Q(r, id)|
      ensures WaiterOk(r, id, Q(r, id)[i])
    {
      assert WaiterOk(s, id, Q(s, id)[if id == WriteQ(t) then i + 1 else i]);
    }
    forall p | p in r.asleep
      ensures p in Pids(Q(r, QueueOf(r.calls[p])))
    {
      if QueueOf(s.calls[p]) == WriteQ(t) {
        var i :| 0 <= i < |q| && q[i].pid == p;
        assert q[1..][i - 1].pid == p;
      }
    }
  }
}
