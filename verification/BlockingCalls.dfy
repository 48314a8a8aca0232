/**
  The blocking calls in place: mutexes (sync/mutex.c), condition variables (sync/cvar.c) and
  terminals (traps/tty.c) over linked wait queues.  Each method runs one process up to where it
  sleeps or returns, and is proved to be the step of Blocking of the same name.
 */
module BlockingCalls {
  import opened Ring
  import opened WaitQueues
  import opened WaitQueueList
  import opened Blocking
  import opened BlockingRuns
  import opened CallResults

  class BlockingKernel {
    var descriptors: map<int, Descriptor>   // by pid, which stands for the address
    var calls: map<int, Call>               // where the kernel stack of each process says it is
    var queues: map<QueueId, WaitQueue>
    var mutexes: map<int, Mutex>
    const ttys: array<Tty>
    ghost var holders: map<int, set<int>>
    ghost var repr: set<object>

    ghost predicate Valid()
      reads this, repr
    {
      && this in repr && ttys in repr && ttys.Length == NUM_TERMINALS
      && (forall p :: p in descriptors ==> descriptors[p] in repr && descriptors[p].pid == p)
      && (forall id :: id in queues ==> queues[id] in repr && queues[id].repr <= repr && Separate(queues[id].repr))
      && (forall id :: id in queues ==> queues[id].Valid())
      && (forall id, other :: id in queues && other in queues && id != other ==>
            Disjoint(queues[id].repr, queues[other].repr))
      && (forall id, w :: id in queues && w in queues[id].waiters ==> Known(w.process))
    }

    /** A queue's objects are none of the others that change. */
    ghost predicate Separate(objects: set<object>)
      reads this
    {
      this !in objects && ttys !in objects && forall p :: p in descriptors ==> descriptors[p] !in objects
    }

    static ghost predicate Disjoint(a: set<object>, b: set<object>) {
      a !! b
    }

    ghost predicate Known(d: Descriptor)
      reads this
    {
      d.pid in descriptors && descriptors[d.pid] == d
    }

    ghost function Asleep(): set<int>
      reads this, set p | p in descriptors :: descriptors[p]
    {
      set p | p in descriptors && descriptors[p].state == PROCESS_WAITING
    }

    ghost function Terminals(): map<int, Tty>
      reads ttys
    {
      map t | 0 <= t < ttys.Length :: ttys[t]
    }

    ghost function QueuesView(): map<QueueId, seq<Waiter>>
      requires Valid()
      reads this, repr
    {
      map id | id in queues :: queues[id].Contents()
    }

    ghost function View(): State
      requires Valid()
      reads this, repr
    {
      State(calls, Asleep(), QueuesView(), mutexes, Terminals(), holders)
    }

    /** When only one queue has changed, apart from objects that are new. */
    twostate lemma OneQueueChanged(id: QueueId)
      requires old(Valid()) && id in queues && queues == old(queues) && descriptors == old(descriptors)
      requires queues[id].Valid() && fresh(queues[id].repr - old(queues[id].repr))
      requires forall w :: w in queues[id].waiters ==> Known(w.process)
      requires repr == old(repr) + queues[id].repr
      requires forall other :: other in queues && other != id ==>
        unchanged(queues[other]) && unchanged(queues[other].repr)
      ensures Valid() && QueuesView() == old(QueuesView())[id := queues[id].Contents()]
    {
      hide WaitQueue.Valid, WaitQueue.Contents;
      forall other | other in queues && other != id
        ensures queues[other].Valid() && queues[other].Contents() == old(queues[other].Contents())
        ensures queues[other].repr == old(queues[other].repr)
        ensures Disjoint(queues[id].repr, queues[other].repr) && Disjoint(queues[other].repr, queues[id].repr)
      {
        OtherQueueKept(queues[other]);
        assert queues[other].repr <= old(repr);
      }
      hide Disjoint;
    }

    /** addNodeToWaitQueue with a new node. */
    method Queue(id: QueueId, p: int, exclusive: bool)
      requires Valid() && p in descriptors && id in queues
      modifies this`repr, queues[id], queues[id].repr
      ensures Valid() && fresh(repr - old(repr)) && Asleep() == old(Asleep()) && Terminals() == old(Terminals())
      ensures QueuesView() == old(QueuesView())[id := Enqueue(old(QueuesView())[id], Waiter(p, exclusive))]
    {
      hide WaitQueue.Valid, WaitQueue.Contents, Enqueue;
      forall other | other in queues { queues[other].InRepr(); }
      queues[id].Enlist(descriptors[p], exclusive);
      repr := repr + queues[id].repr;
      OneQueueChanged(id);
      forall p | p in descriptors
        ensures descriptors[p].state == old(descriptors[p].state)
      {
        assert old(Separate(queues[id].repr));
      }
    }

    /** sleepOnWaitQueueWithOptions, up to schedule(). */
    method SleepOn(p: int, call: Call)
      requires Valid() && p in descriptors && !call.User? && QueueOf(call) in queues
      modifies repr
      ensures Valid() && fresh(repr - old(repr)) && queues == old(queues) && descriptors == old(descriptors)
      ensures View() == old(Sleep(View(), p, call))
    {
      hide Valid, Asleep, QueuesView, Terminals, Enqueue, QueueOf;
      InRepr();
      SeparateFrom(p);
      QueuesSeen();
      Queue(QueueOf(call), p, !call.InTransmit?);
      FallAsleep(p, call);
    }

    /** putProcessToSleep() up to schedule(): the state of the process, and where it stopped. */
    method FallAsleep(p: int, call: Call)
      requires Valid() && p in descriptors
      modifies this`calls, descriptors[p]
      ensures Valid() && calls == old(calls)[p := call] && Asleep() == old(Asleep()) + {p}
      ensures QueuesView() == old(QueuesView()) && Terminals() == old(Terminals())
    {
      hide WaitQueue.Valid, WaitQueue.Contents;
      descriptors[p].state := PROCESS_WAITING;
      calls := calls[p := call];
      SeparateFrom(p);
      QueuesKept();
      forall q | q in descriptors
        ensures q in Asleep() <==> q == p || q in old(Asleep())
      {
        assert descriptors[q].pid == q && (q == p || descriptors[q].state == old(descriptors[q].state));
      }
    }

    lemma QueuesSeen()
      requires Valid()
      ensures QueuesView().Keys == queues.Keys
    {
      hide WaitQueue.Valid, WaitQueue.Contents;
    }

    /** A descriptor belongs to no queue. */
    lemma SeparateFrom(p: int)
      requires Valid() && p in descriptors
      ensures forall id :: id in queues ==>
        this !in queues[id].repr && descriptors[p] !in queues[id].repr && queues[id] in repr && queues[id].repr <= repr
    {
      hide WaitQueue.Valid, WaitQueue.Contents;
      assert forall id :: id in queues ==> Separate(queues[id].repr);
    }

    /** When no queue has changed. */
    twostate lemma QueuesKept()
      requires old(Valid()) && queues == old(queues) && descriptors == old(descriptors) && repr == old(repr)
      requires forall id :: id in queues ==> unchanged(queues[id]) && unchanged(queues[id].repr)
      ensures Valid() && QueuesView() == old(QueuesView())
    {
      hide WaitQueue.Valid, WaitQueue.Contents;
      forall id | id in queues
        ensures queues[id].Valid() && queues[id].Contents() == old(queues[id].Contents())
      {
        OtherQueueKept(queues[id]);
      }
    }

    /** The queue of a signal, and whose state it changes. */
    method WakeWaiters(id: QueueId, exclusively: bool)
      requires Valid() && id in queues
      modifies queues[id], queues[id].repr, Processes(queues[id].waiters)`state
      ensures Valid()
      ensures var q, k := old(QueuesView())[id], Woken(old(QueuesView())[id], exclusively);
        && QueuesView() == old(QueuesView())[id := q[k..]] && Terminals() == old(Terminals())
        && k <= |old(queues[id].waiters)|
        && forall p :: p in descriptors ==>
             descriptors[p].state ==
               if descriptors[p] in Processes(old(queues[id].waiters)[..k]) then PROCESS_RUNNING
                 else old(descriptors[p].state)
    {
      hide WaitQueue.Valid, WaitQueue.Contents, Woken;
      forall other | other in queues { queues[other].InRepr(); }
      queues[id].NodesInRepr();
      ghost var k := Woken(queues[id].Contents(), exclusively);
      queues[id].Signal(exclusively);
      OneQueueChanged(id);
      forall p | p in descriptors
        ensures descriptors[p] !in Processes(old(queues[id].waiters)) ==>
          descriptors[p].state == old(descriptors[p].state)
      {
        assert old(Separate(queues[id].repr));
      }
    }

    /** A waiter that has the number of a process is that process. */
    lemma WaitersKnown(id: QueueId)
      requires Valid() && id in queues
      ensures forall p, w :: p in descriptors && w in queues[id].waiters && w.process.pid == p ==>
        w.process == descriptors[p]
      ensures forall p :: p in descriptors ==> descriptors[p].pid == p
    {
      hide WaitQueue.Valid, WaitQueue.Contents;
      assert forall w :: w in queues[id].waiters ==> Known(w.process);
    }

    /** signalWaitQueueWithOptions */
    method SignalOn(id: QueueId, exclusively: bool)
      requires Valid() && id in queues
      modifies repr
      ensures Valid() && repr == old(repr) && queues == old(queues) && descriptors == old(descriptors)
      ensures View() == old(Wake(View(), id, exclusively))
    {
      hide Valid, WaitQueue.Contents, Woken, Pids, Processes, QueuesView, Terminals;
      ghost var q, all := queues[id].Contents(), queues[id].waiters;
      ghost var k := Woken(q, exclusively);
      InRepr();
      QueuesSeen();
      QueueInRepr(id);
      WaitersKnown(id);
      forall p | p in descriptors
        ensures p in Pids(q[..k]) <==> descriptors[p] in Processes(all[..k])
      {
        PidAmong(q[..k], all[..k], descriptors[p]);
      }
      WakeWaiters(id, exclusively);
      forall p | p in descriptors
        ensures p in Asleep() <==> p in old(Asleep()) && p !in Pids(q[..k])
      {
      }
    }

    lemma QueueInRepr(id: QueueId)
      requires Valid() && id in queues
      ensures queues[id] in repr && queues[id].repr <= repr && this !in queues[id].repr && ttys !in queues[id].repr
      ensures QueuesView()[id] == queues[id].Contents()
      ensures forall d :: d in Processes(queues[id].waiters) ==> d in repr
    {
      hide WaitQueue.Valid, WaitQueue.Contents;
      assert Separate(queues[id].repr);
      assert forall w :: w in queues[id].waiters ==> Known(w.process);
    }

    /** A write to the kernel's own fields, or to a terminal, leaves queues and descriptors alone. */
    twostate lemma FieldsChanged()
      requires old(Valid()) && queues == old(queues) && descriptors == old(descriptors) && repr == old(repr)
      requires forall o :: o in repr && o != this && o != ttys ==> unchanged(o)
      ensures Valid() && QueuesView() == old(QueuesView()) && Asleep() == old(Asleep())
    {
      hide WaitQueue.Valid, WaitQueue.Contents;
      QueuesKept();
      forall p | p in descriptors
        ensures descriptors[p].state == old(descriptors[p].state)
      {
        assert unchanged(descriptors[p]);
      }
    }

    lemma TerminalSeen(t: int)
      requires Valid() && ValidTty(t)
      ensures ttys.Length == NUM_TERMINALS && TtyOf(View(), t) == ttys[t]
    {
    }

    lemma InRepr()
      requires Valid()
      ensures this in repr && ttys in repr && (forall p :: p in descriptors ==> descriptors[p] in repr)
    {
    }

    /** A call returns, or one of its steps does not move the process: only its program counter is set. */
    method SetCall(p: int, call: Call)
      requires Valid()
      modifies this`calls
      ensures Valid() && View() == old(View().(calls := View().calls[p := call]))
    {
      calls := calls[p := call];
      FieldsChanged();
    }

    /** Nobody is there, and there are no queues yet. */
    constructor ()
      ensures Valid() && fresh(repr) && Initial(View())
    {
      descriptors, calls, queues, mutexes, holders := map[], map[], map[], map[], map[];
      ttys := new Tty[NUM_TERMINALS](_ => NEW_TTY);
      new;
      repr := {this, ttys};
      assert QueuesView() == map[];
    }

    /** What the boot code does for the terminals. */
    method InitializeTerminals()
      requires Valid() && Initial(View())
      modifies this`queues, this`repr
      ensures Valid() && fresh(repr - old(repr)) && Initial(View())
      ensures forall t :: ValidTty(t) ==> ReadQ(t) in queues && WriteQ(t) in queues
    {
      hide Valid, View, Initial, QueuesView;
      var t := 0;
      while t < NUM_TERMINALS
        invariant 0 <= t <= NUM_TERMINALS
        invariant Valid() && fresh(repr - old(repr)) && Initial(View())
        invariant forall u :: 0 <= u < t ==> ReadQ(u) in queues && WriteQ(u) in queues
      {
        EmptyQueueKeepsInitial(View(), WriteQ(t));
        AddQueue(WriteQ(t));
        EmptyQueueKeepsInitial(View(), ReadQ(t));
        AddQueue(ReadQ(t));
        t := t + 1;
      }
    }

    /** waitQueueInit; only the terminals' queues are there from the start. */
    method AddQueue(id: QueueId)
      requires Valid()
      modifies this`queues, this`repr
      ensures Valid() && fresh(repr - old(repr))
      ensures View() == old(View().(queues := View().queues[id := []]))
      ensures queues.Keys == old(queues).Keys + {id}
    {
      hide WaitQueue.Valid, WaitQueue.Contents;
      var queue := new WaitQueue();
      queue.InRepr();
      assert queue.waiters == [];
      queues := queues[id := queue];
      repr := repr + queue.repr;
      QueueAdded(id);
      hide Valid;
      OneMoreSeen(id);
      assert Asleep() == old(Asleep());
    }

    twostate lemma OneMoreSeen(id: QueueId)
      requires old(Valid()) && Valid() && id in queues && queues == old(queues)[id := queues[id]]
      requires queues[id].Contents() == []
      requires forall other :: other in queues && other != id ==>
        queues[other].Contents() == old(queues[other].Contents())
      ensures QueuesView() == old(QueuesView())[id := []]
    {
      hide Valid, WaitQueue.Valid, WaitQueue.Contents;
    }

    /** When a new, empty queue has been put in. */
    twostate lemma QueueAdded(id: QueueId)
      requires old(Valid()) && id in queues && queues == old(queues)[id := queues[id]]
        && descriptors == old(descriptors)
      requires fresh(queues[id]) && fresh(queues[id].repr) && queues[id].Valid() && queues[id].Contents() == []
      requires queues[id] in queues[id].repr && repr == old(repr) + queues[id].repr
      requires forall o :: o in old(repr) && o != this ==> unchanged(o)
      ensures Valid()
      ensures forall other :: other in queues && other != id ==>
        queues[other].Contents() == old(queues[other].Contents())
    {
      hide WaitQueue.Valid, WaitQueue.Contents;
      forall other | other in queues && other != id
        ensures queues[other].Valid() && queues[other].Contents() == old(queues[other].Contents())
        ensures queues[other].repr == old(queues[other].repr)
        ensures Disjoint(queues[id].repr, queues[other].repr) && Disjoint(queues[other].repr, queues[id].repr)
      {
        OtherQueueKept(queues[other]);
        assert queues[other].repr <= old(repr);
      }
      forall other | other in queues
        ensures Separate(queues[other].repr)
      {
        assert other != id ==> old(Separate(queues[other].repr));
      }
      hide Separate, Disjoint;
    }

    /** mutexInitialize, given the identifier of the resource. */
    method MutexInitialize(m: int)
      requires Valid()
      modifies this`queues, this`repr, this`mutexes
      ensures Valid() && fresh(repr - old(repr)) && MutexQ(m) in queues
      ensures View() ==
        old(View().(queues := View().queues[MutexQ(m) := []], mutexes := View().mutexes[m := Mutex(false, 0)]))
    {
      AddQueue(MutexQ(m));
      label added:
      mutexes := mutexes[m := Mutex(false, 0)];
      FieldsChanged@added();
    }

    // ---------- mutexes ----------

    /** The loop of mutexAcquire, from its test to sleeping or to the return. */
    method AcquireLoop(p: int, m: int)
      requires Valid() && p in descriptors && m in mutexes && MutexQ(m) in queues
      modifies repr
      ensures Valid() && fresh(repr - old(repr)) && queues == old(queues) && descriptors == old(descriptors)
      ensures View() == old(Blocking.AcquireLoop(View(), p, m))
    {
      if mutexes[m].locked {
        SleepOn(p, InAcquire(m));
      } else {
        mutexes := mutexes[m := Mutex(true, p)];
        holders := holders[m := (if m in holders then holders[m] else {}) + {p}];
        FieldsChanged();
        SetCall(p, User);
      }
    }

    /** mutexAcquire */
    method Acquire(p: int, m: int)
      requires Valid() && p in descriptors && m in mutexes && MutexQ(m) in queues
      modifies repr
      ensures Valid() && fresh(repr - old(repr)) && queues == old(queues) && descriptors == old(descriptors)
      ensures View() == old(Blocking.Acquire(View(), p, m))
    {
      if mutexes[m].owner == p {
        SetCall(p, User);
        return;
      }
      AcquireLoop(p, m);
    }

    /** mutexRelease */
    method Release(p: int, m: int)
      requires Valid() && m in mutexes && MutexQ(m) in queues
      modifies repr
      ensures Valid() && repr == old(repr) && queues == old(queues) && descriptors == old(descriptors)
      ensures View() == old(Blocking.Release(View(), p, m))
    {
      mutexes := mutexes[m := Mutex(false, 0)];
      holders := holders[m := (if m in holders then holders[m] else {}) - {p}];
      FieldsChanged();
      SignalOn(MutexQ(m), true);
    }

    // ---------- condition variables ----------

    /** cvarWait, up to its sleep. */
    method CvarWait(p: int, c: int, m: int)
      requires Valid() && p in descriptors && m in mutexes && MutexQ(m) in queues && CvarQ(c) in queues
      modifies repr
      ensures Valid() && fresh(repr - old(repr)) && queues == old(queues) && descriptors == old(descriptors)
      ensures View() == old(Blocking.Wait(View(), p, c, m))
    {
      Release(p, m);
      SleepOn(p, InWait(c, m));
    }

    method CvarSignal(c: int)
      requires Valid() && CvarQ(c) in queues
      modifies repr
      ensures Valid() && queues == old(queues) && descriptors == old(descriptors)
      ensures View() == old(Wake(View(), CvarQ(c), true))
    {
      SignalOn(CvarQ(c), true);
    }

    method CvarBroadcast(c: int)
      requires Valid() && CvarQ(c) in queues
      modifies repr
      ensures Valid() && queues == old(queues) && descriptors == old(descriptors)
      ensures View() == old(Wake(View(), CvarQ(c), false))
    {
      SignalOn(CvarQ(c), false);
    }

    // ---------- terminals ----------

    /** A terminal's struct is written in place. */
    method SetTerminal(t: int, tty: Tty)
      requires Valid() && ValidTty(t)
      modifies ttys
      ensures Valid() && View() == old(View().(ttys := View().ttys[t := tty]))
    {
      ttys[t] := tty;
      FieldsChanged();
    }

    /** ttyRead from its loop on; what is read is what the caller's buffer gets. */
    method TtyRead(p: int, t: int, length: nat) returns (got: seq<int>)
      requires Valid() && p in descriptors && ValidTty(t) && ReadQ(t) in queues
      modifies repr
      ensures Valid() && fresh(repr - old(repr)) && queues == old(queues) && descriptors == old(descriptors)
      ensures View() == old(ReadLoop(View(), p, t, length))
      ensures !old(HasUnread(ttys[t])) ==> got == []
      ensures old(HasUnread(ttys[t])) ==> Reads(old(ttys[t]), length, got)
    {
      TerminalSeen(t);
      InRepr();
      hide Valid, View, Asleep, QueuesView, Terminals, Sleep, Wake, Reads;
      var tty := ttys[t];
      if !HasUnread(tty) {
        SleepOn(p, InRead(t, length));
        return [];
      }
      var left := |tty.buffer.bytes| - tty.position;
      var n := if left > length then length else left;
      got := tty.buffer.bytes[tty.position..tty.position + n];
      assert got == Taken(tty, length);
      var next := tty.(position := tty.position + n, handedOut := tty.handedOut + got);
      assert next == AfterRead(tty, length);
      TakenIs(tty, length);
      hide Taken, AfterRead;
      FinishRead(p, t, next);
    }

    /** The end of ttyRead: the position is moved and the next reader woken. */
    method FinishRead(p: int, t: int, tty: Tty)
      requires Valid() && ValidTty(t) && ReadQ(t) in queues
      modifies repr
      ensures Valid() && repr == old(repr) && queues == old(queues) && descriptors == old(descriptors)
      ensures View() == old(Wake(Return(View(), p).(ttys := View().ttys[t := tty]), ReadQ(t), true))
      ensures TtyOf(View(), t) == tty
    {
      InRepr();
      hide Valid, View, Asleep, QueuesView, Terminals;
      SetTerminal(t, tty);
      SetCall(p, User);
      SignalOn(ReadQ(t), true);
    }

    /** ttyReadBegin */
    method TtyReadBegin(t: int, bytes: seq<int>)
      requires Valid() && (ValidTty(t) ==> ReadQ(t) in queues)
      modifies repr
      ensures Valid() && queues == old(queues) && descriptors == old(descriptors)
      ensures View() == if ValidTty(t) then old(LineArrives(View(), t, bytes)) else old(View())
    {
      if t >= NUM_TERMINALS || t < 0 { return; }
      SetTerminal(t, ttys[t].(buffer := Line(bytes), position := 0, handedOut := []));
      SignalOn(ReadQ(t), true);
    }

    /** The loop of ttyWrite from its test: TtyTransmit takes the chunk, and the caller sleeps in front. */
    method TransmitLoop(p: int, t: int, message: seq<int>, position: nat)
      requires Valid() && p in descriptors && ValidTty(t) && WriteQ(t) in queues
      modifies repr
      ensures Valid() && fresh(repr - old(repr)) && queues == old(queues) && descriptors == old(descriptors)
      ensures View() == old(Blocking.TransmitLoop(View(), p, t, message, position))
    {
      hide Valid, View, Asleep, QueuesView, Terminals, Sleep;
      TerminalSeen(t);
      InRepr();
      var tty := ttys[t];
      if position < |message| {
        var left := |message| - position;
        var n := if left > TERMINAL_MAX_LINE then TERMINAL_MAX_LINE else left;
        var chunk := message[position..position + n];
        assert chunk == Chunk(message, position);
        hide Chunk;
        SetTerminal(t, tty.(sent := tty.sent + chunk));
        SleepOn(p, InTransmit(t, message, position));
      } else {
        SetTerminal(t, tty.(writeCurrent := 0, finished := tty.finished + [message]));
        SetCall(p, User);
      }
    }

    /** ttyWrite from its loop on. */
    method TtyWrite(p: int, t: int, message: seq<int>)
      requires Valid() && p in descriptors && ValidTty(t) && WriteQ(t) in queues
      modifies repr
      ensures Valid() && fresh(repr - old(repr)) && queues == old(queues) && descriptors == old(descriptors)
      ensures View() == old(WriteLoop(View(), p, t, message))
    {
      if ttys[t].writeCurrent != 0 {
        SleepOn(p, InWrite(t, message));
        return;
      }
      SetTerminal(t, ttys[t].(writeCurrent := p));
      TransmitLoop(p, t, message, 0);
    }

    /** ttyWriteFinished */
    method TtyWriteFinished(t: int)
      requires Valid() && (ValidTty(t) ==> WriteQ(t) in queues)
      modifies repr
      ensures Valid() && queues == old(queues) && descriptors == old(descriptors)
      ensures View() == if ValidTty(t) then old(WriteFinished(View(), t)) else old(View())
    {
      if t >= NUM_TERMINALS || t < 0 { return; }
      hide WaitQueue.Valid, WaitQueue.Contents, Woken, Harden;
      var id := WriteQ(t);
      forall other | other in queues { queues[other].InRepr(); }
      queues[id].HardenFront();
      OneQueueChanged(id);
      assert Asleep() == old(Asleep()) && Terminals() == old(Terminals());
      SignalOn(id, true);
    }

    /** Goes on with a process that was woken up. */
    method Resume(p: int)
      requires Valid() && p in descriptors && p in calls && calls[p] != User && QueueOf(calls[p]) in queues
      requires (calls[p].InAcquire? || calls[p].InWait?) ==> calls[p].m in mutexes && MutexQ(calls[p].m) in queues
      requires (calls[p].InRead? || calls[p].InWrite? || calls[p].InTransmit?) ==> ValidTty(calls[p].t)
      modifies repr
      ensures Valid() && fresh(repr - old(repr)) && queues == old(queues) && descriptors == old(descriptors)
      ensures View() == old(Blocking.Resume(View(), p))
    {
      hide Valid, Asleep, QueuesView, Terminals, Blocking.AcquireLoop, Blocking.Acquire, ReadLoop, WriteLoop,
        Blocking.TransmitLoop;
      match calls[p]
      case InAcquire(m) => AcquireLoop(p, m);
      case InWait(_, m) => Acquire(p, m);
      case InRead(t, length) => var _ := TtyRead(p, t, length);
      case InWrite(t, message) => TtyWrite(p, t, message);
      case InTransmit(t, message, position) => TransmitLoop(p, t, message, position + TERMINAL_MAX_LINE);
    }
  }

  lemma EmptyQueueKeepsInitial(s: State, id: QueueId)
    requires Initial(s)
    ensures Initial(s.(queues := s.queues[id := []]))
  {
    var r := s.(queues := s.queues[id := []]);
    assert forall other :: other != id ==> Q(r, other) == Q(s, other);
    assert forall m :: MutexOf(r, m) == MutexOf(s, m) && Holders(r, m) == Holders(s, m);
    assert forall t :: TtyOf(r, t) == TtyOf(s, t);
  }

  /** A descriptor is among the processes of the waiters when its pid is among theirs. */
  lemma PidAmong(q: seq<Waiter>, waiters: seq<WaitQueueNode>, d: Descriptor)
    requires |q| == |waiters| && forall i :: 0 <= i < |q| ==> q[i].pid == waiters[i].process.pid
    requires forall w :: w in waiters && w.process.pid == d.pid ==> w.process == d
    ensures d.pid in Pids(q) <==> d in Processes(waiters)
  {
    if d in Processes(waiters) {
      var i :| 0 <= i < |waiters| && waiters[i].process == d;
      assert q[i].pid == d.pid;
    }
    if d.pid in Pids(q) {
      var i :| 0 <= i < |q| && q[i].pid == d.pid;
      assert waiters[i] in waiters;
    }
  }

  twostate lemma OtherQueueKept(queue: WaitQueue)
    requires old(queue.Valid()) && unchanged(queue) && unchanged(queue.repr)
    ensures queue.Valid() && queue.Contents() == old(queue.Contents())
  {
  }
}
