/**
  Blocking system calls over a non-preemptive kernel.  A process gives up the processor only inside
  schedule(), so every call is cut there: a step runs one process from where it stopped to where it
  sleeps or returns, and any process that is awake may take the next step.
 */
module Blocking {
  import opened WaitQueues

  const NUM_TERMINALS: int := 4
  const TERMINAL_MAX_LINE: nat := 1024

  datatype QueueId = MutexQ(m: int) | CvarQ(c: int) | ReadQ(t: int) | WriteQ(t: int)

  /** Where in the kernel a process is; asleep there or, after a wake-up, about to go on from there. */
  datatype Call =
    | User
    | InAcquire(m: int)                                  // mutexAcquire, in its loop
    | InWait(c: int, m: int)                             // cvarWait, on the variable's queue
    | InRead(t: int, length: nat)                        // ttyRead, in its loop
    | InWrite(t: int, message: seq<int>)                 // ttyWrite, waiting for the terminal
    | InTransmit(t: int, message: seq<int>, position: nat)  // ttyWrite, after TtyTransmit

  datatype Mutex = Mutex(locked: bool, owner: int)       // owner 0 is the null pointer

  datatype Line = NoLine | Line(bytes: seq<int>)

  /** A terminal, with the history of its output: everything transmitted, and the messages of the
      calls to ttyWrite that have returned. */
  datatype Tty = Tty(
    writeCurrent: int, buffer: Line, position: nat,
    sent: seq<int>, finished: seq<seq<int>>, handedOut: seq<int>)

  const NEW_TTY := Tty(0, NoLine, 0, [], [], [])

  datatype State = State(
    calls: map<int, Call>,
    asleep: set<int>,                    // state is PROCESS_WAITING
    queues: map<QueueId, seq<Waiter>>,
    mutexes: map<int, Mutex>,
    ttys: map<int, Tty>,
    holders: map<int, set<int>>)         // history: acquired and not yet released

  function Q(s: State, id: QueueId): seq<Waiter> {
    if id in s.queues then s.queues[id] else []
  }

  function MutexOf(s: State, m: int): Mutex {
    if m in s.mutexes then s.mutexes[m] else Mutex(false, 0)
  }

  function TtyOf(s: State, t: int): Tty {
    if t in s.ttys then s.ttys[t] else NEW_TTY
  }

  function Holders(s: State, m: int): set<int> {
    if m in s.holders then s.holders[m] else {}
  }

  function QueueOf(call: Call): QueueId
    requires !call.User?
  {
    match call
    case InAcquire(m) => MutexQ(m)
    case InWait(c, _) => CvarQ(c)
    case InRead(t, _) => ReadQ(t)
    case InWrite(t, _) => WriteQ(t)
    case InTransmit(t, _, _) => WriteQ(t)
  }

  // ---------- sleeping and signalling ----------

  /** sleepOnWaitQueueWithOptions up to schedule(). */
  function Sleep(s: State, p: int, call: Call): State
    requires !call.User?
  {
    var id := QueueOf(call);
    s.(calls := s.calls[p := call],
       asleep := s.asleep + {p},
       queues := s.queues[id := Enqueue(Q(s, id), Waiter(p, !call.InTransmit?))])
  }

  /** signalWaitQueueWithOptions. */
  function Wake(s: State, id: QueueId, exclusively: bool): State {
    var k := Woken(Q(s, id), exclusively);
    s.(queues := s.queues[id := Q(s, id)[k..]], asleep := s.asleep - Pids(Q(s, id)[..k]))
  }

  function Return(s: State, p: int): State {
    s.(calls := s.calls[p := User])
  }

  // ---------- mutexes and condition variables ----------

  /** The loop of mutexAcquire, from its test to sleeping or to the return. */
  function AcquireLoop(s: State, p: int, m: int): State {
    if MutexOf(s, m).locked then
      Sleep(s, p, InAcquire(m))
    else
      Return(s, p).(mutexes := s.mutexes[m := Mutex(true, p)], holders := s.holders[m := Holders(s, m) + {p}])
  }

  function Acquire(s: State, p: int, m: int): State {
    if MutexOf(s, m).owner == p then Return(s, p) else AcquireLoop(s, p, m)
  }

  /** mutexRelease: it does not ask who calls. */
  function Release(s: State, p: int, m: int): State {
    Wake(s.(mutexes := s.mutexes[m := Mutex(false, 0)], holders := s.holders[m := Holders(s, m) - {p}]), MutexQ(m),
      true)
  }

  /** cvarWait up to its sleep: nobody else runs between the release and the sleep. */
  function Wait(s: State, p: int, c: int, m: int): State {
    Sleep(Release(s, p, m), p, InWait(c, m))
  }

  // ---------- terminals ----------

  predicate HasUnread(tty: Tty) {
    tty.buffer.Line? && tty.position < |tty.buffer.bytes|
  }

  function Min(a: int, b: int): int {
    if a <= b then a else b
  }

  /** What a read takes from the line that is there. */
  function Taken(tty: Tty, length: nat): seq<int>
    requires HasUnread(tty)
  {
    tty.buffer.bytes[tty.position..tty.position + Min(|tty.buffer.bytes| - tty.position, length)]
  }

  function AfterRead(tty: Tty, length: nat): Tty
    requires HasUnread(tty)
  {
    tty.(position := tty.position + |Taken(tty, length)|, handedOut := tty.handedOut + Taken(tty, length))
  }

  /** The loop of ttyRead and what follows it. */
  function ReadLoop(s: State, p: int, t: int, length: nat): State {
    var tty := TtyOf(s, t);
    if !HasUnread(tty) then
      Sleep(s, p, InRead(t, length))
    else
      Wake(Return(s, p).(ttys := s.ttys[t := AfterRead(tty, length)]), ReadQ(t), true)
  }

  /** The chunk of a message that starts at a position. */
  function Chunk(message: seq<int>, position: nat): seq<int>
    requires position <= |message|
  {
    message[position..Min(position + TERMINAL_MAX_LINE, |message|)]
  }

  /** The loop of ttyWrite from its test: transmit a chunk and sleep at the front, or finish. */
  function TransmitLoop(s: State, p: int, t: int, message: seq<int>, position: nat): State {
    var tty := TtyOf(s, t);
    if position < |message| then
      Sleep(s.(ttys := s.ttys[t := tty.(sent := tty.sent + Chunk(message, position))]), p,
        InTransmit(t, message, position))
    else
      Return(s, p).(ttys := s.ttys[t := tty.(writeCurrent := 0, finished := tty.finished + [message])])
  }

  function WriteLoop(s: State, p: int, t: int, message: seq<int>): State {
    var tty := TtyOf(s, t);
    if tty.writeCurrent != 0 then
      Sleep(s, p, InWrite(t, message))
    else
      TransmitLoop(s.(ttys := s.ttys[t := tty.(writeCurrent := p)]), p, t, message, 0)
  }

  /** The completion trap of a transmit. */
  function WriteFinished(s: State, t: int): State {
    Wake(s.(queues := s.queues[WriteQ(t) := Harden(Q(s, WriteQ(t)))]), WriteQ(t), true)
  }

  /** The trap of an arriving line. */
  function LineArrives(s: State, t: int, bytes: seq<int>): State {
    Wake(s.(ttys := s.ttys[t := TtyOf(s, t).(buffer := Line(bytes), position := 0, handedOut := [])]), ReadQ(t), true)
  }

  // ---------- steps ----------

  datatype Event =
    | DoSpawn(p: int)
    | DoAcquire(p: int, m: int)
    | DoRelease(p: int, m: int)
    | DoWait(p: int, c: int, m: int)
    | DoSignal(p: int, c: int)
    | DoBroadcast(p: int, c: int)
    | DoRead(p: int, t: int, length: nat)
    | DoWrite(p: int, t: int, message: seq<int>)
    | DoResume(p: int)
    | DoLine(t: int, bytes: seq<int>)
    | DoTransmitted(t: int)

  predicate InUser(s: State, p: int) {
    p in s.calls && p !in s.asleep && s.calls[p] == User
  }

  predicate ValidTty(t: int) {
    0 <= t < NUM_TERMINALS
  }

  /** A transmit is outstanding while its process sleeps. */
  predicate Transmitting(s: State, t: int) {
    exists p :: p in s.asleep && p in s.calls && s.calls[p].InTransmit? && s.calls[p].t == t
  }

  predicate Enabled(s: State, e: Event) {
    match e
    case DoSpawn(p) => p > 0 && p !in s.calls
    case DoResume(p) => p in s.calls && p !in s.asleep && s.calls[p] != User
    case DoLine(t, _) => true
    case DoTransmitted(t) => Transmitting(s, t)
    case DoAcquire(p, _) => InUser(s, p)
    case DoRelease(p, _) => InUser(s, p)
    case DoWait(p, _, _) => InUser(s, p)
    case DoSignal(p, _) => InUser(s, p)
    case DoBroadcast(p, _) => InUser(s, p)
    case DoRead(p, _, _) => InUser(s, p)
    case DoWrite(p, _, _) => InUser(s, p)
  }

  function Resume(s: State, p: int): State
    requires p in s.calls && s.calls[p] != User
  {
    match s.calls[p]
    case InAcquire(m) => AcquireLoop(s, p, m)
    case InWait(_, m) => Acquire(s, p, m)
    case InRead(t, length) => ReadLoop(s, p, t, length)
    case InWrite(t, message) => WriteLoop(s, p, t, message)
    case InTransmit(t, message, position) => TransmitLoop(s, p, t, message, position + TERMINAL_MAX_LINE)
  }

  function Step(s: State, e: Event): State
    requires Enabled(s, e)
  {
    match e
    case DoSpawn(p) => Return(s, p)
    case DoAcquire(p, m) => Acquire(s, p, m)
    case DoRelease(p, m) => Release(s, p, m)
    case DoWait(p, c, m) => Wait(s, p, c, m)
    case DoSignal(p, c) => Wake(s, CvarQ(c), true)
    case DoBroadcast(p, c) => Wake(s, CvarQ(c), false)
    case DoRead(p, t, length) => if ValidTty(t) then ReadLoop(s, p, t, length) else s
    case DoWrite(p, t, message) => if ValidTty(t) then WriteLoop(s, p, t, message) else s
    case DoResume(p) => Resume(s, p)
    case DoLine(t, bytes) => if ValidTty(t) then LineArrives(s, t, bytes) else s
    case DoTransmitted(t) => if ValidTty(t) then WriteFinished(s, t) else s
  }
}
