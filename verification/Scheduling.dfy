/**
  Round-robin scheduling as values: the ring of processes, who is eligible, and which process a call
  to schedule() picks; over runs, that everybody who stays eligible gets its turn and that a process
  that delays itself stays off the processor long enough.  ProcessList.dfy walks the linked ring.
 */
module Scheduling {
  import opened FrameList
  import opened WaitQueueList
  import Ring

  datatype Task = Task(state: ProcessState, wakeUpTime: int)

  /** The processes behind process_head in ring order, the one that runs, and elapsed_clock_ticks. */
  datatype Sched = Sched(ring: seq<int>, tasks: map<int, Task>, current: int, ticks: int)

  predicate Eligible(s: Sched, p: int) {
    p in s.tasks && s.tasks[p].state == PROCESS_RUNNING && s.tasks[p].wakeUpTime <= s.ticks
  }

  /** How many processes the search meets from place i up to place j; a whole round from i to itself. */
  function Distance(n: nat, i: nat, j: nat): (d: nat)
    requires i < n && j < n
    ensures 1 <= d <= n
  {
    if j > i then j - i else n - i + j
  }

  /** The first eligible process behind the current one; the current one itself comes last. */
  predicate PicksAt(s: Sched, i: nat, j: nat)
    requires i < |s.ring| && j < |s.ring|
  {
    && Eligible(s, s.ring[j])
    && forall k :: 0 <= k < |s.ring| && Distance(|s.ring|, i, k) < Distance(|s.ring|, i, j) ==> !Eligible(s, s.ring[k])
  }

  predicate Picks(s: Sched, q: int) {
    exists i, j :: 0 <= i < |s.ring| && 0 <= j < |s.ring| && s.ring[i] == s.current && s.ring[j] == q
      && PicksAt(s, i, j)
  }

  predicate Listed(s: Sched) {
    Distinct(s.ring) && s.current in s.ring && forall p :: p in s.ring ==> p in s.tasks
  }

  /** schedule() has exactly one result when somebody is eligible, and none (it spins) when nobody is. */
  lemma PickIsUnique(s: Sched, q: int, r: int)
    requires Distinct(s.ring) && Picks(s, q) && Picks(s, r)
    ensures q == r
  {
    var i, j :| 0 <= i < |s.ring| && 0 <= j < |s.ring| && s.ring[i] == s.current && s.ring[j] == q && PicksAt(s, i, j);
    var i', k :| 0 <= i' < |s.ring| && 0 <= k < |s.ring| && s.ring[i'] == s.current && s.ring[k] == r
      && PicksAt(s, i', k);
    SamePlace(s, i, j, k);
  }

  lemma SamePlace(s: Sched, i: nat, j: nat, k: nat)
    requires i < |s.ring| && j < |s.ring| && k < |s.ring| && PicksAt(s, i, j) && PicksAt(s, i, k)
    ensures j == k
  {
    assert Distance(|s.ring|, i, j) == Distance(|s.ring|, i, k);
  }

  lemma SomebodyIsPickedIff(s: Sched)
    requires Listed(s)
    ensures (exists q :: Picks(s, q)) <==> exists p :: p in s.ring && Eligible(s, p)
  {
    if p :| p in s.ring && Eligible(s, p) {
      var i :| 0 <= i < |s.ring| && s.ring[i] == s.current;
      var j :| 0 <= j < |s.ring| && s.ring[j] == p;
      var k := Nearest(s, i, j);
      assert Picks(s, s.ring[k]);
    }
  }

  lemma {:induction false} Nearest(s: Sched, i: nat, j: nat) returns (k: nat)
    requires i < |s.ring| && j < |s.ring| && Eligible(s, s.ring[j])
    ensures k < |s.ring| && PicksAt(s, i, k)
    decreases Distance(|s.ring|, i, j)
  {
    if PicksAt(s, i, j) {
      k := j;
    } else {
      var nearer :| 0 <= nearer < |s.ring| && Distance(|s.ring|, i, nearer) < Distance(|s.ring|, i, j)
        && Eligible(s, s.ring[nearer]);
      k := Nearest(s, i, nearer);
    }
  }

  // ---------- steps ----------

  datatype Event =
    | DoTick(next: int)                    // the clock trap
    | DoDelay(n: int, next: int)           // delayProcess with n > 0
    | DoBlock(next: int)                   // putProcessToSleep
    | DoYield(next: int)                   // schedule() as it is, as waitForPID and joinThread call it
    | DoExit(next: int)                    // killProcess of the current process
    | DoWake(p: int)                       // wakeUpProcess
    | DoSpawn(p: int, place: nat)          // forkProcess, createThread
    | DoReap(p: int)                       // releaseProcess

  predicate Schedules(e: Event) {
    e.DoTick? || e.DoDelay? || e.DoBlock? || e.DoYield? || e.DoExit?
  }

  /** The state in which the search looks around; an exiting process is marked only after it. */
  function Prepared(s: Sched, e: Event): Sched
    requires s.current in s.tasks
  {
    match e
    case DoTick(_) => s.(ticks := s.ticks + 1)
    case DoDelay(n, _) => s.(tasks := s.tasks[s.current := s.tasks[s.current].(wakeUpTime := s.ticks + n)])
    case DoBlock(_) => s.(tasks := s.tasks[s.current := s.tasks[s.current].(state := PROCESS_WAITING)])
    case _ => s
  }

  predicate Enabled(s: Sched, e: Event) {
    s.current in s.tasks &&
    match e
    case DoTick(next) => Picks(Prepared(s, e), next)
    case DoDelay(n, next) => n > 0 && Picks(Prepared(s, e), next)
    case DoBlock(next) => Picks(Prepared(s, e), next)
    case DoYield(next) => Picks(Prepared(s, e), next)
    case DoExit(next) => Picks(Prepared(s, e), next)
    case DoWake(p) => p in s.tasks && s.tasks[p].state == PROCESS_WAITING
    case DoSpawn(p, place) => p !in s.tasks && p !in s.ring && place <= |s.ring|
    case DoReap(p) => p in s.tasks && s.tasks[p].state == PROCESS_ZOMBIE && p != s.current
  }

  function Step(s: Sched, e: Event): Sched
    requires Enabled(s, e)
  {
    match e
    case DoTick(next) => Prepared(s, e).(current := next)
    case DoDelay(_, next) => Prepared(s, e).(current := next)
    case DoBlock(next) => Prepared(s, e).(current := next)
    case DoYield(next) => s.(current := next)
    case DoExit(next) =>
      s.(tasks := s.tasks[s.current := s.tasks[s.current].(state := PROCESS_ZOMBIE)], current := next)
    case DoWake(p) => s.(tasks := s.tasks[p := s.tasks[p].(state := PROCESS_RUNNING)])
    case DoSpawn(p, place) =>
      s.(ring := s.ring[..place] + [p] + s.ring[place..], tasks := s.tasks[p := Task(PROCESS_RUNNING, 0)])
    case DoReap(p) => s.(ring := Ring.Without(s.ring, p), tasks := s.tasks - {p})
  }

  predicate Possible(s: Sched, es: seq<Event>)
    decreases es
  {
    es == [] || (Enabled(s, es[0]) && Possible(Step(s, es[0]), es[1..]))
  }

  function Run(s: Sched, es: seq<Event>): Sched
    requires Possible(s, es)
    decreases es
  {
    if es == [] then s else Run(Step(s, es[0]), es[1..])
  }

  // ---------- delay ----------

  lemma {:induction false} TimeGoesOn(s: Sched, es: seq<Event>)
    requires Possible(s, es)
    ensures Run(s, es).ticks >= s.ticks
    decreases es
  {
    hide Picks;
    if es != [] {
      TimeGoesOn(Step(s, es[0]), es[1..]);
    }
  }

  /** Who is not up before its time is not picked before its time, nor is its time moved. */
  lemma StepKeepsAway(s: Sched, e: Event, p: int)
    requires Enabled(s, e) && p in s.tasks && p != s.current && s.tasks[p].wakeUpTime > Step(s, e).ticks
    ensures Step(s, e).current != p
    ensures p in Step(s, e).tasks ==> Step(s, e).tasks[p].wakeUpTime == s.tasks[p].wakeUpTime
  {
  }

  lemma {:induction false} AwayUntilItsTime(s: Sched, es: seq<Event>, p: int, time: int)
    requires Possible(s, es) && p != s.current && (p in s.tasks ==> s.tasks[p].wakeUpTime == time)
    requires NeverSpawned(es, p) && Run(s, es).ticks < time
    ensures Run(s, es).current != p
    decreases es
  {
    if es != [] {
      TimeGoesOn(Step(s, es[0]), es[1..]);
      if p in s.tasks {
        StepKeepsAway(s, es[0], p);
      } else {
        StrangerStaysAway(s, es[0], p);
      }
      hide Enabled, Step;
      AwayUntilItsTime(Step(s, es[0]), es[1..], p, time);
    }
  }

  lemma StrangerStaysAway(s: Sched, e: Event, p: int)
    requires Enabled(s, e) && p !in s.tasks && p != s.current && !(e.DoSpawn? && e.p == p)
    ensures Step(s, e).current != p && p !in Step(s, e).tasks
  {
  }

  /** Process identifiers are not used twice. */
  predicate NeverSpawned(es: seq<Event>, p: int) {
    forall i :: 0 <= i < |es| ==> !(es[i].DoSpawn? && es[i].p == p)
  }

  /** Main result on delays: a process that delays itself by n > 0 ticks is not dispatched again, in any
      run of ticks, blocks, wake-ups, forks and exits, before n ticks have passed. */
  lemma DelaySafety(s: Sched, n: int, next: int, es: seq<Event>)
    requires Enabled(s, DoDelay(n, next)) && Possible(Step(s, DoDelay(n, next)), es) && NeverSpawned(es, s.current)
    ensures var r := Run(Step(s, DoDelay(n, next)), es);
      r.current == s.current ==> r.ticks >= s.ticks + n
  {
    var e := DoDelay(n, next);
    var r := Step(s, e);
    assert !Eligible(Prepared(s, e), s.current);
    assert r.current != s.current;
    if Run(r, es).ticks < s.ticks + n {
      AwayUntilItsTime(r, es, s.current, s.ticks + n);
    }
  }

  /** The clock counts its own traps, and nothing else moves it. */
  lemma {:induction false} TicksAreCounted(s: Sched, es: seq<Event>)
    requires Possible(s, es)
    ensures Run(s, es).ticks == s.ticks + TicksIn(es)
    decreases es
  {
    hide Picks;
    if es != [] {
      TicksAreCounted(Step(s, es[0]), es[1..]);
    }
  }

  function TicksIn(es: seq<Event>): nat {
    if es == [] then 0 else (if es[0].DoTick? then 1 else 0) + TicksIn(es[1..])
  }

  // ---------- who is off the processor, and who is ready ----------

  predicate NeverWoken(es: seq<Event>, p: int) {
    forall i :: 0 <= i < |es| ==> !(es[i].DoWake? && es[i].p == p)
  }

  /** p is not the current process, and waits, has exited, or is gone. */
  predicate Stopped(s: Sched, p: int, state: ProcessState) {
    p != s.current && (p in s.tasks ==> s.tasks[p].state == state)
  }

  lemma StepKeepsStopped(s: Sched, e: Event, p: int, state: ProcessState)
    requires Enabled(s, e) && Stopped(s, p, state) && (state == PROCESS_WAITING || state == PROCESS_ZOMBIE)
    requires !(e.DoSpawn? && e.p == p) && (e.DoWake? && e.p == p ==> state == PROCESS_ZOMBIE)
    ensures Stopped(Step(s, e), p, state)
  {
  }

  lemma {:induction false} RunKeepsStopped(s: Sched, es: seq<Event>, p: int, state: ProcessState)
    requires Possible(s, es) && Stopped(s, p, state) && NeverSpawned(es, p)
    requires state == PROCESS_ZOMBIE || (state == PROCESS_WAITING && NeverWoken(es, p))
    ensures Stopped(Run(s, es), p, state)
    decreases es
  {
    if es != [] {
      StepKeepsStopped(s, es[0], p, state);
      hide Enabled, Step, Stopped;
      RunKeepsStopped(Step(s, es[0]), es[1..], p, state);
    }
  }

  /** Main result on blocking: a process that blocks is off the processor in every run, of whatever
      ticks, delays, forks and exits, until it is woken. */
  lemma BlockSafety(s: Sched, next: int, es: seq<Event>)
    requires Enabled(s, DoBlock(next)) && Possible(Step(s, DoBlock(next)), es)
    requires NeverSpawned(es, s.current) && NeverWoken(es, s.current)
    ensures var r := Run(Step(s, DoBlock(next)), es);
      r.current != s.current && (s.current in r.tasks ==> r.tasks[s.current].state == PROCESS_WAITING)
  {
    var e := DoBlock(next);
    assert !Eligible(Prepared(s, e), s.current);
    RunKeepsStopped(Step(s, e), es, s.current, PROCESS_WAITING);
  }

  /** An exit finds another process exactly when somebody else is eligible. */
  lemma ExitFindsAnotherIff(s: Sched, next: int)
    requires Listed(s) && Enabled(s, DoExit(next))
    ensures next != s.current <==> exists p :: p in s.ring && p != s.current && Eligible(s, p)
  {
    var i, j :| 0 <= i < |s.ring| && 0 <= j < |s.ring| && s.ring[i] == s.current && s.ring[j] == next
      && PicksAt(s, i, j);
    if p :| p in s.ring && p != s.current && Eligible(s, p) {
      var k :| 0 <= k < |s.ring| && s.ring[k] == p;
      assert Distance(|s.ring|, i, k) < Distance(|s.ring|, i, i);
    }
  }

  /** Who has exited is never dispatched again; nobody can wake it. */
  lemma ExitIsForGood(s: Sched, next: int, es: seq<Event>)
    requires Enabled(s, DoExit(next)) && next != s.current
    requires Possible(Step(s, DoExit(next)), es) && NeverSpawned(es, s.current)
    ensures var r := Run(Step(s, DoExit(next)), es);
      r.current != s.current && (s.current in r.tasks ==> r.tasks[s.current].state == PROCESS_ZOMBIE)
  {
    RunKeepsStopped(Step(s, DoExit(next)), es, s.current, PROCESS_ZOMBIE);
  }

  /** Until it is dispatched nothing changes a running process that is not current. */
  lemma {:induction false} ReadyUntilPicked(s: Sched, es: seq<Event>, p: int)
    requires Possible(s, es) && p != s.current && p in s.tasks && s.tasks[p].state == PROCESS_RUNNING
    requires !Dispatched(s, es, p)
    ensures p in Run(s, es).tasks && Run(s, es).tasks[p] == s.tasks[p]
    decreases es
  {
    if es != [] {
      StepKeepsReady(s, es[0], p);
      hide Enabled, Step;
      ReadyUntilPicked(Step(s, es[0]), es[1..], p);
    }
  }

  lemma StepKeepsReady(s: Sched, e: Event, p: int)
    requires Enabled(s, e) && p != s.current && p in s.tasks && s.tasks[p].state == PROCESS_RUNNING
    ensures p in Step(s, e).tasks && Step(s, e).tasks[p] == s.tasks[p]
    ensures !Schedules(e) ==> Step(s, e).current != p
  {
  }

  /** The other half of the result on delays: until it is dispatched, a process that has delayed itself by
      n ticks is eligible exactly when n ticks have passed. */
  lemma DelayEndsExactly(s: Sched, n: int, next: int, es: seq<Event>)
    requires Enabled(s, DoDelay(n, next)) && s.tasks[s.current].state == PROCESS_RUNNING
    requires Possible(Step(s, DoDelay(n, next)), es) && !Dispatched(Step(s, DoDelay(n, next)), es, s.current)
    ensures Eligible(Run(Step(s, DoDelay(n, next)), es), s.current) <==> TicksIn(es) >= n
  {
    var e := DoDelay(n, next);
    assert !Eligible(Prepared(s, e), s.current);
    ReadyUntilPicked(Step(s, e), es, s.current);
    TicksAreCounted(Step(s, e), es);
  }

  /** And a process that has been woken is eligible, until it is dispatched, exactly from its wake-up time on. */
  lemma WokenIsEligible(s: Sched, p: int, es: seq<Event>)
    requires Enabled(s, DoWake(p)) && p != s.current
    requires Possible(Step(s, DoWake(p)), es) && !Dispatched(Step(s, DoWake(p)), es, p)
    ensures Eligible(Run(Step(s, DoWake(p)), es), p) <==> s.ticks + TicksIn(es) >= s.tasks[p].wakeUpTime
  {
    ReadyUntilPicked(Step(s, DoWake(p)), es, p);
    TicksAreCounted(Step(s, DoWake(p)), es);
  }

  /** A new process is eligible at once; a thread, which stands behind its parent, is the first that the
      parent's next call to schedule() picks, and nobody else changes place or state. */
  lemma SpawnedIsEligible(s: Sched, p: int, place: nat)
    requires Enabled(s, DoSpawn(p, place)) && s.ticks >= 0
    ensures var r := Step(s, DoSpawn(p, place));
      && Eligible(r, p) && r.current == s.current
      && r.ring[place] == p && Ring.Without(r.ring, p) == s.ring
      && (forall q :: q in s.tasks ==> q in r.tasks && r.tasks[q] == s.tasks[q])
      && (place > 0 && s.ring[place - 1] == s.current ==> Picks(r, p))
  {
    var r := Step(s, DoSpawn(p, place));
    assert r.ring[..place] == s.ring[..place];
    SpawnedGone(s.ring, p, place);
    if place > 0 && s.ring[place - 1] == s.current {
      assert r.ring[place - 1] == s.current && Distance(|r.ring|, place - 1, place) == 1;
      assert PicksAt(r, place - 1, place);
    }
  }

  lemma {:induction false} SpawnedGone(ring: seq<int>, p: int, place: nat)
    requires place <= |ring| && p !in ring
    ensures Ring.Without(ring[..place] + [p] + ring[place..], p) == ring
  {
    var all := ring[..place] + [p] + ring[place..];
    if place > 0 {
      SpawnedGone(ring[1..], p, place - 1);
      assert all[1..] == ring[1..][..place - 1] + [p] + ring[1..][place - 1..];
      assert all[0] == ring[0];
    }
  }

  /** A released process is not in the ring any more, and the others keep their order. */
  lemma ReapedIsGone(s: Sched, p: int)
    requires Distinct(s.ring) && Enabled(s, DoReap(p)) && p in s.ring
    ensures var r := Step(s, DoReap(p));
      && p !in r.ring && r.tasks.Keys == s.tasks.Keys - {p} && r.current == s.current
      && exists i :: 0 <= i < |s.ring| && s.ring[i] == p && r.ring == s.ring[..i] + s.ring[i + 1..]
  {
    var i := Ring.WithoutSplits(s.ring, p);
  }

  // ---------- round robin ----------

  /** The ring does not change, and p is eligible whenever somebody looks. */
  predicate Steady(s: Sched, es: seq<Event>, p: int)
    requires Possible(s, es)
    decreases es
  {
    es == [] ||
    (&& !es[0].DoSpawn? && !es[0].DoReap?
     && (Schedules(es[0]) ==> Eligible(Prepared(s, es[0]), p))
     && Steady(Step(s, es[0]), es[1..], p))
  }

  function Calls(es: seq<Event>): nat {
    if es == [] then 0 else (if Schedules(es[0]) then 1 else 0) + Calls(es[1..])
  }

  /** Some call to schedule() in the run picks p. */
  predicate Dispatched(s: Sched, es: seq<Event>, p: int)
    requires Possible(s, es)
    decreases es
  {
    es != [] && ((Schedules(es[0]) && Step(s, es[0]).current == p) || Dispatched(Step(s, es[0]), es[1..], p))
  }

  lemma StepComesNearer(s: Sched, e: Event, i: nat, j: nat)
    requires Distinct(s.ring) && Enabled(s, e) && i < |s.ring| && j < |s.ring| && s.ring[i] == s.current
    requires Schedules(e) && Eligible(Prepared(s, e), s.ring[j])
    ensures Step(s, e).ring == s.ring
    ensures Step(s, e).current != s.ring[j] ==>
      exists k :: 0 <= k < |s.ring| && s.ring[k] == Step(s, e).current
        && Distance(|s.ring|, k, j) < Distance(|s.ring|, i, j)
  {
    hide Distance, Eligible;
    var r := Prepared(s, e);
    var next := Step(s, e).current;
    assert Picks(r, next);
    var a, k :| 0 <= a < |r.ring| && 0 <= k < |r.ring| && r.ring[a] == r.current && r.ring[k] == next
      && PicksAt(r, a, k);
    assert a == i;
    assert Distance(|s.ring|, i, k) <= Distance(|s.ring|, i, j);
    Halfway(|s.ring|, i, j, k);
  }

  lemma Halfway(n: nat, i: nat, j: nat, k: nat)
    requires i < n && j < n && k < n && Distance(n, i, k) <= Distance(n, i, j)
    ensures k == j || Distance(n, k, j) < Distance(n, i, j)
  {
  }

  /** The distance to p is the measure: each call that does not pick p comes nearer to it. */
  lemma {:induction false} DispatchedWithinDistance(s: Sched, es: seq<Event>, i: nat, j: nat)
    requires Distinct(s.ring) && Possible(s, es) && i < |s.ring| && j < |s.ring| && s.ring[i] == s.current
    requires Steady(s, es, s.ring[j]) && Calls(es) >= Distance(|s.ring|, i, j)
    ensures Dispatched(s, es, s.ring[j])
    decreases es
  {
    var e, r := es[0], Step(s, es[0]);
    if !Schedules(e) {
      assert r.ring == s.ring && r.current == s.current;
      DispatchedWithinDistance(r, es[1..], i, j);
    } else {
      StepComesNearer(s, e, i, j);
      if r.current != s.ring[j] {
        var k :| 0 <= k < |s.ring| && s.ring[k] == r.current && Distance(|s.ring|, k, j) < Distance(|s.ring|, i, j);
        DispatchedWithinDistance(r, es[1..], k, j);
      }
    }
  }

  /** Main result on scheduling: on a ring of n processes, one that stays eligible is dispatched within
      n calls to schedule(). */
  lemma RoundRobin(s: Sched, es: seq<Event>, p: int)
    requires Listed(s) && Possible(s, es) && p in s.ring && Steady(s, es, p) && Calls(es) >= |s.ring|
    ensures Dispatched(s, es, p)
  {
    var i :| 0 <= i < |s.ring| && s.ring[i] == s.current;
    var j :| 0 <= j < |s.ring| && s.ring[j] == p;
    DispatchedWithinDistance(s, es, i, j);
  }

  /** The processes picked in a run, in order. */
  function Turns(s: Sched, es: seq<Event>): seq<int>
    requires Possible(s, es)
    decreases es
  {
    if es == [] then []
    else (if Schedules(es[0]) then [Step(s, es[0]).current] else []) + Turns(Step(s, es[0]), es[1..])
  }

  predicate Nearer(s: Sched, q: int, i: nat, j: nat)
    requires i < |s.ring| && j < |s.ring|
  {
    exists k :: 0 <= k < |s.ring| && s.ring[k] == q && Distance(|s.ring|, k, j) < Distance(|s.ring|, i, j)
  }

  /** While p waits for its turn nobody gets two. */
  lemma {:induction false} NobodyTwice(s: Sched, es: seq<Event>, i: nat, j: nat)
    requires Distinct(s.ring) && Possible(s, es) && i < |s.ring| && j < |s.ring| && s.ring[i] == s.current
    requires Steady(s, es, s.ring[j]) && !Dispatched(s, es, s.ring[j])
    ensures forall t :: 0 <= t < |Turns(s, es)| ==> Nearer(s, Turns(s, es)[t], i, j)
    ensures Distinct(Turns(s, es))
    decreases es
  {
    if es != [] {
      var e, r := es[0], Step(s, es[0]);
      if !Schedules(e) {
        assert r.ring == s.ring && r.current == s.current;
        NobodyTwice(r, es[1..], i, j);
      } else {
        StepComesNearer(s, e, i, j);
        var k :| 0 <= k < |s.ring| && s.ring[k] == r.current && Distance(|s.ring|, k, j) < Distance(|s.ring|, i, j);
        NobodyTwice(r, es[1..], k, j);
        TurnsFrom(s, r.current, Turns(r, es[1..]), i, j, k);
      }
    }
  }

  lemma TurnsFrom(s: Sched, first: int, rest: seq<int>, i: nat, j: nat, k: nat)
    requires Distinct(s.ring) && i < |s.ring| && j < |s.ring| && k < |s.ring| && s.ring[k] == first
    requires Distance(|s.ring|, k, j) < Distance(|s.ring|, i, j)
    requires Distinct(rest) && forall t :: 0 <= t < |rest| ==> Nearer(s, rest[t], k, j)
    ensures Distinct([first] + rest) && forall t :: 0 <= t < |rest| + 1 ==> Nearer(s, ([first] + rest)[t], i, j)
  {
    forall t | 0 <= t < |rest|
      ensures rest[t] != first && Nearer(s, rest[t], i, j)
    {
      assert Nearer(s, rest[t], k, j);
    }
  }
}
