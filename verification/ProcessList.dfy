/**
  The scheduler in place (process/switch.c, process/process.c, traps/traps.c): the search walks the
  linked ring of descriptors, whose head sits in no descriptor and is skipped.
 */
module ProcessList {
  import opened FrameList
  import opened Ring
  import opened WaitQueueList
  import opened Scheduling

  const SUCCESS: int := 0
  const ERROR: int := -1

  class Scheduler {
    const head: ListNode<Descriptor>             // process_head
    var current: ListNode<Descriptor>            // &getCurrentProcess()->process_list
    var elapsedClockTicks: int
    ghost var ring: seq<ListNode<Descriptor>>    // the head, then the processes
    ghost var descriptors: seq<Descriptor>       // the elements of the nodes
    ghost var place: nat                         // where the current process is among them

    /** A ring of one process, which runs. */
    constructor (first: Descriptor)
      ensures Valid() && descriptors == [first] && elapsedClockTicks == 0
    {
      head := new ListNode(None);
      current := new ListNode(Some(first));
      elapsedClockTicks, place := 0, 0;
      new;
      assert IsRing([head]);
      AddLastNode(current, head, [head]);
      assert [head] + [current] == [head, current];
      ring, descriptors := [head, current], [first];
    }

    ghost predicate Valid()
      reads this, ring
    {
      && IsRing(ring) && ring[0] == head && Holds(ring, descriptors)
      && (forall i, j :: 0 <= i < j < |descriptors| ==> descriptors[i].pid != descriptors[j].pid)
      && place < |descriptors| && ring[place + 1] == current
    }

    ghost function View(): Sched
      requires Valid()
      reads this, ring, descriptors
    {
      Sched(
        seq(|descriptors|, i requires 0 <= i < |descriptors| reads this => descriptors[i].pid),
        map d | d in descriptors :: d.pid := Task(d.state, d.wakeUpTime),
        descriptors[place].pid,
        elapsedClockTicks)
    }

    lemma Looks(i: nat)
      requires Valid() && i < |descriptors|
      ensures var d := descriptors[i];
        Eligible(View(), View().ring[i]) <==> d.state == PROCESS_RUNNING && d.wakeUpTime <= elapsedClockTicks
    {
    }

    lemma PlaceInRing()
      requires Valid()
      ensures |ring| == |descriptors| + 1 == |View().ring| + 1 && place < |descriptors| && current == ring[place + 1]
    {
    }

    lemma NodeAt(i: nat)
      requires Valid() && i < |ring|
      ensures ring[i].next == ring[After(i, |ring|)]
      ensures ring[i] == head <==> i == 0
      ensures i > 0 ==> ring[i].element == Some(descriptors[i - 1])
    {
    }

    /** The loop of schedule(); it ends because somebody is eligible, and finds who is next. */
    method Search() returns (node: ListNode<Descriptor>, ghost j: nat)
      requires Valid() && SomebodyEligible(View())
      ensures j < |descriptors| && node == ring[j + 1] && PicksAt(View(), place, j)
    {
      hide Valid, View, Eligible, Distance, NobodyBefore, PicksAt;
      ghost var s, n := View(), |descriptors|;
      PlaceInRing();
      ghost var target :| 0 <= target < n && Eligible(s, s.ring[target]);
      NobodyMet(s, place);
      node := current;
      ghost var i, met := place + 1, 1;   // node is ring[i]; the process behind it is the met-th that the search meets
      while true
        invariant 0 <= i <= n && node == ring[i]
        invariant 1 <= met <= n && Distance(n, place, Behind(i, n)) == met && NobodyBefore(s, place, met)
        decreases n - met, if i == n then 1 else 0
      {
        NodeAt(i);
        node := node.next;
        i := After(i, n + 1);
        NodeAt(i);
        if node == head { continue; }
        assert i > 0 && Distance(n, place, i - 1) == met;
        var process := node.element.value;
        Looks(i - 1);
        if process.state != PROCESS_RUNNING {
          OneMoreMet(s, place, i - 1, target);
          met := met + 1;
          continue;
        }
        if process.wakeUpTime > elapsedClockTicks {
          OneMoreMet(s, place, i - 1, target);
          met := met + 1;
          continue;
        }
        break;
      }
      j := i - 1;
      FirstMet(s, place, j);
    }

    /** schedule(), KernelContextSwitch included. */
    method Schedule()
      requires Valid() && SomebodyEligible(View())
      modifies this`current, this`place
      ensures Valid() && View() == old(View()).(current := View().current)
      ensures Picks(old(View()), View().current)
    {
      hide PicksAt, View, Shows, SomebodyEligible;
      ghost var s := View();
      ViewShows();
      current, place := Search();
      ViewShows();
      ShowsOne(s, View(), descriptors);
    }

    /** The clock trap. */
    method TrapClock()
      requires Valid() && SomebodyEligible(View().(ticks := View().ticks + 1))
      modifies this`current, this`place, this`elapsedClockTicks
      ensures Valid() && Enabled(old(View()), DoTick(View().current))
      ensures View() == Step(old(View()), DoTick(View().current))
    {
      hide Picks, SomebodyEligible;
      ghost var s := View();
      elapsedClockTicks := elapsedClockTicks + 1;
      assert View() == Prepared(s, DoTick(0));
      Schedule();
    }

    lemma CurrentListed()
      requires Valid()
      ensures current.element.Some? && current.element.value in descriptors
      ensures var d := current.element.value;
        && d.pid == View().current && d.pid in View().tasks && View().tasks[d.pid] == Task(d.state, d.wakeUpTime)
      ensures View().ticks == elapsedClockTicks
    {
      assert ring[place + 1].element == Some(descriptors[place]);
      assert descriptors[place] in descriptors;
    }

    /** Writes to the descriptor of the current process. */
    method SetCurrent(state: ProcessState, time: int)
      requires Valid()
      modifies descriptors
      ensures Valid() && View() == old(View().(tasks := View().tasks[View().current := Task(state, time)]))
    {
      CurrentListed();
      var d := current.element.value;
      d.state, d.wakeUpTime := state, time;
    }

    /** A new descriptor behind the i-th member of the ring, the head counting as member 0. */
    method Insert(node: ListNode<Descriptor>, behind: ListNode<Descriptor>, d: Descriptor, ghost i: nat)
      requires Valid() && i < |ring| && ring[i] == behind && node !in ring && node.element == Some(d)
      requires forall k :: 0 <= k < |descriptors| ==> descriptors[k].pid != d.pid
      modifies this`ring, this`descriptors, this`place, node`next, node`prev, ring`next, ring`prev
      ensures Valid() && current == old(current)
      ensures descriptors == old(descriptors[..i]) + [d] + old(descriptors[i..])
      ensures place == if i <= old(place) then old(place) + 1 else old(place)
    {
      PlaceInRing();
      NodeAt(i);
      hide IsRing, Holds;
      HoldsInserted(ring, descriptors, node, d, i);
      PidsInserted(descriptors, d, i);
      InsertNode(node, behind, ring, i);
      ring := ring[..i + 1] + [node] + ring[i + 1..];
      descriptors := descriptors[..i] + [d] + descriptors[i..];
      place := if i <= place then place + 1 else place;
    }

    lemma InsertedView(s: Sched, ds: seq<Descriptor>, d: Descriptor, i: nat)
      requires Valid() && i <= |ds| && descriptors == ds[..i] + [d] + ds[i..] && Shows(s, ds)
      requires s.ticks == elapsedClockTicks && s.current == descriptors[place].pid
      ensures View() == WithTask(s, i, d.pid, Task(d.state, d.wakeUpTime))
    {
      hide Valid, View, Shows;
      ViewShows();
      InsertedRing(s, View(), ds, d, i);
      InsertedTasks(s, View(), ds, d, i);
    }

    lemma ViewShows()
      requires Valid()
      ensures Shows(View(), descriptors) && View().ticks == elapsedClockTicks
        && View().current == descriptors[place].pid
    {
    }

    lemma CurrentPlace()
      requires Valid()
      ensures place < |View().ring| && View().ring[place] == View().current
    {
    }

    lemma LastNode()
      requires Valid()
      ensures head.prev == ring[|ring| - 1] && |ring| - 1 == |View().ring| == |descriptors|
    {
      assert ring[|ring| - 1].next == ring[After(|ring| - 1, |ring|)];
    }

    lemma NotListed(pid: int)
      requires Valid() && forall k :: 0 <= k < |descriptors| ==> descriptors[k].pid != pid
      ensures pid !in View().tasks && pid !in View().ring && View().current in View().tasks
    {
      CurrentListed();
    }

    /** How forkProcess lists a child: last in the ring. */
    method AddProcess(d: Descriptor)
      requires Valid() && d.state == PROCESS_RUNNING && d.wakeUpTime == 0
      requires forall k :: 0 <= k < |descriptors| ==> descriptors[k].pid != d.pid
      modifies this`ring, this`descriptors, this`place, ring`next, ring`prev
      ensures Valid() && Enabled(old(View()), DoSpawn(d.pid, |old(View()).ring|))
      ensures View() == Step(old(View()), DoSpawn(d.pid, |old(View()).ring|))
      ensures View().ring == old(View()).ring + [d.pid]
    {
      hide Valid, View, IsRing, Holds, Enabled, Step;
      PlaceInRing();
      LastNode();
      NotListed(d.pid);
      ViewShows();
      ghost var s, ds := View(), descriptors;
      var node := new ListNode(Some(d));
      Insert(node, head.prev, d, |ring| - 1);
      InsertedView(s, ds, d, |ds|);
      SpawnedAt(s, d.pid, |ds|);
    }

    /** How createThread lists a thread: behind its parent. */
    method AddThread(d: Descriptor)
      requires Valid() && d.state == PROCESS_RUNNING && d.wakeUpTime == 0
      requires forall k :: 0 <= k < |descriptors| ==> descriptors[k].pid != d.pid
      modifies this`ring, this`descriptors, this`place, ring`next, ring`prev
      ensures Valid() && Enabled(old(View()), DoSpawn(d.pid, old(place) + 1))
      ensures View() == Step(old(View()), DoSpawn(d.pid, old(place) + 1))
      ensures old(place) < |old(View()).ring| && old(View()).ring[old(place)] == View().current
      ensures View().ring == old(View()).ring[..old(place) + 1] + [d.pid] + old(View()).ring[old(place) + 1..]
    {
      hide Valid, View, IsRing, Holds, Enabled, Step;
      PlaceInRing();
      NotListed(d.pid);
      ViewShows();
      CurrentPlace();
      ghost var s, ds := View(), descriptors;
      var node := new ListNode(Some(d));
      Insert(node, current, d, place + 1);
      InsertedView(s, ds, d, old(place) + 1);
      SpawnedAt(s, d.pid, old(place) + 1);
    }

    /** putProcessToSleep */
    method PutProcessToSleep()
      requires Valid() && OthersEligible(View())
      modifies this`current, this`place, descriptors
      ensures Valid() && Enabled(old(View()), DoBlock(View().current))
      ensures View() == Step(old(View()), DoBlock(View().current))
      ensures var p := old(View().current);
        View().current != p && p in View().tasks && View().tasks[p].state == PROCESS_WAITING
    {
      hide Valid, View, Picks, SomebodyEligible, OthersEligible;
      ghost var s := View();
      CurrentListed();
      OthersStayEligible(s, DoBlock(0));
      SetCurrent(PROCESS_WAITING, current.element.value.wakeUpTime);
      assert View() == Prepared(s, DoBlock(0));
      hide Prepared, Enabled, Step;
      Schedule();
      BlockedTo(s, View().current);
    }

    /** delayProcess */
    method DelayProcess(ticks: int) returns (status: int)
      requires Valid() && (ticks > 0 ==> OthersEligible(View()))
      modifies this`current, this`place, descriptors
      ensures ticks <= 0 ==> Valid() && View() == old(View()) && status == if ticks == 0 then SUCCESS else ERROR
      ensures ticks > 0 ==> status == SUCCESS && Valid() && Enabled(old(View()), DoDelay(ticks, View().current))
      ensures ticks > 0 ==> View() == Step(old(View()), DoDelay(ticks, View().current))
    {
      hide Valid, View, Picks, SomebodyEligible, OthersEligible;
      if ticks == 0 { return SUCCESS; }
      if ticks < 0 { return ERROR; }
      ghost var s := View();
      CurrentListed();
      OthersStayEligible(s, DoDelay(ticks, 0));
      SetCurrent(current.element.value.state, elapsedClockTicks + ticks);
      assert View() == Prepared(s, DoDelay(ticks, 0));
      hide Prepared, Enabled, Step;
      Schedule();
      DelayedTo(s, ticks, View().current);
      return SUCCESS;
    }
  }

  /** The process behind place i of the ring of n processes and a head. */
  function Behind(i: nat, n: nat): nat {
    if i == n then 0 else i
  }

  /** Nobody whom the search has met before its met-th process is eligible. */
  predicate NobodyBefore(s: Sched, place: nat, met: nat)
    requires place < |s.ring|
  {
    forall k :: 0 <= k < |s.ring| && Distance(|s.ring|, place, k) < met ==> !Eligible(s, s.ring[k])
  }

  lemma NobodyMet(s: Sched, place: nat)
    requires place < |s.ring|
    ensures NobodyBefore(s, place, 1) && Distance(|s.ring|, place, Behind(place + 1, |s.ring|)) == 1
  {
  }

  lemma OneMoreMet(s: Sched, place: nat, k: nat, target: nat)
    requires place < |s.ring| && k < |s.ring| && target < |s.ring| && Eligible(s, s.ring[target])
      && !Eligible(s, s.ring[k])
    requires NobodyBefore(s, place, Distance(|s.ring|, place, k))
    ensures var met := Distance(|s.ring|, place, k);
      && met < |s.ring| && Distance(|s.ring|, place, Behind(k + 1, |s.ring|)) == met + 1
      && NobodyBefore(s, place, met + 1)
  {
    assert Distance(|s.ring|, place, target) > Distance(|s.ring|, place, k);
  }

  lemma FirstMet(s: Sched, place: nat, k: nat)
    requires place < |s.ring| && k < |s.ring| && Eligible(s, s.ring[k])
    requires NobodyBefore(s, place, Distance(|s.ring|, place, k))
    ensures PicksAt(s, place, k)
  {
  }

  /** The ring and the tasks are those of the descriptors. */
  ghost predicate Shows(s: Sched, ds: seq<Descriptor>)
    reads ds
  {
    && |s.ring| == |ds| && (forall i :: 0 <= i < |ds| ==> s.ring[i] == ds[i].pid)
    && (forall d :: d in ds ==> d.pid in s.tasks && s.tasks[d.pid] == Task(d.state, d.wakeUpTime))
    && (forall p :: p in s.tasks ==> exists i :: 0 <= i < |ds| && ds[i].pid == p)
  }

  lemma PidsInserted(ds: seq<Descriptor>, d: Descriptor, i: nat)
    requires i <= |ds| && forall j, k :: 0 <= j < k < |ds| ==> ds[j].pid != ds[k].pid
    requires forall k :: 0 <= k < |ds| ==> ds[k].pid != d.pid
    ensures var all := ds[..i] + [d] + ds[i..];
      forall j, k :: 0 <= j < k < |all| ==> all[j].pid != all[k].pid
  {
  }

  lemma ShowsOne(s: Sched, r: Sched, ds: seq<Descriptor>)
    requires Shows(s, ds) && Shows(r, ds)
    ensures r.ring == s.ring && r.tasks == s.tasks && |s.ring| == |ds| && forall i :: 0 <= i < |ds| ==>
      s.ring[i] == ds[i].pid
  {
    forall p
      ensures p in s.tasks <==> p in r.tasks
      ensures p in s.tasks ==> r.tasks[p] == s.tasks[p]
    {
      if p in s.tasks {
        var k :| 0 <= k < |ds| && ds[k].pid == p;
        assert ds[k] in ds;
      }
      if p in r.tasks {
        var k :| 0 <= k < |ds| && ds[k].pid == p;
        assert ds[k] in ds;
      }
    }
  }

  lemma InsertedRing(s: Sched, r: Sched, ds: seq<Descriptor>, d: Descriptor, i: nat)
    requires i <= |ds| && Shows(s, ds) && Shows(r, ds[..i] + [d] + ds[i..])
    ensures |s.ring| == |ds| && r.ring == s.ring[..i] + [d.pid] + s.ring[i..]
  {
  }

  lemma InsertedTasks(s: Sched, r: Sched, ds: seq<Descriptor>, d: Descriptor, i: nat)
    requires i <= |ds| && Shows(s, ds) && Shows(r, ds[..i] + [d] + ds[i..])
    ensures r.tasks == s.tasks[d.pid := Task(d.state, d.wakeUpTime)]
  {
    var all := ds[..i] + [d] + ds[i..];
    assert all[i] == d;
    forall o | o in ds
      ensures o in all
    {
    }
    forall p | p in s.tasks
      ensures p in r.tasks && r.tasks[p] == s.tasks[p]
    {
      var k :| 0 <= k < |ds| && ds[k].pid == p;
      assert ds[k] in all;
    }
    forall p | p in r.tasks && p != d.pid
      ensures p in s.tasks
    {
      var k :| 0 <= k < |all| && all[k].pid == p;
      assert all[k] == if k < i then ds[k] else if k == i then d else ds[k - 1];
    }
  }

  function WithTask(s: Sched, i: nat, p: int, task: Task): Sched
    requires i <= |s.ring|
  {
    s.(ring := s.ring[..i] + [p] + s.ring[i..], tasks := s.tasks[p := task])
  }

  predicate SomebodyEligible(s: Sched) {
    exists i :: 0 <= i < |s.ring| && Eligible(s, s.ring[i])
  }

  /** What the code relies on: somebody else, the idle process if nobody, can run. */
  predicate OthersEligible(s: Sched) {
    exists i :: 0 <= i < |s.ring| && s.ring[i] != s.current && Eligible(s, s.ring[i])
  }

  lemma OthersStayEligible(s: Sched, e: Event)
    requires s.current in s.tasks && OthersEligible(s) && (e.DoBlock? || e.DoDelay?)
    ensures SomebodyEligible(Prepared(s, e))
  {
    var i :| 0 <= i < |s.ring| && s.ring[i] != s.current && Eligible(s, s.ring[i]);
    assert Eligible(Prepared(s, e), Prepared(s, e).ring[i]);
  }

  lemma SpawnedAt(s: Sched, p: int, i: nat)
    requires s.current in s.tasks && p !in s.tasks && p !in s.ring && i <= |s.ring|
    ensures Enabled(s, DoSpawn(p, i)) && Step(s, DoSpawn(p, i)) == WithTask(s, i, p, Task(PROCESS_RUNNING, 0))
    ensures i == |s.ring| ==> Step(s, DoSpawn(p, i)).ring == s.ring + [p]
    ensures Step(s, DoSpawn(p, i)).ring == s.ring[..i] + [p] + s.ring[i..]
  {
  }

  lemma BlockedTo(s: Sched, next: int)
    requires s.current in s.tasks && Picks(Prepared(s, DoBlock(0)), next)
    ensures Enabled(s, DoBlock(next)) && Step(s, DoBlock(next)) == Prepared(s, DoBlock(0)).(current := next)
    ensures var r := Step(s, DoBlock(next));
      next != s.current && s.current in r.tasks && r.tasks[s.current].state == PROCESS_WAITING
  {
  }

  lemma DelayedTo(s: Sched, n: int, next: int)
    requires s.current in s.tasks && n > 0 && Picks(Prepared(s, DoDelay(n, 0)), next)
    ensures Enabled(s, DoDelay(n, next)) && Step(s, DoDelay(n, next)) == Prepared(s, DoDelay(n, 0)).(current := next)
  {
  }
}
