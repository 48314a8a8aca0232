/**
  Wait queues in place (sync/waitqueue.c): linked nodes behind a head, and the descriptors of the
  processes that sleep on them.  Each method is proved to do what WaitQueues says on values.
 */
module WaitQueueList {
  import opened WaitQueues
  import opened Ring

  datatype ProcessState = PROCESS_RUNNING | PROCESS_WAITING | PROCESS_STOPPED | PROCESS_ZOMBIE | PROCESS_DEAD

  /** The fields of a ProcessDescriptor that sleeping and scheduling use. */
  class Descriptor {
    const pid: int
    var state: ProcessState
    var wakeUpTime: int

    constructor (pid: int)
      ensures this.pid == pid && state == PROCESS_RUNNING && wakeUpTime == 0
    {
      this.pid, state, wakeUpTime := pid, PROCESS_RUNNING, 0;
    }
  }

  class WaitQueueNode {
    const process: Descriptor
    var isExclusive: bool

    constructor (process: Descriptor, isExclusive: bool)
      ensures this.process == process && this.isExclusive == isExclusive
    {
      this.process, this.isExclusive := process, isExclusive;
    }
  }

  class WaitQueue {
    const head: ListNode<WaitQueueNode>
    ghost var ring: seq<ListNode<WaitQueueNode>>   // the head, then the nodes in order
    ghost var waiters: seq<WaitQueueNode>          // the elements of the nodes
    ghost var repr: set<object>

    constructor ()
      ensures Valid() && Contents() == [] && fresh(repr)
    {
      head := new ListNode(None);
      ring, waiters, repr := [head], [], {this, head};
    }

    ghost predicate Valid()
      reads this, repr
    {
      && this in repr && (forall n :: n in ring ==> n in repr) && (forall w :: w in waiters ==> w in repr)
      && |ring| == |waiters| + 1 && ring[0] == head && IsRing(ring)
      && Holds(ring, waiters)
    }

    ghost function Contents(): (q: seq<Waiter>)
      reads this, waiters
      ensures |q| == |waiters|
      ensures forall i :: 0 <= i < |q| ==> q[i] == Waiter(waiters[i].process.pid, waiters[i].isExclusive)
    {
      seq(|waiters|, i requires 0 <= i < |waiters| reads this, waiters =>
        Waiter(waiters[i].process.pid, waiters[i].isExclusive))
    }

    /** addNodeToWaitQueue */
    method AddNode(node: ListNode<WaitQueueNode>, w: WaitQueueNode)
      requires Valid() && node !in repr && w !in repr && node.element == Some(w)
      modifies this, ring`next, ring`prev, node`next, node`prev
      ensures Valid() && Contents() == Enqueue(old(Contents()), Waiter(w.process.pid, w.isExclusive))
      ensures repr == old(repr) + {node, w}
      ensures waiters == (if w.isExclusive then old(waiters) + [w] else [w] + old(waiters))
    {
      assert ring[0].next == ring[After(0, |ring|)] && ring[|ring| - 1].next == ring[After(|ring| - 1, |ring|)];
      HoldsOneMore(ring, waiters, node, w);
      hide Holds;
      if w.isExclusive {
        AddLastNode(node, head, ring);
        ring, waiters, repr := ring + [node], waiters + [w], repr + {node, w};
      } else {
        AddFirstNode(node, head, ring);
        ring, waiters, repr := [head, node] + Members(ring), [w] + waiters, repr + {node, w};
      }
    }

    /** sleepOnWaitQueueWithOptions up to putProcessToSleep(): a new node for the process. */
    method Enlist(process: Descriptor, exclusive: bool)
      requires Valid()
      modifies this, repr
      ensures Valid() && fresh(repr - old(repr))
      ensures Contents() == Enqueue(old(Contents()), Waiter(process.pid, exclusive))
      ensures forall w :: w in waiters ==> w in old(waiters) || w.process == process
    {
      var w := new WaitQueueNode(process, exclusive);
      var node := new ListNode(Some(w));
      AddNode(node, w);
    }

    /** One round of the loop of a signal, wakeUpProcess included; the successor of the node is read
        before the node is freed. */
    method WakeFirst(pos: ListNode<WaitQueueNode>) returns (exclusive: bool, next: ListNode<WaitQueueNode>)
      requires Valid() && waiters != [] && pos == ring[1]
      modifies this, ring`next, ring`prev, waiters[0].process`state
      ensures Valid() && waiters == old(waiters)[1..] && ring == [head] + old(ring)[2..] && repr == old(repr)
      ensures Contents() == old(Contents())[1..]
      ensures exclusive == old(waiters)[0].isExclusive && old(waiters)[0].process.state == PROCESS_RUNNING
      ensures next == head.next
    {
      assert ring[0].next == ring[After(0, |ring|)] && ring[1].next == ring[After(1, |ring|)];
      assert ring[1].element == Some(waiters[0]);
      var current := pos.element.value;
      next := pos.next;
      var _ := RemoveFirstNode(head, ring);
      ring, waiters := [head] + Members(ring)[1..], waiters[1..];
      exclusive := current.isExclusive;
      current.process.state := PROCESS_RUNNING;
    }

    /** signalWaitQueueWithOptions */
    method Signal(exclusively: bool)
      requires Valid()
      modifies this, repr, Processes(waiters)`state
      ensures Valid() && repr == old(repr)
      ensures var k := Woken(old(Contents()), exclusively);
        && waiters == old(waiters)[k..] && Contents() == old(Contents())[k..]
        && (forall d :: d in Processes(old(waiters)[..k]) ==> d.state == PROCESS_RUNNING)
        && (forall d :: d in Processes(old(waiters)) - Processes(old(waiters)[..k]) ==> d.state == old(d.state))
    {
      hide Valid, Woken, Processes, Woke, IsRing, Holds, Contents, After, Members;
      ghost var q, all, n := Contents(), waiters, 0;
      FirstAfterHead();
      WokenFrom(q, 0, exclusively);
      ghost var states: map<Descriptor, ProcessState> := map d: Descriptor | d in Processes(all) :: d.state;
      NoneWoken(all, states);
      ghost var now: map<Descriptor, ProcessState> := states;
      var pos := head.next;
      while pos != head
        invariant Valid() && repr == old(repr) && 0 <= n <= |all| && waiters == all[n..]
        invariant pos == head.next
        invariant Contents() == q[n..]
        invariant Woken(q, exclusively) == n + Woken(q[n..], exclusively)
        invariant Woke(all, n, states, now) && forall d :: d in now ==> d.state == now[d]
        decreases |all| - n
      {
        FirstAfterHead();
        NodesInRepr();
        assert all[n] == waiters[0] && waiters[1..] == all[n + 1..];
        WokenFrom(q, n, exclusively);
        OneMoreProcess(all, n);
        OneMoreWoken(all, n, states, now);
        var nodeIsExclusive, next := WakeFirst(pos);
        now := now[all[n].process := PROCESS_RUNNING];
        n := n + 1;
        if nodeIsExclusive && exclusively { break; }
        pos := next;
      }
      if pos == head {
        FirstAfterHead();
        WokenFrom(q, n, exclusively);
      }
      assert n == Woken(q, exclusively);
      WokeIs(all, n, states, now);
    }

    /** The loop of ttyWriteFinished: nodes become exclusive up to the first that is. */
    method HardenFront()
      requires Valid()
      modifies waiters
      ensures Valid() && Contents() == Harden(old(Contents()))
    {
      ghost var q, n := Contents(), 0;
      FirstAfterHead();
      var pos := head.next;
      while pos != head
        invariant 0 <= n <= |waiters| && pos == if n == |waiters| then head else ring[n + 1]
        invariant Valid() && unchanged(this) && unchanged(ring)
        invariant forall i :: 0 <= i < n ==> !q[i].exclusive && waiters[i].isExclusive
        invariant forall i :: n <= i < |waiters| ==> waiters[i].isExclusive == q[i].exclusive
        decreases |waiters| - n
      {
        assert ring[n + 1].element == Some(waiters[n]) && ring[n + 1].next == ring[After(n + 1, |ring|)];
        var current := pos.element.value;
        if current.isExclusive { break; }
        current.isExclusive := true;
        pos := pos.next;
        n := n + 1;
      }
      HardenedFront(q, Contents(), n);
    }

    lemma NodesInRepr()
      requires Valid()
      ensures forall n :: n in ring ==> n in repr
    {
    }

    lemma InRepr()
      requires Valid()
      ensures this in repr
    {
    }

    lemma FirstAfterHead()
      requires Valid()
      ensures |ring| == |waiters| + 1 && ring[0] == head
      ensures head.next == if waiters == [] then head else ring[1]
      ensures waiters != [] ==> ring[1] != head
    {
      assert ring[0].next == ring[After(0, |ring|)];
    }
  }

  function Processes(waiters: seq<WaitQueueNode>): set<Descriptor> {
    set w | w in waiters :: w.process
  }

  /** The first n processes run, the others are in the states that they had before. */
  ghost predicate Woke(waiters: seq<WaitQueueNode>, n: nat, before: map<Descriptor, ProcessState>,
      now: map<Descriptor, ProcessState>)
    requires n <= |waiters|
  {
    && before.Keys == now.Keys == Processes(waiters)
    && forall d :: d in before ==> now[d] == if d in Processes(waiters[..n]) then PROCESS_RUNNING else before[d]
  }

  lemma NoneWoken(waiters: seq<WaitQueueNode>, before: map<Descriptor, ProcessState>)
    requires before.Keys == Processes(waiters)
    ensures Woke(waiters, 0, before, before)
  {
  }

  lemma WokeIs(waiters: seq<WaitQueueNode>, n: nat, before: map<Descriptor, ProcessState>,
      now: map<Descriptor, ProcessState>)
    requires n <= |waiters| && Woke(waiters, n, before, now)
    ensures Processes(waiters[..n]) <= Processes(waiters) == before.Keys == now.Keys
    ensures forall d :: d in Processes(waiters[..n]) ==> now[d] == PROCESS_RUNNING
    ensures forall d :: d in Processes(waiters) - Processes(waiters[..n]) ==> now[d] == before[d]
  {
  }

  lemma OneMoreWoken(waiters: seq<WaitQueueNode>, n: nat, before: map<Descriptor, ProcessState>,
      now: map<Descriptor, ProcessState>)
    requires n < |waiters| && Woke(waiters, n, before, now)
    ensures waiters[n].process in now
    ensures Woke(waiters, n + 1, before, now[waiters[n].process := PROCESS_RUNNING])
  {
    OneMoreProcess(waiters, n);
  }

  lemma OneMoreProcess(waiters: seq<WaitQueueNode>, n: nat)
    requires n < |waiters|
    ensures Processes(waiters[..n + 1]) == Processes(waiters[..n]) + {waiters[n].process}
    ensures waiters[n].process in Processes(waiters)
  {
    assert waiters[..n + 1] == waiters[..n] + [waiters[n]];
  }

  lemma WokenFrom(q: seq<Waiter>, n: nat, exclusively: bool)
    requires n <= |q|
    ensures Woken(q[n..], exclusively) ==
      if n == |q| then 0 else if q[n].exclusive && exclusively then 1 else 1 + Woken(q[n + 1..], exclusively)
    ensures q[0..] == q
  {
    if n < |q| {
      assert q[n..][1..] == q[n + 1..];
    }
  }

  lemma {:induction false} HardenedFront(q: seq<Waiter>, r: seq<Waiter>, n: nat)
    requires |q| == |r| && n <= |q| && (n < |q| ==> q[n].exclusive)
    requires forall i :: 0 <= i < n ==> !q[i].exclusive && r[i] == Waiter(q[i].pid, true)
    requires forall i :: n <= i < |q| ==> r[i] == q[i]
    ensures r == Harden(q)
  {
    if n > 0 {
      HardenedFront(q[1..], r[1..], n - 1);
    }
  }
}
