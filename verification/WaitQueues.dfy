/**
  Wait queues as values (sync/waitqueue.c): who is queued where, who is asleep, and what sleeping and
  signalling do to that.  The class in WaitQueueList.dfy does the same on linked nodes.
 */
module WaitQueues {

  /** A WaitQueueNode. */
  datatype Waiter = Waiter(pid: int, exclusive: bool)

  /** addNodeToWaitQueue: exclusive nodes to the back, others to the front. */
  function Enqueue(q: seq<Waiter>, w: Waiter): seq<Waiter> {
    if w.exclusive then q + [w] else [w] + q
  }

  /** How many nodes a signal takes off: up to and including the first exclusive one, or all. */
  function Woken(q: seq<Waiter>, exclusively: bool): (k: nat)
    ensures k <= |q|
  {
    if q == [] then 0
    else if q[0].exclusive && exclusively then 1
    else 1 + Woken(q[1..], exclusively)
  }

  /** The loop of ttyWriteFinished: the leading non-exclusive nodes become exclusive. */
  function Harden(q: seq<Waiter>): (r: seq<Waiter>)
    ensures |r| == |q| && forall i :: 0 <= i < |q| ==> r[i].pid == q[i].pid
  {
    if q == [] || q[0].exclusive then q else [q[0].(exclusive := true)] + Harden(q[1..])
  }

  /** Non-exclusive nodes come first. */
  predicate Ordered(q: seq<Waiter>) {
    forall i, j :: 0 <= i < j < |q| && q[i].exclusive ==> q[j].exclusive
  }

  predicate NoRepeats(q: seq<Waiter>) {
    forall i, j :: 0 <= i < j < |q| ==> q[i].pid != q[j].pid
  }

  function Pids(q: seq<Waiter>): set<int> {
    set i | 0 <= i < |q| :: q[i].pid
  }

  /** An exclusive signal wakes the whole non-exclusive prefix and the first exclusive node, no more. */
  lemma {:induction false} ExclusiveSignal(q: seq<Waiter>)
    ensures var k := Woken(q, true);
      && (forall i :: 0 <= i < k - 1 ==> !q[i].exclusive)
      && (k < |q| ==> k > 0 && q[k - 1].exclusive)
  {
    if q != [] && !q[0].exclusive {
      ExclusiveSignal(q[1..]);
      var k := Woken(q[1..], true);
      assert forall i :: 1 <= i < k ==> q[i] == q[1..][i - 1];
    }
  }

  lemma {:induction false} BroadcastWakesAll(q: seq<Waiter>)
    ensures Woken(q, false) == |q|
  {
    if q != [] {
      BroadcastWakesAll(q[1..]);
    }
  }

  lemma EnqueueKeepsOrder(q: seq<Waiter>, w: Waiter)
    requires Ordered(q)
    ensures Ordered(Enqueue(q, w))
  {
  }

  lemma DropKeepsOrder(q: seq<Waiter>, k: nat)
    requires Ordered(q) && NoRepeats(q) && k <= |q|
    ensures Ordered(q[k..]) && NoRepeats(q[k..])
  {
  }

  // ---------- order of arrival ----------

  /** The processes of the exclusive nodes, in order. */
  function Exclusives(q: seq<Waiter>): seq<int> {
    if q == [] then [] else (if q[0].exclusive then [q[0].pid] else []) + Exclusives(q[1..])
  }

  function Drop<T>(s: seq<T>, n: nat): seq<T> {
    if n <= |s| then s[n..] else []
  }

  lemma {:induction false} ExclusivesConcat(a: seq<Waiter>, b: seq<Waiter>)
    ensures Exclusives(a + b) == Exclusives(a) + Exclusives(b)
  {
    if a == [] {
      assert a + b == b;
    } else {
      ExclusivesConcat(a[1..], b);
      assert (a + b)[1..] == a[1..] + b && (a + b)[0] == a[0];
      var first := if a[0].exclusive then [a[0].pid] else [];
      assert first + (Exclusives(a[1..]) + Exclusives(b)) == (first + Exclusives(a[1..])) + Exclusives(b);
    }
  }

  lemma EnqueueAddsAtBack(q: seq<Waiter>, w: Waiter)
    ensures Exclusives(Enqueue(q, w)) == if w.exclusive then Exclusives(q) + [w.pid] else Exclusives(q)
  {
    ExclusivesConcat(q, [w]);
    ExclusivesConcat([w], q);
    assert Exclusives([w]) == if w.exclusive then [w.pid] else [];
  }

  /** An exclusive signal takes the exclusive node that came first; a broadcast takes them all. */
  lemma {:induction false} SignalTakesFirst(q: seq<Waiter>, exclusively: bool)
    ensures Exclusives(q[Woken(q, exclusively)..]) == if exclusively then Drop(Exclusives(q), 1) else []
    ensures Exclusives(q) != [] ==> Exclusives(q)[0] in Pids(q[..Woken(q, exclusively)])
  {
    hide Pids, Drop;
    if q != [] {
      var k := Woken(q, exclusively);
      FirstOfPids(q, k);
      if q[0].exclusive && exclusively {
        DropFirst(q[0].pid, Exclusives(q[1..]));
      } else {
        SignalTakesFirst(q[1..], exclusively);
        assert !q[0].exclusive ==> Exclusives(q) == Exclusives(q[1..]);
        assert q[k..] == q[1..][k - 1..];
        PidsOfRest(q, k);
      }
    }
    DropNone();
  }

  lemma DropFirst(p: int, s: seq<int>)
    ensures Drop([p] + s, 1) == s
  {
  }

  lemma DropNone()
    ensures Drop<int>([], 1) == []
  {
  }

  lemma FirstOfPids(q: seq<Waiter>, k: nat)
    requires 0 < k <= |q|
    ensures q[0].pid in Pids(q[..k])
  {
    assert q[..k][0].pid == q[0].pid;
  }

  lemma PidsOfRest(q: seq<Waiter>, k: nat)
    requires 0 < k <= |q|
    ensures Pids(q[1..][..k - 1]) <= Pids(q[..k])
  {
    forall p | p in Pids(q[1..][..k - 1])
      ensures p in Pids(q[..k])
    {
      var i :| 0 <= i < k - 1 && q[1..][..k - 1][i].pid == p;
      assert q[..k][i + 1].pid == p;
    }
  }
}
