/**
  The circular doubly linked lists of core/list.h.  A list with its head is a ring of nodes; each
  operation is proved to refine the operation on the sequence of nodes, wherever the head is.
 */
module Ring {

  datatype Option<+T> = None | Some(value: T)

  /** The ring without one of its members. */
  function Without<T(==)>(ring: seq<T>, p: T): (r: seq<T>)
    ensures p !in ring ==> r == ring
  {
    if ring == [] then [] else if ring[0] == p then ring[1..] else [ring[0]] + Without(ring[1..], p)
  }

  lemma {:induction false} WithoutSplits<T>(ring: seq<T>, p: T) returns (i: nat)
    requires p in ring
    ensures i < |ring| && ring[i] == p && Without(ring, p) == ring[..i] + ring[i + 1..]
  {
    if ring[0] == p {
      i := 0;
    } else {
      var j := WithoutSplits(ring[1..], p);
      i := j + 1;
      assert ring[..i] == [ring[0]] + ring[1..][..j];
    }
  }

  /** struct LinkedListNode, with the element it sits in; heads sit in none. */
  class ListNode<T> {
    var next: ListNode<T>
    var prev: ListNode<T>
    const element: Option<T>

    /** linkedListNodeInit */
    constructor (element: Option<T>)
      ensures next == prev == this && this.element == element
    {
      this.element := element;
      next, prev := this, this;
    }
  }

  function After(i: nat, n: nat): nat {
    if i + 1 == n then 0 else i + 1
  }

  /** Following next goes once round the nodes in order, following prev once round against it. */
  ghost predicate IsRing<T>(ring: seq<ListNode<T>>)
    reads ring
  {
    && ring != []
    && (forall i, j :: 0 <= i < j < |ring| ==> ring[i] != ring[j])
    && forall i {:trigger ring[i].next} {:trigger ring[After(i, |ring|)]} :: 0 <= i < |ring| ==>
         ring[i].next == ring[After(i, |ring|)] && ring[After(i, |ring|)].prev == ring[i]
  }

  /** The members of a list: the ring without its head. */
  function Members<T>(ring: seq<ListNode<T>>): seq<ListNode<T>>
    requires ring != []
  {
    ring[1..]
  }

  /** The nodes behind the head sit in the elements, in order, each in its own. */
  predicate Holds<T(==)>(ring: seq<ListNode<T>>, elements: seq<T>) {
    && |ring| == |elements| + 1
    && (forall i :: 0 <= i < |elements| ==> ring[i + 1].element == Some(elements[i]))
    && (forall i, j :: 0 <= i < j < |elements| ==> elements[i] != elements[j])
  }

  lemma HoldsOneMore<T>(ring: seq<ListNode<T>>, elements: seq<T>, node: ListNode<T>, element: T)
    requires Holds(ring, elements) && node.element == Some(element) && element !in elements
    ensures Holds(ring + [node], elements + [element])
    ensures Holds([ring[0], node] + Members(ring), [element] + elements)
  {
    var r := [ring[0], node] + Members(ring);
    assert forall i :: 0 < i < |r| - 1 ==> r[i + 1] == ring[i];
  }

  lemma HoldsInserted<T>(ring: seq<ListNode<T>>, elements: seq<T>, node: ListNode<T>, element: T, i: nat)
    requires Holds(ring, elements) && node.element == Some(element) && element !in elements && i <= |elements|
    ensures Holds(ring[..i + 1] + [node] + ring[i + 1..], elements[..i] + [element] + elements[i..])
  {
    var r, e := ring[..i + 1] + [node] + ring[i + 1..], elements[..i] + [element] + elements[i..];
    forall k | 0 <= k < |e|
      ensures r[k + 1].element == Some(e[k])
    {
      assert e[k] == if k < i then elements[k] else if k == i then element else elements[k - 1];
    }
  }

  method ListIsEmpty<T>(head: ListNode<T>, ghost ring: seq<ListNode<T>>) returns (empty: bool)
    requires IsRing(ring) && ring[0] == head
    ensures empty <==> Members(ring) == []
  {
    assert ring[0].next == ring[After(0, |ring|)];
    empty := head.next == head;
  }

  lemma InsertedDistinct<T>(ring: seq<T>, node: T, i: nat)
    requires i < |ring| && node !in ring && forall j, k :: 0 <= j < k < |ring| ==> ring[j] != ring[k]
    ensures var all := ring[..i + 1] + [node] + ring[i + 1..];
      forall j, k :: 0 <= j < k < |all| ==> all[j] != all[k]
  {
  }

  /** insertNode: behind `head`, which may be any node of the ring. */
  method InsertNode<T>(node: ListNode<T>, head: ListNode<T>, ghost ring: seq<ListNode<T>>, ghost i: nat)
    requires IsRing(ring) && i < |ring| && ring[i] == head && node !in ring
    modifies node`next, node`prev, head`next, head.next`prev
    ensures IsRing(ring[..i + 1] + [node] + ring[i + 1..])
  {
    assert head.next == ring[After(i, |ring|)];
    ghost var n := |ring|;
    head.next.prev := node;
    node.next := head.next;
    node.prev := head;
    head.next := node;
    ghost var all := ring[..i + 1] + [node] + ring[i + 1..];
    InsertedDistinct(ring, node, i);
    forall j | 0 <= j < |all|
      ensures all[j].next == all[After(j, |all|)] && all[After(j, |all|)].prev == all[j]
    {
      assert all[j] == if j <= i then ring[j] else if j == i + 1 then node else ring[j - 1];
      assert j < i ==> all[j + 1] == ring[After(j, n)];
      assert j > i + 1 ==> all[After(j, n + 1)] == ring[After(j - 1, n)];
    }
  }

  /** removeNode: the links of the node itself stay.  A node alone in its ring stays alone. */
  method RemoveNode<T>(node: ListNode<T>, ghost ring: seq<ListNode<T>>, ghost i: nat)
    requires IsRing(ring) && i < |ring| && ring[i] == node
    modifies node.prev`next, node.next`prev
    ensures IsRing(if |ring| == 1 then ring else ring[..i] + ring[i + 1..])
  {
    ghost var before := if i == 0 then |ring| - 1 else i - 1;
    assert ring[before].next == ring[i] && node.prev == ring[before];
    assert node.next == ring[After(i, |ring|)];
    node.prev.next := node.next;
    node.next.prev := node.prev;
    if |ring| > 1 {
      ghost var rest := ring[..i] + ring[i + 1..];
      assert forall j :: 0 <= j < i ==> rest[j] == ring[j];
      assert forall j :: i <= j < |rest| ==> rest[j] == ring[j + 1];
      forall j | 0 <= j < |rest|
        ensures rest[j].next == rest[After(j, |rest|)] && rest[After(j, |rest|)].prev == rest[j]
      {
        var k := if j < i then j else j + 1;
        assert rest[j] == ring[k];
        assert ring[k].next == if After(k, |ring|) == i then ring[After(i, |ring|)] else ring[After(k, |ring|)];
      }
    }
  }

  method AddFirstNode<T>(node: ListNode<T>, head: ListNode<T>, ghost ring: seq<ListNode<T>>)
    requires IsRing(ring) && ring[0] == head && node !in ring
    modifies node`next, node`prev, head`next, head.next`prev
    ensures IsRing([head, node] + Members(ring))
  {
    InsertNode(node, head, ring, 0);
    assert ring[..1] + [node] + ring[1..] == [head, node] + Members(ring);
  }

  method AddLastNode<T>(node: ListNode<T>, head: ListNode<T>, ghost ring: seq<ListNode<T>>)
    requires IsRing(ring) && ring[0] == head && node !in ring
    modifies node`next, node`prev, head`prev, head.prev`next
    ensures IsRing(ring + [node])
  {
    ghost var last := |ring| - 1;
    assert ring[last].next == head && head.prev == ring[last];
    InsertNode(node, head.prev, ring, last);
    assert ring[..last + 1] + [node] + ring[last + 1..] == ring + [node];
  }

  method RemoveFirstNode<T>(head: ListNode<T>, ghost ring: seq<ListNode<T>>) returns (node: ListNode<T>)
    requires IsRing(ring) && ring[0] == head && Members(ring) != []
    modifies head`next, head.next.next`prev
    ensures node == Members(ring)[0] && IsRing([head] + Members(ring)[1..])
  {
    assert ring[0].next == ring[1];
    node := head.next;
    assert ring[1].prev == ring[0];
    RemoveNode(node, ring, 1);
    assert ring[..1] + ring[2..] == [head] + Members(ring)[1..];
  }

  method RemoveLastNode<T>(head: ListNode<T>, ghost ring: seq<ListNode<T>>) returns (node: ListNode<T>)
    requires IsRing(ring) && ring[0] == head && Members(ring) != []
    modifies head`prev, head.prev.prev`next
    ensures node == ring[|ring| - 1] && IsRing(ring[..|ring| - 1])
  {
    ghost var last := |ring| - 1;
    assert ring[last].next == head && head.prev == ring[last];
    node := head.prev;
    assert ring[last].next == ring[0];
    RemoveNode(node, ring, last);
    assert ring[..last] + ring[last + 1..] == ring[..last];
  }

  /** spliceLinkedLists links the wrong ends: the members of `second` follow those of `first` exactly
      when there is at most one of them, and the head of `second` is never reset. */
  method SpliceLinkedLists<T>(second: ListNode<T>, first: ListNode<T>, ghost ring2: seq<ListNode<T>>,
      ghost ring1: seq<ListNode<T>>)
    requires IsRing(ring1) && ring1[0] == first && IsRing(ring2) && ring2[0] == second
    requires forall i, j :: 0 <= i < |ring1| && 0 <= j < |ring2| ==> ring1[i] != ring2[j]
    modifies first`prev, first.prev`next, second.next`prev, second.prev`next
    ensures IsRing(ring1 + Members(ring2)) <==> |Members(ring2)| <= 1
    ensures Members(ring2) != [] ==> second.next != second
  {
    ghost var n1, n2 := |ring1|, |ring2|;
    assert ring1[n1 - 1].next == first && first.prev == ring1[n1 - 1];
    assert ring2[n2 - 1].next == second && second.prev == ring2[n2 - 1];
    assert second.next == ring2[After(0, n2)];
    if second.next != second {
      second.prev.next := first;
      second.next.prev := first.prev;
      first.prev.next := second.prev;
      first.prev := second.next;
    }
    ghost var all := ring1 + Members(ring2);
    assert forall j :: 0 <= j < n1 ==> all[j] == ring1[j];
    assert forall j :: n1 <= j < |all| ==> all[j] == ring2[j - n1 + 1];
    if n2 == 1 {
      assert all == ring1;
    } else if n2 == 2 {
      forall j | 0 <= j < |all|
        ensures all[j].next == all[After(j, |all|)] && all[After(j, |all|)].prev == all[j]
      {
        assert j < n1 - 1 ==> ring1[j].next == ring1[After(j, n1)];
      }
    } else {
      assert all[n1 - 1].next == ring2[n2 - 1] && all[After(n1 - 1, |all|)] == ring2[1];
    }
  }
}
