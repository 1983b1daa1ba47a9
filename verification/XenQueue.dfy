/**
 The intrusive circular queue of the network back end (ire/Net_Dom0/xen_queue.c): elements carry their own
 links, a head element closes the ring, and the heap represents a sequence of elements.
 */
module XenQueue {

  class Element {
    var prev: Element?
    var next: Element?

    /** xen_queue_init on a head, xen_queue_element_init on an element: an empty queue. */
    constructor ()
      ensures prev == this && next == this && Ring(this, [])
    {
      prev := this;
      next := this;
    }
  }

  /** The i-th element walking forward from the head, which stands at both ends. */
  ghost function At(head: Element, q: seq<Element>, i: nat): Element
    requires i <= |q| + 1
  {
    if i == 0 || i == |q| + 1 then head else q[i - 1]
  }

  ghost predicate Distinct(head: Element, q: seq<Element>)
  {
    && head !in q
    && forall i, j | 0 <= i < j < |q| :: q[i] != q[j]
  }

  ghost predicate Linked(head: Element, q: seq<Element>, i: nat)
    requires i <= |q|
    reads head, q
  {
    At(head, q, i).next == At(head, q, i + 1) && At(head, q, i + 1).prev == At(head, q, i)
  }

  /** The ring from `head` holds exactly the elements of q, in order, with next and prev mutually inverse. */
  ghost predicate Ring(head: Element, q: seq<Element>)
    reads head, q
  {
    Distinct(head, q) && forall i | 0 <= i <= |q| :: Linked(head, q, i)
  }

  lemma {:induction false} WalksAgree(head: Element, q: seq<Element>, r: seq<Element>, i: nat)
    requires Ring(head, q) && Ring(head, r) && i <= |q| && i <= |r|
    ensures At(head, q, i) == At(head, r, i)
  {
    if i > 0 {
      WalksAgree(head, q, r, i - 1);
      assert Linked(head, q, i - 1) && Linked(head, r, i - 1);
    }
  }

  lemma RingLengthsAgree(head: Element, q: seq<Element>, r: seq<Element>)
    requires Ring(head, q) && Ring(head, r) && |r| <= |q|
    ensures |q| == |r|
  {
    WalksAgree(head, q, r, |r|);
    assert Linked(head, q, |r|) && Linked(head, r, |r|);
    assert At(head, q, |r| + 1) == head;
  }

  /** The links alone determine the sequence a ring represents. */
  lemma RingUnique(head: Element, q: seq<Element>, r: seq<Element>)
    requires Ring(head, q) && Ring(head, r)
    ensures q == r
  {
    if |r| <= |q| {
      RingLengthsAgree(head, q, r);
    } else {
      RingLengthsAgree(head, r, q);
    }
    forall i | 0 <= i < |q|
      ensures q[i] == r[i]
    {
      WalksAgree(head, q, r, i + 1);
      assert q[i] == At(head, q, i + 1) && r[i] == At(head, r, i + 1);
    }
  }

  lemma EndsMeet(head: Element, q: seq<Element>)
    requires Ring(head, q)
    ensures head.next == (if q == [] then head else q[0])
    ensures head.prev == (if q == [] then head else q[|q| - 1])
  {
    assert Linked(head, q, 0) && Linked(head, q, |q|);
  }

  /** xen_queue_push: whatever the new element's links held, it becomes the last. */
  method Push(head: Element, e: Element, ghost q: seq<Element>)
    requires Ring(head, q) && e != head && e !in q
    modifies head, e, q
    ensures Ring(head, q + [e])
  {
    EndsMeet(head, q);
    var last := head.prev;
    e.next := head;
    e.prev := last;
    last.next := e;
    head.prev := e;
    forall i | 0 <= i <= |q| + 1
      ensures Linked(head, q + [e], i)
    {
      if i < |q| {
        assert old(Linked(head, q, i));
      }
    }
  }

  /** xen_queue_pop: null for an empty queue, otherwise the first element, linked to itself again. */
  method Pop(head: Element, ghost q: seq<Element>) returns (first: Element?)
    requires Ring(head, q)
    modifies head, q
    ensures first == null <==> q == []
    ensures q == [] ==> head.next == old(head.next) && head.prev == old(head.prev) && Ring(head, [])
    ensures q != [] ==> first == q[0] && first.next == first && first.prev == first && Ring(head, q[1..])
  {
    EndsMeet(head, q);
    first := head.next;
    if first == head {
      return null;
    }
    assert Linked(head, q, 1);
    head.next := first.next;
    first.next.prev := head;
    first.next := first;
    first.prev := first;
    forall i | 0 <= i <= |q| - 1
      ensures Linked(head, q[1..], i)
    {
      assert old(Linked(head, q, i + 1));
    }
  }

  /** xen_queue_is_empty. */
  method IsEmpty(head: Element, ghost q: seq<Element>) returns (empty: bool)
    requires Ring(head, q)
    ensures empty <==> q == []
  {
    EndsMeet(head, q);
    empty := head.next == head;
  }

  /** xen_queue_front: the first element, left in place. */
  method Front(head: Element, ghost q: seq<Element>) returns (first: Element?)
    requires Ring(head, q)
    ensures first == null <==> q == []
    ensures q != [] ==> first == q[0]
  {
    EndsMeet(head, q);
    var empty := IsEmpty(head, q);
    first := if empty then null else head.next;
  }
}
