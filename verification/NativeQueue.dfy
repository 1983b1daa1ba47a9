/**
 The queue the dispatcher drains, in memory (ire/Net_Dom0/data.c): a linked ring of elements embedded in tasks,
 pushed and popped under a lock.
 */
module NativeQueue {
  import opened Dispatcher
  import XenQueue

  ghost function Owners(es: seq<XenQueue.Element>, owner: map<XenQueue.Element, Task>): (ts: seq<Task>)
    requires forall i | 0 <= i < |es| :: es[i] in owner
    ensures |ts| == |es|
  {
    seq(|es|, i requires 0 <= i < |es| => owner[es[i]])
  }

  /** native_queue: a ring of elements, each embedded in the task that owns it. */
  class TaskQueue {
    const head: XenQueue.Element
    var owner: map<XenQueue.Element, Task>     // container_of
    ghost var elements: seq<XenQueue.Element>

    ghost predicate Valid()
      reads this, head, elements
    {
      XenQueue.Ring(head, elements) && forall i | 0 <= i < |elements| :: elements[i] in owner
    }

    ghost function Tasks(): (ts: seq<Task>)
      requires Valid()
      reads this, head, elements
    {
      Owners(elements, owner)
    }

    constructor ()
      ensures Valid() && Tasks() == [] && fresh(head)
    {
      head := new XenQueue.Element();
      owner := map[];
      elements := [];
    }

    /** The locked push of a freshly allocated task: the queue changes as the Push step says. */
    method Enqueue(task: Task)
      requires Valid()
      modifies this, head, elements
      ensures Valid() && Tasks() == old(Tasks()) + [task]
      ensures fresh(set e | e in elements && e !in old(elements))
    {
      var e := new XenQueue.Element();
      XenQueue.Push(head, e, elements);
      elements := elements + [e];
      owner := owner[e := task];
    }

    /** The locked pop and the step from element to task: the queue changes as the Pop step says. */
    method Dequeue() returns (popped: Popped)
      requires Valid()
      modifies this, head, elements
      ensures Valid()
      ensures old(Tasks()) == [] ==> popped == Nothing && Tasks() == []
      ensures old(Tasks()) != [] ==> popped == Got(old(Tasks())[0]) && Tasks() == old(Tasks())[1..]
    {
      var first := XenQueue.Pop(head, elements);
      if first == null {
        return Nothing;
      }
      popped := Got(owner[first]);
      elements := elements[1..];
    }
  }
}
