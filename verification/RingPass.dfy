/**
 One pass over a shared ring in which every element consumed is replaced, in its own slot, by the element
 produced for it: what the slots hold afterwards, for any way of producing elements.
 */
module RingPass {
  import opened XenRing

  /** Ring memory and whatever else the producer keeps. */
  datatype Pass<T, C> = Pass(slots: seq<T>, context: C)

  /** The k-th element consumed, with its context, gives the element produced and the next context. */
  type Producer<!T, !C> = (nat, T, C) -> (T, C)

  function Next<T, C>(f: Producer<T, C>, first: nat, p: Pass<T, C>, k: nat): (q: Pass<T, C>)
    requires p.slots != []
    ensures |q.slots| == |p.slots|
  {
    var at := SlotOf(first + k, |p.slots|);
    var made := f(k, p.slots[at], p.context);
    Pass(p.slots[at := made.0], made.1)
  }

  /** The pass after n elements, the first of them at index `first`. */
  function After<T, C>(f: Producer<T, C>, first: nat, p: Pass<T, C>, n: nat): (q: Pass<T, C>)
    requires p.slots != []
    ensures |q.slots| == |p.slots|
  {
    if n == 0 then p else Next(f, first, After(f, first, p, n - 1), n - 1)
  }

  /** Slots beyond the elements consumed keep their contents. */
  lemma {:induction false} RestKept<T, C>(f: Producer<T, C>, first: nat, p: Pass<T, C>, n: nat, k: nat)
    requires n <= k < |p.slots|
    ensures var at := SlotOf(first + k, |p.slots|);
      After(f, first, p, n).slots[at] == p.slots[at]
  {
    if n > 0 {
      RestKept(f, first, p, n - 1, k);
      SlotsDiffer(first + n - 1, first + k, |p.slots|);
    }
  }

  /** An element produced stays in its slot for the rest of the pass. */
  lemma {:induction false} ProducedKept<T, C>(f: Producer<T, C>, first: nat, p: Pass<T, C>, m: nat, n: nat, k: nat)
    requires k < m <= n <= |p.slots|
    ensures var at := SlotOf(first + k, |p.slots|);
      After(f, first, p, n).slots[at] == After(f, first, p, m).slots[at]
    decreases n
  {
    if m < n {
      ProducedKept(f, first, p, m, n - 1, k);
      SlotsDiffer(first + k, first + n - 1, |p.slots|);
    }
  }

  /** After a pass of at most one lap each slot holds what was produced from the element that was there before. */
  lemma ProducedInPlace<T, C>(f: Producer<T, C>, first: nat, p: Pass<T, C>, n: nat, k: nat)
    requires k < n <= |p.slots|
    ensures var at := SlotOf(first + k, |p.slots|);
      After(f, first, p, n).slots[at] == f(k, p.slots[at], After(f, first, p, k).context).0
    ensures After(f, first, p, k + 1).context
         == f(k, p.slots[SlotOf(first + k, |p.slots|)], After(f, first, p, k).context).1
  {
    ProducedKept(f, first, p, k + 1, n, k);
    RestKept(f, first, p, k, k);
  }
}
