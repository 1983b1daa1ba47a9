/**
 Shared-ring index arithmetic: free-running 32-bit indices, as in the macros of Xen's public header
 io/ring.h that ire/backup_con/dom0_141223_blocksz/data.c uses.
 */
module XenRing {
  import opened Words

  /** What is left of an index after whole laps of a ring: its slot, or with 2^32 slots its machine word. */
  function SlotOf(i: nat, size: nat): (k: nat)
    requires size > 0
    ensures k < size
  {
    if i < size then i else SlotOf(i - size, size)
  }

  function Wrap(n: nat): Word
  {
    SlotOf(n, TWO32)
  }

  /** Unsigned increment and decrement. */
  function Inc(w: Word): Word
  {
    if w == TWO32 - 1 then 0 else w + 1
  }

  function Dec(w: Word): Word
  {
    if w == 0 then TWO32 - 1 else w - 1
  }

  /** Unsigned subtraction. */
  function Minus(a: Word, b: Word): Word
  {
    if a < b then a - b + TWO32 else a - b
  }

  /** The slot is given by the low bits of the index, which is how the macros find it. */
  lemma {:induction false} SlotIsRemainder(i: nat, size: nat)
    requires size > 0
    ensures SlotOf(i, size) == i % size
  {
    if i >= size {
      SlotIsRemainder(i - size, size);
      assert (i - size) / size * size + (i - size) % size == i - size;
      ModUnique(i, size, (i - size) / size + 1, (i - size) % size);
    }
  }

  lemma IncWraps(n: nat)
    ensures Inc(Wrap(n)) == Wrap(n + 1) && Dec(Wrap(n + 1)) == Wrap(n)
  {
    SlotIsRemainder(n, TWO32);
    SlotIsRemainder(n + 1, TWO32);
  }

  lemma WrapAdd(n: nat, k: nat)
    ensures Wrap(Wrap(n) + k) == Wrap(n + k)
  {
    SlotIsRemainder(n, TWO32);
    SlotIsRemainder(Wrap(n) + k, TWO32);
    SlotIsRemainder(n + k, TWO32);
  }

  predicate PowerOfTwo(n: nat)
  {
    n == 1 || (n > 1 && n % 2 == 0 && PowerOfTwo(n / 2))
  }

  /** Ring sizes are powers of two, far smaller than the index range. */
  predicate RingSize(size: nat)
  {
    PowerOfTwo(size) && size < TWO32
  }

  /** RING_REQUEST_CONS_OVERFLOW. */
  predicate Overflow(cons: Word, rspProd: Word, size: nat)
  {
    Minus(cons, rspProd) >= size
  }

  /** RING_HAS_UNCONSUMED_REQUESTS. */
  function Unconsumed(reqProd: Word, reqCons: Word, rspProd: Word, size: nat): Word
    requires size < TWO32
  {
    var req := Minus(reqProd, reqCons);
    var rsp := Minus(size, Minus(reqCons, rspProd));
    if req < rsp then req else rsp
  }

  /** Whether moving a producer index from `before` to `after` must raise a notification. */
  predicate MustNotify(before: Word, after: Word, event: Word)
  {
    Minus(after, event) < Minus(after, before)
  }

  /** Differences of free-running indices are exact while they fit 32 bits. */
  lemma MinusExact(p: nat, c: nat)
    requires 0 <= p - c < TWO32
    ensures Minus(Wrap(p), Wrap(c)) == p - c
  {
    SlotIsRemainder(p, TWO32);
    SlotIsRemainder(c, TWO32);
  }

  function TwoTo(n: nat): nat
  {
    if n == 0 then 1 else 2 * TwoTo(n - 1)
  }

  /** A power of two divides every larger one. */
  lemma {:induction false} PowersDivide(size: nat, n: nat) returns (laps: nat)
    requires PowerOfTwo(size) && size <= TwoTo(n)
    ensures laps * size == TwoTo(n)
  {
    if size == 1 {
      laps := TwoTo(n);
    } else {
      laps := PowersDivide(size / 2, n - 1);
    }
  }

  lemma IndexRange()
    ensures TwoTo(32) == TWO32
  {
    assert TwoTo(8) == 256;
    assert TwoTo(16) == 65536;
    assert TwoTo(24) == 0x100_0000;
  }

  lemma {:induction false} LapsKeepSlot(i: nat, laps: nat, size: nat)
    requires size > 0
    ensures SlotOf(i + laps * size, size) == SlotOf(i, size)
  {
    if laps > 0 {
      LapsKeepSlot(i, laps - 1, size);
      assert laps * size == (laps - 1) * size + size;
    }
  }

  /** Wrapping an index at 2^32 does not change its slot, because the ring size divides 2^32. */
  lemma WrapKeepsSlot(n: nat, size: nat)
    requires RingSize(size)
    ensures SlotOf(Wrap(n), size) == SlotOf(n, size)
  {
    IndexRange();
    SlotIsRemainder(n, TWO32);
    var laps := PowersDivide(size, 32);
    var turns := n / TWO32;
    assert n == Wrap(n) + turns * (laps * size);
    assert turns * (laps * size) == (turns * laps) * size;
    LapsKeepSlot(Wrap(n), turns * laps, size);
  }

  /** Indices less than a ring apart have different slots. */
  lemma {:induction false} SlotsDiffer(i: nat, j: nat, size: nat)
    requires i < j < i + size
    ensures SlotOf(i, size) != SlotOf(j, size)
  {
    if i >= size {
      SlotsDiffer(i - size, j - size, size);
    } else if j >= size {
      assert SlotOf(j, size) == j - size < i;
    }
  }

  /** With every consumed request answered the work count is what is in the ring. */
  lemma UnconsumedExact(p: nat, c: nat, size: nat)
    requires c <= p <= c + size && 0 < size < TWO32
    ensures Unconsumed(Wrap(p), Wrap(c), Wrap(c), size) == p - c
  {
    MinusExact(p, c);
    MinusExact(c, c);
  }

  /** With any number of responses outstanding it is what is in the ring, or the room left for responses if less. */
  lemma UnconsumedIs(p: nat, c: nat, r: nat, size: nat)
    requires r <= c <= p < c + TWO32 && c - r <= size < TWO32
    ensures Unconsumed(Wrap(p), Wrap(c), Wrap(r), size) == if p - c < size - (c - r) then p - c else size - (c - r)
  {
    MinusExact(p, c);
    MinusExact(c, r);
  }

  /** The guard is true once as many requests are consumed and not answered as the ring has slots. */
  lemma OverflowIff(c: nat, r: nat, size: nat)
    requires r <= c < r + TWO32
    ensures Overflow(Wrap(c), Wrap(r), size) <==> c - r >= size
  {
    MinusExact(c, r);
  }

  lemma MinusWraps(p: nat, c: nat)
    requires 0 < c - p <= TWO32
    ensures Minus(Wrap(p), Wrap(c)) == p - c + TWO32 || (c == p + TWO32 && Wrap(p) == Wrap(c))
  {
    SlotIsRemainder(p, TWO32);
    SlotIsRemainder(c, TWO32);
  }

  /** A push notifies exactly when the event index lies among the indices it publishes. */
  lemma NotifyIff(before: nat, after: nat, event: nat)
    requires before < after < before + TWO32 && after - TWO32 < event <= before + TWO32
    ensures MustNotify(Wrap(before), Wrap(after), Wrap(event)) <==> before < event <= after
  {
    MinusExact(after, before);
    if event <= after {
      MinusExact(after, event);
    } else {
      MinusWraps(after, event);
    }
  }
}
