/**
 Machine words and the elementary facts about multiples and remainders that the other modules share.
 */
module Words {

  const TWO31: nat := 0x8000_0000
  const TWO32: nat := 0x1_0000_0000
  const TWO64: nat := 0x1_0000_0000_0000_0000

  /** An unsigned 32-bit value. */
  type Word = n: int | 0 <= n < TWO32

  lemma MulAtLeast(c: int, d: nat)
    requires c >= 1
    ensures c * d >= d
  {
    assert (c - 1) * d >= 0;
  }

  lemma MulMonotone(n: nat, a: int, b: int)
    requires a <= b
    ensures n * a <= n * b
  {
  }

  /** The only multiple of d strictly between -d and d is zero. */
  lemma SmallMultiple(c: int, d: int)
    requires -d < c * d < d
    ensures c == 0
  {
    if c >= 1 {
      MulAtLeast(c, d);
    }
  }

  /** Quotient and remainder are determined by the Euclidean equation. */
  lemma ModUnique(n: int, d: nat, q: int, r: int)
    requires 0 <= r < d && n == q * d + r
    ensures n / d == q && n % d == r
  {
    SmallMultiple(n / d - q, d);
  }
}
