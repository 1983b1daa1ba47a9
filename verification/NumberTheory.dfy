/**
 Divisibility facts behind the interleaver proofs: Bezout's identity, Euclid's lemma,
 prime factors, and the link between "every prime factor of k divides a" and
 "k divides a power of a".
 */
module NumberTheory {
  import opened Words

  /** d divides n. */
  ghost predicate Divides(d: nat, n: int)
  {
    exists q: int :: n == q * d
  }

  ghost predicate Prime(p: nat)
  {
    2 <= p && forall d: nat | 1 < d < p :: !Divides(d, p)
  }

  ghost predicate Coprime(a: nat, b: nat)
  {
    forall d: nat | Divides(d, a) && Divides(d, b) :: d == 1
  }

  /** Every prime factor of k divides a. */
  ghost predicate RadicalDivides(k: nat, a: nat)
  {
    forall p: nat | Prime(p) && Divides(p, k) :: Divides(p, a)
  }

  function Gcd(a: nat, b: nat): nat
    decreases b
  {
    if b == 0 then a else Gcd(b, a % b)
  }

  function Pow(a: int, e: nat): int
  {
    if e == 0 then 1 else a * Pow(a, e - 1)
  }

  lemma DividesMod(d: nat, n: int)
    requires d > 0
    ensures Divides(d, n) <==> n % d == 0
  {
    if n % d == 0 {
      assert n == (n / d) * d;
    }
    if Divides(d, n) {
      var q: int :| n == q * d;
      ModUnique(n, d, q, 0);
    }
  }

  lemma DividesLinear(d: nat, a: int, b: int, x: int, y: int)
    requires Divides(d, a) && Divides(d, b)
    ensures Divides(d, x * a + y * b)
  {
    var p: int :| a == p * d;
    var q: int :| b == q * d;
    assert x * a + y * b == (x * p + y * q) * d;
  }

  lemma DividesTrans(d: nat, e: nat, n: int)
    requires Divides(d, e) && Divides(e, n)
    ensures Divides(d, n)
  {
    var p: int :| e == p * d;
    var q: int :| n == q * e;
    assert n == (q * p) * d;
  }

  lemma DivisorBound(d: nat, n: nat)
    requires Divides(d, n) && n > 0
    ensures 1 <= d <= n
  {
    var q: int :| n == q * d;
    if q >= 1 {
      MulAtLeast(q, d);
    }
  }

  lemma {:induction false} Bezout(a: nat, b: nat) returns (x: int, y: int)
    requires a > 0 || b > 0
    ensures a * x + b * y == Gcd(a, b)
    ensures Divides(Gcd(a, b), a) && Divides(Gcd(a, b), b)
    decreases b
  {
    if b == 0 {
      x, y := 1, 0;
      assert a == 1 * a && b == 0 * a;
    } else {
      var u, v := Bezout(b, a % b);
      x, y := v, u - (a / b) * v;
      var g := Gcd(a, b);
      calc {
        a * x + b * y;
        a * v + b * u - b * (a / b) * v;
        b * u + (a - b * (a / b)) * v;
        { assert a - b * (a / b) == a % b; }
        b * u + (a % b) * v;
      }
      DividesLinear(g, b, a % b, a / b, 1);
      assert (a / b) * b + 1 * (a % b) == a;
    }
  }

  lemma CoprimeIffGcd(a: nat, b: nat)
    requires a > 0 || b > 0
    ensures Coprime(a, b) <==> Gcd(a, b) == 1
  {
    var x, y := Bezout(a, b);
    if Gcd(a, b) == 1 {
      forall d: nat | Divides(d, a) && Divides(d, b)
        ensures d == 1
      {
        DividesLinear(d, a, b, x, y);
        assert x * a + y * b == 1;
        DivisorBound(d, 1);
      }
    }
  }

  /** Euclid's lemma. */
  lemma EuclidLemma(k: nat, a: nat, d: int)
    requires k > 0 && Coprime(a, k) && Divides(k, d * a)
    ensures Divides(k, d)
  {
    CoprimeIffGcd(a, k);
    var x, y := Bezout(a, k);
    assert k == 1 * k;
    DividesLinear(k, d * a, k, x, d * y);
    calc {
      x * (d * a) + (d * y) * k;
      d * (a * x + k * y);
      d;
    }
  }

  lemma PrimeCoprime(p: nat, a: nat)
    requires Prime(p) && !Divides(p, a)
    ensures Coprime(a, p)
  {
    forall d: nat | Divides(d, a) && Divides(d, p)
      ensures d == 1
    {
      DivisorBound(d, p);
    }
  }

  lemma EuclidPrime(p: nat, a: nat, d: int)
    requires Prime(p) && Divides(p, d * a)
    ensures Divides(p, a) || Divides(p, d)
  {
    if !Divides(p, a) {
      PrimeCoprime(p, a);
      EuclidLemma(p, a, d);
    }
  }

  lemma {:induction false} PrimeFactor(n: nat) returns (p: nat)
    requires n >= 2
    ensures Prime(p) && Divides(p, n)
    decreases n
  {
    if Prime(n) {
      p := n;
      assert n == 1 * n;
    } else {
      var d: nat :| 1 < d < n && Divides(d, n);
      p := PrimeFactor(d);
      DividesTrans(p, d, n);
    }
  }

  lemma {:induction false} PrimeDividesPow(p: nat, a: nat, e: nat)
    requires Prime(p) && Divides(p, Pow(a, e))
    ensures Divides(p, a)
  {
    if e == 0 {
      DivisorBound(p, 1);
    } else {
      assert Pow(a, e) == Pow(a, e - 1) * a;
      EuclidPrime(p, a, Pow(a, e - 1));
      if !Divides(p, a) {
        PrimeDividesPow(p, a, e - 1);
      }
    }
  }

  lemma Cofactor(p: nat, k: nat) returns (c: nat)
    requires p >= 2 && Divides(p, k) && k > 0
    ensures k == p * c && Divides(c, k) && 1 <= c && 2 * c <= k
  {
    var q: int :| k == q * p;
    c := q;
    assert p * c - 2 * c == (p - 2) * c;
  }

  lemma DividesProduct(c: nat, m: int, p: nat, n: int)
    requires Divides(c, m) && Divides(p, n)
    ensures Divides(p * c, n * m)
  {
    var u: int :| m == u * c;
    var v: int :| n == v * p;
    assert n * m == (v * u) * (p * c);
  }

  lemma {:induction false} RadicalDividesPow(k: nat, a: nat, e: nat)
    requires 1 <= k < Pow(2, e) && RadicalDivides(k, a)
    ensures Divides(k, Pow(a, e))
  {
    if k == 1 {
      assert Pow(a, e) == Pow(a, e) * 1;
    } else {
      var p := PrimeFactor(k);
      var c := Cofactor(p, k);
      forall r: nat | Prime(r) && Divides(r, c)
        ensures Divides(r, a)
      {
        DividesTrans(r, c, k);
      }
      RadicalDividesPow(c, a, e - 1);
      DividesProduct(c, Pow(a, e - 1), p, a);
    }
  }

  /** A computable criterion for "every prime factor of k divides a". */
  lemma RadicalIffPow(k: nat, a: nat, e: nat)
    requires 1 <= k < Pow(2, e)
    ensures RadicalDivides(k, a) <==> Divides(k, Pow(a, e))
  {
    if RadicalDivides(k, a) {
      RadicalDividesPow(k, a, e);
    }
    if Divides(k, Pow(a, e)) {
      forall p: nat | Prime(p) && Divides(p, k)
        ensures Divides(p, a)
      {
        DividesTrans(p, k, Pow(a, e));
        PrimeDividesPow(p, a, e);
      }
    }
  }
}
