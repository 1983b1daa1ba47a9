/**
 The quadratic permutation polynomial of the turbo code's internal interleaver
 (3GPP TS 36.212, section 5.1.3.2.3): exactly when i -> (f1*i + f2*i*i) mod k permutes [0, k).
 */
module Qpp {
  import opened Counting
  import opened NumberTheory
  import opened Words

  function Poly(f1: nat, f2: nat, i: nat): nat
  {
    f1 * i + f2 * i * i
  }

  function Index(f1: nat, f2: nat, k: nat, i: nat): (index: nat)
    requires k > 0
    ensures index < k
  {
    Poly(f1, f2, i) % k
  }

  ghost predicate Injective(f1: nat, f2: nat, k: nat)
    requires k > 0
  {
    forall i, j | 0 <= i < j < k :: Index(f1, f2, k, i) != Index(f1, f2, k, j)
  }

  ghost predicate Hits(f1: nat, f2: nat, k: nat, v: nat)
    requires k > 0
  {
    exists i | 0 <= i < k :: Index(f1, f2, k, i) == v
  }

  ghost predicate Surjective(f1: nat, f2: nat, k: nat)
    requires k > 0
  {
    forall v | 0 <= v < k :: Hits(f1, f2, k, v)
  }

  ghost predicate Permutes(f1: nat, f2: nat, k: nat)
    requires k > 0
  {
    Injective(f1, f2, k) && Surjective(f1, f2, k)
  }

  /** The hypotheses of the standard's interleaver design. */
  ghost predicate Criterion(f1: nat, f2: nat, k: nat)
  {
    Coprime(f1, k) && RadicalDivides(k, f2)
  }

  // ----- shared arithmetic -----

  lemma ModEqual(a: int, b: int, k: nat)
    requires k > 0
    ensures a % k == b % k <==> Divides(k, a - b)
  {
    var q := a / k - b / k;
    assert a - b == q * k + (a % k - b % k);
    if a % k == b % k {
      assert a - b == q * k;
    }
    if Divides(k, a - b) {
      var d: int :| a - b == d * k;
      assert a == (b / k + d) * k + b % k;
      ModUnique(a, k, b / k + d, b % k);
    }
  }

  lemma PolyDifference(f1: nat, f2: nat, j: nat, c: nat)
    ensures Poly(f1, f2, j + c) - Poly(f1, f2, j) == c * (f1 + f2 * (2 * j + c))
  {
    assert f2 * (j + c) * (j + c) == f2 * j * j + f2 * (2 * j * c) + f2 * c * c;
    assert c * (f1 + f2 * (2 * j + c)) == c * f1 + f2 * (2 * j * c) + f2 * c * c;
  }

  lemma PolyMonotone(f1: nat, f2: nat, i: nat, j: nat)
    requires i <= j
    ensures f1 * i <= f1 * j && f2 * i <= f2 * j && f2 * i * i <= f2 * j * j
    ensures Poly(f1, f2, i) <= Poly(f1, f2, j)
  {
    MulMonotone(f1, i, j);
    MulMonotone(f2, i, j);
    MulMonotone(f2 * i, i, j);
    MulMonotone(j, f2 * i, f2 * j);
  }

  /** Two positions collide exactly when k divides the factored difference. */
  lemma CollisionIff(f1: nat, f2: nat, k: nat, j: nat, c: nat)
    requires k > 0
    ensures Index(f1, f2, k, j + c) == Index(f1, f2, k, j) <==> Divides(k, c * (f1 + f2 * (2 * j + c)))
  {
    PolyDifference(f1, f2, j, c);
    ModEqual(Poly(f1, f2, j + c), Poly(f1, f2, j), k);
  }

  // ----- the criterion suffices -----

  lemma DividesIntercept(p: nat, f1: int, f2: int, s: int)
    requires Divides(p, f1 + f2 * s) && Divides(p, f2)
    ensures Divides(p, f1)
  {
    DividesLinear(p, f1 + f2 * s, f2, 1, -s);
    assert (-s) * f2 == -(f2 * s);
  }

  lemma SlopeCoprime(f1: nat, f2: nat, k: nat, s: nat)
    requires k > 0 && Criterion(f1, f2, k)
    ensures Coprime(f1 + f2 * s, k)
  {
    forall d: nat | Divides(d, f1 + f2 * s) && Divides(d, k)
      ensures d == 1
    {
      DivisorBound(d, k);
      if d >= 2 {
        var p := PrimeFactor(d);
        DividesTrans(p, d, k);
        DividesTrans(p, d, f1 + f2 * s);
        DividesIntercept(p, f1, f2, s);
      }
    }
  }

  lemma CriterionInjective(f1: nat, f2: nat, k: nat)
    requires k > 0 && Criterion(f1, f2, k)
    ensures Injective(f1, f2, k)
  {
    forall i, j | 0 <= i < j < k
      ensures Index(f1, f2, k, i) != Index(f1, f2, k, j)
    {
      var c := j - i;
      if Index(f1, f2, k, i + c) == Index(f1, f2, k, i) {
        CollisionIff(f1, f2, k, i, c);
        SlopeCoprime(f1, f2, k, 2 * i + c);
        EuclidLemma(k, f1 + f2 * (2 * i + c), c);
        DivisorBound(k, c);
      }
    }
  }

  /** Pigeonhole: a sequence of distinct indices hits every index. */
  lemma DistinctCovers(s: seq<nat>)
    requires forall i | 0 <= i < |s| :: s[i] < |s|
    requires forall i, j | 0 <= i < j < |s| :: s[i] != s[j]
    ensures forall v: nat | v < |s| :: v in s
  {
    var values := set x | x in s;
    DistinctCount(s, values);
    var all := Below(|s|);
    assert values <= all;
    if values != all {
      SubsetCount(values, all);
    }
    forall v: nat | v < |s|
      ensures v in s
    {
      assert v in all;
    }
  }

  /** For every K the standard's hypotheses make the polynomial a permutation. */
  lemma CriterionPermutes(f1: nat, f2: nat, k: nat)
    requires k > 0 && Criterion(f1, f2, k)
    ensures Permutes(f1, f2, k)
  {
    CriterionInjective(f1, f2, k);
    InjectiveSurjective(f1, f2, k);
  }

  function Indices(f1: nat, f2: nat, k: nat): seq<nat>
    requires k > 0
  {
    seq(k, i requires 0 <= i < k => Index(f1, f2, k, i))
  }

  lemma InjectiveSurjective(f1: nat, f2: nat, k: nat)
    requires k > 0 && Injective(f1, f2, k)
    ensures Surjective(f1, f2, k)
  {
    var s := Indices(f1, f2, k);
    DistinctCovers(s);
    forall v | 0 <= v < k
      ensures Hits(f1, f2, k, v)
    {
      assert v in s;
      var i :| 0 <= i < |s| && s[i] == v;
      assert Index(f1, f2, k, i) == v;
    }
  }

  // ----- the criterion is necessary when 4 divides k -----

  /** A common prime of f1, f2 and k divides every index, so index 1 is never produced. */
  lemma CommonPrimeMissesOne(f1: nat, f2: nat, k: nat, p: nat)
    requires k > 1 && Prime(p) && Divides(p, k) && Divides(p, f1) && Divides(p, f2)
    ensures !Surjective(f1, f2, k)
  {
    forall i | 0 <= i < k
      ensures Index(f1, f2, k, i) != 1
    {
      DividesLinear(p, f1, f2, i, i * i);
      assert i * f1 + (i * i) * f2 == Poly(f1, f2, i);
      IndexDivisible(f1, f2, k, i, p);
    }
    assert !Hits(f1, f2, k, 1);
  }

  lemma IndexDivisible(f1: nat, f2: nat, k: nat, i: nat, p: nat)
    requires k > 0 && Prime(p) && Divides(p, k) && Divides(p, Poly(f1, f2, i))
    ensures Index(f1, f2, k, i) != 1
  {
    var n := Poly(f1, f2, i);
    DividesLinear(p, n, k, 1, -(n / k));
    assert 1 * n + -(n / k) * k == n % k;
    if n % k == 1 {
      DivisorBound(p, 1);
    }
  }

  /** An odd prime of k that does not divide f2 makes two positions k/p apart collide. */
  lemma OddPrimeCollision(f1: nat, f2: nat, k: nat, p: nat)
    requires k > 0 && k % 4 == 0 && Prime(p) && p % 2 == 1 && Divides(p, k) && !Divides(p, f2)
    ensures !Injective(f1, f2, k)
  {
    var c := Cofactor(p, k);
    CofactorAtLeastFour(p, c);
    var j := CollisionPoint(f1, f2, p, c);
    CollisionFromSlope(f1, f2, k, p, c, j);
    CollisionInRange(p, c, j);
    assert Index(f1, f2, k, j) == Index(f1, f2, k, j + c);
  }

  lemma CollisionFromSlope(f1: nat, f2: nat, k: nat, p: nat, c: nat, j: nat)
    requires k > 0 && k == p * c && Divides(p, f1 + f2 * (2 * j + c))
    ensures Index(f1, f2, k, j + c) == Index(f1, f2, k, j)
  {
    DividesScaled(k, p, c, f1 + f2 * (2 * j + c));
    CollisionIff(f1, f2, k, j, c);
  }

  lemma DividesScaled(k: nat, p: nat, c: nat, x: int)
    requires k == p * c && Divides(p, x)
    ensures Divides(k, c * x)
  {
    var q: int :| x == q * p;
    assert c * (q * p) == q * (p * c);
  }

  lemma CollisionInRange(p: nat, c: nat, j: nat)
    requires p >= 2 && j < p && c >= 4
    ensures j + c < p * c
  {
    assert p * c - c == (p - 1) * c;
    assert (p - 1) * c >= (p - 1) * 4;
  }

  lemma CofactorAtLeastFour(p: nat, c: nat)
    requires p % 2 == 1 && c >= 1 && (p * c) % 4 == 0
    ensures c >= 4
  {
    var h := p / 2;
    assert p * c == 2 * (h * c) + c;
  }

  lemma CollisionPoint(f1: nat, f2: nat, p: nat, c: nat) returns (j: nat)
    requires Prime(p) && p % 2 == 1 && !Divides(p, f2)
    ensures j < p && Divides(p, f1 + f2 * (2 * j + c))
  {
    PrimeCoprime(p, f2);
    CoprimeIffGcd(f2, p);
    var u, v := Bezout(f2, p);
    var s := -(f1 as int) * u;
    var t := ((p + 1) / 2) * (s - c);
    j := t % p;
    HalfStep(p, t, s - c, t / p);
    SolvesSlope(f1, f2, p, u, v, 2 * j + c, (s - c) - 2 * (t / p));
  }

  lemma HalfStep(p: nat, t: int, d: int, q: int)
    requires p % 2 == 1 && t == ((p + 1) / 2) * d
    ensures 2 * (t - p * q) - d == (d - 2 * q) * p
  {
    var h := (p + 1) / 2;
    assert 2 * (h * d) == (2 * h) * d;
    assert (p + 1) * d == p * d + d;
    assert (d - 2 * q) * p == p * d - 2 * (p * q);
  }

  lemma SolvesSlope(f1: int, f2: int, p: nat, u: int, v: int, x: int, w: int)
    requires f2 * u + p * v == 1 && x == -f1 * u + w * p
    ensures Divides(p, f1 + f2 * x)
  {
    calc {
      f1 + f2 * x;
      f1 + f2 * (-f1 * u) + f2 * (w * p);
      f1 - f1 * (f2 * u) + f2 * w * p;
      f1 - f1 * (1 - p * v) + f2 * w * p;
      (f1 * v + f2 * w) * p;
    }
  }

  /** An odd f2 on a multiple of four is never a permutation: 0 collides with k/2, or 1 is missed. */
  lemma OddQuadraticFails(f1: nat, f2: nat, k: nat)
    requires k > 0 && k % 4 == 0 && f2 % 2 == 1
    ensures !Permutes(f1, f2, k)
  {
    if f1 % 2 == 0 {
      var c := k / 2;
      var e := f1 / 2 + f2 * (k / 4);
      assert f1 + f2 * (2 * 0 + c) == 2 * e by {
        assert f2 * c == f2 * (2 * (k / 4));
      }
      assert c * (f1 + f2 * (2 * 0 + c)) == e * k by {
        assert c * (2 * e) == e * (2 * c);
      }
      CollisionIff(f1, f2, k, 0, c);
      assert Index(f1, f2, k, 0) == Index(f1, f2, k, 0 + c);
    } else {
      forall i | 0 <= i < k
        ensures Index(f1, f2, k, i) != 1
      {
        EvenPoly(f1, f2, i);
        TwoIsPrime();
        assert k == (k / 2) * 2;
        IndexDivisible(f1, f2, k, i, 2);
      }
      assert !Hits(f1, f2, k, 1);
    }
  }

  lemma TwoIsPrime()
    ensures Prime(2)
  {
  }

  lemma EvenPoly(f1: nat, f2: nat, i: nat)
    requires f1 % 2 == 1 && f2 % 2 == 1
    ensures Divides(2, Poly(f1, f2, i))
  {
    var a, b := f1 / 2, f2 / 2;
    assert f1 * i == 2 * (a * i) + i;
    assert f2 * (i * i) == 2 * (b * (i * i)) + i * i;
    assert f2 * i * i == f2 * (i * i);
    var q := ProductOfNeighbours(i);
    assert Poly(f1, f2, i) == (a * i + b * (i * i) + q) * 2;
  }

  lemma ProductOfNeighbours(i: nat) returns (q: nat)
    ensures i + i * i == 2 * q
  {
    if i % 2 == 0 {
      q := (i / 2) * (i + 1);
      EvenFactor(i, i + 1);
    } else {
      q := ((i + 1) / 2) * i;
      EvenFactor(i + 1, i);
    }
  }

  lemma EvenFactor(a: nat, b: nat)
    requires a % 2 == 0
    ensures a * b == 2 * ((a / 2) * b)
  {
    var h := a / 2;
    assert (2 * h) * b == 2 * (h * b);
  }

  /**
   For a block length that is a multiple of four the polynomial permutes the block exactly when
   f1 is coprime to k and every prime factor of k divides f2.
   */
  lemma PermutesIff(f1: nat, f2: nat, k: nat)
    requires k > 0 && k % 4 == 0
    ensures Permutes(f1, f2, k) <==> Criterion(f1, f2, k)
  {
    if Criterion(f1, f2, k) {
      CriterionPermutes(f1, f2, k);
    } else if !RadicalDivides(k, f2) {
      var p: nat :| Prime(p) && Divides(p, k) && !Divides(p, f2);
      PrimeNotDividingFails(f1, f2, k, p);
    } else {
      var d: nat :| Divides(d, f1) && Divides(d, k) && d != 1;
      DivisorBound(d, k);
      var p := PrimeFactor(d);
      DividesTrans(p, d, f1);
      DividesTrans(p, d, k);
      CommonPrimeMissesOne(f1, f2, k, p);
    }
  }

  lemma PrimeNotDividingFails(f1: nat, f2: nat, k: nat, p: nat)
    requires k > 0 && k % 4 == 0 && Prime(p) && Divides(p, k) && !Divides(p, f2)
    ensures !Permutes(f1, f2, k)
  {
    if p % 2 == 1 {
      OddPrimeCollision(f1, f2, k, p);
    } else {
      assert p == 2 by {
        assert p == (p / 2) * 2;
        assert Divides(2, p);
      }
      DividesMod(2, f2);
      OddQuadraticFails(f1, f2, k);
    }
  }
}
