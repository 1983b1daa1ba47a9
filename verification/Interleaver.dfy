/**
 The interleaver of mwandr/tool.c and its unsigned variant in kerptest/mwandr/tool.c:
 which byte counts it permutes, and when the machine arithmetic equals the mathematics.
 */
module Interleaver {
  import opened NumberTheory
  import opened Words
  import Qpp
  import Table
  import WordTable
  import SignTable
  import opened ByteStreams

  /** The rows the lookup picks make the interleaver a permutation of the block. */
  ghost predicate PermutesBlock(kByte: int)
    requires 5 <= kByte <= 768
  {
    Qpp.Permutes(Table.F1(kByte), Table.F2(kByte), 8 * kByte)
  }

  // ----- classification of the accepted byte counts -----

  lemma CertifiedCriterion(f1: nat, f2: nat, k: nat, inverse: int)
    requires k > 1 && f1 * inverse % k == 1 && Table.Power7(f2) % k == 0
    ensures Qpp.Criterion(f1, f2, k)
  {
    var q := f1 * inverse / k;
    assert f1 * inverse == q * k + 1;
    forall d: nat | Divides(d, f1) && Divides(d, k)
      ensures d == 1
    {
      DividesLinear(d, f1, k, inverse, -q);
      DivisorBound(d, 1);
    }
    DividesMod(k, Table.Power7(f2));
    Table.Power7IsPow(f2);
    forall p: nat | Prime(p) && Divides(p, k)
      ensures Divides(p, f2)
    {
      DividesTrans(p, k, Pow(f2, 7));
      PrimeDividesPow(p, f2, 7);
    }
  }

  /** TS 36.212, section 5.1.3.2.3: every tabulated block size is permuted. */
  lemma LegalPermutes(kByte: int)
    requires Table.Legal(kByte)
    ensures PermutesBlock(kByte)
  {
    var row := Table.GetFIndex(kByte);
    Table.LookupRoundsDown(kByte);
    Table.RowCertificates(row);
    CertifiedCriterion(Table.F1(kByte), Table.F2(kByte), 8 * kByte, Table.Inverse(row));
    Qpp.PermutesIff(Table.F1(kByte), Table.F2(kByte), 8 * kByte);
  }

  /** Four byte counts outside the table are permuted by the row they round down to. */
  lemma LuckyPermutes(kByte: int)
    requires kByte in {162, 243, 343, 486}
    ensures PermutesBlock(kByte)
  {
    var inverse := match kByte
      case 162 => 775
      case 243 => 439
      case 343 => 2031
      case _ => 787;
    CertifiedCriterion(Table.F1(kByte), Table.F2(kByte), 8 * kByte, inverse);
    Qpp.PermutesIff(Table.F1(kByte), Table.F2(kByte), 8 * kByte);
  }

  /** 405 bytes: 3 divides the block, f1 = 111 and f2 = 240. */
  lemma Fails405()
    ensures !PermutesBlock(405)
  {
    assert Table.F1(405) == 37 * 3 && Table.F2(405) == 80 * 3 && 8 * 405 == 1080 * 3;
    assert Divides(3, 37 * 3) && Divides(3, 80 * 3) && Divides(3, 1080 * 3);
    ThreeIsPrime();
    Qpp.CommonPrimeMissesOne(Table.F1(405), Table.F2(405), 8 * 405, 3);
  }

  lemma ThreeIsPrime()
    ensures Prime(3)
  {
    DividesMod(2, 3);
  }

  lemma OtherwiseFails(kByte: int)
    requires 5 <= kByte <= 768 && !Table.Legal(kByte) && kByte !in {162, 243, 343, 486}
    ensures !PermutesBlock(kByte)
  {
    if kByte == 405 {
      Fails405();
    } else {
      Table.FailsBetweenRows(kByte);
      var p: nat :| Prime(p) && Divides(p, kByte) && !Divides(p, Table.F2(kByte));
      assert 8 * kByte == 8 * kByte;
      DividesTrans(p, kByte, 8 * kByte);
      Qpp.PermutesIff(Table.F1(kByte), Table.F2(kByte), 8 * kByte);
    }
  }

  /** Exactly which of the byte counts the lookup accepts are permuted. */
  lemma PermutesClassification(kByte: int)
    requires 5 <= kByte <= 768
    ensures PermutesBlock(kByte) <==> Table.Legal(kByte) || kByte in {162, 243, 343, 486}
  {
    if Table.Legal(kByte) {
      LegalPermutes(kByte);
    } else if kByte in {162, 243, 343, 486} {
      LuckyPermutes(kByte);
    } else {
      OtherwiseFails(kByte);
    }
  }

  // ----- the interleaved sequence and its inverse -----

  function Interleaved<T>(s: seq<T>, f1: nat, f2: nat, k: nat): (t: seq<T>)
    requires k <= |s|
  {
    seq(k, i requires 0 <= i < k => s[Qpp.Index(f1, f2, k, i)])
  }

  ghost function Origin(f1: nat, f2: nat, k: nat, v: nat): (i: nat)
    requires k > 0 && Qpp.Surjective(f1, f2, k) && v < k
    ensures i < k && Qpp.Index(f1, f2, k, i) == v
  {
    assert Qpp.Hits(f1, f2, k, v);
    var i :| 0 <= i < k && Qpp.Index(f1, f2, k, i) == v;
    i
  }

  ghost function Deinterleaved<T>(t: seq<T>, f1: nat, f2: nat, k: nat): (s: seq<T>)
    requires k > 0 && Qpp.Surjective(f1, f2, k) && k <= |t|
  {
    seq(k, v requires 0 <= v < k => t[Origin(f1, f2, k, v)])
  }

  /** Deinterleaving undoes interleaving, and the other way round. */
  lemma InterleaveRoundTrip<T>(s: seq<T>, f1: nat, f2: nat, k: nat)
    requires k > 0 && Qpp.Permutes(f1, f2, k) && |s| == k
    ensures Deinterleaved(Interleaved(s, f1, f2, k), f1, f2, k) == s
    ensures Interleaved(Deinterleaved(s, f1, f2, k), f1, f2, k) == s
  {
    forall i | 0 <= i < k
      ensures Origin(f1, f2, k, Qpp.Index(f1, f2, k, i)) == i
    {
      var j := Origin(f1, f2, k, Qpp.Index(f1, f2, k, i));
      assert Qpp.Index(f1, f2, k, j) == Qpp.Index(f1, f2, k, i);
    }
  }

  // ----- machine arithmetic -----

  newtype int32 = n: int | -0x8000_0000 <= n < 0x8000_0000

  /** Every index of the block is computed below the limit. */
  predicate FitsBelow(f1: nat, f2: nat, k: nat, limit: nat)
  {
    k == 0 || Qpp.Poly(f1, f2, k - 1) < limit
  }

  /** No signed overflow anywhere in the loop, exactly when the last index fits. */
  lemma FitsBelowIff(f1: nat, f2: nat, k: nat, limit: nat)
    ensures FitsBelow(f1, f2, k, limit) <==> forall i: nat | i < k :: Qpp.Poly(f1, f2, i) < limit
  {
    if k > 0 {
      forall i: nat | i < k
        ensures Qpp.Poly(f1, f2, i) <= Qpp.Poly(f1, f2, k - 1)
      {
        Qpp.PolyMonotone(f1, f2, i, k - 1);
      }
    }
  }

  function U32(n: nat): (r: nat)
    ensures r < TWO32
  {
    n % TWO32
  }

  /** The index as kerptest computes it, every operation reduced to 32 unsigned bits. */
  function WrappedIndex(f1: nat, f2: nat, k: nat, i: nat): nat
    requires k > 0
  {
    U32(U32(f1 * i) + U32(U32(f2 * i) * i)) % k
  }

  lemma WrapOnce(f1: nat, f2: nat, i: nat)
    ensures U32(U32(f1 * i) + U32(U32(f2 * i) * i)) == U32(Qpp.Poly(f1, f2, i))
  {
    var a, b := f1 * i, f2 * i;
    var qa, qb := a / TWO32, b / TWO32;
    var c := U32(b) * i;
    assert b * i == c + TWO32 * (qb * i) by {
      assert b == TWO32 * qb + U32(b);
      assert (TWO32 * qb + U32(b)) * i == TWO32 * (qb * i) + U32(b) * i;
    }
    var qc := c / TWO32;
    var s := U32(a) + U32(c);
    assert Qpp.Poly(f1, f2, i) == (qa + qb * i + qc + s / TWO32) * TWO32 + s % TWO32;
    ModUnique(Qpp.Poly(f1, f2, i), TWO32, qa + qb * i + qc + s / TWO32, s % TWO32);
  }

  lemma WrapExact(f1: nat, f2: nat, k: nat, i: nat)
    requires i < k && (FitsBelow(f1, f2, k, TWO32) || TWO32 % k == 0)
    ensures WrappedIndex(f1, f2, k, i) == Qpp.Index(f1, f2, k, i)
  {
    WrapOnce(f1, f2, i);
    ReductionExact(f1, f2, k, i);
  }

  lemma ReductionExact(f1: nat, f2: nat, k: nat, i: nat)
    requires i < k && (FitsBelow(f1, f2, k, TWO32) || TWO32 % k == 0)
    ensures U32(Qpp.Poly(f1, f2, i)) % k == Qpp.Index(f1, f2, k, i)
  {
    if FitsBelow(f1, f2, k, TWO32) {
      FitsBelowIff(f1, f2, k, TWO32);
      NothingDropped(Qpp.Poly(f1, f2, i), k);
    } else {
      DroppedByDivisor(Qpp.Poly(f1, f2, i), k);
    }
  }

  lemma NothingDropped(n: nat, k: nat)
    requires k > 0 && n < TWO32
    ensures U32(n) % k == n % k
  {
  }

  lemma DroppedByDivisor(n: nat, k: nat)
    requires k > 0 && TWO32 % k == 0
    ensures U32(n) % k == n % k
  {
    DividesMod(k, TWO32);
    DroppedMultiple(n, k, n / TWO32);
  }

  lemma WrapInexact(f1: nat, f2: nat, k: nat) returns (i: nat)
    requires k > 0 && f1 + f2 * (2 * k) < TWO32
    requires !FitsBelow(f1, f2, k, TWO32) && TWO32 % k != 0
    ensures i < k && WrappedIndex(f1, f2, k, i) != Qpp.Index(f1, f2, k, i)
  {
    i := FirstWrap(f1, f2, k);
    WrapOnce(f1, f2, i);
    WrappedOnceDiffers(Qpp.Poly(f1, f2, i), k);
  }

  lemma WrappedOnceDiffers(n: nat, k: nat)
    requires k > 0 && TWO32 <= n < 2 * TWO32 && TWO32 % k != 0
    ensures U32(n) % k != n % k
  {
    Qpp.ModEqual(n, n - TWO32, k);
    DividesMod(k, TWO32);
  }

  /** The unsigned loop computes every index exactly iff nothing wraps or the block divides 2^32. */
  lemma WrapExactIff(f1: nat, f2: nat, k: nat)
    requires k > 0 && f1 + f2 * (2 * k) < TWO32
    ensures (forall i: nat | i < k :: WrappedIndex(f1, f2, k, i) == Qpp.Index(f1, f2, k, i))
       <==> FitsBelow(f1, f2, k, TWO32) || TWO32 % k == 0
  {
    if FitsBelow(f1, f2, k, TWO32) || TWO32 % k == 0 {
      forall i: nat | i < k
        ensures WrappedIndex(f1, f2, k, i) == Qpp.Index(f1, f2, k, i)
      {
        WrapExact(f1, f2, k, i);
      }
    } else {
      var i := WrapInexact(f1, f2, k);
    }
  }

  lemma DroppedMultiple(n: nat, k: nat, q: nat)
    requires k > 0 && Divides(k, TWO32) && q == n / TWO32
    ensures U32(n) % k == n % k
  {
    assert k == 1 * k;
    DividesLinear(k, TWO32, k, q, 0);
    Qpp.ModEqual(n, U32(n), k);
  }

  /** The first index past 2^32 is short of 2^33, because one step is below 2^32. */
  lemma FirstWrap(f1: nat, f2: nat, k: nat) returns (i: nat)
    requires k > 0 && f1 + f2 * (2 * k) < TWO32 && !FitsBelow(f1, f2, k, TWO32)
    ensures i < k && TWO32 <= Qpp.Poly(f1, f2, i) < 2 * TWO32
  {
    i := 0;
    while Qpp.Poly(f1, f2, i) < TWO32
      invariant i < k
      invariant Qpp.Poly(f1, f2, i) < 2 * TWO32
      decreases k - i
    {
      StepBound(f1, f2, k, i);
      i := i + 1;
    }
  }

  lemma StepBound(f1: nat, f2: nat, k: nat, i: nat)
    requires i + 1 <= k && f1 + f2 * (2 * k) < TWO32
    ensures Qpp.Poly(f1, f2, i + 1) < Qpp.Poly(f1, f2, i) + TWO32
  {
    Qpp.PolyDifference(f1, f2, i, 1);
    MulMonotone(f2, 2 * i + 1, 2 * k);
  }

  /** For every byte count the lookup accepts: whether the signed loop overflows, and the list for the legal ones. */
  lemma SignedRange(kByte: int)
    requires 5 <= kByte <= 768
    ensures FitsBelow(Table.F1(kByte), Table.F2(kByte), 8 * kByte, TWO31) <==> WordTable.SignedSafe(kByte)
    ensures Table.Legal(kByte) ==> (WordTable.SignedSafe(kByte) <==> kByte <= 208 || kByte in WordTable.SIGNED_SIZES)
  {
    WordTable.SignedBound(kByte);
    Table.LookupRoundsDown(kByte);
  }

  /** For every byte count the lookup accepts: whether the unsigned loop wraps, and the list for the legal ones. */
  lemma UnsignedRange(kByte: int)
    requires 5 <= kByte <= 768
    ensures FitsBelow(Table.F1(kByte), Table.F2(kByte), 8 * kByte, TWO32) <==> WordTable.UnsignedSafe(kByte)
    ensures Table.Legal(kByte) ==> (WordTable.UnsignedSafe(kByte) <==> kByte !in WordTable.WRAPPING_SIZES)
  {
    WordTable.UnsignedBound(kByte);
    Table.LookupRoundsDown(kByte);
  }

  /** The unsigned loop reads no position of the block twice, and so each of them once. */
  ghost predicate WrappedInjective(f1: nat, f2: nat, k: nat)
    requires k > 0
  {
    forall i, j | 0 <= i < j < k :: WrappedIndex(f1, f2, k, i) != WrappedIndex(f1, f2, k, j)
  }

  ghost predicate WrappedPermutes(kByte: int)
    requires 5 <= kByte <= 768
  {
    WrappedInjective(Table.F1(kByte), Table.F2(kByte), 8 * kByte)
  }

  lemma ExactPermutes(kByte: int)
    requires 5 <= kByte <= 768 && FitsBelow(Table.F1(kByte), Table.F2(kByte), 8 * kByte, TWO32)
    ensures WrappedPermutes(kByte) <==> PermutesBlock(kByte)
  {
    var f1, f2, k := Table.F1(kByte), Table.F2(kByte), 8 * kByte;
    forall i: nat | i < k
      ensures WrappedIndex(f1, f2, k, i) == Qpp.Index(f1, f2, k, i)
    {
      WrapExact(f1, f2, k, i);
    }
    if Qpp.Injective(f1, f2, k) {
      Qpp.InjectiveSurjective(f1, f2, k);
    }
  }

  lemma WrappedRemainder(f1: nat, f2: nat, k: nat, i: nat, n: nat)
    requires k > 0 && n == Qpp.Poly(f1, f2, i)
    ensures WrappedIndex(f1, f2, k, i) == n % TWO32 % k
  {
    WrapOnce(f1, f2, i);
  }

  lemma ClashFails(f1: nat, f2: nat, k: nat, i: nat, j: nat)
    requires i < j < k && Qpp.Poly(f1, f2, i) % TWO32 % k == Qpp.Poly(f1, f2, j) % TWO32 % k
    ensures !WrappedInjective(f1, f2, k)
  {
    var m, n := Qpp.Poly(f1, f2, i), Qpp.Poly(f1, f2, j);
    WrappedRemainder(f1, f2, k, i, m);
    WrappedRemainder(f1, f2, k, j, n);
    assert WrappedIndex(f1, f2, k, i) == WrappedIndex(f1, f2, k, j);
  }

  lemma WrappingFails(kByte: int)
    requires 5 <= kByte <= 768 && !WordTable.UnsignedSafe(kByte)
    ensures !WrappedPermutes(kByte)
  {
    var i, j := WordTable.WrappingClashes(kByte);
    ClashFails(Table.F1(kByte), Table.F2(kByte), 8 * kByte, i, j);
  }

  /** The unsigned loop permutes a block exactly when the polynomial does and nothing wraps. */
  lemma UnsignedPermutesIff(kByte: int)
    requires 5 <= kByte <= 768
    ensures WrappedPermutes(kByte)
      <==> PermutesBlock(kByte) && FitsBelow(Table.F1(kByte), Table.F2(kByte), 8 * kByte, TWO32)
  {
    UnsignedRange(kByte);
    if WordTable.UnsignedSafe(kByte) {
      ExactPermutes(kByte);
    } else {
      WrappingFails(kByte);
    }
  }

  /** Which byte counts that is: 168 legal ones and four others. */
  lemma UnsignedClassification(kByte: int)
    requires 5 <= kByte <= 768
    ensures WrappedPermutes(kByte) <==>
      (Table.Legal(kByte) && kByte !in WordTable.WRAPPING_SIZES) || kByte in {162, 243, 343, 486}
  {
    UnsignedPermutesIff(kByte);
    UnsignedRange(kByte);
    PermutesClassification(kByte);
  }

  // ----- a machine whose int wraps -----

  /** The low 32 bits read as a two's-complement number. */
  function S32(n: int): (r: int)
    ensures 0 <= r + TWO31 < TWO32
  {
    var u := n % TWO32;
    if u < TWO31 then u else u - TWO32
  }

  /** C's remainder, which has the sign of the dividend. */
  function Remainder(n: int, k: nat): int
    requires k > 0
  {
    if n >= 0 then n % k else -(-n % k)
  }

  /** The index expression of mwandr/tool.c where int operations wrap instead of being undefined. */
  function SignedPoly(f1: nat, f2: nat, i: nat): int
  {
    S32(S32(f1 * i) + S32(S32(f2 * i) * i))
  }

  function SignedIndex(f1: nat, f2: nat, k: nat, i: nat): int
    requires k > 0
  {
    Remainder(SignedPoly(f1, f2, i), k)
  }

  /** Multiples of 2^32 make no difference. */
  lemma S32Drops(n: int, q: int)
    ensures S32(n + q * TWO32) == S32(n)
  {
    ModUnique(n + q * TWO32, TWO32, n / TWO32 + q, n % TWO32);
  }

  lemma S32Quotient(n: int) returns (q: int)
    ensures S32(n) == n + q * TWO32
  {
    q := if n % TWO32 < TWO31 then -(n / TWO32) else -(n / TWO32) - 1;
  }

  lemma S32Times(b: int, i: nat)
    ensures S32(S32(b) * i) == S32(b * i)
  {
    var q := S32Quotient(b);
    assert (b + q * TWO32) * i == b * i + (q * i) * TWO32;
    S32Drops(b * i, q * i);
  }

  lemma S32Plus(a: int, c: int)
    ensures S32(S32(a) + S32(c)) == S32(a + c)
  {
    var p := S32Quotient(a);
    var q := S32Quotient(c);
    S32Drops(a + c, p + q);
  }

  /** Wrapping every operation equals wrapping the polynomial once. */
  lemma SignedWrapOnce(f1: nat, f2: nat, i: nat)
    ensures SignedPoly(f1, f2, i) == S32(Qpp.Poly(f1, f2, i))
  {
    S32Times(f2 * i, i);
    S32Plus(f1 * i, f2 * i * i);
  }

  lemma SignedInRange(f1: nat, f2: nat, k: nat, i: nat)
    requires i < k && FitsBelow(f1, f2, k, TWO31)
    ensures SignedIndex(f1, f2, k, i) == Qpp.Index(f1, f2, k, i)
  {
    FitsBelowIff(f1, f2, k, TWO31);
    SignedSmall(f1, f2, k, i, Qpp.Poly(f1, f2, i));
  }

  lemma SignedSmall(f1: nat, f2: nat, k: nat, i: nat, n: nat)
    requires k > 0 && n == Qpp.Poly(f1, f2, i) && n < TWO31
    ensures SignedIndex(f1, f2, k, i) == n % k
  {
    SignedWrapOnce(f1, f2, i);
    S32Small(n);
  }

  lemma S32Small(n: nat)
    requires n < TWO32
    ensures S32(n) == if n < TWO31 then n else n - TWO32
  {
  }

  lemma SignedNegative(f1: nat, f2: nat, k: nat, i: nat, n: nat)
    requires k > 0 && n == Qpp.Poly(f1, f2, i) && TWO31 <= n < TWO32 && (TWO32 - n) % k != 0
    ensures SignedIndex(f1, f2, k, i) < 0
  {
    SignedWrapOnce(f1, f2, i);
    S32Small(n);
    NegativeRemainder(n - TWO32, k);
  }

  lemma NegativeRemainder(n: int, k: nat)
    requires k > 0 && n < 0 && -n % k != 0
    ensures Remainder(n, k) < 0
  {
  }

  /**
   For every byte count the lookup accepts: on a machine whose int wraps the loop reads inside the block exactly if
   nothing overflows, and then at the right positions; otherwise the first index to overflow is before the array.
   */
  lemma SignedInsideIff(kByte: int)
    requires 5 <= kByte <= 768
    ensures (forall i: nat | i < 8 * kByte :: 0 <= SignedIndex(Table.F1(kByte), Table.F2(kByte), 8 * kByte, i))
      <==> WordTable.SignedSafe(kByte)
    ensures WordTable.SignedSafe(kByte) ==>
      forall i: nat | i < 8 * kByte :: SignedIndex(Table.F1(kByte), Table.F2(kByte), 8 * kByte, i)
        == Qpp.Index(Table.F1(kByte), Table.F2(kByte), 8 * kByte, i)
  {
    var f1, f2, k := Table.F1(kByte), Table.F2(kByte), 8 * kByte;
    SignedRange(kByte);
    if WordTable.SignedSafe(kByte) {
      forall i: nat | i < k
        ensures SignedIndex(f1, f2, k, i) == Qpp.Index(f1, f2, k, i)
      {
        SignedInRange(f1, f2, k, i);
      }
    } else {
      var i := OverflowReadsBefore(kByte);
    }
  }

  /** The first position whose index leaves int is read before the array. */
  lemma OverflowReadsBefore(kByte: int) returns (i: nat)
    requires 5 <= kByte <= 768 && !WordTable.SignedSafe(kByte)
    ensures 0 < i < 8 * kByte && Qpp.Poly(Table.F1(kByte), Table.F2(kByte), i - 1) < TWO31
    ensures TWO31 <= Qpp.Poly(Table.F1(kByte), Table.F2(kByte), i)
    ensures SignedIndex(Table.F1(kByte), Table.F2(kByte), 8 * kByte, i) < 0
  {
    i := SignTable.OverflowNegative(kByte);
    SignedNegative(Table.F1(kByte), Table.F2(kByte), 8 * kByte, i, Qpp.Poly(Table.F1(kByte), Table.F2(kByte), i));
  }

  // ----- the loops -----

  /** mwandr/tool.c: int32 operations, each shown not to overflow. */
  method InterleaveSigned(x: array<Byte>, f1: int32, f2: int32, kBit: int32, xInterleaved: array<Byte>)
    requires x != xInterleaved && 0 <= kBit as int <= x.Length && kBit as int <= xInterleaved.Length
    requires f1 >= 0 && f2 >= 0 && FitsBelow(f1 as nat, f2 as nat, kBit as nat, TWO31)
    modifies xInterleaved
    ensures xInterleaved[..kBit] == Interleaved(x[..], f1 as nat, f2 as nat, kBit as nat)
    ensures xInterleaved[kBit..] == old(xInterleaved[kBit..])
  {
    var i: int32 := 0;
    while i < kBit
      invariant 0 <= i <= kBit
      invariant forall j: nat | j < i as nat ::
        xInterleaved[j] == x[Qpp.Index(f1 as nat, f2 as nat, kBit as nat, j)]
      invariant xInterleaved[kBit..] == old(xInterleaved[kBit..])
    {
      FitsBelowIff(f1 as nat, f2 as nat, kBit as nat, TWO31);
      IntermediatesFit(f1 as nat, f2 as nat, i as nat);
      var index := (f1 * i + f2 * i * i) % kBit;
      xInterleaved[i] := x[index];
      i := i + 1;
    }
  }

  lemma IntermediatesFit(f1: nat, f2: nat, i: nat)
    ensures 0 <= f1 * i <= Qpp.Poly(f1, f2, i)
    ensures 0 <= f2 * i * i <= Qpp.Poly(f1, f2, i)
    ensures 0 <= f2 * i <= Qpp.Poly(f1, f2, i)
  {
    if i > 0 {
      MulMonotone(f2 * i, 1, i);
    }
  }

  lemma ParametersFit(f1: nat, f2: nat, k: nat)
    requires 2 <= k < TWO31 && FitsBelow(f1, f2, k, TWO31)
    ensures f1 < TWO31 && f2 < TWO31
  {
    Qpp.PolyMonotone(f1, f2, 1, k - 1);
  }

  /** kerptest/mwandr/tool.c: unsigned arithmetic, total, but only exact as WrapExactIff says. */
  method InterleaveUnsigned(x: array<Byte>, f1: nat, f2: nat, kBit: nat, xInterleaved: array<Byte>)
    requires x != xInterleaved && kBit <= x.Length && kBit <= xInterleaved.Length
    modifies xInterleaved
    ensures forall j | 0 <= j < kBit :: xInterleaved[j] == x[WrappedIndex(f1, f2, kBit, j)]
    ensures xInterleaved[kBit..] == old(xInterleaved[kBit..])
    ensures kBit > 0 && (FitsBelow(f1, f2, kBit, TWO32) || TWO32 % kBit == 0)
        ==> xInterleaved[..kBit] == Interleaved(x[..], f1, f2, kBit)
  {
    var i := 0;
    while i < kBit
      invariant 0 <= i <= kBit
      invariant forall j | 0 <= j < i :: xInterleaved[j] == x[WrappedIndex(f1, f2, kBit, j)]
      invariant xInterleaved[kBit..] == old(xInterleaved[kBit..])
    {
      var index := U32(U32(f1 * i) + U32(U32(f2 * i) * i)) % kBit;
      xInterleaved[i] := x[index];
      i := i + 1;
    }
    if kBit > 0 && (FitsBelow(f1, f2, kBit, TWO32) || TWO32 % kBit == 0) {
      forall j | 0 <= j < kBit
        ensures WrappedIndex(f1, f2, kBit, j) == Qpp.Index(f1, f2, kBit, j)
      {
        WrapExact(f1, f2, kBit, j);
      }
    }
  }
}
