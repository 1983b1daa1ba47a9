/**
 The first position of a block whose index expression passes 2^31 (mwandr/tool.c with the parameters of tool.h), for
 every byte count that has one: read as a signed 32-bit number the expression is negative there, and never a multiple
 of the block, so that the remainder C computes is negative too.
 */
module SignTable {
  import opened Words
  import Qpp
  import Table
  import WordTable

  /** The first position past 2^31 in the rows of 264 bytes and more. */
  function PassingD(row: nat): nat
  {
    match row
    case 2 => 2261 case 4 => 2199 case 5 => 2170 case 6 => 2142 case 9 => 2065 case 12 => 2676
    case 17 => 2992 case 18 => 3244 case 20 => 3183 case 21 => 3344 case 22 => 3124 case 23 => 2529
    case 24 => 3069 case 25 => 3042 case 26 => 3017 case 28 => 2966 case 29 => 2942 case 30 => 3575
    case 32 => 4065 case 33 => 2853 case 34 => 4004 case 35 => 2294 case 36 => 3945 case 37 => 2769
    case 38 => 3888 case 39 => 2115 case 40 => 3836 case 41 => 2200 case 42 => 4231 case 43 => 3759
    case 44 => 2156 case 45 => 3030 case 46 => 3687 case 48 => 4730 case 49 => 1543 case 50 => 3597
    case 51 => 2528 case 52 => 3555 case 53 => 4997 case 54 => 3513 case 55 => 3493 case 56 => 3474
    case 57 => 4230 case 58 => 3435 case 59 => 3416 case 60 => 3398 case 61 => 4780 case 62 => 3362
    case _ => 2115
  }

  /** And in the two such rows below. */
  function PassingC(row: nat): nat
  {
    if row == 20 then 1501 else 1877
  }

  /** The position is the first past 2^31, before 2^32, and its index is no multiple of eight. */
  predicate PassesOddly(f1: nat, f2: nat, i: nat)
  {
    && i > 0 && f1 * (i - 1) + f2 * (i - 1) * (i - 1) < TWO31
    && TWO31 <= f1 * i + f2 * i * i < TWO32 && (f1 * i + f2 * i * i) % 8 != 0
  }

  lemma PassesC(row: nat)
    requires row in {20, 28}
    ensures PassesOddly(Table.RowC(row).0, Table.RowC(row).1, PassingC(row))
  {
  }

  lemma PassesDA(row: nat)
    requires row in {2, 4, 5, 6, 9, 12, 18, 20, 22}
    ensures PassesOddly(Table.RowD(row).0, Table.RowD(row).1, PassingD(row))
  {
  }

  lemma PassesDB(row: nat)
    requires row in {23, 24, 25, 26, 28, 29, 30, 32, 33}
    ensures PassesOddly(Table.RowD(row).0, Table.RowD(row).1, PassingD(row))
  {
  }

  lemma PassesDC(row: nat)
    requires row in {34, 35, 36, 37, 39, 40, 42, 43, 44}
    ensures PassesOddly(Table.RowD(row).0, Table.RowD(row).1, PassingD(row))
  {
  }

  lemma PassesDD(row: nat)
    requires row in {45, 46, 48, 49, 50, 52, 53, 54, 55}
    ensures PassesOddly(Table.RowD(row).0, Table.RowD(row).1, PassingD(row))
  {
  }

  lemma PassesDE(row: nat)
    requires row in {56, 57, 58, 60, 61, 62, 63}
    ensures PassesOddly(Table.RowD(row).0, Table.RowD(row).1, PassingD(row))
  {
  }

  /** In six rows the index is a multiple of eight: how many eights it is short of 2^32. */
  function Eights(row: nat): nat
  {
    match row
    case 17 => 268267478 case 21 => 268306330 case 38 => 268378754 case 41 => 268231387
    case 51 => 268378668 case _ => 268344703
  }

  lemma PassesEvenly(row: nat)
    requires row in {17, 21, 38, 41, 51, 59}
    ensures var f1, f2, i := Table.RowD(row).0, Table.RowD(row).1, PassingD(row);
      && i > 0 && f1 * (i - 1) + f2 * (i - 1) * (i - 1) < TWO31
      && f1 * i + f2 * i * i + 8 * Eights(row) == TWO32 && 8 * Eights(row) <= TWO31
  {
  }

  /** How often the byte count goes into them. */
  function Whole(row: nat, d: nat): nat
  {
    match row
    case 17 => (match d
      case 0 => 670668 case 1 => 668996 case 2 => 667332 case 3 => 665676
      case 4 => 664028 case 5 => 662388 case 6 => 660757 case _ => 659133)
    case 21 => (match d
      case 0 => 621079 case 1 => 619645 case 2 => 618217 case 3 => 616796
      case 4 => 615381 case 5 => 613973 case 6 => 612571 case _ => 611176)
    case 38 => (match d
      case 0 => 472497 case 1 => 471667 case 2 => 470839 case 3 => 470015
      case 4 => 469193 case 5 => 468374 case 6 => 467558 case _ => 466745)
    case 41 => (match d
      case 0 => 453093 case 1 => 452329 case 2 => 451567 case 3 => 450809
      case 4 => 450052 case 5 => 449298 case 6 => 448547 case _ => 447798)
    case 51 => (match d
      case 0 => 399373 case 1 => 398779 case 2 => 398187 case 3 => 397598
      case 4 => 397009 case 5 => 396423 case 6 => 395838 case _ => 395255)
    case _ => (match d
      case 0 => 364598 case 1 => 364104 case 2 => 363610 case 3 => 363118
      case 4 => 362627 case 5 => 362138 case 6 => 361650 case _ => 361163)
  }

  lemma LeavesA(row: nat, d: nat)
    requires row in {17, 21} && d < 8
    ensures 0 < Eights(row) - Whole(row, d) * (8 * row + 264 + d) < 8 * row + 264 + d
  {
  }

  lemma LeavesB(row: nat, d: nat)
    requires row in {38, 41} && d < 8
    ensures 0 < Eights(row) - Whole(row, d) * (8 * row + 264 + d) < 8 * row + 264 + d
  {
  }

  lemma LeavesC(row: nat, d: nat)
    requires row in {51, 59} && d < 8
    ensures 0 < Eights(row) - Whole(row, d) * (8 * row + 264 + d) < 8 * row + 264 + d
  {
  }

  lemma EightsLeave(row: nat, d: nat)
    requires row in {17, 21, 38, 41, 51, 59} && d < 8
    ensures Eights(row) % (8 * row + 264 + d) != 0
  {
    if row in {17, 21} {
      LeavesA(row, d);
    } else if row in {38, 41} {
      LeavesB(row, d);
    } else {
      LeavesC(row, d);
    }
    var k, q := 8 * row + 264 + d, Whole(row, d);
    ModUnique(Eights(row), k, q, Eights(row) - q * k);
  }

  lemma PassesInD(row: nat)
    requires row < 64 && row !in {0, 1, 3, 7, 8, 10, 11, 13, 14, 15, 16, 19, 27, 31, 47}
    requires row !in {17, 21, 38, 41, 51, 59}
    ensures PassesOddly(Table.RowD(row).0, Table.RowD(row).1, PassingD(row))
  {
    if row in {2, 4, 5, 6, 9, 12, 18, 20, 22} {
      PassesDA(row);
    } else if row in {23, 24, 25, 26, 28, 29, 30, 32, 33} {
      PassesDB(row);
    } else if row in {34, 35, 36, 37, 39, 40, 42, 43, 44} {
      PassesDC(row);
    } else if row in {45, 46, 48, 49, 50, 52, 53, 54, 55} {
      PassesDD(row);
    } else {
      PassesDE(row);
    }
  }

  // ----- from the table to blocks -----

  /** The first index past 2^31, and as a negative number no multiple of the block. */
  predicate PassesNegative(kByte: int, i: nat)
    requires 5 <= kByte <= 768
  {
    var f1, f2 := Table.F1(kByte), Table.F2(kByte);
    && 0 < i < 8 * kByte && Qpp.Poly(f1, f2, i - 1) < TWO31 <= Qpp.Poly(f1, f2, i) < TWO32
    && (TWO32 - Qpp.Poly(f1, f2, i)) % (8 * kByte) != 0
  }

  lemma OddNotMultiple(n: nat, k: nat)
    requires k > 0 && n < TWO32 && n % 8 != 0
    ensures (TWO32 - n) % (8 * k) != 0
  {
    var q := (TWO32 - n) / (8 * k);
    if (TWO32 - n) % (8 * k) == 0 {
      assert TWO32 - n == 8 * k * q == 8 * (k * q);
      ModUnique(n, 8, TWO32 / 8 - k * q, 0);
    }
  }

  lemma EightsNotMultiple(e: nat, k: nat)
    requires k > 0 && e % k != 0
    ensures 8 * e % (8 * k) != 0
  {
    var q := 8 * e / (8 * k);
    if 8 * e % (8 * k) == 0 {
      assert 8 * e == 8 * k * q == 8 * (k * q);
      ModUnique(e, k, q, 0);
    }
  }

  lemma PassesInBlock(kByte: int, i: nat)
    requires 5 <= kByte <= 768 && TWO31 <= WordTable.Largest(kByte)
    requires i > 0 && Qpp.Poly(Table.F1(kByte), Table.F2(kByte), i - 1) < TWO31
    ensures i < 8 * kByte
  {
    if i >= 8 * kByte {
      Qpp.PolyMonotone(Table.F1(kByte), Table.F2(kByte), 8 * kByte - 1, i - 1);
    }
  }

  lemma OddPassesNegative(kByte: int, f1: nat, f2: nat, i: nat)
    requires 5 <= kByte <= 768 && TWO31 <= WordTable.Largest(kByte)
    requires f1 == Table.F1(kByte) && f2 == Table.F2(kByte) && PassesOddly(f1, f2, i)
    ensures PassesNegative(kByte, i)
  {
    PassesInBlock(kByte, i);
    OddNotMultiple(Qpp.Poly(f1, f2, i), kByte);
  }

  lemma EvenPassesNegative(kByte: int, row: nat)
    requires 264 <= kByte <= 768 && TWO31 <= WordTable.Largest(kByte)
    requires row == (kByte - 264) / 8 && row in {17, 21, 38, 41, 51, 59}
    ensures PassesNegative(kByte, PassingD(row))
  {
    WordTable.ParamsInRowD(kByte, row);
    PassesEvenly(row);
    PassesInBlock(kByte, PassingD(row));
    EightsLeave(row, kByte - 264 - 8 * row);
    EightsNotMultiple(Eights(row), kByte);
  }

  lemma InRowC(kByte: int) returns (i: nat)
    requires 132 <= kByte < 264 && !WordTable.SignedSafe(kByte)
    ensures PassesNegative(kByte, i)
  {
    var row := Table.GetFIndex(kByte) - 92;
    WordTable.SignedBound(kByte);
    WordTable.InRowC(kByte);
    PassesC(row);
    i := PassingC(row);
    OddPassesNegative(kByte, Table.RowC(row).0, Table.RowC(row).1, i);
  }

  lemma InRowD(kByte: int, row: nat) returns (i: nat)
    requires 264 <= kByte <= 768 && row == (kByte - 264) / 8 && TWO31 <= WordTable.Largest(kByte)
    requires row !in {0, 1, 3, 7, 8, 10, 11, 13, 14, 15, 16, 19, 27, 31, 47}
    ensures PassesNegative(kByte, i)
  {
    i := PassingD(row);
    if row in {17, 21, 38, 41, 51, 59} {
      EvenPassesNegative(kByte, row);
    } else {
      WordTable.ParamsInRowD(kByte, row);
      PassesInD(row);
      OddPassesNegative(kByte, Table.RowD(row).0, Table.RowD(row).1, i);
    }
  }

  /** Wherever the signed index overflows at all, it first does so at a position with a negative remainder. */
  lemma OverflowNegative(kByte: int) returns (i: nat)
    requires 5 <= kByte <= 768 && !WordTable.SignedSafe(kByte)
    ensures PassesNegative(kByte, i)
  {
    WordTable.SignedBound(kByte);
    if kByte < 132 {
      WordTable.BelowRowC(kByte);
      assert false;
    } else if kByte < 264 {
      i := InRowC(kByte);
    } else {
      WordTable.SizesInRowD(kByte, (kByte - 264) / 8);
      i := InRowD(kByte, (kByte - 264) / 8);
    }
  }
}
