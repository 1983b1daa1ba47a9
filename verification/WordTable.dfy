/**
 The parameter table of mwandr/tool.h against 32-bit words: for which of the byte counts the lookup accepts the
 index expression fits, and a pair of positions that clash wherever the unsigned expression wraps.
 */
module WordTable {
  import opened Words
  import Qpp
  import Table

  /** The largest value of the index expression of a block. */
  function Largest(kByte: int): nat
    requires 5 <= kByte <= 768
  {
    Qpp.Poly(Table.F1(kByte), Table.F2(kByte), 8 * kByte - 1)
  }

  /** The table's sizes whose index fits a signed int, past 208 bytes where all do. */
  const SIGNED_SIZES := {
    216, 220, 224, 228, 232, 236, 240, 248, 252, 256, 264, 272, 280, 288, 320, 328, 344,
    352, 368, 376, 384, 392, 416, 480, 512, 640
  }

  /** The table's sizes whose index wraps an unsigned int. */
  const WRAPPING_SIZES := {
    448, 528, 544, 560, 576, 592, 616, 624, 656, 664, 672, 680, 696, 704, 712, 728, 736, 744, 760, 768
  }

  predicate SignedSafe(kByte: int)
    requires 5 <= kByte <= 768
  {
    var size := Table.Size(Table.GetFIndex(kByte));
    (size <= 208 || size in SIGNED_SIZES) && !(283 <= kByte <= 287)
  }

  predicate UnsignedSafe(kByte: int)
    requires 5 <= kByte <= 768
  {
    Table.Size(Table.GetFIndex(kByte)) !in WRAPPING_SIZES
  }

  // ----- the largest index of each row -----

  lemma AFitsFrom0(row: nat)
    requires row < 32
    ensures Table.RowA(row).0 * (8 * row + 47) + Table.RowA(row).1 * (8 * row + 47) * (8 * row + 47) < TWO31
  {
  }

  lemma AFitsFrom32(row: nat)
    requires 32 <= row < 60
    ensures Table.RowA(row).0 * (8 * row + 47) + Table.RowA(row).1 * (8 * row + 47) * (8 * row + 47) < TWO31
  {
  }

  lemma BFits(row: nat)
    requires row < 32
    ensures Table.RowB(row).0 * (16 * row + 551) + Table.RowB(row).1 * (16 * row + 551) * (16 * row + 551) < TWO31
  {
  }

  lemma CFits(row: nat)
    requires row < 32 && row !in {20, 28}
    ensures Table.RowC(row).0 * (32 * row + 1111) + Table.RowC(row).1 * (32 * row + 1111) * (32 * row + 1111) < TWO31
  {
  }

  lemma COverflows(row: nat)
    requires row in {20, 28}
    ensures TWO31 <= Table.RowC(row).0 * (32 * row + 1055) + Table.RowC(row).1 * (32 * row + 1055) * (32 * row + 1055)
    ensures Table.RowC(row).0 * (32 * row + 1111) + Table.RowC(row).1 * (32 * row + 1111) * (32 * row + 1111) < TWO32
  {
  }

  lemma DFitsSigned(row: nat)
    requires row in {0, 1, 3, 7, 8, 10, 11, 13, 14, 15, 16, 19, 27, 31, 47}
    ensures Table.RowD(row).0 * (64 * row + 2167) + Table.RowD(row).1 * (64 * row + 2167) * (64 * row + 2167) < TWO31
  {
  }

  lemma D280(row: nat)
    requires row == 2
    ensures Table.RowD(row).0 * (8 * 282 - 1) + Table.RowD(row).1 * (8 * 282 - 1) * (8 * 282 - 1) < TWO31
    ensures TWO31 <= Table.RowD(row).0 * (8 * 283 - 1) + Table.RowD(row).1 * (8 * 283 - 1) * (8 * 283 - 1)
    ensures Table.RowD(row).0 * (64 * row + 2167) + Table.RowD(row).1 * (64 * row + 2167) * (64 * row + 2167) < TWO32
  {
  }

  lemma DOverflows(row: nat)
    requires row < 64 && row !in {0, 1, 2, 3, 7, 8, 10, 11, 13, 14, 15, 16, 19, 27, 31, 47}
    ensures TWO31 <= Table.RowD(row).0 * (64 * row + 2111) + Table.RowD(row).1 * (64 * row + 2111) * (64 * row + 2111)
  {
  }

  lemma DFitsFrom0(row: nat)
    requires row < 32 && row !in {23}
    ensures Table.RowD(row).0 * (64 * row + 2167) + Table.RowD(row).1 * (64 * row + 2167) * (64 * row + 2167) < TWO32
  {
  }

  lemma DFitsFrom32(row: nat)
    requires 32 <= row < 64 && row !in {33, 35, 37, 39, 41, 44, 45, 49, 50, 51, 52, 54, 55, 56, 58, 59, 60, 62, 63}
    ensures Table.RowD(row).0 * (64 * row + 2167) + Table.RowD(row).1 * (64 * row + 2167) * (64 * row + 2167) < TWO32
  {
  }

  lemma DWraps(row: nat)
    requires row in {23, 33, 35, 37, 39, 41, 44, 45, 49, 50, 51, 52, 54, 55, 56, 58, 59, 60, 62, 63}
    ensures TWO32 <= Table.RowD(row).0 * (64 * row + 2111) + Table.RowD(row).1 * (64 * row + 2111) * (64 * row + 2111)
  {
  }

  /** The largest index lies between those of the row's own size and of the last byte count it serves. */
  lemma LargestBetween(kByte: int, low: nat, high: nat)
    requires 5 <= kByte <= 768 && low <= 8 * kByte - 1 <= high
    ensures Qpp.Poly(Table.F1(kByte), Table.F2(kByte), low) <= Largest(kByte)
    ensures Largest(kByte) <= Qpp.Poly(Table.F1(kByte), Table.F2(kByte), high)
  {
    Qpp.PolyMonotone(Table.F1(kByte), Table.F2(kByte), low, 8 * kByte - 1);
    Qpp.PolyMonotone(Table.F1(kByte), Table.F2(kByte), 8 * kByte - 1, high);
  }

  lemma BelowRowC(kByte: int)
    requires 5 <= kByte < 132
    ensures Largest(kByte) < TWO31
  {
    var row := Table.GetFIndex(kByte);
    if row < 32 {
      LargestBetween(kByte, 0, 8 * row + 47);
      AFitsFrom0(row);
    } else if row < 60 {
      LargestBetween(kByte, 0, 8 * row + 47);
      AFitsFrom32(row);
    } else {
      LargestBetween(kByte, 0, 16 * (row - 60) + 551);
      BFits(row - 60);
    }
  }

  lemma InRowC(kByte: int)
    requires 132 <= kByte < 264
    ensures Largest(kByte) < TWO32
    ensures Largest(kByte) < TWO31 <==> Table.GetFIndex(kByte) !in {112, 120}
  {
    var row := Table.GetFIndex(kByte) - 92;
    LargestBetween(kByte, 32 * row + 1055, 32 * row + 1111);
    if row in {20, 28} {
      COverflows(row);
    } else {
      CFits(row);
    }
  }

  lemma Around280(kByte: int)
    requires 280 <= kByte < 288
    ensures Largest(kByte) < TWO31 <==> kByte < 283
  {
    D280(2);
    if kByte < 283 {
      LargestBetween(kByte, 0, 8 * 282 - 1);
    } else {
      LargestBetween(kByte, 8 * 283 - 1, 8 * 288);
    }
  }

  lemma ParamsInRowD(kByte: int, row: nat)
    requires 264 <= kByte <= 768 && row == (kByte - 264) / 8
    ensures row < 64 && (Table.F1(kByte), Table.F2(kByte)) == Table.RowD(row)
  {
    assert Table.GetFIndex(kByte) == 124 + row;
  }

  lemma AtLeast(kByte: int, f1: nat, f2: nat, low: nat, limit: nat)
    requires 5 <= kByte <= 768 && Table.F1(kByte) == f1 && Table.F2(kByte) == f2
    requires low <= 8 * kByte - 1 && limit <= f1 * low + f2 * low * low
    ensures limit <= Largest(kByte)
  {
    LargestBetween(kByte, low, 8 * kByte);
  }

  lemma Below(kByte: int, f1: nat, f2: nat, high: nat, limit: nat)
    requires 5 <= kByte <= 768 && Table.F1(kByte) == f1 && Table.F2(kByte) == f2
    requires 8 * kByte - 1 <= high && f1 * high + f2 * high * high < limit
    ensures Largest(kByte) < limit
  {
    LargestBetween(kByte, 0, high);
  }

  lemma SignedInRowD(kByte: int, row: nat)
    requires 264 <= kByte <= 768 && row == (kByte - 264) / 8
    requires row in {0, 1, 3, 7, 8, 10, 11, 13, 14, 15, 16, 19, 27, 31, 47}
    ensures Largest(kByte) < TWO31
  {
    ParamsInRowD(kByte, row);
    DFitsSigned(row);
    Below(kByte, Table.RowD(row).0, Table.RowD(row).1, 64 * row + 2167, TWO31);
  }

  lemma OverflowsInRowD(kByte: int, row: nat)
    requires 264 <= kByte <= 768 && row == (kByte - 264) / 8
    requires row != 2 && row !in {0, 1, 3, 7, 8, 10, 11, 13, 14, 15, 16, 19, 27, 31, 47}
    ensures TWO31 <= Largest(kByte)
  {
    ParamsInRowD(kByte, row);
    DOverflows(row);
    AtLeast(kByte, Table.RowD(row).0, Table.RowD(row).1, 64 * row + 2111, TWO31);
  }

  lemma UnsignedInRowD(kByte: int, row: nat)
    requires 264 <= kByte <= 768 && row == (kByte - 264) / 8
    requires row !in {23, 33, 35, 37, 39, 41, 44, 45, 49, 50, 51, 52, 54, 55, 56, 58, 59, 60, 62, 63}
    ensures Largest(kByte) < TWO32
  {
    ParamsInRowD(kByte, row);
    if row < 32 {
      DFitsFrom0(row);
    } else {
      DFitsFrom32(row);
    }
    Below(kByte, Table.RowD(row).0, Table.RowD(row).1, 64 * row + 2167, TWO32);
  }

  lemma WrapsInRowD(kByte: int, row: nat)
    requires 264 <= kByte <= 768 && row == (kByte - 264) / 8
    requires row in {23, 33, 35, 37, 39, 41, 44, 45, 49, 50, 51, 52, 54, 55, 56, 58, 59, 60, 62, 63}
    ensures TWO32 <= Largest(kByte)
  {
    ParamsInRowD(kByte, row);
    DWraps(row);
    AtLeast(kByte, Table.RowD(row).0, Table.RowD(row).1, 64 * row + 2111, TWO32);
  }

  lemma SizesInRowD(kByte: int, row: int)
    requires 264 <= kByte <= 768 && row == (kByte - 264) / 8
    ensures Table.Size(Table.GetFIndex(kByte)) == 8 * row + 264
  {
  }

  /** For every byte count the lookup accepts: whether its index expression always fits a signed int. */
  lemma SignedBound(kByte: int)
    requires 5 <= kByte <= 768
    ensures Largest(kByte) < TWO31 <==> SignedSafe(kByte)
  {
    if kByte < 132 {
      BelowRowC(kByte);
    } else if kByte < 264 {
      InRowC(kByte);
    } else {
      var row := (kByte - 264) / 8;
      SizesInRowD(kByte, row);
      if row == 2 {
        Around280(kByte);
      } else if row in {0, 1, 3, 7, 8, 10, 11, 13, 14, 15, 16, 19, 27, 31, 47} {
        SignedInRowD(kByte, row);
      } else {
        OverflowsInRowD(kByte, row);
      }
    }
  }

  /** And an unsigned one. */
  lemma UnsignedBound(kByte: int)
    requires 5 <= kByte <= 768
    ensures Largest(kByte) < TWO32 <==> UnsignedSafe(kByte)
  {
    if kByte < 132 {
      BelowRowC(kByte);
    } else if kByte < 264 {
      InRowC(kByte);
    } else {
      var row := (kByte - 264) / 8;
      SizesInRowD(kByte, row);
      if row in {23, 33, 35, 37, 39, 41, 44, 45, 49, 50, 51, 52, 54, 55, 56, 58, 59, 60, 62, 63} {
        WrapsInRowD(kByte, row);
      } else {
        UnsignedInRowD(kByte, row);
      }
    }
  }

  // ----- clashing positions -----

  /** A legal size whose index wraps: positions i < j, how often each wraps, and the multiple of K between them. */
  function Clash(row: nat): (nat, nat, nat, nat, int)
  {
    match row
    case 23 => (1528, 3576, 0, 1, -218372) case 33 => (1090, 4034, 0, 1, -73955) case 35 => (2988, 3244, 0, 1, -837299)
    case 37 => (205, 3917, 0, 1, -2201) case 39 => (431, 2991, 0, 1, -19347) case 41 => (807, 3111, 0, 1, -60554)
    case 44 => (1193, 3049, 0, 1, -133421) case 45 => (3260, 4284, 0, 1, -498232) case 49 => (1543, 2183, 0, 1, -408527)
    case 50 => (95, 5087, 0, 1, -110) case 51 => (192, 5056, 0, 2, -2211) case 52 => (4515, 5027, 0, 1, -636840)
    case 54 => (2217, 4969, 0, 1, -153349) case 55 => (844, 4940, 0, 1, -22216) case 56 => (2865, 4913, 0, 1, -256224)
    case 58 => (0, 5696, 0, 1, 276515) case 59 => (3807, 4831, 0, 1, -452972) case 60 => (2566, 4806, 0, 1, -205543)
    case 62 => (0, 4928, 0, 1, 52541) case _ => (944, 2992, 0, 1, -69203)
  }

  lemma ClashesA(row: nat)
    requires row in {23, 33, 35, 37, 39, 41, 44, 45, 49, 50}
    ensures var k, (i, j, qi, qj, m) := 8 * (8 * row + 264), Clash(row);
      && i < j < k
      && 0 <= Table.RowD(row).0 * i + Table.RowD(row).1 * i * i - qi * TWO32 < TWO32
      && 0 <= Table.RowD(row).0 * j + Table.RowD(row).1 * j * j - qj * TWO32 < TWO32
      && (Table.RowD(row).0 * j + Table.RowD(row).1 * j * j - qj * TWO32)
       - (Table.RowD(row).0 * i + Table.RowD(row).1 * i * i - qi * TWO32) == k * m
  {
  }

  lemma ClashesB(row: nat)
    requires row in {51, 52, 54, 55, 56, 58, 59, 60, 62, 63}
    ensures var k, (i, j, qi, qj, m) := 8 * (8 * row + 264), Clash(row);
      && i < j < k
      && 0 <= Table.RowD(row).0 * i + Table.RowD(row).1 * i * i - qi * TWO32 < TWO32
      && 0 <= Table.RowD(row).0 * j + Table.RowD(row).1 * j * j - qj * TWO32 < TWO32
      && (Table.RowD(row).0 * j + Table.RowD(row).1 * j * j - qj * TWO32)
       - (Table.RowD(row).0 * i + Table.RowD(row).1 * i * i - qi * TWO32) == k * m
  {
  }

  /** Up to seven bytes past 448, 528, 544 and 560: a position, a distance, and the multiple of K between. */
  function PastA(row: nat, d: nat): (nat, nat, nat)
  {
    match row
    case 23 => (match d
      case 1 => (34, 8, 57) case 2 => (11, 16, 57) case 3 => (37, 88, 1329) case 4 => (50, 32, 393)
      case 5 => (64, 8, 101) case 6 => (74, 16, 243) case _ => (61, 56, 921))
    case 33 => (match d
      case 1 => (39, 8, 43) case 2 => (8, 80, 479) case 3 => (57, 72, 833) case 4 => (28, 32, 175)
      case 5 => (14, 104, 851) case 6 => (87, 48, 659) case _ => (32, 40, 257))
    case 35 => (match d
      case 1 => (80, 40, 753) case 2 => (60, 16, 205) case 3 => (102, 8, 159) case 4 => (132, 32, 885)
      case 5 => (23, 8, 41) case 6 => (45, 16, 159) case _ => (15, 152, 2577))
    case _ => (match d
      case 1 => (34, 24, 139) case 2 => (249, 16, 513) case 3 => (449, 8, 451) case 4 => (7, 32, 93)
      case 5 => (4, 40, 121) case 6 => (78, 16, 171) case _ => (40, 56, 473))
  }

  lemma PastsA(row: nat, d: nat)
    requires row in {23, 33, 35, 37} && 1 <= d < 8
    ensures var k, (i, c, m) := 8 * (8 * row + 264 + d), PastA(row, d);
      && 0 < c && i + c < k
      && Table.RowD(row).0 * (i + c) + Table.RowD(row).1 * (i + c) * (i + c) < TWO32
      && c * (Table.RowD(row).0 + Table.RowD(row).1 * (2 * i + c)) == k * m
  {
  }

  /** Up to seven bytes past 576, 592, 616 and 624: a position, a distance, and the multiple of K between. */
  function PastB(row: nat, d: nat): (nat, nat, nat)
  {
    match row
    case 39 => (match d
      case 1 => (429, 8, 721) case 2 => (122, 16, 433) case 3 => (94, 24, 529) case 4 => (1, 160, 2693)
      case 5 => (39, 56, 779) case 6 => (0, 48, 241) case _ => (50, 88, 1709))
    case 41 => (match d
      case 1 => (241, 8, 367) case 2 => (2, 432, 17605) case 3 => (9, 40, 217) case 4 => (120, 32, 811)
      case 5 => (24, 24, 161) case 6 => (166, 16, 517) case _ => (288, 8, 433))
    case 44 => (match d
      case 1 => (22, 8, 39) case 2 => (5, 16, 39) case 3 => (211, 8, 321) case 4 => (68, 32, 501)
      case 5 => (7, 24, 85) case 6 => (100, 16, 321) case _ => (52, 56, 831))
    case _ => (match d
      case 1 => (66, 40, 323) case 2 => (181, 16, 283) case 3 => (207, 24, 491) case 4 => (131, 32, 439)
      case 5 => (30, 136, 1243) case 6 => (34, 144, 1421) case _ => (531, 8, 397))
  }

  lemma PastsB(row: nat, d: nat)
    requires row in {39, 41, 44, 45} && 1 <= d < 8
    ensures var k, (i, c, m) := 8 * (8 * row + 264 + d), PastB(row, d);
      && 0 < c && i + c < k
      && Table.RowD(row).0 * (i + c) + Table.RowD(row).1 * (i + c) * (i + c) < TWO32
      && c * (Table.RowD(row).0 + Table.RowD(row).1 * (2 * i + c)) == k * m
  {
  }

  /** Up to seven bytes past 656, 664, 672 and 680: a position, a distance, and the multiple of K between. */
  function PastC(row: nat, d: nat): (nat, nat, nat)
  {
    match row
    case 49 => (match d
      case 1 => (49, 24, 503) case 2 => (3, 112, 2267) case 3 => (469, 8, 1295) case 4 => (2, 352, 21415)
      case 5 => (521, 8, 1433) case 6 => (49, 16, 311) case _ => (36, 104, 3115))
    case 50 => (match d
      case 1 => (78, 8, 41) case 2 => (33, 16, 41) case 3 => (3, 184, 1089) case 4 => (88, 32, 207)
      case 5 => (49, 24, 91) case 6 => (63, 80, 511) case _ => (20, 88, 349))
    case 51 => (match d
      case 1 => (247, 8, 251) case 2 => (286, 16, 587) case 3 => (9, 216, 3155) case 4 => (89, 32, 419)
      case 5 => (317, 8, 319) case 6 => (112, 48, 811) case _ => (91, 56, 827))
    case _ => (match d
      case 1 => (82, 8, 43) case 2 => (35, 16, 43) case 3 => (480, 8, 241) case 4 => (2, 96, 299)
      case 5 => (52, 40, 179) case 6 => (40, 112, 667) case _ => (33, 24, 67))
  }

  lemma PastsC(row: nat, d: nat)
    requires row in {49, 50, 51, 52} && 1 <= d < 8
    ensures var k, (i, c, m) := 8 * (8 * row + 264 + d), PastC(row, d);
      && 0 < c && i + c < k
      && Table.RowD(row).0 * (i + c) + Table.RowD(row).1 * (i + c) * (i + c) < TWO32
      && c * (Table.RowD(row).0 + Table.RowD(row).1 * (2 * i + c)) == k * m
  {
  }

  /** Up to seven bytes past 696, 704, 712 and 728: a position, a distance, and the multiple of K between. */
  function PastD(row: nat, d: nat): (nat, nat, nat)
  {
    match row
    case 54 => (match d
      case 1 => (82, 8, 43) case 2 => (35, 16, 43) case 3 => (172, 24, 275) case 4 => (93, 32, 217)
      case 5 => (574, 8, 287) case 6 => (2, 432, 5839) case _ => (5, 152, 763))
    case 55 => (match d
      case 1 => (86, 8, 45) case 2 => (37, 16, 45) case 3 => (26, 8, 15) case 4 => (4, 96, 311)
      case 5 => (14, 8, 9) case 6 => (7, 16, 15) case _ => (22, 72, 259))
    case 56 => (match d
      case 1 => (86, 8, 45) case 2 => (37, 16, 45) case 3 => (26, 8, 15) case 4 => (96, 32, 223)
      case 5 => (14, 8, 9) case 6 => (7, 16, 15) case _ => (317, 8, 159))
    case _ => (match d
      case 1 => (61, 72, 437) case 2 => (81, 16, 89) case 3 => (20, 136, 747) case 4 => (27, 96, 449)
      case 5 => (618, 8, 309) case 6 => (144, 16, 151) case _ => (3, 392, 4835))
  }

  lemma PastsD(row: nat, d: nat)
    requires row in {54, 55, 56, 58} && 1 <= d < 8
    ensures var k, (i, c, m) := 8 * (8 * row + 264 + d), PastD(row, d);
      && 0 < c && i + c < k
      && Table.RowD(row).0 * (i + c) + Table.RowD(row).1 * (i + c) * (i + c) < TWO32
      && c * (Table.RowD(row).0 + Table.RowD(row).1 * (2 * i + c)) == k * m
  {
  }

  /** Up to seven bytes past 736, 744 and 760: a position, a distance, and the multiple of K between. */
  function PastE(row: nat, d: nat): (nat, nat, nat)
  {
    match row
    case 59 => (match d
      case 1 => (66, 88, 609) case 2 => (53, 48, 233) case 3 => (704, 8, 353) case 4 => (53, 32, 139)
      case 5 => (43, 104, 619) case 6 => (34, 112, 631) case _ => (619, 8, 309))
    case 60 => (match d
      case 1 => (90, 8, 47) case 2 => (39, 16, 47) case 3 => (23, 72, 265) case 4 => (101, 32, 233)
      case 5 => (55, 56, 289) case 6 => (75, 48, 295) case _ => (224, 8, 113))
    case _ => (match d
      case 1 => (90, 8, 47) case 2 => (39, 16, 47) case 3 => (76, 56, 363) case 4 => (103, 32, 237)
      case 5 => (60, 40, 199) case 6 => (263, 16, 269) case _ => (12, 104, 413))
  }

  lemma PastsE(row: nat, d: nat)
    requires row in {59, 60, 62} && 1 <= d < 8
    ensures var k, (i, c, m) := 8 * (8 * row + 264 + d), PastE(row, d);
      && 0 < c && i + c < k
      && Table.RowD(row).0 * (i + c) + Table.RowD(row).1 * (i + c) * (i + c) < TWO32
      && c * (Table.RowD(row).0 + Table.RowD(row).1 * (2 * i + c)) == k * m
  {
  }

  // ----- from certificates to clashes -----

  lemma WrapsTo(n: nat, q: nat)
    requires 0 <= n - q * TWO32 < TWO32
    ensures n % TWO32 == n - q * TWO32
  {
    ModUnique(n, TWO32, q, n - q * TWO32);
  }

  lemma SameRemainder(a: nat, b: nat, k: nat, m: int)
    requires k > 0 && b - a == k * m
    ensures a % k == b % k
  {
    ModUnique(b, k, a / k + m, a % k);
  }

  /** Positions i < j whose index expressions, wrapped at 2^32, agree modulo K. */
  predicate Clashing(kByte: int, i: nat, j: nat)
    requires 5 <= kByte <= 768
  {
    i < j < 8 * kByte
    && Qpp.Poly(Table.F1(kByte), Table.F2(kByte), i) % TWO32 % (8 * kByte)
    == Qpp.Poly(Table.F1(kByte), Table.F2(kByte), j) % TWO32 % (8 * kByte)
  }

  lemma ClashCertified(f1: nat, f2: nat, k: nat, c: (nat, nat, nat, nat, int))
    requires k > 0 && 0 <= Qpp.Poly(f1, f2, c.0) - c.2 * TWO32 < TWO32
    requires 0 <= Qpp.Poly(f1, f2, c.1) - c.3 * TWO32 < TWO32
    requires Qpp.Poly(f1, f2, c.1) - c.3 * TWO32 - (Qpp.Poly(f1, f2, c.0) - c.2 * TWO32) == k * c.4
    ensures Qpp.Poly(f1, f2, c.0) % TWO32 % k == Qpp.Poly(f1, f2, c.1) % TWO32 % k
  {
    WrapsTo(Qpp.Poly(f1, f2, c.0), c.2);
    WrapsTo(Qpp.Poly(f1, f2, c.1), c.3);
    SameRemainder(Qpp.Poly(f1, f2, c.0) % TWO32, Qpp.Poly(f1, f2, c.1) % TWO32, k, c.4);
  }

  lemma PastCertified(f1: nat, f2: nat, k: nat, p: (nat, nat, nat))
    requires k > 0 && Qpp.Poly(f1, f2, p.0 + p.1) < TWO32
    requires p.1 * (f1 + f2 * (2 * p.0 + p.1)) == k * p.2
    ensures Qpp.Poly(f1, f2, p.0) % TWO32 % k == Qpp.Poly(f1, f2, p.0 + p.1) % TWO32 % k
  {
    Qpp.PolyMonotone(f1, f2, p.0, p.0 + p.1);
    Qpp.PolyDifference(f1, f2, p.0, p.1);
    PastAgrees(Qpp.Poly(f1, f2, p.0), Qpp.Poly(f1, f2, p.0 + p.1), k, p.2);
  }

  lemma PastAgrees(a: nat, b: nat, k: nat, m: nat)
    requires k > 0 && a <= b < TWO32 && b - a == k * m
    ensures a % TWO32 % k == b % TWO32 % k
  {
    assert a % TWO32 == a && b % TWO32 == b;
    SameRemainder(a, b, k, m);
  }

  lemma ClashingInRow(row: nat, kByte: int, f1: nat, f2: nat, i: nat, j: nat)
    requires 264 <= kByte <= 768 && row == (kByte - 264) / 8 && (f1, f2) == Table.RowD(row) && i < j < 8 * kByte
    requires Qpp.Poly(f1, f2, i) % TWO32 % (8 * kByte) == Qpp.Poly(f1, f2, j) % TWO32 % (8 * kByte)
    ensures Clashing(kByte, i, j)
  {
    ParamsInRowD(kByte, row);
    assert Table.F1(kByte) == f1 && Table.F2(kByte) == f2;
  }

  lemma SizeClashes(row: nat) returns (i: nat, j: nat)
    requires row in {23, 33, 35, 37, 39, 41, 44, 45, 49, 50, 51, 52, 54, 55, 56, 58, 59, 60, 62, 63}
    ensures Clashing(8 * row + 264, i, j)
  {
    var c := Clash(row);
    if row in {23, 33, 35, 37, 39, 41, 44, 45, 49, 50} {
      ClashesA(row);
    } else {
      ClashesB(row);
    }
    ClashCertified(Table.RowD(row).0, Table.RowD(row).1, 8 * (8 * row + 264), c);
    i, j := c.0, c.1;
    ClashingInRow(row, 8 * row + 264, Table.RowD(row).0, Table.RowD(row).1, i, j);
  }

  lemma PastClashesA(row: nat, d: nat) returns (i: nat, j: nat)
    requires row in {23, 33, 35, 37} && 1 <= d < 8
    ensures Clashing(8 * row + 264 + d, i, j)
  {
    var p := PastA(row, d);
    PastsA(row, d);
    PastCertified(Table.RowD(row).0, Table.RowD(row).1, 8 * (8 * row + 264 + d), p);
    i, j := p.0, p.0 + p.1;
    ClashingInRow(row, 8 * row + 264 + d, Table.RowD(row).0, Table.RowD(row).1, i, j);
  }

  lemma PastClashesB(row: nat, d: nat) returns (i: nat, j: nat)
    requires row in {39, 41, 44, 45} && 1 <= d < 8
    ensures Clashing(8 * row + 264 + d, i, j)
  {
    var p := PastB(row, d);
    PastsB(row, d);
    PastCertified(Table.RowD(row).0, Table.RowD(row).1, 8 * (8 * row + 264 + d), p);
    i, j := p.0, p.0 + p.1;
    ClashingInRow(row, 8 * row + 264 + d, Table.RowD(row).0, Table.RowD(row).1, i, j);
  }

  lemma PastClashesC(row: nat, d: nat) returns (i: nat, j: nat)
    requires row in {49, 50, 51, 52} && 1 <= d < 8
    ensures Clashing(8 * row + 264 + d, i, j)
  {
    var p := PastC(row, d);
    PastsC(row, d);
    PastCertified(Table.RowD(row).0, Table.RowD(row).1, 8 * (8 * row + 264 + d), p);
    i, j := p.0, p.0 + p.1;
    ClashingInRow(row, 8 * row + 264 + d, Table.RowD(row).0, Table.RowD(row).1, i, j);
  }

  lemma PastClashesD(row: nat, d: nat) returns (i: nat, j: nat)
    requires row in {54, 55, 56, 58} && 1 <= d < 8
    ensures Clashing(8 * row + 264 + d, i, j)
  {
    var p := PastD(row, d);
    PastsD(row, d);
    PastCertified(Table.RowD(row).0, Table.RowD(row).1, 8 * (8 * row + 264 + d), p);
    i, j := p.0, p.0 + p.1;
    ClashingInRow(row, 8 * row + 264 + d, Table.RowD(row).0, Table.RowD(row).1, i, j);
  }

  lemma PastClashesE(row: nat, d: nat) returns (i: nat, j: nat)
    requires row in {59, 60, 62} && 1 <= d < 8
    ensures Clashing(8 * row + 264 + d, i, j)
  {
    var p := PastE(row, d);
    PastsE(row, d);
    PastCertified(Table.RowD(row).0, Table.RowD(row).1, 8 * (8 * row + 264 + d), p);
    i, j := p.0, p.0 + p.1;
    ClashingInRow(row, 8 * row + 264 + d, Table.RowD(row).0, Table.RowD(row).1, i, j);
  }

  /** Wherever the unsigned index wraps at all, two positions of the block clash. */
  lemma WrappingClashes(kByte: int) returns (i: nat, j: nat)
    requires 5 <= kByte <= 768 && !UnsignedSafe(kByte)
    ensures Clashing(kByte, i, j)
  {
    var row, d := (kByte - 264) / 8, (kByte - 264) % 8;
    SizesInRowD(kByte, row);
    if d == 0 {
      i, j := SizeClashes(row);
    } else if row in {23, 33, 35, 37} {
      i, j := PastClashesA(row, d);
    } else if row in {39, 41, 44, 45} {
      i, j := PastClashesB(row, d);
    } else if row in {49, 50, 51, 52} {
      i, j := PastClashesC(row, d);
    } else if row in {54, 55, 56, 58} {
      i, j := PastClashesD(row, d);
    } else {
      i, j := PastClashesE(row, d);
    }
  }
}
