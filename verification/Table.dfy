/**
 The 188-row parameter table of the interleaver (mwandr/tool.h), the row lookup getfindex, and
 which of the byte counts the lookup accepts give a permutation.
 */
module Table {
  import opened NumberTheory

  const ROWS := 188

  /** The pair (f1, f2) stored at f1f2[2 * row] and f1f2[2 * row + 1]. */
  function Row(row: nat): (nat, nat)
    requires row < ROWS
  {
    if row < 60 then RowA(row)
    else if row < 92 then RowB(row - 60)
    else if row < 124 then RowC(row - 92)
    else RowD(row - 124)
  }

  /** Rows 0 to 59: 5 to 64 bytes. */
  function RowA(row: nat): (nat, nat)
    requires row < 60
  {
    match row
    case 0 => (3, 10) case 1 => (7, 12) case 2 => (19, 42) case 3 => (7, 16) case 4 => (7, 18)
    case 5 => (11, 20) case 6 => (5, 22) case 7 => (11, 24) case 8 => (7, 26) case 9 => (41, 84)
    case 10 => (103, 90) case 11 => (15, 32) case 12 => (9, 34) case 13 => (17, 108) case 14 => (9, 38)
    case 15 => (21, 120) case 16 => (101, 84) case 17 => (21, 44) case 18 => (57, 46) case 19 => (23, 48)
    case 20 => (13, 50) case 21 => (27, 52) case 22 => (11, 36) case 23 => (27, 56) case 24 => (85, 58)
    case 25 => (29, 60) case 26 => (33, 62) case 27 => (15, 32) case 28 => (17, 198) case 29 => (33, 68)
    case 30 => (103, 210) case 31 => (19, 36) case 32 => (19, 74) case 33 => (37, 76) case 34 => (19, 78)
    case 35 => (21, 120) case 36 => (21, 82) case 37 => (115, 84) case 38 => (193, 86) case 39 => (21, 44)
    case 40 => (133, 90) case 41 => (81, 46) case 42 => (45, 94) case 43 => (23, 48) case 44 => (243, 98)
    case 45 => (151, 40) case 46 => (155, 102) case 47 => (25, 52) case 48 => (51, 106) case 49 => (47, 72)
    case 50 => (91, 110) case 51 => (29, 168) case 52 => (29, 114) case 53 => (247, 58) case 54 => (29, 118)
    case 55 => (89, 180) case 56 => (91, 122) case 57 => (157, 62) case 58 => (55, 84) case _ => (31, 64)
  }

  /** Rows 60 to 91: 66 to 128 bytes, in steps of two. */
  function RowB(row: nat): (nat, nat)
    requires row < 32
  {
    match row
    case 0 => (17, 66) case 1 => (35, 68) case 2 => (227, 420) case 3 => (65, 96) case 4 => (19, 74)
    case 5 => (37, 76) case 6 => (41, 234) case 7 => (39, 80) case 8 => (185, 82) case 9 => (43, 252)
    case 10 => (21, 86) case 11 => (155, 44) case 12 => (79, 120) case 13 => (139, 92) case 14 => (23, 94)
    case 15 => (217, 48) case 16 => (25, 98) case 17 => (17, 80) case 18 => (127, 102) case 19 => (25, 52)
    case 20 => (239, 106) case 21 => (17, 48) case 22 => (137, 110) case 23 => (215, 112) case 24 => (29, 114)
    case 25 => (15, 58) case 26 => (147, 118) case 27 => (29, 60) case 28 => (59, 122) case 29 => (65, 124)
    case 30 => (55, 84) case _ => (31, 64)
  }

  /** Rows 92 to 123: 132 to 256 bytes, in steps of four. */
  function RowC(row: nat): (nat, nat)
    requires row < 32
  {
    match row
    case 0 => (17, 66) case 1 => (171, 204) case 2 => (67, 140) case 3 => (35, 72) case 4 => (19, 74)
    case 5 => (39, 76) case 6 => (19, 78) case 7 => (199, 240) case 8 => (21, 82) case 9 => (211, 252)
    case 10 => (21, 86) case 11 => (43, 88) case 12 => (149, 60) case 13 => (45, 92) case 14 => (49, 846)
    case 15 => (71, 48) case 16 => (13, 28) case 17 => (17, 80) case 18 => (25, 102) case 19 => (183, 104)
    case 20 => (55, 954) case 21 => (127, 96) case 22 => (27, 110) case 23 => (29, 112) case 24 => (29, 114)
    case 25 => (57, 116) case 26 => (45, 354) case 27 => (31, 120) case 28 => (59, 610) case 29 => (185, 124)
    case 30 => (113, 420) case _ => (31, 64)
  }

  /** Rows 124 to 187: 264 to 768 bytes, in steps of eight. */
  function RowD(row: nat): (nat, nat)
    requires row < 64
  {
    match row
    case 0 => (17, 66) case 1 => (171, 136) case 2 => (209, 420) case 3 => (253, 216) case 4 => (367, 444)
    case 5 => (265, 456) case 6 => (181, 468) case 7 => (39, 80) case 8 => (27, 164) case 9 => (127, 504)
    case 10 => (143, 172) case 11 => (43, 88) case 12 => (29, 300) case 13 => (45, 92) case 14 => (157, 188)
    case 15 => (47, 96) case 16 => (13, 28) case 17 => (111, 240) case 18 => (443, 204) case 19 => (51, 104)
    case 20 => (51, 212) case 21 => (451, 192) case 22 => (257, 220) case 23 => (57, 336) case 24 => (313, 228)
    case 25 => (271, 232) case 26 => (179, 236) case 27 => (331, 120) case 28 => (363, 244) case 29 => (375, 248)
    case 30 => (127, 168) case 31 => (31, 64) case 32 => (33, 130) case 33 => (43, 264) case 34 => (33, 134)
    case 35 => (477, 408) case 36 => (35, 138) case 37 => (233, 280) case 38 => (357, 142) case 39 => (337, 480)
    case 40 => (37, 146) case 41 => (71, 444) case 42 => (71, 120) case 43 => (37, 152) case 44 => (39, 462)
    case 45 => (127, 234) case 46 => (39, 158) case 47 => (39, 80) case 48 => (31, 96) case 49 => (113, 902)
    case 50 => (41, 166) case 51 => (251, 336) case 52 => (43, 170) case 53 => (21, 86) case 54 => (43, 174)
    case 55 => (45, 176) case 56 => (45, 178) case 57 => (161, 120) case 58 => (89, 182) case 59 => (323, 184)
    case 60 => (47, 186) case 61 => (23, 94) case 62 => (47, 190) case _ => (263, 480)
  }

  /** Certificate: the inverse of f1 modulo the block size, which shows that f1 is coprime to it. */
  function Inverse(row: nat): int
    requires row < ROWS
  {
    if row < 60 then InverseA(row)
    else if row < 92 then InverseB(row - 60)
    else if row < 124 then InverseC(row - 92)
    else InverseD(row - 124)
  }

  function InverseA(row: nat): int
    requires row < 60
  {
    match row
    case 0 => 27 case 1 => 7 case 2 => 3 case 3 => 55 case 4 => 31 case 5 => 51 case 6 => 53
    case 7 => 35 case 8 => 15 case 9 => 41 case 10 => 7 case 11 => 111 case 12 => 121 case 13 => 17
    case 14 => 17 case 15 => 61 case 16 => 5 case 17 => 109 case 18 => 113 case 19 => 167 case 20 => 77
    case 21 => 131 case 22 => 59 case 23 => 83 case 24 => 101 case 25 => 149 case 26 => 233 case 27 => 239
    case 28 => 233 case 29 => 33 case 30 => 87 case 31 => 91 case 32 => 187 case 33 => 189 case 34 => 115
    case 35 => 61 case 36 => 125 case 37 => 187 case 38 => 41 case 39 => 285 case 40 => 157 case 41 => 209
    case 42 => 117 case 43 => 167 case 44 => 171 case 45 => 151 case 46 => 179 case 47 => 233 case 48 => 291
    case 49 => 239 case 50 => 411 case 51 => 309 case 52 => 173 case 53 => 263 case 54 => 293 case 55 => 329
    case 56 => 59 case 57 => 357 case 58 => 55 case _ => 479
  }

  function InverseB(row: nat): int
    requires row < 32
  {
    match row
    case 0 => 497 case 1 => 171 case 2 => 523 case 3 => 257 case 4 => 187 case 5 => 493 case 6 => 137
    case 7 => 279 case 8 => 617 case 9 => 547 case 10 => 557 case 11 => 595 case 12 => 319 case 13 => 323
    case 14 => 327 case 15 => 361 case 16 => 345 case 17 => 753 case 18 => 559 case 19 => 233 case 20 => 479
    case 21 => 305 case 22 => 713 case 23 => 871 case 24 => 629 case 25 => 495 case 26 => 411 case 27 => 629
    case 28 => 579 case 29 => 641 case 30 => 55 case _ => 991
  }

  function InverseC(row: nat): int
    requires row < 32
  {
    match row
    case 0 => 497 case 1 => 579 case 2 => 1003 case 3 => 395 case 4 => 187 case 5 => 343 case 6 => 1051
    case 7 => 759 case 8 => 125 case 9 => 1051 case 10 => 1245 case 11 => 131 case 12 => 29 case 13 => 229
    case 14 => 1105 case 15 => 887 case 16 => 965 case 17 => 753 case 18 => 457 case 19 => 391 case 20 => 1511
    case 21 => 1279 case 22 => 1043 case 23 => 309 case 24 => 629 case 25 => 521 case 26 => 965 case 27 => 991
    case 28 => 1555 case 29 => 1673 case 30 => 785 case _ => 991
  }

  function InverseD(row: nat): int
    requires row < 64
  {
    match row
    case 0 => 497 case 1 => 1667 case 2 => 1329 case 3 => 1621 case 4 => 271 case 5 => 569 case 6 => 1117
    case 7 => 919 case 8 => 1555 case 9 => 127 case 10 => 943 case 11 => 131 case 12 => 1589 case 13 => 1701
    case 14 => 2165 case 15 => 719 case 16 => 965 case 17 => 2191 case 18 => 2483 case 19 => 3067 case 20 => 3259
    case 21 => 1387 case 22 => 2753 case 23 => 3081 case 24 => 1993 case 25 => 2671 case 26 => 443 case 27 => 1891
    case 28 => 1667 case 29 => 455 case 30 => 127 case 31 => 3039 case 32 => 2017 case 33 => 2947 case 34 => 2209
    case 35 => 885 case 36 => 3659 case 37 => 4057 case 38 => 3373 case 39 => 1969 case 40 => 1389 case 41 => 2935
    case 42 => 2231 case 43 => 1709 case 44 => 3159 case 45 => 511 case 46 => 1815 case 47 => 919 case 48 => 3679
    case 49 => 2833 case 50 => 2073 case 51 => 2099 case 52 => 5187 case 53 => 2621 case 54 => 259 case 55 => 4005
    case 56 => 2405 case 57 => 3041 case 58 => 4777 case 59 => 875 case 60 => 4559 case 61 => 1831 case 62 => 1423
    case _ => 5303
  }

  /** The source's getfindex: -1 past the largest size, negative below five bytes. */
  function GetFIndex(kByte: int): int
  {
    if kByte <= 64 then kByte - 5
    else if kByte <= 128 then 59 + (kByte - 64) / 2
    else if kByte <= 256 then 91 + (kByte - 128) / 4
    else if kByte <= 768 then 123 + (kByte - 256) / 8
    else -1
  }

  /** The parameters of a byte count, as the lookup finds them. */
  function F1(kByte: int): nat
    requires 5 <= kByte <= 768
  {
    Row(GetFIndex(kByte)).0
  }

  function F2(kByte: int): nat
    requires 5 <= kByte <= 768
  {
    Row(GetFIndex(kByte)).1
  }

  /** Byte size of a row of Table 5.1.3-3 of TS 36.212. */
  function Size(row: int): int
  {
    if row < 60 then row + 5
    else if row < 92 then 2 * (row - 60) + 66
    else if row < 124 then 4 * (row - 92) + 132
    else 8 * (row - 124) + 264
  }

  /** The block sizes of Table 5.1.3-3, in bytes. */
  predicate Legal(kByte: int)
  {
    || 5 <= kByte <= 64
    || (64 < kByte <= 128 && kByte % 2 == 0)
    || (128 < kByte <= 256 && kByte % 4 == 0)
    || (256 < kByte <= 768 && kByte % 8 == 0)
  }

  /** The table is indexed in bounds exactly for 5 to 768 bytes. */
  lemma LookupInBounds(kByte: int)
    ensures 0 <= GetFIndex(kByte) < ROWS <==> 5 <= kByte <= 768
  {
  }

  /** The lookup rounds down to a row, and is exact precisely on the legal sizes. */
  lemma LookupRoundsDown(kByte: int)
    requires 5 <= kByte <= 768
    ensures Size(GetFIndex(kByte)) <= kByte < Size(GetFIndex(kByte) + 1)
    ensures Size(GetFIndex(kByte)) == kByte <==> Legal(kByte)
  {
  }

  function Power7(f: int): int
  {
    f * f * f * f * f * f * f
  }

  function Power10(f: int): int
  {
    f * f * f * f * f * f * f * f * f * f
  }

  lemma PowStep(f: int, n: nat, x: int)
    requires x == Pow(f, n)
    ensures x * f == Pow(f, n + 1)
  {
  }

  lemma Power7IsPow(f: int)
    ensures Power7(f) == Pow(f, 7)
  {
    PowStep(f, 0, 1);
    PowStep(f, 1, f);
    PowStep(f, 2, f * f);
    PowStep(f, 3, f * f * f);
    PowStep(f, 4, f * f * f * f);
    PowStep(f, 5, f * f * f * f * f);
    PowStep(f, 6, f * f * f * f * f * f);
  }

  lemma Power10IsPow(f: int)
    ensures Power10(f) == Pow(f, 10)
  {
    Power7IsPow(f);
    var x := Power7(f);
    PowStep(f, 7, x);
    PowStep(f, 8, x * f);
    PowStep(f, 9, x * f * f);
  }

  lemma NotRadical(k: nat, f: nat)
    requires 1 <= k < 1024 && Power10(f) % k != 0
    ensures !RadicalDivides(k, f)
  {
    Power10IsPow(f);
    assert Pow(2, 10) == 1024;
    RadicalIffPow(k, f, 10);
    DividesMod(k, Pow(f, 10));
  }

  // ----- the rows meet the design hypotheses -----

  lemma InverseAFrom0(row: nat)
    requires 0 <= row < 32
    ensures RowA(row).0 * InverseA(row) % (8 * (row + 5)) == 1
  {
  }

  lemma PowerAFrom0(row: nat)
    requires 0 <= row < 32
    ensures Power7(RowA(row).1) % (8 * (row + 5)) == 0
  {
  }

  lemma InverseAFrom32(row: nat)
    requires 32 <= row < 60
    ensures RowA(row).0 * InverseA(row) % (8 * (row + 5)) == 1
  {
  }

  lemma PowerAFrom32(row: nat)
    requires 32 <= row < 60
    ensures Power7(RowA(row).1) % (8 * (row + 5)) == 0
  {
  }

  lemma InverseBFrom0(row: nat)
    requires 0 <= row < 32
    ensures RowB(row).0 * InverseB(row) % (8 * (2 * row + 66)) == 1
  {
  }

  lemma PowerBFrom0(row: nat)
    requires 0 <= row < 32
    ensures Power7(RowB(row).1) % (8 * (2 * row + 66)) == 0
  {
  }

  lemma InverseCFrom0(row: nat)
    requires 0 <= row < 32
    ensures RowC(row).0 * InverseC(row) % (8 * (4 * row + 132)) == 1
  {
  }

  lemma PowerCFrom0(row: nat)
    requires 0 <= row < 32
    ensures Power7(RowC(row).1) % (8 * (4 * row + 132)) == 0
  {
  }

  lemma InverseDFrom0(row: nat)
    requires 0 <= row < 32
    ensures RowD(row).0 * InverseD(row) % (8 * (8 * row + 264)) == 1
  {
  }

  lemma PowerDFrom0(row: nat)
    requires 0 <= row < 32
    ensures Power7(RowD(row).1) % (8 * (8 * row + 264)) == 0
  {
  }

  lemma InverseDFrom32(row: nat)
    requires 32 <= row < 64
    ensures RowD(row).0 * InverseD(row) % (8 * (8 * row + 264)) == 1
  {
  }

  lemma PowerDFrom32(row: nat)
    requires 32 <= row < 64
    ensures Power7(RowD(row).1) % (8 * (8 * row + 264)) == 0
  {
  }

  lemma CertificatesA(row: nat)
    requires 0 <= row < 60
    ensures Row(row).0 * Inverse(row) % (8 * Size(row)) == 1
    ensures Power7(Row(row).1) % (8 * Size(row)) == 0
  {
    if row < 32 {
      InverseAFrom0(row);
      PowerAFrom0(row);
    } else {
      InverseAFrom32(row);
      PowerAFrom32(row);
    }
  }

  lemma CertificatesB(row: nat)
    requires 60 <= row < 92
    ensures Row(row).0 * Inverse(row) % (8 * Size(row)) == 1
    ensures Power7(Row(row).1) % (8 * Size(row)) == 0
  {
    InverseBFrom0(row - 60);
    PowerBFrom0(row - 60);
  }

  lemma CertificatesC(row: nat)
    requires 92 <= row < 124
    ensures Row(row).0 * Inverse(row) % (8 * Size(row)) == 1
    ensures Power7(Row(row).1) % (8 * Size(row)) == 0
  {
    InverseCFrom0(row - 92);
    PowerCFrom0(row - 92);
  }

  lemma CertificatesD(row: nat)
    requires 124 <= row < 188
    ensures Row(row).0 * Inverse(row) % (8 * Size(row)) == 1
    ensures Power7(Row(row).1) % (8 * Size(row)) == 0
  {
    if row - 124 < 32 {
      InverseDFrom0(row - 124);
      PowerDFrom0(row - 124);
    } else {
      InverseDFrom32(row - 124);
      PowerDFrom32(row - 124);
    }
  }

  lemma RowCertificates(row: nat)
    requires row < ROWS
    ensures Row(row).0 * Inverse(row) % (8 * Size(row)) == 1
    ensures Power7(Row(row).1) % (8 * Size(row)) == 0
  {
    if row < 60 {
      CertificatesA(row);
    } else if row < 92 {
      CertificatesB(row);
    } else if row < 124 {
      CertificatesC(row);
    } else {
      CertificatesD(row);
    }
  }

  // ----- byte counts between rows -----

  lemma FailsBPlus1From0(row: nat)
    requires 0 <= row < 31
    ensures !RadicalDivides(2 * row + 66 + 1, RowB(row).1)
  {
    NotRadical(2 * row + 66 + 1, RowB(row).1);
  }

  lemma FailsCPlus1From0(row: nat)
    requires 0 <= row < 31
    ensures !RadicalDivides(4 * row + 132 + 1, RowC(row).1)
  {
    NotRadical(4 * row + 132 + 1, RowC(row).1);
  }

  lemma FailsCPlus2From0(row: nat)
    requires 0 <= row < 31 && row != 7
    ensures !RadicalDivides(4 * row + 132 + 2, RowC(row).1)
  {
    NotRadical(4 * row + 132 + 2, RowC(row).1);
  }

  lemma FailsCPlus3From0(row: nat)
    requires 0 <= row < 31 && row != 27
    ensures !RadicalDivides(4 * row + 132 + 3, RowC(row).1)
  {
    NotRadical(4 * row + 132 + 3, RowC(row).1);
  }

  lemma FailsDPlus1From0(row: nat)
    requires 0 <= row < 32
    ensures !RadicalDivides(8 * row + 264 + 1, RowD(row).1)
  {
    NotRadical(8 * row + 264 + 1, RowD(row).1);
  }

  lemma FailsDPlus1From32(row: nat)
    requires 32 <= row < 63
    ensures !RadicalDivides(8 * row + 264 + 1, RowD(row).1)
  {
    NotRadical(8 * row + 264 + 1, RowD(row).1);
  }

  lemma FailsDPlus2From0(row: nat)
    requires 0 <= row < 32
    ensures !RadicalDivides(8 * row + 264 + 2, RowD(row).1)
  {
    NotRadical(8 * row + 264 + 2, RowD(row).1);
  }

  lemma FailsDPlus2From32(row: nat)
    requires 32 <= row < 63
    ensures !RadicalDivides(8 * row + 264 + 2, RowD(row).1)
  {
    NotRadical(8 * row + 264 + 2, RowD(row).1);
  }

  lemma FailsDPlus3From0(row: nat)
    requires 0 <= row < 32
    ensures !RadicalDivides(8 * row + 264 + 3, RowD(row).1)
  {
    NotRadical(8 * row + 264 + 3, RowD(row).1);
  }

  lemma FailsDPlus3From32(row: nat)
    requires 32 <= row < 63
    ensures !RadicalDivides(8 * row + 264 + 3, RowD(row).1)
  {
    NotRadical(8 * row + 264 + 3, RowD(row).1);
  }

  lemma FailsDPlus4From0(row: nat)
    requires 0 <= row < 32
    ensures !RadicalDivides(8 * row + 264 + 4, RowD(row).1)
  {
    NotRadical(8 * row + 264 + 4, RowD(row).1);
  }

  lemma FailsDPlus4From32(row: nat)
    requires 32 <= row < 63
    ensures !RadicalDivides(8 * row + 264 + 4, RowD(row).1)
  {
    NotRadical(8 * row + 264 + 4, RowD(row).1);
  }

  lemma FailsDPlus5From0(row: nat)
    requires 0 <= row < 32 && row != 17
    ensures !RadicalDivides(8 * row + 264 + 5, RowD(row).1)
  {
    NotRadical(8 * row + 264 + 5, RowD(row).1);
  }

  lemma FailsDPlus5From32(row: nat)
    requires 32 <= row < 63
    ensures !RadicalDivides(8 * row + 264 + 5, RowD(row).1)
  {
    NotRadical(8 * row + 264 + 5, RowD(row).1);
  }

  lemma FailsDPlus6From0(row: nat)
    requires 0 <= row < 32 && row != 27
    ensures !RadicalDivides(8 * row + 264 + 6, RowD(row).1)
  {
    NotRadical(8 * row + 264 + 6, RowD(row).1);
  }

  lemma FailsDPlus6From32(row: nat)
    requires 32 <= row < 63
    ensures !RadicalDivides(8 * row + 264 + 6, RowD(row).1)
  {
    NotRadical(8 * row + 264 + 6, RowD(row).1);
  }

  lemma FailsDPlus7From0(row: nat)
    requires 0 <= row < 32 && row != 9
    ensures !RadicalDivides(8 * row + 264 + 7, RowD(row).1)
  {
    NotRadical(8 * row + 264 + 7, RowD(row).1);
  }

  lemma FailsDPlus7From32(row: nat)
    requires 32 <= row < 63
    ensures !RadicalDivides(8 * row + 264 + 7, RowD(row).1)
  {
    NotRadical(8 * row + 264 + 7, RowD(row).1);
  }

  lemma FailsPast64(kByte: int)
    requires kByte == 65
    ensures !RadicalDivides(kByte, Row(GetFIndex(kByte)).1)
  {
    NotRadical(kByte, RowA(59).1);
  }

  lemma FailsPast128(kByte: int)
    requires 128 < kByte < 132
    ensures !RadicalDivides(kByte, Row(GetFIndex(kByte)).1)
  {
    var b := Power10(RowB(31).1);
    assert b % 129 != 0 && b % 130 != 0 && b % 131 != 0;
    NotRadical(kByte, RowB(31).1);
  }

  lemma FailsPast256(kByte: int)
    requires 256 < kByte < 264
    ensures !RadicalDivides(kByte, Row(GetFIndex(kByte)).1)
  {
    var c := Power10(RowC(31).1);
    assert c % 257 != 0 && c % 258 != 0 && c % 259 != 0 && c % 260 != 0;
    assert c % 261 != 0 && c % 262 != 0 && c % 263 != 0;
    NotRadical(kByte, RowC(31).1);
  }

  lemma FailsInC(row: nat, d: nat)
    requires row < 31 && 1 <= d <= 3 && 4 * row + 132 + d !in {162, 243}
    ensures !RadicalDivides(4 * row + 132 + d, RowC(row).1)
  {
    match d
    case 1 => FailsCPlus1From0(row);
    case 2 => FailsCPlus2From0(row);
    case _ => FailsCPlus3From0(row);
  }

  lemma FailsInDFrom0(row: nat, d: nat)
    requires row < 32 && 1 <= d <= 7 && 8 * row + 264 + d !in {343, 405, 486}
    ensures !RadicalDivides(8 * row + 264 + d, RowD(row).1)
  {
    match d
    case 1 => FailsDPlus1From0(row);
    case 2 => FailsDPlus2From0(row);
    case 3 => FailsDPlus3From0(row);
    case 4 => FailsDPlus4From0(row);
    case 5 => FailsDPlus5From0(row);
    case 6 => FailsDPlus6From0(row);
    case _ => FailsDPlus7From0(row);
  }

  lemma FailsInDFrom32(row: nat, d: nat)
    requires 32 <= row < 63 && 1 <= d <= 7
    ensures !RadicalDivides(8 * row + 264 + d, RowD(row).1)
  {
    match d
    case 1 => FailsDPlus1From32(row);
    case 2 => FailsDPlus2From32(row);
    case 3 => FailsDPlus3From32(row);
    case 4 => FailsDPlus4From32(row);
    case 5 => FailsDPlus5From32(row);
    case 6 => FailsDPlus6From32(row);
    case _ => FailsDPlus7From32(row);
  }

  lemma FailsInCAt(row: nat, d: nat, kByte: int)
    requires row < 31 && 1 <= d <= 3 && kByte == 4 * row + 132 + d && kByte !in {162, 243}
    ensures !RadicalDivides(kByte, Row(GetFIndex(kByte)).1)
  {
    FailsInC(row, d);
    assert GetFIndex(kByte) == row + 92;
  }

  lemma FailsInDFrom0At(row: nat, d: nat, kByte: int)
    requires row < 32 && 1 <= d <= 7 && kByte == 8 * row + 264 + d && kByte !in {343, 405, 486}
    ensures !RadicalDivides(kByte, Row(GetFIndex(kByte)).1)
  {
    FailsInDFrom0(row, d);
    assert GetFIndex(kByte) == row + 124;
  }

  lemma FailsInDFrom32At(row: nat, d: nat, kByte: int)
    requires 32 <= row < 63 && 1 <= d <= 7 && kByte == 8 * row + 264 + d
    ensures !RadicalDivides(kByte, Row(GetFIndex(kByte)).1)
  {
    FailsInDFrom32(row, d);
    assert GetFIndex(kByte) == row + 124;
  }

  lemma FailsInBAt(row: nat, kByte: int)
    requires row < 31 && kByte == 2 * row + 67
    ensures !RadicalDivides(kByte, Row(GetFIndex(kByte)).1)
  {
    FailsBPlus1From0(row);
    assert GetFIndex(kByte) == row + 60;
  }

  /** Between two rows some prime of the block size misses f2, with five exceptions. */
  lemma FailsBetweenRows(kByte: int)
    requires 5 <= kByte <= 768 && !Legal(kByte) && kByte !in {162, 243, 343, 405, 486}
    ensures !RadicalDivides(kByte, Row(GetFIndex(kByte)).1)
  {
    if kByte == 65 {
      FailsPast64(kByte);
    } else if kByte < 128 {
      FailsInBAt((kByte - 67) / 2, kByte);
    } else if kByte < 132 {
      FailsPast128(kByte);
    } else if kByte < 256 {
      FailsInCAt((kByte - 132) / 4, (kByte - 132) % 4, kByte);
    } else if kByte < 264 {
      FailsPast256(kByte);
    } else if kByte < 520 {
      FailsInDFrom0At((kByte - 264) / 8, (kByte - 264) % 8, kByte);
    } else {
      FailsInDFrom32At((kByte - 264) / 8, (kByte - 264) % 8, kByte);
    }
  }
}
