/**
 Numbers with memory suffixes on the tools' command lines (pdma-v1.1-src/tools/pdma-lib.c): base guessing, the
 64-bit accumulation loop and the suffix shifts, over byte strings that end with a zero byte.
 */
module MemParse {
  import opened Words

  type Byte = n: int | 0 <= n < 256

  /** The byte at i; past the end, the terminating zero. */
  function At(s: seq<Byte>, i: nat): Byte
  {
    if i < |s| then s[i] else 0
  }

  predicate IsDigit(c: Byte)
  {
    '0' as int <= c <= '9' as int
  }

  predicate IsHex(c: Byte)
  {
    IsDigit(c) || 'A' as int <= c <= 'F' as int || 'a' as int <= c <= 'f' as int
  }

  /** Bit 5 set. */
  function ToLower(c: Byte): Byte
  {
    if c / 32 % 2 == 0 then c + 32 else c
  }

  function DigitValue(c: Byte): nat
    requires IsHex(c)
  {
    if IsDigit(c) then c - '0' as int else ToLower(c) - 'a' as int + 10
  }

  predicate IsDigitIn(c: Byte, base: nat)
  {
    IsHex(c) && DigitValue(c) < base
  }

  function GuessBase(s: seq<Byte>): nat
  {
    if At(s, 0) != '0' as int then 10
    else if ToLower(At(s, 1)) == 'x' as int && IsHex(At(s, 2)) then 16
    else 8
  }

  /** Base 16 for 0x in either case and a hexadecimal digit, base 8 for another leading 0, base 10 for anything else. */
  lemma BaseMeans(s: seq<Byte>)
    ensures GuessBase(s) == 16 <==>
      |s| > 2 && s[0] as char == '0' && (s[1] as char == 'x' || s[1] as char == 'X') && IsHex(s[2])
    ensures GuessBase(s) == 10 <==> s == [] || s[0] as char != '0'
    ensures GuessBase(s) in {8, 10, 16}
  {
  }

  const LOWER := "0123456789abcdef"
  const UPPER := "0123456789ABCDEF"

  /** A hexadecimal digit is the one of its value, in either case. */
  lemma DigitMeans(c: Byte, d: nat)
    requires d < 16
    ensures IsHex(c) && DigitValue(c) == d <==> c == LOWER[d] as int || c == UPPER[d] as int
  {
  }

  // ----- meaning -----

  predicate AllDigits(s: seq<Byte>, base: nat)
  {
    forall i | 0 <= i < |s| :: IsDigitIn(s[i], base)
  }

  /** The number a digit string denotes. */
  function Value(s: seq<Byte>, base: nat): nat
    requires AllDigits(s, base)
  {
    if s == [] then 0
    else
      var v := Value(s[..|s| - 1], base);
      MulMonotone(base, 0, v);
      v * base + DigitValue(s[|s| - 1])
  }

  /** Where the digits start: after the 0x of a hexadecimal number. */
  function Start(s: seq<Byte>): nat
  {
    if GuessBase(s) == 16 then 2 else 0
  }

  /** [from, to) is the longest run of digits from `from` on. */
  predicate LongestRun(s: seq<Byte>, base: nat, from: nat, to: nat)
  {
    from <= to <= |s| && AllDigits(s[from..to], base) && !IsDigitIn(At(s, to), base)
  }

  lemma LongestRunUnique(s: seq<Byte>, base: nat, from: nat, a: nat, b: nat)
    requires LongestRun(s, base, from, a) && LongestRun(s, base, from, b)
    ensures a == b
  {
  }

  lemma StepModulo(v: nat, base: nat, d: nat)
    ensures (v % TWO64 * base + d) % TWO64 == (v * base + d) % TWO64
  {
    var q, r := v / TWO64, v % TWO64;
    var t := r * base + d;
    assert (q * TWO64 + r) * base == q * base * TWO64 + r * base;
    assert v * base + d == (q * base + t / TWO64) * TWO64 + t % TWO64;
    ModUnique(v * base + d, TWO64, q * base + t / TWO64, t % TWO64);
  }

  lemma OneMoreDigit(s: seq<Byte>, base: nat, from: nat, end: nat)
    requires from <= end < |s| && AllDigits(s[from..end], base) && IsDigitIn(s[end], base)
    ensures AllDigits(s[from..end + 1], base)
    ensures (Value(s[from..end], base) % TWO64 * base + DigitValue(s[end])) % TWO64
         == Value(s[from..end + 1], base) % TWO64
  {
    assert s[from..end + 1] == s[from..end] + [s[end]];
    assert s[from..end + 1][..end - from] == s[from..end];
    StepModulo(Value(s[from..end], base), base, DigitValue(s[end]));
  }

  /** simple_strtoull with base 0: the longest run of digits in the guessed base, modulo 2^64. */
  method StrToUll(s: seq<Byte>) returns (result: nat, end: nat)
    ensures LongestRun(s, GuessBase(s), Start(s), end)
    ensures result == Value(s[Start(s)..end], GuessBase(s)) % TWO64
  {
    var base := GuessBase(s);
    result, end := 0, 0;
    if base == 16 && At(s, 0) == '0' as int && ToLower(At(s, 1)) == 'x' as int {
      end := 2;
    }
    ghost var from := end;
    while IsHex(At(s, end))
      invariant from == Start(s) <= end <= |s|
      invariant AllDigits(s[from..end], base) && result == Value(s[from..end], base) % TWO64
      decreases |s| - end
    {
      var value := DigitValue(At(s, end));
      if value >= base {
        break;
      }
      OneMoreDigit(s, base, from, end);
      result := (result * base + value) % TWO64;
      end := end + 1;
    }
  }

  // ----- suffixes -----

  /** How many times a suffix multiplies by 1024. */
  function Kilos(c: Byte): nat
  {
    if c == 'K' as int || c == 'k' as int then 1
    else if c == 'M' as int || c == 'm' as int then 2
    else if c == 'G' as int || c == 'g' as int then 3
    else 0
  }

  function Kilo(n: nat): nat
  {
    if n == 0 then 1 else 1024 * Kilo(n - 1)
  }

  /** K is 2^10, M is 2^20 and G is 2^30, in either case, and anything else is no suffix. */
  lemma SuffixMeans(c: Byte)
    ensures Kilo(Kilos(c)) ==
      match c as char
      case 'K' => 1024 case 'k' => 1024
      case 'M' => 1_048_576 case 'm' => 1_048_576
      case 'G' => 1_073_741_824 case 'g' => 1_073_741_824
      case _ => 1
    ensures Kilos(c) > 0 <==> c as char in {'K', 'k', 'M', 'm', 'G', 'g'}
  {
    assert Kilo(1) == 1024 && Kilo(2) == 1024 * 1024 && Kilo(3) == 1024 * (1024 * 1024);
  }

  /** What a string with a memory suffix denotes. */
  function Meaning(s: seq<Byte>, end: nat): nat
    requires LongestRun(s, GuessBase(s), Start(s), end)
  {
    Value(s[Start(s)..end], GuessBase(s)) * Kilo(Kilos(At(s, end)))
  }

  lemma ShiftTwice(v: nat, a: nat)
    ensures v * a % TWO64 * 1024 % TWO64 == v * (1024 * a) % TWO64
  {
    StepModulo(v * a, 1024, 0);
    assert v * (1024 * a) == v * a * 1024;
  }

  /** memparse: the number times 1024 for each step down the suffixes, modulo 2^64; one suffix letter is consumed. */
  method Parse(s: seq<Byte>) returns (ret: nat, end: nat)
    ensures exists stop: nat ::
      && LongestRun(s, GuessBase(s), Start(s), stop)
      && ret == Meaning(s, stop) % TWO64
      && end == stop + if At(s, stop) as char in {'K', 'k', 'M', 'm', 'G', 'g'} then 1 else 0
  {
    ret, end := StrToUll(s);
    ghost var v, stop := Value(s[Start(s)..end], GuessBase(s)), end;
    var c := At(s, end);
    SuffixMeans(c);
    var g, m := c == 'G' as int || c == 'g' as int, c == 'M' as int || c == 'm' as int;
    var k := c == 'K' as int || c == 'k' as int;
    assert v * 1 == v;
    ShiftTwice(v, 1);
    ShiftTwice(v, 1024);
    ShiftTwice(v, 1024 * 1024);
    if g {
      ret := ret * 1024 % TWO64;
    }
    if g || m {
      ret := ret * 1024 % TWO64;
    }
    if g || m || k {
      ret := ret * 1024 % TWO64;
      end := end + 1;
    }
    assert Kilo(1) == 1024 && Kilo(2) == 1024 * 1024 && Kilo(3) == 1024 * (1024 * 1024);
    assert ret == Meaning(s, stop) % TWO64;
  }

  // ----- printing -----

  function DigitByte(d: nat): (c: Byte)
    requires d < 16
    ensures IsHex(c) && DigitValue(c) == d
  {
    if d < 10 then '0' as int + d else 'a' as int + d - 10
  }

  function Digits(n: nat, base: nat): (s: seq<Byte>)
    requires 2 <= base <= 16
    ensures s != [] && AllDigits(s, base)
  {
    if n < base then [DigitByte(n)] else Digits(n / base, base) + [DigitByte(n % base)]
  }

  /** A number as C prints it: decimal, octal with a leading 0, hexadecimal with a leading 0x. */
  function Printed(n: nat, base: nat): seq<Byte>
    requires base == 8 || base == 10 || base == 16
  {
    (if base == 8 then ['0' as int] else if base == 16 then ['0' as int, 'x' as int] else []) + Digits(n, base)
  }

  lemma AppendDigit(s: seq<Byte>, base: nat, d: nat)
    requires AllDigits(s, base) && d < base <= 16
    ensures Value(s + [DigitByte(d)], base) == Value(s, base) * base + d
  {
    assert (s + [DigitByte(d)])[..|s|] == s;
  }

  lemma LastDigit(n: nat, base: nat)
    requires base >= 2
    ensures n / base * base + n % base == n
    ensures n >= base ==> 1 <= n / base < n
  {
  }

  lemma DigitsUnfold(n: nat, base: nat)
    requires 2 <= base <= 16
    ensures Digits(n, base) == if n < base then [DigitByte(n)] else Digits(n / base, base) + [DigitByte(n % base)]
  {
  }

  lemma {:induction false} DigitsDenote(n: nat, base: nat)
    requires 2 <= base <= 16
    ensures Value(Digits(n, base), base) == n
    decreases n
  {
    DigitsUnfold(n, base);
    LastDigit(n, base);
    if n < base {
      AppendDigit([], base, n);
      assert [] + [DigitByte(n)] == [DigitByte(n)];
    } else {
      var q, r := n / base, n % base;
      DigitsDenote(q, base);
      AppendDigit(Digits(q, base), base, r);
    }
  }

  lemma {:induction false} LeadingDigit(n: nat, base: nat)
    requires 2 <= base <= 16
    ensures Digits(n, base)[0] == '0' as int <==> n == 0
    ensures n == 0 ==> |Digits(n, base)| == 1
    decreases n
  {
    DigitsUnfold(n, base);
    LastDigit(n, base);
    if n >= base {
      LeadingDigit(n / base, base);
    }
  }

  lemma {:induction false} LeadingZero(s: seq<Byte>, base: nat)
    requires AllDigits(s, base) && base > 0
    ensures AllDigits(['0' as int] + s, base) && Value(['0' as int] + s, base) == Value(s, base)
  {
    var t := ['0' as int] + s;
    if s == [] {
      assert t[..0] == [];
    } else {
      LeadingZero(s[..|s| - 1], base);
      assert t[..|t| - 1] == ['0' as int] + s[..|s| - 1];
    }
  }

  /** What may follow a printed number without being taken for part of it; a lone decimal 0 is read as octal. */
  predicate Terminates(n: nat, base: nat, rest: seq<Byte>)
    requires base == 8 || base == 10 || base == 16
  {
    if base == 10 && n == 0 then
      !IsDigitIn(At(rest, 0), 8) && !(ToLower(At(rest, 0)) == 'x' as int && IsHex(At(rest, 1)))
    else !IsDigitIn(At(rest, 0), base)
  }

  /** The printed number is the longest run of the string, and denotes the number. */
  ghost predicate ReadsAs(n: nat, base: nat, rest: seq<Byte>)
    requires base == 8 || base == 10 || base == 16
  {
    var s, stop := Printed(n, base) + rest, |Printed(n, base)|;
    LongestRun(s, GuessBase(s), Start(s), stop) && Value(s[Start(s)..stop], GuessBase(s)) == n
  }

  lemma RunThenRest(s: seq<Byte>, base: nat, from: nat, digits: seq<Byte>, rest: seq<Byte>)
    requires AllDigits(digits, base) && from <= |s| && s[from..] == digits + rest
    ensures LongestRun(s, base, from, from + |digits|) <==> !IsDigitIn(At(rest, 0), base)
    ensures s[from..from + |digits|] == digits
  {
    assert s[from..from + |digits|] == s[from..][..|digits|];
    if rest != [] {
      assert s[from + |digits|] == s[from..][|digits|];
    }
  }

  lemma PrintedDecimal(n: nat, rest: seq<Byte>)
    requires n > 0
    ensures ReadsAs(n, 10, rest) <==> Terminates(n, 10, rest)
  {
    var s, digits := Printed(n, 10) + rest, Digits(n, 10);
    LeadingDigit(n, 10);
    DigitsDenote(n, 10);
    assert s == digits + rest && s[0..] == s && s[0] == digits[0];
    RunThenRest(s, 10, 0, digits, rest);
  }

  lemma PrintedZero(rest: seq<Byte>)
    ensures ReadsAs(0, 10, rest) <==> Terminates(0, 10, rest)
  {
    var s, digits := Printed(0, 10) + rest, Digits(0, 10);
    assert s == digits + rest && s[0..] == s && digits == Digits(0, 8);
    assert At(s, 1) == At(rest, 0) && At(s, 2) == At(rest, 1);
    DigitsDenote(0, 8);
    RunThenRest(s, 8, 0, digits, rest);
  }

  lemma PrintedOctal(n: nat, rest: seq<Byte>)
    ensures ReadsAs(n, 8, rest) <==> Terminates(n, 8, rest)
  {
    var s, digits := Printed(n, 8) + rest, Digits(n, 8);
    DigitsDenote(n, 8);
    LeadingZero(digits, 8);
    assert IsDigitIn(digits[0], 8) && s[1] == digits[0] && GuessBase(s) == 8;
    assert s[0..] == s;
    RunThenRest(s, 8, 0, ['0' as int] + digits, rest);
  }

  lemma PrintedHex(n: nat, rest: seq<Byte>)
    ensures ReadsAs(n, 16, rest) <==> Terminates(n, 16, rest)
  {
    var s, digits := Printed(n, 16) + rest, Digits(n, 16);
    DigitsDenote(n, 16);
    assert IsDigitIn(digits[0], 16) && s[2] == digits[0] && GuessBase(s) == 16;
    assert s[2..] == digits + rest;
    RunThenRest(s, 16, 2, digits, rest);
  }

  /** Exactly what may follow a printed number for it to be read as itself. */
  lemma ReadsAsIff(n: nat, base: nat, rest: seq<Byte>)
    requires base == 8 || base == 10 || base == 16
    ensures ReadsAs(n, base, rest) <==> Terminates(n, base, rest)
  {
    if base == 8 {
      PrintedOctal(n, rest);
    } else if base == 16 {
      PrintedHex(n, rest);
    } else if n == 0 {
      PrintedZero(rest);
    } else {
      PrintedDecimal(n, rest);
    }
  }

  /**
   Parsing undoes printing: memparse gives n times its suffix's multiple modulo 2^64, and n itself below 2^64
   without a suffix.
   */
  lemma ParseUndoesPrint(n: nat, base: nat, rest: seq<Byte>, stop: nat)
    requires base == 8 || base == 10 || base == 16
    requires Terminates(n, base, rest)
    requires
      LongestRun(Printed(n, base) + rest, GuessBase(Printed(n, base) + rest), Start(Printed(n, base) + rest), stop)
    ensures stop == |Printed(n, base)|
    ensures Meaning(Printed(n, base) + rest, stop) ==
      match At(rest, 0) as char
      case 'K' => n * 1024 case 'k' => n * 1024
      case 'M' => n * 1_048_576 case 'm' => n * 1_048_576
      case 'G' => n * 1_073_741_824 case 'g' => n * 1_073_741_824
      case _ => n
  {
    var s := Printed(n, base) + rest;
    ReadsAsIff(n, base, rest);
    LongestRunUnique(s, GuessBase(s), Start(s), stop, |Printed(n, base)|);
    assert At(s, stop) == At(rest, 0);
    SuffixMeans(At(rest, 0));
  }
}
