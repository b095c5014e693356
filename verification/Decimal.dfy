/**
log4cplus' conversion of an integer to decimal digits, for every width of integer type.

The digits are written backward into a buffer of `digits10 + 2` characters.  The smallest
negative number has no positive counterpart, so its last digit is split off first.
*/
module Decimal {

  /** An integer type by its `numeric_limits`: value bits and signedness. */
  datatype IntType = IntType(digits: nat, isSigned: bool)

  function Pow(b: nat, e: nat): nat { if e == 0 then 1 else b * Pow(b, e - 1) }

  /** C++ has unsigned types from `bool` on; the smallest signed one is `signed char`. */
  predicate Exists(ty: IntType) { ty.digits >= if ty.isSigned then 7 else 1 }

  function Min(ty: IntType): int { if ty.isSigned then 0 - Pow(2, ty.digits) else 0 }

  predicate Fits(ty: IntType, v: int) { Min(ty) <= v < Pow(2, ty.digits) }

  /** `digits10`: how many decimal digits every value of that many digits fits in. */
  function Digits10(digits: nat): nat {
    if digits == 0 then 0
    else
      var d := Digits10(digits - 1);
      if Pow(10, d + 1) <= Pow(2, digits) then d + 1 else d
  }

  lemma {:induction false} Digits10Bounds(k: nat)
    ensures Pow(10, Digits10(k)) <= Pow(2, k) < Pow(10, Digits10(k) + 1)
  {
    if k == 0 {
      assert Pow(10, 1) == 10 * Pow(10, 0);
    } else {
      Digits10Bounds(k - 1);
      var d := Digits10(k - 1);
      assert Pow(10, d + 2) == 10 * Pow(10, d + 1);
    }
  }

  /** C++ division truncates toward zero. */
  function TruncDiv(a: int, b: int): int
    requires b > 0
  {
    if a >= 0 then a / b else -((-a) / b)
  }

  // ----- digits and their value -----

  predicate IsDigit(c: char) { '0' <= c <= '9' }

  predicate AllDigits(s: string) { forall i :: 0 <= i < |s| ==> IsDigit(s[i]) }

  function DigitValue(c: char): nat
    requires IsDigit(c)
  {
    c as int - '0' as int
  }

  function Digit(n: nat): char
    requires n < 10
  {
    ('0' as int + n) as char
  }

  function Number(s: string): nat
    requires AllDigits(s)
  {
    if s == "" then 0 else Number(s[..|s| - 1]) * 10 + DigitValue(s[|s| - 1])
  }

  /** The digits of a numeral without its sign. */
  function Magnitude(s: string): string { if s != "" && s[0] == '-' then s[1..] else s }

  /** A numeral without redundant zeros and without minus zero. */
  predicate Canonical(s: string) {
    var m := Magnitude(s);
    m != "" && AllDigits(m) && (m[0] == '0' ==> s == "0")
  }

  function Parse(s: string): int
    requires Canonical(s)
  {
    if s[0] == '-' then 0 - Number(Magnitude(s)) else Number(s)
  }

  lemma TimesTen(x: nat, y: nat, z: nat, d: nat)
    ensures (x * y + z) * 10 + d == x * (10 * y) + (z * 10 + d)
  {
  }

  /** Numerals are read in the usual notation. */
  lemma UsualDigits()
    ensures DigitValue('0') == 0 && DigitValue('1') == 1 && DigitValue('2') == 2 && DigitValue('3') == 3 && DigitValue('4') == 4
    ensures DigitValue('5') == 5 && DigitValue('6') == 6 && DigitValue('7') == 7 && DigitValue('8') == 8 && DigitValue('9') == 9
    ensures forall c :: '0' <= c <= '9' ==> Digit(DigitValue(c)) == c
  {
  }

  lemma Positional(s: string, c: char)
    requires AllDigits(s) && IsDigit(c)
    ensures AllDigits(s + [c]) && Number(s + [c]) == 10 * Number(s) + DigitValue(c)
  {
    assert (s + [c])[..|s|] == s;
  }

  lemma SomeNumerals()
    ensures Canonical("0") && Parse("0") == 0 && Canonical("105") && Parse("105") == 105
    ensures Canonical("-105") && Parse("-105") == -105
    ensures !Canonical("") && !Canonical("-") && !Canonical("-0") && !Canonical("07") && !Canonical("1a")
  {
    assert "-105"[1..] == "105" && "-0"[1..] == "0";
    Positional("", '1');
    Positional("1", '0');
    Positional("10", '5');
    assert "" + ['1'] == "1" && "1" + ['0'] == "10" && "10" + ['5'] == "105";
    Positional("", '0');
    assert "" + ['0'] == "0";
    assert !IsDigit("1a"[1]) && |"07"| == 2 && |"-0"| == 2;
  }

  lemma {:induction false} NumberOfPrepended(c: char, s: string)
    requires IsDigit(c) && AllDigits(s)
    ensures AllDigits([c] + s)
    ensures Number([c] + s) == DigitValue(c) * Pow(10, |s|) + Number(s)
  {
    var t := [c] + s;
    if s == "" {
      assert t[..0] == "" && Pow(10, 0) == 1;
    } else {
      var p := s[..|s| - 1];
      NumberOfPrepended(c, p);
      assert t[..|t| - 1] == [c] + p;
      TimesTen(DigitValue(c), Pow(10, |p|), Number(p), DigitValue(s[|s| - 1]));
    }
  }

  lemma {:induction false} NumberBound(s: string)
    requires AllDigits(s)
    ensures Number(s) < Pow(10, |s|)
  {
    if s != "" {
      NumberBound(s[..|s| - 1]);
    }
  }

  lemma {:induction false} NumberPositive(s: string)
    requires AllDigits(s) && s != "" && s[0] != '0'
    ensures Number(s) > 0
  {
    if |s| > 1 {
      NumberPositive(s[..|s| - 1]);
    }
  }

  /** Digits without leading zeros are determined by their number. */
  lemma {:induction false} DigitsUnique(s: string, t: string)
    requires AllDigits(s) && AllDigits(t) && Number(s) == Number(t)
    requires (s != "" ==> s[0] != '0') && (t != "" ==> t[0] != '0')
    ensures s == t
    decreases |s|
  {
    if s == "" || t == "" {
      if s != "" { NumberPositive(s); }
      if t != "" { NumberPositive(t); }
    } else {
      var a, b := s[..|s| - 1], t[..|t| - 1];
      assert DigitValue(s[|s| - 1]) == Number(s) % 10 && DigitValue(t[|t| - 1]) == Number(t) % 10;
      assert Number(a) == Number(s) / 10 && Number(b) == Number(t) / 10;
      DigitsUnique(a, b);
      assert s == a + [s[|s| - 1]] && t == b + [t[|t| - 1]];
    }
  }

  /** A number has one canonical numeral. */
  lemma CanonicalUnique(s: string, t: string)
    requires Canonical(s) && Canonical(t) && Parse(s) == Parse(t)
    ensures s == t
  {
    var a, b := Magnitude(s), Magnitude(t);
    if a[0] != '0' { NumberPositive(a); }
    if b[0] != '0' { NumberPositive(b); }
    if a[0] != '0' && b[0] != '0' {
      DigitsUnique(a, b);
    }
    assert a[0] == '0' ==> Number("0") == 0;
    assert s[0] == '-' ==> s == "-" + a;
    assert t[0] == '-' ==> t == "-" + b;
  }

  // ----- the smallest negative number -----

  /** A power of two is not a multiple of five. */
  lemma {:induction false} PowerOfTwoModFive(k: nat)
    ensures Pow(2, k) % 5 != 0
  {
    if k > 0 {
      PowerOfTwoModFive(k - 1);
    }
  }

  lemma {:induction false} AtLeast128(k: nat)
    requires k >= 7
    ensures Pow(2, k) >= 128
  {
    if k > 7 {
      AtLeast128(k - 1);
    } else {
      assert Pow(2, 7) == 2 * Pow(2, 6) == 4 * Pow(2, 5) == 8 * Pow(2, 4) == 16 * Pow(2, 3);
      assert Pow(2, 3) == 2 * Pow(2, 2) == 4 * Pow(2, 1) == 8 * Pow(2, 0);
    }
  }

  lemma SplitLastDigit(m: int, q: int, d: int)
    requires m % 5 != 0 && m == q * 10 + d && 0 <= d < 10
    ensures 1 <= d
  {
    assert d == 0 ==> m == 5 * (2 * q);
  }

  /**
  Splitting the last digit off the smallest number: every intermediate value fits the type,
  because the smallest number is not a multiple of ten.
  */
  lemma SplitMinimum(ty: IntType, r: int, a: int, mod: int)
    requires Exists(ty) && ty.isSigned
    requires r == TruncDiv(Min(ty), 10) && a == -r * 10 && mod == -(a + Min(ty))
    ensures Fits(ty, r) && Fits(ty, -r) && Fits(ty, a) && Fits(ty, a + Min(ty)) && Fits(ty, mod)
    ensures 1 <= mod <= 9 && -r > 0 && -Min(ty) == -r * 10 + mod
  {
    PowerOfTwoModFive(ty.digits);
    AtLeast128(ty.digits);
    var m: int := Pow(2, ty.digits);
    assert r == 0 - m / 10 && m == (m / 10) * 10 + m % 10;
    SplitLastDigit(m, m / 10, m % 10);
  }

  // ----- the conversion -----

  /** The part of `n` not yet written is `v`; `written` holds its last digits. */
  ghost predicate Progress(n: nat, v: nat, written: string) {
    && AllDigits(written)
    && n == v * Pow(10, |written|) + Number(written)
    && (v == 0 && n > 0 ==> written != "" && written[0] != '0')
  }

  lemma ShiftDigit(q: nat, m: nat, p: nat)
    ensures (q * 10 + m) * p == q * (10 * p) + m * p
  {
  }

  lemma AtLeastFactor(v: nat, p: nat)
    requires v > 0
    ensures v * p >= p
  {
  }

  lemma PrependDigit(n: nat, q: nat, m: nat, written: string)
    requires m < 10 && q * 10 + m > 0 && Progress(n, q * 10 + m, written)
    ensures Progress(n, q, [Digit(m)] + written)
    ensures Pow(10, |written|) <= n
  {
    var p := Pow(10, |written|);
    NumberOfPrepended(Digit(m), written);
    ShiftDigit(q, m, p);
    AtLeastFactor(q * 10 + m, p);
    assert Pow(10, |[Digit(m)] + written|) == 10 * p;
  }

  lemma WriteDigit(n: nat, v: nat, written: string)
    requires Progress(n, v, written) && v > 0
    ensures Progress(n, v / 10, [Digit(v % 10)] + written)
    ensures Pow(10, |written|) <= n
  {
    PrependDigit(n, v / 10, v % 10, written);
  }

  lemma {:induction false} PowMonotonic(a: nat, b: nat)
    requires Pow(10, a) < Pow(10, b)
    ensures a < b
  {
    if a >= b {
      PowGrows(b, a);
    }
  }

  lemma {:induction false} PowGrows(a: nat, b: nat)
    requires a <= b
    ensures Pow(10, a) <= Pow(10, b)
    decreases b
  {
    if a < b {
      PowGrows(a, b - 1);
    }
  }

  /** `step1`: makes `value` positive and returns the new write position. */
  method Step1(ty: IntType, buffer: array<char>, it: nat, value: int) returns (newIt: nat, v: int)
    requires Exists(ty) && ty.isSigned && Fits(ty, value) && value < 0 && 1 <= it == buffer.Length
    modifies buffer
    ensures newIt <= it && it - newIt <= 1 && Fits(ty, v) && v > 0
    ensures Progress(-value, v, buffer[newIt..])
  {
    if value == Min(ty) {
      var r := TruncDiv(value, 10);
      var a := -r * 10;
      var mod := -(a + value);
      SplitMinimum(ty, r, a, mod);
      v := -r;
      buffer[it - 1] := Digit(mod);
      newIt := it - 1;
      assert buffer[newIt..] == [Digit(mod)];
      assert [Digit(mod)][..0] == "" && Pow(10, 1) == 10 * Pow(10, 0);
    } else {
      newIt, v := it, -value;
      assert buffer[newIt..] == "" && Pow(10, 0) == 1;
    }
  }

  /** A digit that is still to be written leaves room for the sign. */
  lemma RoomLeft(ty: IntType, n: nat, v: nat, written: string)
    requires Progress(n, v, written) && v > 0 && n <= Pow(2, ty.digits)
    ensures |written| <= Digits10(ty.digits)
  {
    Digits10Bounds(ty.digits);
    WriteDigit(n, v, written);
    PowMonotonic(|written|, Digits10(ty.digits) + 1);
  }

  method PutDigit(buffer: array<char>, it: nat, v: nat, ghost n: nat)
    requires 1 <= it <= buffer.Length && v > 0 && Progress(n, v, buffer[it..])
    modifies buffer
    ensures Progress(n, v / 10, buffer[it - 1..])
  {
    ghost var written := buffer[it..];
    WriteDigit(n, v, written);
    buffer[it - 1] := Digit(v % 10);
    assert buffer[it - 1..] == [Digit(v % 10)] + written;
  }

  /** The loop that divides `value` down and writes its digits backward from `it`. */
  method WriteDigits(ty: IntType, buffer: array<char>, it: nat, value: int, ghost n: nat) returns (newIt: nat)
    requires it <= buffer.Length && Fits(ty, value) && value >= 0
    requires n <= Pow(2, ty.digits) && buffer.Length == Digits10(ty.digits) + 2
    requires Progress(n, value, buffer[it..])
    modifies buffer
    ensures newIt <= it && Progress(n, 0, buffer[newIt..])
    ensures newIt < it ==> newIt >= 1
    ensures value == 0 ==> newIt == it && buffer[..] == old(buffer[..])
  {
    var v := value;
    newIt := it;
    while v != 0
      invariant newIt <= it && 0 <= v <= value && Progress(n, v, buffer[newIt..])
      invariant newIt < it ==> newIt >= 1
      invariant v == value ==> newIt == it && buffer[..] == old(buffer[..])
    {
      RoomLeft(ty, n, v, buffer[newIt..]);
      PutDigit(buffer, newIt, v, n);
      v, newIt := v / 10, newIt - 1;
    }
  }

  /** Digits of the magnitude, with the sign in front. */
  lemma SignedNumeral(value: int, magnitude: string)
    requires Progress(if value < 0 then -value else value, 0, magnitude) && (value == 0 ==> magnitude == "0")
    ensures var str := if value < 0 then "-" + magnitude else magnitude; Canonical(str) && Parse(str) == value
  {
    assert ("-" + magnitude)[1..] == magnitude;
  }

  /** The magnitude of the minimum has more than `digits10` digits. */
  lemma MagnitudeSize(ty: IntType, n: nat, magnitude: string)
    requires n <= Pow(2, ty.digits) && Progress(n, 0, magnitude)
    ensures n == Pow(2, ty.digits) ==> |magnitude| > Digits10(ty.digits)
  {
    Digits10Bounds(ty.digits);
    NumberBound(magnitude);
    if n == Pow(2, ty.digits) {
      PowMonotonic(Digits10(ty.digits), |magnitude|);
    }
  }

  /** Everything but the sign. */
  method WriteMagnitude(ty: IntType, buffer: array<char>, value: int) returns (it: nat)
    requires Exists(ty) && Fits(ty, value) && buffer.Length == Digits10(ty.digits) + 2
    modifies buffer
    ensures it <= buffer.Length && (value != 0 ==> 1 <= it)
    ensures Progress(if value < 0 then -value else value, 0, buffer[it..]) && (value == 0 ==> buffer[it..] == "0")
  {
    it := buffer.Length;
    var v := value;
    if value == 0 {
      it := it - 1;
      buffer[it] := '0';
      assert buffer[it..] == "0";
    }
    assert buffer[buffer.Length..] == "" && Pow(10, 0) == 1;
    if ty.isSigned && value < 0 {
      it, v := Step1(ty, buffer, it, value);
    }
    it := WriteDigits(ty, buffer, it, v, if value < 0 then -value else value);
  }

  /** The whole conversion: the one canonical numeral of `value`, within the buffer. */
  method ConvertIntegerToString(ty: IntType, value: int) returns (str: string)
    requires Exists(ty) && Fits(ty, value)
    ensures Canonical(str) && Parse(str) == value
    ensures |str| <= Digits10(ty.digits) + 2
    ensures ty.isSigned && value == Min(ty) ==> |str| == Digits10(ty.digits) + 2
  {
    var buffer := new char[Digits10(ty.digits) + 2];
    var it := WriteMagnitude(ty, buffer, value);
    ghost var magnitude := buffer[it..];
    SignedNumeral(value, magnitude);
    MagnitudeSize(ty, if value < 0 then -value else value, magnitude);
    if ty.isSigned && value < 0 {
      it := it - 1;
      buffer[it] := '-';
      assert buffer[it..] == "-" + magnitude;
    }
    str := buffer[it..];
  }

  /** Printing determines the value, and any canonical numeral of the value is what is printed. */
  lemma PrintedIffCanonical(value: int, printed: string, s: string)
    requires Canonical(printed) && Parse(printed) == value
    ensures s == printed <==> Canonical(s) && Parse(s) == value
  {
    if Canonical(s) && Parse(s) == value {
      CanonicalUnique(s, printed);
    }
  }
}
