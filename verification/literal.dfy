/** `String#to_dec`: decimal, `0x` hexadecimal or `0b` binary text, each with an
    optional sign, becomes an integer; any other text gives nil (`None`).

    Whole-string matching is modelled: the Ruby patterns are anchored with `^`
    and `$`, which the model reads as the start and end of the text. */
module Literal {
  import opened Wrappers
  import Bits

  /** Value of a digit character in bases up to 16; 16 for anything else. */
  function DigitValue(c: char): nat
  {
    if '0' <= c <= '9' then (c as int) - ('0' as int)
    else if 'a' <= c <= 'f' then (c as int) - ('a' as int) + 10
    else if 'A' <= c <= 'F' then (c as int) - ('A' as int) + 10
    else 16
  }

  predicate IsDigitIn(c: char, base: nat)
  {
    DigitValue(c) < base
  }

  predicate AllDigitsIn(s: string, base: nat)
  {
    forall i :: 0 <= i < |s| ==> IsDigitIn(s[i], base)
  }

  /** Length of an optional leading `+` or `-`. */
  function SignLength(s: string): (r: nat)
    ensures r <= |s|
  {
    if |s| > 0 && (s[0] == '+' || s[0] == '-') then 1 else 0
  }

  /** `/^[+-]?\d+$/` */
  predicate DecimalShape(s: string)
  {
    var body := s[SignLength(s)..];
    |body| > 0 && AllDigitsIn(body, 10)
  }

  /** Text after a `0` and one of the two given prefix letters, if present. */
  predicate HasPrefix(body: string, lower: char, upper: char)
  {
    |body| >= 2 && body[0] == '0' && (body[1] == lower || body[1] == upper)
  }

  /** The characters allowed after a radix prefix: digits of the base and `_`. */
  predicate DigitsOrSeparators(s: string, base: nat)
  {
    forall i :: 0 <= i < |s| ==> IsDigitIn(s[i], base) || s[i] == '_'
  }

  /** `/^[+-]?0[xX][\da-fA-F_]+$/` */
  predicate HexShape(s: string)
  {
    var body := s[SignLength(s)..];
    HasPrefix(body, 'x', 'X') && |body| > 2 && DigitsOrSeparators(body[2..], 16)
  }

  /** `/^[+-]?0[bB][_01]+$/` */
  predicate BinaryShape(s: string)
  {
    var body := s[SignLength(s)..];
    HasPrefix(body, 'b', 'B') && |body| > 2 && DigitsOrSeparators(body[2..], 2)
  }

  /** Digit accumulation of `String#to_i`: a single `_` between two digits is
      skipped, and scanning stops at the first character that is neither a digit
      nor such a separator. */
  function ScanDigits(s: string, base: nat, acc: int): (r: int)
    requires acc >= 0
    ensures r >= acc
    decreases |s|
  {
    if |s| == 0 then acc
    else if IsDigitIn(s[0], base) then
      AccumulateGrows(acc, base, DigitValue(s[0]));
      ScanDigits(s[1..], base, acc * base + DigitValue(s[0]))
    else if s[0] == '_' && |s| >= 2 && IsDigitIn(s[1], base) then
      AccumulateGrows(acc, base, DigitValue(s[1]));
      ScanDigits(s[2..], base, acc * base + DigitValue(s[1]))
    else acc
  }

  /** Shifting in a digit never lowers the accumulated value. */
  lemma AccumulateGrows(acc: int, base: nat, d: nat)
    requires acc >= 0 && base >= 1
    ensures acc * base + d >= acc
  {
    MulNonNegative(acc, base - 1);
  }

  /** The unsigned part of `String#to_i(base)`: no digit at the start gives 0. */
  function ScanUnsigned(s: string, base: nat): (r: nat)
  {
    if |s| > 0 && IsDigitIn(s[0], base) then ScanDigits(s, base, 0) else 0
  }

  /** `String#to_i(base)` on text without leading blanks: an optional sign, then
      for base 16 an optional `0x`/`0X` and for base 2 an optional `0b`/`0B`
      prefix, then digits. */
  function RubyToI(s: string, base: nat): int
  {
    var k := SignLength(s);
    var body := s[k..];
    var digits :=
      if base == 16 && HasPrefix(body, 'x', 'X') then body[2..]
      else if base == 2 && HasPrefix(body, 'b', 'B') then body[2..]
      else body;
    var magnitude: int := ScanUnsigned(digits, base);
    if k == 1 && s[0] == '-' then -magnitude else magnitude
  }

  /** `String#to_dec` */
  function ToDec(s: string): Option<int>
  {
    if DecimalShape(s) then Some(RubyToI(s, 10))
    else if HexShape(s) then Some(RubyToI(s, 16))
    else if BinaryShape(s) then Some(RubyToI(s, 2))
    else None
  }

  // ---------------------------------------------------------------------------
  // An independent formatter, and the round trips through it
  // ---------------------------------------------------------------------------

  /** The lower-case digit character of a value below 16. */
  function DigitChar(d: nat): (c: char)
    requires d < 16
    ensures DigitValue(c) == d
  {
    if d < 10 then (('0' as int) + d) as char else (('a' as int) + d - 10) as char
  }

  /** Base-`base` digits of a non-negative integer, most significant first. */
  function Digits(n: nat, base: nat): (r: string)
    requires 2 <= base <= 16
    ensures |r| > 0 && AllDigitsIn(r, base)
  {
    if n < base then [DigitChar(n)]
    else
      DivStep(n, base);
      var r := Digits(n / base, base) + [DigitChar(n % base)];
      assert forall i :: 0 <= i < |r| - 1 ==> r[i] == Digits(n / base, base)[i];
      r
  }

  function SignText(n: int): string
  {
    if n < 0 then "-" else ""
  }

  function Magnitude(n: int): nat
  {
    if n < 0 then -n else n
  }

  /** `n.to_s`, `"0x" + n.to_s(16)` and `"0b" + n.to_s(2)` with a leading minus. */
  function FormatDecimal(n: int): string
  {
    SignText(n) + Digits(Magnitude(n), 10)
  }

  function FormatHex(n: int): string
  {
    SignText(n) + "0x" + Digits(Magnitude(n), 16)
  }

  function FormatBinary(n: int): string
  {
    SignText(n) + "0b" + Digits(Magnitude(n), 2)
  }

  /** Scanning a run of digits and then more text continues from the run's value. */
  lemma {:induction false} ScanAppend(a: string, t: string, base: nat, acc: int)
    requires acc >= 0 && AllDigitsIn(a, base)
    ensures ScanDigits(a + t, base, acc) == ScanDigits(t, base, ScanDigits(a, base, acc))
    decreases |a|
  {
    if |a| > 0 {
      assert (a + t)[0] == a[0] && IsDigitIn(a[0], base);
      assert (a + t)[1..] == a[1..] + t;
      assert AllDigitsIn(a[1..], base) by {
        forall i | 0 <= i < |a[1..]| ensures IsDigitIn(a[1..][i], base) {
          assert a[1..][i] == a[i + 1];
        }
      }
      ScanAppend(a[1..], t, base, acc * base + DigitValue(a[0]));
    } else {
      assert a + t == t;
    }
  }

  /** Scanning one more digit appends it to the accumulated value. */
  lemma ScanOneDigit(c: char, base: nat, x: int)
    requires x >= 0 && IsDigitIn(c, base)
    ensures ScanDigits([c], base, x) == x * base + DigitValue(c)
  {
    assert [c][1..] == [];
  }

  /** Dividing by a base of at least two makes a positive number smaller. */
  lemma DivStep(n: nat, base: nat)
    requires base >= 2 && n >= base
    ensures n / base < n && (n / base) * base + n % base == n
  {
    var q, r := n / base, n % base;
    assert n == q * base + r;
    Bits.MulSign(q, base);
    assert q >= 0;
    MulNonNegative(base - 2, q);
  }

  lemma MulNonNegative(a: int, b: int)
    requires a >= 0 && b >= 0
    ensures a * b >= 0
  {
  }

  /** The digits of n scan back to n. */
  lemma {:induction false} ScanDigitsOfDigits(n: nat, base: nat)
    requires 2 <= base <= 16
    ensures ScanDigits(Digits(n, base), base, 0) == n
  {
    if n >= base {
      var q, r := n / base, n % base;
      DivStep(n, base);
      var c := DigitChar(r);
      assert Digits(n, base) == Digits(q, base) + [c];
      ScanAppend(Digits(q, base), [c], base, 0);
      ScanDigitsOfDigits(q, base);
      ScanOneDigit(c, base, q);
    } else {
      ScanOneDigit(DigitChar(n), base, 0);
    }
  }

  /** A separator in front of a digit is skipped with no effect on the value. */
  lemma SeparatorSkipped(b: string, base: nat, x: int)
    requires base <= 16 && x >= 0 && |b| > 0 && IsDigitIn(b[0], base)
    ensures ScanDigits("_" + b, base, x) == ScanDigits(b, base, x)
  {
    var u := "_" + b;
    assert u[0] == '_' && !IsDigitIn(u[0], base);
    assert u[1] == b[0] && u[2..] == b[1..];
  }

  /** A single separator between two digit runs does not change the value. */
  lemma SeparatorIgnored(a: string, b: string, base: nat)
    requires base <= 16
    requires |a| > 0 && |b| > 0 && AllDigitsIn(a, base) && AllDigitsIn(b, base)
    ensures ScanUnsigned(a + "_" + b, base) == ScanUnsigned(a + b, base)
  {
    var u := "_" + b;
    assert a + "_" + b == a + u;
    assert (a + u)[0] == a[0] && (a + b)[0] == a[0];
    ScanAppend(a, u, base, 0);
    ScanAppend(a, b, base, 0);
    SeparatorSkipped(b, base, ScanDigits(a, base, 0));
  }

  /** Removing the sign of a formatted number leaves its digit text. */
  lemma SignSplit(n: int, rest: string)
    requires |rest| > 0 && rest[0] != '+' && rest[0] != '-'
    ensures SignLength(SignText(n) + rest) == |SignText(n)|
    ensures (SignText(n) + rest)[SignLength(SignText(n) + rest)..] == rest
  {
  }

  lemma DecimalRoundTrip(n: int)
    ensures ToDec(FormatDecimal(n)) == Some(n)
  {
    var ds := Digits(Magnitude(n), 10);
    assert DigitValue(ds[0]) < 10;
    SignSplit(n, ds);
    ScanDigitsOfDigits(Magnitude(n), 10);
  }

  lemma HexRoundTrip(n: int)
    ensures ToDec(FormatHex(n)) == Some(n)
  {
    var ds := Digits(Magnitude(n), 16);
    var rest := "0x" + ds;
    assert SignText(n) + "0x" + ds == SignText(n) + rest;
    SignSplit(n, rest);
    assert rest[2..] == ds;
    assert !DecimalShape(FormatHex(n)) by {
      assert FormatHex(n)[SignLength(FormatHex(n))..][1] == 'x';
    }
    ScanDigitsOfDigits(Magnitude(n), 16);
  }

  lemma BinaryRoundTrip(n: int)
    ensures ToDec(FormatBinary(n)) == Some(n)
  {
    var ds := Digits(Magnitude(n), 2);
    var rest := "0b" + ds;
    assert SignText(n) + "0b" + ds == SignText(n) + rest;
    SignSplit(n, rest);
    assert rest[2..] == ds;
    var body := FormatBinary(n)[SignLength(FormatBinary(n))..];
    assert body[1] == 'b';
    assert !DecimalShape(FormatBinary(n));
    assert !HexShape(FormatBinary(n));
    ScanDigitsOfDigits(Magnitude(n), 2);
  }
}
