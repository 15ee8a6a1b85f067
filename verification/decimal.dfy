/**
  Decimal digits, 32-bit signed integers, the standard library's `str::parse::<i32>`
  and the `Display` rendering of a non-negative integer.
 */
module Decimal {
  import opened Wrappers

  const I32Min: int := -0x8000_0000
  const I32Max: int := 0x7FFF_FFFF
  /** Number of distinct 32-bit values, the modulus of two's-complement wrap-around. */
  const I32Span: int := 0x1_0000_0000

  predicate InI32(x: int) {
    I32Min <= x <= I32Max
  }

  /** Rust's `char::is_ascii_digit`. */
  predicate IsDigit(c: char) {
    '0' <= c <= '9'
  }

  function DigitValue(c: char): (d: nat)
    requires IsDigit(c)
    ensures d < 10
  {
    (c as int) - ('0' as int)
  }

  function DigitChar(d: nat): (c: char)
    requires d < 10
    ensures IsDigit(c) && DigitValue(c) == d
  {
    (('0' as int) + d) as char
  }

  predicate AllDigits(s: string) {
    forall i :: 0 <= i < |s| ==> IsDigit(s[i])
  }

  function Pow10(n: nat): (p: nat)
    ensures p >= 1
  {
    if n == 0 then 1 else 10 * Pow10(n - 1)
  }

  /** The number a string of decimal digits denotes, most significant digit first. */
  function Value(s: string): (v: nat)
    requires AllDigits(s)
    ensures v < Pow10(|s|)
  {
    if |s| == 0 then 0 else 10 * Value(s[..|s| - 1]) + DigitValue(s[|s| - 1])
  }

  /** Splitting off the most significant digit instead of the least significant one. */
  lemma {:induction false} ValueFirstDigit(s: string)
    requires AllDigits(s) && |s| > 0
    ensures Value(s) == DigitValue(s[0]) * Pow10(|s| - 1) + Value(s[1..])
    decreases |s|
  {
    var n := |s|;
    if n == 1 {
      assert s[..0] == [] && s[1..] == [];
    } else {
      var p := s[..n - 1];
      ValueFirstDigit(p);
      assert p[0] == s[0];
      var tail := s[1..];
      assert tail[..n - 2] == p[1..];
      assert tail[n - 2] == s[n - 1];
      var d0, rest, last := DigitValue(s[0]), Value(p[1..]), DigitValue(s[n - 1]);
      assert Value(s) == 10 * Value(p) + last;
      assert Value(tail) == 10 * rest + last;
      assert Pow10(n - 1) == 10 * Pow10(n - 2);
      FirstDigitAlgebra(d0, Pow10(n - 2), rest, last);
    }
  }

  lemma FirstDigitAlgebra(d0: int, p: int, rest: int, last: int)
    ensures 10 * (d0 * p + rest) + last == d0 * (10 * p) + (10 * rest + last)
  {
    assert 10 * (d0 * p) == d0 * (10 * p);
  }

  /** Appending a digit shifts the value one decimal place. */
  lemma ValueSnoc(s: string, c: char)
    requires AllDigits(s) && IsDigit(c)
    ensures AllDigits(s + [c]) && Value(s + [c]) == 10 * Value(s) + DigitValue(c)
  {
    assert (s + [c])[..|s|] == s;
  }

  /** Leading zeros do not change the value ("007" denotes 7). */
  lemma LeadingZero(s: string)
    requires AllDigits(s)
    ensures AllDigits("0" + s) && Value("0" + s) == Value(s)
  {
    var t := "0" + s;
    assert t[1..] == s;
    ValueFirstDigit(t);
  }

  /**
    The digit loop of the standard library's signed integer parser: the accumulator is
    multiplied by ten and the digit is added (or, after a minus sign, subtracted), each
    with a checked 32-bit operation. A non-digit or an overflow yields None.
   */
  function Accumulate(acc: int, digits: string, negative: bool): Option<int>
    decreases |digits|
  {
    if |digits| == 0 then Some(acc)
    else if !IsDigit(digits[0]) then None
    else
      var shifted := acc * 10;
      var next := if negative then shifted - DigitValue(digits[0]) else shifted + DigitValue(digits[0]);
      if !InI32(shifted) || !InI32(next) then None
      else Accumulate(next, digits[1..], negative)
  }

  /** `str::parse::<i32>`: an optional `+` or `-`, then one or more decimal digits. */
  function ParseI32(s: string): Option<int> {
    if |s| == 0 then None
    else if (s[0] == '+' || s[0] == '-') && |s| == 1 then None
    else if s[0] == '+' then Accumulate(0, s[1..], false)
    else if s[0] == '-' then Accumulate(0, s[1..], true)
    else Accumulate(0, s, false)
  }

  /** The strings that spell an integer: digits, optionally after a single sign. */
  predicate IsIntegerLiteral(s: string) {
    |s| > 0 && (AllDigits(s) || ((s[0] == '+' || s[0] == '-') && |s| > 1 && AllDigits(s[1..])))
  }

  /** The integer such a string spells. */
  function LiteralValue(s: string): int
    requires IsIntegerLiteral(s)
  {
    if AllDigits(s) then Value(s)
    else if s[0] == '-' then -(Value(s[1..]) as int)
    else Value(s[1..])
  }

  /** What the digit loop computes when no step overflows. */
  function Combined(acc: int, digits: string, negative: bool): int
    requires AllDigits(digits)
  {
    acc * Pow10(|digits|) + (if negative then -(Value(digits) as int) else Value(digits))
  }

  /** One digit of the loop: the accumulated value absorbs the leading digit. */
  lemma CombinedStep(acc: int, digits: string, negative: bool)
    requires AllDigits(digits) && |digits| > 0
    requires if negative then acc <= 0 else acc >= 0
    ensures AllDigits(digits[1..])
    ensures var next := if negative then acc * 10 - DigitValue(digits[0]) else acc * 10 + DigitValue(digits[0]);
      && Combined(acc, digits, negative) == Combined(next, digits[1..], negative)
      && (if negative then Combined(acc, digits, negative) <= next <= acc * 10 <= 0
          else Combined(acc, digits, negative) >= next >= acc * 10 >= 0)
  {
    var n := |digits|;
    var d := DigitValue(digits[0]);
    var rest := digits[1..];
    assert AllDigits(rest) by {
      forall i | 0 <= i < |rest| ensures IsDigit(rest[i]) {
        assert rest[i] == digits[i + 1];
      }
    }
    ValueFirstDigit(digits);
    var p := Pow10(n - 1);
    var v := Value(rest);
    var bigP := Pow10(n);
    var bigV := Value(digits);
    assert bigP == 10 * p;
    assert bigV == d * p + v;
    assert Combined(acc, digits, negative) == acc * bigP + (if negative then -(bigV as int) else bigV);
    assert Combined(acc, digits, negative) == acc * (10 * p) + (if negative then -(d * p + v) else d * p + v);
    var next := if negative then acc * 10 - d else acc * 10 + d;
    assert |rest| == n - 1;
    assert Combined(next, rest, negative) == next * p + (if negative then -(v as int) else v);
    StepAlgebra(acc, d, p, v, negative);
  }

  lemma StepAlgebra(acc: int, d: nat, p: int, v: nat, negative: bool)
    requires p >= 1
    requires if negative then acc <= 0 else acc >= 0
    ensures var next := if negative then acc * 10 - d else acc * 10 + d;
      var total := acc * (10 * p) + (if negative then -(d * p + v) else d * p + v);
      && total == next * p + (if negative then -(v as int) else v)
      && (if negative then total <= next <= acc * 10 <= 0 else total >= next >= acc * 10 >= 0)
  {
    var next := if negative then acc * 10 - d else acc * 10 + d;
    assert acc * (10 * p) == (acc * 10) * p;
    if negative {
      assert (acc * 10) * p - d * p == next * p;
      MulMonotone(-next, p);
      assert (-next) * p == -(next * p);
    } else {
      assert (acc * 10) * p + d * p == next * p;
      MulMonotone(next, p);
    }
  }

  lemma MulMonotone(x: int, p: int)
    requires x >= 0 && p >= 1
    ensures x * p >= x
  {
  }

  lemma {:induction false} AccumulateCorrect(acc: int, digits: string, negative: bool)
    requires InI32(acc)
    requires if negative then acc <= 0 else acc >= 0
    ensures Accumulate(acc, digits, negative) ==
      if AllDigits(digits) && InI32(Combined(acc, digits, negative))
      then Some(Combined(acc, digits, negative)) else None
    decreases |digits|
  {
    if |digits| == 0 {
    } else if !IsDigit(digits[0]) {
    } else {
      var rest := digits[1..];
      var shifted := acc * 10;
      var next := if negative then shifted - DigitValue(digits[0]) else shifted + DigitValue(digits[0]);
      assert AllDigits(digits) <==> AllDigits(rest) by {
        if AllDigits(rest) {
          forall i | 0 <= i < |digits| ensures IsDigit(digits[i]) {
            if i > 0 { assert digits[i] == rest[i - 1]; }
          }
        }
      }
      if AllDigits(digits) {
        CombinedStep(acc, digits, negative);
      }
      if InI32(shifted) && InI32(next) {
        AccumulateCorrect(next, rest, negative);
      }
    }
  }

  /** `str::parse::<i32>` succeeds exactly on integer literals within the 32-bit range. */
  lemma ParseI32Correct(s: string)
    ensures ParseI32(s) ==
      if IsIntegerLiteral(s) && InI32(LiteralValue(s)) then Some(LiteralValue(s)) else None
  {
    if |s| == 0 {
    } else if (s[0] == '+' || s[0] == '-') && |s| == 1 {
      assert !AllDigits(s) by { assert !IsDigit(s[0]); }
    } else if s[0] == '+' || s[0] == '-' {
      assert !AllDigits(s) by { assert !IsDigit(s[0]); }
      AccumulateCorrect(0, s[1..], s[0] == '-');
      if AllDigits(s[1..]) {
        assert Combined(0, s[1..], s[0] == '-') == LiteralValue(s);
      }
    } else {
      AccumulateCorrect(0, s, false);
      if AllDigits(s) {
        assert Combined(0, s, false) == Value(s);
      }
    }
  }

  /** On a non-empty digit string, parsing succeeds exactly when the value fits in an `i32`. */
  lemma ParseDigits(s: string)
    requires AllDigits(s) && |s| > 0
    ensures ParseI32(s) == if Value(s) <= I32Max then Some(Value(s)) else None
  {
    ParseI32Correct(s);
  }

  /** `Display` of a non-negative integer: decimal digits without leading zeros. */
  function NatToDecimal(n: nat): (r: string)
    ensures |r| > 0 && AllDigits(r)
    ensures Value(r) == n
    ensures |r| > 1 ==> r[0] != '0'
  {
    if n < 10 then [DigitChar(n)]
    else
      var prefix := NatToDecimal(n / 10);
      var r := prefix + [DigitChar(n % 10)];
      assert r[..|r| - 1] == prefix;
      r
  }

  /** Rendering then parsing gives back every positive `i32`. */
  lemma DisplayParseRoundTrip(n: nat)
    requires n <= I32Max
    ensures ParseI32(NatToDecimal(n)) == Some(n)
  {
    ParseDigits(NatToDecimal(n));
  }

  /** Two's-complement wrap-around of an addition result to 32 bits (Rust release builds). */
  function WrapI32(x: int): (r: int)
    ensures InI32(r)
    ensures (x - r) % I32Span == 0
    ensures InI32(x) ==> r == x
  {
    (x - I32Min) % I32Span + I32Min
  }

  /** Wrapping after every addition is the same as wrapping once at the end. */
  lemma WrapAdd(a: int, b: int)
    ensures WrapI32(WrapI32(a) + b) == WrapI32(a + b)
  {
    var w := WrapI32(a);
    var k := (a - w) / I32Span;
    assert a == w + k * I32Span;
    var x := a + b - I32Min;
    var y := w + b - I32Min;
    assert x == y + k * I32Span;
    ModShift(y, k);
  }

  lemma ModShift(y: int, k: int)
    ensures (y + k * I32Span) % I32Span == y % I32Span
  {
    var q := y / I32Span;
    var m := y % I32Span;
    assert y == q * I32Span + m && 0 <= m < I32Span;
    assert y + k * I32Span == (q + k) * I32Span + m;
  }
}
