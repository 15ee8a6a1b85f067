/**
  Timestamps as `add_workout` stores them: local time formatted `%Y-%m-%d %H:%M:%S`,
  and dates as SQLite's `date(...)` returns them, `%Y-%m-%d`.
 */
module Timestamps {
  import opened Decimal
  import opened LexOrder

  predicate DigitsAt(s: string, lo: nat, hi: nat)
    requires lo <= hi <= |s|
  {
    AllDigits(s[lo..hi])
  }

  /** The `%Y-%m-%d %H:%M:%S` shape, e.g. "2024-03-09 18:05:42". */
  predicate IsTimestamp(s: string) {
    && |s| == 19
    && DigitsAt(s, 0, 4) && s[4] == '-' && DigitsAt(s, 5, 7) && s[7] == '-' && DigitsAt(s, 8, 10)
    && s[10] == ' '
    && DigitsAt(s, 11, 13) && s[13] == ':' && DigitsAt(s, 14, 16) && s[16] == ':' && DigitsAt(s, 17, 19)
  }

  /** What the formatted local clock produces. */
  type Timestamp = s: string | IsTimestamp(s) witness "1970-01-01 00:00:00"

  const DateLength: nat := 10

  /** The `%Y-%m-%d` shape, e.g. "2024-03-09". */
  predicate IsDate(s: string) {
    |s| == DateLength && DigitsAt(s, 0, 4) && s[4] == '-' && DigitsAt(s, 5, 7) && s[7] == '-' && DigitsAt(s, 8, 10)
  }

  /** SQLite's `date(timestamp)`: the calendar day of a stored timestamp. */
  function DateOf(ts: Timestamp): (d: string)
    ensures |d| == DateLength && d <= ts
  {
    ts[..DateLength]
  }

  /** The day of a timestamp has the `%Y-%m-%d` shape. */
  lemma DateOfIsDate(ts: Timestamp)
    ensures IsDate(DateOf(ts))
  {
    var d := DateOf(ts);
    assert d[0..4] == ts[0..4] && d[5..7] == ts[5..7] && d[8..10] == ts[8..10];
  }

  /** Timestamps on different days are ordered as their days are. */
  lemma DateOrderAgreesWithTimestamps(a: Timestamp, b: Timestamp)
    requires DateOf(a) != DateOf(b)
    ensures Below(a, b) <==> Below(DateOf(a), DateOf(b))
  {
    BelowDecidedByPrefix(a, b, DateLength);
  }

  /** The starting positions of the six numeric fields. */
  predicate IsFieldStart(lo: nat) {
    lo in {0, 5, 8, 11, 14, 17}
  }

  /** One past the last position of the field starting at `lo`. */
  function FieldEnd(lo: nat): nat {
    if lo == 0 then 4 else lo + 2
  }

  /** The numeric value of the field starting at `lo` (year, month, day, hour, minute, second). */
  function Field(ts: Timestamp, lo: nat): (v: nat)
    requires IsFieldStart(lo)
    ensures lo > 0 ==> v < 100
  {
    assert Pow10(2) == 100;
    Value(ts[lo..FieldEnd(lo)])
  }

  /** The weight of the field starting at `lo` in the number YYYYMMDDhhmmss. */
  function Scale(lo: nat): nat
    requires IsFieldStart(lo)
  {
    if lo == 17 then 1
    else if lo == 14 then 100
    else if lo == 11 then 10000
    else if lo == 8 then 1000000
    else if lo == 5 then 100000000
    else 10000000000
  }

  /** The number spelled by the fields from `lo` on, separators skipped. */
  function KeyFrom(ts: Timestamp, lo: nat): (k: nat)
    requires IsFieldStart(lo)
    ensures lo > 0 ==> k < 100 * Scale(lo)
    decreases 19 - lo
  {
    if lo == 17 then Field(ts, 17)
    else
      ScaleStep(lo);
      var rest := KeyFrom(ts, FieldEnd(lo) + 1);
      var f, sc := Field(ts, lo), Scale(lo);
      FieldBound(lo > 0, f, rest, sc);
      f * sc + rest
  }

  /**
    The wall-clock reading a timestamp spells, as the number YYYYMMDDhhmmss: a later field
    only breaks ties between earlier ones.
   */
  function ChronoKey(ts: Timestamp): nat {
    KeyFrom(ts, 0)
  }

  /** Comparing text in the stored format is comparing the wall-clock readings it spells. */
  lemma TimestampOrderIsChronological(a: Timestamp, b: Timestamp)
    ensures Below(a, b) <==> ChronoKey(a) < ChronoKey(b)
  {
    SuffixOrder(a, b, 0);
    assert a[0..] == a && b[0..] == b;
  }

  lemma {:induction false} SuffixOrder(a: Timestamp, b: Timestamp, lo: nat)
    requires IsFieldStart(lo)
    ensures Below(a[lo..], b[lo..]) <==> KeyFrom(a, lo) < KeyFrom(b, lo)
    decreases 19 - lo
  {
    var hi := FieldEnd(lo);
    FieldStep(a, b, lo, hi);
    if lo == 17 {
      assert a[19..] == [] && b[19..] == [];
    } else {
      SeparatorStep(a, b, hi);
      SuffixOrder(a, b, hi + 1);
      assert Scale(hi + 1) * 100 == Scale(lo);
      LeadingDigitDecides(Field(a, lo), KeyFrom(a, hi + 1), Field(b, lo), KeyFrom(b, hi + 1), Scale(lo));
    }
  }

  /** A digit field decides the comparison unless both strings agree on it. */
  lemma FieldStep(a: Timestamp, b: Timestamp, lo: nat, hi: nat)
    requires IsFieldStart(lo) && hi == FieldEnd(lo)
    ensures Below(a[lo..], b[lo..]) <==>
      Field(a, lo) < Field(b, lo) || (Field(a, lo) == Field(b, lo) && Below(a[hi..], b[hi..]))
  {
    var u1, u2 := a[lo..hi], b[lo..hi];
    assert a[lo..] == u1 + a[hi..] && b[lo..] == u2 + b[hi..];
    BelowConcat(u1, a[hi..], u2, b[hi..]);
    DigitsBelow(u1, u2);
  }

  /** A separator both timestamps carry at the same place does not affect the comparison. */
  lemma SeparatorStep(a: Timestamp, b: Timestamp, i: nat)
    requires i in {4, 7, 10, 13, 16}
    ensures Below(a[i..], b[i..]) <==> Below(a[i + 1..], b[i + 1..])
  {
    assert a[i..][1..] == a[i + 1..] && b[i..][1..] == b[i + 1..];
  }

  /** Comparing equal-length prefixes first, then the rest. */
  lemma BelowConcat(u1: string, x1: string, u2: string, x2: string)
    requires |u1| == |u2|
    ensures Below(u1 + x1, u2 + x2) <==> Below(u1, u2) || (u1 == u2 && Below(x1, x2))
  {
    var k := |u1|;
    assert (u1 + x1)[..k] == u1 && (u2 + x2)[..k] == u2;
    if u1 != u2 {
      BelowDecidedByPrefix(u1 + x1, u2 + x2, k);
    } else {
      BelowIrreflexive(u1);
      SharedPrefix(u1, x1, x2);
    }
  }

  lemma {:induction false} SharedPrefix(u: string, x1: string, x2: string)
    ensures Below(u + x1, u + x2) <==> Below(x1, x2)
    decreases |u|
  {
    if |u| > 0 {
      assert (u + x1)[1..] == u[1..] + x1 && (u + x2)[1..] == u[1..] + x2;
      SharedPrefix(u[1..], x1, x2);
    } else {
      assert u + x1 == x1 && u + x2 == x2;
    }
  }

  /** Equal-length digit strings compare as the numbers they denote. */
  lemma {:induction false} DigitsBelow(u1: string, u2: string)
    requires |u1| == |u2| && AllDigits(u1) && AllDigits(u2)
    ensures Below(u1, u2) <==> Value(u1) < Value(u2)
    ensures u1 == u2 <==> Value(u1) == Value(u2)
    decreases |u1|
  {
    if |u1| > 0 {
      var n := |u1|;
      ValueFirstDigit(u1);
      ValueFirstDigit(u2);
      assert AllDigits(u1[1..]) by { forall i | 0 <= i < n - 1 ensures IsDigit(u1[1..][i]) { assert u1[1..][i] == u1[i + 1]; } }
      assert AllDigits(u2[1..]) by { forall i | 0 <= i < n - 1 ensures IsDigit(u2[1..][i]) { assert u2[1..][i] == u2[i + 1]; } }
      DigitsBelow(u1[1..], u2[1..]);
      var p := Pow10(n - 1);
      var d1, d2 := DigitValue(u1[0]), DigitValue(u2[0]);
      var r1, r2 := Value(u1[1..]), Value(u2[1..]);
      assert r1 < p && r2 < p;
      LeadingDigitDecides(d1, r1, d2, r2, p);
      assert u1[0] == u2[0] <==> d1 == d2;
      if u1[0] == u2[0] && u1[1..] == u2[1..] {
        assert u1 == [u1[0]] + u1[1..] && u2 == [u2[0]] + u2[1..];
      }
    }
  }

  lemma LeadingDigitDecides(d1: nat, r1: nat, d2: nat, r2: nat, p: nat)
    requires r1 < p && r2 < p
    ensures d1 * p + r1 < d2 * p + r2 <==> d1 < d2 || (d1 == d2 && r1 < r2)
    ensures d1 * p + r1 == d2 * p + r2 <==> d1 == d2 && r1 == r2
  {
    if d1 < d2 {
      assert (d1 + 1) * p <= d2 * p by { MulLe(d1 + 1, d2, p); }
    } else if d2 < d1 {
      assert (d2 + 1) * p <= d1 * p by { MulLe(d2 + 1, d1, p); }
    }
  }

  /** Each field's weight is 100 times the weight of the field after it. */
  lemma ScaleStep(lo: nat)
    requires IsFieldStart(lo) && lo != 17
    ensures IsFieldStart(FieldEnd(lo) + 1)
    ensures lo > 0 ==> 100 * Scale(FieldEnd(lo) + 1) == Scale(lo)
  {
  }

  /** A field below 100 followed by a smaller-weight remainder stays below the next weight. */
  lemma FieldBound(inner: bool, f: nat, rest: nat, sc: nat)
    requires inner ==> f < 100 && rest < sc
    ensures inner ==> f * sc + rest < 100 * sc
  {
    if inner {
      MulLe(f + 1, 100, sc);
      assert (f + 1) * sc == f * sc + sc;
    }
  }

  lemma MulLe(x: nat, y: nat, p: nat)
    requires x <= y
    ensures x * p <= y * p
  {
  }
}
