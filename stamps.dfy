/**
 Local wall-clock date-times and the two `strftime` renderings the scripts
 use: the collector stamps readings with '%Y-%m-%d %H:%M:%S' and the plotter
 bounds its window with '%Y-%m-%d %H:%M'. Both are fixed-width and
 zero-padded, so for one format the text order is the order of the fields
 (year, month, day, hour, minute, second), most significant first; across
 the two formats the minute-precision text is a proper prefix, which decides
 how the window treats the current minute. The fields are wall-clock
 readings: a repeated hour at the end of daylight saving time is not
 modelled.
 */
module Stamps {
  import opened Collation

  // %Y renders four digits only for years 1000 to 9999.
  type Year = n: int | 1000 <= n <= 9999 witness 1970
  type Month = n: int | 1 <= n <= 12 witness 1
  type Day = n: int | 1 <= n <= 31 witness 1
  type Hour = n: int | 0 <= n < 24
  type Minute = n: int | 0 <= n < 60
  type Second = n: int | 0 <= n < 60

  datatype DateTime = DateTime(year: Year, month: Month, day: Day, hour: Hour, minute: Minute, second: Second)

  function Pow10(width: nat): nat {
    if width == 0 then 1 else 10 * Pow10(width - 1)
  }

  function DigitChar(d: nat): char
    requires d < 10
  {
    (48 + d) as char
  }

  predicate IsDigit(c: char) {
    '0' <= c <= '9'
  }

  /** `n` written in decimal with leading zeros to exactly `width` digits, as `%Y`, `%m`, ... do. */
  function ZeroPad(n: nat, width: nat): (s: string)
    requires n < Pow10(width)
    ensures |s| == width
    ensures forall i :: 0 <= i < |s| ==> IsDigit(s[i])
    decreases width
  {
    if width == 0 then [] else ZeroPad(n / 10, width - 1) + [DigitChar(n % 10)]
  }

  /** The number a string of decimal digits denotes. */
  function DigitsValue(s: string): nat
    requires forall i :: 0 <= i < |s| ==> IsDigit(s[i])
  {
    if s == [] then 0
    else
      assert IsDigit(s[|s| - 1]);
      10 * DigitsValue(s[..|s| - 1]) + (s[|s| - 1] as int - 48)
  }

  /** Zero padding loses nothing: reading the digits back gives the number. */
  lemma {:induction false} ZeroPadValue(n: nat, width: nat)
    requires n < Pow10(width)
    ensures DigitsValue(ZeroPad(n, width)) == n
  {
    if width > 0 {
      var s := ZeroPad(n, width);
      assert s[..|s| - 1] == ZeroPad(n / 10, width - 1);
      ZeroPadValue(n / 10, width - 1);
    }
  }

  /** A string matches a pattern in which '#' stands for any digit and every other character for itself. */
  predicate Fits(s: string, pattern: string) {
    && |s| == |pattern|
    && forall i :: 0 <= i < |s| ==> if pattern[i] == '#' then IsDigit(s[i]) else s[i] == pattern[i]
  }

  const MinutePattern: string := "####-##-## ##:##"
  const SecondPattern: string := "####-##-## ##:##:##"

  /** strftime('%Y-%m-%d %H:%M'): the plotter's bound format. */
  function FormatMinutes(t: DateTime): (s: string)
    ensures Fits(s, MinutePattern)
  {
    var s := ZeroPad(t.year, 4) + "-" + ZeroPad(t.month, 2) + "-" + ZeroPad(t.day, 2) + " "
      + ZeroPad(t.hour, 2) + ":" + ZeroPad(t.minute, 2);
    assert forall i :: 0 <= i < 4 ==> s[i] == ZeroPad(t.year, 4)[i];
    assert forall i :: 5 <= i < 7 ==> s[i] == ZeroPad(t.month, 2)[i - 5];
    assert forall i :: 8 <= i < 10 ==> s[i] == ZeroPad(t.day, 2)[i - 8];
    assert forall i :: 11 <= i < 13 ==> s[i] == ZeroPad(t.hour, 2)[i - 11];
    assert forall i :: 14 <= i < 16 ==> s[i] == ZeroPad(t.minute, 2)[i - 14];
    s
  }

  /** strftime('%Y-%m-%d %H:%M:%S'): the collector's stored timestamp format. */
  function FormatSeconds(t: DateTime): (s: string)
    ensures Fits(s, SecondPattern)
    ensures s[..|MinutePattern|] == FormatMinutes(t)
  {
    var m := FormatMinutes(t);
    var s := m + ":" + ZeroPad(t.second, 2);
    assert forall i :: 0 <= i < 16 ==> s[i] == m[i];
    assert forall i :: 17 <= i < 19 ==> s[i] == ZeroPad(t.second, 2)[i - 17];
    assert s[..16] == m;
    s
  }

  function Radix(high: int, base: int, low: int): int {
    high * base + low
  }

  /**
   The position of `t`'s date in field order, year then month then day. It
   is a sort key, not a day count: every month is given 31 days.
   */
  function DateKey(t: DateTime): int {
    Radix(Radix(t.year, 12, t.month - 1), 31, t.day - 1)
  }

  /** The position of `t`'s minute in field order, most significant field first. */
  function MinuteKey(t: DateTime): int {
    Radix(Radix(DateKey(t), 24, t.hour), 60, t.minute)
  }

  /** The same order at second precision. */
  function SecondKey(t: DateTime): int {
    Radix(MinuteKey(t), 60, t.second)
  }

  /** Comparing two mixed-radix numbers: the high parts decide, the low parts only break a tie. */
  lemma RadixOrder(k1: int, x1: int, k2: int, x2: int, base: int)
    requires 0 <= x1 < base && 0 <= x2 < base
    ensures Sign(Radix(k1, base, x1) - Radix(k2, base, x2)) == Then(Sign(k1 - k2), Sign(x1 - x2))
  {
    if k1 < k2 {
      RadixGap(k1, x1, k2, x2, base);
    } else if k2 < k1 {
      RadixGap(k2, x2, k1, x1, base);
    }
  }

  lemma RadixGap(k1: int, x1: int, k2: int, x2: int, base: int)
    requires 0 <= x1 < base && 0 <= x2 < base && k1 < k2
    ensures Radix(k1, base, x1) < Radix(k2, base, x2)
  {
    var d := k2 - k1;
    calc {
      Radix(k2, base, x2) - Radix(k1, base, x1);
    ==
      k2 * base - k1 * base + x2 - x1;
    ==  { assert k2 * base == (k1 + d) * base == k1 * base + d * base; }
      d * base + x2 - x1;
    }
    AtLeastOnce(d, base);
  }

  lemma {:induction false} AtLeastOnce(d: int, base: int)
    requires d >= 1 && base >= 0
    ensures d * base >= base
  {
    if d > 1 {
      AtLeastOnce(d - 1, base);
      assert d * base == (d - 1) * base + base;
    }
  }

  /** Equal-width zero-padded numbers compare as text exactly as they compare as numbers. */
  lemma {:induction false} ZeroPadOrder(n: nat, m: nat, width: nat)
    requires n < Pow10(width) && m < Pow10(width)
    ensures Cmp(ZeroPad(n, width), ZeroPad(m, width)) == Sign(n - m)
  {
    if width > 0 {
      ZeroPadOrder(n / 10, m / 10, width - 1);
      CmpAppend(ZeroPad(n / 10, width - 1), [DigitChar(n % 10)], ZeroPad(m / 10, width - 1), [DigitChar(m % 10)]);
      RadixOrder(n / 10, n % 10, m / 10, m % 10, 10);
    }
  }

  /** Comparing `a + sep + x` with `b + sep + y`, where `a` and `b` have equal length. */
  lemma CmpJoin(a: string, x: string, b: string, y: string, sep: string)
    requires |a| == |b|
    ensures Cmp(a + sep + x, b + sep + y) == Then(Cmp(a, b), Cmp(x, y))
  {
    assert a + sep + x == a + (sep + x);
    assert b + sep + y == b + (sep + y);
    CmpAppend(a, sep + x, b, sep + y);
    CmpAppend(sep, x, sep, y);
    assert Cmp(sep, sep) == 0;
  }

  /** For the minute format, text order is field order. */
  lemma MinutesOrder(a: DateTime, b: DateTime)
    ensures Cmp(FormatMinutes(a), FormatMinutes(b)) == Sign(MinuteKey(a) - MinuteKey(b))
  {
    var ya, yb := ZeroPad(a.year, 4), ZeroPad(b.year, 4);
    var moa, mob := ZeroPad(a.month, 2), ZeroPad(b.month, 2);
    var da, db := ZeroPad(a.day, 2), ZeroPad(b.day, 2);
    var ha, hb := ZeroPad(a.hour, 2), ZeroPad(b.hour, 2);
    var mia, mib := ZeroPad(a.minute, 2), ZeroPad(b.minute, 2);
    ZeroPadOrder(a.year, b.year, 4);
    ZeroPadOrder(a.month, b.month, 2);
    ZeroPadOrder(a.day, b.day, 2);
    ZeroPadOrder(a.hour, b.hour, 2);
    ZeroPadOrder(a.minute, b.minute, 2);
    CmpJoin(ya, moa, yb, mob, "-");
    CmpJoin(ya + "-" + moa, da, yb + "-" + mob, db, "-");
    CmpJoin(ya + "-" + moa + "-" + da, ha, yb + "-" + mob + "-" + db, hb, " ");
    CmpJoin(ya + "-" + moa + "-" + da + " " + ha, mia, yb + "-" + mob + "-" + db + " " + hb, mib, ":");
    RadixOrder(a.year, a.month - 1, b.year, b.month - 1, 12);
    RadixOrder(Radix(a.year, 12, a.month - 1), a.day - 1, Radix(b.year, 12, b.month - 1), b.day - 1, 31);
    RadixOrder(Radix(Radix(a.year, 12, a.month - 1), 31, a.day - 1), a.hour,
               Radix(Radix(b.year, 12, b.month - 1), 31, b.day - 1), b.hour, 24);
    RadixOrder(Radix(Radix(Radix(a.year, 12, a.month - 1), 31, a.day - 1), 24, a.hour), a.minute,
               Radix(Radix(Radix(b.year, 12, b.month - 1), 31, b.day - 1), 24, b.hour), b.minute, 60);
  }

  /** For the second format, text order is field order. */
  lemma SecondsOrder(a: DateTime, b: DateTime)
    ensures Cmp(FormatSeconds(a), FormatSeconds(b)) == Sign(SecondKey(a) - SecondKey(b))
  {
    MinutesOrder(a, b);
    ZeroPadOrder(a.second, b.second, 2);
    CmpJoin(FormatMinutes(a), ZeroPad(a.second, 2), FormatMinutes(b), ZeroPad(b.second, 2), ":");
    RadixOrder(MinuteKey(a), a.second, MinuteKey(b), b.second, 60);
  }

  /**
   A minute-precision bound against a second-precision stamp: they differ in
   their minutes, or the bound is a proper prefix of the stamp and sorts first.
   */
  lemma MinuteAgainstSecond(u: DateTime, t: DateTime)
    ensures Cmp(FormatMinutes(u), FormatSeconds(t)) == Then(Sign(MinuteKey(u) - MinuteKey(t)), -1)
  {
    MinutesOrder(u, t);
    CmpAppend(FormatMinutes(u), [], FormatMinutes(t), ":" + ZeroPad(t.second, 2));
    assert FormatMinutes(u) + [] == FormatMinutes(u);
    assert FormatSeconds(t) == FormatMinutes(t) + (":" + ZeroPad(t.second, 2));
  }

  /** Two date-times with the same time of day are ordered by their dates. */
  lemma SameTimeOfDay(a: DateTime, b: DateTime)
    requires a.hour == b.hour && a.minute == b.minute && a.second == b.second
    ensures Sign(SecondKey(a) - SecondKey(b)) == Sign(DateKey(a) - DateKey(b))
  {
    RadixOrder(DateKey(a), a.hour, DateKey(b), b.hour, 24);
    RadixOrder(Radix(DateKey(a), 24, a.hour), a.minute, Radix(DateKey(b), 24, b.hour), b.minute, 60);
    RadixOrder(MinuteKey(a), a.second, MinuteKey(b), b.second, 60);
  }

  /** An earlier date puts every time of that day before every time of a later date. */
  lemma EarlierDate(a: DateTime, b: DateTime)
    requires DateKey(a) < DateKey(b)
    ensures MinuteKey(a) < MinuteKey(b)
  {
    RadixOrder(DateKey(a), a.hour, DateKey(b), b.hour, 24);
    RadixOrder(Radix(DateKey(a), 24, a.hour), a.minute, Radix(DateKey(b), 24, b.hour), b.minute, 60);
  }
}
