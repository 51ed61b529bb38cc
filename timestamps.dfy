/**
 * Timestamps as the handlers produce and compare them: `datetime.isoformat()`
 * strings of naive UTC clock readings, ordered by Python's string `<`
 * (which is also the order the SQL `expiryDate < now` filter applies to the
 * text column).
 */
module Timestamps {
  import opened Wrappers

  // ------------------------------------------------ string order (Python `<` on str)

  /** `a < b` on Python strings: the first differing code point decides, a proper prefix is smaller. */
  predicate LexLess(a: string, b: string)
    decreases |a|
  {
    if b == [] then false
    else if a == [] then true
    else if a[0] != b[0] then a[0] < b[0]
    else LexLess(a[1..], b[1..])
  }

  lemma {:induction false} LexLessIrreflexive(a: string)
    ensures !LexLess(a, a)
    decreases |a|
  {
    if a != [] { LexLessIrreflexive(a[1..]); }
  }

  lemma {:induction false} LexLessAsymmetric(a: string, b: string)
    ensures LexLess(a, b) ==> !LexLess(b, a)
    decreases |a|
  {
    if a != [] && b != [] && a[0] == b[0] { LexLessAsymmetric(a[1..], b[1..]); }
  }

  lemma {:induction false} LexLessTransitive(a: string, b: string, c: string)
    requires LexLess(a, b) && LexLess(b, c)
    ensures LexLess(a, c)
    decreases |a|
  {
    if a != [] && a[0] == b[0] && b[0] == c[0] {
      LexLessTransitive(a[1..], b[1..], c[1..]);
    }
  }

  /** Any two different strings are ordered one way or the other. */
  lemma {:induction false} LexLessTotal(a: string, b: string)
    ensures a == b || LexLess(a, b) || LexLess(b, a)
    decreases |a|
  {
    if a != [] && b != [] && a[0] == b[0] {
      LexLessTotal(a[1..], b[1..]);
      if a[1..] == b[1..] {
        assert a == [a[0]] + a[1..] && b == [b[0]] + b[1..];
      }
    }
  }

  /** "Not smaller than" is transitive, so a sequence ordered pairwise by it is sorted. */
  lemma NotLessTransitive(a: string, b: string, c: string)
    requires !LexLess(a, b) && !LexLess(b, c)
    ensures !LexLess(a, c)
  {
    LexLessTotal(a, b);
    if LexLess(a, c) && LexLess(b, a) {
      LexLessTransitive(b, a, c);
    }
  }

  /** A shared prefix does not decide the order. */
  lemma {:induction false} LexLessSamePrefix(p: string, x: string, y: string)
    ensures LexLess(p + x, p + y) == LexLess(x, y)
    decreases |p|
  {
    if p == [] {
      assert p + x == x && p + y == y;
    } else {
      assert (p + x)[0] == p[0] == (p + y)[0];
      assert (p + x)[1..] == p[1..] + x && (p + y)[1..] == p[1..] + y;
      LexLessSamePrefix(p[1..], x, y);
    }
  }

  /** Between fields of the same width, a difference in the first field decides the order. */
  lemma {:induction false} LexLessExtend(a1: string, a2: string, b1: string, b2: string)
    requires |a1| == |b1| && LexLess(a1, b1)
    ensures LexLess(a1 + a2, b1 + b2)
    decreases |a1|
  {
    assert a1 != [];
    assert (a1 + a2)[0] == a1[0] && (b1 + b2)[0] == b1[0];
    if a1[0] == b1[0] {
      assert (a1 + a2)[1..] == a1[1..] + a2 && (b1 + b2)[1..] == b1[1..] + b2;
      LexLessExtend(a1[1..], a2, b1[1..], b2);
    }
  }

  // ------------------------------------------------ clock readings

  /** A naive `datetime` as `datetime.utcnow()` returns it. */
  datatype DateTime = DateTime(year: int, month: int, day: int,
                               hour: int, minute: int, second: int, micro: int)

  predicate IsLeapYear(y: int) {
    y % 4 == 0 && (y % 100 != 0 || y % 400 == 0)
  }

  function DaysInMonth(y: int, m: int): (r: int)
    ensures 28 <= r <= 31
  {
    if m == 2 then (if IsLeapYear(y) then 29 else 28)
    else if m == 4 || m == 6 || m == 9 || m == 11 then 30
    else 31
  }

  /** The range Python's `datetime` accepts. */
  predicate Valid(t: DateTime) {
    && 1 <= t.year <= 9999
    && 1 <= t.month <= 12
    && 1 <= t.day <= DaysInMonth(t.year, t.month)
    && 0 <= t.hour < 24 && 0 <= t.minute < 60 && 0 <= t.second < 60
    && 0 <= t.micro < 1000000
  }

  /** Chronological order, compared from the year down to the microsecond. */
  predicate Before(a: DateTime, b: DateTime) {
    a.year < b.year || (a.year == b.year && BeforeFromMonth(a, b))
  }

  predicate BeforeFromMonth(a: DateTime, b: DateTime) {
    a.month < b.month || (a.month == b.month && BeforeFromDay(a, b))
  }

  predicate BeforeFromDay(a: DateTime, b: DateTime) {
    a.day < b.day || (a.day == b.day && BeforeFromHour(a, b))
  }

  predicate BeforeFromHour(a: DateTime, b: DateTime) {
    a.hour < b.hour || (a.hour == b.hour && BeforeFromMinute(a, b))
  }

  predicate BeforeFromMinute(a: DateTime, b: DateTime) {
    a.minute < b.minute || (a.minute == b.minute && BeforeFromSecond(a, b))
  }

  predicate BeforeFromSecond(a: DateTime, b: DateTime) {
    a.second < b.second || (a.second == b.second && a.micro < b.micro)
  }

  // ------------------------------------------------ isoformat()

  function Pow10(w: nat): (r: nat)
    ensures r >= 1
  {
    if w == 0 then 1 else 10 * Pow10(w - 1)
  }

  function DigitChar(d: int): char
    requires 0 <= d < 10
  {
    ('0' as int + d) as char
  }

  /** `n` in decimal, zero-padded to `w` digits. */
  function Digits(n: nat, w: nat): (r: string)
    requires n < Pow10(w)
    ensures |r| == w
  {
    if w == 0 then "" else Digits(n / 10, w - 1) + [DigitChar(n % 10)]
  }

  /** `.ffffff`, which `isoformat()` leaves out when the microsecond is 0. */
  function Fraction(micro: int): string
    requires 0 <= micro < 1000000
  {
    if micro == 0 then "" else "." + Digits(micro, 6)
  }

  /** `t.isoformat()`: `YYYY-MM-DDTHH:MM:SS[.ffffff]`. */
  function IsoFormat(t: DateTime): string
    requires Valid(t)
  {
    Digits(t.year, 4) + FromMonth(t)
  }

  function FromMonth(t: DateTime): string
    requires Valid(t)
  {
    "-" + (Digits(t.month, 2) + FromDay(t))
  }

  function FromDay(t: DateTime): string
    requires Valid(t)
  {
    "-" + (Digits(t.day, 2) + FromHour(t))
  }

  function FromHour(t: DateTime): string
    requires Valid(t)
  {
    "T" + (Digits(t.hour, 2) + FromMinute(t))
  }

  function FromMinute(t: DateTime): string
    requires Valid(t)
  {
    ":" + (Digits(t.minute, 2) + FromSecond(t))
  }

  function FromSecond(t: DateTime): string
    requires Valid(t)
  {
    ":" + (Digits(t.second, 2) + Fraction(t.micro))
  }

  /** Zero-padded decimals of one width sort as the numbers do. */
  lemma {:induction false} DigitsMonotone(n: nat, m: nat, w: nat)
    requires n < m < Pow10(w)
    ensures LexLess(Digits(n, w), Digits(m, w))
  {
    assert w > 0;
    if n / 10 < m / 10 {
      DigitsMonotone(n / 10, m / 10, w - 1);
      LexLessExtend(Digits(n / 10, w - 1), [DigitChar(n % 10)], Digits(m / 10, w - 1), [DigitChar(m % 10)]);
    } else {
      assert n % 10 < m % 10;
      LexLessSamePrefix(Digits(n / 10, w - 1), [DigitChar(n % 10)], [DigitChar(m % 10)]);
    }
  }

  /** One field of a timestamp followed by the rest: the field decides unless it is equal. */
  lemma FieldOrder(n: nat, m: nat, w: nat, sep: string, x: string, y: string)
    requires n < Pow10(w) && m < Pow10(w)
    requires n < m || (n == m && LexLess(x, y))
    ensures LexLess(sep + (Digits(n, w) + x), sep + (Digits(m, w) + y))
  {
    LexLessSamePrefix(sep, Digits(n, w) + x, Digits(m, w) + y);
    if n < m {
      DigitsMonotone(n, m, w);
      LexLessExtend(Digits(n, w), x, Digits(m, w), y);
    } else {
      LexLessSamePrefix(Digits(n, w), x, y);
    }
  }

  lemma FractionOrder(a: int, b: int)
    requires 0 <= a < b < 1000000
    ensures LexLess(Fraction(a), Fraction(b))
  {
    if a != 0 {
      DigitsMonotone(a, b, 6);
      LexLessSamePrefix(".", Digits(a, 6), Digits(b, 6));
    }
  }

  /** Earlier clock readings format to smaller strings. */
  lemma IsoFormatMonotone(a: DateTime, b: DateTime)
    requires Valid(a) && Valid(b) && Before(a, b)
    ensures LexLess(IsoFormat(a), IsoFormat(b))
  {
    if a.year == b.year && a.month == b.month && a.day == b.day && a.hour == b.hour
      && a.minute == b.minute && a.second == b.second {
      FractionOrder(a.micro, b.micro);
    }
    if a.year == b.year && a.month == b.month && a.day == b.day && a.hour == b.hour
      && a.minute == b.minute {
      FieldOrder(a.second, b.second, 2, ":", Fraction(a.micro), Fraction(b.micro));
    }
    if a.year == b.year && a.month == b.month && a.day == b.day && a.hour == b.hour {
      FieldOrder(a.minute, b.minute, 2, ":", FromSecond(a), FromSecond(b));
    }
    if a.year == b.year && a.month == b.month && a.day == b.day {
      FieldOrder(a.hour, b.hour, 2, "T", FromMinute(a), FromMinute(b));
    }
    if a.year == b.year && a.month == b.month {
      FieldOrder(a.day, b.day, 2, "-", FromHour(a), FromHour(b));
    }
    if a.year == b.year {
      FieldOrder(a.month, b.month, 2, "-", FromDay(a), FromDay(b));
    }
    FieldOrder(a.year, b.year, 4, "", FromMonth(a), FromMonth(b));
    assert "" + (Digits(a.year, 4) + FromMonth(a)) == IsoFormat(a);
    assert "" + (Digits(b.year, 4) + FromMonth(b)) == IsoFormat(b);
  }

  /** String order on `isoformat()` output is exactly chronological order. */
  lemma IsoFormatOrder(a: DateTime, b: DateTime)
    requires Valid(a) && Valid(b)
    ensures LexLess(IsoFormat(a), IsoFormat(b)) <==> Before(a, b)
  {
    if Before(a, b) {
      IsoFormatMonotone(a, b);
    } else if Before(b, a) {
      IsoFormatMonotone(b, a);
      LexLessAsymmetric(IsoFormat(b), IsoFormat(a));
    } else {
      assert a == b;
      LexLessIrreflexive(IsoFormat(a));
    }
  }

  // ------------------------------------------------ datetime + timedelta(seconds=s)

  /** The following calendar day at the same time, or None past 9999-12-31 (Python's OverflowError). */
  function NextDay(t: DateTime): (r: Option<DateTime>)
    requires Valid(t)
    ensures r.Some? ==> Valid(r.value) && Before(t, r.value)
    ensures r.None? <==> t.year == 9999 && t.month == 12 && t.day == 31
  {
    if t.day < DaysInMonth(t.year, t.month) then Some(t.(day := t.day + 1))
    else if t.month < 12 then Some(t.(month := t.month + 1, day := 1))
    else if t.year < 9999 then Some(t.(year := t.year + 1, month := 1, day := 1))
    else None
  }

  /** Seconds since midnight. */
  function SecondOfDay(t: DateTime): int {
    t.hour * 3600 + t.minute * 60 + t.second
  }

  /** The time of day `k` seconds after midnight. */
  function AtSecondOfDay(t: DateTime, k: int): (r: DateTime)
    requires 0 <= k < 86400
    ensures r.hour == k / 3600 && r.minute == k % 3600 / 60 && r.second == k % 60
    ensures r.year == t.year && r.month == t.month && r.day == t.day && r.micro == t.micro
  {
    t.(hour := k / 3600, minute := k % 3600 / 60, second := k % 60)
  }

  lemma SecondOfDayRoundTrip(t: DateTime, k: int)
    requires 0 <= k < 86400
    ensures SecondOfDay(AtSecondOfDay(t, k)) == k
    ensures 0 <= AtSecondOfDay(t, k).hour < 24 && 0 <= AtSecondOfDay(t, k).minute < 60
    ensures 0 <= AtSecondOfDay(t, k).second < 60
  {
  }

  /** On one calendar day, more seconds since midnight is later. */
  lemma SecondOfDayOrder(a: DateTime, b: DateTime)
    requires Valid(a) && Valid(b)
    ensures SecondOfDay(a) < SecondOfDay(b) ==> BeforeFromHour(a, b)
  {
  }

  /**
   * `t + timedelta(seconds=s)` for a shift shorter than a day; None when the
   * result would pass year 9999 and Python raises OverflowError.
   */
  function AddSeconds(t: DateTime, s: int): (r: Option<DateTime>)
    requires Valid(t) && 0 <= s < 86400
    ensures r.Some? ==> Valid(r.value) && r.value.micro == t.micro
    ensures r.Some? && s > 0 ==> Before(t, r.value)
    ensures r.None? <==> SecondOfDay(t) + s >= 86400 && t.year == 9999 && t.month == 12 && t.day == 31
  {
    var total := SecondOfDay(t) + s;
    if total < 86400 then
      SecondOfDayRoundTrip(t, total);
      SecondOfDayOrder(t, AtSecondOfDay(t, total));
      Some(AtSecondOfDay(t, total))
    else
      match NextDay(t)
      case None => None
      case Some(d) =>
        SecondOfDayRoundTrip(d, total - 86400);
        Some(AtSecondOfDay(d, total - 86400))
  }
}
