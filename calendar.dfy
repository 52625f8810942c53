/**
 * The proleptic Gregorian calendar of Python's `datetime`: ordinals,
 * weekdays and the correspondence between a broken-down date-time and an
 * instant counted in microseconds from 0001-01-01T00:00:00.
 */
module Calendar {
  /** A broken-down date-time, without time zone (a naive `datetime`). */
  datatype Civil = Civil(year: int, month: int, day: int,
                         hour: int, minute: int, second: int, microsecond: int)

  predicate IsLeap(y: int)
  {
    y % 4 == 0 && (y % 100 != 0 || y % 400 == 0)
  }

  function YearLength(y: int): int
  {
    if IsLeap(y) then 366 else 365
  }

  function DaysInMonth(y: int, m: int): (n: int)
    requires 1 <= m <= 12
    ensures 28 <= n <= 31
  {
    if m == 2 then (if IsLeap(y) then 29 else 28)
    else if m == 4 || m == 6 || m == 9 || m == 11 then 30
    else 31
  }

  /** Days in the years `1 .. y-1`, as `datetime`'s `_days_before_year` computes them. */
  function DaysBeforeYear(y: int): int
    requires y >= 1
  {
    var z := y - 1;
    z * 365 + z / 4 - z / 100 + z / 400
  }

  /** Days in the months `1 .. m-1` of year `y`. */
  function DaysBeforeMonth(y: int, m: int): int
    requires 1 <= m <= 13
    decreases m
  {
    if m == 1 then 0 else DaysBeforeMonth(y, m - 1) + DaysInMonth(y, m - 1)
  }

  /** Consecutive years: the closed form adds exactly the length of the year. */
  lemma DaysBeforeNextYear(y: int)
    requires y >= 1
    ensures DaysBeforeYear(y + 1) == DaysBeforeYear(y) + YearLength(y)
  {
    Step4(y);
    Step100(y);
    Step400(y);
    LeapByRemainders(y);
    assert DaysBeforeYear(y + 1) == y * 365 + y / 4 - y / 100 + y / 400;
    assert DaysBeforeYear(y) == (y - 1) * 365 + (y - 1) / 4 - (y - 1) / 100 + (y - 1) / 400;
  }

  lemma LeapByRemainders(y: int)
    ensures YearLength(y) == 365 + (if y % 4 == 0 then 1 else 0) - (if y % 100 == 0 then 1 else 0)
                                 + (if y % 400 == 0 then 1 else 0)
  {
    if y % 400 == 0 {
      var q := y / 400;
      assert y == 100 * (4 * q);
      assert y == 4 * (100 * q);
    } else if y % 100 == 0 {
      var q := y / 100;
      assert y == 4 * (25 * q);
    }
  }

  lemma Step4(y: int)
    ensures y / 4 - (y - 1) / 4 == if y % 4 == 0 then 1 else 0
  {
  }

  lemma Step100(y: int)
    ensures y / 100 - (y - 1) / 100 == if y % 100 == 0 then 1 else 0
  {
  }

  lemma Step400(y: int)
    ensures y / 400 - (y - 1) / 400 == if y % 400 == 0 then 1 else 0
  {
  }

  lemma {:induction false} DaysBeforeYearMonotone(a: int, b: int)
    requires 1 <= a <= b
    ensures DaysBeforeYear(a) + 365 * (b - a) <= DaysBeforeYear(b)
    decreases b - a
  {
    if a < b {
      DaysBeforeYearMonotone(a, b - 1);
      DaysBeforeNextYear(b - 1);
    }
  }

  lemma {:induction false} DaysBeforeYearInc(a: int, b: int)
    requires 1 <= a < b
    ensures DaysBeforeYear(a + 1) <= DaysBeforeYear(b)
  {
    DaysBeforeYearMonotone(a + 1, b);
  }

  lemma DaysBeforeLastMonth(y: int)
    ensures DaysBeforeMonth(y, 13) == YearLength(y)
  {
  }

  /** `date(y, m, d)` is accepted by Python. */
  predicate ValidDate(y: int, m: int, d: int)
  {
    1 <= y <= 9999 && 1 <= m <= 12 && 1 <= d <= DaysInMonth(y, m)
  }

  /** `datetime(...)` is accepted by Python (no leap seconds). */
  predicate ValidCivil(c: Civil)
  {
    ValidDate(c.year, c.month, c.day)
    && 0 <= c.hour < 24 && 0 <= c.minute < 60 && 0 <= c.second < 60
    && 0 <= c.microsecond < 1000000
  }

  /** `date.toordinal()`: 0001-01-01 is day 1. */
  function Ordinal(y: int, m: int, d: int): int
    requires ValidDate(y, m, d)
  {
    DaysBeforeYear(y) + DaysBeforeMonth(y, m) + d
  }

  /** The ordinal of 9999-12-31, the last day `date` represents. */
  const MaxOrdinal: int := DaysBeforeYear(10000)

  lemma {:induction false} DaysBeforeMonthBound(y: int, m: int)
    requires 1 <= m <= 12
    ensures DaysBeforeMonth(y, m) + DaysInMonth(y, m) <= YearLength(y)
    ensures DaysBeforeMonth(y, m) >= 0
  {
    DaysBeforeLastMonth(y);
    DaysBeforeMonthIncreasing(y, m + 1, 13);
    DaysBeforeMonthIncreasing(y, 1, m);
  }

  lemma {:induction false} DaysBeforeMonthIncreasing(y: int, a: int, b: int)
    requires 1 <= a <= b <= 13
    ensures DaysBeforeMonth(y, a) <= DaysBeforeMonth(y, b)
    decreases b - a
  {
    if a < b { DaysBeforeMonthIncreasing(y, a, b - 1); }
  }

  lemma OrdinalRange(y: int, m: int, d: int)
    requires ValidDate(y, m, d)
    ensures DaysBeforeYear(y) < Ordinal(y, m, d) <= DaysBeforeYear(y + 1)
    ensures 1 <= Ordinal(y, m, d) <= MaxOrdinal
  {
    DaysBeforeMonthBound(y, m);
    DaysBeforeNextYear(y);
    DaysBeforeYearMonotone(1, y);
    if y < 9999 { DaysBeforeYearInc(y, 10000); }
  }

  /** The year holding day `n`, searched upwards from year `y`. */
  function YearOf(n: int, y: int): (r: int)
    requires 1 <= y && DaysBeforeYear(y) < n
    ensures y <= r && DaysBeforeYear(r) < n <= DaysBeforeYear(r + 1)
    decreases n - DaysBeforeYear(y)
  {
    DaysBeforeNextYear(y);
    if n <= DaysBeforeYear(y + 1) then y else YearOf(n, y + 1)
  }

  /** The month holding day `k` of year `y`, searched upwards from month `m`. */
  function MonthOf(y: int, k: int, m: int): (r: int)
    requires 1 <= m <= 12 && DaysBeforeMonth(y, m) < k <= YearLength(y)
    ensures m <= r <= 12
    ensures DaysBeforeMonth(y, r) < k <= DaysBeforeMonth(y, r) + DaysInMonth(y, r)
    decreases 12 - m
  {
    DaysBeforeLastMonth(y);
    if k <= DaysBeforeMonth(y, m) + DaysInMonth(y, m) then m else MonthOf(y, k, m + 1)
  }

  lemma {:induction false} YearBelowLimit(n: int, y: int)
    requires 1 <= y && n <= MaxOrdinal && DaysBeforeYear(y) < n
    ensures y <= 9999
  {
    if y >= 10000 { DaysBeforeYearMonotone(10000, y); }
  }

  /** `date.fromordinal(n)`, as (year, month, day). */
  function FromOrdinal(n: int): (r: (int, int, int))
    requires 1 <= n <= MaxOrdinal
    ensures ValidDate(r.0, r.1, r.2) && Ordinal(r.0, r.1, r.2) == n
  {
    var y := YearOf(n, 1);
    DaysBeforeNextYear(y);
    YearBelowLimit(n, y);
    var k := n - DaysBeforeYear(y);
    var m := MonthOf(y, k, 1);
    (y, m, k - DaysBeforeMonth(y, m))
  }

  lemma {:induction false} YearUnique(n: int, y1: int, y2: int)
    requires 1 <= y1 && DaysBeforeYear(y1) < n <= DaysBeforeYear(y1 + 1)
    requires 1 <= y2 && DaysBeforeYear(y2) < n <= DaysBeforeYear(y2 + 1)
    ensures y1 == y2
  {
    if y1 < y2 {
      DaysBeforeYearInc(y1, y2);
    } else if y2 < y1 {
      DaysBeforeYearInc(y2, y1);
    }
  }

  lemma {:induction false} MonthUnique(y: int, k: int, m1: int, m2: int)
    requires 1 <= m1 <= 12 && DaysBeforeMonth(y, m1) < k <= DaysBeforeMonth(y, m1) + DaysInMonth(y, m1)
    requires 1 <= m2 <= 12 && DaysBeforeMonth(y, m2) < k <= DaysBeforeMonth(y, m2) + DaysInMonth(y, m2)
    ensures m1 == m2
  {
    if m1 < m2 {
      DaysBeforeMonthIncreasing(y, m1 + 1, m2);
    } else if m2 < m1 {
      DaysBeforeMonthIncreasing(y, m2 + 1, m1);
    }
  }

  lemma {:induction false} FromOrdinalYear(y: int, m: int, d: int)
    requires ValidDate(y, m, d)
    ensures var n := Ordinal(y, m, d); 1 <= n <= MaxOrdinal && FromOrdinal(n).0 == y
  {
    var n := Ordinal(y, m, d);
    OrdinalRange(y, m, d);
    var r := FromOrdinal(n);
    OrdinalRange(r.0, r.1, r.2);
    YearUnique(n, y, r.0);
  }

  /** Ordinals identify dates: the conversion back is exact. */
  lemma {:induction false} OrdinalInjective(y: int, m: int, d: int)
    requires ValidDate(y, m, d)
    ensures var n := Ordinal(y, m, d); 1 <= n <= MaxOrdinal && FromOrdinal(n) == (y, m, d)
  {
    FromOrdinalYear(y, m, d);
    var n := Ordinal(y, m, d);
    var r := FromOrdinal(n);
    var k := n - DaysBeforeYear(y);
    assert k == DaysBeforeMonth(y, m) + d;
    assert k == DaysBeforeMonth(y, r.1) + r.2;
    MonthUnique(y, k, m, r.1);
  }

  /** `date.weekday()`: Monday is 0. */
  function Weekday(y: int, m: int, d: int): (w: int)
    requires ValidDate(y, m, d)
    ensures 0 <= w < 7
  {
    (Ordinal(y, m, d) + 6) % 7
  }

  // ---------------------------------------------------------------- instants

  /** Instants representable as a `datetime` (years 1 to 9999). */
  predicate ValidInstant(t: int)
  {
    0 <= t < MaxOrdinal * 86400000000
  }

  /** The instant of a broken-down UTC date-time. */
  function ToInstant(c: Civil): (t: int)
    requires ValidCivil(c)
    ensures ValidInstant(t)
  {
    OrdinalRange(c.year, c.month, c.day);
    (Ordinal(c.year, c.month, c.day) - 1) * 86400000000
    + ((c.hour * 60 + c.minute) * 60 + c.second) * 1000000
    + c.microsecond
  }

  /** The broken-down UTC date-time of an instant. */
  function FromInstant(t: int): (c: Civil)
    requires ValidInstant(t)
    ensures ValidCivil(c)
  {
    var days := t / 86400000000;
    var rest := t % 86400000000;
    var date := FromOrdinal(days + 1);
    var secs := rest / 1000000;
    Civil(date.0, date.1, date.2, secs / 3600, secs / 60 % 60, secs % 60, rest % 1000000)
  }

  lemma {:induction false} TimeOfDaySplit(rest: int, h: int, mi: int, s: int, us: int)
    requires 0 <= h < 24 && 0 <= mi < 60 && 0 <= s < 60 && 0 <= us < 1000000
    requires rest == ((h * 60 + mi) * 60 + s) * 1000000 + us
    ensures rest / 1000000 == (h * 60 + mi) * 60 + s
    ensures rest % 1000000 == us
    ensures ((h * 60 + mi) * 60 + s) / 3600 == h
    ensures ((h * 60 + mi) * 60 + s) / 60 % 60 == mi
    ensures ((h * 60 + mi) * 60 + s) % 60 == s
  {
    var secs := (h * 60 + mi) * 60 + s;
    assert secs == h * 3600 + mi * 60 + s;
    assert secs / 60 == h * 60 + mi;
  }

  /** An instant made of an ordinal day and a time of day breaks down into that date and time. */
  lemma {:induction false} FromInstantOfParts(t: int, q: int, c: Civil)
    requires ValidCivil(c) && 0 <= q < MaxOrdinal && FromOrdinal(q + 1) == (c.year, c.month, c.day)
    requires t == q * 86400000000 + (((c.hour * 60 + c.minute) * 60 + c.second) * 1000000 + c.microsecond)
    ensures ValidInstant(t) && FromInstant(t) == c
  {
    var secs := (c.hour * 60 + c.minute) * 60 + c.second;
    var rest := secs * 1000000 + c.microsecond;
    TimeOfDaySplit(rest, c.hour, c.minute, c.second, c.microsecond);
    DivModDay(t, q, rest);
    FromInstantOf(t, q, rest, secs, c);
  }

  /** `FromInstant` assembles the pieces its divisions produce. */
  lemma FromInstantOf(t: int, q: int, rest: int, secs: int, c: Civil)
    requires ValidInstant(t) && 0 <= q < MaxOrdinal && FromOrdinal(q + 1) == (c.year, c.month, c.day)
    requires t / 86400000000 == q && t % 86400000000 == rest && rest / 1000000 == secs
    requires secs / 3600 == c.hour && secs / 60 % 60 == c.minute && secs % 60 == c.second
    requires rest % 1000000 == c.microsecond
    ensures FromInstant(t) == c
  {
  }

  /** Broken-down UTC date-times and instants convert into each other exactly. */
  lemma {:induction false} CivilRoundTrip(c: Civil)
    requires ValidCivil(c)
    ensures FromInstant(ToInstant(c)) == c
  {
    var q := Ordinal(c.year, c.month, c.day) - 1;
    OrdinalInjective(c.year, c.month, c.day);
    assert q + 1 == Ordinal(c.year, c.month, c.day);
    FromInstantOfParts(ToInstant(c), q, c);
  }

  lemma {:induction false} DivModDay(t: int, q: int, r: int)
    requires t == q * 86400000000 + r && 0 <= r < 86400000000
    ensures t / 86400000000 == q && t % 86400000000 == r
  {
  }

  lemma {:induction false} SecondsOfDaySplit(secs: int)
    requires 0 <= secs < 86400
    ensures 0 <= secs / 3600 < 24
    ensures (secs / 3600 * 60 + secs / 60 % 60) * 60 + secs % 60 == secs
  {
    var q, r := secs / 3600, secs % 3600;
    assert secs == 3600 * q + r && 0 <= r < 3600;
    assert secs / 60 == 60 * q + r / 60;
    assert secs / 60 % 60 == r / 60;
  }

  lemma {:induction false} InstantRoundTrip(t: int)
    requires ValidInstant(t)
    ensures ToInstant(FromInstant(t)) == t
  {
    var c := FromInstant(t);
    var days := t / 86400000000;
    var rest := t % 86400000000;
    var secs := rest / 1000000;
    assert t == days * 86400000000 + rest;
    assert rest == secs * 1000000 + rest % 1000000;
    assert 0 <= secs < 86400;
    SecondsOfDaySplit(secs);
    assert Ordinal(c.year, c.month, c.day) == days + 1;
  }
}
