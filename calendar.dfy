/** The proleptic Gregorian calendar of Python's `datetime.date`: years
    1..9999, day numbers as `date.toordinal()` gives them (0001-01-01 is
    day 1), and the first/last-day bounds of a year and of a month that the
    maintenance dashboard computes. */
module Calendar {
  import opened Common

  const MinYear := 1
  const MaxYear := 9999

  datatype Date = Date(year: int, month: int, day: int)

  predicate IsLeap(y: int)
  {
    y % 4 == 0 && (y % 100 != 0 || y % 400 == 0)
  }

  function DaysInYear(y: int): int
  {
    if IsLeap(y) then 366 else 365
  }

  function DaysInMonth(y: int, m: int): int
    requires 1 <= m <= 12
  {
    if m == 2 then (if IsLeap(y) then 29 else 28)
    else if m == 4 || m == 6 || m == 9 || m == 11 then 30
    else 31
  }

  /** Days of year `y` before the first of month `m`. */
  function DaysBeforeMonth(y: int, m: int): int
    requires 1 <= m <= 12
  {
    var common := [0, 31, 59, 90, 120, 151, 181, 212, 243, 273, 304, 334][m - 1];
    if m > 2 && IsLeap(y) then common + 1 else common
  }

  /** Days before January 1st of year `y`, counted from 0001-01-01. */
  function DaysBeforeYear(y: int): int
    requires y >= 1
  {
    var p := y - 1;
    p * 365 + p / 4 - p / 100 + p / 400
  }

  predicate ValidDate(d: Date)
  {
    MinYear <= d.year <= MaxYear && 1 <= d.month <= 12 && 1 <= d.day <= DaysInMonth(d.year, d.month)
  }

  /** `date(y, m, d).toordinal()`. */
  function Ordinal(y: int, m: int, d: int): int
    requires y >= 1 && 1 <= m <= 12
  {
    DaysBeforeYear(y) + DaysBeforeMonth(y, m) + d
  }

  function OrdinalOf(d: Date): int
    requires ValidDate(d)
  {
    Ordinal(d.year, d.month, d.day)
  }

  lemma MonthStep(y: int, m: int)
    requires 1 <= m < 12
    ensures DaysBeforeMonth(y, m + 1) == DaysBeforeMonth(y, m) + DaysInMonth(y, m)
  {
  }

  lemma DaysBeforeDecember(y: int)
    ensures DaysBeforeMonth(y, 12) + 31 == DaysInYear(y)
  {
  }

  /** Consecutive years are `DaysInYear` apart: the leap-year rule of the
      ordinal count agrees with `IsLeap`. */
  lemma YearStep(y: int)
    requires y >= 1
    ensures DaysBeforeYear(y + 1) == DaysBeforeYear(y) + DaysInYear(y)
  {
    var p := y - 1;
    assert y / 4 == p / 4 + (if y % 4 == 0 then 1 else 0);
    assert y / 100 == p / 100 + (if y % 100 == 0 then 1 else 0);
    assert y / 400 == p / 400 + (if y % 400 == 0 then 1 else 0);
  }

  /** The day after the last of a month is the first of the next month. */
  lemma {:induction false} NextMonthStart(y: int, m: int)
    requires y >= 1 && 1 <= m <= 12
    ensures m < 12 ==> Ordinal(y, m + 1, 1) == Ordinal(y, m, DaysInMonth(y, m)) + 1
    ensures m == 12 ==> Ordinal(y + 1, 1, 1) == Ordinal(y, 12, 31) + 1
  {
    if m < 12 {
      MonthStep(y, m);
    } else {
      YearStep(y);
      DaysBeforeDecember(y);
    }
  }

  /** Every day of year `y` lies in [Jan 1st, Dec 31st] of `y`. */
  lemma DayOfYearBounds(d: Date)
    requires ValidDate(d)
    ensures Ordinal(d.year, 1, 1) <= OrdinalOf(d) <= Ordinal(d.year, 12, 31)
  {
    var m := d.month;
    var k := 1;
    while k < m
      invariant 1 <= k <= m
      invariant DaysBeforeMonth(d.year, k) + DaysInMonth(d.year, k) <= DaysBeforeMonth(d.year, 12) + 31
    {
      MonthStep(d.year, k);
      k := k + 1;
    }
  }

  lemma {:induction false} DaysBeforeYearMonotone(a: int, b: int)
    requires 1 <= a <= b
    ensures DaysBeforeYear(a) + (b - a) * 365 <= DaysBeforeYear(b)
    decreases b - a
  {
    if a < b {
      YearStep(a);
      DaysBeforeYearMonotone(a + 1, b);
    }
  }

  /** Ordinals order dates as the calendar does: a date of an earlier year
      comes before every date of a later year. */
  lemma EarlierYearEarlierOrdinal(d: Date, e: Date)
    requires ValidDate(d) && ValidDate(e) && d.year < e.year
    ensures OrdinalOf(d) < OrdinalOf(e)
  {
    DayOfYearBounds(d);
    DayOfYearBounds(e);
    NextMonthStart(d.year, 12);
    DaysBeforeYearMonotone(d.year + 1, e.year);
  }

  /** Within one year, a date of an earlier month comes before every date of a
      later month. */
  lemma {:induction false} EarlierMonthEarlierOrdinal(y: int, m: int, n: int, d: int)
    requires MinYear <= y <= MaxYear && 1 <= m < n <= 12 && 1 <= d
    ensures Ordinal(y, m, DaysInMonth(y, m)) < Ordinal(y, n, d)
    decreases n - m
  {
    MonthStep(y, m);
    if m + 1 < n {
      EarlierMonthEarlierOrdinal(y, m + 1, n, d);
    }
  }

  /** First and last day of month `m` of year `y`, as day numbers. */
  function MonthStart(y: int, m: int): int
    requires y >= 1 && 1 <= m <= 12
  {
    Ordinal(y, m, 1)
  }

  function MonthEnd(y: int, m: int): int
    requires y >= 1 && 1 <= m <= 12
  {
    Ordinal(y, m, DaysInMonth(y, m))
  }

  /** A valid date falls in [MonthStart(y, m), MonthEnd(y, m)] exactly when its
      year is `y` and its month is `m`: the range is what SQL's
      `extract('year')`/`extract('month')` select. */
  lemma InMonthIff(d: Date, y: int, m: int)
    requires ValidDate(d) && MinYear <= y <= MaxYear && 1 <= m <= 12
    ensures MonthStart(y, m) <= OrdinalOf(d) <= MonthEnd(y, m) <==> d.year == y && d.month == m
  {
    var other := Date(y, m, 1);
    var last := Date(y, m, DaysInMonth(y, m));
    if d.year < y {
      EarlierYearEarlierOrdinal(d, other);
    } else if d.year > y {
      EarlierYearEarlierOrdinal(last, d);
    } else if d.month < m {
      EarlierMonthEarlierOrdinal(y, d.month, m, 1);
    } else if d.month > m {
      EarlierMonthEarlierOrdinal(y, m, d.month, d.day);
    }
  }

  /** A valid date falls in [Jan 1st, Dec 31st] of `y` exactly when its year is `y`. */
  lemma InYearIff(d: Date, y: int)
    requires ValidDate(d) && MinYear <= y <= MaxYear
    ensures Ordinal(y, 1, 1) <= OrdinalOf(d) <= Ordinal(y, 12, 31) <==> d.year == y
  {
    DayOfYearBounds(d);
    if d.year < y {
      EarlierYearEarlierOrdinal(d, Date(y, 1, 1));
    } else if d.year > y {
      EarlierYearEarlierOrdinal(Date(y, 12, 31), d);
    }
  }

  /** `start_year, end_year = date(year, 1, 1), date(year, 12, 31)`. */
  function YearBounds(y: int): (b: (int, int))
    requires MinYear <= y <= MaxYear
    ensures b.1 - b.0 + 1 == DaysInYear(y)
  {
    YearStep(y);
    NextMonthStart(y, 12);
    (Ordinal(y, 1, 1), Ordinal(y, 12, 31))
  }

  /** The dashboard's month bounds: the first of the month, and the day before
      the first of the next month (January 1st of `y + 1` in December).
      `date(10000, 1, 1)` raises, so December 9999 has no bounds. */
  function MonthBounds(y: int, m: int): (b: Option<(int, int)>)
    requires MinYear <= y <= MaxYear && 1 <= m <= 12
    ensures b.None? <==> y == MaxYear && m == 12
    ensures b.Some? ==> b.value == (MonthStart(y, m), MonthEnd(y, m))
  {
    NextMonthStart(y, m);
    var start := Ordinal(y, m, 1);
    if m == 12 then
      if y + 1 > MaxYear then None else Some((start, Ordinal(y + 1, 1, 1) - 1))
    else
      Some((start, Ordinal(y, m + 1, 1) - 1))
  }

  /** Every month of year `y` lies inside the year's bounds. */
  lemma MonthWithinYear(y: int, m: int)
    requires MinYear <= y <= MaxYear && 1 <= m <= 12
    ensures Ordinal(y, 1, 1) <= MonthStart(y, m) <= MonthEnd(y, m) <= Ordinal(y, 12, 31)
  {
    DayOfYearBounds(Date(y, m, 1));
    DayOfYearBounds(Date(y, m, DaysInMonth(y, m)));
  }
}
