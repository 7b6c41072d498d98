/** Calendar dates as pandas holds them after `pd.to_datetime` (the time of
    day is always midnight in this dataset): the proleptic Gregorian calendar,
    a day count for `(a - b).dt.days`, and the chronological order in which
    SQLite's `MAX` compares the stored `YYYY-MM-DD` text. */
module Calendar {

  datatype Date = Date(year: int, month: int, day: int)

  predicate IsLeapYear(y: int)
  {
    y % 4 == 0 && (y % 100 != 0 || y % 400 == 0)
  }

  function DaysInMonth(y: int, m: int): int
    requires 1 <= m <= 12
  {
    if m == 2 then (if IsLeapYear(y) then 29 else 28)
    else if m == 4 || m == 6 || m == 9 || m == 11 then 30
    else 31
  }

  function DaysInYear(y: int): int
  {
    if IsLeapYear(y) then 366 else 365
  }

  predicate Valid(d: Date)
  {
    1 <= d.year <= 9999 && 1 <= d.month <= 12 && 1 <= d.day <= DaysInMonth(d.year, d.month)
  }

  /** A date that exists on the calendar: what a successful parse yields. */
  type ValidDate = d: Date | Valid(d) witness Date(1970, 1, 1)

  /** Days from 0001-01-01 to the first day of year `y`. */
  function DaysBeforeYear(y: int): int
    requires y >= 1
  {
    var p := y - 1;
    365 * p + p / 4 - p / 100 + p / 400
  }

  /** Days from the first of the year to the first of month `m`. */
  function DaysBeforeMonth(y: int, m: int): int
    requires 1 <= m <= 12
  {
    [0, 31, 59, 90, 120, 151, 181, 212, 243, 273, 304, 334][m - 1]
      + (if m > 2 && IsLeapYear(y) then 1 else 0)
  }

  /** Days elapsed since 0001-01-01. */
  function DayNumber(d: ValidDate): int
  {
    DaysBeforeYear(d.year) + DaysBeforeMonth(d.year, d.month) + d.day - 1
  }

  /** `a` comes strictly earlier than `b`: the order of their `YYYY-MM-DD` text. */
  predicate Before(a: Date, b: Date)
  {
    a.year < b.year
    || (a.year == b.year && a.month < b.month)
    || (a.year == b.year && a.month == b.month && a.day < b.day)
  }

  /** The cumulative month table agrees with the month lengths. */
  lemma {:induction false} MonthTableSteps(y: int, m: int)
    requires 1 <= m <= 12
    ensures m < 12 ==> DaysBeforeMonth(y, m + 1) == DaysBeforeMonth(y, m) + DaysInMonth(y, m)
    ensures m == 12 ==> DaysBeforeMonth(y, m) + DaysInMonth(y, m) == DaysInYear(y)
  {
  }

  lemma {:induction false} DivStep(p: int)
    requires p >= 0
    ensures (p + 1) / 4 - p / 4 == (if (p + 1) % 4 == 0 then 1 else 0)
    ensures (p + 1) / 100 - p / 100 == (if (p + 1) % 100 == 0 then 1 else 0)
    ensures (p + 1) / 400 - p / 400 == (if (p + 1) % 400 == 0 then 1 else 0)
  {
  }

  lemma {:induction false} YearLength(y: int)
    requires y >= 1
    ensures DaysBeforeYear(y + 1) == DaysBeforeYear(y) + DaysInYear(y)
  {
    var p := y - 1;
    DivStep(p);
    var d4, d100, d400 := y / 4 - p / 4, y / 100 - p / 100, y / 400 - p / 400;
    assert DaysBeforeYear(y + 1) - DaysBeforeYear(y) == 365 + d4 - d100 + d400;
    Divides(y);
  }

  lemma {:induction false} Divides(y: int)
    ensures y % 400 == 0 ==> y % 100 == 0
    ensures y % 100 == 0 ==> y % 4 == 0
  {
    if y % 400 == 0 {
      var k := y / 400;
      assert y == 100 * (4 * k);
    }
    if y % 100 == 0 {
      var k := y / 100;
      assert y == 4 * (25 * k);
    }
  }

  lemma {:induction false} DaysBeforeYearGrows(y: int, z: int)
    requires 1 <= y < z
    ensures DaysBeforeYear(y) + DaysInYear(y) <= DaysBeforeYear(z)
    decreases z - y
  {
    YearLength(y);
    if y + 1 < z {
      DaysBeforeYearGrows(y + 1, z);
    }
  }

  lemma {:induction false} DaysBeforeMonthGrows(y: int, m: int, n: int)
    requires 1 <= m < n <= 12
    ensures DaysBeforeMonth(y, m) + DaysInMonth(y, m) <= DaysBeforeMonth(y, n)
  {
  }

  /** A date falls inside its own year's span of day numbers. */
  lemma {:induction false} WithinYear(d: ValidDate)
    ensures DaysBeforeYear(d.year) <= DayNumber(d) < DaysBeforeYear(d.year) + DaysInYear(d.year)
  {
    if d.month < 12 {
      DaysBeforeMonthGrows(d.year, d.month, 12);
    }
    MonthTableSteps(d.year, 12);
  }

  /** The day count orders dates exactly as their text does, so the difference
      of two day numbers is the `.dt.days` of their difference and is
      non-negative when the first date is not earlier. */
  lemma {:induction false} DayNumberOrdersDates(a: ValidDate, b: ValidDate)
    ensures Before(a, b) <==> DayNumber(a) < DayNumber(b)
    ensures a == b <==> DayNumber(a) == DayNumber(b)
  {
    if a.year < b.year {
      WithinYear(a);
      WithinYear(b);
      DaysBeforeYearGrows(a.year, b.year);
    } else if b.year < a.year {
      WithinYear(a);
      WithinYear(b);
      DaysBeforeYearGrows(b.year, a.year);
    } else if a.month < b.month {
      DaysBeforeMonthGrows(a.year, a.month, b.month);
    } else if b.month < a.month {
      DaysBeforeMonthGrows(b.year, b.month, a.month);
    }
  }

  /** The calendar day after `d`. */
  function NextDay(d: ValidDate): Date
  {
    if d.day < DaysInMonth(d.year, d.month) then Date(d.year, d.month, d.day + 1)
    else if d.month < 12 then Date(d.year, d.month + 1, 1)
    else Date(d.year + 1, 1, 1)
  }

  /** Consecutive calendar days are exactly one day number apart, across
      month ends, year ends and leap days alike. */
  lemma {:induction false} NextDayIsOneLater(d: ValidDate)
    requires d != Date(9999, 12, 31)
    ensures Valid(NextDay(d))
    ensures DayNumber(NextDay(d)) == DayNumber(d) + 1
  {
    MonthTableSteps(d.year, d.month);
    if d.day == DaysInMonth(d.year, d.month) && d.month == 12 {
      YearLength(d.year);
    }
  }

  /** The latest of a non-empty list of dates (SQL `MAX` over the stored text). */
  function Latest(ds: seq<ValidDate>): (d: ValidDate)
    requires |ds| > 0
    ensures d in ds
    ensures forall i :: 0 <= i < |ds| ==> !Before(d, ds[i])
  {
    if |ds| == 1 then ds[0]
    else
      var p := Latest(ds[..|ds| - 1]);
      assert forall i :: 0 <= i < |ds| - 1 ==> ds[i] == ds[..|ds| - 1][i];
      if Before(p, ds[|ds| - 1]) then ds[|ds| - 1] else p
  }
}
