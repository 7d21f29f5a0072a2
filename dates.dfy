/**
 * Calendar dates at day granularity, as the pipeline's timestamps are
 * used: compared chronologically, subtracted in whole days, truncated to
 * the first of their month, and split into year / month / day.
 */
module Dates {

  datatype Ymd = Ymd(year: int, month: int, day: int)

  predicate IsLeapYear(y: int)
  {
    y % 4 == 0 && (y % 100 != 0 || y % 400 == 0)
  }

  function DaysInMonth(y: int, m: int): (n: int)
    requires 1 <= m <= 12
    ensures 28 <= n <= 31
  {
    if m == 2 then (if IsLeapYear(y) then 29 else 28)
    else if m == 4 || m == 6 || m == 9 || m == 11 then 30
    else 31
  }

  predicate ValidYmd(d: Ymd)
  {
    1 <= d.month <= 12 && 1 <= d.day <= DaysInMonth(d.year, d.month)
  }

  /** A proleptic Gregorian calendar date. */
  type Date = d: Ymd | ValidYmd(d) witness Ymd(1970, 1, 1)

  /** Chronological order: `a` is on or before `b`. */
  predicate Le(a: Date, b: Date)
  {
    a.year < b.year
    || (a.year == b.year && a.month < b.month)
    || (a.year == b.year && a.month == b.month && a.day <= b.day)
  }

  predicate Lt(a: Date, b: Date)
  {
    Le(a, b) && a != b
  }

  function DaysInYear(y: int): int
  {
    if IsLeapYear(y) then 366 else 365
  }

  /** Days of the year `y` before the first of month `m`. */
  function DaysBeforeMonth(y: int, m: int): (n: int)
    requires 1 <= m <= 12
    ensures 0 <= n
    ensures n + DaysInMonth(y, m) <= DaysInYear(y)
  {
    var leapDay := if m > 2 && IsLeapYear(y) then 1 else 0;
    leapDay +
      (if m == 1 then 0 else if m == 2 then 31 else if m == 3 then 59
       else if m == 4 then 90 else if m == 5 then 120 else if m == 6 then 151
       else if m == 7 then 181 else if m == 8 then 212 else if m == 9 then 243
       else if m == 10 then 273 else if m == 11 then 304 else 334)
  }

  /** Days before the first of January of year `y`, counted from year 1. */
  function DaysBeforeYear(y: int): int
    decreases if y >= 1 then y - 1 else 1 - y
  {
    if y == 1 then 0
    else if y > 1 then DaysBeforeYear(y - 1) + DaysInYear(y - 1)
    else DaysBeforeYear(y + 1) - DaysInYear(y)
  }

  /** Day number of a date: consecutive dates have consecutive numbers. */
  function Ordinal(d: Date): int
  {
    DaysBeforeYear(d.year) + DaysBeforeMonth(d.year, d.month) + d.day
  }

  /** Whole days from `a` to `b` (the `timedelta` of `b - a`). */
  function DaysBetween(a: Date, b: Date): int
  {
    Ordinal(b) - Ordinal(a)
  }

  /** `datetime.strptime(x.strftime("%Y-%m"))`: midnight of the first of the month. */
  function FirstOfMonth(d: Date): (r: Date)
    ensures r.year == d.year && r.month == d.month && r.day == 1
    ensures Le(r, d)
  {
    Ymd(d.year, d.month, 1)
  }

  lemma {:induction false} DaysBeforeYearMono(y1: int, y2: int)
    requires y1 < y2
    ensures DaysBeforeYear(y1) + DaysInYear(y1) <= DaysBeforeYear(y2)
    decreases y2 - y1
  {
    assert DaysBeforeYear(y1 + 1) == DaysBeforeYear(y1) + DaysInYear(y1);
    if y1 + 1 < y2 {
      DaysBeforeYearMono(y1 + 1, y2);
    }
  }

  /** The day number is strictly increasing in chronological order. */
  lemma OrdinalStrictMono(a: Date, b: Date)
    requires Lt(a, b)
    ensures Ordinal(a) < Ordinal(b)
  {
    if a.year < b.year {
      DaysBeforeYearMono(a.year, b.year);
    } else if a.month < b.month {
      assert DaysBeforeMonth(a.year, a.month) + DaysInMonth(a.year, a.month)
        <= DaysBeforeMonth(b.year, b.month);
    }
  }

  /** Chronological order and day-number order agree, in both directions. */
  lemma OrdinalOrder(a: Date, b: Date)
    ensures Le(a, b) <==> Ordinal(a) <= Ordinal(b)
  {
    if Lt(a, b) {
      OrdinalStrictMono(a, b);
    } else if Lt(b, a) {
      OrdinalStrictMono(b, a);
    }
  }

  /** Two dates with the same day number are the same date. */
  lemma OrdinalInjective(a: Date, b: Date)
    requires Ordinal(a) == Ordinal(b)
    ensures a == b
  {
    OrdinalOrder(a, b);
    OrdinalOrder(b, a);
  }

  lemma LeTotal(a: Date, b: Date)
    ensures Le(a, b) || Le(b, a)
  {
  }

  lemma LeTrans(a: Date, b: Date, c: Date)
    requires Le(a, b) && Le(b, c)
    ensures Le(a, c)
  {
  }
}
