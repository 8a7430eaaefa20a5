/**
  Calendar dates as the contract sheet holds them after parsing: a year, a month
  and a day of the proleptic Gregorian calendar. Dates are compared the way
  timestamps are, by the number of days they lie after a fixed origin, and the
  difference of two dates in days is the difference of those numbers.
 */
module Dates {

  datatype Date = Date(year: int, month: int, day: int)

  predicate IsLeapYear(y: int)
  {
    y % 4 == 0 && (y % 100 != 0 || y % 400 == 0)
  }

  function DaysInYear(y: int): int
  {
    if IsLeapYear(y) then 366 else 365
  }

  function DaysInMonth(y: int, m: int): (n: int)
    requires 1 <= m <= 12
    ensures 28 <= n <= 31
  {
    if m == 2 then (if IsLeapYear(y) then 29 else 28)
    else if m == 4 || m == 6 || m == 9 || m == 11 then 30
    else 31
  }

  predicate ValidDate(d: Date)
  {
    1 <= d.month <= 12 && 1 <= d.day <= DaysInMonth(d.year, d.month)
  }

  /** A date that exists in the calendar: what a successful date parse yields. */
  type CivilDate = d: Date | ValidDate(d) witness Date(1970, 1, 1)

  /** Days of year `y` that come before the first day of month `m`. */
  function DaysBeforeMonth(y: int, m: int): int
    requires 1 <= m <= 12
  {
    [0, 31, 59, 90, 120, 151, 181, 212, 243, 273, 304, 334][m - 1]
      + (if m > 2 && IsLeapYear(y) then 1 else 0)
  }

  /** Days from 1 January of year 1 to 1 January of year `y` (negative before year 1). */
  function DaysBeforeYear(y: int): int
  {
    var p := y - 1;
    365 * p + p / 4 - p / 100 + p / 400
  }

  /** Days-from-civil: the day number of `d`, with 0001-01-01 as day 0. */
  function DayNumber(d: CivilDate): int
  {
    DaysBeforeYear(d.year) + DaysBeforeMonth(d.year, d.month) + d.day - 1
  }

  /** `b - a` in whole days, as the difference of two timestamps. */
  function DaysBetween(a: CivilDate, b: CivilDate): int
  {
    DayNumber(b) - DayNumber(a)
  }

  /** Calendar order: by year, then month, then day. */
  predicate CalendarBefore(a: Date, b: Date)
  {
    a.year < b.year
    || (a.year == b.year && (a.month < b.month || (a.month == b.month && a.day < b.day)))
  }

  /**
    Timestamp comparison `a <= b`. Timestamps compare by their day numbers;
    on valid dates that is calendar order (lemma DateOrderIsDayOrder), which is
    what this is defined as.
   */
  predicate DateLe(a: CivilDate, b: CivilDate)
  {
    !CalendarBefore(b, a)
  }

  /** Timestamp comparison `a < b`. */
  predicate DateLt(a: CivilDate, b: CivilDate)
  {
    CalendarBefore(a, b)
  }

  lemma StepDiv(y: int, n: int)
    requires n == 4 || n == 100 || n == 400
    ensures y / n - (y - 1) / n == if y % n == 0 then 1 else 0
  {
  }

  /** A multiple of 400 is a multiple of 100. */
  lemma MultipleOf400(y: int)
    ensures y % 400 == 0 ==> y % 100 == 0
  {
    if y % 400 == 0 {
      var k := y / 400;
      assert y == 100 * (4 * k);
    }
  }

  /** A multiple of 400 is a multiple of 100, and a multiple of 100 a multiple of 4. */
  lemma DivisorChain(y: int)
    ensures y % 400 == 0 ==> y % 100 == 0
    ensures y % 100 == 0 ==> y % 4 == 0
  {
    MultipleOf400(y);
    if y % 100 == 0 {
      var k := y / 100;
      assert y == 4 * (25 * k);
    }
  }

  /** The year contributes exactly its own length between consecutive new years. */
  lemma YearStep(y: int)
    ensures DaysBeforeYear(y + 1) == DaysBeforeYear(y) + DaysInYear(y)
  {
    StepDiv(y, 4);
    StepDiv(y, 100);
    StepDiv(y, 400);
    DivisorChain(y);
  }

  lemma {:induction false} YearsAscend(y1: int, y2: int)
    requires y1 < y2
    ensures DaysBeforeYear(y1) + DaysInYear(y1) <= DaysBeforeYear(y2)
    decreases y2 - y1
  {
    YearStep(y1);
    if y1 + 1 < y2 {
      YearsAscend(y1 + 1, y2);
      assert DaysInYear(y1 + 1) > 0;
    }
  }

  lemma MonthsAscend(y: int, m1: int, m2: int)
    requires 1 <= m1 < m2 <= 12
    ensures DaysBeforeMonth(y, m1) + DaysInMonth(y, m1) <= DaysBeforeMonth(y, m2)
  {
  }

  lemma LastDayOfYear(y: int, m: int)
    requires 1 <= m <= 12
    ensures DaysBeforeMonth(y, m) + DaysInMonth(y, m) <= DaysInYear(y)
  {
  }

  /** Calendar order and day-number order agree on valid dates. */
  lemma CalendarOrderIsDayOrder(a: CivilDate, b: CivilDate)
    ensures CalendarBefore(a, b) <==> DayNumber(a) < DayNumber(b)
  {
    if CalendarBefore(a, b) {
      CalendarBeforeAscends(a, b);
    } else if a != b {
      assert CalendarBefore(b, a);
      CalendarBeforeAscends(b, a);
    }
  }

  lemma CalendarBeforeAscends(a: CivilDate, b: CivilDate)
    requires CalendarBefore(a, b)
    ensures DayNumber(a) < DayNumber(b)
  {
    if a.year < b.year {
      LastDayOfYear(a.year, a.month);
      YearsAscend(a.year, b.year);
    } else if a.month < b.month {
      MonthsAscend(a.year, a.month, b.month);
    }
  }

  /** Distinct valid dates have distinct day numbers. */
  lemma DayNumberInjective(a: CivilDate, b: CivilDate)
    ensures DayNumber(a) == DayNumber(b) ==> a == b
  {
    CalendarOrderIsDayOrder(a, b);
    CalendarOrderIsDayOrder(b, a);
  }

  /** The timestamp comparisons are the comparisons of day numbers. */
  lemma DateOrderIsDayOrder(a: CivilDate, b: CivilDate)
    ensures DateLe(a, b) <==> DayNumber(a) <= DayNumber(b)
    ensures DateLt(a, b) <==> DayNumber(a) < DayNumber(b)
  {
    CalendarOrderIsDayOrder(a, b);
    CalendarOrderIsDayOrder(b, a);
  }

  // ----- months -----

  /** Months since January of year 0: consecutive calendar months have consecutive indices. */
  function MonthIndex(d: Date): int
  {
    d.year * 12 + d.month - 1
  }

  /** The first day of the month with index `k`. */
  function MonthStart(k: int): (d: CivilDate)
    ensures MonthIndex(d) == k && d.day == 1
  {
    Date(k / 12, k % 12 + 1, 1)
  }

  /** `d.replace(day=1)`. */
  function MonthFloor(d: CivilDate): (f: CivilDate)
    ensures f.day == 1 && MonthIndex(f) == MonthIndex(d)
    ensures DateLe(f, d)
  {
    Date(d.year, d.month, 1)
  }

  /** The first day of the month after `d`'s, rolling December over into January. */
  function NextMonthStart(d: CivilDate): CivilDate
  {
    if d.month == 12 then Date(d.year + 1, 1, 1) else Date(d.year, d.month + 1, 1)
  }

  lemma MonthStartOfIndex(d: CivilDate)
    requires d.day == 1
    ensures MonthStart(MonthIndex(d)) == d
  {
  }

  lemma MonthStartSucc(k: int)
    ensures MonthStart(k + 1) == NextMonthStart(MonthStart(k))
  {
  }

  /** Among month starts, month-index order is timestamp order. */
  lemma MonthStartsAscend(j: int, k: int)
    ensures j < k <==> DateLt(MonthStart(j), MonthStart(k))
  {
  }

  /** A date is on or after the first day of month `k` exactly when its month index is at least `k`. */
  lemma MonthStartLe(k: int, d: CivilDate)
    ensures DateLe(MonthStart(k), d) <==> k <= MonthIndex(d)
  {
  }

  /** 1 January of year `y`. */
  function NewYear(y: int): CivilDate
  {
    Date(y, 1, 1)
  }

  /** A date is strictly before 1 January of `y` exactly when its year is before `y`. */
  lemma BeforeNewYear(d: CivilDate, y: int)
    ensures DateLt(d, NewYear(y)) <==> d.year < y
  {
  }
}
