/**
 * Day-granularity dates of the proleptic Gregorian calendar, the part of
 * moment.js's behaviour the picker relies on: comparing days, adding a number
 * of days, stepping back one month, and naming a day by year, month and day.
 *
 * A `Day` is a day number counted from 0000/01/01; `Civil` is the same day
 * written as year/month/day. `ToDay` and `ToCivil` are proved to be inverse.
 */
module Calendar {

  /** Days since 0000/01/01 (day 0). */
  type Day = nat

  datatype Civil = Civil(year: nat, month: nat, day: nat)

  predicate IsLeapYear(y: nat) {
    y % 4 == 0 && (y % 100 != 0 || y % 400 == 0)
  }

  function DaysInYear(y: nat): nat {
    if IsLeapYear(y) then 366 else 365
  }

  function DaysInMonth(y: nat, m: nat): (n: nat)
    requires 1 <= m <= 12
    ensures 28 <= n <= 31
  {
    if m == 2 then (if IsLeapYear(y) then 29 else 28)
    else if m == 4 || m == 6 || m == 9 || m == 11 then 30
    else 31
  }

  /** A real calendar day: the month exists and has that many days. */
  predicate Valid(c: Civil) {
    1 <= c.month <= 12 && 1 <= c.day <= DaysInMonth(c.year, c.month)
  }

  /** Number of days in the years 0 .. y-1. */
  function DaysBeforeYear(y: nat): nat {
    if y == 0 then 0 else DaysBeforeYear(y - 1) + DaysInYear(y - 1)
  }

  /** Number of days in the months 1 .. m-1 of year y. */
  function DaysBeforeMonth(y: nat, m: nat): nat
    requires 1 <= m <= 12
  {
    [0, 31, 59, 90, 120, 151, 181, 212, 243, 273, 304, 334][m - 1]
      + (if m > 2 && IsLeapYear(y) then 1 else 0)
  }

  /** Month m of year y ends where month m+1 begins, and month 12 ends where the year does. */
  lemma MonthEnd(y: nat, m: nat)
    requires 1 <= m <= 12
    ensures m < 12 ==> DaysBeforeMonth(y, m) + DaysInMonth(y, m) == DaysBeforeMonth(y, m + 1)
    ensures m == 12 ==> DaysBeforeMonth(y, m) + DaysInMonth(y, m) == DaysInYear(y)
  {
  }

  /** Months are laid out in order: an earlier month ends no later than a later one begins. */
  lemma {:induction false} MonthsOrdered(y: nat, m1: nat, m2: nat)
    requires 1 <= m1 < m2 <= 12
    ensures DaysBeforeMonth(y, m1) + DaysInMonth(y, m1) <= DaysBeforeMonth(y, m2)
    decreases m2 - m1
  {
    MonthEnd(y, m1);
    if m1 + 1 < m2 {
      MonthsOrdered(y, m1 + 1, m2);
      MonthEnd(y, m1 + 1);
    }
  }

  /** Every month ends within its year. */
  lemma MonthWithinYear(y: nat, m: nat)
    requires 1 <= m <= 12
    ensures DaysBeforeMonth(y, m) + DaysInMonth(y, m) <= DaysInYear(y)
  {
    MonthEnd(y, 12);
    if m < 12 {
      MonthsOrdered(y, m, 12);
    }
  }

  /** Years are laid out in order: an earlier year ends no later than a later one begins. */
  lemma {:induction false} YearsOrdered(y1: nat, y2: nat)
    requires y1 < y2
    ensures DaysBeforeYear(y1) + DaysInYear(y1) <= DaysBeforeYear(y2)
    decreases y2 - y1
  {
    if y1 + 1 < y2 {
      YearsOrdered(y1 + 1, y2);
    }
  }

  /** The day number of a calendar day. */
  function ToDay(c: Civil): (n: Day)
    requires Valid(c)
    ensures DaysBeforeYear(c.year) <= n < DaysBeforeYear(c.year) + DaysInYear(c.year)
  {
    MonthWithinYear(c.year, c.month);
    DaysBeforeYear(c.year) + DaysBeforeMonth(c.year, c.month) + c.day - 1
  }

  /** Two calendar days with the same day number are the same day. */
  lemma ToDayInjective(c1: Civil, c2: Civil)
    requires Valid(c1) && Valid(c2) && ToDay(c1) == ToDay(c2)
    ensures c1 == c2
  {
    if c1.year < c2.year {
      YearsOrdered(c1.year, c2.year);
    } else if c2.year < c1.year {
      YearsOrdered(c2.year, c1.year);
    } else if c1.month < c2.month {
      MonthsOrdered(c1.year, c1.month, c2.month);
    } else if c2.month < c1.month {
      MonthsOrdered(c1.year, c2.month, c1.month);
    }
  }

  /** The day at offset n (counted from 0) of year y, searching from month m on. */
  function DayInYear(y: nat, m: nat, n: nat): (c: Civil)
    requires 1 <= m <= 12
    requires DaysBeforeMonth(y, m) + n < DaysInYear(y)
    ensures Valid(c) && c.year == y
    ensures ToDay(c) == DaysBeforeYear(y) + DaysBeforeMonth(y, m) + n
    decreases 12 - m
  {
    MonthEnd(y, m);
    if n < DaysInMonth(y, m) then Civil(y, m, n + 1)
    else DayInYear(y, m + 1, n - DaysInMonth(y, m))
  }

  /** The calendar day that lies n days after the first day of year y. */
  function DayFromYear(y: nat, n: nat): (c: Civil)
    ensures Valid(c) && c.year >= y
    ensures ToDay(c) == DaysBeforeYear(y) + n
    decreases n
  {
    if n < DaysInYear(y) then DayInYear(y, 1, n)
    else DayFromYear(y + 1, n - DaysInYear(y))
  }

  /** The calendar day of a day number. */
  function ToCivil(n: Day): (c: Civil)
    ensures Valid(c) && ToDay(c) == n
  {
    DayFromYear(0, n)
  }

  /** Naming a calendar day by its number and back gives the same day. */
  lemma ToCivilToDay(c: Civil)
    requires Valid(c)
    ensures ToCivil(ToDay(c)) == c
  {
    ToDayInjective(ToCivil(ToDay(c)), c);
  }

  /**
   * moment's `subtract(1, 'month')`: the same day of the previous month, or
   * that month's last day when it is shorter. Not defined for January of year 0.
   */
  function MinusOneMonth(n: Day): (r: Day)
    requires ToCivil(n).year > 0 || ToCivil(n).month > 1
    ensures 28 <= n - r <= 31
    ensures var c, p := ToCivil(n), ToCivil(r);
      c.month == 1 ==> p == Civil(c.year - 1, 12, c.day)
    ensures var c, p := ToCivil(n), ToCivil(r);
      c.month > 1 ==>
        p.year == c.year && p.month == c.month - 1 &&
        p.day == (if c.day <= DaysInMonth(c.year, c.month - 1) then c.day else DaysInMonth(c.year, c.month - 1))
  {
    var c := ToCivil(n);
    if c.month == 1 then
      MonthEnd(c.year - 1, 12);
      ToCivilToDay(Civil(c.year - 1, 12, c.day));
      ToDay(Civil(c.year - 1, 12, c.day))
    else
      var m := c.month - 1;
      var p := Civil(c.year, m, if c.day <= DaysInMonth(c.year, m) then c.day else DaysInMonth(c.year, m));
      MonthEnd(c.year, m);
      ToCivilToDay(p);
      ToDay(p)
  }
}
