/** The proleptic Gregorian calendar on day numbers.

    Day 0 is Monday 0001-01-01, so weekdays count from Monday. A
    month is named by `12 * year + month0`, the form in which the recurrence
    engine steps monthly and yearly rules. */
module CivilCalendar {

  /** Day number of 10000-01-01: the first date the engine refuses. */
  const DATE_LIMIT: nat := 3_652_059

  /** First day number beyond the dates the date library represents (its last
      year is 262142). */
  const LIBRARY_LIMIT: nat := 95_745_399

  /** January of year 1. */
  const FIRST_MONTH: nat := 12

  type Month = m: nat | FIRST_MONTH <= m witness FIRST_MONTH

  predicate InRange(date: int) {
    0 <= date < DATE_LIMIT
  }

  /** Days since Monday. */
  function Weekday(date: int): (day: nat)
    ensures day < 7
  {
    date % 7
  }

  /** Wrap a small number of days around the week. */
  function Around(day: int): (r: nat)
    requires -7 <= day < 14
    ensures r < 7
  {
    if day < 0 then day + 7 else if day < 7 then day else day - 7
  }

  lemma WeekdaySum(a: int, b: int)
    ensures Weekday(a + b) == Around(Weekday(a) + Weekday(b))
  {
  }

  predicate Leap(year: int) {
    year % 4 == 0 && (year % 100 != 0 || year % 400 == 0)
  }

  function DaysIn(month: Month): (n: nat)
    ensures 28 <= n <= 31
  {
    var m := month % 12;
    if m == 1 then (if Leap(month / 12) then 29 else 28)
    else if m == 3 || m == 5 || m == 8 || m == 10 then 30
    else 31
  }

  /** Day number of the first day of a month: months tile the timeline from day 0. */
  function MonthStart(month: Month): (day: nat) {
    if month == FIRST_MONTH then 0 else MonthStart(month - 1) + DaysIn(month - 1)
  }

  lemma {:induction false} MonthOrder(a: Month, b: Month)
    requires a < b
    ensures MonthStart(a) + DaysIn(a) <= MonthStart(b)
    decreases b
  {
    if a + 1 < b {
      MonthOrder(a, b - 1);
    }
  }

  /** The month that contains a date: the civil fields `year` and `month0`. */
  function MonthOf(date: nat): (month: Month)
    ensures MonthStart(month) <= date < MonthStart(month) + DaysIn(month)
  {
    MonthFrom(FIRST_MONTH, date)
  }

  function MonthFrom(month: Month, date: int): (r: Month)
    requires MonthStart(month) <= date
    ensures month <= r && MonthStart(r) <= date < MonthStart(r) + DaysIn(r)
    decreases date - MonthStart(month)
  {
    if date < MonthStart(month) + DaysIn(month) then month else MonthFrom(month + 1, date)
  }

  lemma MonthOfUnique(date: nat, month: Month)
    requires MonthStart(month) <= date < MonthStart(month) + DaysIn(month)
    ensures MonthOf(date) == month
  {
    var m := MonthOf(date);
    if m < month {
      MonthOrder(m, month);
    } else if month < m {
      MonthOrder(month, m);
    }
  }

  lemma MonthOfMonotone(a: nat, b: nat)
    requires a <= b
    ensures MonthOf(a) <= MonthOf(b)
  {
    if MonthOf(b) < MonthOf(a) {
      MonthOrder(MonthOf(b), MonthOf(a));
    }
  }

  /** Closed form of the first day of a year. */
  function YearStart(year: int): int {
    365 * (year - 1) + (year - 1) / 4 - (year - 1) / 100 + (year - 1) / 400
  }

  lemma FourthYear(year: int)
    ensures year / 4 == (year - 1) / 4 + if year % 4 == 0 then 1 else 0
    ensures year % 100 == 0 ==> year % 4 == 0
  {
  }

  lemma Century(year: int)
    ensures year / 100 == (year - 1) / 100 + if year % 100 == 0 then 1 else 0
    ensures year % 400 == 0 ==> year % 100 == 0
  {
  }

  lemma FourthCentury(year: int)
    ensures year / 400 == (year - 1) / 400 + if year % 400 == 0 then 1 else 0
  {
  }

  lemma YearStep(year: int)
    ensures YearStart(year + 1) == YearStart(year) + if Leap(year) then 366 else 365
  {
    FourthYear(year);
    Century(year);
    FourthCentury(year);
  }

  lemma DaysInMonth(year: nat, month0: nat)
    requires 1 <= year && month0 < 12
    ensures DaysIn(12 * year + month0) ==
      if month0 == 1 then (if Leap(year) then 29 else 28)
      else if month0 == 3 || month0 == 5 || month0 == 8 || month0 == 10 then 30
      else 31
  {
    assert (12 * year + month0) % 12 == month0 && (12 * year + month0) / 12 == year;
  }

  /** Days of a year before a month. */
  function DaysBefore(month0: nat, leap: bool): nat {
    if month0 == 0 then 0
    else
      var last :=
        if month0 == 2 then (if leap then 29 else 28)
        else if month0 == 4 || month0 == 6 || month0 == 9 || month0 == 11 then 30
        else 31;
      DaysBefore(month0 - 1, leap) + last
  }

  lemma YearLength(leap: bool)
    ensures DaysBefore(12, leap) == if leap then 366 else 365
  {
    assert DaysBefore(1, leap) == 31;
    assert DaysBefore(2, leap) == if leap then 60 else 59;
    assert DaysBefore(4, leap) == DaysBefore(2, leap) + 61;
    assert DaysBefore(6, leap) == DaysBefore(4, leap) + 61;
    assert DaysBefore(8, leap) == DaysBefore(6, leap) + 62;
    assert DaysBefore(10, leap) == DaysBefore(8, leap) + 61;
    assert DaysBefore(12, leap) == DaysBefore(10, leap) + 61;
  }

  lemma {:induction false} MonthsOfYear(year: nat, months: nat)
    requires 1 <= year && months <= 12
    ensures MonthStart(12 * year + months) == MonthStart(12 * year) + DaysBefore(months, Leap(year))
  {
    if months > 0 {
      MonthsOfYear(year, months - 1);
      DaysInMonth(year, months - 1);
    }
  }

  /** The month-by-month calendar has the closed form, and by it the supported
      years 0001..9999 and the library's last year end where the constants say. */
  lemma {:induction false} YearsClosedForm(year: nat)
    requires 1 <= year
    ensures MonthStart(12 * year) == YearStart(year)
    ensures YearStart(10_000) == DATE_LIMIT && YearStart(262_143) == LIBRARY_LIMIT
  {
    if year > 1 {
      YearsClosedForm(year - 1);
      YearStep(year - 1);
      MonthsOfYear(year - 1, 12);
      YearLength(Leap(year - 1));
    }
  }
}
