/**
 * The proleptic Gregorian calendar of section 21.4.1 of ECMA-262: days, years, months and weekdays, in
 * both directions. Days are counted from 1970-01-01.
 */
module Calendar {
  predicate IsLeap(y: int) { y % 4 == 0 && (y % 100 != 0 || y % 400 == 0) }

  function DaysInYear(y: int): nat { if IsLeap(y) then 366 else 365 }

  /** The first day of year `y`, counted year by year from 1970. */
  function DayFromYear(y: int): int
    decreases if y < 1970 then 1970 - y else y - 1970
  {
    if y == 1970 then 0
    else if y > 1970 then DayFromYear(y - 1) + DaysInYear(y - 1)
    else DayFromYear(y + 1) - DaysInYear(y)
  }

  function MonthLength(m: int, leap: bool): nat {
    if m == 2 then (if leap then 29 else 28)
    else if m == 4 || m == 6 || m == 9 || m == 11 then 30
    else 31
  }

  /** Days of the year before the first of month `m`; month 13 is the whole year. */
  function DaysBefore(m: int, leap: bool): nat
    requires 1 <= m <= 13
  {
    if m == 1 then 0 else DaysBefore(m - 1, leap) + MonthLength(m - 1, leap)
  }

  lemma WholeYear(leap: bool)
    ensures DaysBefore(13, leap) == if leap then 366 else 365
  {
    assert DaysBefore(4, leap) == DaysBefore(2, leap) + MonthLength(2, leap) + MonthLength(3, leap);
    assert DaysBefore(6, leap) == DaysBefore(4, leap) + 61;
    assert DaysBefore(8, leap) == DaysBefore(6, leap) + 61;
    assert DaysBefore(10, leap) == DaysBefore(8, leap) + 61;
    assert DaysBefore(12, leap) == DaysBefore(10, leap) + 61;
  }

  /** The day of the year on which each month begins, in a common year. */
  const MONTH_STARTS := [0, 31, 59, 90, 120, 151, 181, 212, 243, 273, 304, 334, 365]

  /** The table that the standard gives for MonthFromTime; a leap year adds a day from March on. */
  lemma {:induction false} DaysBeforeTable(m: int, leap: bool)
    requires 1 <= m <= 13
    ensures DaysBefore(m, leap) == MONTH_STARTS[m - 1] + if leap && m > 2 then 1 else 0
  {
    if m > 1 { DaysBeforeTable(m - 1, leap); }
  }

  datatype Date = Date(year: int, month: int, day: int)

  predicate IsDate(d: Date) {
    1 <= d.month <= 12 && 1 <= d.day <= MonthLength(d.month, IsLeap(d.year))
  }

  /** MakeDay: the day may lie outside the month, and then normalizes into a neighbouring one. */
  function MakeDay(year: int, month: int, day: int): int
    requires 1 <= month <= 12
  {
    DayFromYear(year) + DaysBefore(month, IsLeap(year)) + day - 1
  }

  lemma Every4(x: int)
    ensures (x + 1) / 4 == x / 4 + (if (x + 1) % 4 == 0 then 1 else 0)
  {
  }

  lemma Every100(x: int)
    ensures (x + 1) / 100 == x / 100 + (if (x + 1) % 100 == 0 then 1 else 0)
  {
  }

  lemma Every400(x: int)
    ensures (x + 1) / 400 == x / 400 + (if (x + 1) % 400 == 0 then 1 else 0)
  {
  }

  lemma CenturiesAreFourths(y: int)
    ensures y % 400 == 0 ==> y % 100 == 0
    ensures y % 100 == 0 ==> y % 4 == 0
    ensures (y - 1968) % 4 == y % 4
    ensures (y - 1900) % 100 == y % 100
    ensures (y - 1600) % 400 == y % 400
  {
  }

  lemma NextYear(y: int)
    ensures DayFromYear(y + 1) == DayFromYear(y) + DaysInYear(y)
  {
  }

  function DayFromYearByDivision(y: int): int {
    365 * (y - 1970) + (y - 1969) / 4 - (y - 1901) / 100 + (y - 1601) / 400
  }

  lemma DivisionStep(y: int)
    ensures DayFromYearByDivision(y + 1) == DayFromYearByDivision(y) + DaysInYear(y)
  {
    Every4(y - 1969);
    Every100(y - 1901);
    Every400(y - 1601);
    CenturiesAreFourths(y);
    assert y + 1 - 1969 == y - 1968 && y + 1 - 1901 == y - 1900 && y + 1 - 1601 == y - 1600;
  }

  /** The standard's closed form counts the same days, before 1970 too. */
  lemma {:induction false} DayFromYearFormula(y: int)
    ensures DayFromYear(y) == DayFromYearByDivision(y)
    decreases if y < 1970 then 1970 - y else y - 1970
  {
    if y > 1970 {
      DayFromYearFormula(y - 1);
      DivisionStep(y - 1);
    } else if y < 1970 {
      DayFromYearFormula(y + 1);
      DivisionStep(y);
    }
  }

  lemma {:induction false} YearsApart(y: int, z: int)
    requires y <= z
    ensures DayFromYear(y) + 365 * (z - y) <= DayFromYear(z)
    decreases z - y
  {
    if y < z {
      YearsApart(y, z - 1);
      NextYear(z - 1);
    }
  }

  /** The year that contains day `n`, searched upwards from `y`. */
  function YearFrom(n: int, y: int): (r: int)
    requires DayFromYear(y) <= n
    ensures DayFromYear(r) <= n < DayFromYear(r + 1)
    decreases n - DayFromYear(y)
  {
    NextYear(y);
    if n < DayFromYear(y + 1) then y else YearFrom(n, y + 1)
  }

  /** YearFromTime */
  function YearOf(n: int): (r: int)
    ensures DayFromYear(r) <= n < DayFromYear(r + 1)
  {
    if n >= 0 then YearFrom(n, 1970)
    else
      YearsApart(1970 + n, 1970);
      YearFrom(n, 1970 + n)
  }

  lemma YearOfIsUnique(n: int, y: int)
    requires DayFromYear(y) <= n < DayFromYear(y + 1)
    ensures YearOf(n) == y
  {
    var r := YearOf(n);
    if r < y { YearsApart(r + 1, y); }
    if y < r { YearsApart(y + 1, r); }
  }

  lemma YearAtLeast(n: int, y: int)
    ensures YearOf(n) >= y <==> n >= DayFromYear(y)
  {
    var r := YearOf(n);
    if r >= y { YearsApart(y, r); } else { YearsApart(r + 1, y); }
  }

  /** MonthFromTime, for day `d` of the year counted from 0. */
  function MonthFrom(d: nat, leap: bool, m: int): (r: int)
    requires 1 <= m <= 12 && DaysBefore(m, leap) <= d < DaysBefore(13, leap)
    ensures m <= r <= 12 && DaysBefore(r, leap) <= d < DaysBefore(r + 1, leap)
    decreases 12 - m
  {
    if d < DaysBefore(m + 1, leap) then m else MonthFrom(d, leap, m + 1)
  }

  /** The calendar date of day `n`. */
  function DateOf(n: int): (r: Date)
    ensures 1 <= r.month <= 12
  {
    var y := YearOf(n);
    NextYear(y);
    WholeYear(IsLeap(y));
    var d := n - DayFromYear(y);
    var m := MonthFrom(d, IsLeap(y), 1);
    Date(y, m, d - DaysBefore(m, IsLeap(y)) + 1)
  }

  lemma {:induction false} DayToDateToDay(n: int)
    ensures IsDate(DateOf(n)) && MakeDay(DateOf(n).year, DateOf(n).month, DateOf(n).day) == n
  {
    NextYear(YearOf(n));
  }

  lemma {:induction false} MonthsApart(m: int, k: int, leap: bool)
    requires 1 <= m <= k <= 13
    ensures DaysBefore(m, leap) <= DaysBefore(k, leap)
    decreases k
  {
    if m < k { MonthsApart(m, k - 1, leap); }
  }

  lemma MonthIsUnique(d: nat, leap: bool, m: int)
    requires 1 <= m <= 12 && DaysBefore(m, leap) <= d < DaysBefore(m + 1, leap)
    ensures d < DaysBefore(13, leap) && MonthFrom(d, leap, 1) == m
  {
    hide MonthFrom, DaysBefore, MonthLength;
    MonthsApart(1, m, leap);
    MonthsApart(m + 1, 13, leap);
    var r := MonthFrom(d, leap, 1);
    if r < m { MonthsApart(r + 1, m, leap); }
    if m < r { MonthsApart(m + 1, r, leap); }
  }

  lemma {:induction false} DateToDayToDate(d: Date)
    requires IsDate(d)
    ensures DateOf(MakeDay(d.year, d.month, d.day)) == d
  {
    hide IsLeap, DayFromYear, YearOf, MonthFrom, MonthLength;
    var leap := IsLeap(d.year);
    var k := DaysBefore(d.month, leap) + d.day - 1;
    NextYear(d.year);
    WholeYear(leap);
    MonthIsUnique(k, leap, d.month);
    YearOfIsUnique(DayFromYear(d.year) + k, d.year);
  }

  lemma DateYear(n: int, y: int)
    ensures DateOf(n).year >= y <==> n >= DayFromYear(y)
  {
    hide IsLeap, DayFromYear, DaysBefore, YearOf, MonthFrom, MonthLength;
    YearAtLeast(n, y);
  }

  lemma DateOfInjective(n: int, k: int)
    requires DateOf(n) == DateOf(k)
    ensures n == k
  {
    DayToDateToDay(n);
    DayToDateToDay(k);
  }

  /** WeekDay: 0 is Sunday. 1970-01-01 was a Thursday. */
  function WeekDay(n: int): nat { (n + 4) % 7 }

  function WeekdayName(n: int): string { ["Sun", "Mon", "Tue", "Wed", "Thu", "Fri", "Sat"][WeekDay(n)] }
}
