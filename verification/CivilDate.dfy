/** The proleptic Gregorian calendar as ECMAScript's `Date` counts it: days since 1970-01-01 and civil dates. */
module CivilDate {

  datatype Civil = Civil(year: int, month: int, day: int)

  predicate IsLeapYear(y: int) {
    (y % 4 == 0 && y % 100 != 0) || y % 400 == 0
  }

  const DAYS_IN_MONTH: seq<int> := [31, 28, 31, 30, 31, 30, 31, 31, 30, 31, 30, 31]

  function DaysInMonth(y: int, m: int): int {
    if m == 2 && IsLeapYear(y) then 29 else if 1 <= m <= 12 then DAYS_IN_MONTH[m - 1] else 0
  }

  lemma MonthLengths(y: int, m: int)
    ensures DaysInMonth(y, m) ==
            if m in {4, 6, 9, 11} then 30
            else if m in {1, 3, 5, 7, 8, 10, 12} then 31
            else if m == 2 then (if y % 400 == 0 || (y % 4 == 0 && y % 100 != 0) then 29 else 28)
            else 0
  {}

  predicate IsCivil(c: Civil) {
    1 <= c.month <= 12 && 1 <= c.day <= DaysInMonth(c.year, c.month)
  }

  /** The day on which a year begins; division rounds down. */
  function DayFromYear(y: int): int {
    365 * (y - 1970) + (y - 1969) / 4 - (y - 1901) / 100 + (y - 1601) / 400
  }

  /** Days of the year before month `m`. */
  function DaysBefore(y: int, m: nat): int {
    if m <= 1 then 0 else DaysBefore(y, m - 1) + DaysInMonth(y, m - 1)
  }

  function DayNumber(c: Civil): int
    requires 1 <= c.month
  {
    DayFromYear(c.year) + DaysBefore(c.year, c.month) + c.day - 1
  }

  /** The year that contains day `n`, searched from `y`. */
  function YearFrom(n: int, y: int): (r: int)
    ensures DayFromYear(r) <= n < DayFromYear(r + 1)
    decreases if DayFromYear(y) > n then 1 else 0, if DayFromYear(y) > n then DayFromYear(y) - n else n - DayFromYear(y)
  {
    hide DayFromYear, IsLeapYear;
    YearLength(y);
    YearLength(y - 1);
    if DayFromYear(y) > n then YearFrom(n, y - 1)
    else if DayFromYear(y + 1) <= n then YearFrom(n, y + 1)
    else y
  }

  /** The month that contains day `d` (from 0) of a year, searched downward from `m`. */
  function MonthFrom(y: int, d: int, m: nat): (r: int)
    requires 1 <= m <= 12 && 0 <= d < DaysBefore(y, m) + DaysInMonth(y, m)
    ensures 1 <= r <= 12 && DaysBefore(y, r) <= d < DaysBefore(y, r) + DaysInMonth(y, r)
  {
    if DaysBefore(y, m) <= d then m else MonthFrom(y, d, m - 1)
  }

  /** The civil date of a day. */
  function CivilOf(n: int): (c: Civil)
    ensures IsCivil(c) && DayNumber(c) == n
  {
    var y := YearFrom(n, 1970);
    var d := n - DayFromYear(y);
    YearLength(y);
    MonthsAddUp(y);
    var m := MonthFrom(y, d, 12);
    Civil(y, m, d - DaysBefore(y, m) + 1)
  }

  // ---- the counting agrees with the leap rule -----------------------------

  lemma Fours(y: int)
    ensures (y - 1968) / 4 == (y - 1969) / 4 + if y % 4 == 0 then 1 else 0
  {}

  lemma Hundreds(y: int)
    ensures (y - 1900) / 100 == (y - 1901) / 100 + if y % 100 == 0 then 1 else 0
  {}

  lemma FourHundreds(y: int)
    ensures (y - 1600) / 400 == (y - 1601) / 400 + if y % 400 == 0 then 1 else 0
  {}

  lemma Multiples(y: int)
    ensures y % 400 == 0 ==> y % 100 == 0
    ensures y % 100 == 0 ==> y % 4 == 0
  {}

  /** The formula for the first day of a year steps by 366 exactly in leap years. */
  lemma YearLength(y: int)
    ensures DayFromYear(y + 1) == DayFromYear(y) + if IsLeapYear(y) then 366 else 365
  {
    Fours(y);
    Hundreds(y);
    FourHundreds(y);
    Multiples(y);
    var a, b, c := (y - 1969) / 4, (y - 1901) / 100, (y - 1601) / 400;
    assert DayFromYear(y) == 365 * (y - 1970) + a - b + c;
    assert DayFromYear(y + 1) == 365 * (y - 1969) + (y - 1968) / 4 - (y - 1900) / 100 + (y - 1600) / 400;
  }

  lemma MonthsAddUp(y: int)
    ensures DaysBefore(y, 12) + DaysInMonth(y, 12) == if IsLeapYear(y) then 366 else 365
  {
    var feb := DaysInMonth(y, 2);
    assert DaysBefore(y, 2) == 31;
    assert DaysBefore(y, 3) == 31 + feb;
    assert DaysBefore(y, 5) == DaysBefore(y, 3) + 61;
    assert DaysBefore(y, 7) == DaysBefore(y, 5) + 61;
    assert DaysBefore(y, 9) == DaysBefore(y, 7) + 62;
    assert DaysBefore(y, 11) == DaysBefore(y, 9) + 61;
    assert DaysBefore(y, 12) == DaysBefore(y, 11) + 30;
  }

  lemma {:induction false} MonthsGrow(y: int, a: nat, b: nat)
    requires 1 <= a < b <= 12
    ensures DaysBefore(y, a) + DaysInMonth(y, a) <= DaysBefore(y, b)
  {
    if a < b - 1 {
      MonthsGrow(y, a, b - 1);
    }
  }

  lemma {:induction false} YearsGrow(a: int, b: int)
    requires a < b
    ensures DayFromYear(a + 1) <= DayFromYear(b)
    decreases b - a
  {
    if a + 1 < b {
      YearsGrow(a, b - 1);
      YearLength(b - 1);
    }
  }

  /** A civil date lies inside its year. */
  lemma InYear(c: Civil)
    requires IsCivil(c)
    ensures DayFromYear(c.year) <= DayNumber(c) < DayFromYear(c.year + 1)
  {
    hide DaysInMonth, DayFromYear, IsLeapYear;
    YearLength(c.year);
    MonthsAddUp(c.year);
    if c.month < 12 {
      MonthsGrow(c.year, c.month, 12);
    }
    if c.month > 1 {
      MonthsGrow(c.year, 1, c.month);
    }
    SomeDays(c.year, 1);
    SomeDays(c.year, 12);
  }

  lemma SomeDays(y: int, m: nat)
    requires 1 <= m <= 12
    ensures DaysInMonth(y, m) >= 28
  {}

  predicate Earlier(a: Civil, b: Civil) {
    a.year < b.year || (a.year == b.year && (a.month < b.month || (a.month == b.month && a.day < b.day)))
  }

  lemma EarlierMeansLess(a: Civil, b: Civil)
    requires IsCivil(a) && IsCivil(b) && Earlier(a, b)
    ensures DayNumber(a) < DayNumber(b)
  {
    hide DaysInMonth, DayFromYear, DaysBefore;
    if a.year < b.year {
      InYear(a);
      InYear(b);
      YearsGrow(a.year, b.year);
    } else if a.month < b.month {
      MonthsGrow(a.year, a.month, b.month);
    }
  }

  /** Day numbers order civil dates as the calendar does. */
  lemma EarlierIff(a: Civil, b: Civil)
    requires IsCivil(a) && IsCivil(b)
    ensures DayNumber(a) < DayNumber(b) <==> Earlier(a, b)
  {
    if Earlier(a, b) {
      EarlierMeansLess(a, b);
    } else if a != b {
      EarlierMeansLess(b, a);
    }
  }

  /** Together with the contract of `CivilOf`: days and civil dates correspond one to one. */
  lemma CivilOfDayNumber(c: Civil)
    requires IsCivil(c)
    ensures CivilOf(DayNumber(c)) == c
  {
    var c' := CivilOf(DayNumber(c));
    EarlierIff(c, c');
    EarlierIff(c', c);
  }
}
