/** Calendar arithmetic on year, month and day of the month. */
module Calendar {
  import opened Bytes

  predicate Leap(year: int) {
    (year % 4 == 0 && year % 100 != 0) || year % 400 == 0
  }

  function GetMonthDays(month: int, year: int): int {
    match month
    case 1 => 31 case 3 => 31 case 5 => 31 case 7 => 31 case 8 => 31 case 10 => 31 case 12 => 31
    case 4 => 30 case 6 => 30 case 9 => 30 case 11 => 30
    case 2 => if Leap(year) then 29 else 28
    case _ => 30
  }

  predicate IsMonth(month: int) {
    1 <= month <= 12
  }

  predicate IsDate(year: int, month: int, mday: int) {
    IsMonth(month) && 1 <= mday <= GetMonthDays(month, year)
  }

  /** Months since the year 0. */
  function MonthNumber(year: int, month: int): int {
    12 * year + month
  }

  /** Days of the Gregorian calendar, extended backwards, before 1 January of a year. */
  function DaysBeforeYear(year: int): int {
    365 * (year - 1) + (year - 1) / 4 - (year - 1) / 100 + (year - 1) / 400
  }

  function DaysBeforeMonth(month: int, year: int): int
    requires IsMonth(month)
  {
    [0, 31, 59, 90, 120, 151, 181, 212, 243, 273, 304, 334][month - 1] + if Leap(year) && month > 2 then 1 else 0
  }

  function DayNumber(year: int, month: int, mday: int): int
    requires IsMonth(month)
  {
    DaysBeforeYear(year) + DaysBeforeMonth(month, year) + mday
  }

  // ---------------------------------------------------------------- the day number is a calendar

  /** A quotient steps at the multiples of its divisor. */
  lemma Quotient4(y: int)
    ensures y / 4 == (y - 1) / 4 + if y % 4 == 0 then 1 else 0
  {
  }

  lemma Quotient100(y: int)
    ensures y / 100 == (y - 1) / 100 + if y % 100 == 0 then 1 else 0
  {
  }

  lemma Quotient400(y: int)
    ensures y / 400 == (y - 1) / 400 + if y % 400 == 0 then 1 else 0
  {
  }

  lemma Centuries(y: int)
    ensures y % 400 == 0 ==> y % 100 == 0
    ensures y % 100 == 0 ==> y % 4 == 0
  {
    if y % 400 == 0 {
      DivModUnique(y, 4 * (y / 400), 0, 100);
    }
    if y % 100 == 0 {
      DivModUnique(y, 25 * (y / 100), 0, 4);
    }
  }

  lemma YearLength(year: int)
    ensures DaysBeforeYear(year + 1) == DaysBeforeYear(year) + if Leap(year) then 366 else 365
  {
    Quotient4(year);
    Quotient100(year);
    Quotient400(year);
    Centuries(year);
  }

  /** The first of the next month is the day after the last of this one. */
  lemma MonthFollowsMonth(year: int, month: int)
    requires IsMonth(month)
    ensures var (y, m) := if month == 12 then (year + 1, 1) else (year, month + 1);
            DayNumber(y, m, 1) == DayNumber(year, month, GetMonthDays(month, year)) + 1
  {
    YearLength(year);
  }

  lemma WithinYear(year: int, month: int, mday: int)
    requires IsDate(year, month, mday)
    ensures 1 <= DaysBeforeMonth(month, year) + mday <= if Leap(year) then 366 else 365
  {
  }

  lemma {:induction false} YearsIncrease(a: int, b: int)
    requires a <= b
    ensures DaysBeforeYear(a) + 365 * (b - a) <= DaysBeforeYear(b)
    decreases b - a
  {
    if a < b {
      YearsIncrease(a, b - 1);
      YearLength(b - 1);
    }
  }

  /** Different dates have different day numbers: an earlier year, month or day has a smaller one. */
  lemma DayNumberIncreases(y1: int, m1: int, d1: int, y2: int, m2: int, d2: int)
    requires IsDate(y1, m1, d1) && IsDate(y2, m2, d2)
    requires y1 < y2 || (y1 == y2 && (m1 < m2 || (m1 == m2 && d1 < d2)))
    ensures DayNumber(y1, m1, d1) < DayNumber(y2, m2, d2)
  {
    if y1 < y2 {
      WithinYear(y1, m1, d1);
      WithinYear(y2, m2, d2);
      YearLength(y1);
      YearsIncrease(y1 + 1, y2);
    }
  }

  /** So a date is determined by its day number. */
  lemma DayNumberDetermines(y1: int, m1: int, d1: int, y2: int, m2: int, d2: int)
    requires IsDate(y1, m1, d1) && IsDate(y2, m2, d2) && DayNumber(y1, m1, d1) == DayNumber(y2, m2, d2)
    ensures y1 == y2 && m1 == m2 && d1 == d2
  {
    hide DayNumber, IsDate;
    if y1 < y2 || (y1 == y2 && (m1 < m2 || (m1 == m2 && d1 < d2))) {
      DayNumberIncreases(y1, m1, d1, y2, m2, d2);
    } else if y2 < y1 || (y2 == y1 && (m2 < m1 || (m2 == m1 && d2 < d1))) {
      DayNumberIncreases(y2, m2, d2, y1, m1, d1);
    }
  }

  /** Moving by `a` days and then by `b` is moving by `a + b`; moving back again undoes it. */
  lemma DaysCompose(y0: int, m0: int, d0: int, y1: int, m1: int, d1: int, y2: int, m2: int, d2: int,
                    y3: int, m3: int, d3: int, a: int, b: int)
    requires IsDate(y0, m0, d0) && IsDate(y1, m1, d1) && IsDate(y2, m2, d2) && IsDate(y3, m3, d3)
    requires DayNumber(y1, m1, d1) == DayNumber(y0, m0, d0) + a
    requires DayNumber(y2, m2, d2) == DayNumber(y1, m1, d1) + b
    requires DayNumber(y3, m3, d3) == DayNumber(y0, m0, d0) + (a + b)
    ensures (y2, m2, d2) == (y3, m3, d3)
    ensures a + b == 0 ==> (y2, m2, d2) == (y0, m0, d0)
  {
    hide DayNumber, IsDate;
    DayNumberDetermines(y2, m2, d2, y3, m3, d3);
    if a + b == 0 {
      DayNumberDetermines(y2, m2, d2, y0, m0, d0);
    }
  }

  /** 1900 was no leap year, 2000 was one. */
  lemma LeapYears()
    ensures !Leap(1900) && Leap(2000) && !Leap(2023) && Leap(2024)
  {
  }

  /** Known years of the Gregorian calendar, in days from 1 January of the year 1. */
  lemma KnownYears()
    ensures DaysBeforeYear(1) == 0 && DaysBeforeYear(1900) == 693595
    ensures DaysBeforeYear(1970) == 719162 && DaysBeforeYear(2000) == 730119
  {
  }

  /** The first days of the months of a leap year. */
  lemma KnownMonths(month: int)
    requires IsMonth(month)
    ensures DayNumber(2024, month, 1)
            == [738886, 738917, 738946, 738977, 739007, 739038,
                739068, 739099, 739130, 739160, 739191, 739221][month - 1]
    ensures DayNumber(2024, 12, 31) == 739251
  {
    assert Leap(2024) && DaysBeforeYear(2024) == 738885;
    hide Leap, DaysBeforeYear;
  }

  /** Within a month days count one by one. */
  lemma DayByDay(year: int, month: int, mday: int, n: int)
    requires IsMonth(month)
    ensures DayNumber(year, month, mday + n) == DayNumber(year, month, mday) + n
  {
  }

  lemma OneMonth(y: int, m: int, y': int, m': int)
    requires IsMonth(m) && IsMonth(m') && MonthNumber(y', m') == MonthNumber(y, m) + 1
    ensures (y', m') == if m == 12 then (y + 1, 1) else (y, m + 1)
  {
  }

  // ---------------------------------------------------------------- the operations

  method DateSubMonth(year: int, month: int, mday: int, sub: int) returns (y: int, m: int, d: int)
    requires IsMonth(month)
    ensures IsMonth(m) && MonthNumber(y, m) == MonthNumber(year, month) - sub
    ensures d == if mday > GetMonthDays(m, y) then GetMonthDays(m, y) else mday
    decreases sub < 0
  {
    if sub < 0 {
      y, m, d := DateAddMonth(year, month, mday, 0 - sub);
      return;
    }
    var borrow := 0;
    while (borrow * 12 + month) - sub <= 0
      invariant borrow >= 0 && borrow * 12 + month - sub <= 12
    {
      borrow := borrow + 1;
    }
    m := (borrow * 12 + month) - sub;
    y := year - borrow;
    d := mday;
    var last := GetMonthDays(m, y);
    if d > last {
      d := last;
    }
  }

  method DateAddMonth(year: int, month: int, mday: int, add: int) returns (y: int, m: int, d: int)
    requires IsMonth(month)
    ensures IsMonth(m) && MonthNumber(y, m) == MonthNumber(year, month) + add
    ensures d == if mday > GetMonthDays(m, y) then GetMonthDays(m, y) else mday
    decreases add < 0
  {
    if add < 0 {
      y, m, d := DateSubMonth(year, month, mday, 0 - add);
      return;
    }
    var left := add;
    y, m, d := year, month, mday;
    while m + left > 12
      invariant IsMonth(m) && left >= 0
      invariant MonthNumber(y, m) + left == MonthNumber(year, month) + add
      decreases left
    {
      left := left - (13 - m);
      m := 1;
      y := y + 1;
    }
    m := m + left;
    var last := GetMonthDays(m, y);
    if d > last {
      d := last;
    }
  }

  method DateAddDay(year: int, month: int, mday: int, add: int) returns (y: int, m: int, d: int)
    requires IsDate(year, month, mday)
    ensures IsDate(y, m, d) && DayNumber(y, m, d) == DayNumber(year, month, mday) + add
    decreases add < 0
  {
    if add < 0 {
      y, m, d := DateSubDay(year, month, mday, 0 - add);
      return;
    }
    hide DayNumber, Leap, MonthNumber;
    var left := add;
    y, m, d := year, month, mday;
    while d + left > GetMonthDays(m, y)
      invariant IsDate(y, m, d) && left >= 0
      invariant DayNumber(y, m, d) + left == DayNumber(year, month, mday) + add
      decreases left
    {
      MonthFollowsMonth(y, m);
      DayByDay(y, m, d, GetMonthDays(m, y) - d);
      ghost var y0, m0 := y, m;
      left := left - (GetMonthDays(m, y) - d + 1);
      d := 1;
      y, m, d := DateAddMonth(y, m, d, 1);
      OneMonth(y0, m0, y, m);
    }
    DayByDay(y, m, d, left);
    d := d + left;
  }

  method DateSubDay(year: int, month: int, mday: int, sub: int) returns (y: int, m: int, d: int)
    requires IsDate(year, month, mday)
    ensures IsDate(y, m, d) && DayNumber(y, m, d) == DayNumber(year, month, mday) - sub
    decreases sub < 0
  {
    if sub < 0 {
      y, m, d := DateAddDay(year, month, mday, 0 - sub);
      return;
    }
    hide DayNumber, Leap, MonthNumber;
    var left := sub;
    y, m, d := year, month, mday;
    while d - left <= 0
      invariant IsDate(y, m, d) && left >= 0
      invariant DayNumber(y, m, d) - left == DayNumber(year, month, mday) - sub
      decreases left
    {
      ghost var y0, m0, d0 := y, m, d;
      left := left - d;
      y, m, d := DateSubMonth(y, m, d, 1);
      OneMonth(y, m, y0, m0);
      MonthFollowsMonth(y, m);
      DayByDay(y0, m0, 1, d0 - 1);
      d := GetMonthDays(m, y);
    }
    DayByDay(y, m, d, -left);
    d := d - left;
  }
}
