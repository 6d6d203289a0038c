/**
 The proleptic Gregorian calendar and times of day in UTC, as Go's time package and
 JavaScript's Date use them.  Day 0 is 1 January of year 0.
 */
module Gregorian {

  datatype Date = Date(year: int, month: int, day: int)

  predicate IsLeap(y: int) {
    y % 4 == 0 && (y % 100 != 0 || y % 400 == 0)
  }

  function DaysInMonth(y: int, m: int): (n: int)
    requires 1 <= m <= 12
    ensures 28 <= n <= 31
  {
    if m == 2 then (if IsLeap(y) then 29 else 28)
    else if m == 4 || m == 6 || m == 9 || m == 11 then 30
    else 31
  }

  predicate IsDate(d: Date) {
    1 <= d.month <= 12 && 1 <= d.day <= DaysInMonth(d.year, d.month)
  }

  // ---------- day numbers ----------

  function DaysInYear(y: int): int {
    if IsLeap(y) then 366 else 365
  }

  /** Days from day 0 to 1 January of year y. */
  function DaysBeforeYear(y: int): int
    decreases if y < 0 then -y else y
  {
    if y == 0 then 0
    else if y > 0 then DaysBeforeYear(y - 1) + DaysInYear(y - 1)
    else DaysBeforeYear(y + 1) - DaysInYear(y)
  }

  function DaysBeforeMonth(y: int, m: int): int
    requires 1 <= m <= 12
  {
    if m == 1 then 0 else DaysBeforeMonth(y, m - 1) + DaysInMonth(y, m - 1)
  }

  function DayNumber(d: Date): int
    requires IsDate(d)
  {
    DaysBeforeYear(d.year) + DaysBeforeMonth(d.year, d.month) + d.day - 1
  }

  lemma YearLength(y: int)
    ensures DaysBeforeYear(y + 1) == DaysBeforeYear(y) + DaysInYear(y)
  {
  }

  lemma MonthsOfYear(y: int)
    ensures DaysBeforeMonth(y, 12) + 31 == DaysInYear(y)
  {
    assert DaysBeforeMonth(y, 2) == DaysBeforeMonth(y, 1) + 31;
    assert DaysBeforeMonth(y, 3) == DaysBeforeMonth(y, 2) + DaysInMonth(y, 2);
    assert DaysBeforeMonth(y, 4) == DaysBeforeMonth(y, 3) + 31;
    assert DaysBeforeMonth(y, 5) == DaysBeforeMonth(y, 4) + 30;
    assert DaysBeforeMonth(y, 6) == DaysBeforeMonth(y, 5) + 31;
    assert DaysBeforeMonth(y, 7) == DaysBeforeMonth(y, 6) + 30;
    assert DaysBeforeMonth(y, 8) == DaysBeforeMonth(y, 7) + 31;
    assert DaysBeforeMonth(y, 9) == DaysBeforeMonth(y, 8) + 31;
    assert DaysBeforeMonth(y, 10) == DaysBeforeMonth(y, 9) + 30;
    assert DaysBeforeMonth(y, 11) == DaysBeforeMonth(y, 10) + 31;
    assert DaysBeforeMonth(y, 12) == DaysBeforeMonth(y, 11) + 30;
  }

  // ---------- closed form ----------

  lemma Fourths(y: int)
    ensures (y + 4) / 4 == (y + 3) / 4 + if y % 4 == 0 then 1 else 0
  {
  }

  lemma Centuries(y: int)
    ensures (y + 100) / 100 == (y + 99) / 100 + if y % 100 == 0 then 1 else 0
  {
  }

  lemma FourCenturies(y: int)
    ensures (y + 400) / 400 == (y + 399) / 400 + if y % 400 == 0 then 1 else 0
  {
  }

  lemma CenturiesAreFourths(y: int)
    requires y % 100 == 0
    ensures y % 4 == 0
  {
    assert y == 4 * (25 * (y / 100));
  }

  lemma FourCenturiesAreCenturies(y: int)
    requires y % 400 == 0
    ensures y % 100 == 0
  {
    assert y == 100 * (4 * (y / 400));
  }

  /** Leap years are the multiples of 4 that are no multiples of 100 unless of 400, before year 0 too. */
  lemma {:induction false} YearsInClosedForm(y: int)
    ensures DaysBeforeYear(y) == 365 * y + (y + 3) / 4 - (y + 99) / 100 + (y + 399) / 400
    decreases if y < 0 then -y else y
  {
    if y > 0 {
      YearsInClosedForm(y - 1);
      LeapDays(y - 1);
    } else if y < 0 {
      YearsInClosedForm(y + 1);
      LeapDays(y);
    }
  }

  lemma LeapDays(y: int)
    ensures (y + 4) / 4 - (y + 100) / 100 + (y + 400) / 400
            == (y + 3) / 4 - (y + 99) / 100 + (y + 399) / 400 + DaysInYear(y) - 365
  {
    Fourths(y);
    Centuries(y);
    FourCenturies(y);
    if y % 100 == 0 { CenturiesAreFourths(y); }
    if y % 400 == 0 { FourCenturiesAreCenturies(y); }
    LeapYearLength(y, y % 4 == 0, y % 100 == 0, y % 400 == 0);
  }

  lemma LeapYearLength(y: int, by4: bool, by100: bool, by400: bool)
    requires by4 == (y % 4 == 0) && by100 == (y % 100 == 0) && by400 == (y % 400 == 0) && (by100 ==> by4) && (by400 ==> by100)
    ensures DaysInYear(y) == 365 + (if by4 then 1 else 0) - (if by100 then 1 else 0) + if by400 then 1 else 0
  {
  }

  lemma DaysOfMonths(y: int, m: int)
    requires 1 <= m <= 12
    ensures DaysBeforeMonth(y, m)
            == [0, 31, 59, 90, 120, 151, 181, 212, 243, 273, 304, 334][m - 1]
               + if m > 2 && ((y % 4 == 0 && y % 100 != 0) || y % 400 == 0) then 1 else 0
  {
    MonthsOfYear(y);
    if m > 2 { DaysOfMonths(y, m - 1); }
  }

  // ---------- the next month ----------

  function MonthAfter(y: int, m: int): (int, int)
    requires 1 <= m <= 12
  {
    if m == 12 then (y + 1, 1) else (y, m + 1)
  }

  lemma FirstOfNextMonth(y: int, m: int)
    requires 1 <= m <= 12
    ensures var (y', m') := MonthAfter(y, m);
            DayNumber(Date(y', m', 1)) == DayNumber(Date(y, m, 1)) + DaysInMonth(y, m)
  {
    if m == 12 {
      YearLength(y);
      MonthsOfYear(y);
    }
  }

  function NextDay(d: Date): (next: Date)
    requires IsDate(d)
    ensures IsDate(next)
  {
    if d.day < DaysInMonth(d.year, d.month) then d.(day := d.day + 1)
    else var (y, m) := MonthAfter(d.year, d.month); Date(y, m, 1)
  }

  function PreviousDay(d: Date): (previous: Date)
    requires IsDate(d)
    ensures IsDate(previous)
  {
    if d.day > 1 then d.(day := d.day - 1)
    else
      var y, m := if d.month == 1 then d.year - 1 else d.year, if d.month == 1 then 12 else d.month - 1;
      Date(y, m, DaysInMonth(y, m))
  }

  lemma NextDayNumber(d: Date)
    requires IsDate(d)
    ensures DayNumber(NextDay(d)) == DayNumber(d) + 1
  {
    FirstOfNextMonth(d.year, d.month);
  }

  lemma PreviousDayNumber(d: Date)
    requires IsDate(d)
    ensures DayNumber(PreviousDay(d)) == DayNumber(d) - 1
  {
    var p := PreviousDay(d);
    FirstOfNextMonth(p.year, p.month);
  }

  // ---------- dates from day numbers ----------

  function FromDayNumber(n: int): (d: Date)
    ensures IsDate(d)
    decreases if n < 0 then -n else n
  {
    if n == 0 then Date(0, 1, 1)
    else if n > 0 then NextDay(FromDayNumber(n - 1))
    else PreviousDay(FromDayNumber(n + 1))
  }

  lemma NeighbouringDays(n: int)
    ensures n == 0 ==> DayNumber(FromDayNumber(n)) == 0
    ensures n > 0 ==> FromDayNumber(n) == NextDay(FromDayNumber(n - 1))
    ensures n < 0 ==> FromDayNumber(n) == PreviousDay(FromDayNumber(n + 1))
  {
  }

  lemma {:induction false} DayNumberOfDate(n: int)
    ensures DayNumber(FromDayNumber(n)) == n
    decreases if n < 0 then -n else n
  {
    NeighbouringDays(n);
    hide *;
    if n > 0 {
      DayNumberOfDate(n - 1);
      NextDayNumber(FromDayNumber(n - 1));
    } else if n < 0 {
      DayNumberOfDate(n + 1);
      PreviousDayNumber(FromDayNumber(n + 1));
    }
  }

  predicate Earlier(a: Date, b: Date) {
    a.year < b.year || (a.year == b.year && (a.month < b.month || (a.month == b.month && a.day < b.day)))
  }

  lemma {:induction false} MonthsAreApart(y: int, m: int, m': int)
    requires 1 <= m < m' <= 12
    ensures DaysBeforeMonth(y, m) + DaysInMonth(y, m) <= DaysBeforeMonth(y, m')
  {
    if m + 1 < m' { MonthsAreApart(y, m, m' - 1); }
  }

  lemma {:induction false} YearsAreApart(y: int, y': int)
    requires y <= y'
    ensures DaysBeforeYear(y) + 365 * (y' - y) <= DaysBeforeYear(y')
    decreases y' - y
  {
    if y < y' {
      YearsAreApart(y, y' - 1);
      YearLength(y' - 1);
    }
  }

  lemma DayInYear(d: Date)
    requires IsDate(d)
    ensures DaysBeforeYear(d.year) <= DayNumber(d) < DaysBeforeYear(d.year + 1)
  {
    YearLength(d.year);
    MonthsOfYear(d.year);
    if d.month < 12 { MonthsAreApart(d.year, d.month, 12); }
    if d.month > 1 { MonthsAreApart(d.year, 1, d.month); }
  }

  lemma DayNumberIsMonotone(a: Date, b: Date)
    requires IsDate(a) && IsDate(b) && Earlier(a, b)
    ensures DayNumber(a) < DayNumber(b)
  {
    if a.year < b.year {
      DayInYear(a);
      DayInYear(b);
      YearsAreApart(a.year + 1, b.year);
    } else if a.month < b.month {
      MonthsAreApart(a.year, a.month, b.month);
    }
  }

  /** Dates and day numbers are two names for the same days. */
  lemma DateOfDayNumber(d: Date)
    requires IsDate(d)
    ensures FromDayNumber(DayNumber(d)) == d
  {
    var e := FromDayNumber(DayNumber(d));
    DayNumberOfDate(DayNumber(d));
    if Earlier(d, e) { DayNumberIsMonotone(d, e); }
    if Earlier(e, d) { DayNumberIsMonotone(e, d); }
  }

  // ---------- times ----------

  const DAY := 86400

  lemma DaysAndSeconds(n: int)
    ensures n / DAY * DAY + n % DAY == n
  {
  }

  /** A UTC time of whole seconds. */
  datatype Time = Time(date: Date, second: int)

  type Moment = t: Time | IsDate(t.date) && 0 <= t.second < DAY witness Time(Date(0, 1, 1), 0)

  function Seconds(t: Moment): int {
    DayNumber(t.date) * DAY + t.second
  }

  /** Midnight of a day plus some seconds. */
  function OnDay(days: int, second: int): Moment
    requires 0 <= second < DAY
  {
    Time(FromDayNumber(days), second)
  }

  function FromSeconds(n: int): Moment {
    OnDay(n / DAY, n % DAY)
  }

  lemma SecondsOnDay(days: int, second: int)
    requires 0 <= second < DAY
    ensures Seconds(OnDay(days, second)) == days * DAY + second
  {
    DayNumberOfDate(days);
  }

  lemma TimeOfSeconds(n: int)
    ensures Seconds(FromSeconds(n)) == n
  {
    SecondsOnDay(n / DAY, n % DAY);
    DaysAndSeconds(n);
  }

  lemma SplitDay(days: int, second: int)
    requires 0 <= second < DAY
    ensures (days * DAY + second) / DAY == days && (days * DAY + second) % DAY == second
  {
  }

  lemma SecondsOfTime(t: Moment)
    ensures FromSeconds(Seconds(t)) == t
  {
    SplitDay(DayNumber(t.date), t.second);
    DateOfDayNumber(t.date);
  }
}
