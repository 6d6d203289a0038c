/**
 calculateNextOccurrence of internal/event/series_service.go: weekly, biweekly and monthly
 recurrence with the day of the month clamped.  Event times are stored in UTC.
 */
module Recurrence {
  import opened Gregorian

  datatype Rule = Weekly | Biweekly | Monthly

  function AddDays(t: Moment, days: int): Moment {
    Time(FromDayNumber(DayNumber(t.date) + days), t.second)
  }

  /** The day of the month of "day 0 of the following month". */
  function LastDay(y: int, m: int): int
    requires 1 <= m <= 12
  {
    var (y', m') := MonthAfter(y, m);
    FromDayNumber(DayNumber(Date(y', m', 1)) - 1).day
  }

  lemma LastDayIsMonthLength(y: int, m: int)
    requires 1 <= m <= 12
    ensures LastDay(y, m) == DaysInMonth(y, m)
  {
    var (y', m') := MonthAfter(y, m);
    FirstOfNextMonth(y, m);
    DateOfDayNumber(Date(y, m, DaysInMonth(y, m)));
  }

  function Min(a: int, b: int): int {
    if b < a then b else a
  }

  function NextOccurrence(from: Moment, rule: Rule, originalDay: int): Moment
    requires 1 <= originalDay
  {
    match rule
    case Weekly => AddDays(from, 7)
    case Biweekly => AddDays(from, 14)
    case Monthly =>
      var (y, m) := MonthAfter(from.date.year, from.date.month);
      LastDayIsMonthLength(y, m);
      Time(Date(y, m, Min(originalDay, LastDay(y, m))), from.second)
  }

  // ---------- the monthly rule in closed form ----------

  /** Months since January of year 0. */
  function MonthIndex(d: Date): int
    requires IsDate(d)
  {
    12 * d.year + d.month - 1
  }

  /** The given day of a month, or the last day of a shorter month. */
  function ClampedDate(monthIndex: int, day: int): (d: Date)
    requires 1 <= day
    ensures IsDate(d) && MonthIndex(d) == monthIndex
    ensures d.day == Min(day, DaysInMonth(d.year, d.month))
  {
    var y, m := monthIndex / 12, monthIndex % 12 + 1;
    Date(y, m, Min(day, DaysInMonth(y, m)))
  }

  /** k months after `from`, on the given day or the last day of a shorter month, at the same
      time of day. */
  function MonthsLater(from: Moment, day: int, k: int): Moment
    requires 1 <= day
  {
    Time(ClampedDate(MonthIndex(from.date) + k, day), from.second)
  }

  lemma SameMonth(d: Date, e: Date)
    requires IsDate(d) && IsDate(e) && MonthIndex(d) == MonthIndex(e)
    ensures d.year == e.year && d.month == e.month
  {
  }

  function Iterate(from: Moment, rule: Rule, originalDay: int, k: nat): Moment
    requires 1 <= originalDay
  {
    if k == 0 then from else NextOccurrence(Iterate(from, rule, originalDay, k - 1), rule, originalDay)
  }

  lemma NextMonthIndex(from: Moment, originalDay: int)
    requires 1 <= originalDay
    ensures var next := NextOccurrence(from, Monthly, originalDay);
            next == MonthsLater(from, originalDay, 1)
  {
    var next := NextOccurrence(from, Monthly, originalDay);
    LastDayIsMonthLength(next.date.year, next.date.month);
    assert MonthIndex(next.date) == MonthIndex(from.date) + 1;
    SameMonth(next.date, ClampedDate(MonthIndex(from.date) + 1, originalDay));
  }

  lemma NoMonthsLater(from: Moment, day: int)
    requires 1 <= day && from.date.day == Min(day, DaysInMonth(from.date.year, from.date.month))
    ensures MonthsLater(from, day, 0) == from
  {
  }

  lemma MonthByMonth(from: Moment, day: int, k: int)
    requires 1 <= day
    ensures MonthsLater(MonthsLater(from, day, k - 1), day, 1) == MonthsLater(from, day, k)
  {
  }

  /** k monthly steps lead to the month k later. */
  lemma {:induction false} MonthlyClosedForm(from: Moment, originalDay: int, k: nat)
    requires 1 <= originalDay
    requires from.date.day == Min(originalDay, DaysInMonth(from.date.year, from.date.month))
    ensures Iterate(from, Monthly, originalDay, k) == MonthsLater(from, originalDay, k)
  {
    if k == 0 {
      NoMonthsLater(from, originalDay);
    } else {
      MonthByMonth(from, originalDay, k);
      hide *;
      MonthlyClosedForm(from, originalDay, k - 1);
      NextMonthIndex(Iterate(from, Monthly, originalDay, k - 1), originalDay);
    }
  }

  /** Weekly and biweekly steps are 7 and 14 days; a monthly step from a clamped date is 28 to
      31 days.  Every step therefore moves strictly forward. */
  lemma StepLength(from: Moment, rule: Rule, originalDay: int)
    requires 1 <= originalDay
    requires rule == Monthly ==> from.date.day == Min(originalDay, DaysInMonth(from.date.year, from.date.month))
    ensures var next := NextOccurrence(from, rule, originalDay);
            var days := DayNumber(next.date) - DayNumber(from.date);
            && next.second == from.second
            && (rule == Weekly ==> days == 7) && (rule == Biweekly ==> days == 14)
            && (rule == Monthly ==> 28 <= days <= 31 && next.date.day == Min(originalDay, DaysInMonth(next.date.year, next.date.month)))
            && Seconds(next) - Seconds(from) == days * DAY > 0
  {
    hide DayNumber, FromDayNumber;
    match rule
    case Weekly => DayNumberOfDate(DayNumber(from.date) + 7);
    case Biweekly => DayNumberOfDate(DayNumber(from.date) + 14);
    case Monthly => MonthlyStepLength(from, originalDay);
  }

  lemma MonthlyStepLength(from: Moment, originalDay: int)
    requires 1 <= originalDay
    requires from.date.day == Min(originalDay, DaysInMonth(from.date.year, from.date.month))
    ensures var next := NextOccurrence(from, Monthly, originalDay);
            && 28 <= DayNumber(next.date) - DayNumber(from.date) <= 31
            && next.date.day == Min(originalDay, DaysInMonth(next.date.year, next.date.month))
  {
    var d := from.date;
    var next := NextOccurrence(from, Monthly, originalDay).date;
    LastDayIsMonthLength(next.year, next.month);
    FirstOfNextMonth(d.year, d.month);
    assert DayNumber(next) == DayNumber(Date(next.year, next.month, 1)) + next.day - 1;
    assert DayNumber(d) == DayNumber(Date(d.year, d.month, 1)) + d.day - 1;
    ShortMonthBetweenLongOnes(d.year, d.month);
  }

  /** A month shorter than 31 days is followed by one of 31, and only January and February
      differ by more than one day. */
  lemma ShortMonthBetweenLongOnes(y: int, m: int)
    requires 1 <= m <= 12
    ensures var (y', m') := MonthAfter(y, m);
            (DaysInMonth(y, m) < 31 ==> DaysInMonth(y', m') == 31)
            && DaysInMonth(y, m) - DaysInMonth(y', m') <= 3
  {
  }

  // ---------- stepping on stored instants ----------

  /** The day of the month of an instant. */
  function DayOfMonth(at: int): (day: int)
    ensures 1 <= day <= 31
  {
    FromSeconds(at).date.day
  }

  /** One step of a rule on the stored instant. */
  function Step(rule: Rule, originalDay: int, at: int): int
    requires 1 <= originalDay
  {
    Seconds(NextOccurrence(FromSeconds(at), rule, originalDay))
  }

  lemma LaterDayIsLater(a: Moment, b: Moment)
    requires DayNumber(a.date) < DayNumber(b.date) && a.second == b.second
    ensures Seconds(a) < Seconds(b)
  {
  }

  lemma MonthlyMovesForward(d: Date, originalDay: int)
    requires IsDate(d) && 1 <= originalDay
    ensures DayNumber(d) < DayNumber(NextOccurrence(Time(d, 0), Monthly, originalDay).date)
  {
    var next := NextOccurrence(Time(d, 0), Monthly, originalDay).date;
    LastDayIsMonthLength(next.year, next.month);
    FirstOfNextMonth(d.year, d.month);
    assert DayNumber(next) == DayNumber(Date(next.year, next.month, 1)) + next.day - 1;
    assert DayNumber(d) == DayNumber(Date(d.year, d.month, 1)) + d.day - 1;
  }

  lemma OccurrenceIsLater(from: Moment, rule: Rule, originalDay: int)
    requires 1 <= originalDay
    ensures Seconds(from) < Seconds(NextOccurrence(from, rule, originalDay))
  {
    hide DayNumber, FromDayNumber;
    var next := NextOccurrence(from, rule, originalDay);
    match rule
    case Weekly => DayNumberOfDate(DayNumber(from.date) + 7);
    case Biweekly => DayNumberOfDate(DayNumber(from.date) + 14);
    case Monthly => MonthlyMovesForward(from.date, originalDay); assert next.date == NextOccurrence(Time(from.date, 0), Monthly, originalDay).date;
    LaterDayIsLater(from, next);
  }

  /** A step leads strictly forward, from any instant. */
  lemma StepAdvances(rule: Rule, originalDay: int, at: int)
    requires 1 <= originalDay
    ensures at < Step(rule, originalDay, at)
  {
    OccurrenceIsLater(FromSeconds(at), rule, originalDay);
    TimeOfSeconds(at);
  }

  function Steps(rule: Rule, originalDay: int, at: int, k: nat): int
    requires 1 <= originalDay
  {
    if k == 0 then at else Step(rule, originalDay, Steps(rule, originalDay, at, k - 1))
  }

  lemma {:induction false} StepsFromNext(rule: Rule, originalDay: int, at: int, k: nat)
    requires 1 <= originalDay
    ensures Steps(rule, originalDay, Step(rule, originalDay, at), k) == Steps(rule, originalDay, at, k + 1)
  {
    hide Step;
    if k > 0 {
      StepsFromNext(rule, originalDay, at, k - 1);
    } else {
      assert Steps(rule, originalDay, at, 0) == at;
    }
  }

  /** Stepping on instants is stepping on calendar dates. */
  lemma {:induction false} StepsFollowCalendar(from: Moment, rule: Rule, originalDay: int, k: nat)
    requires 1 <= originalDay
    ensures Steps(rule, originalDay, Seconds(from), k) == Seconds(Iterate(from, rule, originalDay, k))
  {
    hide NextOccurrence, Seconds, FromSeconds;
    if k > 0 {
      StepsFollowCalendar(from, rule, originalDay, k - 1);
      SecondsOfTime(Iterate(from, rule, originalDay, k - 1));
    }
  }

  // ---------- drift between batches ----------

  /** A generator call restarts from the day of the last stored date.  Its first new date is the
      one the original day calls for exactly when the original day exists in the month of the
      last stored date; after a clamped date the series stays on the clamped day. */
  lemma RestartKeepsDayExactly(last: Moment, originalDay: int)
    requires 1 <= originalDay <= 31
    requires last.date.day == Min(originalDay, DaysInMonth(last.date.year, last.date.month))
    ensures NextOccurrence(last, Monthly, last.date.day) == MonthsLater(last, originalDay, 1)
            <==> originalDay <= DaysInMonth(last.date.year, last.date.month)
  {
    NextMonthIndex(last, originalDay);
    NextMonthIndex(last, last.date.day);
    var (y, m) := MonthAfter(last.date.year, last.date.month);
    var next := ClampedDate(MonthIndex(last.date) + 1, originalDay);
    assert MonthIndex(Date(y, m, 1)) == MonthIndex(last.date) + 1;
    SameMonth(Date(y, m, 1), next);
    SameMonth(Date(y, m, 1), ClampedDate(MonthIndex(last.date) + 1, last.date.day));
    ShortMonthBetweenLongOnes(last.date.year, last.date.month);
  }

  /** A series that starts on 31 January: after the first batch of four ends on 30 April, the
      next call continues on 30 May. */
  lemma DriftExample()
    ensures var first := Time(Date(2026, 1, 31), 0);
            var last := Iterate(first, Monthly, 31, 3);
            last.date == Date(2026, 4, 30)
            && NextOccurrence(last, Monthly, last.date.day).date == Date(2026, 5, 30)
            && Iterate(first, Monthly, 31, 4).date == Date(2026, 5, 31)
  {
    var first := Time(Date(2026, 1, 31), 0);
    MonthlyClosedForm(first, 31, 3);
    MonthlyClosedForm(first, 31, 4);
    NextMonthIndex(Iterate(first, Monthly, 31, 3), 30);
  }
}
