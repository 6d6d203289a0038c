/** The calendar dates of a monthly series, batch by batch. */
module SeriesDates {
  import opened Gregorian
  import opened Recurrence
  import opened Series

  /** The first batch of a monthly series: occurrence i falls i months after the start, on the
      start day or the last day of a shorter month. */
  lemma FirstBatchDates(series: EventSeries, start: Moment, i: nat)
    requires series.rule == Monthly && i < |FirstBatch(series, Seconds(start))|
    ensures FirstBatch(series, Seconds(start))[i].at == Seconds(MonthsLater(start, start.date.day, i))
  {
    SecondsOfTime(start);
    FillFollowsRule(series, start.date.day, Seconds(start), 0, WINDOW, i);
    StepsFollowCalendar(start, Monthly, start.date.day, i);
    MonthlyClosedForm(start, start.date.day, i);
  }

  lemma StepDates(last: Moment, k: nat)
    ensures Steps(Monthly, last.date.day, Seconds(last), k)
            == Seconds(MonthsLater(last, last.date.day, k))
  {
    MonthlyClosedForm(last, last.date.day, k);
    hide *;
    StepsFollowCalendar(last, Monthly, last.date.day, k);
  }

  lemma DayIsPositive(t: Moment)
    ensures 1 <= t.date.day
  {
  }

  lemma NextBatchIsFilled(series: EventSeries, events: Events, now: int, last: Moment)
    requires Seconds(last) == LastDate(OfSeries(events, series.id), now) && NextBatch(series, events, now) != []
    ensures var mine, day := OfSeries(events, series.id), last.date.day;
            NextBatch(series, events, now)
            == Fill(series, day, Step(series.rule, day, Seconds(last)), |mine|, WINDOW - |Upcoming(mine, now)|)
  {
    SecondsOfTime(last);
    hide Step, Fill, FromSeconds, Seconds, LastDate;
  }

  /** A later batch steps on from the last stored occurrence, whatever the rule. */
  lemma NextBatchFollowsRule(series: EventSeries, events: Events, now: int, last: Moment, i: nat)
    requires Seconds(last) == LastDate(OfSeries(events, series.id), now)
    requires i < |NextBatch(series, events, now)|
    ensures NextBatch(series, events, now)[i].at == Steps(series.rule, last.date.day, Seconds(last), i + 1)
  {
    hide *;
    DayIsPositive(last);
    NextBatchIsFilled(series, events, now, last);
    var mine := OfSeries(events, series.id);
    var day, at, k := last.date.day, Seconds(last), WINDOW - |Upcoming(mine, now)|;
    FillFollowsRule(series, day, Step(series.rule, day, at), |mine|, k, i);
    StepsFromNext(series.rule, day, at, i);
  }

  /** A later batch counts months from the last stored occurrence and keeps that one's day, which
      may already be clamped. */
  lemma NextBatchDates(series: EventSeries, events: Events, now: int, last: Moment, i: nat)
    requires series.rule == Monthly && i < |NextBatch(series, events, now)|
    requires Seconds(last) == LastDate(OfSeries(events, series.id), now)
    ensures NextBatch(series, events, now)[i].at == Seconds(MonthsLater(last, last.date.day, i + 1))
  {
    hide *;
    NextBatchFollowsRule(series, events, now, last, i);
    StepDates(last, i + 1);
  }

  // ---------- whole runs ----------

  /** Month after month from the start: at the start's time of day, on its day or an earlier one but
      never before the 28th if the start is not. */
  ghost predicate MonthsOf(start: Moment, at: int, i: int) {
    var t := FromSeconds(at);
    MonthIndex(t.date) == MonthIndex(start.date) + i && Min(start.date.day, 28) <= t.date.day <= start.date.day && t.second == start.second
  }

  ghost predicate MonthByMonthFrom(start: Moment, mine: Events) {
    forall i :: 0 <= i < |mine| ==> MonthsOf(start, mine[i].at, i)
  }

  /** Stepping on from a date of the run, whatever day it has been clamped to. */
  lemma LaterMonths(start: Moment, last: Moment, n: int, k: nat)
    requires MonthsOf(start, Seconds(last), n)
    ensures MonthsOf(start, Seconds(MonthsLater(last, last.date.day, k)), n + k)
  {
    SecondsOfTime(last);
    SecondsOfTime(MonthsLater(last, last.date.day, k));
    var d := ClampedDate(MonthIndex(last.date) + k, last.date.day);
    assert DaysInMonth(d.year, d.month) >= 28;
    hide FromSeconds, Seconds, DaysInMonth, ClampedDate, MonthIndex;
  }

  lemma StartIsItsMonth(start: Moment)
    ensures MonthsOf(start, Seconds(start), 0)
  {
    SecondsOfTime(start);
  }

  lemma FirstBatchMonths(series: EventSeries, start: Moment)
    requires series.rule == Monthly
    ensures MonthByMonthFrom(start, FirstBatch(series, Seconds(start)))
  {
    hide FirstBatch, Seconds, MonthsOf;
    StartIsItsMonth(start);
    forall i | 0 <= i < |FirstBatch(series, Seconds(start))| ensures MonthsOf(start, FirstBatch(series, Seconds(start))[i].at, i) {
      FirstBatchDates(series, start, i);
      LaterMonths(start, start, 0, i);
    }
  }

  lemma NextBatchMonths(series: EventSeries, events: Events, now: int, start: Moment)
    requires series.rule == Monthly && WellFormed(series, OfSeries(events, series.id), 0) && OfSeries(events, series.id) != []
    requires MonthByMonthFrom(start, OfSeries(events, series.id))
    ensures MonthByMonthFrom(start, OfSeries(events, series.id) + NextBatch(series, events, now))
  {
    hide NextBatch, Seconds, FromSeconds, MonthsOf, OfSeries, LastDate, WellFormed, MonthsLater;
    var mine, batch := OfSeries(events, series.id), NextBatch(series, events, now);
    var n := |mine|;
    var last := FromSeconds(mine[n - 1].at);
    LastDateIsLast(series, mine, now);
    TimeOfSeconds(mine[n - 1].at);
    forall i | 0 <= i < |batch| ensures MonthsOf(start, batch[i].at, n + i) {
      NextBatchDates(series, events, now, last, i);
      LaterMonths(start, last, n - 1, i + 1);
      assert n - 1 + (i + 1) == n + i;
    }
    forall i | 0 <= i < |mine + batch| ensures MonthsOf(start, (mine + batch)[i].at, i) {
      if i >= n { assert (mine + batch)[i] == batch[i - n] && n + (i - n) == i; }
    }
  }

  lemma {:induction false} RunKeepsMonths(series: EventSeries, events: Events, ops: seq<Operation>, start: Moment)
    requires series.rule == Monthly && WellFormed(series, OfSeries(events, series.id), 0) && OfSeries(events, series.id) != []
    requires MonthByMonthFrom(start, OfSeries(events, series.id))
    requires forall i :: 0 <= i < |ops| ==> LeavesSeries(series, ops[i])
    ensures MonthByMonthFrom(start, OfSeries(Run(series, events, ops), series.id))
    decreases |ops|
  {
    hide MonthByMonthFrom, WellFormed, OfSeries, NextBatch;
    if ops != [] {
      var op := ops[0];
      assert LeavesSeries(series, op);
      if op.Generate? {
        GenerateKeepsSeries(series, events, op.now);
        NextBatchMonths(series, events, op.now, start);
      } else {
        OfSeriesConcat(events, op.others, series.id);
        OfSeriesKeepsOwn(op.others, series.id);
        assert OfSeries(events, series.id) + [] == OfSeries(events, series.id);
      }
      RunKeepsMonths(series, After(series, events, op), ops[1..], start);
    }
  }

  /** Over every run of a monthly series whose first batch is not empty, occurrence i lies i months
      after the start: no month is skipped or used twice, whatever days were clamped on the way. */
  lemma MonthlyRun(series: EventSeries, events: Events, start: Moment, ops: seq<Operation>)
    requires series.rule == Monthly && OfSeries(events, series.id) == [] && FirstBatch(series, Seconds(start)) != []
    requires forall i :: 0 <= i < |ops| ==> LeavesSeries(series, ops[i])
    ensures MonthByMonthFrom(start, OfSeries(Run(series, events + FirstBatch(series, Seconds(start)), ops), series.id))
  {
    hide FirstBatch, Seconds, MonthByMonthFrom, WellFormed, OfSeries, Run;
    CreateStartsSeries(series, events, Seconds(start));
    FirstBatchMonths(series, start);
    RunKeepsMonths(series, events + FirstBatch(series, Seconds(start)), ops, start);
  }
}
