/**
 Recurring event series: the generators of internal/event/series_service.go and the event
 queries of internal/event/store.go they read.  Times are whole seconds in UTC.
 */
module Series {
  import opened Wrappers
  import opened Recurrence

  datatype Status = Draft | Published | Cancelled | Archived

  datatype EventSeries = EventSeries(id: int, rule: Rule, recurrenceEnd: Option<int>, maxOccurrences: Option<int>,
                                     active: bool, durationMinutes: Option<int>, deadlineHours: Option<int>, maxCapacity: Option<int>)

  datatype Event = Event(seriesId: Option<int>, index: int, at: int, endsAt: Option<int>, deadline: Option<int>,
                         status: Status, maxCapacity: Option<int>, waitlistEnabled: bool)

  type Events = seq<Event>

  const WINDOW := 4

  function BuildOccurrence(series: EventSeries, at: int, index: int): (ev: Event)
    ensures ev.seriesId == Some(series.id) && ev.at == at && ev.index == index && ev.status == Published
    ensures ev.endsAt.Some? <==> series.durationMinutes.Some? && series.durationMinutes.value > 0
    ensures ev.endsAt.Some? ==> ev.endsAt.value - at == 60 * series.durationMinutes.value > 0
    ensures ev.deadline.Some? <==> series.deadlineHours.Some? && series.deadlineHours.value > 0
    ensures ev.deadline.Some? ==> at - ev.deadline.value == 3600 * series.deadlineHours.value > 0
    ensures ev.maxCapacity == series.maxCapacity && (ev.waitlistEnabled <==> ev.maxCapacity.Some?)
  {
    Event(Some(series.id), index, at,
          if series.durationMinutes.Some? && series.durationMinutes.value > 0 then Some(at + 60 * series.durationMinutes.value) else None,
          if series.deadlineHours.Some? && series.deadlineHours.value > 0 then Some(at - 3600 * series.deadlineHours.value) else None,
          Published, series.maxCapacity, series.maxCapacity.Some?)
  }

  // ---------- queries ----------

  /** WHERE series_id = ? */
  function OfSeries(events: Events, id: int): Events {
    if events == [] then []
    else (if events[0].seriesId == Some(id) then [events[0]] else []) + OfSeries(events[1..], id)
  }

  predicate Live(ev: Event, now: int) {
    ev.at > now && ev.status != Cancelled && ev.status != Archived
  }

  /** ... AND event_date > ? AND status not cancelled or archived */
  function Upcoming(events: Events, now: int): Events {
    if events == [] then []
    else (if Live(events[0], now) then [events[0]] else []) + Upcoming(events[1..], now)
  }

  /** The date in the last row of ORDER BY event_date ASC. */
  function Latest(events: Events): int
    requires events != []
  {
    if |events| == 1 then events[0].at
    else if events[0].at > Latest(events[1..]) then events[0].at
    else Latest(events[1..])
  }

  // ---------- the batches ----------

  predicate ReachedMaximum(series: EventSeries, total: int) {
    series.maxOccurrences.Some? && total >= series.maxOccurrences.value
  }

  predicate PastEnd(series: EventSeries, at: int) {
    series.recurrenceEnd.Some? && at > series.recurrenceEnd.value
  }

  /** Up to k occurrences from `at` on, numbered after total, stopping at either limit. */
  function Fill(series: EventSeries, day: int, at: int, total: int, k: int): Events
    requires 1 <= day
    decreases k
  {
    if k <= 0 || ReachedMaximum(series, total) || PastEnd(series, at) then []
    else [BuildOccurrence(series, at, total + 1)] + Fill(series, day, Step(series.rule, day, at), total + 1, k - 1)
  }

  /** One turn of the generators' loops. */
  lemma FillInSteps(series: EventSeries, day: int, at: int, total: int, k: int, before: Events)
    requires 1 <= day
    ensures var stops := k <= 0 || ReachedMaximum(series, total) || PastEnd(series, at);
            before + Fill(series, day, at, total, k)
            == if stops then before
               else before + [BuildOccurrence(series, at, total + 1)] + Fill(series, day, Step(series.rule, day, at), total + 1, k - 1)
  {
  }

  /** The first batch: the day of the start date is the original day. */
  function FirstBatch(series: EventSeries, start: int): Events {
    Fill(series, DayOfMonth(start), start, 0, WINDOW)
  }

  /** Where a generator call continues from. */
  function LastDate(mine: Events, now: int): int {
    if Upcoming(mine, now) != [] then Latest(Upcoming(mine, now))
    else if mine != [] then Latest(mine)
    else now
  }

  /** The batch of one generator call: the day of the last stored date is the original day. */
  function NextBatch(series: EventSeries, events: Events, now: int): Events {
    if !series.active then []
    else
      var mine := OfSeries(events, series.id);
      var last := LastDate(mine, now);
      var day := DayOfMonth(last);
      Fill(series, day, Step(series.rule, day, last), |mine|, WINDOW - |Upcoming(mine, now)|)
  }

  class SeriesService {
    var events: Events

    constructor ()
      ensures events == []
    {
      events := [];
    }

    method GenerateInitialOccurrences(series: EventSeries, firstDate: int)
      modifies this
      ensures events == old(events) + FirstBatch(series, firstDate)
    {
      hide Step, DayOfMonth;
      var needed := WINDOW;
      var currentDate := firstDate;
      var originalDay := DayOfMonth(firstDate);
      var i := 0;
      while i < needed
        invariant 0 <= i <= needed
        invariant old(events) + FirstBatch(series, firstDate) == events + Fill(series, originalDay, currentDate, i, needed - i)
      {
        hide Fill;
        FillInSteps(series, originalDay, currentDate, i, needed - i, events);
        if series.maxOccurrences.Some? && i >= series.maxOccurrences.value { break; }
        if series.recurrenceEnd.Some? && currentDate > series.recurrenceEnd.value { break; }
        events := events + [BuildOccurrence(series, currentDate, i + 1)];
        currentDate := Step(series.rule, originalDay, currentDate);
        i := i + 1;
      }
    }

    method GenerateOccurrences(series: EventSeries, now: int)
      modifies this
      ensures events == old(events) + NextBatch(series, old(events), now)
      ensures !series.active ==> events == old(events)
    {
      hide Step, DayOfMonth;
      if !series.active { return; }
      var mine := OfSeries(events, series.id);
      var existing := Upcoming(mine, now);
      var needed := WINDOW - |existing|;
      if needed <= 0 { return; }
      var lastDate;
      if |existing| > 0 {
        lastDate := Latest(existing);
      } else if |mine| > 0 {
        lastDate := Latest(mine);
      } else {
        lastDate := now;
      }
      var totalGenerated := |mine|;
      var originalDay := DayOfMonth(lastDate);
      ghost var batch := NextBatch(series, events, now);
      var i := 0;
      while i < needed
        invariant 0 <= i <= needed
        invariant old(events) + batch == events + Fill(series, originalDay, Step(series.rule, originalDay, lastDate), totalGenerated, needed - i)
      {
        var nextDate := Step(series.rule, originalDay, lastDate);
        hide Fill;
        FillInSteps(series, originalDay, nextDate, totalGenerated, needed - i, events);
        if series.maxOccurrences.Some? && totalGenerated >= series.maxOccurrences.value { break; }
        if series.recurrenceEnd.Some? && nextDate > series.recurrenceEnd.value { break; }
        events := events + [BuildOccurrence(series, nextDate, totalGenerated + 1)];
        lastDate := nextDate;
        totalGenerated := totalGenerated + 1;
        i := i + 1;
      }
    }
  }

  // ---------- what a batch looks like ----------

  /** Occurrences numbered from total+1, strictly later from one to the next, published, within
      the limits of the series. */
  ghost predicate WellFormed(series: EventSeries, batch: Events, total: int) {
    && (forall i :: 0 <= i < |batch| ==>
          batch[i].index == total + 1 + i && batch[i].seriesId == Some(series.id) && batch[i].status == Published
          && (series.recurrenceEnd.Some? ==> batch[i].at <= series.recurrenceEnd.value))
    && (forall i, j :: 0 <= i < j < |batch| ==> batch[i].at < batch[j].at)
    && (series.maxOccurrences.Some? && batch != [] ==> total + |batch| <= series.maxOccurrences.value)
  }

  lemma ConsIsWellFormed(series: EventSeries, ev: Event, rest: Events, total: int)
    requires WellFormed(series, rest, total + 1) && forall i :: 0 <= i < |rest| ==> ev.at < rest[i].at
    requires ev.index == total + 1 && ev.seriesId == Some(series.id) && ev.status == Published
    requires series.recurrenceEnd.Some? ==> ev.at <= series.recurrenceEnd.value
    requires series.maxOccurrences.Some? ==> total < series.maxOccurrences.value
    ensures WellFormed(series, [ev] + rest, total)
  {
  }

  lemma {:induction false} FillIsWellFormed(series: EventSeries, day: int, at: int, total: int, k: int)
    requires 1 <= day
    ensures var batch := Fill(series, day, at, total, k);
            && WellFormed(series, batch, total)
            && (forall i :: 0 <= i < |batch| ==> at <= batch[i].at)
            && |batch| <= if k < 0 then 0 else k
    decreases k
  {
    hide Step;
    if !(k <= 0 || ReachedMaximum(series, total) || PastEnd(series, at)) {
      var next := Step(series.rule, day, at);
      StepAdvances(series.rule, day, at);
      FillIsWellFormed(series, day, next, total + 1, k - 1);
      ConsIsWellFormed(series, BuildOccurrence(series, at, total + 1), Fill(series, day, next, total + 1, k - 1), total);
    }
  }

  /** A batch shorter than asked for has met a limit. */
  lemma {:induction false} FillStopsOnlyAtLimits(series: EventSeries, day: int, at: int, total: int, k: nat)
    requires 1 <= day && |Fill(series, day, at, total, k)| < k
    ensures var n := |Fill(series, day, at, total, k)|;
            || (series.maxOccurrences.Some? && total + n >= series.maxOccurrences.value)
            || (series.recurrenceEnd.Some? && Steps(series.rule, day, at, n) > series.recurrenceEnd.value)
    decreases k
  {
    hide Step;
    if !(k <= 0 || ReachedMaximum(series, total) || PastEnd(series, at)) {
      var next := Step(series.rule, day, at);
      FillStopsOnlyAtLimits(series, day, next, total + 1, k - 1);
      StepsFromNext(series.rule, day, at, |Fill(series, day, next, total + 1, k - 1)|);
    }
  }

  /** Within one batch, occurrence i is i steps of the rule after the first date. */
  lemma {:induction false} FillFollowsRule(series: EventSeries, day: int, at: int, total: int, k: int, i: nat)
    requires 1 <= day && i < |Fill(series, day, at, total, k)|
    ensures Fill(series, day, at, total, k)[i].at == Steps(series.rule, day, at, i)
    decreases i
  {
    hide Step;
    if i > 0 {
      FillFollowsRule(series, day, Step(series.rule, day, at), total + 1, k - 1, i - 1);
      StepsFromNext(series.rule, day, at, i - 1);
    }
  }

  /** A new series gets an occurrence on its start date unless that lies past the end or no occurrence
      is allowed, and four in all unless the next would pass a limit. */
  lemma FirstBatchExactly(series: EventSeries, start: int)
    ensures var batch := FirstBatch(series, start);
            var first := (series.recurrenceEnd.Some? ==> start <= series.recurrenceEnd.value)
                         && (series.maxOccurrences.Some? ==> series.maxOccurrences.value > 0);
            && (batch != [] <==> first)
            && (first ==> batch[0].at == start && batch[0].index == 1)
            && (|batch| == 4
                || (|batch| < 4
                    && (|| (series.maxOccurrences.Some? && |batch| >= series.maxOccurrences.value)
                        || (series.recurrenceEnd.Some?
                            && Steps(series.rule, DayOfMonth(start), start, |batch|) > series.recurrenceEnd.value))))
  {
    hide Step, DayOfMonth, WellFormed, BuildOccurrence;
    var n := |FirstBatch(series, start)|;
    FillIsWellFormed(series, DayOfMonth(start), start, 0, WINDOW);
    if n < WINDOW { FillStopsOnlyAtLimits(series, DayOfMonth(start), start, 0, WINDOW); }
  }

  // ---------- queries on well-formed series ----------

  /** The queries keep every matching row as often as it is stored, and no other. */
  lemma {:induction false} OfSeriesKeepsMatching(events: Events, id: int, ev: Event)
    ensures multiset(OfSeries(events, id))[ev] == if ev.seriesId == Some(id) then multiset(events)[ev] else 0
  {
    if events != [] {
      OfSeriesKeepsMatching(events[1..], id, ev);
      CountAfterFirst(events[0], events[1..], ev);
      CountAfterFirst(events[0], OfSeries(events[1..], id), ev);
      assert events == [events[0]] + events[1..];
      assert [] + OfSeries(events[1..], id) == OfSeries(events[1..], id);
    }
  }

  lemma {:induction false} UpcomingKeepsMatching(events: Events, now: int, ev: Event)
    ensures multiset(Upcoming(events, now))[ev]
            == if ev.at > now && ev.status != Cancelled && ev.status != Archived then multiset(events)[ev] else 0
  {
    if events != [] {
      UpcomingKeepsMatching(events[1..], now, ev);
      var first, rest := events[0], Upcoming(events[1..], now);
      CountAfterFirst(first, events[1..], ev);
      CountAfterFirst(first, rest, ev);
      assert events == [first] + events[1..] && [] + rest == rest;
    }
  }

  lemma CountAfterFirst(first: Event, rest: Events, ev: Event)
    ensures multiset([first] + rest)[ev] == multiset(rest)[ev] + if first == ev then 1 else 0
  {
  }

  lemma {:induction false} OfSeriesConcat(a: Events, b: Events, id: int)
    ensures OfSeries(a + b, id) == OfSeries(a, id) + OfSeries(b, id)
  {
    if a == [] {
      assert a + b == b;
    } else {
      assert (a + b)[1..] == a[1..] + b;
      OfSeriesConcat(a[1..], b, id);
      var first := if a[0].seriesId == Some(id) then [a[0]] else [];
      assert OfSeries(a + b, id) == first + OfSeries(a[1..] + b, id);
      assert OfSeries(a, id) == first + OfSeries(a[1..], id);
    }
  }

  lemma {:induction false} OfSeriesKeepsOwn(events: Events, id: int)
    ensures (forall i :: 0 <= i < |events| ==> events[i].seriesId == Some(id)) ==> OfSeries(events, id) == events
    ensures (forall i :: 0 <= i < |events| ==> events[i].seriesId != Some(id)) ==> OfSeries(events, id) == []
  {
    if events != [] {
      OfSeriesKeepsOwn(events[1..], id);
      assert forall i :: 0 <= i < |events[1..]| ==> events[1..][i] == events[i + 1];
    }
  }

  lemma {:induction false} UpcomingConcat(a: Events, b: Events, now: int)
    ensures Upcoming(a + b, now) == Upcoming(a, now) + Upcoming(b, now)
  {
    if a == [] {
      assert a + b == b;
    } else {
      hide Live;
      assert (a + b)[1..] == a[1..] + b;
      UpcomingConcat(a[1..], b, now);
      var first := if Live(a[0], now) then [a[0]] else [];
      assert Upcoming(a + b, now) == first + Upcoming(a[1..] + b, now);
      assert Upcoming(a, now) == first + Upcoming(a[1..], now);
    }
  }

  lemma {:induction false} UpcomingKeepsLive(events: Events, now: int)
    requires forall i :: 0 <= i < |events| ==> Live(events[i], now)
    ensures Upcoming(events, now) == events
  {
    if events != [] {
      assert forall i :: 0 <= i < |events[1..]| ==> events[1..][i] == events[i + 1];
      UpcomingKeepsLive(events[1..], now);
    }
  }

  lemma {:induction false} LatestIsLast(events: Events)
    requires events != [] && forall i, j :: 0 <= i < j < |events| ==> events[i].at < events[j].at
    ensures Latest(events) == events[|events| - 1].at
  {
    if |events| > 1 {
      assert forall i :: 0 <= i < |events[1..]| ==> events[1..][i] == events[i + 1];
      LatestIsLast(events[1..]);
    }
  }

  /** The upcoming events of an increasing series are its tail: all that lie after the clock, as long as
      none is cancelled. */
  lemma {:induction false} UpcomingIsTail(series: EventSeries, mine: Events, total: int, now: int)
    requires WellFormed(series, mine, total)
    ensures |Upcoming(mine, now)| <= |mine|
    ensures Upcoming(mine, now) == mine[|mine| - |Upcoming(mine, now)|..]
    ensures Upcoming(mine, now) != [] ==> Live(mine[|mine| - 1], now)
  {
    if mine != [] {
      var rest := mine[1..];
      assert forall i :: 0 <= i < |rest| ==> rest[i] == mine[i + 1];
      if Live(mine[0], now) {
        forall i | 0 <= i < |mine| ensures Live(mine[i], now) {
          if i > 0 { assert mine[0].at < mine[i].at; }
        }
        UpcomingKeepsLive(mine, now);
      } else {
        UpcomingIsTail(series, rest, total + 1, now);
        assert rest[|rest| - |Upcoming(rest, now)|..] == mine[|mine| - |Upcoming(rest, now)|..];
      }
    }
  }

  /** A generator call continues from the last occurrence of the series, or from the clock when
      there is none. */
  lemma LastDateIsLast(series: EventSeries, mine: Events, now: int)
    requires WellFormed(series, mine, 0)
    ensures LastDate(mine, now) == if mine == [] then now else mine[|mine| - 1].at
  {
    UpcomingIsTail(series, mine, 0, now);
    if mine != [] {
      LatestIsLast(mine);
      if Upcoming(mine, now) != [] { LatestIsLast(Upcoming(mine, now)); }
    }
  }

  // ---------- whole runs ----------

  lemma AppendWellFormed(series: EventSeries, mine: Events, batch: Events)
    requires WellFormed(series, mine, 0) && WellFormed(series, batch, |mine|)
    requires mine != [] ==> forall i :: 0 <= i < |batch| ==> mine[|mine| - 1].at < batch[i].at
    ensures WellFormed(series, mine + batch, 0)
  {
  }

  /** The new dates of a generator call start after the last stored one. */
  lemma NextBatchStartsLater(series: EventSeries, events: Events, now: int)
    requires WellFormed(series, OfSeries(events, series.id), 0)
    ensures var mine, batch := OfSeries(events, series.id), NextBatch(series, events, now);
            && WellFormed(series, batch, |mine|)
            && (forall i :: 0 <= i < |batch| ==> LastDate(mine, now) < batch[i].at)
  {
    hide Step, DayOfMonth;
    var mine := OfSeries(events, series.id);
    var last := LastDate(mine, now);
    var day := DayOfMonth(last);
    StepAdvances(series.rule, day, last);
    FillIsWellFormed(series, day, Step(series.rule, day, last), |mine|, WINDOW - |Upcoming(mine, now)|);
  }

  lemma GenerateKeepsSeries(series: EventSeries, events: Events, now: int)
    requires WellFormed(series, OfSeries(events, series.id), 0)
    ensures var mine, batch := OfSeries(events, series.id), NextBatch(series, events, now);
            OfSeries(events + batch, series.id) == mine + batch && WellFormed(series, mine + batch, 0)
  {
    var mine, batch := OfSeries(events, series.id), NextBatch(series, events, now);
    LastDateIsLast(series, mine, now);
    NextBatchStartsLater(series, events, now);
    OfSeriesConcat(events, batch, series.id);
    OfSeriesKeepsOwn(batch, series.id);
    AppendWellFormed(series, mine, batch);
  }

  lemma CreateStartsSeries(series: EventSeries, events: Events, start: int)
    requires OfSeries(events, series.id) == []
    ensures OfSeries(events + FirstBatch(series, start), series.id) == FirstBatch(series, start)
    ensures WellFormed(series, FirstBatch(series, start), 0)
  {
    hide Step, DayOfMonth;
    var batch := FirstBatch(series, start);
    FillIsWellFormed(series, DayOfMonth(start), start, 0, WINDOW);
    OfSeriesConcat(events, batch, series.id);
    OfSeriesKeepsOwn(batch, series.id);
    assert [] + batch == batch;
  }

  /** After the series is created, either the background job runs at some time, or other series
      and single events are added to the table. */
  datatype Operation = Generate(now: int) | AddOthers(others: Events)

  ghost predicate LeavesSeries(series: EventSeries, op: Operation) {
    op.AddOthers? ==> forall i :: 0 <= i < |op.others| ==> op.others[i].seriesId != Some(series.id)
  }

  ghost function After(series: EventSeries, events: Events, op: Operation): Events {
    events + if op.Generate? then NextBatch(series, events, op.now) else op.others
  }

  ghost function Run(series: EventSeries, events: Events, ops: seq<Operation>): Events
    decreases |ops|
  {
    if ops == [] then events else Run(series, After(series, events, ops[0]), ops[1..])
  }

  lemma {:induction false} RunKeepsSeries(series: EventSeries, events: Events, ops: seq<Operation>)
    requires WellFormed(series, OfSeries(events, series.id), 0)
    requires forall i :: 0 <= i < |ops| ==> LeavesSeries(series, ops[i])
    ensures WellFormed(series, OfSeries(Run(series, events, ops), series.id), 0)
    decreases |ops|
  {
    if ops != [] {
      var op := ops[0];
      assert LeavesSeries(series, op);
      if op.Generate? {
        GenerateKeepsSeries(series, events, op.now);
      } else {
        OfSeriesConcat(events, op.others, series.id);
        OfSeriesKeepsOwn(op.others, series.id);
        assert OfSeries(events, series.id) + [] == OfSeries(events, series.id);
      }
      RunKeepsSeries(series, After(series, events, op), ops[1..]);
    }
  }

  /** Over every run that starts with the creation of the series, its occurrences are numbered
      1 to n in strictly increasing date order, n never passes the maximum, and no date passes
      the recurrence end. */
  lemma RunFromCreation(series: EventSeries, events: Events, start: int, ops: seq<Operation>)
    requires OfSeries(events, series.id) == []
    requires forall i :: 0 <= i < |ops| ==> LeavesSeries(series, ops[i])
    ensures WellFormed(series, OfSeries(Run(series, events + FirstBatch(series, start), ops), series.id), 0)
  {
    CreateStartsSeries(series, events, start);
    RunKeepsSeries(series, events + FirstBatch(series, start), ops);
  }

  lemma BatchIsLive(series: EventSeries, events: Events, now: int)
    requires WellFormed(series, OfSeries(events, series.id), 0) && Upcoming(OfSeries(events, series.id), now) != []
    ensures var batch := NextBatch(series, events, now); forall i :: 0 <= i < |batch| ==> Live(batch[i], now)
  {
    hide NextBatch, Upcoming, LastDate;
    var mine := OfSeries(events, series.id);
    UpcomingIsTail(series, mine, 0, now);
    LastDateIsLast(series, mine, now);
    NextBatchStartsLater(series, events, now);
  }

  lemma ShortBatchMetLimit(series: EventSeries, events: Events, now: int)
    requires series.active && |Upcoming(OfSeries(events, series.id), now)| <= WINDOW
    ensures var mine, batch := OfSeries(events, series.id), NextBatch(series, events, now);
            var last, k := LastDate(mine, now), WINDOW - |Upcoming(mine, now)|;
            && |batch| <= k
            && (|batch| < k ==>
                  || (series.maxOccurrences.Some? && |mine| + |batch| >= series.maxOccurrences.value)
                  || (series.recurrenceEnd.Some?
                      && Steps(series.rule, DayOfMonth(last), last, |batch| + 1) > series.recurrenceEnd.value))
  {
    hide Step, DayOfMonth, Steps, WellFormed, Latest, Fill;
    var mine, batch := OfSeries(events, series.id), NextBatch(series, events, now);
    var last := LastDate(mine, now);
    var day, k := DayOfMonth(last), WINDOW - |Upcoming(mine, now)|;
    var first := Step(series.rule, day, last);
    FillIsWellFormed(series, day, first, |mine|, k);
    if |batch| < k {
      FillStopsOnlyAtLimits(series, day, first, |mine|, k);
      StepsFromNext(series.rule, day, last, |batch|);
    }
  }

  /** A call that starts with one to four upcoming occurrences of an active series ends with
      exactly four, unless the maximum or the end of the series stops it. */
  lemma WindowIsRefilled(series: EventSeries, events: Events, now: int)
    requires WellFormed(series, OfSeries(events, series.id), 0) && series.active
    requires 1 <= |Upcoming(OfSeries(events, series.id), now)| <= WINDOW
    ensures var mine := OfSeries(events, series.id);
            var after := OfSeries(events + NextBatch(series, events, now), series.id);
            var last := LastDate(mine, now);
            |Upcoming(after, now)| == 4
            || (|Upcoming(after, now)| < 4
                && (|| (series.maxOccurrences.Some? && |after| >= series.maxOccurrences.value)
                    || (series.recurrenceEnd.Some? && |after| >= |mine|
                        && Steps(series.rule, DayOfMonth(last), last, |after| - |mine| + 1) > series.recurrenceEnd.value)))
  {
    assert WINDOW == 4;
    hide *;
    var mine, batch := OfSeries(events, series.id), NextBatch(series, events, now);
    GenerateKeepsSeries(series, events, now);
    BatchIsLive(series, events, now);
    UpcomingKeepsLive(batch, now);
    UpcomingConcat(mine, batch, now);
    ShortBatchMetLimit(series, events, now);
  }
}
