/**
 Wall-clock times and UTC: datetimeLocalToUTC and utcToDatetimeLocal of
 web/src/lib/utils/dates.ts.  Instants are whole minutes; a time zone is the function that
 gives, at every instant, the minutes to add to its wall clock to get UTC.
 */
module LocalTime {
  import opened Gregorian

  type Zone = int -> int

  datatype WallClock = WallClock(date: Date, hour: int, minute: int)

  type Wall = w: WallClock | IsDate(w.date) && 0 <= w.hour < 24 && 0 <= w.minute < 60
    witness WallClock(Date(0, 1, 1), 0, 0)

  /** Minutes since the first of January of year 0. */
  function Minutes(w: Wall): int {
    DayNumber(w.date) * 1440 + w.hour * 60 + w.minute
  }

  /** Date.UTC reads the years 0 to 99 as 1900 to 1999. */
  function YearUTC(year: int): int {
    if 0 <= year <= 99 then year + 1900 else year
  }

  /** Date.UTC of the fields, with some minutes added.  Days and minutes carry over. */
  function DateUTC(w: Wall, extraMinutes: int): int {
    (DayNumber(Date(YearUTC(w.date.year), w.date.month, 1)) + w.date.day - 1) * 1440 + w.hour * 60 + w.minute + extraMinutes
  }

  function WallAt(days: int, minutes: int): Wall
    requires 0 <= minutes < 1440
  {
    WallClock(FromDayNumber(days), minutes / 60, minutes % 60)
  }

  /** The fields a formatter in UTC would show. */
  function Fields(n: int): Wall {
    WallAt(n / 1440, n % 1440)
  }

  /** utcToDatetimeLocal: the fields the zone's formatter shows. */
  function UtcToDatetimeLocal(utc: int, zone: Zone): Wall {
    Fields(utc - zone(utc))
  }

  /** getTimezoneOffsetMinutes: UTC less the local fields read as if they were UTC. */
  function TimezoneOffsetMinutes(utc: int, zone: Zone): int {
    utc - DateUTC(Fields(utc - zone(utc)), 0)
  }

  // ---------- fields and minutes are two names for the same times ----------

  lemma HourAndMinute(days: int, minutes: int)
    requires 0 <= minutes < 1440
    ensures Minutes(WallAt(days, minutes)) == days * 1440 + minutes
  {
    hide FromDayNumber, DayNumber;
    DayNumberOfDate(days);
    DivideByHour(minutes);
  }

  lemma DivideByHour(n: int)
    ensures n / 60 * 60 + n % 60 == n
  {
  }

  lemma MinutesOfFields(n: int)
    ensures Minutes(Fields(n)) == n
  {
    HourAndMinute(n / 1440, n % 1440);
    DivideByDay(n);
  }

  lemma DivideByDay(n: int)
    ensures n / 1440 * 1440 + n % 1440 == n
  {
  }

  lemma SplitMinutes(days: int, hour: int, minute: int)
    requires 0 <= hour < 24 && 0 <= minute < 60
    ensures var n := days * 1440 + hour * 60 + minute;
            n / 1440 == days && n % 1440 == hour * 60 + minute && (hour * 60 + minute) / 60 == hour && (hour * 60 + minute) % 60 == minute
  {
  }

  lemma FieldsOfMinutes(w: Wall)
    ensures Fields(Minutes(w)) == w
  {
    SplitMinutes(DayNumber(w.date), w.hour, w.minute);
    DateOfDayNumber(w.date);
  }

  // ---------- the years Date.UTC reads as they are ----------

  /** The first minute of year 100. */
  function Year100(): int {
    DayNumber(Date(100, 1, 1)) * 1440
  }

  lemma ModernFields(n: int)
    requires Year100() <= n
    ensures 100 <= Fields(n).date.year
  {
    var d := Fields(n).date;
    MinutesOfFields(n);
    hide DayNumber;
    if d.year < 100 { DayNumberIsMonotone(d, Date(100, 1, 1)); }
  }

  lemma MinutesCarry(w: Wall, extraMinutes: int)
    ensures DateUTC(w, extraMinutes) == DateUTC(w, 0) + extraMinutes
    ensures !(0 <= w.date.year <= 99) ==> DateUTC(w, 0) == Minutes(w)
  {
  }

  /** A time of the years 0 to 99 is read as one of the twentieth century. */
  lemma EarlyYearsAreRead(w: Wall)
    requires 0 <= w.date.year <= 99
    ensures DateUTC(w, 0) >= Year100() + 1800 * 365 * 1440
  {
    var first := Date(w.date.year + 1900, w.date.month, 1);
    DayInYear(first);
    YearsAreApart(100, w.date.year + 1900);
    assert DayNumber(Date(100, 1, 1)) == DaysBeforeYear(100);
    hide DayNumber, DaysBeforeYear;
    assert DayNumber(first) >= DayNumber(Date(100, 1, 1)) + 365 * 1800;
  }

  lemma OffsetIsZone(utc: int, zone: Zone)
    requires Year100() <= utc - zone(utc)
    ensures TimezoneOffsetMinutes(utc, zone) == zone(utc)
  {
    hide DateUTC, Fields, Minutes, Year100;
    var n := utc - zone(utc);
    ModernFields(n);
    MinutesOfFields(n);
    MinutesCarry(Fields(n), 0);
  }

  // ---------- the conversion ----------

  /** Two corrections of the first guess, with the offset the program computes... */
  function Converted(local: Wall, zone: Zone): int {
    var first := DateUTC(local, 0);
    var second := DateUTC(local, TimezoneOffsetMinutes(first, zone));
    DateUTC(local, TimezoneOffsetMinutes(second, zone))
  }

  /** ...and with the offset of the zone. */
  function Converged(w: int, zone: Zone): int {
    w + zone(w + zone(w))
  }

  method DatetimeLocalToUTC(local: Wall, zone: Zone) returns (utc: int)
    ensures utc == Converted(local, zone)
  {
    hide TimezoneOffsetMinutes, DateUTC;
    var guess := DateUTC(local, 0);
    for i := 0 to 2
      invariant i == 0 ==> guess == DateUTC(local, 0)
      invariant i == 1 ==> guess == DateUTC(local, TimezoneOffsetMinutes(DateUTC(local, 0), zone))
      invariant i == 2 ==> guess == Converted(local, zone)
    {
      var offset := TimezoneOffsetMinutes(guess, zone);
      guess := DateUTC(local, offset);
    }
    utc := guess;
  }

  /** Away from the first days of year 100 and what lies before, the program's offsets are the zone's. */
  lemma ConvertedConverges(local: Wall, zone: Zone, bound: int)
    requires Bounded(zone, bound) && Year100() + 2 * bound <= DateUTC(local, 0)
    ensures Converted(local, zone) == Converged(DateUTC(local, 0), zone)
  {
    hide TimezoneOffsetMinutes, DateUTC, Year100;
    var first := DateUTC(local, 0);
    assert -bound <= zone(first) <= bound;
    OffsetIsZone(first, zone);
    MinutesCarry(local, zone(first));
    var second := first + zone(first);
    assert -bound <= zone(second) <= bound;
    OffsetIsZone(second, zone);
    MinutesCarry(local, zone(second));
  }

  ghost predicate Bounded(zone: Zone, bound: int) {
    forall t :: -bound <= zone(t) <= bound
  }

  /** Around w the zone has one offset before an instant and one from it on. */
  ghost predicate ChangesAt(zone: Zone, w: int, bound: int, change: int, before: int, after: int) {
    forall t :: w - bound <= t <= w + bound ==> zone(t) == if t < change then before else after
  }

  ghost predicate ChangesAtMostOnce(zone: Zone, w: int, bound: int) {
    exists change, before, after :: ChangesAt(zone, w, bound, change, before, after)
  }

  /** Some instant shows this wall-clock time. */
  ghost predicate Occurs(zone: Zone, w: int) {
    exists utc :: utc - zone(utc) == w
  }

  lemma ConvergesOnOccurring(zone: Zone, w: int, bound: int)
    requires Bounded(zone, bound) && ChangesAtMostOnce(zone, w, bound) && Occurs(zone, w)
    ensures Converged(w, zone) - zone(Converged(w, zone)) == w
  {
  }

  /** The conversion is undone when the local time at its result is the one it was given. */
  lemma ShownExactly(local: Wall, utc: int, zone: Zone)
    ensures UtcToDatetimeLocal(utc, zone) == local <==> utc - zone(utc) == Minutes(local)
  {
    hide Fields, Minutes;
    MinutesOfFields(utc - zone(utc));
    FieldsOfMinutes(local);
  }

  lemma ShownIsModern(w: int, zone: Zone, bound: int)
    requires Bounded(zone, bound) && Year100() + 2 * bound <= w
    ensures 100 <= UtcToDatetimeLocal(Converged(w, zone), zone).date.year
  {
    hide Fields, Year100;
    var utc := Converged(w, zone);
    assert -bound <= zone(w + zone(w)) <= bound && -bound <= zone(utc) <= bound;
    ModernFields(utc - zone(utc));
  }

  /** For a zone that changes at most once within its largest offset of the wall-clock time, the
      conversion is undone by utcToDatetimeLocal exactly when the wall-clock time occurs and its
      year is not one Date.UTC reads as another. */
  lemma LocalTimeRoundTrip(local: Wall, zone: Zone, bound: int)
    requires Bounded(zone, bound) && ChangesAtMostOnce(zone, Minutes(local), bound) && Year100() + 2 * bound <= DateUTC(local, 0)
    ensures UtcToDatetimeLocal(Converted(local, zone), zone) == local
            <==> !(0 <= local.date.year <= 99) && Occurs(zone, Minutes(local))
  {
    hide UtcToDatetimeLocal, Minutes, DateUTC, Year100, Converted, Converged, Bounded, ChangesAtMostOnce;
    ConvertedConverges(local, zone, bound);
    MinutesCarry(local, 0);
    ShownExactly(local, Converted(local, zone), zone);
    if 0 <= local.date.year <= 99 {
      ShownIsModern(DateUTC(local, 0), zone, bound);
    } else if Occurs(zone, Minutes(local)) {
      ConvergesOnOccurring(zone, Minutes(local), bound);
    }
  }

  /** No time of the years 0 to 99 survives the conversion in a zone within four days of UTC. */
  lemma EarlyYearsNeverRoundTrip(local: Wall, zone: Zone)
    requires 0 <= local.date.year <= 99 && Bounded(zone, 4 * 1440)
    ensures UtcToDatetimeLocal(Converted(local, zone), zone) != local
  {
    hide UtcToDatetimeLocal, DateUTC, Year100, Converted, Converged, Bounded;
    EarlyYearsAreRead(local);
    ConvertedConverges(local, zone, 4 * 1440);
    ShownIsModern(DateUTC(local, 0), zone, 4 * 1440);
  }

  /** Near a change, the times that occur are those outside the gap the change opens, if any. */
  lemma OccursExactly(zone: Zone, w: int, bound: int, change: int, before: int, after: int)
    requires Bounded(zone, bound) && ChangesAt(zone, w, bound, change, before, after) && w - bound < change <= w + bound
    ensures Occurs(zone, w) <==> !(change - before <= w < change - after)
  {
    assert zone(w - bound) == before && zone(change) == after;
    assert -bound <= zone(w - bound) <= bound && -bound <= zone(change) <= bound;
    if Occurs(zone, w) {
      var utc :| utc - zone(utc) == w;
      assert zone(utc) == if utc < change then before else after;
    } else {
      assert w + before < change ==> (w + before) - zone(w + before) == w;
      assert change <= w + after ==> (w + after) - zone(w + after) == w;
    }
  }

  /** A time skipped by the change comes back moved by exactly the length of the change:
      backward when, read as UTC, it lies before the change, and forward otherwise. */
  lemma SkippedTimes(zone: Zone, w: int, bound: int, change: int, before: int, after: int)
    requires Bounded(zone, bound) && ChangesAt(zone, w, bound, change, before, after) && !Occurs(zone, w)
    ensures before > after
    ensures Converged(w, zone) - zone(Converged(w, zone)) == if w < change then w - (before - after) else w + (before - after)
  {
    var early, late := w + before, w + after;
    var first := w + zone(w);
    var second := Converged(w, zone);
    assert -bound <= zone(w) <= bound && -bound <= zone(first) <= bound;
    assert zone(w) == if w < change then before else after;
    assert zone(first) == if first < change then before else after;
    assert zone(second) == if second < change then before else after;
    assert first - zone(first) != w && second - zone(second) != w;
  }

  /** Five hours behind UTC before minute 1000 of a day, and four from then on. */
  function SpringForward(day: int): Zone {
    (utc: int) => if utc < 1440 * day + 1000 then 300 else 240
  }

  /** In that zone 11:50 is skipped on that day, and comes back as 10:50. */
  lemma SkippedTimeExample(day: int, w: Wall)
    requires w == WallAt(day, 11 * 60 + 50) && Year100() + 600 <= DateUTC(w, 0) && 100 <= w.date.year
    ensures !Occurs(SpringForward(day), Minutes(w))
    ensures UtcToDatetimeLocal(Converted(w, SpringForward(day)), SpringForward(day)) == WallAt(day, 10 * 60 + 50)
  {
    hide Minutes, Fields, DateUTC, Year100, Converted, WallAt;
    HourAndMinute(day, 710);
    HourAndMinute(day, 650);
    FieldsOfMinutes(WallAt(day, 650));
    MinutesCarry(w, 0);
    ConvertedConverges(w, SpringForward(day), 300);
    OccursExactly(SpringForward(day), 1440 * day + 710, 300, 1440 * day + 1000, 300, 240);
  }

  /** A repeated time is read as its first occurrence when, read as UTC, it lies before the
      change, and as its second otherwise. */
  lemma RepeatedTimes(zone: Zone, w: int, bound: int, change: int, before: int, after: int)
    requires Bounded(zone, bound) && ChangesAt(zone, w, bound, change, before, after)
    requires w + before < change <= w + after
    ensures Converged(w, zone) == if w < change then w + before else w + after
  {
  }
}
