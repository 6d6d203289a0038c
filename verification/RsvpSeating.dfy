/**
 Which steps of the interleaving give a seat to a guest who waits.  The promotion loop serves the
 first in line; an update by token seats nobody it read as waiting, but a guest who was put on the
 waitlist after the update read the row.  Source: internal/rsvp/service.go.
 */
module RsvpSeating {
  import opened Wrappers
  import opened AttendeeTable
  import opened Waitlist
  import opened RsvpRules
  import opened RsvpEffects
  import opened RsvpOutcomes
  import opened RsvpInterleaving
  import RsvpRuns

  /** The party fits beside the heads counted, the guest's own seats as read set aside. */
  ghost predicate Fits(w: World, e: int, heads: int, own: Option<Attendee>, plusOnes: int)
    requires Known(w, e)
  {
    var ownSeats := if own.Some? && own.value.status == Attending then 1 + own.value.plusOnes else 0;
    w.events[e].maxCapacity.Some? ==> heads - ownSeats + 1 + plusOnes <= w.events[e].maxCapacity.value
  }

  /** The update stores an attending row: a guest read as attending or asking to attend, but not one
      read as waiting, with a party that fits where it is checked. */
  ghost predicate UpdateSeats(w: World, e: int, row: Attendee, update: UpdateRequest, heads: int)
    requires Known(w, e)
  {
    var party := if update.plusOnes.Some? then update.plusOnes.value else row.plusOnes;
    && row.status != Waitlisted
    && (update.status == Given(Attending) || (!update.status.Given? && row.status == Attending))
    && (TokenNeedsSeats(row, update) ==> Fits(w, e, heads, Some(row), party))
    && update.name != Some("") && update.wellFormed
  }

  /** What seats `guest`, who waits, in the step of a thread. */
  ghost predicate MaySeat(w: World, s: State, th: Thread, guest: Attendee) {
    var e := guest.eventId;
    Known(w, e) &&
    match th
    case HasHeads(r, found, heads) =>
      && r.e == e && found.Some? && found.value.id == guest.id
      && (Quiet(w, e) && !r.Updating? ==> found.value == guest && heads == Headcount(s.rows, e))
      && (match r
          case Submitting(_, req, _, _) => req.status == Given(Attending) && Fits(w, e, heads, found, req.plusOnes)
          case Updating(_, row, update, _) => found.value == row && UpdateSeats(w, e, row, update, heads)
          case Removing(_, _) => false
          case Organizing(_, _, edit) => edit.status == Given(Attending) || (!edit.status.Given? && found.value.status == Attending))
    case LoopRow(at, heads, first) => at == e && first.id == guest.id && (Quiet(w, e) ==> first == guest && FirstInLine(s.rows, e, guest))
    case Promoting(at, row) => at == e && e in w.byHand && row.id == guest.id
    case _ => false
  }

  lemma SubmitSeats(ev: Event, req: SubmitRequest, found: Option<Attendee>, heads: int, newId: int, newToken: int, now: int)
    requires RequestAcceptable(req)
    ensures var d := SubmitDecision(ev, req, found, heads, newId, newToken, now);
            var own := if found.Some? && found.value.status == Attending then 1 + found.value.plusOnes else 0;
            d.Store? && d.row.status == Attending
            <==> found.Some? && req.status == Given(Attending) && (ev.maxCapacity.Some? ==> heads - own + 1 + req.plusOnes <= ev.maxCapacity.value)
  {
  }

  lemma TokenSeats(w: World, e: int, row: Attendee, update: UpdateRequest, heads: int, now: int)
    requires Known(w, e) && UpdateOk(w.events[e], row, update, now)
    ensures var d := TokenDecision(w.events[e], row, update, heads);
            d.Store? && d.row.status == Attending <==> UpdateSeats(w, e, row, update, heads)
  {
  }

  lemma OrganizerSeats(ev: Event, a: Attendee, edit: OrganizerRequest, heads: int)
    ensures var d := OrganizerDecision(ev, a, edit, heads);
            d.Store? && d.row.status == Attending ==> edit.status == Given(Attending) || (!edit.status.Given? && a.status == Attending)
  {
  }

  /** A write seats a waiting guest only if it stores an attending row under its id. */
  lemma WriteSeats(rows: Rows, d: Decision, guest: Attendee)
    requires UniqueIds(rows) && guest in rows && guest.status == Waitlisted && (d.Insert? ==> d.row.id != guest.id)
    ensures RsvpRuns.SeatedIn(Carry(rows, d), guest.id) <==> d.Store? && d.row.id == guest.id && d.row.status == Attending
  {
    RsvpRuns.NotSeated(rows, guest);
    var k :| 0 <= k < |rows| && rows[k] == guest;
    RsvpRuns.OnlyAt(rows, k);
    hide UniqueIds;
    match d
    case Refuse(_) =>
    case Insert(row) =>
      forall i | 0 <= i < |rows + [row]| && (rows + [row])[i].id == guest.id ensures (rows + [row])[i] == guest {}
    case Store(row) =>
      var after := UpdateRows(rows, row);
      if row.id == guest.id && row.status == Attending { assert after[k].id == guest.id && after[k].status == Attending; }
  }

  lemma DeleteSeats(rows: Rows, a: Attendee, guest: Attendee)
    requires UniqueIds(rows) && guest in rows && guest.status == Waitlisted && a in rows
    ensures !RsvpRuns.SeatedIn(DeleteRows(rows, a.id), guest.id)
  {
    RsvpRuns.DeleteSeatsNobody(rows, a, guest);
  }

  /** The step seats `guest`, who waits. */
  ghost predicate SeatsGuest(w: World, s: State, t: int, c: Choice, guest: Attendee)
    requires ThreadTyped(w, At(s, t)) && CanStep(w, s, t, c)
  {
    guest in s.rows && guest.status == Waitlisted && RsvpRuns.SeatedIn(Step(w, s, t, c).rows, guest.id)
  }

  /** In every interleaving, a waiting guest is seated by such a step only. */
  lemma WaitingGuestSeatedOnlyBy(w: World, s: State, t: int, c: Choice, guest: Attendee)
    requires Inv(w, s) && ThreadTyped(w, At(s, t)) && CanStep(w, s, t, c) && SeatsGuest(w, s, t, c, guest)
    ensures MaySeat(w, s, At(s, t), guest)
  {
    hide MemoryOk, MaySeat, UniqueIds, Decide, RsvpRuns.SeatedIn, Step, LocksOk;
    var th := At(s, t);
    assert MemoryOk(w, s, th);
    var e := StepWrites(w, s, t, c);
    RsvpRuns.NotSeated(s.rows, guest);
    if th.HasHeads? {
      if th.r.Removing? { RemovalSeatsNobody(w, s, t, c, guest); } else { DecisionSeats(w, s, t, c, guest); }
    } else if th.LoopRow? || th.Promoting? {
      PromotionSeats(w, s, t, c, guest);
    } else if th.Importing? && th.todo != [] {
      ImportStep(w, s, t, c);
      WriteSeats(s.rows, Insert(th.todo[0].(id := s.nextId)), guest);
    }
  }

  lemma RemovalSeatsNobody(w: World, s: State, t: int, c: Choice, guest: Attendee)
    requires TableOk(s) && MemoryOk(w, s, At(s, t)) && At(s, t).HasHeads? && At(s, t).r.Removing?
    requires ThreadTyped(w, At(s, t)) && CanStep(w, s, t, c)
    ensures !SeatsGuest(w, s, t, c, guest)
  {
    if guest in s.rows && guest.status == Waitlisted {
      var HasHeads(r, row, heads) := At(s, t);
      RsvpRuns.NotSeated(s.rows, guest);
      if HasId(s.rows, r.id) {
        DeleteSeats(s.rows, RowById(s.rows, r.id).value, guest);
      } else {
        DeleteMisses(s.rows, r.id);
      }
    }
  }

  lemma PromotionSeats(w: World, s: State, t: int, c: Choice, guest: Attendee)
    requires TableOk(s) && MemoryOk(w, s, At(s, t)) && (At(s, t).LoopRow? || At(s, t).Promoting?)
    requires ThreadTyped(w, At(s, t)) && CanStep(w, s, t, c) && SeatsGuest(w, s, t, c, guest)
    ensures MaySeat(w, s, At(s, t), guest)
  {
    var th := At(s, t);
    WriteSeats(s.rows, Store((if th.LoopRow? then th.first else th.row).(status := Attending)), guest);
  }

  lemma DecisionSeats(w: World, s: State, t: int, c: Choice, guest: Attendee)
    requires TableOk(s) && MemoryOk(w, s, At(s, t)) && At(s, t).HasHeads? && !At(s, t).r.Removing?
    requires ThreadTyped(w, At(s, t)) && CanStep(w, s, t, c) && SeatsGuest(w, s, t, c, guest)
    ensures MaySeat(w, s, At(s, t), guest)
  {
    hide MaySeat, RsvpRuns.SeatedIn, UniqueIds, Carry;
    var HasHeads(r, found, heads) := At(s, t);
    WriteSeats(s.rows, Decide(w, s, r, found, heads), guest);
    AttendingDecision(w, s, At(s, t), guest);
  }

  lemma AttendingDecision(w: World, s: State, th: Thread, guest: Attendee)
    requires TableOk(s) && MemoryOk(w, s, th) && th.HasHeads? && !th.r.Removing? && guest in s.rows
    requires var d := Decide(w, s, th.r, th.found, th.heads); d.Store? && d.row.id == guest.id && d.row.status == Attending
    ensures MaySeat(w, s, th, guest)
  {
    var HasHeads(r, found, heads) := th;
    match r
    case Submitting(e, req, newToken, now) => SubmitSeats(w.events[e], req, found, heads, s.nextId, newToken, now);
    case Updating(e, row, update, now) => TokenSeats(w, e, row, update, heads, now);
    case Organizing(e, _, edit) => OrganizerSeats(w.events[e], found.value, edit, heads);
  }

  /** An update by token seats a waiting guest exactly when it read the row before the guest was put
      on the waitlist and the party fits the heads it read. */
  lemma UpdateSeatsWaitingExactly(w: World, s: State, t: int, c: Choice, guest: Attendee)
    requires Inv(w, s) && ThreadTyped(w, At(s, t)) && CanStep(w, s, t, c) && At(s, t).HasHeads? && At(s, t).r.Updating?
    requires guest in s.rows && guest.status == Waitlisted && At(s, t).r.row.id == guest.id
    ensures SeatsGuest(w, s, t, c, guest)
            <==> UpdateSeats(w, guest.eventId, At(s, t).r.row, At(s, t).r.update, At(s, t).heads)
  {
    assert MemoryOk(w, s, At(s, t));
    var HasHeads(r, found, heads) := At(s, t);
    WriteSeats(s.rows, Decide(w, s, r, found, heads), guest);
    TokenSeats(w, r.e, r.row, r.update, heads, r.now);
  }
}
