/**
 What one RSVP operation makes of the attendee table, and the capacity bound it keeps.
 Source: internal/rsvp/service.go.
 */
module RsvpEffects {
  import opened Wrappers
  import opened AttendeeTable
  import opened Waitlist
  import opened RsvpRules

  /** Ids are unique and no guest of event e has a negative party. */
  ghost predicate Sound(rows: Rows, e: int) {
    UniqueIds(rows) && NoNegativeParty(rows, e)
  }

  // ---------- effects ----------

  /** promoteWaitlistLoop, which does nothing without a capacity and a waitlist. */
  ghost function Drain(rows: Rows, ev: Event): (after: Rows)
    requires UniqueIds(rows)
    ensures UniqueIds(after)
  {
    if ev.maxCapacity.Some? && ev.waitlistEnabled then Drained(rows, ev.id, ev.maxCapacity.value) else rows
  }

  /** What the caller is told: an error also when the row is written and the answers are rejected. */
  function Reply(d: Decision, answersAccepted: bool): Result<Attendee> {
    if d.Refuse? then Failure(d.error) else if answersAccepted then Success(d.row) else Failure(BadAnswers)
  }

  datatype Result<+T> = Success(value: T) | Failure(error: Error)

  /** The update takes an attending guest to declined or maybe. */
  predicate TokenFrees(a: Attendee, d: Decision) {
    a.status == Attending && d.Store? && (d.row.status == Declined || d.row.status == Maybe)
  }

  /** The promotion loop follows: rejected answers end the call before it. */
  predicate TokenPromotes(a: Attendee, req: UpdateRequest, d: Decision) {
    TokenFrees(a, d) && req.answersAccepted
  }

  predicate OrganizerFrees(a: Attendee, d: Decision) {
    a.status == Attending && d.Store? && d.row.status != Attending
  }

  ghost function AfterToken(rows: Rows, ev: Event, a: Attendee, req: UpdateRequest): (after: Rows)
    requires UniqueIds(rows)
    ensures UniqueIds(after)
  {
    var d := TokenDecision(ev, a, req, Headcount(rows, ev.id));
    CarryKeepsIds(rows, d);
    if TokenPromotes(a, req, d) then Drain(Carry(rows, d), ev) else Carry(rows, d)
  }

  ghost function AfterOrganizer(rows: Rows, ev: Event, a: Attendee, req: OrganizerRequest): (after: Rows)
    requires UniqueIds(rows)
    ensures UniqueIds(after)
  {
    var d := OrganizerDecision(ev, a, req, Headcount(rows, ev.id));
    CarryKeepsIds(rows, d);
    if OrganizerFrees(a, d) then Drain(Carry(rows, d), ev) else Carry(rows, d)
  }

  ghost function AfterRemove(rows: Rows, ev: Event, a: Attendee): (after: Rows)
    requires UniqueIds(rows) && a in rows
    ensures UniqueIds(after)
  {
    DeleteKeepsIds(rows, a);
    if a.status == Attending then Drain(DeleteRows(rows, a.id), ev) else DeleteRows(rows, a.id)
  }

  // ---------- tables stay sound ----------

  lemma CarryKeepsIds(rows: Rows, d: Decision)
    requires UniqueIds(rows) && (d.Insert? ==> !HasId(rows, d.row.id))
    ensures UniqueIds(Carry(rows, d))
  {
  }

  lemma DeleteKeepsIds(rows: Rows, a: Attendee)
    requires UniqueIds(rows) && a in rows
    ensures UniqueIds(DeleteRows(rows, a.id))
  {
    var i :| 0 <= i < |rows| && rows[i] == a;
    DeleteIsPointwise(rows, i);
  }

  /** A decision that writes no negative party at e, over the row it was made about. */
  lemma CarryKeepsSound(rows: Rows, d: Decision, e: int)
    requires Sound(rows, e) && (d.Insert? ==> !HasId(rows, d.row.id))
    requires d.Store? ==> forall r :: r in rows && r.id == d.row.id ==> r.eventId == d.row.eventId
    requires (d.Insert? || d.Store?) && d.row.eventId == e ==> d.row.plusOnes >= 0
    ensures Sound(Carry(rows, d), e)
  {
  }

  lemma OnlyRowWithId(rows: Rows, a: Attendee)
    requires UniqueIds(rows) && a in rows
    ensures forall r :: r in rows && r.id == a.id ==> r == a
  {
  }

  lemma DrainKeepsSound(rows: Rows, ev: Event, e: int)
    requires Sound(rows, e)
    ensures Sound(Drain(rows, ev), e)
  {
    if ev.maxCapacity.Some? && ev.waitlistEnabled {
      LoopTouchesOnlyWaiting(rows, ev.id, ev.maxCapacity.value);
    }
  }

  // ---------- headcount bookkeeping ----------

  /** Storing a row over the one with its id moves the headcount by the difference. */
  lemma HeadsAfterStore(rows: Rows, a: Attendee, row: Attendee, e: int)
    requires UniqueIds(rows) && a in rows && a.id == row.id
    ensures Headcount(UpdateRows(rows, row), e) == Headcount(rows, e) - Seats(e)(a) + Seats(e)(Merge(a, row))
  {
    var i :| 0 <= i < |rows| && rows[i] == a;
    UpdateIsPointwise(rows, i, row);
    SumUpdate(rows, i, Merge(a, row), Seats(e));
  }

  lemma HeadsAfterDelete(rows: Rows, a: Attendee, e: int)
    requires UniqueIds(rows) && a in rows
    ensures Headcount(DeleteRows(rows, a.id), e) == Headcount(rows, e) - Seats(e)(a)
  {
    var i :| 0 <= i < |rows| && rows[i] == a;
    DeleteIsPointwise(rows, i);
    SumRemove(rows, i, Seats(e));
  }

  /** Headcount at event e obeys the bound, and every other event keeps its headcount. */
  ghost predicate WithinCapacity(before: Rows, after: Rows, ev: Event) {
    && (ev.maxCapacity.Some? ==> Headcount(after, ev.id) <= Larger(Headcount(before, ev.id), ev.maxCapacity.value))
    && (forall other :: other != ev.id ==> Headcount(after, other) == Headcount(before, other))
  }

  /** The loop neither breaks the bound nor repairs it. */
  lemma DrainKeepsBound(before: Rows, rows: Rows, ev: Event)
    requires UniqueIds(rows)
    ensures WithinCapacity(before, Drain(rows, ev), ev) <==> WithinCapacity(before, rows, ev)
  {
    if ev.maxCapacity.Some? && ev.waitlistEnabled {
      LoopSettlesWithinCapacity(rows, ev.id, ev.maxCapacity.value);
    }
  }

  /** A guest who leaves with a negative party takes seats the event does not have. */
  ghost predicate LeavingCosts(rows: Rows, ev: Event, a: Attendee) {
    Seats(ev.id)(a) < 0 && Exceeds(ev, Headcount(rows, ev.id) - Seats(ev.id)(a))
  }

  // ---------- the bound, decision by decision ----------

  /** A submission obeys the bound except when a guest with a negative party leaves. */
  lemma SubmitWithinCapacity(rows: Rows, ev: Event, req: SubmitRequest, existing: Option<Attendee>, newId: int, newToken: int, now: int)
    requires UniqueIds(rows) && RequestAcceptable(req) && !HasId(rows, newId)
    requires existing.Some? ==> existing.value in rows && existing.value.eventId == ev.id
    ensures var d := SubmitDecision(ev, req, existing, Headcount(rows, ev.id), newId, newToken, now);
            WithinCapacity(rows, Carry(rows, d), ev)
            <==> !(d.Store? && d.row.status != Attending && LeavingCosts(rows, ev, existing.value))
  {
    var d := SubmitDecision(ev, req, existing, Headcount(rows, ev.id), newId, newToken, now);
    if existing.Some? {
      StoreMovesOneEvent(rows, ev, existing.value, d);
    } else {
      forall e ensures d.Insert? ==> Headcount(Carry(rows, d), e) == Headcount(rows, e) + Seats(e)(d.row) {
        if d.Insert? { SumAppend(rows, d.row, Seats(e)); }
      }
    }
  }

  lemma SubmitKeepsSound(rows: Rows, ev: Event, req: SubmitRequest, existing: Option<Attendee>, newId: int, newToken: int, now: int, e: int)
    requires Sound(rows, e) && RequestAcceptable(req) && !HasId(rows, newId)
    requires existing.Some? ==> existing.value in rows
    ensures Sound(Carry(rows, SubmitDecision(ev, req, existing, Headcount(rows, ev.id), newId, newToken, now)), e)
  {
  }

  // UpdateByToken read row a before it took the lock; `stored` is the row under that id by now.

  /** What the update would add over the stored row does not fit, and no check noticed: the guest
      was read as attending, so that only a raise was checked, or the stored party is negative. */
  ghost predicate TokenOversells(rows: Rows, ev: Event, a: Attendee, stored: Attendee, req: UpdateRequest) {
    var heads := Headcount(rows, ev.id);
    var d := TokenDecision(ev, a, req, heads);
    d.Store?
    && ((a.status == Attending && d.row.status == Attending) || Seats(ev.id)(stored) < 0)
    && Seats(ev.id)(stored) < Seats(ev.id)(d.row)
    && Exceeds(ev, heads - Seats(ev.id)(stored) + Seats(ev.id)(d.row))
  }

  /** The write of UpdateByToken, from whatever row it read, obeys the bound exactly when it does
      not oversell. */
  lemma TokenStoreWithinCapacity(rows: Rows, ev: Event, a: Attendee, stored: Attendee, req: UpdateRequest)
    requires UniqueIds(rows) && stored in rows && stored.id == a.id && stored.eventId == a.eventId == ev.id
    ensures WithinCapacity(rows, Carry(rows, TokenDecision(ev, a, req, Headcount(rows, ev.id))), ev)
            <==> !TokenOversells(rows, ev, a, stored, req)
  {
    StoreMovesOneEvent(rows, ev, stored, TokenDecision(ev, a, req, Headcount(rows, ev.id)));
  }

  /** Among guests without negative parties, only a row read as attending can oversell: it claims the
      seats of a guest who has given some of them up since. */
  lemma StaleTokenWithinCapacity(rows: Rows, ev: Event, a: Attendee, stored: Attendee, req: UpdateRequest)
    requires Sound(rows, ev.id) && stored in rows && stored.id == a.id && stored.eventId == a.eventId == ev.id
    ensures var heads := Headcount(rows, ev.id);
            var d := TokenDecision(ev, a, req, heads);
            d.Store? ==>
              (WithinCapacity(rows, Carry(rows, d), ev)
               <==> !(a.status == Attending && d.row.status == Attending && Seats(ev.id)(stored) < 1 + d.row.plusOnes
                      && Exceeds(ev, heads - Seats(ev.id)(stored) + 1 + d.row.plusOnes)))
  {
    TokenStoreWithinCapacity(rows, ev, a, stored, req);
  }

  /** A row that is still the stored one oversells only by leaving with a negative party. */
  lemma CurrentTokenOversells(rows: Rows, ev: Event, a: Attendee, req: UpdateRequest)
    requires a.eventId == ev.id
    ensures var d := TokenDecision(ev, a, req, Headcount(rows, ev.id));
            TokenOversells(rows, ev, a, a, req) <==> d.Store? && d.row.status != Attending && LeavingCosts(rows, ev, a)
  {
  }

  lemma TokenWithinCapacity(rows: Rows, ev: Event, a: Attendee, req: UpdateRequest)
    requires UniqueIds(rows) && a in rows && a.eventId == ev.id
    ensures var d := TokenDecision(ev, a, req, Headcount(rows, ev.id));
            WithinCapacity(rows, AfterToken(rows, ev, a, req), ev)
            <==> !(d.Store? && d.row.status != Attending && LeavingCosts(rows, ev, a))
  {
    var d := TokenDecision(ev, a, req, Headcount(rows, ev.id));
    TokenStoreWithinCapacity(rows, ev, a, a, req);
    CurrentTokenOversells(rows, ev, a, req);
    CarryKeepsIds(rows, d);
    DrainKeepsBound(rows, Carry(rows, d), ev);
  }

  lemma TokenKeepsSound(rows: Rows, ev: Event, a: Attendee, req: UpdateRequest, e: int)
    requires Sound(rows, e) && a in rows && (req.plusOnes.Some? ==> req.plusOnes.value >= 0)
    ensures Sound(Carry(rows, TokenDecision(ev, a, req, Headcount(rows, ev.id))), e)
    ensures Sound(AfterToken(rows, ev, a, req), e)
  {
    var d := TokenDecision(ev, a, req, Headcount(rows, ev.id));
    OnlyRowWithId(rows, a);
    CarryKeepsSound(rows, d, e);
    DrainKeepsSound(Carry(rows, d), ev, e);
  }

  lemma StoreMovesOneEvent(rows: Rows, ev: Event, a: Attendee, d: Decision)
    requires UniqueIds(rows) && a in rows && a.eventId == ev.id && !d.Insert?
    requires d.Store? ==> d.row.id == a.id && d.row.eventId == a.eventId
    ensures forall other :: other != ev.id ==> Headcount(Carry(rows, d), other) == Headcount(rows, other)
    ensures d.Store? ==> Headcount(Carry(rows, d), ev.id) == Headcount(rows, ev.id) - Seats(ev.id)(a) + Seats(ev.id)(d.row)
  {
    if d.Store? {
      HeadsAfterStore(rows, a, d.row, ev.id);
      forall other | other != ev.id ensures Headcount(Carry(rows, d), other) == Headcount(rows, other) {
        HeadsAfterStore(rows, a, d.row, other);
      }
    }
  }

  lemma DeleteWithinCapacity(rows: Rows, ev: Event, a: Attendee)
    requires UniqueIds(rows) && a in rows && a.eventId == ev.id
    ensures WithinCapacity(rows, DeleteRows(rows, a.id), ev) <==> !LeavingCosts(rows, ev, a)
  {
    var rest := DeleteRows(rows, a.id);
    forall e ensures Headcount(rest, e) == Headcount(rows, e) - Seats(e)(a) {
      HeadsAfterDelete(rows, a, e);
    }
  }

  /** A removal obeys the bound exactly when the party is not negative or the rest fits. */
  lemma RemoveWithinCapacity(rows: Rows, ev: Event, a: Attendee)
    requires UniqueIds(rows) && a in rows && a.eventId == ev.id
    ensures WithinCapacity(rows, AfterRemove(rows, ev, a), ev) <==> !LeavingCosts(rows, ev, a)
  {
    DeleteKeepsIds(rows, a);
    DeleteWithinCapacity(rows, ev, a);
    DrainKeepsBound(rows, DeleteRows(rows, a.id), ev);
  }

  lemma DeleteKeepsSound(rows: Rows, a: Attendee, e: int)
    requires Sound(rows, e) && a in rows
    ensures Sound(DeleteRows(rows, a.id), e)
  {
    var i :| 0 <= i < |rows| && rows[i] == a;
    DeleteIsPointwise(rows, i);
  }

  lemma RemoveKeepsSound(rows: Rows, ev: Event, a: Attendee, e: int)
    requires Sound(rows, e) && a in rows
    ensures Sound(AfterRemove(rows, ev, a), e)
  {
    DeleteKeepsSound(rows, a, e);
    DrainKeepsSound(DeleteRows(rows, a.id), ev, e);
  }

  lemma OrganizerKeepsSound(rows: Rows, ev: Event, a: Attendee, req: OrganizerRequest, e: int)
    requires Sound(rows, e) && a in rows
    ensures Sound(Carry(rows, OrganizerDecision(ev, a, req, Headcount(rows, ev.id))), e)
    ensures Sound(AfterOrganizer(rows, ev, a, req), e)
  {
    var d := OrganizerDecision(ev, a, req, Headcount(rows, ev.id));
    OnlyRowWithId(rows, a);
    CarryKeepsSound(rows, d, e);
    DrainKeepsSound(Carry(rows, d), ev, e);
  }

  /** The organizer raises the party of a guest who is and stays attending past the capacity, the
      check UpdateByToken makes and this operation leaves out; or lets a negative party leave. */
  ghost predicate OrganizerOversells(rows: Rows, ev: Event, a: Attendee, req: OrganizerRequest) {
    var heads := Headcount(rows, ev.id);
    var d := OrganizerDecision(ev, a, req, heads);
    d.Store?
    && ((RaisesAttendingParty(a, req) && Exceeds(ev, heads + req.plusOnes.value - a.plusOnes))
        || (d.row.status != Attending && LeavingCosts(rows, ev, a)))
  }

  lemma OrganizerStoreWithinCapacity(rows: Rows, ev: Event, a: Attendee, req: OrganizerRequest)
    requires UniqueIds(rows) && a in rows && a.eventId == ev.id
    ensures WithinCapacity(rows, Carry(rows, OrganizerDecision(ev, a, req, Headcount(rows, ev.id))), ev)
            <==> !OrganizerOversells(rows, ev, a, req)
  {
    StoreMovesOneEvent(rows, ev, a, OrganizerDecision(ev, a, req, Headcount(rows, ev.id)));
  }

  /** An organizer update obeys the bound exactly when it does not oversell. */
  lemma OrganizerWithinCapacity(rows: Rows, ev: Event, a: Attendee, req: OrganizerRequest)
    requires UniqueIds(rows) && a in rows && a.eventId == ev.id
    ensures WithinCapacity(rows, AfterOrganizer(rows, ev, a, req), ev) <==> !OrganizerOversells(rows, ev, a, req)
  {
    var d := OrganizerDecision(ev, a, req, Headcount(rows, ev.id));
    OrganizerStoreWithinCapacity(rows, ev, a, req);
    CarryKeepsIds(rows, d);
    DrainKeepsBound(rows, Carry(rows, d), ev);
  }

  /** Manual promotion bypasses the capacity: it obeys the bound only when it adds no seats or the
      party fits. */
  lemma ManualPromotionWithinCapacity(rows: Rows, ev: Event, a: Attendee)
    requires UniqueIds(rows) && a in rows && a.eventId == ev.id && a.status == Waitlisted
    ensures UniqueIds(Promote(rows, a))
    ensures WithinCapacity(rows, Promote(rows, a), ev) <==> a.plusOnes < 0 || !Exceeds(ev, Headcount(rows, ev.id) + 1 + a.plusOnes)
  {
    var d := Store(a.(status := Attending));
    CarryKeepsIds(rows, d);
    StoreMovesOneEvent(rows, ev, a, d);
  }

  lemma ManualPromotionKeepsSound(rows: Rows, a: Attendee, e: int)
    requires Sound(rows, e) && a in rows
    ensures Sound(Promote(rows, a), e)
  {
  }
}
