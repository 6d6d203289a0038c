/**
 The RSVP service of internal/rsvp/service.go, one operation at a time.  Each method is
 proved to leave the table its effect function describes.
 */
module RsvpService {
  import opened Wrappers
  import opened AttendeeTable
  import opened AttendeeStore
  import opened Waitlist
  import opened RsvpRules
  import opened RsvpEffects
  import opened RsvpOutcomes

  predicate HasEmail(a: Attendee, req: SubmitRequest) {
    Present(req.email) && a.email == req.email
  }

  predicate HasPhone(a: Attendee, req: SubmitRequest) {
    Present(req.phone) && a.phone == req.phone
  }

  /** The lookup of SubmitRSVP: by email when one is given, and by phone when that finds
      nobody.  Several rows may match; the database returns any of them. */
  ghost predicate Matches(rows: Rows, e: int, req: SubmitRequest, found: Option<Attendee>) {
    match found
    case Some(a) => a in rows && a.eventId == e
                    && (HasEmail(a, req) || (HasPhone(a, req) && forall b :: b in rows && b.eventId == e ==> !HasEmail(b, req)))
    case None => forall a :: a in rows && a.eventId == e ==> !HasEmail(a, req) && !HasPhone(a, req)
  }

  class Service {
    const store: Store
    const events: map<int, Event>
    const shareTokens: map<int, int>  // share token to event id
    const smsEnabled: bool

    ghost predicate Valid()
      reads this, store
    {
      && UniqueIds(store.rows)
      && (forall id :: id in events ==> events[id].id == id)
      && (forall t :: t in shareTokens ==> shareTokens[t] in events)
    }

    constructor (events: map<int, Event>, shareTokens: map<int, int>, smsEnabled: bool)
      requires forall id :: id in events ==> events[id].id == id
      requires forall t :: t in shareTokens ==> shareTokens[t] in events
      ensures Valid() && fresh(store) && store.rows == []
    {
      this.events, this.shareTokens, this.smsEnabled := events, shareTokens, smsEnabled;
      store := new Store();
    }

    method Heads(e: int) returns (heads: int)
      ensures heads == Headcount(store.rows, e)
    {
      var groups := store.GroupByStatus(e);
      var stats := GetStats(groups, store.rows, e);
      heads := stats.attendingHeadcount;
    }

    method FindExisting(e: int, req: SubmitRequest) returns (existing: Option<Attendee>)
      ensures Matches(store.rows, e, req, existing)
      ensures existing.Some? ==> existing.value in store.rows && existing.value.eventId == e
    {
      existing := None;
      if Present(req.email) {
        existing := store.FindByEventAndEmail(e, req.email.value);
      }
      if existing == None && Present(req.phone) {
        existing := store.FindByEventAndPhone(e, req.phone.value);
      }
    }

    method SubmitRSVP(shareToken: int, req: SubmitRequest, newId: int, newToken: int, now: int)
      returns (r: Result<Attendee>, ghost found: Option<Attendee>)
      requires Valid() && !HasId(store.rows, newId)
      modifies store
      ensures Valid()
      ensures !RequestAcceptable(req) ==> r == Failure(Malformed) && store.rows == old(store.rows)
      ensures RequestAcceptable(req) && shareToken !in shareTokens ==> r == Failure(NotFound) && store.rows == old(store.rows)
      ensures RequestAcceptable(req) && shareToken in shareTokens ==>
                var ev := events[shareTokens[shareToken]];
                var refusal := SubmitRefusal(ev, req, now, smsEnabled);
                if refusal.Some? then r == Failure(refusal.value) && store.rows == old(store.rows)
                else
                  var d := SubmitDecision(ev, req, found, Headcount(old(store.rows), ev.id), newId, newToken, now);
                  Matches(old(store.rows), ev.id, req, found) && r == Reply(d, req.answersAccepted)
                  && store.rows == Carry(old(store.rows), d)
      ensures shareToken in shareTokens ==>
                SubmitOutcome(old(store.rows), store.rows, events[shareTokens[shareToken]], req, found, newId, newToken, now, smsEnabled, r)
    {
      hide Drain, Headcount, UniqueIds, RowById, UpdateRows, HasId, SubmitOutcome, Matches, ContactAcceptable, PastDeadline;
      found := None;
      if shareToken in shareTokens {
        SubmitMeetsOutcome(store.rows, events[shareTokens[shareToken]], req, None, newId, newToken, now, smsEnabled);
      }
      if !RequestAcceptable(req) { return Failure(Malformed), found; }
      var wanted := req.status.status;
      var plusOnes := if wanted == Declined then 0 else req.plusOnes;
      if shareToken !in shareTokens { return Failure(NotFound), found; }
      var ev := events[shareTokens[shareToken]];
      if !ev.published { return Failure(NotAccepting), found; }
      if PastDeadline(ev, now) { return Failure(Closed), found; }
      if !ContactAcceptable(ev, req, smsEnabled) { return Failure(Malformed), found; }

      var existing := FindExisting(ev.id, req);
      found := existing;
      SubmitMeetsOutcome(store.rows, ev, req, existing, newId, newToken, now, smsEnabled);
      ghost var d := SubmitDecision(ev, req, existing, Headcount(store.rows, ev.id), newId, newToken, now);
      assert SubmitRefusal(ev, req, now, smsEnabled) == None;

      var status := wanted;
      if wanted == Attending && ev.maxCapacity.Some? {
        var heads := Heads(ev.id);
        var current := 0;
        if existing.Some? && existing.value.status == Attending {
          current := 1 + existing.value.plusOnes;
        }
        if heads - current + 1 + plusOnes > ev.maxCapacity.value {
          if ev.waitlistEnabled {
            status := Waitlisted;
          } else {
            return Failure(AtCapacity), found;
          }
        }
      }
      if existing.Some? {
        var a := existing.value.(name := req.name, status := status, plusOnes := plusOnes);
        if req.email.Some? { a := a.(email := req.email); }
        if req.phone.Some? { a := a.(phone := req.phone); }
        assert d == RsvpRules.Store(a);
        CarryKeepsIds(store.rows, d);
        store.Update(a);
        if !req.answersAccepted { return Failure(BadAnswers), found; }
        r := Success(a);
      } else {
        var a := Attendee(newId, ev.id, newToken, req.name, req.email, req.phone, status, plusOnes, now);
        assert d == Insert(a);
        CarryKeepsIds(store.rows, d);
        store.Create(a);
        if !req.answersAccepted { return Failure(BadAnswers), found; }
        r := Success(a);
      }
    }

    method UpdateByToken(token: int, req: UpdateRequest, now: int) returns (r: Result<Attendee>, ghost found: Option<Attendee>)
      requires Valid()
      modifies store
      ensures Valid()
      ensures found.None? ==> (forall a :: a in old(store.rows) ==> a.token != token) && r == Failure(NotFound) && store.rows == old(store.rows)
      ensures found.Some? ==> found.value in old(store.rows) && found.value.token == token
      ensures found.Some? && found.value.eventId !in events ==> r == Failure(NotFound) && store.rows == old(store.rows)
      ensures found.Some? && found.value.eventId in events ==>
                var ev, a := events[found.value.eventId], found.value;
                var refusal := TokenRefusal(ev, a, req, now);
                if refusal.Some? then r == Failure(refusal.value) && store.rows == old(store.rows)
                else
                  r == Reply(TokenDecision(ev, a, req, Headcount(old(store.rows), ev.id)), req.answersAccepted)
                  && store.rows == AfterToken(old(store.rows), ev, a, req)
      ensures found.Some? && found.value.eventId in events ==>
                TokenOutcome(old(store.rows), store.rows, events[found.value.eventId], found.value, req, now, r)
    {
      hide Drain, Headcount, UniqueIds, RowById, UpdateRows, HasId, TokenOutcome;
      var row := store.FindByRSVPToken(token);
      found := row;
      if row == None { return Failure(NotFound), found; }
      var a := row.value;
      if a.eventId !in events { return Failure(NotFound), found; }
      var ev := events[a.eventId];
      TokenMeetsOutcome(store.rows, ev, a, req, now);
      if TokenRefusal(ev, a, req, now).Some? { return Failure(TokenRefusal(ev, a, req, now).value), found; }

      var oldStatus := a.status;
      if ev.maxCapacity.Some? {
        var heads := Heads(ev.id);
        if req.status == Given(Attending) {
          if a.status != Attending {
            if heads + 1 + Or(req.plusOnes, a.plusOnes) > ev.maxCapacity.value { return Failure(AtCapacity), found; }
          } else if req.plusOnes.Some? && req.plusOnes.value > a.plusOnes {
            if heads + (req.plusOnes.value - a.plusOnes) > ev.maxCapacity.value { return Failure(AtCapacity), found; }
          }
        } else if req.plusOnes.Some? && a.status == Attending && req.plusOnes.value > a.plusOnes {
          if heads + (req.plusOnes.value - a.plusOnes) > ev.maxCapacity.value { return Failure(AtCapacity), found; }
        }
      }
      if (req.name.Some? && req.name.value == "") || !req.wellFormed { return Failure(Malformed), found; }

      if req.name.Some? { a := a.(name := req.name.value); }
      if req.status.Given? { a := a.(status := req.status.status); }
      if req.plusOnes.Some? { a := a.(plusOnes := req.plusOnes.value); }
      if a.status == Declined { a := a.(plusOnes := 0); }
      ghost var d := TokenDecision(ev, row.value, req, Headcount(store.rows, ev.id));
      assert d == RsvpRules.Store(a);
      CarryKeepsIds(store.rows, d);
      store.Update(a);
      if !req.answersAccepted { return Failure(BadAnswers), found; }
      if oldStatus == Attending && (a.status == Declined || a.status == Maybe) {
        PromoteWaitlistLoop(ev.id);
      }
      r := Success(a);
    }

    method RemoveAttendee(e: int, id: int) returns (r: Result<()>)
      requires Valid()
      modifies store
      ensures Valid()
      ensures e !in events || !HasId(old(store.rows), id) ==> r == Failure(NotFound) && store.rows == old(store.rows)
      ensures e in events && HasId(old(store.rows), id) ==>
                var a := RowById(old(store.rows), id).value;
                if a.eventId != e then r == Failure(WrongEvent) && store.rows == old(store.rows)
                else r == Success(()) && store.rows == AfterRemove(old(store.rows), events[e], a)
                     && RemoveOutcome(old(store.rows), store.rows, events[e], a)
    {
      if e !in events { return Failure(NotFound); }
      var row := RowById(store.rows, id);
      if row == None { return Failure(NotFound); }
      var a := row.value;
      if a.eventId != e { return Failure(WrongEvent); }
      var wasAttending := a.status == Attending;
      DeleteKeepsIds(store.rows, a);
      RemoveMeetsOutcome(store.rows, events[e], a);
      store.Delete(id);
      if wasAttending {
        PromoteWaitlistLoop(e);
      }
      r := Success(());
    }

    method UpdateAttendeeAsOrganizer(e: int, id: int, req: OrganizerRequest) returns (r: Result<Attendee>)
      requires Valid()
      modifies store
      ensures Valid()
      ensures e !in events || !HasId(old(store.rows), id) ==> r == Failure(NotFound) && store.rows == old(store.rows)
      ensures e in events && HasId(old(store.rows), id) ==>
                var a := RowById(old(store.rows), id).value;
                r == Reply(OrganizerDecision(events[e], a, req, Headcount(old(store.rows), e)), true)
                && store.rows == AfterOrganizer(old(store.rows), events[e], a, req)
                && OrganizerOutcome(old(store.rows), store.rows, events[e], a, req, r)
    {
      hide Drain, Headcount, UniqueIds, RowById, UpdateRows, HasId, OrganizerOutcome;
      if e !in events { return Failure(NotFound); }
      var ev := events[e];
      var row := RowById(store.rows, id);
      if row == None { return Failure(NotFound); }
      var a := row.value;
      OrganizerMeetsOutcome(store.rows, ev, a, req);
      if a.eventId != e { return Failure(WrongEvent); }
      if req.plusOnes.Some? && req.plusOnes.value < 0 { return Failure(Malformed); }
      var oldStatus := a.status;
      if (req.name.Some? && req.name.value == "") || !req.wellFormed { return Failure(Malformed); }
      if req.status == Given(Attending) && ev.maxCapacity.Some? && a.status != Attending {
        var heads := Heads(e);
        if heads + 1 + Or(req.plusOnes, a.plusOnes) > ev.maxCapacity.value { return Failure(AtCapacity); }
      }
      if req.name.Some? { a := a.(name := req.name.value); }
      if req.email.Some? { a := a.(email := req.email); }
      if req.phone.Some? { a := a.(phone := req.phone); }
      if req.status.Unrecognised? { return Failure(Malformed); }
      if req.status.Given? { a := a.(status := req.status.status); }
      if req.plusOnes.Some? { a := a.(plusOnes := req.plusOnes.value); }
      if a.status == Declined { a := a.(plusOnes := 0); }
      ghost var d := OrganizerDecision(ev, row.value, req, Headcount(store.rows, e));
      assert d == RsvpRules.Store(a);
      CarryKeepsIds(store.rows, d);
      store.Update(a);
      if oldStatus == Attending && a.status != Attending {
        PromoteWaitlistLoop(e);
      }
      r := Success(a);
    }

    /** Manual promotion: no lock and no capacity check. */
    method PromoteAttendee(e: int, id: int) returns (r: Result<Attendee>)
      requires Valid()
      modifies store
      ensures Valid()
      ensures !HasId(old(store.rows), id) ==> r == Failure(NotFound) && store.rows == old(store.rows)
      ensures HasId(old(store.rows), id) ==>
                var a := RowById(old(store.rows), id).value;
                if a.eventId != e then r == Failure(WrongEvent) && store.rows == old(store.rows)
                else if a.status != Waitlisted then r == Failure(NotWaitlisted) && store.rows == old(store.rows)
                else r == Success(a.(status := Attending)) && store.rows == Promote(old(store.rows), a)
                     && Replaced(old(store.rows), store.rows, a.(status := Attending))
    {
      var row := RowById(store.rows, id);
      if row == None { return Failure(NotFound); }
      var a := row.value;
      if a.eventId != e { return Failure(WrongEvent); }
      if a.status != Waitlisted { return Failure(NotWaitlisted); }
      StoreReplaces(store.rows, a, a.(status := Attending));
      a := a.(status := Attending);
      CarryKeepsIds(store.rows, RsvpRules.Store(a));
      store.Update(a);
      r := Success(a);
    }

    method PromoteFromWaitlist(e: int) returns (promoted: Option<Attendee>)
      requires Valid() && e in events
      modifies store
      ensures Valid()
      ensures var ev, rows := events[e], old(store.rows);
              if ev.maxCapacity.None? || !ev.waitlistEnabled || NextPromoted(rows, e, ev.maxCapacity.value).None?
              then promoted == None && store.rows == rows
              else promoted.Some? && store.rows == Promote(rows, NextPromoted(rows, e, ev.maxCapacity.value).value)
      ensures PromotionOutcome(old(store.rows), store.rows, events[e], promoted)
    {
      hide PromotionOutcome, Promotable;
      promoted := None;
      var ev := events[e];
      PromotionMeetsOutcome(store.rows, ev);
      forall f ensures Promotable(store.rows, ev, f)
                       <==> ev.maxCapacity.Some? && ev.waitlistEnabled && NextPromoted(store.rows, e, ev.maxCapacity.value) == Some(f)
      {
        NextPromotedExactly(store.rows, ev, f);
      }
      if ev.maxCapacity == None || !ev.waitlistEnabled { return; }
      var heads := Heads(e);
      if heads >= ev.maxCapacity.value { return; }
      var waitlisted := FirstWaitlisted(store.rows, e);
      if waitlisted == None { return; }
      if heads + 1 + waitlisted.value.plusOnes > ev.maxCapacity.value { return; }
      var a := waitlisted.value.(status := Attending);
      CarryKeepsIds(store.rows, RsvpRules.Store(a));
      store.Update(a);
      promoted := Some(a);
    }

    /** Ends, because every promotion shortens the waitlist. */
    method PromoteWaitlistLoop(e: int)
      requires Valid() && e in events
      modifies store
      ensures Valid()
      ensures store.rows == Drain(old(store.rows), events[e])
    {
      while true
        invariant Valid()
        invariant Drain(store.rows, events[e]) == Drain(old(store.rows), events[e])
        decreases WaitlistLength(store.rows, e)
      {
        ghost var before := store.rows;
        var promoted := PromoteFromWaitlist(e);
        if promoted == None { break; }
        PromotionShrinksWaitlist(before, e);
        WaitlistLengthIsNat(before, e);
        WaitlistLengthIsNat(store.rows, e);
      }
    }
  }
}
