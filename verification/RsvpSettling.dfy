/**
 When an RSVP operation leaves somebody at the head of the waitlist who would fit.
 Source: internal/rsvp/service.go, which runs the promotion loop after some of the writes that
 free seats or change the head of the waitlist, but not after all of them.
 */
module RsvpSettling {
  import opened Wrappers
  import opened AttendeeTable
  import opened Waitlist
  import opened RsvpRules
  import opened RsvpEffects

  /** The loop would promote this guest. */
  predicate Fits(cap: int, heads: int, first: Option<Attendee>) {
    first.Some? && heads < cap && heads + 1 + first.value.plusOnes <= cap
  }

  lemma SettledMeans(rows: Rows, e: int, cap: int)
    ensures Settled(rows, e, cap) <==> !Fits(cap, Headcount(rows, e), FirstWaitlisted(rows, e))
  {
  }

  // ---------- the head of the waitlist after a write ----------

  /** The head of a waitlist that row joins, if it waits. */
  function HeadWith(first: Option<Attendee>, row: Attendee, e: int): Option<Attendee> {
    if Waits(row, e) && (first.None? || Before(row, first.value)) then Some(row) else first
  }

  /** The first guest waiting at e other than the one with this id. */
  function FirstOther(rows: Rows, e: int, id: int): Option<Attendee> {
    FirstWaitlisted(DeleteRows(rows, id), e)
  }

  lemma {:induction false} HeadAfterStore(rows: Rows, a: Attendee, row: Attendee, e: int)
    requires UniqueIds(rows) && a in rows && row.id == a.id && Merge(a, row) == row
    ensures FirstWaitlisted(UpdateRows(rows, row), e) == HeadWith(FirstOther(rows, e, a.id), row, e)
  {
    var rest := rows[1..];
    assert forall i :: 0 <= i < |rest| ==> rest[i] == rows[i + 1];
    assert UpdateRows(rows, row)[1..] == UpdateRows(rest, row);
    HeadOfRows(UpdateRows(rows, row), e);
    if rows[0] == a {
      UpdateMisses(rest, row);
      DeleteMisses(rest, a.id);
    } else {
      assert rows[0].id != a.id by { var i :| 0 <= i < |rows| && rows[i] == a; }
      HeadAfterStore(rest, a, row, e);
      OtherIsElsewhere(rest, e, a);
      assert DeleteRows(rows, a.id)[1..] == DeleteRows(rest, a.id);
      HeadOfRows(DeleteRows(rows, a.id), e);
      hide *;
      EitherJoinsFirst(FirstOther(rest, e, a.id), rows[0], row, e);
    }
  }

  lemma HeadOfRows(rows: Rows, e: int)
    requires rows != []
    ensures FirstWaitlisted(rows, e) == HeadWith(FirstWaitlisted(rows[1..], e), rows[0], e)
  {
  }

  lemma EitherJoinsFirst(first: Option<Attendee>, a: Attendee, b: Attendee, e: int)
    requires a.id != b.id && (first.Some? ==> first.value.id != a.id && first.value.id != b.id)
    ensures HeadWith(HeadWith(first, a, e), b, e) == HeadWith(HeadWith(first, b, e), a, e)
  {
  }

  lemma OtherIsElsewhere(rows: Rows, e: int, a: Attendee)
    requires UniqueIds(rows) && a in rows
    ensures var f := FirstOther(rows, e, a.id); f.Some? ==> f.value in rows && f.value.id != a.id && Waits(f.value, e)
  {
    var i :| 0 <= i < |rows| && rows[i] == a;
    DeleteIsPointwise(rows, i);
    FirstWaitlistedIsFirst(DeleteRows(rows, a.id), e);
  }

  lemma {:induction false} HeadAfterInsert(rows: Rows, row: Attendee, e: int)
    requires UniqueIds(rows) && !HasId(rows, row.id)
    ensures FirstWaitlisted(rows + [row], e) == HeadWith(FirstWaitlisted(rows, e), row, e)
  {
    if rows == [] {
      assert rows + [row] == [row] && [row][1..] == [];
    } else {
      var rest := rows[1..];
      assert forall i :: 0 <= i < |rest| ==> rest[i] == rows[i + 1];
      assert (rows + [row])[1..] == rest + [row];
      HeadAfterInsert(rest, row, e);
      FirstWaitlistedIsFirst(rest, e);
    }
  }

  /** A guest who is not the head of the waitlist leaves it as it is. */
  lemma {:induction false} HeadAfterDelete(rows: Rows, a: Attendee, e: int)
    requires UniqueIds(rows) && a in rows && FirstWaitlisted(rows, e) != Some(a)
    ensures FirstOther(rows, e, a.id) == FirstWaitlisted(rows, e)
  {
    var rest := rows[1..];
    assert forall i :: 0 <= i < |rest| ==> rest[i] == rows[i + 1];
    if rows[0] == a {
      DeleteMisses(rest, a.id);
    } else {
      assert rows[0].id != a.id by { var i :| 0 <= i < |rows| && rows[i] == a; }
      FirstWaitlistedIsFirst(rest, e);
      if FirstWaitlisted(rest, e) == Some(a) {
        assert Waits(rows[0], e) && Before(rows[0], a);
        OtherIsElsewhere(rest, e, a);
      } else {
        HeadAfterDelete(rest, a, e);
      }
    }
  }

  // ---------- operation by operation ----------

  /** After row has been stored over a, the head of the waitlist does not fit. */
  ghost predicate StoreSettles(rows: Rows, ev: Event, a: Attendee, row: Attendee)
    requires ev.maxCapacity.Some?
  {
    !Fits(ev.maxCapacity.value, Headcount(rows, ev.id) - Seats(ev.id)(a) + Seats(ev.id)(row), HeadWith(FirstOther(rows, ev.id, a.id), row, ev.id))
  }

  lemma StoreSettlesExactly(rows: Rows, ev: Event, a: Attendee, row: Attendee)
    requires UniqueIds(rows) && ev.maxCapacity.Some? && a in rows && row.id == a.id && Merge(a, row) == row
    ensures Settled(UpdateRows(rows, row), ev.id, ev.maxCapacity.value) <==> StoreSettles(rows, ev, a, row)
  {
    HeadsAfterStore(rows, a, row, ev.id);
    HeadAfterStore(rows, a, row, ev.id);
    SettledMeans(UpdateRows(rows, row), ev.id, ev.maxCapacity.value);
  }

  /** A settled table stays settled when a new guest submits. */
  lemma NewGuestKeepsSettled(rows: Rows, ev: Event, req: SubmitRequest, newId: int, newToken: int, now: int)
    requires UniqueIds(rows) && RequestAcceptable(req) && !HasId(rows, newId)
    requires ev.maxCapacity.Some? && Settled(rows, ev.id, ev.maxCapacity.value)
    ensures Settled(Carry(rows, SubmitDecision(ev, req, None, Headcount(rows, ev.id), newId, newToken, now)), ev.id, ev.maxCapacity.value)
  {
    var d := SubmitDecision(ev, req, None, Headcount(rows, ev.id), newId, newToken, now);
    if d.Insert? {
      HeadAfterInsert(rows, d.row, ev.id);
      SumAppend(rows, d.row, Seats(ev.id));
    }
  }

  /** After a known guest's submission, which never promotes. */
  lemma SubmitSettlesExactly(rows: Rows, ev: Event, req: SubmitRequest, guest: Attendee, newId: int, newToken: int, now: int)
    requires UniqueIds(rows) && RequestAcceptable(req) && ev.maxCapacity.Some? && guest in rows && guest.eventId == ev.id
    ensures var d := SubmitDecision(ev, req, Some(guest), Headcount(rows, ev.id), newId, newToken, now);
            d.Store? ==> (Settled(Carry(rows, d), ev.id, ev.maxCapacity.value) <==> StoreSettles(rows, ev, guest, d.row))
  {
    var d := SubmitDecision(ev, req, Some(guest), Headcount(rows, ev.id), newId, newToken, now);
    if d.Store? { StoreSettlesExactly(rows, ev, guest, d.row); }
  }

  /** After an update by token: always if it promoted, otherwise by the row. */
  lemma TokenSettlesExactly(rows: Rows, ev: Event, a: Attendee, req: UpdateRequest)
    requires UniqueIds(rows) && ev.maxCapacity.Some? && ev.waitlistEnabled && a in rows && a.eventId == ev.id
    ensures var d := TokenDecision(ev, a, req, Headcount(rows, ev.id));
            d.Store? ==>
              (Settled(AfterToken(rows, ev, a, req), ev.id, ev.maxCapacity.value) <==> TokenPromotes(a, req, d) || StoreSettles(rows, ev, a, d.row))
  {
    var d := TokenDecision(ev, a, req, Headcount(rows, ev.id));
    CarryKeepsIds(rows, d);
    if d.Store? {
      LoopSettlesWithinCapacity(Carry(rows, d), ev.id, ev.maxCapacity.value);
      StoreSettlesExactly(rows, ev, a, d.row);
    }
  }

  lemma OrganizerSettlesExactly(rows: Rows, ev: Event, a: Attendee, req: OrganizerRequest)
    requires UniqueIds(rows) && ev.maxCapacity.Some? && ev.waitlistEnabled && a in rows && a.eventId == ev.id
    ensures var d := OrganizerDecision(ev, a, req, Headcount(rows, ev.id));
            d.Store? ==>
              (Settled(AfterOrganizer(rows, ev, a, req), ev.id, ev.maxCapacity.value) <==> OrganizerFrees(a, d) || StoreSettles(rows, ev, a, d.row))
  {
    var d := OrganizerDecision(ev, a, req, Headcount(rows, ev.id));
    CarryKeepsIds(rows, d);
    if d.Store? {
      LoopSettlesWithinCapacity(Carry(rows, d), ev.id, ev.maxCapacity.value);
      StoreSettlesExactly(rows, ev, a, d.row);
    }
  }

  /** A removal from a settled table leaves it unsettled exactly when the head of the waitlist was
      removed and the next guest fits. */
  lemma RemoveSettlesExactly(rows: Rows, ev: Event, a: Attendee)
    requires UniqueIds(rows) && ev.maxCapacity.Some? && ev.waitlistEnabled && a in rows && a.eventId == ev.id
    requires Settled(rows, ev.id, ev.maxCapacity.value)
    ensures Settled(AfterRemove(rows, ev, a), ev.id, ev.maxCapacity.value)
            <==> !(FirstWaitlisted(rows, ev.id) == Some(a) && Fits(ev.maxCapacity.value, Headcount(rows, ev.id), FirstOther(rows, ev.id, a.id)))
  {
    DeleteKeepsIds(rows, a);
    FirstWaitlistedIsFirst(rows, ev.id);
    LoopSettlesWithinCapacity(DeleteRows(rows, a.id), ev.id, ev.maxCapacity.value);
    HeadsAfterDelete(rows, a, ev.id);
    if FirstWaitlisted(rows, ev.id) != Some(a) { HeadAfterDelete(rows, a, ev.id); }
  }

  /** After a manual promotion: by the row. */
  lemma ManualPromotionSettlesExactly(rows: Rows, ev: Event, a: Attendee)
    requires UniqueIds(rows) && ev.maxCapacity.Some? && a in rows && a.eventId == ev.id && a.status == Waitlisted
    ensures Settled(Promote(rows, a), ev.id, ev.maxCapacity.value) <==> StoreSettles(rows, ev, a, a.(status := Attending))
  {
    StoreSettlesExactly(rows, ev, a, a.(status := Attending));
  }

  /** So a settled table stays settled when a party that is not negative is promoted by hand. */
  lemma ManualPromotionKeepsSettled(rows: Rows, ev: Event, a: Attendee)
    requires UniqueIds(rows) && ev.maxCapacity.Some? && a in rows && a.eventId == ev.id && a.status == Waitlisted
    requires a.plusOnes >= -1 && Settled(rows, ev.id, ev.maxCapacity.value)
    ensures Settled(Promote(rows, a), ev.id, ev.maxCapacity.value)
  {
    ManualPromotionSettlesExactly(rows, ev, a);
    FirstWaitlistedIsFirst(rows, ev.id);
    if FirstWaitlisted(rows, ev.id) != Some(a) { HeadAfterDelete(rows, a, ev.id); }
  }

  // ---------- seats freed without a promotion ----------

  /** A guest who does not wait gives up seats and still does not wait. */
  lemma FreedSeatsFit(rows: Rows, ev: Event, a: Attendee, row: Attendee)
    requires UniqueIds(rows) && ev.maxCapacity.Some? && a in rows && !Waits(a, ev.id) && !Waits(row, ev.id)
    ensures StoreSettles(rows, ev, a, row)
            <==> !Fits(ev.maxCapacity.value, Headcount(rows, ev.id) - Seats(ev.id)(a) + Seats(ev.id)(row), FirstWaitlisted(rows, ev.id))
  {
    FirstWaitlistedIsFirst(rows, ev.id);
    HeadAfterDelete(rows, a, ev.id);
  }

  /** A guest who leaves attending through SubmitRSVP leaves a promotable guest behind exactly when
      the head of the waitlist fits into the seats given up; only the guest's row changes. */
  lemma SubmitPromotesNobody(rows: Rows, ev: Event, req: SubmitRequest, guest: Attendee, newId: int, newToken: int, now: int)
    requires UniqueIds(rows) && RequestAcceptable(req) && req.status != Given(Attending) && ev.maxCapacity.Some?
    requires guest in rows && guest.eventId == ev.id && guest.status == Attending
    ensures var after := Carry(rows, SubmitDecision(ev, req, Some(guest), Headcount(rows, ev.id), newId, newToken, now));
            && (Settled(after, ev.id, ev.maxCapacity.value)
                <==> !Fits(ev.maxCapacity.value, Headcount(rows, ev.id) - 1 - guest.plusOnes, FirstWaitlisted(rows, ev.id)))
            && |after| == |rows| && forall i :: 0 <= i < |rows| && rows[i].id != guest.id ==> after[i] == rows[i]
  {
    var d := SubmitDecision(ev, req, Some(guest), Headcount(rows, ev.id), newId, newToken, now);
    SubmitSettlesExactly(rows, ev, req, guest, newId, newToken, now);
    FreedSeatsFit(rows, ev, guest, d.row);
  }

  /** Nor does a guest who leaves by token with answers that are rejected. */
  lemma RejectedAnswersPromoteNobody(rows: Rows, ev: Event, a: Attendee, req: UpdateRequest)
    requires UniqueIds(rows) && ev.maxCapacity.Some? && ev.waitlistEnabled && a in rows && a.eventId == ev.id && !req.answersAccepted
    requires TokenFrees(a, TokenDecision(ev, a, req, Headcount(rows, ev.id)))
    ensures Settled(AfterToken(rows, ev, a, req), ev.id, ev.maxCapacity.value)
            <==> !Fits(ev.maxCapacity.value, Headcount(rows, ev.id) - 1 - a.plusOnes, FirstWaitlisted(rows, ev.id))
  {
    TokenSettlesExactly(rows, ev, a, req);
    FreedSeatsFit(rows, ev, a, TokenDecision(ev, a, req, Headcount(rows, ev.id)).row);
  }

  /** Lowering the plus-ones of a guest who stays attending promotes nobody either, by token... */
  lemma LoweredByToken(rows: Rows, ev: Event, a: Attendee, plusOnes: int, accepted: bool)
    requires UniqueIds(rows) && ev.maxCapacity.Some? && ev.waitlistEnabled
    requires a in rows && a.eventId == ev.id && a.status == Attending && plusOnes <= a.plusOnes
    ensures Settled(AfterToken(rows, ev, a, UpdateRequest(None, Absent, Some(plusOnes), true, accepted)), ev.id, ev.maxCapacity.value)
            <==> !Fits(ev.maxCapacity.value, Headcount(rows, ev.id) - a.plusOnes + plusOnes, FirstWaitlisted(rows, ev.id))
  {
    TokenSettlesExactly(rows, ev, a, UpdateRequest(None, Absent, Some(plusOnes), true, accepted));
    FreedSeatsFit(rows, ev, a, a.(plusOnes := plusOnes));
  }

  /** ...or by the organizer. */
  lemma LoweredByOrganizer(rows: Rows, ev: Event, a: Attendee, plusOnes: nat)
    requires UniqueIds(rows) && ev.maxCapacity.Some? && ev.waitlistEnabled
    requires a in rows && a.eventId == ev.id && a.status == Attending && plusOnes <= a.plusOnes
    ensures Settled(AfterOrganizer(rows, ev, a, OrganizerRequest(None, None, None, Absent, Some(plusOnes), true)), ev.id, ev.maxCapacity.value)
            <==> !Fits(ev.maxCapacity.value, Headcount(rows, ev.id) - a.plusOnes + plusOnes, FirstWaitlisted(rows, ev.id))
  {
    OrganizerSettlesExactly(rows, ev, a, OrganizerRequest(None, None, None, Absent, Some(plusOnes), true));
    FreedSeatsFit(rows, ev, a, a.(plusOnes := plusOnes));
  }
}
