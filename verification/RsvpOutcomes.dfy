/**
 What a guest or organizer gets from a request, in the columns of the table, the seats the
 others take and the fields of the request: who is seated, who is put on the waitlist, who is
 turned away, and which columns are written.  Source: internal/rsvp/service.go.
 */
module RsvpOutcomes {
  import opened Wrappers
  import opened AttendeeTable
  import opened Waitlist
  import opened RsvpRules
  import opened RsvpEffects

  // ---------- room for a party ----------

  /** The seats a party needs are free once `own`, the guest's own row, is set aside. */
  ghost predicate HasRoom(rows: Rows, ev: Event, own: Option<Attendee>, plusOnes: int) {
    var others := if own.Some? then DeleteRows(rows, own.value.id) else rows;
    ev.maxCapacity.None? || Headcount(others, ev.id) + 1 + plusOnes <= ev.maxCapacity.value
  }

  /** The row under `row.id` is `row`, and every other row stays. */
  ghost predicate Replaced(rows: Rows, after: Rows, row: Attendee) {
    && |after| == |rows|
    && HasId(rows, row.id)
    && forall i :: 0 <= i < |rows| ==> after[i] == if rows[i].id == row.id then row else rows[i]
  }

  lemma StoreReplaces(rows: Rows, a: Attendee, row: Attendee)
    requires UniqueIds(rows) && a in rows
    requires row.id == a.id && row.eventId == a.eventId && row.token == a.token && row.createdAt == a.createdAt
    ensures Replaced(rows, UpdateRows(rows, row), row)
  {
    var i :| 0 <= i < |rows| && rows[i] == a;
  }

  lemma RoomWithout(rows: Rows, ev: Event, a: Attendee, plusOnes: int)
    requires UniqueIds(rows) && a in rows && a.eventId == ev.id
    ensures HasRoom(rows, ev, Some(a), plusOnes)
            <==> (ev.maxCapacity.Some? ==>
                    Headcount(rows, ev.id) - (if a.status == Attending then 1 + a.plusOnes else 0) + 1 + plusOnes <= ev.maxCapacity.value)
  {
    HeadsAfterDelete(rows, a, ev.id);
  }

  // ---------- SubmitRSVP ----------

  /** The error for a request that does not reach the guest list. */
  ghost predicate SubmitTurnedAway(ev: Event, req: SubmitRequest, now: int, sms: bool, error: Error) {
    var email := req.email.Some? && req.email.value != "";
    var phone := req.phone.Some? && req.phone.value != "";
    var malformed := req.name == "" || !req.wellFormed || req.plusOnes < 0 || req.status !in {Given(Attending), Given(Maybe), Given(Declined)};
    var closed := ev.deadline.Some? && ev.deadline.value < now;
    var unreachable := || (!email && !phone)
                       || (!email && (ev.contact == EmailOnly || ev.contact == EmailAndPhone || !sms))
                       || (!phone && (ev.contact == PhoneOnly || ev.contact == EmailAndPhone));
    match error
    case Malformed => malformed || (ev.published && !closed && unreachable)
    case NotAccepting => !malformed && !ev.published
    case Closed => !malformed && ev.published && closed
    case _ => false
  }

  /** The columns a submission writes. */
  ghost predicate SubmittedRow(ev: Event, req: SubmitRequest, found: Option<Attendee>, newId: int, newToken: int, now: int,
                               full: bool, row: Attendee)
  {
    && row.eventId == ev.id && row.name == req.name
    && (full ==> row.status == Waitlisted)
    && (!full ==> req.status == Given(row.status))
    && row.plusOnes == (if row.status == Declined then 0 else req.plusOnes)
    && row.email == (if req.email.Some? || found.None? then req.email else found.value.email)
    && row.phone == (if req.phone.Some? || found.None? then req.phone else found.value.phone)
    && (found.None? ==> row.id == newId && row.token == newToken && row.createdAt == now)
    && (found.Some? ==> row.id == found.value.id && row.token == found.value.token && row.createdAt == found.value.createdAt)
  }

  /** An attending guest who does not fit is put on the waitlist, or turned away without one;
      everybody else gets the status asked for.  `found` is the row of a guest already on the list. */
  ghost predicate SubmitOutcome(rows: Rows, after: Rows, ev: Event, req: SubmitRequest, found: Option<Attendee>,
                                newId: int, newToken: int, now: int, sms: bool, r: Result<Attendee>)
  {
    var full := req.status == Given(Attending) && !HasRoom(rows, ev, found, req.plusOnes);
    if (exists error :: SubmitTurnedAway(ev, req, now, sms, error)) then
      after == rows && r.Failure? && SubmitTurnedAway(ev, req, now, sms, r.error)
    else if full && !ev.waitlistEnabled then
      after == rows && r == Failure(AtCapacity)
    else
      exists row :: SubmittedRow(ev, req, found, newId, newToken, now, full, row)
                    && (if found.Some? then Replaced(rows, after, row) else after == rows + [row])
                    && r == if req.answersAccepted then Success(row) else Failure(BadAnswers)
  }

  lemma TurnedAwayExactly(ev: Event, req: SubmitRequest, now: int, sms: bool, error: Error)
    ensures SubmitTurnedAway(ev, req, now, sms, error) <==> SubmitRefusal(ev, req, now, sms) == Some(error)
  {
  }

  lemma SubmitMeetsOutcome(rows: Rows, ev: Event, req: SubmitRequest, found: Option<Attendee>, newId: int, newToken: int, now: int, sms: bool)
    requires UniqueIds(rows)
    requires found.Some? ==> found.value in rows && found.value.eventId == ev.id
    ensures var refusal := SubmitRefusal(ev, req, now, sms);
            var d := if refusal.Some? then Refuse(refusal.value)
                     else SubmitDecision(ev, req, found, Headcount(rows, ev.id), newId, newToken, now);
            SubmitOutcome(rows, Carry(rows, d), ev, req, found, newId, newToken, now, sms, Reply(d, req.answersAccepted))
  {
    hide SubmitTurnedAway, HasRoom, SubmitRefusal, Headcount, UpdateRows, Replaced;
    forall error ensures SubmitTurnedAway(ev, req, now, sms, error) <==> SubmitRefusal(ev, req, now, sms) == Some(error) {
      TurnedAwayExactly(ev, req, now, sms, error);
    }
    if SubmitRefusal(ev, req, now, sms).None? {
      AdmittedIsAcceptable(ev, req, now, sms);
      SubmitRoom(rows, ev, req, found);
      var d := SubmitDecision(ev, req, found, Headcount(rows, ev.id), newId, newToken, now);
      if d.Store? { StoreReplaces(rows, found.value, d.row); }
      var full := req.status == Given(Attending) && !HasRoom(rows, ev, found, req.plusOnes);
      if !d.Refuse? { assert SubmittedRow(ev, req, found, newId, newToken, now, full, d.row); }
    }
  }

  lemma AdmittedIsAcceptable(ev: Event, req: SubmitRequest, now: int, sms: bool)
    requires SubmitRefusal(ev, req, now, sms).None?
    ensures RequestAcceptable(req)
  {
  }

  lemma SubmitRoom(rows: Rows, ev: Event, req: SubmitRequest, found: Option<Attendee>)
    requires UniqueIds(rows) && (found.Some? ==> found.value in rows && found.value.eventId == ev.id)
    ensures HasRoom(rows, ev, found, req.plusOnes)
            <==> !Exceeds(ev, Headcount(rows, ev.id) - Contribution(found) + 1 + req.plusOnes)
  {
    if found.Some? { RoomWithout(rows, ev, found.value, req.plusOnes); }
  }

  // ---------- the promotion loop ----------

  /** The loop took `between` to `after`: it runs only with a capacity and a waitlist. */
  ghost predicate LoopRan(between: Rows, after: Rows, ev: Event) {
    if ev.maxCapacity.Some? && ev.waitlistEnabled then UniqueIds(between) && after == Drained(between, ev.id, ev.maxCapacity.value)
    else after == between
  }

  /** `row` is stored over the one with its id, and the loop follows if it gave up seats. */
  ghost predicate StoredThenLoop(rows: Rows, after: Rows, ev: Event, row: Attendee, freed: bool) {
    exists between :: Replaced(rows, between, row) && if freed then LoopRan(between, after, ev) else after == between
  }

  /** Nobody at the event has waited longer; of guests who joined together, nobody has a smaller id. */
  ghost predicate FirstInLine(rows: Rows, e: int, f: Attendee) {
    && f in rows && f.eventId == e && f.status == Waitlisted
    && forall r :: r in rows && r.eventId == e && r.status == Waitlisted ==>
         f.createdAt < r.createdAt || (f.createdAt == r.createdAt && f.id <= r.id)
  }

  /** The guest the next turn of the loop seats. */
  ghost predicate Promotable(rows: Rows, ev: Event, f: Attendee) {
    && ev.maxCapacity.Some? && ev.waitlistEnabled
    && FirstInLine(rows, ev.id, f)
    && Headcount(rows, ev.id) < ev.maxCapacity.value
    && Headcount(rows, ev.id) + 1 + f.plusOnes <= ev.maxCapacity.value
  }

  ghost predicate PromotionOutcome(rows: Rows, after: Rows, ev: Event, promoted: Option<Attendee>) {
    match promoted
    case None => after == rows && forall f :: !Promotable(rows, ev, f)
    case Some(seated) => exists f :: Promotable(rows, ev, f) && seated == f.(status := Attending) && Replaced(rows, after, seated)
  }

  lemma NextPromotedExactly(rows: Rows, ev: Event, f: Attendee)
    requires UniqueIds(rows)
    ensures Promotable(rows, ev, f)
            <==> ev.maxCapacity.Some? && ev.waitlistEnabled && NextPromoted(rows, ev.id, ev.maxCapacity.value) == Some(f)
  {
    hide Headcount;
    FirstWaitlistedIsFirst(rows, ev.id);
  }

  lemma PromotionMeetsOutcome(rows: Rows, ev: Event)
    requires UniqueIds(rows)
    ensures (forall f :: !Promotable(rows, ev, f)) ==> PromotionOutcome(rows, rows, ev, None)
    ensures forall f :: Promotable(rows, ev, f) ==> PromotionOutcome(rows, Promote(rows, f), ev, Some(f.(status := Attending)))
  {
    hide Headcount, UpdateRows, Replaced;
    forall f | Promotable(rows, ev, f) ensures PromotionOutcome(rows, Promote(rows, f), ev, Some(f.(status := Attending))) {
      StoreReplaces(rows, f, f.(status := Attending));
    }
  }

  // ---------- UpdateByToken ----------

  /** The error for an update that is turned away without a look at the guest list. */
  ghost predicate TokenTurnedAway(ev: Event, a: Attendee, req: UpdateRequest, now: int, error: Error) {
    var closed := ev.deadline.Some? && ev.deadline.value < now;
    || (error == Closed && closed)
    || (error == Malformed && !closed
        && (|| req.status !in {Absent, Given(Attending), Given(Maybe), Given(Declined)}
            || (req.plusOnes.Some? && req.plusOnes.value < 0)
            || (a.status == Waitlisted && req.status == Given(Attending))))
  }

  /** The capacity is looked at when a guest asks to attend, and when an attending guest raises the
      party, even to decline with it. */
  ghost predicate TokenNeedsSeats(a: Attendee, req: UpdateRequest) {
    if a.status == Attending then req.plusOnes.Some? && req.plusOnes.value > a.plusOnes else req.status == Given(Attending)
  }

  /** The columns an update by token writes; no contact field is one of them. */
  ghost predicate TokenRow(a: Attendee, req: UpdateRequest, row: Attendee) {
    && row.id == a.id && row.eventId == a.eventId && row.token == a.token && row.createdAt == a.createdAt
    && row.email == a.email && row.phone == a.phone
    && (req.name.Some? ==> row.name == req.name.value) && (req.name.None? ==> row.name == a.name)
    && (req.status.Given? ==> row.status == req.status.status) && (!req.status.Given? ==> row.status == a.status)
    && row.plusOnes == if row.status == Declined then 0 else if req.plusOnes.Some? then req.plusOnes.value else a.plusOnes
  }

  ghost predicate TokenOutcome(rows: Rows, after: Rows, ev: Event, a: Attendee, req: UpdateRequest, now: int, r: Result<Attendee>) {
    var party := if req.plusOnes.Some? then req.plusOnes.value else a.plusOnes;
    if (exists error :: TokenTurnedAway(ev, a, req, now, error)) then
      after == rows && r.Failure? && TokenTurnedAway(ev, a, req, now, r.error)
    else if TokenNeedsSeats(a, req) && !HasRoom(rows, ev, Some(a), party) then
      after == rows && r == Failure(AtCapacity)
    else if req.name == Some("") || !req.wellFormed then
      after == rows && r == Failure(Malformed)
    else
      exists row :: TokenRow(a, req, row)
                    && StoredThenLoop(rows, after, ev, row, a.status == Attending && row.status != Attending && req.answersAccepted)
                    && r == if req.answersAccepted then Success(row) else Failure(BadAnswers)
  }

  lemma TokenTurnedAwayExactly(ev: Event, a: Attendee, req: UpdateRequest, now: int, error: Error)
    ensures TokenTurnedAway(ev, a, req, now, error) <==> TokenRefusal(ev, a, req, now) == Some(error)
  {
  }

  /** The check is the same in both cases: without the guest's own row, the new party fits. */
  lemma TokenRoom(rows: Rows, ev: Event, a: Attendee, req: UpdateRequest)
    requires UniqueIds(rows) && a in rows && a.eventId == ev.id
    ensures var added, party := TokenSeatsAdded(a, req), Or(req.plusOnes, a.plusOnes);
            added.Some? && Exceeds(ev, Headcount(rows, ev.id) + added.value)
            <==> TokenNeedsSeats(a, req) && !HasRoom(rows, ev, Some(a), party)
  {
    RoomWithout(rows, ev, a, Or(req.plusOnes, a.plusOnes));
  }

  lemma TokenMeetsOutcome(rows: Rows, ev: Event, a: Attendee, req: UpdateRequest, now: int)
    requires UniqueIds(rows) && a in rows && a.eventId == ev.id
    ensures var refusal := TokenRefusal(ev, a, req, now);
            if refusal.Some? then TokenOutcome(rows, rows, ev, a, req, now, Failure(refusal.value))
            else TokenOutcome(rows, AfterToken(rows, ev, a, req), ev, a, req, now,
                              Reply(TokenDecision(ev, a, req, Headcount(rows, ev.id)), req.answersAccepted))
  {
    hide TokenTurnedAway, TokenRefusal, HasRoom, Headcount, UpdateRows, Replaced, TokenSeatsAdded, Drained;
    forall error ensures TokenTurnedAway(ev, a, req, now, error) <==> TokenRefusal(ev, a, req, now) == Some(error) {
      TokenTurnedAwayExactly(ev, a, req, now, error);
    }
    if TokenRefusal(ev, a, req, now).None? {
      TokenRoom(rows, ev, a, req);
      var d := TokenDecision(ev, a, req, Headcount(rows, ev.id));
      if d.Store? {
        TokenStatus(ev, a, req, now, d.row);
        StoreReplaces(rows, a, d.row);
        assert TokenRow(a, req, d.row);
        CarryKeepsIds(rows, d);
        assert Replaced(rows, Carry(rows, d), d.row);
        assert StoredThenLoop(rows, AfterToken(rows, ev, a, req), ev, d.row, TokenPromotes(a, req, d));
      }
    }
  }

  /** A guest who leaves by token becomes declined or maybe. */
  lemma TokenStatus(ev: Event, a: Attendee, req: UpdateRequest, now: int, row: Attendee)
    requires TokenRefusal(ev, a, req, now).None? && TokenRow(a, req, row)
    ensures a.status == Attending && row.status != Attending ==> row.status == Declined || row.status == Maybe
  {
  }

  // ---------- RemoveAttendee ----------

  ghost predicate RemoveOutcome(rows: Rows, after: Rows, ev: Event, a: Attendee) {
    exists i :: 0 <= i < |rows| && rows[i] == a
                && var between := rows[..i] + rows[i + 1..];
                   if a.status == Attending then LoopRan(between, after, ev) else after == between
  }

  lemma RemoveMeetsOutcome(rows: Rows, ev: Event, a: Attendee)
    requires UniqueIds(rows) && a in rows
    ensures RemoveOutcome(rows, AfterRemove(rows, ev, a), ev, a)
  {
    var i :| 0 <= i < |rows| && rows[i] == a;
    DeleteIsPointwise(rows, i);
  }

  // ---------- UpdateAttendeeAsOrganizer ----------

  ghost predicate OrganizerTurnedAway(rows: Rows, ev: Event, a: Attendee, req: OrganizerRequest, error: Error) {
    var party := if req.plusOnes.Some? then req.plusOnes.value else a.plusOnes;
    var malformed := (req.plusOnes.Some? && req.plusOnes.value < 0) || req.name == Some("") || !req.wellFormed || req.status == Unrecognised;
    var full := req.status == Given(Attending) && a.status != Attending && !HasRoom(rows, ev, Some(a), party);
    match error
    case WrongEvent => a.eventId != ev.id
    case Malformed => a.eventId == ev.id && malformed
    case AtCapacity => a.eventId == ev.id && !malformed && full
    case _ => false
  }

  /** The columns the organizer writes, contact fields included. */
  ghost predicate OrganizerRow(a: Attendee, req: OrganizerRequest, row: Attendee) {
    && row.id == a.id && row.eventId == a.eventId && row.token == a.token && row.createdAt == a.createdAt
    && (req.email.Some? ==> row.email == req.email) && (req.email.None? ==> row.email == a.email)
    && (req.phone.Some? ==> row.phone == req.phone) && (req.phone.None? ==> row.phone == a.phone)
    && (req.name.Some? ==> row.name == req.name.value) && (req.name.None? ==> row.name == a.name)
    && (req.status.Given? ==> row.status == req.status.status) && (!req.status.Given? ==> row.status == a.status)
    && row.plusOnes == if row.status == Declined then 0 else if req.plusOnes.Some? then req.plusOnes.value else a.plusOnes
  }

  ghost predicate OrganizerOutcome(rows: Rows, after: Rows, ev: Event, a: Attendee, req: OrganizerRequest, r: Result<Attendee>) {
    if (exists error :: OrganizerTurnedAway(rows, ev, a, req, error)) then
      after == rows && r.Failure? && OrganizerTurnedAway(rows, ev, a, req, r.error)
    else
      exists row :: OrganizerRow(a, req, row) && StoredThenLoop(rows, after, ev, row, a.status == Attending && row.status != Attending)
                    && r == Success(row)
  }

  lemma OrganizerTurnedAwayExactly(rows: Rows, ev: Event, a: Attendee, req: OrganizerRequest, error: Error)
    requires UniqueIds(rows) && a in rows
    ensures OrganizerTurnedAway(rows, ev, a, req, error) <==> OrganizerDecision(ev, a, req, Headcount(rows, ev.id)) == Refuse(error)
  {
    hide Headcount;
    if a.eventId == ev.id { RoomWithout(rows, ev, a, Or(req.plusOnes, a.plusOnes)); }
  }

  lemma OrganizerMeetsOutcome(rows: Rows, ev: Event, a: Attendee, req: OrganizerRequest)
    requires UniqueIds(rows) && a in rows
    ensures OrganizerOutcome(rows, AfterOrganizer(rows, ev, a, req), ev, a, req,
                             Reply(OrganizerDecision(ev, a, req, Headcount(rows, ev.id)), true))
  {
    hide OrganizerTurnedAway, HasRoom, Headcount, UpdateRows, Replaced, Drained;
    var d := OrganizerDecision(ev, a, req, Headcount(rows, ev.id));
    forall error ensures OrganizerTurnedAway(rows, ev, a, req, error) <==> d == Refuse(error) {
      OrganizerTurnedAwayExactly(rows, ev, a, req, error);
    }
    if d.Store? {
      StoreReplaces(rows, a, d.row);
      assert OrganizerRow(a, req, d.row);
      CarryKeepsIds(rows, d);
      assert Replaced(rows, Carry(rows, d), d.row);
      assert StoredThenLoop(rows, AfterOrganizer(rows, ev, a, req), ev, d.row, OrganizerFrees(a, d));
    }
  }
}
