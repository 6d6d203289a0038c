/**
 Whole runs of RSVP operations, one after the other, over a fixed set of events.
 Source: internal/rsvp/service.go and the inserts of internal/rsvp/import.go.
 */
module RsvpRuns {
  import opened Wrappers
  import opened AttendeeTable
  import opened Waitlist
  import opened RsvpRules
  import opened RsvpEffects
  import opened RsvpOutcomes
  import RsvpService

  datatype Setting = Setting(events: map<int, Event>, smsEnabled: bool)

  /** An operation on event e together with what the database returned or generated for it. */
  datatype Operation =
    | Submit(e: int, req: SubmitRequest, found: Option<Attendee>, newId: int, newToken: int, now: int)
    | Update(e: int, row: Attendee, update: UpdateRequest, now: int)
    | Remove(e: int, row: Attendee)
    | Organize(e: int, row: Attendee, edit: OrganizerRequest)
    | PromoteByHand(e: int, row: Attendee)
    | ImportRows(e: int, added: Rows)

  ghost predicate WellKeyed(s: Setting) {
    forall e :: e in s.events ==> s.events[e].id == e
  }

  /** Rows ExecuteCSVImport may insert: pending, with fresh ids, and with any number of plus-ones. */
  ghost predicate Importable(rows: Rows, e: int, added: Rows) {
    && UniqueIds(rows + added)
    && forall i :: 0 <= i < |added| ==> added[i].eventId == e && added[i].status == Pending
  }

  /** The operation is one the service can make on this table. */
  ghost predicate Possible(s: Setting, rows: Rows, op: Operation) {
    && op.e in s.events
    && match op
       case Submit(e, req, found, newId, _, _) => RequestAcceptable(req) && !HasId(rows, newId) && RsvpService.Matches(rows, e, req, found)
       case Update(e, row, _, _) => row in rows && row.eventId == e
       case Remove(e, row) => row in rows && row.eventId == e
       case Organize(e, row, _) => row in rows && row.eventId == e
       case PromoteByHand(e, row) => row in rows && row.eventId == e && row.status == Waitlisted
       case ImportRows(e, added) => Importable(rows, e, added)
  }

  ghost function After(s: Setting, rows: Rows, op: Operation): (after: Rows)
    requires UniqueIds(rows) && Possible(s, rows, op)
    ensures UniqueIds(after)
  {
    var ev := s.events[op.e];
    match op
    case Submit(e, req, found, newId, newToken, now) =>
      if SubmitRefusal(ev, req, now, s.smsEnabled).Some? then rows
      else
        var d := SubmitDecision(ev, req, found, Headcount(rows, ev.id), newId, newToken, now);
        CarryKeepsIds(rows, d);
        Carry(rows, d)
    case Update(e, row, req, now) =>
      if TokenRefusal(ev, row, req, now).Some? then rows else AfterToken(rows, ev, row, req)
    case Remove(e, row) => AfterRemove(rows, ev, row)
    case Organize(e, row, req) => AfterOrganizer(rows, ev, row, req)
    case PromoteByHand(e, row) => Promote(rows, row)
    case ImportRows(e, added) => rows + added
  }

  // ---------- one operation ----------

  lemma ImportLeavesHeadcount(rows: Rows, e: int, added: Rows, other: int)
    requires Importable(rows, e, added)
    ensures Headcount(rows + added, other) == Headcount(rows, other)
  {
    SumConcat(rows, added, Seats(other));
    SumSame(added, Seats(other), (r: Attendee) => 0);
    SumOfNothing(added);
  }

  /** The operation takes its event above the larger of its headcount and its capacity. */
  ghost predicate Overruns(s: Setting, rows: Rows, op: Operation)
    requires Possible(s, rows, op)
  {
    var ev := s.events[op.e];
    match op
    case Submit(e, req, found, newId, newToken, now) =>
      var d := SubmitDecision(ev, req, found, Headcount(rows, ev.id), newId, newToken, now);
      SubmitRefusal(ev, req, now, s.smsEnabled) == None && d.Store? && d.row.status != Attending && LeavingCosts(rows, ev, found.value)
    case Update(e, row, req, now) =>
      var d := TokenDecision(ev, row, req, Headcount(rows, ev.id));
      TokenRefusal(ev, row, req, now) == None && d.Store? && d.row.status != Attending && LeavingCosts(rows, ev, row)
    case Remove(e, row) => LeavingCosts(rows, ev, row)
    case Organize(e, row, req) => OrganizerOversells(rows, ev, row, req)
    case PromoteByHand(e, row) => row.plusOnes >= 0 && Exceeds(ev, Headcount(rows, ev.id) + 1 + row.plusOnes)
    case ImportRows(_, _) => false
  }

  /** On any table, an operation obeys the bound exactly when it does not overrun... */
  lemma OperationWithinCapacity(s: Setting, rows: Rows, op: Operation)
    requires WellKeyed(s) && UniqueIds(rows) && Possible(s, rows, op)
    ensures WithinCapacity(rows, After(s, rows, op), s.events[op.e]) <==> !Overruns(s, rows, op)
  {
    var ev := s.events[op.e];
    match op
    case Submit(e, req, found, newId, newToken, now) =>
      SubmitWithinCapacity(rows, ev, req, found, newId, newToken, now);
    case Update(e, row, req, now) => TokenWithinCapacity(rows, ev, row, req);
    case Remove(e, row) => RemoveWithinCapacity(rows, ev, row);
    case Organize(e, row, req) => OrganizerWithinCapacity(rows, ev, row, req);
    case PromoteByHand(e, row) => ManualPromotionWithinCapacity(rows, ev, row);
    case ImportRows(e, added) =>
      forall other ensures Headcount(rows + added, other) == Headcount(rows, other) {
        ImportLeavesHeadcount(rows, e, added, other);
      }
  }

  /** ...and in no case moves another event's headcount. */
  lemma OperationLeavesOthers(s: Setting, rows: Rows, op: Operation, other: int)
    requires WellKeyed(s) && UniqueIds(rows) && Possible(s, rows, op) && other != op.e
    ensures Headcount(After(s, rows, op), other) == Headcount(rows, other)
  {
    var ev := s.events[op.e];
    match op
    case Submit(e, req, found, newId, newToken, now) =>
      var d := SubmitDecision(ev, req, found, Headcount(rows, ev.id), newId, newToken, now);
      if found.Some? { StoreMovesOneEvent(rows, ev, found.value, d); }
      if d.Insert? { SumAppend(rows, d.row, Seats(other)); }
    case Update(e, row, req, now) =>
      var d := TokenDecision(ev, row, req, Headcount(rows, ev.id));
      CarryKeepsIds(rows, d);
      StoreMovesOneEvent(rows, ev, row, d);
      DrainLeavesOthers(Carry(rows, d), ev, other);
    case Remove(e, row) =>
      DeleteKeepsIds(rows, row);
      HeadsAfterDelete(rows, row, other);
      DrainLeavesOthers(DeleteRows(rows, row.id), ev, other);
    case Organize(e, row, req) =>
      var d := OrganizerDecision(ev, row, req, Headcount(rows, ev.id));
      CarryKeepsIds(rows, d);
      StoreMovesOneEvent(rows, ev, row, d);
      DrainLeavesOthers(Carry(rows, d), ev, other);
    case PromoteByHand(e, row) => StoreMovesOneEvent(rows, ev, row, Store(row.(status := Attending)));
    case ImportRows(e, added) => ImportLeavesHeadcount(rows, e, added, other);
  }

  lemma DrainLeavesOthers(rows: Rows, ev: Event, other: int)
    requires UniqueIds(rows) && other != ev.id
    ensures Headcount(Drain(rows, ev), other) == Headcount(rows, other)
  {
    if ev.maxCapacity.Some? && ev.waitlistEnabled {
      LoopSettlesWithinCapacity(rows, ev.id, ev.maxCapacity.value);
    }
  }

  // ---------- who seats a waiting guest ----------

  /** Ways in which an operation can seat `guest`, who waits: a submission of the guest's own that fits, a
      decision of the organizer, or the loop after an attending guest left.  An update by token of the
      guest's own row is none of them. */
  ghost predicate MaySeat(s: Setting, rows: Rows, op: Operation, guest: Attendee)
    requires op.e in s.events
  {
    var ev := s.events[op.e];
    var loops := ev.maxCapacity.Some? && ev.waitlistEnabled;
    && op.e == guest.eventId
    && match op
       case Submit(_, req, found, _, _, _) => found == Some(guest) && req.status == Given(Attending) && HasRoom(rows, ev, found, req.plusOnes)
       case Update(_, row, req, _) => row.status == Attending && req.status in {Given(Declined), Given(Maybe)} && req.answersAccepted && loops
       case Remove(_, row) => row.status == Attending && loops
       case Organize(_, row, edit) =>
         if row == guest then
           edit.status == Given(Attending) && HasRoom(rows, ev, Some(row), if edit.plusOnes.Some? then edit.plusOnes.value else row.plusOnes)
         else row.status == Attending && edit.status.Given? && edit.status.status != Attending && loops
       case PromoteByHand(_, row) => row == guest
       case ImportRows(_, _) => false
  }

  ghost predicate SeatedIn(rows: Rows, id: int) {
    exists i :: 0 <= i < |rows| && rows[i].id == id && rows[i].status == Attending
  }

  /** A guest who waits is seated in no other way. */
  lemma WaitingGuestSeatedOnlyBy(s: Setting, rows: Rows, op: Operation, guest: Attendee)
    requires WellKeyed(s) && UniqueIds(rows) && Possible(s, rows, op)
    requires guest in rows && guest.status == Waitlisted && SeatedIn(After(s, rows, op), guest.id)
    ensures MaySeat(s, rows, op, guest)
  {
    var ev := s.events[op.e];
    match op
    case Submit(_, req, found, newId, newToken, now) => SubmitSeats(s, rows, op, guest);
    case Update(_, row, req, now) => UpdateSeats(s, rows, op, guest);
    case Remove(_, row) =>
      DeleteKeepsIds(rows, row);
      DeleteSeatsNobody(rows, row, guest);
      DrainSeats(DeleteRows(rows, row.id), ev, guest);
    case Organize(_, row, edit) => OrganizeSeats(s, rows, op, guest);
    case PromoteByHand(_, row) => StoreSeats(rows, row, row.(status := Attending), guest);
    case ImportRows(e, added) => ImportSeatsNobody(rows, e, added, guest);
  }

  lemma ImportSeatsNobody(rows: Rows, e: int, added: Rows, guest: Attendee)
    requires Importable(rows, e, added) && guest in rows && guest.status == Waitlisted
    ensures !SeatedIn(rows + added, guest.id)
  {
    var k :| 0 <= k < |rows| && rows[k] == guest;
    assert (rows + added)[k] == guest;
    OnlyAt(rows + added, k);
  }

  /** The only row under the id of a guest who waits is not attending. */
  lemma NotSeated(rows: Rows, guest: Attendee)
    requires UniqueIds(rows) && guest in rows && guest.status == Waitlisted
    ensures !SeatedIn(rows, guest.id)
  {
  }

  lemma StoreSeats(rows: Rows, row: Attendee, stored: Attendee, guest: Attendee)
    requires UniqueIds(rows) && row in rows && row.id == stored.id && guest in rows && guest.status == Waitlisted
    ensures SeatedIn(UpdateRows(rows, stored), guest.id) ==> row == guest && stored.status == Attending
    ensures row != guest ==> forall r :: r in UpdateRows(rows, stored) && r.id == guest.id ==> r == guest
  {
    var i :| 0 <= i < |rows| && rows[i] == row;
    var k :| 0 <= k < |rows| && rows[k] == guest;
    UpdateIsPointwise(rows, i, stored);
    OnlyAt(UpdateRows(rows, stored), k);
    hide UpdateRows, UniqueIds;
    var after := UpdateRows(rows, stored);
    assert row != guest ==> after[k] == guest;
  }

  lemma OnlyAt(rows: Rows, k: nat)
    requires UniqueIds(rows) && k < |rows|
    ensures forall j :: 0 <= j < |rows| && rows[j].id == rows[k].id ==> j == k
  {
  }

  lemma DeleteSeatsNobody(rows: Rows, row: Attendee, guest: Attendee)
    requires UniqueIds(rows) && row in rows && guest in rows && guest.status == Waitlisted
    ensures !SeatedIn(DeleteRows(rows, row.id), guest.id)
    ensures row != guest ==> guest in DeleteRows(rows, row.id)
  {
    var i :| 0 <= i < |rows| && rows[i] == row;
    DeleteIsPointwise(rows, i);
  }

  /** The loop seats guests of its own event only. */
  lemma DrainSeats(rows: Rows, ev: Event, guest: Attendee)
    requires UniqueIds(rows) && !SeatedIn(rows, guest.id) && SeatedIn(Drain(rows, ev), guest.id)
    requires forall r :: r in rows && r.id == guest.id ==> r == guest
    ensures ev.maxCapacity.Some? && ev.waitlistEnabled && guest in rows && guest.eventId == ev.id
  {
    if ev.maxCapacity.Some? && ev.waitlistEnabled {
      LoopTouchesOnlyWaiting(rows, ev.id, ev.maxCapacity.value);
    }
  }

  lemma SubmitSeats(s: Setting, rows: Rows, op: Operation, guest: Attendee)
    requires WellKeyed(s) && UniqueIds(rows) && Possible(s, rows, op) && op.Submit?
    requires guest in rows && guest.status == Waitlisted && SeatedIn(After(s, rows, op), guest.id)
    ensures MaySeat(s, rows, op, guest)
  {
    var ev := s.events[op.e];
    NotSeated(rows, guest);
    var d := SubmitDecision(ev, op.req, op.found, Headcount(rows, ev.id), op.newId, op.newToken, op.now);
    SubmitRoom(rows, ev, op.req, op.found);
    if d.Store? { StoreSeats(rows, op.found.value, d.row, guest); }
  }

  lemma UpdateSeats(s: Setting, rows: Rows, op: Operation, guest: Attendee)
    requires WellKeyed(s) && UniqueIds(rows) && Possible(s, rows, op) && op.Update?
    requires guest in rows && guest.status == Waitlisted && SeatedIn(After(s, rows, op), guest.id)
    ensures MaySeat(s, rows, op, guest)
  {
    hide UpdateRows, Headcount, UniqueIds, SeatedIn, Exceeds, Drain;
    var ev := s.events[op.e];
    NotSeated(rows, guest);
    var d := TokenDecision(ev, op.row, op.update, Headcount(rows, ev.id));
    if d.Store? {
      CarryKeepsIds(rows, d);
      StoreSeats(rows, op.row, d.row, guest);
      if TokenPromotes(op.row, op.update, d) { DrainSeats(Carry(rows, d), ev, guest); }
    }
  }

  lemma OrganizeSeats(s: Setting, rows: Rows, op: Operation, guest: Attendee)
    requires WellKeyed(s) && UniqueIds(rows) && Possible(s, rows, op) && op.Organize?
    requires guest in rows && guest.status == Waitlisted && SeatedIn(After(s, rows, op), guest.id)
    ensures MaySeat(s, rows, op, guest)
  {
    hide UpdateRows, Headcount, UniqueIds, SeatedIn, HasRoom, Drain;
    var ev := s.events[op.e];
    NotSeated(rows, guest);
    var d := OrganizerDecision(ev, op.row, op.edit, Headcount(rows, ev.id));
    RoomWithout(rows, ev, op.row, Or(op.edit.plusOnes, op.row.plusOnes));
    if d.Store? {
      CarryKeepsIds(rows, d);
      StoreSeats(rows, op.row, d.row, guest);
      if OrganizerFrees(op.row, d) { DrainSeats(Carry(rows, d), ev, guest); }
    }
  }

  // ---------- addresses ----------

  /** No two guests of e have the same email address. */
  ghost predicate EmailsDiffer(rows: Rows, e: int) {
    forall i, j :: 0 <= i < j < |rows| && rows[i].eventId == rows[j].eventId == e && rows[i].email == rows[j].email ==>
      rows[i].email in {None, Some("")}
  }

  /** A guest who submits again under the same address is found and not listed twice. */
  lemma SubmitKeepsEmailsApart(s: Setting, rows: Rows, op: Operation)
    requires WellKeyed(s) && UniqueIds(rows) && Possible(s, rows, op) && op.Submit? && EmailsDiffer(rows, op.e)
    ensures EmailsDiffer(After(s, rows, op), op.e)
  {
    hide Headcount, Exceeds, RsvpService.Matches, EmailsDiffer, UpdateRows;
    var ev := s.events[op.e];
    var d := SubmitDecision(ev, op.req, op.found, Headcount(rows, ev.id), op.newId, op.newToken, op.now);
    match d
    case Refuse(_) =>
    case Insert(row) => NewAddress(rows, op.e, op.req, row);
    case Store(row) => SameAddress(rows, op.e, op.req, op.found.value, row);
  }

  lemma NewAddress(rows: Rows, e: int, req: SubmitRequest, row: Attendee)
    requires EmailsDiffer(rows, e) && RsvpService.Matches(rows, e, req, None) && row.email == req.email
    ensures EmailsDiffer(rows + [row], e)
  {
    assert forall i :: 0 <= i < |rows| && rows[i].eventId == e ==> rows[i] in rows && !RsvpService.HasEmail(rows[i], req);
  }

  lemma SameAddress(rows: Rows, e: int, req: SubmitRequest, found: Attendee, row: Attendee)
    requires UniqueIds(rows) && EmailsDiffer(rows, e) && RsvpService.Matches(rows, e, req, Some(found))
    requires row.id == found.id && row.email == if req.email.Some? then req.email else found.email
    ensures EmailsDiffer(UpdateRows(rows, row), e)
  {
    var k :| 0 <= k < |rows| && rows[k] == found;
    UpdateIsPointwise(rows, k, row);
    hide UpdateRows, UniqueIds, EmailsDiffer;
    EmailsOfOthers(rows, e, k);
    forall i | 0 <= i < |rows| && i != k && rows[i].eventId == e && rows[i].email == row.email
      ensures row.email in {None, Some("")}
    {
      assert rows[i] in rows;
      assert RsvpService.HasEmail(found, req) || !RsvpService.HasEmail(rows[i], req) || req.email.None?;
    }
    Readdressed(rows, e, k, Merge(found, row));
  }

  lemma EmailsOfOthers(rows: Rows, e: int, k: nat)
    requires EmailsDiffer(rows, e) && k < |rows| && rows[k].eventId == e
    ensures forall i :: 0 <= i < |rows| && i != k && rows[i].eventId == e && rows[i].email == rows[k].email ==> rows[k].email in {None, Some("")}
  {
  }

  lemma Readdressed(rows: Rows, e: int, k: nat, row: Attendee)
    requires EmailsDiffer(rows, e) && k < |rows|
    requires forall i :: 0 <= i < |rows| && i != k && rows[i].eventId == e && rows[i].email == row.email ==> row.email in {None, Some("")}
    ensures EmailsDiffer(rows[k := row], e)
  {
  }

  // ---------- runs ----------

  /** Every operation of the run is possible when its turn comes. */
  ghost predicate IsRun(s: Setting, rows: Rows, ops: seq<Operation>)
    requires UniqueIds(rows)
    decreases |ops|
  {
    ops == [] || (Possible(s, rows, ops[0]) && IsRun(s, After(s, rows, ops[0]), ops[1..]))
  }

  ghost function Final(s: Setting, rows: Rows, ops: seq<Operation>): (final: Rows)
    requires UniqueIds(rows) && IsRun(s, rows, ops)
    ensures UniqueIds(final)
    decreases |ops|
  {
    if ops == [] then rows else Final(s, After(s, rows, ops[0]), ops[1..])
  }

  /** No operation on event e overruns; whatever happens at other events. */
  ghost predicate NeverOverruns(s: Setting, rows: Rows, ops: seq<Operation>, e: int)
    requires UniqueIds(rows) && IsRun(s, rows, ops)
    decreases |ops|
  {
    ops == [] || ((ops[0].e == e ==> !Overruns(s, rows, ops[0])) && NeverOverruns(s, After(s, rows, ops[0]), ops[1..], e))
  }

  /** Over a whole run, an event on which nothing overruns does not end above the larger of its
      first headcount and its capacity. */
  lemma {:induction false} RunWithinCapacity(s: Setting, rows: Rows, ops: seq<Operation>, e: int)
    requires WellKeyed(s) && UniqueIds(rows) && IsRun(s, rows, ops) && NeverOverruns(s, rows, ops, e)
    requires e in s.events && s.events[e].maxCapacity.Some?
    ensures Headcount(Final(s, rows, ops), e) <= Larger(Headcount(rows, e), s.events[e].maxCapacity.value)
    decreases |ops|
  {
    if ops != [] {
      OperationWithinCapacity(s, rows, ops[0]);
      if ops[0].e != e { OperationLeavesOthers(s, rows, ops[0], e); }
      RunWithinCapacity(s, After(s, rows, ops[0]), ops[1..], e);
    }
  }

  // ---------- tables without negative parties ----------

  /** An import keeps the parties of its event non-negative exactly when its rows are. */
  lemma ImportKeepsSound(rows: Rows, e: int, added: Rows)
    requires Sound(rows, e) && Importable(rows, e, added)
    ensures Sound(rows + added, e) <==> forall i :: 0 <= i < |added| ==> added[i].plusOnes >= 0
  {
    forall i | 0 <= i < |added| ensures (rows + added)[|rows| + i] == added[i] {}
  }

  /** The operation passes the capacity by design, for want of a check, or may do so later. */
  predicate Bypasses(op: Operation) {
    || op.PromoteByHand?
    || (op.Organize? && RaisesAttendingParty(op.row, op.edit))
    || (op.ImportRows? && exists i :: 0 <= i < |op.added| && op.added[i].plusOnes < 0)
  }

  lemma OperationKeepsSound(s: Setting, rows: Rows, op: Operation, e: int)
    requires WellKeyed(s) && Sound(rows, e) && Possible(s, rows, op)
    requires op.ImportRows? && op.e == e ==> !Bypasses(op)
    ensures Sound(After(s, rows, op), e)
  {
    var ev := s.events[op.e];
    match op
    case Submit(_, req, found, newId, newToken, now) => SubmitKeepsSound(rows, ev, req, found, newId, newToken, now, e);
    case Update(_, row, req, now) => if TokenRefusal(ev, row, req, now) == None { TokenKeepsSound(rows, ev, row, req, e); }
    case Remove(_, row) => RemoveKeepsSound(rows, ev, row, e);
    case Organize(_, row, req) => OrganizerKeepsSound(rows, ev, row, req, e);
    case PromoteByHand(_, row) => ManualPromotionKeepsSound(rows, row, e);
    case ImportRows(e', added) => if e' == e { ImportKeepsSound(rows, e, added); }
  }

  /** Without negative parties only a manual promotion or a raised party overruns. */
  lemma SoundNeverOverruns(s: Setting, rows: Rows, op: Operation)
    requires WellKeyed(s) && Sound(rows, op.e) && Possible(s, rows, op) && !Bypasses(op)
    ensures !Overruns(s, rows, op)
  {
  }

  /** An event that starts without negative parties keeps its bound over every run in which nobody
      promotes by hand, raises an attending party as the organizer, or imports a negative party
      at this event. */
  lemma {:induction false} CheckedEventWithinCapacity(s: Setting, rows: Rows, ops: seq<Operation>, e: int)
    requires WellKeyed(s) && Sound(rows, e) && IsRun(s, rows, ops)
    requires forall i :: 0 <= i < |ops| && ops[i].e == e ==> !Bypasses(ops[i])
    ensures Sound(Final(s, rows, ops), e) && NeverOverruns(s, rows, ops, e)
    ensures e in s.events && s.events[e].maxCapacity.Some? ==>
              Headcount(Final(s, rows, ops), e) <= Larger(Headcount(rows, e), s.events[e].maxCapacity.value)
    decreases |ops|
  {
    if ops != [] {
      OperationKeepsSound(s, rows, ops[0], e);
      if ops[0].e == e { SoundNeverOverruns(s, rows, ops[0]); }
      CheckedEventWithinCapacity(s, After(s, rows, ops[0]), ops[1..], e);
    }
    if e in s.events && s.events[e].maxCapacity.Some? { RunWithinCapacity(s, rows, ops, e); }
  }
}
