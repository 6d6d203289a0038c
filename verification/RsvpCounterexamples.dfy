/**
 Short runs, at an event for one, that end with two heads or with a guest waiting who would fit.
 Source: internal/rsvp/service.go and internal/rsvp/import.go.
 */
module RsvpCounterexamples {
  import opened Wrappers
  import opened AttendeeTable
  import opened Waitlist
  import opened RsvpRules
  import opened RsvpEffects
  import opened RsvpRuns
  import CsvImport

  const PARTY := Event(1, true, None, Some(1), true, EmailOnly)
  const SETTING := Setting(map[1 := PARTY], false)
  const ANN := Attendee(0, 1, 10, "Ann", Some("a"), None, Attending, 0, 0)
  const BOB := Attendee(1, 1, 11, "Bob", Some("b"), None, Waitlisted, 0, 0)

  lemma OneGuest(a: Attendee, e: int)
    ensures Headcount([a], e) == Seats(e)(a)
  {
    assert Sum([a][1..], Seats(e)) == 0;
  }

  lemma TwoGuests(a: Attendee, b: Attendee, e: int)
    ensures Headcount([a, b], e) == Seats(e)(a) + Seats(e)(b)
  {
    assert [a, b][1..] == [b];
    OneGuest(b, e);
  }

  lemma NoOperation(rows: Rows)
    requires UniqueIds(rows)
    ensures IsRun(SETTING, rows, []) && Final(SETTING, rows, []) == rows
  {
  }

  lemma OneOperation(rows: Rows, ops: seq<Operation>)
    requires UniqueIds(rows) && ops != [] && Possible(SETTING, rows, ops[0])
    requires IsRun(SETTING, After(SETTING, rows, ops[0]), ops[1..])
    ensures IsRun(SETTING, rows, ops) && Final(SETTING, rows, ops) == Final(SETTING, After(SETTING, rows, ops[0]), ops[1..])
  {
  }

  // ---------- two missing checks ----------

  const RAISE := Organize(1, ANN, OrganizerRequest(None, None, None, Absent, Some(1), true))

  /** The organizer gives an attending guest a plus-one. */
  lemma OrganizerOversellsAt()
    ensures IsRun(SETTING, [ANN], [RAISE]) && Headcount([ANN], 1) == 1 && Headcount(Final(SETTING, [ANN], [RAISE]), 1) == 2
  {
    OneGuest(ANN, 1);
    var after := ANN.(plusOnes := 1);
    OneGuest(after, 1);
    assert UpdateRows([ANN], after) == [after];
    assert After(SETTING, [ANN], RAISE) == [after];
    NoOperation([after]);
    OneOperation([ANN], [RAISE]);
  }

  const PROMOTE := PromoteByHand(1, BOB)

  /** The organizer promotes a guest although the event is full. */
  lemma ManualPromotionOversellsAt()
    ensures IsRun(SETTING, [ANN, BOB], [PROMOTE]) && Headcount([ANN, BOB], 1) == 1
    ensures Headcount(Final(SETTING, [ANN, BOB], [PROMOTE]), 1) == 2
  {
    var after := BOB.(status := Attending);
    TwoGuests(ANN, BOB, 1);
    TwoGuests(ANN, after, 1);
    assert UpdateRows([ANN, BOB], after) == [ANN, after];
    assert BOB == [ANN, BOB][1];
    NoOperation([ANN, after]);
    OneOperation([ANN, BOB], [PROMOTE]);
  }

  // ---------- answers rejected after the write ----------

  const DECLINE := Update(1, ANN, UpdateRequest(None, Given(Declined), None, true, false), 0)

  /** Ann declines with an answer that is rejected: her seat is free, and Bob keeps waiting for it. */
  lemma RejectedAnswerStrandsBob()
    ensures IsRun(SETTING, [ANN, BOB], [DECLINE])
    ensures var final := Final(SETTING, [ANN, BOB], [DECLINE]);
            final == [ANN.(status := Declined), BOB] && Headcount(final, 1) == 0 && !Settled(final, 1, 1)
  {
    var after := ANN.(status := Declined);
    TwoGuests(ANN, BOB, 1);
    TwoGuests(after, BOB, 1);
    assert UpdateRows([ANN, BOB], after) == [after, BOB];
    assert ANN == [ANN, BOB][0];
    var final := [after, BOB];
    assert final[1..] == [BOB] && [BOB][1..] == [];
    assert FirstWaitlisted([BOB], 1) == Some(BOB);
    assert FirstWaitlisted(final, 1) == Some(BOB);
    NoOperation(final);
    OneOperation([ANN, BOB], [DECLINE]);
  }

  // ---------- a negative party ----------

  const DAVE := Attendee(2, 1, 12, "Dave", Some("d"), None, Waitlisted, -2, 0)

  /** Promoted by hand past Bob, a guest with minus two plus-ones leaves room for Bob, who waits on. */
  lemma NegativePromotionStrandsBob()
    ensures Settled([ANN, BOB, DAVE], 1, 1) && Promote([ANN, BOB, DAVE], DAVE) == [ANN, BOB, DAVE.(status := Attending)]
    ensures !Settled(Promote([ANN, BOB, DAVE], DAVE), 1, 1)
  {
    var after := DAVE.(status := Attending);
    ThreeGuests(ANN, BOB, DAVE, 1);
    ThreeGuests(ANN, BOB, after, 1);
    assert UpdateRows([ANN, BOB, DAVE], after) == [ANN, BOB, after];
    assert [ANN, BOB, after][1..] == [BOB, after] && [BOB, after][1..] == [after] && [after][1..] == [];
    assert FirstWaitlisted([after], 1) == None;
    assert FirstWaitlisted([BOB, after], 1) == Some(BOB);
    assert FirstWaitlisted([ANN, BOB, after], 1) == Some(BOB);
  }

  lemma ThreeGuests(a: Attendee, b: Attendee, c: Attendee, e: int)
    ensures Headcount([a, b, c], e) == Seats(e)(a) + Seats(e)(b) + Seats(e)(c)
  {
    assert [a, b, c][1..] == [b, c];
    TwoGuests(b, c, e);
  }

  const NEGATIVE := Attendee(0, 1, 10, "Ann", Some("a"), None, Pending, -2, 0)
  const ACCEPTED := NEGATIVE.(status := Attending)
  const CAROL := Attendee(1, 1, 11, "Carol", Some("c"), None, Attending, 1, 0)

  const IMPORT := ImportRows(1, [NEGATIVE])
  const ACCEPT := Update(1, NEGATIVE, UpdateRequest(None, Given(Attending), None, true, true), 0)
  const SUBMIT := Submit(1, SubmitRequest("Carol", Some("c"), None, Given(Attending), 1, true, true), None, 1, 11, 0)
  const REMOVE := Remove(1, ACCEPTED)

  /** The import stores the party as it is given. */
  lemma ImportTakesNegativeParty(w: CsvImport.World)
    requires !w.fails(0) && w.newId(0) == 0 && w.newToken(0) == 10 && w.now == 0
    ensures CsvImport.Inserted([CsvImport.Row("Ann", "a", "", -2, false, false)], 1, 1, {}, w) == [NEGATIVE]
  {
  }

  lemma RemoveLast()
    ensures IsRun(SETTING, [ACCEPTED, CAROL], [REMOVE]) && Final(SETTING, [ACCEPTED, CAROL], [REMOVE]) == [CAROL]
    ensures Overruns(SETTING, [ACCEPTED, CAROL], REMOVE)
  {
    var rows := [ACCEPTED, CAROL];
    assert ACCEPTED == rows[0];
    assert rows[1..] == [CAROL] && [CAROL][1..] == [];
    assert DeleteRows([CAROL], 0) == [CAROL] + DeleteRows([], 0) == [CAROL];
    assert DeleteRows(rows, 0) == [CAROL];
    TwoGuests(ACCEPTED, CAROL, 1);
    OneGuest(CAROL, 1);
    assert Drain([CAROL], PARTY) == [CAROL];
    NoOperation([CAROL]);
    OneOperation(rows, [REMOVE]);
  }

  lemma SubmitThenRemove()
    ensures IsRun(SETTING, [ACCEPTED], [SUBMIT, REMOVE]) && Final(SETTING, [ACCEPTED], [SUBMIT, REMOVE]) == [CAROL]
  {
    RemoveLast();
    OneGuest(ACCEPTED, 1);
    assert [ACCEPTED] + [CAROL] == [ACCEPTED, CAROL];
    assert After(SETTING, [ACCEPTED], SUBMIT) == [ACCEPTED, CAROL];
    assert [SUBMIT, REMOVE][1..] == [REMOVE];
    hide After, IsRun, Final;
    OneOperation([ACCEPTED], [SUBMIT, REMOVE]);
  }

  lemma AcceptSubmitRemove()
    ensures IsRun(SETTING, [NEGATIVE], [ACCEPT, SUBMIT, REMOVE]) && Final(SETTING, [NEGATIVE], [ACCEPT, SUBMIT, REMOVE]) == [CAROL]
  {
    SubmitThenRemove();
    OneGuest(NEGATIVE, 1);
    assert NEGATIVE == [NEGATIVE][0];
    assert UpdateRows([NEGATIVE], ACCEPTED) == [ACCEPTED];
    assert After(SETTING, [NEGATIVE], ACCEPT) == [ACCEPTED];
    assert [ACCEPT, SUBMIT, REMOVE][1..] == [SUBMIT, REMOVE];
    hide After, IsRun, Final;
    OneOperation([NEGATIVE], [ACCEPT, SUBMIT, REMOVE]);
  }

  lemma ImportFirst()
    ensures Possible(SETTING, [], IMPORT) && After(SETTING, [], IMPORT) == [NEGATIVE]
  {
  }

  /** From an empty table: a guest imported with minus two plus-ones accepts, which makes room for
      a party of two at an event for one; then the guest is removed. */
  lemma NegativePartyOversells()
    ensures var ops := [IMPORT, ACCEPT, SUBMIT, REMOVE];
            IsRun(SETTING, [], ops) && Headcount([], 1) == 0 && Headcount(Final(SETTING, [], ops), 1) == 2
  {
    AcceptSubmitRemove();
    ImportFirst();
    OneGuest(CAROL, 1);
    hide Possible;
    assert [IMPORT, ACCEPT, SUBMIT, REMOVE][1..] == [ACCEPT, SUBMIT, REMOVE];
    hide After, IsRun, Final;
    OneOperation([], [IMPORT, ACCEPT, SUBMIT, REMOVE]);
  }
}
