/**
 A run in which a guest is put on the waitlist after UpdateByToken read the row, and the update
 then seats her past the guest in front.  Source: internal/rsvp/service.go, where the check for
 waiting guests is made before the lock is taken.
 */
module RsvpStaleSeat {
  import opened Wrappers
  import opened AttendeeTable
  import opened Waitlist
  import opened RsvpRules
  import opened RsvpEffects
  import opened RsvpOutcomes
  import opened RsvpInterleaving
  import opened RsvpSeating
  import opened RsvpStaleUpdate

  const ANN_MAYBE := ANN.(status := Maybe, createdAt := 5)
  const ANN_QUEUED := ANN_MAYBE.(status := Waitlisted)
  const ANN_SEATED := ANN_MAYBE.(status := Attending)
  const BOB_AND_ONE := BOB.(plusOnes := 1)

  /** Ann asks to attend while the organizer puts her on the waitlist, behind Bob. */
  const JOIN := Updating(1, ANN_MAYBE, UpdateRequest(None, Given(Attending), None, true, true), 0)
  const QUEUE := Organizing(1, 0, OrganizerRequest(None, None, None, Given(Waitlisted), None, true))

  const FOUND := Choice(Ask(QUEUE), Some(ANN_MAYBE))

  const START := Scene([ANN_MAYBE, BOB_AND_ONE], None, Idle, Idle, 2)
  const END := Scene([ANN_QUEUED, BOB_AND_ONE], Some(1), HasHeads(JOIN, Some(ANN_MAYBE), 0), Idle, 3)

  function AnnActs(locked: Option<int>, th: Thread): State {
    Scene([ANN_QUEUED, BOB_AND_ONE], locked, th, Idle, 3)
  }

  lemma AnnReadsHeadsLast()
    ensures Reaches(AnnActs(Some(1), HasRow(JOIN, Some(ANN_MAYBE))), END)
  {
    hide Reaches;
    ReachesItself(END);
    AttendeeHeads();
    OneMore(AnnActs(Some(1), HasRow(JOIN, Some(ANN_MAYBE))), 1, FOUND, END, END);
  }

  lemma AnnEntersLast()
    ensures Reaches(AnnActs(None, Waiting(JOIN)), END)
  {
    hide Reaches;
    AnnReadsHeadsLast();
    OneMore(AnnActs(Some(1), Entered(JOIN)), 1, FOUND, AnnActs(Some(1), HasRow(JOIN, Some(ANN_MAYBE))), END);
    OneMore(AnnActs(None, Waiting(JOIN)), 1, FOUND, AnnActs(Some(1), Entered(JOIN)), END);
  }

  lemma AttendeeHeads()
    ensures Headcount([ANN_QUEUED, BOB_AND_ONE], 1) == 0 && Headcount([ANN_MAYBE, BOB_AND_ONE], 1) == 0
  {
    RsvpStaleUpdate.Heads(ANN_QUEUED, BOB_AND_ONE);
    RsvpStaleUpdate.Heads(ANN_MAYBE, BOB_AND_ONE);
  }

  function OrganizerActs(rows: Rows, th: Thread, nextId: int): State {
    Scene(rows, Some(2), Waiting(JOIN), th, nextId)
  }

  lemma OrganizerGoes()
    ensures Reaches(OrganizerActs([ANN_QUEUED, BOB_AND_ONE], Leaving(1), 3), END)
  {
    hide Reaches;
    AnnEntersLast();
    OneMore(OrganizerActs([ANN_QUEUED, BOB_AND_ONE], Leaving(1), 3), 2, FOUND, AnnActs(None, Waiting(JOIN)), END);
  }

  lemma OrganizerQueuesAnn()
    ensures Reaches(OrganizerActs([ANN_MAYBE, BOB_AND_ONE], HasHeads(QUEUE, Some(ANN_MAYBE), 0), 2), END)
  {
    hide Reaches;
    OrganizerGoes();
    assert UpdateRows([ANN_MAYBE, BOB_AND_ONE], ANN_QUEUED) == [ANN_QUEUED, BOB_AND_ONE];
    OneMore(OrganizerActs([ANN_MAYBE, BOB_AND_ONE], HasHeads(QUEUE, Some(ANN_MAYBE), 0), 2), 2, FOUND,
            OrganizerActs([ANN_QUEUED, BOB_AND_ONE], Leaving(1), 3), END);
  }

  lemma OrganizerReads()
    ensures Reaches(OrganizerActs([ANN_MAYBE, BOB_AND_ONE], Entered(QUEUE), 2), END)
  {
    hide Reaches;
    OrganizerQueuesAnn();
    AttendeeHeads();
    assert RowById([ANN_MAYBE, BOB_AND_ONE], 0) == Some(ANN_MAYBE);
    OneMore(OrganizerActs([ANN_MAYBE, BOB_AND_ONE], HasRow(QUEUE, Some(ANN_MAYBE)), 2), 2, FOUND,
            OrganizerActs([ANN_MAYBE, BOB_AND_ONE], HasHeads(QUEUE, Some(ANN_MAYBE), 0), 2), END);
    OneMore(OrganizerActs([ANN_MAYBE, BOB_AND_ONE], Entered(QUEUE), 2), 2, FOUND,
            OrganizerActs([ANN_MAYBE, BOB_AND_ONE], HasRow(QUEUE, Some(ANN_MAYBE)), 2), END);
  }

  const BOTH_ASK := Scene([ANN_MAYBE, BOB_AND_ONE], None, Waiting(JOIN), Waiting(QUEUE), 2)
  const ANN_ASKS := Scene([ANN_MAYBE, BOB_AND_ONE], None, Waiting(JOIN), Idle, 2)

  lemma BothStart()
    ensures Reaches(START, END)
  {
    hide Reaches;
    OrganizerReads();
    assert ANN_MAYBE == START.rows[0];
    OneMore(BOTH_ASK, 2, FOUND, OrganizerActs([ANN_MAYBE, BOB_AND_ONE], Entered(QUEUE), 2), END);
    OneMore(ANN_ASKS, 2, FOUND, BOTH_ASK, END);
    OneMore(START, 1, Choice(Ask(JOIN), None), ANN_ASKS, END);
  }

  /** Bob is first in line and Ann waits behind him when her update gives her the seat. */
  lemma StaleUpdatePassesTheQueue()
    ensures Inv(SETTING, START) && Reaches(START, END)
    ensures FirstInLine(END.rows, 1, BOB_AND_ONE) && ThreadTyped(SETTING, At(END, 1)) && CanStep(SETTING, END, 1, FOUND)
    ensures SeatsGuest(SETTING, END, 1, FOUND, ANN_QUEUED)
  {
    hide Reaches;
    BothStart();
    assert END.rows[0] == ANN_QUEUED && END.rows[1] == BOB_AND_ONE;
    assert UpdateRows(END.rows, ANN_SEATED) == [ANN_SEATED, BOB_AND_ONE];
    assert [ANN_SEATED, BOB_AND_ONE][0].id == ANN_QUEUED.id;
  }
}
