/**
 A run in which UpdateByToken takes the lock with a row that is no longer the stored one, and
 the event ends above its capacity.  Source: internal/rsvp/service.go, where the row is read
 before the lock is taken.
 */
module RsvpStaleUpdate {
  import opened Wrappers
  import opened AttendeeTable
  import opened Waitlist
  import opened RsvpRules
  import opened RsvpEffects
  import opened RsvpInterleaving

  const PARTY := Event(1, true, None, Some(1), true, EmailOnly)
  const SETTING := World(map[1 := PARTY], false, e => 0, {})
  const ANN := Attendee(0, 1, 10, "Ann", None, None, Attending, 0, 0)
  const BOB := Attendee(1, 1, 11, "Bob", None, None, Waitlisted, 0, 0)
  const ANN_OUT := ANN.(status := Declined)
  const BOB_IN := BOB.(status := Attending)
  const ANN_RENAMED := ANN.(name := "Anna")

  /** Ann corrects her name while the organizer marks her as declined. */
  const RENAME := Updating(1, ANN, UpdateRequest(Some("Anna"), Absent, None, true, true), 0)
  const DECLINE := Organizing(1, 0, OrganizerRequest(None, None, None, Given(Declined), None, true))

  /** Mutex 0 is held by `locked`; thread 1 serves Ann and thread 2 the organizer. */
  function Scene(rows: Rows, locked: Option<int>, ann: Thread, organizer: Thread, nextId: int): State {
    State(rows, if locked.Some? then map[0 := locked.value] else map[], map[1 := ann, 2 := organizer], nextId)
  }

  /** Some run from s ends in f. */
  ghost predicate Reaches(s: State, f: State) {
    exists turns :: IsRun(SETTING, s, turns) && EndOf(SETTING, s, turns) == f
  }

  lemma ReachesItself(f: State)
    ensures Reaches(f, f)
  {
    assert IsRun(SETTING, f, []) && EndOf(SETTING, f, []) == f;
  }

  lemma OneMore(s: State, t: int, c: Choice, next: State, f: State)
    requires ThreadTyped(SETTING, At(s, t)) && CanStep(SETTING, s, t, c) && Step(SETTING, s, t, c) == next && Reaches(next, f)
    ensures Reaches(s, f)
  {
    var turns :| IsRun(SETTING, next, turns) && EndOf(SETTING, next, turns) == f;
    var longer := [Turn(t, c)] + turns;
    assert longer[1..] == turns;
    assert IsRun(SETTING, s, longer) && EndOf(SETTING, s, longer) == f;
  }

  const NOTHING := Choice(Ask(DECLINE), None)
  const FOUND_ANN := Choice(Ask(DECLINE), Some(ANN))

  lemma Heads(a: Attendee, b: Attendee)
    ensures Headcount([a, b], 1) == Seats(1)(a) + Seats(1)(b)
  {
    assert [a, b] == [a] + [b];
    SumAppend([a], b, Seats(1));
    SumAppend([], a, Seats(1));
    assert [] + [a] == [a];
  }

  const OPENING := Scene([ANN, BOB], None, Idle, Idle, 2)
  const ENDING := Scene([ANN_RENAMED, BOB_IN], Some(1), Leaving(1), Idle, 4)

  /** Ann's thread gets the lock last and writes the whole row it read first. */
  function Ann(locked: Option<int>, th: Thread): State {
    Scene([ANN_OUT, BOB_IN], locked, th, Idle, 3)
  }

  lemma AnnWrites()
    ensures Reaches(Ann(Some(1), HasHeads(RENAME, Some(ANN), 1)), ENDING)
  {
    hide Reaches;
    var s := Ann(Some(1), HasHeads(RENAME, Some(ANN), 1));
    assert UpdateRows(s.rows, ANN_RENAMED) == ENDING.rows;
    ReachesItself(ENDING);
    OneMore(s, 1, NOTHING, ENDING, ENDING);
  }

  lemma AnnReadsHeads()
    ensures Reaches(Ann(Some(1), HasRow(RENAME, Some(ANN))), ENDING)
  {
    hide Reaches;
    AnnWrites();
    Heads(ANN_OUT, BOB_IN);
    OneMore(Ann(Some(1), HasRow(RENAME, Some(ANN))), 1, NOTHING, Ann(Some(1), HasHeads(RENAME, Some(ANN), 1)), ENDING);
  }

  lemma AnnTakesHerRow()
    ensures Reaches(Ann(Some(1), Entered(RENAME)), ENDING)
  {
    hide Reaches;
    AnnReadsHeads();
    OneMore(Ann(Some(1), Entered(RENAME)), 1, FOUND_ANN, Ann(Some(1), HasRow(RENAME, Some(ANN))), ENDING);
  }

  lemma AnnEnters()
    ensures Reaches(Ann(None, Waiting(RENAME)), ENDING)
  {
    hide Reaches;
    AnnTakesHerRow();
    OneMore(Ann(None, Waiting(RENAME)), 1, NOTHING, Ann(Some(1), Entered(RENAME)), ENDING);
  }

  /** The organizer's thread runs its whole critical section while Ann's waits. */
  function Organizer(rows: Rows, th: Thread, nextId: int): State {
    Scene(rows, Some(2), Waiting(RENAME), th, nextId)
  }

  lemma OrganizerLeaves()
    ensures Reaches(Organizer([ANN_OUT, BOB_IN], Leaving(1), 3), ENDING)
  {
    hide Reaches;
    AnnEnters();
    OneMore(Organizer([ANN_OUT, BOB_IN], Leaving(1), 3), 2, NOTHING, Ann(None, Waiting(RENAME)), ENDING);
  }

  lemma LoopEnds()
    ensures Reaches(Organizer([ANN_OUT, BOB_IN], LoopStart(1), 3), ENDING)
  {
    hide Reaches;
    OrganizerLeaves();
    Heads(ANN_OUT, BOB_IN);
    OneMore(Organizer([ANN_OUT, BOB_IN], LoopStart(1), 3), 2, NOTHING, Organizer([ANN_OUT, BOB_IN], Leaving(1), 3), ENDING);
  }

  lemma LoopPromotesBob()
    ensures Reaches(Organizer([ANN_OUT, BOB], LoopRow(1, 0, BOB), 3), ENDING)
  {
    hide Reaches;
    LoopEnds();
    var chosen := Organizer([ANN_OUT, BOB], LoopRow(1, 0, BOB), 3);
    assert Promote(chosen.rows, BOB) == [ANN_OUT, BOB_IN];
    OneMore(chosen, 2, NOTHING, Organizer([ANN_OUT, BOB_IN], LoopStart(1), 3), ENDING);
  }

  lemma LoopChoosesBob()
    ensures Reaches(Organizer([ANN_OUT, BOB], LoopHeads(1, 0), 3), ENDING)
  {
    hide Reaches;
    LoopPromotesBob();
    var chosen := Organizer([ANN_OUT, BOB], LoopRow(1, 0, BOB), 3);
    FirstWaitlistedIsFirst(chosen.rows, 1);
    assert chosen.rows[1] == BOB && !Waits(chosen.rows[0], 1);
    OneMore(Organizer([ANN_OUT, BOB], LoopHeads(1, 0), 3), 2, NOTHING, chosen, ENDING);
  }

  lemma LoopStarts()
    ensures Reaches(Organizer([ANN_OUT, BOB], LoopStart(1), 3), ENDING)
  {
    hide Reaches;
    LoopChoosesBob();
    Heads(ANN_OUT, BOB);
    OneMore(Organizer([ANN_OUT, BOB], LoopStart(1), 3), 2, NOTHING, Organizer([ANN_OUT, BOB], LoopHeads(1, 0), 3), ENDING);
  }

  lemma OrganizerDeclinesAnn()
    ensures Reaches(Organizer([ANN, BOB], HasHeads(DECLINE, Some(ANN), 1), 2), ENDING)
  {
    hide Reaches;
    LoopStarts();
    assert UpdateRows([ANN, BOB], ANN_OUT) == [ANN_OUT, BOB];
    OneMore(Organizer([ANN, BOB], HasHeads(DECLINE, Some(ANN), 1), 2), 2, NOTHING, Organizer([ANN_OUT, BOB], LoopStart(1), 3), ENDING);
  }

  lemma OrganizerReadsHeads()
    ensures Reaches(Organizer([ANN, BOB], HasRow(DECLINE, Some(ANN)), 2), ENDING)
  {
    hide Reaches;
    OrganizerDeclinesAnn();
    Heads(ANN, BOB);
    OneMore(Organizer([ANN, BOB], HasRow(DECLINE, Some(ANN)), 2), 2, NOTHING,
            Organizer([ANN, BOB], HasHeads(DECLINE, Some(ANN), 1), 2), ENDING);
  }

  lemma OrganizerFindsAnn()
    ensures Reaches(Organizer([ANN, BOB], Entered(DECLINE), 2), ENDING)
  {
    hide Reaches;
    OrganizerReadsHeads();
    assert RowById([ANN, BOB], 0) == Some(ANN);
    OneMore(Organizer([ANN, BOB], Entered(DECLINE), 2), 2, FOUND_ANN, Organizer([ANN, BOB], HasRow(DECLINE, Some(ANN)), 2), ENDING);
  }

  const BOTH_WAIT := Scene([ANN, BOB], None, Waiting(RENAME), Waiting(DECLINE), 2)
  const ANN_WAITS := Scene([ANN, BOB], None, Waiting(RENAME), Idle, 2)

  lemma OrganizerEnters()
    ensures Reaches(BOTH_WAIT, ENDING)
  {
    hide Reaches;
    OrganizerFindsAnn();
    OneMore(BOTH_WAIT, 2, NOTHING, Organizer([ANN, BOB], Entered(DECLINE), 2), ENDING);
  }

  lemma OrganizerStarts()
    ensures Reaches(ANN_WAITS, ENDING)
  {
    hide Reaches;
    OrganizerEnters();
    OneMore(ANN_WAITS, 2, NOTHING, BOTH_WAIT, ENDING);
  }

  lemma AnnStarts()
    ensures Reaches(OPENING, ENDING)
  {
    hide Reaches;
    OrganizerStarts();
    assert ANN in OPENING.rows;
    OneMore(OPENING, 1, Choice(Ask(RENAME), None), ANN_WAITS, ENDING);
  }

  /** From a quiet table at capacity, a run without manual promotion or raised parties ends with
      two heads at an event for one. */
  lemma StaleUpdateOversells()
    ensures Inv(SETTING, OPENING) && Sound(OPENING.rows, 1) && Reaches(OPENING, ENDING)
    ensures Headcount(OPENING.rows, 1) == 1 && PARTY.maxCapacity == Some(1) && Headcount(ENDING.rows, 1) == 2
  {
    AnnStarts();
    Heads(ANN, BOB);
    Heads(ANN_RENAMED, BOB_IN);
  }
}
