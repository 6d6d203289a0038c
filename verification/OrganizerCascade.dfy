/**
 Deleting an organizer's account and exporting its data: DeleteOrganizerCascade and
 ExportOrganizerData of internal/auth/store.go.  The tables the cascade empties by event id are
 one set of rows told apart by their kind; columns that refer to no other row are left out.
 */
module OrganizerCascade {
  import opened Wrappers

  /** The tables emptied by event id, in the order the cascade empties them. */
  datatype Kind = Comments | Notifications | Messages | Reminders | Questions | InviteCards | Attendees

  /** A comment names its author, and a notification may name its recipient. */
  datatype Child = Child(kind: Kind, id: int, event: int, attendee: Option<int>)
  datatype Answer = Answer(id: int, attendee: int, question: int)
  datatype Cohost = Cohost(event: int, organizer: int, addedBy: int)
  datatype Event = Event(id: int, organizer: int, series: Option<int>)

  /** An e-mail suppression or an unsubscribe token, for one event or for all.  Neither the cascade nor
      the export mentions them. */
  datatype Scoped = Scoped(id: int, event: Option<int>)

  /** A series, a magic link or a session. */
  datatype Record = Record(id: int, organizer: int)

  datatype Tables = Tables(organizers: set<int>, events: set<Event>, children: set<Child>, answers: set<Answer>, cohosts: set<Cohost>,
                           series: set<Record>, magicLinks: set<Record>, sessions: set<Record>, scoped: set<Scoped>)

  datatype Statement = AnswersOfAttendees | ChildrenOfEvents(kind: Kind) | CohostsOfEvents | CohostLinks
                     | OwnEvents | OwnSeries | OwnMagicLinks | OwnSessions | OwnRow

  const CASCADE := [AnswersOfAttendees,
                    ChildrenOfEvents(Comments), ChildrenOfEvents(Notifications), ChildrenOfEvents(Messages), ChildrenOfEvents(Reminders),
                    ChildrenOfEvents(Questions), ChildrenOfEvents(InviteCards), ChildrenOfEvents(Attendees),
                    CohostsOfEvents, CohostLinks, OwnEvents, OwnSeries, OwnMagicLinks, OwnSessions, OwnRow]

  /** event_id IN (SELECT id FROM events WHERE organizer_id = ?) */
  predicate Owns(t: Tables, o: int, e: int) {
    exists ev :: ev in t.events && ev.id == e && ev.organizer == o
  }

  /** attendee_id IN (SELECT id FROM attendees WHERE event_id IN ...) */
  predicate OwnsAttendee(t: Tables, o: int, attendee: int) {
    exists c :: c in t.children && c.kind == Attendees && c.id == attendee && Owns(t, o, c.event)
  }

  function Execute(t: Tables, o: int, st: Statement): Tables {
    match st
    case AnswersOfAttendees => t.(answers := set a | a in t.answers && !OwnsAttendee(t, o, a.attendee))
    case ChildrenOfEvents(k) => t.(children := set c | c in t.children && !(c.kind == k && Owns(t, o, c.event)))
    case CohostsOfEvents => t.(cohosts := set c | c in t.cohosts && !Owns(t, o, c.event))
    case CohostLinks => t.(cohosts := set c | c in t.cohosts && !(c.organizer == o || c.addedBy == o))
    case OwnEvents => t.(events := set e | e in t.events && e.organizer != o)
    case OwnSeries => t.(series := set r | r in t.series && r.organizer != o)
    case OwnMagicLinks => t.(magicLinks := set r | r in t.magicLinks && r.organizer != o)
    case OwnSessions => t.(sessions := set r | r in t.sessions && r.organizer != o)
    case OwnRow => t.(organizers := t.organizers - {o})
  }

  ghost function Executed(t: Tables, o: int, n: nat): Tables
    requires n <= |CASCADE|
  {
    if n == 0 then t else Execute(Executed(t, o, n - 1), o, CASCADE[n - 1])
  }

  class Database {
    var tables: Tables

    constructor (tables: Tables)
      ensures this.tables == tables
    {
      this.tables := tables;
    }

    /** One transaction: a statement or the commit may fail, and then nothing has happened. */
    method DeleteOrganizerCascade(o: int, fails: nat -> bool) returns (ok: bool)
      modifies this
      ensures ok <==> forall i :: 0 <= i <= |CASCADE| ==> !fails(i)
      ensures tables == if ok then Executed(old(tables), o, |CASCADE|) else old(tables)
    {
      hide Execute;
      var tx := tables;
      for i := 0 to |CASCADE|
        invariant tx == Executed(tables, o, i)
        invariant forall j :: 0 <= j < i ==> !fails(j)
      {
        if fails(i) { return false; }
        tx := Execute(tx, o, CASCADE[i]);
      }
      if fails(|CASCADE|) { return false; }
      tables := tx;
      ok := true;
    }
  }

  // ---------- what the first n statements delete ----------

  function Turn(k: Kind): nat {
    match k
    case Comments => 1
    case Notifications => 2
    case Messages => 3
    case Reminders => 4
    case Questions => 5
    case InviteCards => 6
    case Attendees => 7
  }

  /** The tables without the rows the first n statements are after, as the organizer owned them
      at the start. */
  ghost function Without(t: Tables, o: int, n: nat): Tables {
    Tables(
      if n > 14 then t.organizers - {o} else t.organizers,
      set e | e in t.events && !(n > 10 && e.organizer == o),
      set c | c in t.children && !(n > Turn(c.kind) && Owns(t, o, c.event)),
      set a | a in t.answers && !(n > 0 && OwnsAttendee(t, o, a.attendee)),
      set c | c in t.cohosts && !(n > 8 && Owns(t, o, c.event)) && !(n > 9 && (c.organizer == o || c.addedBy == o)),
      (set r | r in t.series && !(n > 11 && r.organizer == o)),
      (set r | r in t.magicLinks && !(n > 12 && r.organizer == o)),
      (set r | r in t.sessions && !(n > 13 && r.organizer == o)),
      t.scoped)
  }

  /** Every subselect still sees the events and attendees it needs when its turn comes. */
  lemma StatementMeetsItsRows(t: Tables, o: int, n: nat)
    requires n < |CASCADE|
    ensures Execute(Without(t, o, n), o, CASCADE[n]) == Without(t, o, n + 1)
  {
  }

  lemma {:induction false} CascadeDeletesOwned(t: Tables, o: int, n: nat)
    requires n <= |CASCADE|
    ensures Executed(t, o, n) == Without(t, o, n)
  {
    if n == 0 {
      assert Without(t, o, 0) == t;
    } else {
      CascadeDeletesOwned(t, o, n - 1);
      StatementMeetsItsRows(t, o, n - 1);
    }
  }

  /** No event of that id belongs to the organizer. */
  ghost predicate OfAnother(t: Tables, o: int, e: int) {
    forall ev :: ev in t.events && ev.id == e ==> ev.organizer != o
  }

  /** The rows that are left, table by table, by the events and attendees as they were at the start. */
  lemma CascadeLeavesExactly(t: Tables, o: int)
    ensures var after := Executed(t, o, |CASCADE|);
            && after.organizers == t.organizers - {o} && after.scoped == t.scoped
            && (forall e :: e in after.events <==> e in t.events && e.organizer != o)
            && (forall c :: c in after.children <==> c in t.children && OfAnother(t, o, c.event))
            && (forall a :: a in after.answers <==>
                  a in t.answers && forall c :: c in t.children && c.kind == Attendees && c.id == a.attendee ==> OfAnother(t, o, c.event))
            && (forall c :: c in after.cohosts <==> c in t.cohosts && OfAnother(t, o, c.event) && c.organizer != o && c.addedBy != o)
            && (forall r :: r in after.series <==> r in t.series && r.organizer != o)
            && (forall r :: r in after.magicLinks <==> r in t.magicLinks && r.organizer != o)
            && (forall r :: r in after.sessions <==> r in t.sessions && r.organizer != o)
  {
    CascadeDeletesOwned(t, o, |CASCADE|);
    hide Executed;
    assert forall e :: Owns(t, o, e) <==> !OfAnother(t, o, e);
  }

  // ---------- the export ----------

  datatype Export = Export(organizer: int, events: set<Event>, series: set<Record>, children: set<Child>)

  /** No document for an organizer that does not exist. */
  function ExportOrganizerData(t: Tables, o: int): Option<Export> {
    if o !in t.organizers then None
    else Some(Export(o,
                     set e | e in t.events && e.organizer == o,
                     set r | r in t.series && r.organizer == o,
                     set c | c in t.children && Owns(t, o, c.event)))
  }

  /** On every exported table the cascade deletes exactly the rows the export shows. */
  lemma DeletesExactlyTheExported(t: Tables, o: int)
    requires o in t.organizers
    ensures var after, doc := Executed(t, o, |CASCADE|), ExportOrganizerData(t, o).value;
            && t.organizers - after.organizers == {doc.organizer}
            && t.events - after.events == doc.events
            && t.series - after.series == doc.series
            && t.children - after.children == doc.children
  {
    CascadeDeletesOwned(t, o, |CASCADE|);
    hide Owns;
  }

  // ---------- other organizers ----------

  /** Event and attendee ids are primary keys. */
  ghost predicate Keyed(t: Tables) {
    && (forall e, f :: e in t.events && f in t.events && e.id == f.id ==> e == f)
    && (forall c, d :: c in t.children && d in t.children && c.kind == d.kind == Attendees && c.id == d.id ==> c == d)
  }

  /** Nothing of another organizer is touched, except cohost links with the deleted one. */
  lemma OthersAreUntouched(t: Tables, o: int, other: int)
    requires Keyed(t) && other != o
    ensures var after := Executed(t, o, |CASCADE|);
            && (other in t.organizers ==> other in after.organizers)
            && (forall e :: e in t.events && e.organizer == other ==> e in after.events)
            && (forall c :: c in t.children && Owns(t, other, c.event) ==> c in after.children)
            && (forall a :: a in t.answers && OwnsAttendee(t, other, a.attendee) ==> a in after.answers)
            && (forall c :: c in t.cohosts && Owns(t, other, c.event) && c.organizer != o && c.addedBy != o ==> c in after.cohosts)
            && (forall r: Record :: r.organizer == other ==>
                  (r in t.series ==> r in after.series) && (r in t.magicLinks ==> r in after.magicLinks) && (r in t.sessions ==> r in after.sessions))
  {
    CascadeDeletesOwned(t, o, |CASCADE|);
    assert forall e :: Owns(t, other, e) ==> !Owns(t, o, e);
    forall a | OwnsAttendee(t, other, a) ensures !OwnsAttendee(t, o, a) {
      var c :| c in t.children && c.kind == Attendees && c.id == a && Owns(t, other, c.event);
    }
  }

  // ---------- references ----------

  predicate HasEvent(t: Tables, e: int) {
    exists ev :: ev in t.events && ev.id == e
  }

  /** The attendee and the question, of one event. */
  predicate AnswersOneEvent(t: Tables, a: Answer) {
    exists c, q :: c in t.children && c.kind == Attendees && c.id == a.attendee
                   && q in t.children && q.kind == Questions && q.id == a.question && c.event == q.event
  }

  /** The attendee, a guest of this event. */
  predicate HasGuest(t: Tables, e: int, a: int) {
    exists c :: c in t.children && c.kind == Attendees && c.id == a && c.event == e
  }

  /** The series, of this organizer. */
  predicate HasSeries(t: Tables, o: int, series: int) {
    exists r :: r in t.series && r.id == series && r.organizer == o
  }

  /** In the tables the cascade names every row refers to rows that are stored; events belong to series
      of their own organizer, comments and notifications to guests of their own event, and answers to
      a guest and a question of one event. */
  ghost predicate Intact(t: Tables) {
    && (forall e :: e in t.events ==> e.organizer in t.organizers && (e.series.Some? ==> HasSeries(t, e.organizer, e.series.value)))
    && (forall c :: c in t.children ==> HasEvent(t, c.event) && (c.attendee.Some? ==> HasGuest(t, c.event, c.attendee.value)))
    && (forall a :: a in t.answers ==> AnswersOneEvent(t, a))
    && (forall c :: c in t.cohosts ==> HasEvent(t, c.event) && c.organizer in t.organizers && c.addedBy in t.organizers)
    && (forall r :: r in t.series || r in t.magicLinks || r in t.sessions ==> r.organizer in t.organizers)
  }

  lemma EventStays(t: Tables, o: int, n: nat, e: int)
    requires HasEvent(t, e) && (n > 10 ==> !Owns(t, o, e))
    ensures HasEvent(Without(t, o, n), e)
  {
  }

  lemma AnswerStays(t: Tables, o: int, n: nat, a: Answer)
    requires AnswersOneEvent(t, a) && (n > 0 ==> !OwnsAttendee(t, o, a.attendee))
    ensures AnswersOneEvent(Without(t, o, n), a)
  {
    var c, q :| c in t.children && c.kind == Attendees && c.id == a.attendee
                && q in t.children && q.kind == Questions && q.id == a.question && c.event == q.event;
    assert c in Without(t, o, n).children && q in Without(t, o, n).children;
  }

  lemma GuestStays(t: Tables, o: int, n: nat, e: int, a: int)
    requires HasGuest(t, e, a) && (n > 7 ==> !Owns(t, o, e))
    ensures HasGuest(Without(t, o, n), e, a)
  {
  }

  lemma SeriesStays(t: Tables, o: int, n: nat, organizer: int, series: int)
    requires HasSeries(t, organizer, series) && (n > 11 ==> organizer != o)
    ensures HasSeries(Without(t, o, n), organizer, series)
  {
  }

  /** Children first: after every single statement, no row of the tables the cascade names refers to
      a deleted one. */
  lemma EveryStatementKeepsReferences(t: Tables, o: int, n: nat)
    requires Intact(t) && n <= |CASCADE|
    ensures Intact(Executed(t, o, n))
  {
    CascadeDeletesOwned(t, o, n);
    var u := Without(t, o, n);
    forall e | e in u.events && e.series.Some? ensures HasSeries(u, e.organizer, e.series.value) {
      SeriesStays(t, o, n, e.organizer, e.series.value);
    }
    forall c | c in u.children ensures HasEvent(u, c.event) { EventStays(t, o, n, c.event); }
    forall c | c in u.children && c.attendee.Some? ensures HasGuest(u, c.event, c.attendee.value) {
      GuestStays(t, o, n, c.event, c.attendee.value);
    }
    forall c | c in u.cohosts ensures HasEvent(u, c.event) { EventStays(t, o, n, c.event); }
    forall a | a in u.answers ensures AnswersOneEvent(u, a) { AnswerStays(t, o, n, a); }
    hide Owns, OwnsAttendee, HasEvent, AnswersOneEvent, HasGuest, HasSeries;
  }

  // ---------- rows the cascade does not know ----------

  ghost predicate ScopedIntact(t: Tables) {
    forall r :: r in t.scoped && r.event.Some? ==> HasEvent(t, r.event.value)
  }

  /** Suppressions and unsubscribe tokens are left to the database's own ON DELETE CASCADE: without it
      they keep their references exactly until the events go, or if none was for an event of the
      organizer. */
  lemma ScopedRowsDangleExactly(t: Tables, o: int, n: nat)
    requires Keyed(t) && ScopedIntact(t) && n <= |CASCADE|
    ensures ScopedIntact(Executed(t, o, n))
            <==> n <= 10 || forall r :: r in t.scoped && r.event.Some? ==> !Owns(t, o, r.event.value)
  {
    CascadeDeletesOwned(t, o, n);
    var u := Without(t, o, n);
    forall r | r in t.scoped && r.event.Some?
      ensures HasEvent(u, r.event.value) <==> n <= 10 || !Owns(t, o, r.event.value)
    {
      EventGoesExactly(t, o, n, r.event.value);
    }
    hide Owns, HasEvent;
  }

  lemma EventGoesExactly(t: Tables, o: int, n: nat, e: int)
    requires Keyed(t) && HasEvent(t, e)
    ensures HasEvent(Without(t, o, n), e) <==> n <= 10 || !Owns(t, o, e)
  {
    if n <= 10 || !Owns(t, o, e) { EventStays(t, o, n, e); }
  }

  /** One organizer, one event and one guest who unsubscribed from it. */
  lemma SuppressionDangles(t: Tables)
    requires t == Tables({1}, {Event(2, 1, None)}, {}, {}, {}, {}, {}, {}, {Scoped(3, Some(2))})
    ensures Intact(t) && ScopedIntact(t) && !ScopedIntact(Executed(t, 1, |CASCADE|))
  {
    assert Event(2, 1, None) in t.events && Scoped(3, Some(2)) in t.scoped;
    assert Owns(t, 1, 2) && HasEvent(t, 2);
    ScopedRowsDangleExactly(t, 1, |CASCADE|);
  }
}
