/**
 Concurrent RSVP requests, manual promotions and imports.  From the lock on, every statement on
 the attendees table and every lock operation is one step, and steps of any number of threads
 interleave freely.  The lock of an event with a capacity is the slot of the 256-entry mutex
 pool its id hashes to; events may share a slot.  Manual promotions and imports take no lock.
 Source: internal/rsvp/service.go and internal/rsvp/import.go.
 */
module RsvpInterleaving {
  import opened Wrappers
  import opened AttendeeTable
  import opened Waitlist
  import opened RsvpRules
  import opened RsvpEffects
  import opened RsvpOutcomes
  import RsvpService

  const POOL_SIZE := 256

  /** Events with fixed capacities, the hash that picks a mutex for an event id, and the events whose
      organizers promote guests by hand. */
  datatype World = World(events: map<int, Event>, smsEnabled: bool, hash: int -> nat, byHand: set<int>)

  datatype Request =
    | Submitting(e: int, req: SubmitRequest, newToken: int, now: int)
    | Updating(e: int, row: Attendee, update: UpdateRequest, now: int)  // row: read before taking the lock
    | Removing(e: int, id: int)
    | Organizing(e: int, id: int, edit: OrganizerRequest)

  /** Where a thread is.  Between Entered and Leaving it holds its event's mutex, if the
      event has a capacity. */
  datatype Thread =
    | Idle
    | Promoting(at: int, row: Attendee)  // PromoteAttendee has read a waitlisted row
    | Importing(at: int, todo: Rows)     // ExecuteCSVImport has these rows left to insert
    | Waiting(r: Request)
    | Entered(r: Request)
    | Seeking(r: Request)                // SubmitRSVP has found nobody by email
    | HasRow(r: Request, found: Option<Attendee>)
    | HasHeads(r: Request, found: Option<Attendee>, heads: int)
    | LoopStart(at: int)
    | LoopHeads(at: int, heads: int)
    | LoopRow(at: int, heads: int, first: Attendee)
    | Leaving(at: int)

  datatype State = State(rows: Rows, owner: map<int, int>, threads: map<int, Thread>, nextId: int)

  /** What an idle thread sets out to do. */
  datatype Start = Ask(request: Request) | PromoteByHand(e: int, row: Attendee) | Import(e: int, added: Rows)

  /** What a step takes from outside: a start, or the row a lookup happens to return. */
  datatype Choice = Choice(start: Start, found: Option<Attendee>)

  function At(s: State, t: int): Thread {
    if t in s.threads then s.threads[t] else Idle
  }

  predicate Inside(th: Thread) {
    !th.Idle? && !th.Waiting? && !th.Promoting? && !th.Importing?
  }

  predicate HasRequest(th: Thread) {
    th.Waiting? || th.Entered? || th.Seeking? || th.HasRow? || th.HasHeads?
  }

  function EventOf(th: Thread): int
    requires !th.Idle?
  {
    if HasRequest(th) then th.r.e else th.at
  }

  predicate Known(w: World, e: int) {
    e in w.events && w.events[e].id == e
  }

  predicate Limited(w: World, e: int) {
    Known(w, e) && w.events[e].maxCapacity.Some?
  }

  /** Limited, and nobody is promoted by hand. */
  predicate Quiet(w: World, e: int) {
    Limited(w, e) && e !in w.byHand
  }

  function Slot(w: World, e: int): int {
    w.hash(e) % POOL_SIZE
  }

  // ---------- steps ----------

  /** A request that has passed the checks made before the lock. */
  ghost predicate Startable(w: World, s: State, r: Request) {
    && Known(w, r.e)
    && (r.Submitting? ==> SubmitRefusal(w.events[r.e], r.req, r.now, w.smsEnabled) == None)
    && (r.Updating? ==> r.row in s.rows && r.row.eventId == r.e && TokenRefusal(w.events[r.e], r.row, r.update, r.now) == None)
  }

  ghost predicate CanStart(w: World, s: State, start: Start) {
    match start
    case Ask(r) => Startable(w, s, r)
    case PromoteByHand(e, row) => Known(w, e) && e in w.byHand && row in s.rows && row.eventId == e && row.status == Waitlisted
    case Import(e, added) => Known(w, e) && Imports(e, added)
  }

  /** Rows to insert: pending rows of the event. */
  ghost predicate Imports(e: int, added: Rows) {
    forall i :: 0 <= i < |added| ==> added[i].eventId == e && added[i].status == Pending
  }

  /** What the first lookup inside the critical section may return: for SubmitRSVP, by email. */
  ghost predicate Finds(s: State, r: Request, found: Option<Attendee>) {
    match r
    case Submitting(e, req, _, _) => FindsByEmail(s.rows, e, req, found)
    case Updating(_, row, _, _) => found == Some(row)
    case Removing(_, id) => found == RowById(s.rows, id)
    case Organizing(_, id, _) => found == RowById(s.rows, id)
  }

  ghost predicate FindsByEmail(rows: Rows, e: int, req: SubmitRequest, found: Option<Attendee>) {
    match found
    case Some(a) => a in rows && a.eventId == e && RsvpService.HasEmail(a, req)
    case None => forall a :: a in rows && a.eventId == e ==> !RsvpService.HasEmail(a, req)
  }

  ghost predicate FindsByPhone(rows: Rows, e: int, req: SubmitRequest, found: Option<Attendee>) {
    match found
    case Some(a) => a in rows && a.eventId == e && RsvpService.HasPhone(a, req)
    case None => forall a :: a in rows && a.eventId == e ==> !RsvpService.HasPhone(a, req)
  }

  ghost predicate CanStep(w: World, s: State, t: int, c: Choice) {
    match At(s, t)
    case Idle => CanStart(w, s, c.start)
    case Waiting(r) => Limited(w, r.e) ==> Slot(w, r.e) !in s.owner
    case Entered(r) => Finds(s, r, c.found)
    case Seeking(r) => r.Submitting? ==> FindsByPhone(s.rows, r.e, r.req, c.found)
    case _ => true
  }

  /** The decision a request makes from what it has read. */
  ghost function Decide(w: World, s: State, r: Request, row: Option<Attendee>, heads: int): Decision
    requires Known(w, r.e) && (r.Submitting? ==> RequestAcceptable(r.req))
  {
    var ev := w.events[r.e];
    match r
    case Submitting(_, req, newToken, now) => SubmitDecision(ev, req, row, heads, s.nextId, newToken, now)
    case Updating(_, _, update, _) => if row.Some? then TokenDecision(ev, row.value, update, heads) else Refuse(NotFound)
    case Organizing(_, _, edit) => if row.Some? then OrganizerDecision(ev, row.value, edit, heads) else Refuse(NotFound)
    case Removing(_, _) => Refuse(NotFound)
  }

  ghost function WriteRows(w: World, s: State, r: Request, row: Option<Attendee>, heads: int): Rows
    requires Known(w, r.e) && (r.Submitting? ==> RequestAcceptable(r.req))
  {
    if r.Removing? then
      if row.Some? && row.value.eventId == r.e then DeleteRows(s.rows, r.id) else s.rows
    else Carry(s.rows, Decide(w, s, r, row, heads))
  }

  /** After the write: the promotion loop if seats were freed, otherwise the way out. */
  ghost function AfterWrite(w: World, s: State, r: Request, row: Option<Attendee>, heads: int): Thread
    requires Known(w, r.e) && (r.Submitting? ==> RequestAcceptable(r.req))
  {
    var d := Decide(w, s, r, row, heads);
    var frees := match r
      case Submitting(_, _, _, _) => false
      case Updating(_, _, _, _) => row.Some? && TokenPromotes(row.value, r.update, d)
      case Removing(e, _) => row.Some? && row.value.eventId == e && row.value.status == Attending
      case Organizing(_, _, _) => row.Some? && OrganizerFrees(row.value, d);
    if frees then LoopStart(r.e) else Leaving(r.e)
  }

  ghost predicate ThreadTyped(w: World, th: Thread) {
    !th.Idle? ==>
      Known(w, EventOf(th))
      && (HasRequest(th) && th.r.Submitting? ==> RequestAcceptable(th.r.req))
  }

  /** The step thread t takes. */
  ghost function Step(w: World, s: State, t: int, c: Choice): State
    requires ThreadTyped(w, At(s, t)) && CanStep(w, s, t, c)
  {
    match At(s, t)
    case Idle =>
      Move(s, t, match c.start
                 case Ask(r) => Waiting(r)
                 case PromoteByHand(e, row) => Promoting(e, row)
                 case Import(e, added) => Importing(e, added))
    case Promoting(e, row) => Move(s.(rows := Promote(s.rows, row)), t, Idle)
    case Importing(e, todo) =>
      if todo == [] then Move(s, t, Idle)
      else Move(s.(rows := s.rows + [todo[0].(id := s.nextId)], nextId := s.nextId + 1), t, Importing(e, todo[1..]))
    case Waiting(r) =>
      Move(if Limited(w, r.e) then s.(owner := s.owner[Slot(w, r.e) := t]) else s, t, Entered(r))
    case Entered(r) => Move(s, t, if r.Submitting? && c.found == None then Seeking(r) else HasRow(r, c.found))
    case Seeking(r) => Move(s, t, HasRow(r, c.found))
    case HasRow(r, row) => Move(s, t, HasHeads(r, row, Headcount(s.rows, r.e)))
    case HasHeads(r, row, heads) =>
      Move(s.(rows := WriteRows(w, s, r, row, heads), nextId := s.nextId + 1), t, AfterWrite(w, s, r, row, heads))
    case LoopStart(e) =>
      var ev := w.events[e];
      var heads := Headcount(s.rows, e);
      Move(s, t, if ev.maxCapacity.None? || !ev.waitlistEnabled || heads >= ev.maxCapacity.value then Leaving(e) else LoopHeads(e, heads))
    case LoopHeads(e, heads) =>
      var first := FirstWaitlisted(s.rows, e);
      Move(s, t, if first.None? || Exceeds(w.events[e], heads + 1 + first.value.plusOnes) then Leaving(e) else LoopRow(e, heads, first.value))
    case LoopRow(e, heads, first) => Move(s.(rows := Promote(s.rows, first)), t, LoopStart(e))
    case Leaving(e) => Move(if Limited(w, e) then s.(owner := s.owner - {Slot(w, e)}) else s, t, Idle)
  }

  function Move(s: State, t: int, th: Thread): State {
    s.(threads := s.threads[t := th])
  }

  // ---------- the invariant ----------

  /** A row as some thread remembers it: its id still stands for a row of event e, if for any. */
  ghost predicate Remembered(s: State, row: Attendee, e: int) {
    && row.id < s.nextId && row.eventId == e
    && forall r :: r in s.rows && r.id == row.id ==> r.eventId == e
  }

  /** A row read inside the critical section of a quiet event is the stored row. */
  ghost predicate Current(w: World, s: State, row: Attendee, e: int) {
    Remembered(s, row, e) && (Quiet(w, e) ==> row in s.rows)
  }

  /** What the checks before the lock leave: the deadline has not passed, the party is not negative,
      and a guest read as waiting does not ask to attend. */
  ghost predicate UpdateOk(ev: Event, row: Attendee, update: UpdateRequest, now: int) {
    && (ev.deadline.Some? ==> now <= ev.deadline.value)
    && (update.plusOnes.Some? ==> update.plusOnes.value >= 0)
    && (row.status == Waitlisted ==> update.status != Given(Attending))
  }

  ghost predicate RequestOk(w: World, s: State, r: Request) {
    && Known(w, r.e)
    && (r.Submitting? ==> RequestAcceptable(r.req))
    && (r.Updating? ==> Remembered(s, r.row, r.e) && UpdateOk(w.events[r.e], r.row, r.update, r.now))
  }

  /** UpdateByToken goes on with the row it read before it took the lock; the others read theirs
      inside. */
  ghost predicate RowOk(w: World, s: State, r: Request, row: Option<Attendee>) {
    && (r.Updating? ==> row == Some(r.row))
    && (!r.Updating? && row.Some? && row.value.eventId == r.e ==> Current(w, s, row.value, r.e))
    && (r.Submitting? && row.Some? ==> row.value.eventId == r.e)
    && (r.Removing? && row.Some? ==> row.value.id == r.id)
  }

  /** What is true of a thread's memory. In particular, a headcount read inside the critical
      section of a quiet event is the stored headcount. */
  ghost predicate MemoryOk(w: World, s: State, th: Thread) {
    match th
    case Idle => true
    case Promoting(e, row) => Known(w, e) && e in w.byHand && Remembered(s, row, e)
    case Importing(e, todo) => Known(w, e) && Imports(e, todo)
    case Waiting(r) => RequestOk(w, s, r)
    case Entered(r) => RequestOk(w, s, r)
    case Seeking(r) => RequestOk(w, s, r) && r.Submitting?
    case HasRow(r, row) => RequestOk(w, s, r) && RowOk(w, s, r, row)
    case HasHeads(r, row, heads) =>
      RequestOk(w, s, r) && RowOk(w, s, r, row) && (Quiet(w, r.e) ==> heads == Headcount(s.rows, r.e))
    case LoopStart(e) => Known(w, e)
    case LoopHeads(e, heads) => Limited(w, e) && (Quiet(w, e) ==> heads == Headcount(s.rows, e))
    case LoopRow(e, heads, first) =>
      Limited(w, e) && Remembered(s, first, e) && !Exceeds(w.events[e], heads + 1 + first.plusOnes)
      && (Quiet(w, e) ==> heads == Headcount(s.rows, e) && FirstInLine(s.rows, e, first))
    case Leaving(e) => Known(w, e)
  }

  /** Mutexes are held by exactly the threads inside critical sections of limited events. */
  ghost predicate LocksOk(w: World, s: State) {
    && (forall t :: Inside(At(s, t)) && Limited(w, EventOf(At(s, t))) ==>
          Slot(w, EventOf(At(s, t))) in s.owner && s.owner[Slot(w, EventOf(At(s, t)))] == t)
    && (forall k :: k in s.owner ==> HoldsSlot(w, s, k))
  }

  ghost predicate HoldsSlot(w: World, s: State, k: int)
    requires k in s.owner
  {
    var th := At(s, s.owner[k]);
    Inside(th) && Limited(w, EventOf(th)) && Slot(w, EventOf(th)) == k
  }

  ghost predicate TableOk(s: State) {
    UniqueIds(s.rows) && forall r :: r in s.rows ==> r.id < s.nextId
  }

  ghost predicate Inv(w: World, s: State) {
    && TableOk(s)
    && LocksOk(w, s)
    && forall t :: MemoryOk(w, s, At(s, t))
  }

  /** No operation holds two locks. */
  lemma OneLockPerThread(w: World, s: State, j: int, k: int)
    requires LocksOk(w, s) && j in s.owner && k in s.owner && s.owner[j] == s.owner[k]
    ensures j == k
  {
  }

  lemma MutualExclusion(w: World, s: State, t: int, u: int)
    requires LocksOk(w, s) && Inside(At(s, t)) && Inside(At(s, u))
    requires EventOf(At(s, t)) == EventOf(At(s, u)) && Limited(w, EventOf(At(s, t)))
    ensures t == u
  {
  }

  // ---------- writes stay inside one event ----------

  /** Only rows of event e differ, and ids do not move between events. */
  ghost predicate OnlyEvent(rows: Rows, after: Rows, e: int, nextId: int) {
    && (forall r: Attendee :: r.eventId != e ==> (r in rows <==> r in after))
    && (forall r :: r in after ==> r.id >= nextId || exists q :: q in rows && q.id == r.id && q.eventId == r.eventId)
    && (forall other :: other != e ==> Headcount(after, other) == Headcount(rows, other) && WaitlistLength(after, other) == WaitlistLength(rows, other))
  }

  lemma StoreOnlyEvent(rows: Rows, row: Attendee, e: int, nextId: int)
    requires UniqueIds(rows) && forall r :: r in rows && r.id == row.id ==> r.eventId == e
    ensures OnlyEvent(rows, UpdateRows(rows, row), e, nextId)
  {
    var after := UpdateRows(rows, row);
    if HasId(rows, row.id) {
      var i :| 0 <= i < |rows| && rows[i].id == row.id;
      UpdateIsPointwise(rows, i, row);
      forall other | other != e
        ensures Headcount(after, other) == Headcount(rows, other) && WaitlistLength(after, other) == WaitlistLength(rows, other)
      {
        SumUpdate(rows, i, Merge(rows[i], row), Seats(other));
        SumUpdate(rows, i, Merge(rows[i], row), WaitsAt(other));
      }
      forall r: Attendee | r.eventId != e ensures r in rows <==> r in after {
        if r in rows { var k :| 0 <= k < |rows| && rows[k] == r; assert after[k] == r; }
      }
      forall r | r in after ensures exists q :: q in rows && q.id == r.id && q.eventId == r.eventId {
        var k :| 0 <= k < |after| && after[k] == r;
        assert rows[k] in rows;
      }
    } else {
      UpdateMisses(rows, row);
    }
  }

  lemma DeleteOnlyEvent(rows: Rows, a: Attendee, nextId: int)
    requires UniqueIds(rows) && a in rows
    ensures OnlyEvent(rows, DeleteRows(rows, a.id), a.eventId, nextId)
  {
    var i :| 0 <= i < |rows| && rows[i] == a;
    var after := DeleteRows(rows, a.id);
    DeleteIsPointwise(rows, i);
    forall other | other != a.eventId
      ensures Headcount(after, other) == Headcount(rows, other) && WaitlistLength(after, other) == WaitlistLength(rows, other)
    {
      SumRemove(rows, i, Seats(other));
      SumRemove(rows, i, WaitsAt(other));
    }
    forall r ensures r in after ==> r in rows {}
    forall r: Attendee | r.eventId != a.eventId && r in rows ensures r in after {
      var k :| 0 <= k < |rows| && rows[k] == r;
      assert r in rows[..i] || r in rows[i + 1..];
    }
  }

  lemma InsertOnlyEvent(rows: Rows, row: Attendee, nextId: int)
    requires row.id == nextId
    ensures OnlyEvent(rows, rows + [row], row.eventId, nextId)
  {
    forall other | other != row.eventId
      ensures Headcount(rows + [row], other) == Headcount(rows, other) && WaitlistLength(rows + [row], other) == WaitlistLength(rows, other)
    {
      SumAppend(rows, row, Seats(other));
      SumAppend(rows, row, WaitsAt(other));
    }
    forall r | r in rows + [row] ensures r.id >= nextId || (r in rows) {}
  }

  // ---------- other threads' memory survives a step ----------

  lemma RememberedSurvives(s: State, after: State, row: Attendee, e: int, touched: int)
    requires Remembered(s, row, e) && OnlyEvent(s.rows, after.rows, touched, s.nextId) && s.nextId <= after.nextId
    ensures Remembered(after, row, e)
  {
  }

  lemma HeadsSurvive(s: State, after: State, e: int, touched: int)
    requires OnlyEvent(s.rows, after.rows, touched, s.nextId) && e != touched
    ensures Headcount(after.rows, e) == Headcount(s.rows, e)
  {
  }

  lemma StoredSurvives(s: State, after: State, row: Attendee, e: int, touched: int)
    requires OnlyEvent(s.rows, after.rows, touched, s.nextId) && e != touched
    ensures row.eventId == e && row in s.rows ==> row in after.rows
  {
  }

  lemma LineSurvives(s: State, after: State, e: int, first: Attendee, touched: int)
    requires OnlyEvent(s.rows, after.rows, touched, s.nextId) && e != touched
    ensures FirstInLine(s.rows, e, first) ==> FirstInLine(after.rows, e, first)
  {
  }

  lemma RequestSurvives(w: World, s: State, after: State, r: Request, touched: int)
    requires RequestOk(w, s, r) && OnlyEvent(s.rows, after.rows, touched, s.nextId) && s.nextId <= after.nextId
    ensures RequestOk(w, after, r)
  {
    hide OnlyEvent, Remembered;
    if r.Updating? { RememberedSurvives(s, after, r.row, r.e, touched); }
  }

  lemma RowSurvives(w: World, s: State, after: State, r: Request, row: Option<Attendee>, touched: int)
    requires RowOk(w, s, r, row) && OnlyEvent(s.rows, after.rows, touched, s.nextId) && s.nextId <= after.nextId
    requires Quiet(w, r.e) ==> r.e != touched
    ensures RowOk(w, after, r, row)
  {
    hide OnlyEvent, Remembered, Quiet, Headcount;
    if !r.Updating? && row.Some? && row.value.eventId == r.e {
      RememberedSurvives(s, after, row.value, r.e, touched);
      if Quiet(w, r.e) { StoredSurvives(s, after, row.value, r.e, touched); }
    }
  }

  /** A step that touches one event keeps the memory of every thread that is not inside the
      critical section of that event. */
  lemma MemorySurvives(w: World, s: State, after: State, th: Thread, touched: int)
    requires MemoryOk(w, s, th) && OnlyEvent(s.rows, after.rows, touched, s.nextId) && s.nextId <= after.nextId
    requires Inside(th) && Quiet(w, EventOf(th)) ==> EventOf(th) != touched
    ensures MemoryOk(w, after, th)
  {
    hide OnlyEvent, Remembered, Quiet, Headcount, RequestOk, RowOk, Limited, Known, FirstInLine;
    if HasRequest(th) { RequestSurvives(w, s, after, th.r, touched); }
    if th.HasRow? || th.HasHeads? { RowSurvives(w, s, after, th.r, th.found, touched); }
    if th.Promoting? { RememberedSurvives(s, after, th.row, th.at, touched); }
    if th.LoopRow? {
      RememberedSurvives(s, after, th.first, th.at, touched);
      if Quiet(w, th.at) { LineSurvives(s, after, th.at, th.first, touched); }
    }
    if Inside(th) && Quiet(w, EventOf(th)) {
      HeadsSurvive(s, after, EventOf(th), touched);
    }
  }

  /** A pending row with a new id disturbs nobody, not even inside its event's critical section. */
  lemma MemorySurvivesImport(w: World, s: State, after: State, th: Thread, row: Attendee)
    requires MemoryOk(w, s, th) && row.id == s.nextId < after.nextId && row.status == Pending && after.rows == s.rows + [row]
    ensures MemoryOk(w, after, th)
  {
    forall e ensures Headcount(after.rows, e) == Headcount(s.rows, e) {
      SumAppend(s.rows, row, Seats(e));
    }
  }

  // ---------- what a step writes ----------

  /** What a step does to the table. */
  ghost predicate GoodWrite(s: State, after: State, e: int) {
    && TableOk(after) && s.nextId <= after.nextId
    && OnlyEvent(s.rows, after.rows, e, s.nextId)
  }

  lemma NoWrite(s: State, after: State, e: int)
    requires TableOk(s) && after.rows == s.rows && after.nextId >= s.nextId
    ensures GoodWrite(s, after, e)
  {
  }

  /** Storing a remembered row, stale or not, touches its event only. */
  lemma StoreRemembered(s: State, row: Attendee, e: int)
    requires TableOk(s) && Remembered(s, row, e)
    ensures TableOk(s.(rows := UpdateRows(s.rows, row))) && OnlyEvent(s.rows, UpdateRows(s.rows, row), e, s.nextId)
  {
    CarryKeepsIds(s.rows, Store(row));
    StoreOnlyEvent(s.rows, row, e, s.nextId);
  }

  lemma InsertNew(s: State, row: Attendee)
    requires TableOk(s) && row.id == s.nextId
    ensures TableOk(s.(rows := s.rows + [row], nextId := s.nextId + 1)) && OnlyEvent(s.rows, s.rows + [row], row.eventId, s.nextId)
  {
    CarryKeepsIds(s.rows, Insert(row));
    InsertOnlyEvent(s.rows, row, s.nextId);
  }

  ghost function Written(w: World, s: State, th: Thread): State
    requires th.HasHeads? && Known(w, th.r.e) && (th.r.Submitting? ==> RequestAcceptable(th.r.req))
  {
    s.(rows := WriteRows(w, s, th.r, th.found, th.heads), nextId := s.nextId + 1)
  }

  lemma DecisionWrite(w: World, s: State, th: Thread)
    requires TableOk(s) && MemoryOk(w, s, th) && th.HasHeads? && !th.r.Removing?
    ensures GoodWrite(s, Written(w, s, th), th.r.e)
  {
    var HasHeads(r, row, heads) := th;
    var d := Decide(w, s, r, row, heads);
    hide OnlyEvent, UpdateRows, Headcount, Limited;
    if d.Store? {
      assert Remembered(s, d.row, r.e);
      StoreRemembered(s, d.row, r.e);
    } else if d.Insert? {
      InsertNew(s, d.row);
    } else {
      NoWrite(s, Written(w, s, th), r.e);
    }
  }

  lemma DeleteStored(s: State, stored: Attendee)
    requires TableOk(s) && stored in s.rows
    ensures GoodWrite(s, s.(rows := DeleteRows(s.rows, stored.id), nextId := s.nextId + 1), stored.eventId)
  {
    DeleteOnlyEvent(s.rows, stored, s.nextId);
    var i :| 0 <= i < |s.rows| && s.rows[i] == stored;
    DeleteIsPointwise(s.rows, i);
    forall r ensures r in DeleteRows(s.rows, stored.id) ==> r in s.rows {}
  }

  lemma RemoveWrite(w: World, s: State, th: Thread)
    requires TableOk(s) && MemoryOk(w, s, th) && th.HasHeads? && th.r.Removing?
    ensures GoodWrite(s, Written(w, s, th), th.r.e)
  {
    var HasHeads(r, row, heads) := th;
    if row.Some? && row.value.eventId == r.e && HasId(s.rows, r.id) {
      assert Remembered(s, row.value, r.e);
      DeleteStored(s, RowById(s.rows, r.id).value);
    } else {
      if row.Some? && row.value.eventId == r.e { DeleteMisses(s.rows, r.id); }
      assert Written(w, s, th).rows == s.rows;
      NoWrite(s, Written(w, s, th), r.e);
    }
  }

  lemma PromotionWrite(w: World, s: State, th: Thread)
    requires TableOk(s) && MemoryOk(w, s, th) && (th.LoopRow? || th.Promoting?)
    ensures GoodWrite(s, s.(rows := Promote(s.rows, if th.LoopRow? then th.first else th.row)), th.at)
  {
    StoreRemembered(s, (if th.LoopRow? then th.first else th.row).(status := Attending), th.at);
  }

  /** The thread writes in its next step. */
  predicate Writes(th: Thread) {
    th.HasHeads? || th.LoopRow? || th.Promoting? || (th.Importing? && th.todo != [])
  }

  /** Every step writes rows of its own event only. */
  lemma StepWrites(w: World, s: State, t: int, c: Choice) returns (e: int)
    requires Inv(w, s) && CanStep(w, s, t, c)
    ensures ThreadTyped(w, At(s, t)) && GoodWrite(s, Step(w, s, t, c), e)
    ensures !At(s, t).Idle? ==> e == EventOf(At(s, t))
    ensures !Writes(At(s, t)) ==> Step(w, s, t, c).rows == s.rows
  {
    var th := At(s, t);
    assert MemoryOk(w, s, th);
    var after := Step(w, s, t, c);
    match th
    case Idle => e := 0; NoWrite(s, after, e);
    case HasHeads(r, row, heads) =>
      e := r.e;
      if r.Removing? { RemoveWrite(w, s, th); } else { DecisionWrite(w, s, th); }
    case LoopRow(at, heads, first) => e := at; PromotionWrite(w, s, th);
    case Promoting(at, row) => e := at; PromotionWrite(w, s, th);
    case Importing(at, todo) =>
      e := at;
      if todo == [] { NoWrite(s, after, e); } else { InsertNew(s, todo[0].(id := s.nextId)); }
    case _ => e := EventOf(th); NoWrite(s, after, e);
  }

  /** The thread that steps remembers only what is true. */
  lemma OwnMemory(w: World, s: State, t: int, c: Choice)
    requires Inv(w, s) && CanStep(w, s, t, c)
    ensures ThreadTyped(w, At(s, t)) && MemoryOk(w, Step(w, s, t, c), At(Step(w, s, t, c), t))
  {
    hide WriteRows, Decide, Promote, UniqueIds, LocksOk;
    var th := At(s, t);
    assert MemoryOk(w, s, th);
    match th
    case Idle =>
      if c.start.PromoteByHand? { RememberedStored(s, c.start.row); }
      if c.start.Ask? && c.start.request.Updating? { RememberedStored(s, c.start.request.row); }
    case Entered(r) => if c.found.Some? && !r.Updating? { RememberedStored(s, c.found.value); }
    case Seeking(r) => if c.found.Some? { RememberedStored(s, c.found.value); }
    case LoopHeads(e, heads) =>
      FirstWaitlistedIsFirst(s.rows, e);
      if FirstWaitlisted(s.rows, e).Some? { RememberedStored(s, FirstWaitlisted(s.rows, e).value); }
    case _ =>
  }

  lemma RememberedStored(s: State, row: Attendee)
    requires TableOk(s) && row in s.rows
    ensures Remembered(s, row, row.eventId)
  {
  }

  lemma LocksKept(w: World, s: State, t: int, c: Choice)
    requires LocksOk(w, s) && ThreadTyped(w, At(s, t)) && CanStep(w, s, t, c)
    ensures LocksOk(w, Step(w, s, t, c))
  {
    hide WriteRows, Decide, Promote, FirstWaitlisted, Headcount, Exceeds, CanStart, Finds, FindsByPhone;
    var after := Step(w, s, t, c);
    var th := At(s, t);
    forall u ensures u != t ==> At(after, u) == At(s, u) {}
    if th.Waiting? && Limited(w, th.r.e) {
      forall k | k in after.owner ensures HoldsSlot(w, after, k) {
        if k in s.owner { assert HoldsSlot(w, s, k); }
      }
    } else if th.Leaving? && Limited(w, th.at) {
      forall k | k in after.owner ensures HoldsSlot(w, after, k) {
        assert HoldsSlot(w, s, k);
      }
    } else {
      assert after.owner == s.owner;
      forall k | k in after.owner ensures HoldsSlot(w, after, k) {
        assert HoldsSlot(w, s, k);
      }
    }
  }

  /** The invariant survives every step of every thread. */
  lemma StepKeepsInvariant(w: World, s: State, t: int, c: Choice)
    requires Inv(w, s) && CanStep(w, s, t, c)
    ensures ThreadTyped(w, At(s, t)) && Inv(w, Step(w, s, t, c))
  {
    hide Step, CanStep, ThreadTyped, MemoryOk, OnlyEvent, LocksOk, TableOk, At, Limited, Headcount;
    var e := StepWrites(w, s, t, c);
    var after := Step(w, s, t, c);
    LocksKept(w, s, t, c);
    forall u ensures MemoryOk(w, after, At(after, u)) {
      if u == t { OwnMemory(w, s, t, c); } else { OtherMemory(w, s, t, c, u); }
    }
  }

  lemma OthersStay(w: World, s: State, t: int, c: Choice, u: int)
    requires ThreadTyped(w, At(s, t)) && CanStep(w, s, t, c) && u != t
    ensures At(Step(w, s, t, c), u) == At(s, u)
  {
  }

  /** What the other threads remember stays true. */
  lemma OtherMemory(w: World, s: State, t: int, c: Choice, u: int)
    requires Inv(w, s) && CanStep(w, s, t, c) && u != t
    ensures ThreadTyped(w, At(s, t)) && MemoryOk(w, Step(w, s, t, c), At(Step(w, s, t, c), u))
  {
    hide Step, CanStep, ThreadTyped, MemoryOk, OnlyEvent, LocksOk, TableOk, At;
    var e := StepWrites(w, s, t, c);
    var after := Step(w, s, t, c);
    OthersStay(w, s, t, c, u);
    assert MemoryOk(w, s, At(s, u)) && MemoryOk(w, s, At(s, t));
    if Inside(At(s, t)) {
      if Inside(At(s, u)) && Limited(w, e) && EventOf(At(s, u)) == e { MutualExclusion(w, s, t, u); }
      MemorySurvives(w, s, after, At(s, u), e);
    } else if At(s, t).Promoting? {
      PromotesByHand(w, s, At(s, t));
      MemorySurvives(w, s, after, At(s, u), e);
    } else if At(s, t).Importing? && At(s, t).todo != [] {
      ImportStep(w, s, t, c);
      MemorySurvivesImport(w, s, after, At(s, u), At(s, t).todo[0].(id := s.nextId));
    } else {
      MemoryUnmoved(w, s, after, At(s, u));
    }
  }

  lemma PromotesByHand(w: World, s: State, th: Thread)
    requires MemoryOk(w, s, th) && th.Promoting?
    ensures !Quiet(w, th.at)
  {
  }

  lemma ImportStep(w: World, s: State, t: int, c: Choice)
    requires MemoryOk(w, s, At(s, t)) && At(s, t).Importing? && At(s, t).todo != [] && ThreadTyped(w, At(s, t)) && CanStep(w, s, t, c)
    ensures var row, after := At(s, t).todo[0].(id := s.nextId), Step(w, s, t, c);
            after.rows == s.rows + [row] && after.nextId == s.nextId + 1 && row.status == Pending && row.eventId == At(s, t).at
  {
  }

  lemma MemoryUnmoved(w: World, s: State, after: State, th: Thread)
    requires MemoryOk(w, s, th) && after.rows == s.rows && s.nextId <= after.nextId
    ensures MemoryOk(w, after, th)
  {
  }

  // ---------- runs ----------

  /** A thread and what its step takes from outside. */
  datatype Turn = Turn(thread: int, choice: Choice)

  /** Every turn is a step its thread can take. */
  ghost predicate IsRun(w: World, s: State, turns: seq<Turn>)
    decreases |turns|
  {
    turns == [] ||
    (var t, c := turns[0].thread, turns[0].choice;
     ThreadTyped(w, At(s, t)) && CanStep(w, s, t, c) && IsRun(w, Step(w, s, t, c), turns[1..]))
  }

  ghost function EndOf(w: World, s: State, turns: seq<Turn>): State
    requires IsRun(w, s, turns)
    decreases |turns|
  {
    if turns == [] then s else EndOf(w, Step(w, s, turns[0].thread, turns[0].choice), turns[1..])
  }

  lemma QuietTableSatisfiesInvariant(w: World, rows: Rows, nextId: int)
    requires UniqueIds(rows) && forall r :: r in rows ==> r.id < nextId
    ensures Inv(w, State(rows, map[], map[], nextId))
  {
  }

  /** In every interleaving the lock discipline holds, and a headcount read inside a critical section is
      still the stored headcount, unless guests of that event are promoted by hand. */
  lemma {:induction false} InterleavingsKeepInvariant(w: World, s: State, turns: seq<Turn>)
    requires Inv(w, s) && IsRun(w, s, turns)
    ensures Inv(w, EndOf(w, s, turns))
    ensures forall t :: var th := At(EndOf(w, s, turns), t);
              th.HasHeads? && Quiet(w, th.r.e) ==> th.heads == Headcount(EndOf(w, s, turns).rows, th.r.e)
    decreases |turns|
  {
    if turns == [] {
      forall t ensures var th := At(s, t); th.HasHeads? && Quiet(w, th.r.e) ==> th.heads == Headcount(s.rows, th.r.e) {
        assert MemoryOk(w, s, At(s, t));
      }
    } else {
      hide Inv, Quiet, Headcount, ThreadTyped, CanStep, Step;
      StepKeepsInvariant(w, s, turns[0].thread, turns[0].choice);
      InterleavingsKeepInvariant(w, Step(w, s, turns[0].thread, turns[0].choice), turns[1..]);
    }
  }

  // ---------- progress ----------

  /** Only a thread that waits for a mutex can be blocked. */
  lemma OnlyWaitingBlocks(w: World, s: State, t: int) returns (c: Choice)
    requires !At(s, t).Idle? && !At(s, t).Waiting?
    ensures CanStep(w, s, t, c)
  {
    var any := Import(0, []);
    c := Choice(any, None);
    var th := At(s, t);
    if th.Seeking? && th.r.Submitting? {
      if a :| a in s.rows && a.eventId == th.r.e && RsvpService.HasPhone(a, th.r.req) {
        c := Choice(any, Some(a));
      }
    } else if th.Entered? {
      match th.r
      case Submitting(e, req, _, _) =>
        if a :| a in s.rows && a.eventId == e && RsvpService.HasEmail(a, req) {
          c := Choice(any, Some(a));
        }
      case Updating(_, row, _, _) => c := Choice(any, Some(row));
      case Removing(_, id) => c := Choice(any, RowById(s.rows, id));
      case Organizing(_, id, _) => c := Choice(any, RowById(s.rows, id));
    }
  }

  /** A thread inside a critical section of a limited event that shares its mutex with event e. */
  ghost predicate Blocks(w: World, th: Thread, e: int) {
    Inside(th) && Limited(w, EventOf(th)) && w.hash(EventOf(th)) % 256 == w.hash(e) % 256
  }

  /** A request waits exactly while another one is inside for an event whose hash is the same modulo
      the size of the pool; requests for events without a capacity never wait. */
  lemma BlockedExactly(w: World, s: State, t: int, c: Choice)
    requires LocksOk(w, s) && At(s, t).Waiting?
    ensures !CanStep(w, s, t, c) <==> Limited(w, At(s, t).r.e) && exists u :: Blocks(w, At(s, u), At(s, t).r.e)
  {
    var k := Slot(w, At(s, t).r.e);
    if Limited(w, At(s, t).r.e) && k in s.owner {
      assert HoldsSlot(w, s, k);
      assert Blocks(w, At(s, s.owner[k]), At(s, t).r.e);
    }
  }

  /** No deadlock: while some request is unfinished, some unfinished request can take a step. */
  lemma NoDeadlock(w: World, s: State, t: int) returns (u: int, c: Choice)
    requires Inv(w, s) && !At(s, t).Idle?
    ensures !At(s, u).Idle? && CanStep(w, s, u, c)
  {
    u := t;
    var th := At(s, t);
    if th.Waiting? {
      if Limited(w, th.r.e) && Slot(w, th.r.e) in s.owner {
        u := s.owner[Slot(w, th.r.e)];
        assert HoldsSlot(w, s, Slot(w, th.r.e));
        c := OnlyWaitingBlocks(w, s, u);
      } else {
        c := Choice(Import(0, []), None);
      }
    } else {
      c := OnlyWaitingBlocks(w, s, t);
    }
  }

  /** After any run from a quiet table, an unfinished request means that some request can move. */
  lemma NoRunDeadlocks(w: World, rows: Rows, nextId: int, turns: seq<Turn>, t: int) returns (u: int, c: Choice)
    requires UniqueIds(rows) && forall r :: r in rows ==> r.id < nextId
    requires IsRun(w, State(rows, map[], map[], nextId), turns)
    requires !At(EndOf(w, State(rows, map[], map[], nextId), turns), t).Idle?
    ensures var end := EndOf(w, State(rows, map[], map[], nextId), turns); !At(end, u).Idle? && CanStep(w, end, u, c)
  {
    var s := State(rows, map[], map[], nextId);
    QuietTableSatisfiesInvariant(w, rows, nextId);
    InterleavingsKeepInvariant(w, s, turns);
    u, c := NoDeadlock(w, EndOf(w, s, turns), t);
  }
}
