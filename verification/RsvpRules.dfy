/**
 What each RSVP operation decides, as a function of the event, the attendee row it read
 and the headcount it read.  Source: internal/rsvp/service.go.  The service class runs
 these decisions one operation at a time; the interleaving model runs them step by step.
 */
module RsvpRules {
  import opened Wrappers
  import opened AttendeeTable

  datatype Contact = EmailOnly | PhoneOnly | EmailAndPhone | EmailOrPhone

  datatype Event = Event(id: int, published: bool, deadline: Option<int>,
                         maxCapacity: Option<int>, waitlistEnabled: bool, contact: Contact)

  datatype Error = NotFound | WrongEvent | NotAccepting | Closed | Malformed | AtCapacity | NotWaitlisted | BadAnswers

  /** A status field of a request: absent, one of the five statuses, or other text. */
  datatype StatusField = Absent | Given(status: Status) | Unrecognised

  /** `wellFormed` stands for the length and format checks on the text fields, and `answersAccepted` for
      the check of the answers to the event's questions, which comes after the row is written. */
  datatype SubmitRequest = SubmitRequest(name: string, email: Option<string>, phone: Option<string>,
                                         status: StatusField, plusOnes: int, wellFormed: bool, answersAccepted: bool)

  datatype UpdateRequest = UpdateRequest(name: Option<string>, status: StatusField, plusOnes: Option<int>,
                                         wellFormed: bool, answersAccepted: bool)

  datatype OrganizerRequest = OrganizerRequest(name: Option<string>, email: Option<string>, phone: Option<string>,
                                               status: StatusField, plusOnes: Option<int>, wellFormed: bool)

  /** What an operation does to the table once it has read what it needs. */
  datatype Decision = Refuse(error: Error) | Insert(row: Attendee) | Store(row: Attendee)

  function Or<T>(field: Option<T>, otherwise: T): T {
    if field.Some? then field.value else otherwise
  }

  predicate Present(field: Option<string>) {
    field.Some? && field.value != ""
  }

  predicate OpenToGuests(s: Status) {
    s == Attending || s == Maybe || s == Declined
  }

  predicate PastDeadline(ev: Event, now: int) {
    ev.deadline.Some? && now > ev.deadline.value
  }

  predicate Exceeds(ev: Event, heads: int) {
    ev.maxCapacity.Some? && heads > ev.maxCapacity.value
  }

  // ---------- SubmitRSVP ----------

  /** The checks SubmitRSVP makes on the request before it looks the event up. */
  predicate RequestAcceptable(req: SubmitRequest) {
    && req.name != "" && req.wellFormed
    && req.status.Given? && OpenToGuests(req.status.status)
    && req.plusOnes >= 0
  }

  predicate ContactAcceptable(ev: Event, req: SubmitRequest, smsEnabled: bool) {
    && (match ev.contact
        case EmailOnly => Present(req.email)
        case PhoneOnly => Present(req.phone)
        case EmailAndPhone => Present(req.email) && Present(req.phone)
        case EmailOrPhone => Present(req.email) || Present(req.phone))
    && (smsEnabled || Present(req.email))
  }

  /** The error SubmitRSVP returns before it takes the lock, if any. */
  function SubmitRefusal(ev: Event, req: SubmitRequest, now: int, smsEnabled: bool): Option<Error> {
    if !RequestAcceptable(req) then Some(Malformed)
    else if !ev.published then Some(NotAccepting)
    else if PastDeadline(ev, now) then Some(Closed)
    else if !ContactAcceptable(ev, req, smsEnabled) then Some(Malformed)
    else None
  }

  /** The row an existing guest already contributes to the headcount. */
  function Contribution(existing: Option<Attendee>): int {
    if existing.Some? && existing.value.status == Attending then 1 + existing.value.plusOnes else 0
  }

  function SubmitDecision(ev: Event, req: SubmitRequest, existing: Option<Attendee>, heads: int,
                          newId: int, newToken: int, now: int): Decision
    requires RequestAcceptable(req)
  {
    var wanted := req.status.status;
    var plusOnes := if wanted == Declined then 0 else req.plusOnes;
    var full := wanted == Attending && Exceeds(ev, heads - Contribution(existing) + 1 + plusOnes);
    if full && !ev.waitlistEnabled then Refuse(AtCapacity)
    else
      var status := if full then Waitlisted else wanted;
      if existing.Some? then
        Store(existing.value.(name := req.name, status := status, plusOnes := plusOnes,
                              email := if req.email.Some? then req.email else existing.value.email,
                              phone := if req.phone.Some? then req.phone else existing.value.phone))
      else
        Insert(Attendee(newId, ev.id, newToken, req.name, req.email, req.phone, status, plusOnes, now))
  }

  // ---------- UpdateByToken ----------

  /** The error UpdateByToken returns from the row it read before taking the lock, if any. */
  function TokenRefusal(ev: Event, a: Attendee, req: UpdateRequest, now: int): Option<Error> {
    if PastDeadline(ev, now) then Some(Closed)
    else if req.status.Unrecognised? || (req.status.Given? && !OpenToGuests(req.status.status)) then Some(Malformed)
    else if req.plusOnes.Some? && req.plusOnes.value < 0 then Some(Malformed)
    else if a.status == Waitlisted && req.status == Given(Attending) then Some(Malformed)
    else None
  }

  /** Seats the update would add, in the cases where UpdateByToken consults the capacity. */
  function TokenSeatsAdded(a: Attendee, req: UpdateRequest): Option<int> {
    if req.status == Given(Attending) && a.status != Attending then Some(1 + Or(req.plusOnes, a.plusOnes))
    else if (req.status == Given(Attending) || a.status == Attending) && req.plusOnes.Some? && req.plusOnes.value > a.plusOnes
    then Some(req.plusOnes.value - a.plusOnes)
    else None
  }

  function TokenDecision(ev: Event, a: Attendee, req: UpdateRequest, heads: int): Decision {
    var added := TokenSeatsAdded(a, req);
    if added.Some? && Exceeds(ev, heads + added.value) then Refuse(AtCapacity)
    else if (req.name.Some? && req.name.value == "") || !req.wellFormed then Refuse(Malformed)
    else
      var status := if req.status.Given? then req.status.status else a.status;
      Store(a.(name := Or(req.name, a.name), status := status,
               plusOnes := if status == Declined then 0 else Or(req.plusOnes, a.plusOnes)))
  }

  // ---------- UpdateAttendeeAsOrganizer ----------

  function OrganizerDecision(ev: Event, a: Attendee, req: OrganizerRequest, heads: int): Decision {
    if a.eventId != ev.id then Refuse(WrongEvent)
    else if req.plusOnes.Some? && req.plusOnes.value < 0 then Refuse(Malformed)
    else if (req.name.Some? && req.name.value == "") || !req.wellFormed then Refuse(Malformed)
    else if req.status == Given(Attending) && a.status != Attending && Exceeds(ev, heads + 1 + Or(req.plusOnes, a.plusOnes))
    then Refuse(AtCapacity)
    else if req.status.Unrecognised? then Refuse(Malformed)
    else
      var status := if req.status.Given? then req.status.status else a.status;
      Store(a.(name := Or(req.name, a.name), status := status,
               email := if req.email.Some? then req.email else a.email,
               phone := if req.phone.Some? then req.phone else a.phone,
               plusOnes := if status == Declined then 0 else Or(req.plusOnes, a.plusOnes)))
  }

  /** The organizer raises the party of a guest who is attending and stays so:
      the one case in which no capacity check is made. */
  predicate RaisesAttendingParty(a: Attendee, req: OrganizerRequest) {
    && a.status == Attending
    && (req.status == Absent || req.status == Given(Attending))
    && req.plusOnes.Some? && req.plusOnes.value > a.plusOnes
  }

  // ---------- table effects ----------

  function Carry(rows: Rows, d: Decision): Rows {
    match d
    case Refuse(_) => rows
    case Insert(row) => rows + [row]
    case Store(row) => UpdateRows(rows, row)
  }
}
