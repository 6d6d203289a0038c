/**
 Claiming and sending reminders: internal/scheduler/reminder_store.go,
 internal/scheduler/reminder.go and the update handler of internal/scheduler/handler.go.
 */
module Reminders {
  import opened Wrappers

  datatype Status = Scheduled | Processing | Sent | Failed | Cancelled

  predicate IsFinal(s: Status) {
    s == Sent || s == Failed || s == Cancelled
  }

  // ---------- one worker ----------

  /** What the lookups and sends of one reminder return: no attendees when the query fails. */
  datatype World = World(attendees: Option<nat>, eventFound: bool, sends: nat -> bool)

  /** Some attendee got through. */
  ghost predicate AnySent(w: World, n: nat) {
    exists i :: 0 <= i < n && w.sends(i)
  }

  class ReminderStore {
    var status: map<int, Status>

    constructor ()
      ensures status == map[]
    {
      status := map[];
    }

    /** UPDATE ... SET status = 'processing' WHERE id = ? AND status = 'scheduled' */
    method ClaimForProcessing(id: int) returns (claimed: bool)
      modifies this
      ensures claimed <==> id in old(status) && old(status)[id] == Scheduled
      ensures status == if claimed then old(status)[id := Processing] else old(status)
    {
      claimed := id in status && status[id] == Scheduled;
      if claimed {
        status := status[id := Processing];
      }
    }

    method Cancel(id: int) returns (cancelled: bool)
      modifies this
      ensures cancelled <==> id in old(status) && old(status)[id] == Scheduled
      ensures status == if cancelled then old(status)[id := Cancelled] else old(status)
    {
      cancelled := id in status && status[id] == Scheduled;
      if cancelled {
        status := status[id := Cancelled];
      }
    }

    method SetStatus(id: int, s: Status)
      modifies this
      ensures status == if id in old(status) then old(status)[id := s] else old(status)
    {
      if id in status {
        status := status[id := s];
      }
    }
  }

  /** A claimed reminder ends failed when a lookup fails or when there are attendees and no send
      gets through, and sent otherwise. */
  ghost function Outcome(w: World): Status {
    if w.attendees.None? then Failed
    else if w.attendees.value == 0 then Sent
    else if !w.eventFound || !AnySent(w, w.attendees.value) then Failed
    else Sent
  }

  /** Returns whether this call claimed the reminder. */
  method ProcessReminder(store: ReminderStore, id: int, w: World) returns (claimed: bool)
    modifies store
    ensures claimed <==> id in old(store.status) && old(store.status)[id] == Scheduled
    ensures store.status == if claimed then old(store.status)[id := Outcome(w)] else old(store.status)
    ensures claimed ==> var sent := w.attendees.Some? && (w.attendees.value == 0 || (w.eventFound && exists i :: 0 <= i < w.attendees.value && w.sends(i)));
                        store.status[id] == if sent then Sent else Failed
  {
    claimed := store.ClaimForProcessing(id);
    if !claimed { return; }
    if w.attendees == None {
      store.SetStatus(id, Failed);
      return;
    }
    var n := w.attendees.value;
    if n == 0 {
      store.SetStatus(id, Sent);
      return;
    }
    if !w.eventFound {
      store.SetStatus(id, Failed);
      return;
    }
    var sendErrors := 0;
    for i := 0 to n
      invariant 0 <= sendErrors <= i
      invariant sendErrors == i <==> !AnySent(w, i)
    {
      assert AnySent(w, i + 1) <==> AnySent(w, i) || w.sends(i);
      if !w.sends(i) {
        sendErrors := sendErrors + 1;
      }
    }
    if sendErrors == n {
      store.SetStatus(id, Failed);
    } else {
      store.SetStatus(id, Sent);
    }
  }

  // ---------- any number of workers, cancels and edits ----------

  /** A worker walks a list of reminders it found due, one claim at a time. */
  datatype Worker = Idle | Scanning(queue: seq<int>) | Working(id: int, queue: seq<int>)

  /** The stored statuses, the workers, the edits that have read their row but not yet written it,
      and how often each reminder was claimed and cancelled. */
  datatype State = State(status: map<int, Status>, workers: map<int, Worker>, edits: multiset<int>,
                         claims: multiset<int>, cancels: multiset<int>)

  datatype Action =
    | Create(id: int)
    | Scan(worker: int, due: seq<int>)
    | Claim(worker: int)
    | Finish(worker: int, outcome: Status, written: bool)  // written: the final status update succeeded
    | Crash(worker: int)
    | Cancel(id: int)
    | ReadForEdit(id: int)  // handleUpdate reads the row and finds it scheduled
    | WriteBack(id: int)    // handleUpdate stores the row it has read

  function At(s: State, worker: int): Worker {
    if worker in s.workers then s.workers[worker] else Idle
  }

  predicate Is(s: State, id: int, status: Status) {
    id in s.status && s.status[id] == status
  }

  ghost predicate CanAct(s: State, a: Action) {
    match a
    case Create(id) => id !in s.status && s.claims[id] == 0 && s.cancels[id] == 0
    case Scan(worker, due) => At(s, worker).Idle? && forall id :: id in due ==> Is(s, id, Scheduled)
    case Claim(worker) => At(s, worker).Scanning? && At(s, worker).queue != []
    case Finish(worker, outcome, _) => At(s, worker).Working? && (outcome == Sent || outcome == Failed)
    case Crash(_) => true
    case Cancel(_) => true
    case ReadForEdit(id) => Is(s, id, Scheduled)
    case WriteBack(id) => s.edits[id] > 0
  }

  function After(s: State, a: Action): State
    requires a.Claim? ==> At(s, a.worker).Scanning? && At(s, a.worker).queue != []
    requires a.Finish? ==> At(s, a.worker).Working?
  {
    match a
    case Create(id) => s.(status := s.status[id := Scheduled])
    case Scan(worker, due) => s.(workers := s.workers[worker := Scanning(due)])
    case Claim(worker) =>
      var id, rest := At(s, worker).queue[0], At(s, worker).queue[1..];
      if Is(s, id, Scheduled) then
        s.(status := s.status[id := Processing], workers := s.workers[worker := Working(id, rest)], claims := s.claims + multiset{id})
      else s.(workers := s.workers[worker := Scanning(rest)])
    case Finish(worker, outcome, written) =>
      var Working(id, rest) := At(s, worker);
      s.(workers := s.workers[worker := Scanning(rest)],
         status := if written && id in s.status then s.status[id := outcome] else s.status)
    case Crash(worker) => s.(workers := s.workers[worker := Idle])
    case Cancel(id) =>
      if Is(s, id, Scheduled) then s.(status := s.status[id := Cancelled], cancels := s.cancels + multiset{id}) else s
    case ReadForEdit(id) => s.(edits := s.edits + multiset{id})
    case WriteBack(id) =>
      s.(edits := s.edits - multiset{id}, status := if id in s.status then s.status[id := Scheduled] else s.status)
  }

  /** The history a stored status stands for. */
  ghost predicate HistoryOk(s: State, id: int) {
    if id !in s.status || s.status[id] == Scheduled then s.claims[id] == 0 && s.cancels[id] == 0
    else if s.status[id] == Cancelled then s.claims[id] == 0 && s.cancels[id] == 1
    else s.claims[id] == 1 && s.cancels[id] == 0
  }

  ghost predicate Inv(s: State) {
    && (forall id :: HistoryOk(s, id))
    && (forall w :: At(s, w).Working? ==> Is(s, At(s, w).id, Processing))
    && (forall v, w :: At(s, v).Working? && At(s, w).Working? && At(s, v).id == At(s, w).id ==> v == w)
  }

  /** An edit is harmless while the reminder is still scheduled, or gone. */
  ghost predicate Guarded(s: State, a: Action) {
    a.WriteBack? && a.id in s.status ==> s.status[a.id] == Scheduled
  }

  lemma HistoryKept(s: State, a: Action, id: int)
    requires Inv(s) && CanAct(s, a) && Guarded(s, a)
    ensures HistoryOk(After(s, a), id)
  {
    assert HistoryOk(s, id);
    if a.Finish? { assert Is(s, At(s, a.worker).id, Processing); }
  }

  lemma WorkKept(s: State, a: Action, v: int)
    requires Inv(s) && CanAct(s, a) && Guarded(s, a) && At(After(s, a), v).Working?
    ensures Is(After(s, a), At(After(s, a), v).id, Processing)
  {
    hide HistoryOk;
    if At(s, v).Working? { assert Is(s, At(s, v).id, Processing); }
  }

  lemma WorkShared(s: State, a: Action, v: int, w: int)
    requires Inv(s) && CanAct(s, a) && At(After(s, a), v).Working? && At(After(s, a), w).Working?
    requires At(After(s, a), v).id == At(After(s, a), w).id
    ensures v == w
  {
    hide HistoryOk;
    if At(s, v).Working? { assert Is(s, At(s, v).id, Processing); }
    if At(s, w).Working? { assert Is(s, At(s, w).id, Processing); }
  }

  lemma ActionKeepsInvariant(s: State, a: Action)
    requires Inv(s) && CanAct(s, a) && Guarded(s, a)
    ensures Inv(After(s, a))
  {
    hide After, HistoryOk, Guarded, At;
    var after := After(s, a);
    forall id ensures HistoryOk(after, id) { HistoryKept(s, a, id); }
    forall v | At(after, v).Working? ensures Is(after, At(after, v).id, Processing) { WorkKept(s, a, v); }
    forall v, w | At(after, v).Working? && At(after, w).Working? && At(after, v).id == At(after, w).id ensures v == w {
      WorkShared(s, a, v, w);
    }
  }

  /** Sent, failed and cancelled are final. */
  lemma FinalStaysFinal(s: State, a: Action, id: int)
    requires Inv(s) && CanAct(s, a) && Guarded(s, a)
    requires id in s.status && IsFinal(s.status[id])
    ensures id in After(s, a).status && After(s, a).status[id] == s.status[id]
  {
  }

  // ---------- runs ----------

  ghost predicate IsRun(s: State, actions: seq<Action>)
    decreases |actions|
  {
    actions == [] || (CanAct(s, actions[0]) && IsRun(After(s, actions[0]), actions[1..]))
  }

  ghost predicate IsGuarded(s: State, actions: seq<Action>)
    requires IsRun(s, actions)
    decreases |actions|
  {
    actions == [] || (Guarded(s, actions[0]) && IsGuarded(After(s, actions[0]), actions[1..]))
  }

  ghost function EndOf(s: State, actions: seq<Action>): State
    requires IsRun(s, actions)
    decreases |actions|
  {
    if actions == [] then s else EndOf(After(s, actions[0]), actions[1..])
  }

  const START := State(map[], map[], multiset{}, multiset{}, multiset{})

  lemma {:induction false} RunKeepsInvariant(s: State, actions: seq<Action>)
    requires Inv(s) && IsRun(s, actions) && IsGuarded(s, actions)
    ensures Inv(EndOf(s, actions))
    ensures forall id :: id in s.status && IsFinal(s.status[id]) ==>
              id in EndOf(s, actions).status && EndOf(s, actions).status[id] == s.status[id]
    decreases |actions|
  {
    if actions != [] {
      ActionKeepsInvariant(s, actions[0]);
      forall id | id in s.status && IsFinal(s.status[id])
        ensures id in After(s, actions[0]).status && After(s, actions[0]).status[id] == s.status[id]
      {
        FinalStaysFinal(s, actions[0], id);
      }
      RunKeepsInvariant(After(s, actions[0]), actions[1..]);
    }
  }

  /** In every interleaving of workers, crashes, cancels and guarded edits, a reminder is claimed
      at most once, and never both claimed and cancelled. */
  lemma ClaimedAtMostOnce(actions: seq<Action>, id: int)
    requires IsRun(START, actions) && IsGuarded(START, actions)
    ensures EndOf(START, actions).claims[id] + EndOf(START, actions).cancels[id] <= 1
  {
    RunKeepsInvariant(START, actions);
    assert HistoryOk(EndOf(START, actions), id);
  }

  // ---------- edits written late ----------

  /** Whatever guarded actions follow, the reminder is claimed or cancelled at most once in all. */
  ghost predicate AtMostOnceFrom(s: State, id: int) {
    forall actions :: IsRun(s, actions) && IsGuarded(s, actions) ==>
      EndOf(s, actions).claims[id] + EndOf(s, actions).cancels[id] <= 1
  }

  /** An edit written after the reminder was claimed or cancelled lets it be cancelled on top. */
  lemma LateEditCountsTwice(s: State, id: int)
    requires Inv(s) && CanAct(s, WriteBack(id)) && !Guarded(s, WriteBack(id))
    ensures var edited := After(s, WriteBack(id));
            CanAct(edited, Cancel(id)) && After(edited, Cancel(id)).claims[id] + After(edited, Cancel(id)).cancels[id] == 2
  {
    assert HistoryOk(s, id);
  }

  lemma NoAction(s: State)
    ensures IsRun(s, []) && IsGuarded(s, []) && EndOf(s, []) == s
  {
  }

  lemma OneAction(s: State, actions: seq<Action>)
    requires actions != [] && CanAct(s, actions[0]) && IsRun(After(s, actions[0]), actions[1..])
    ensures IsRun(s, actions) && EndOf(s, actions) == EndOf(After(s, actions[0]), actions[1..])
  {
  }

  /** handleUpdate checks the status when it reads but not when it writes.  A pending write leaves
      the reminder claimed or cancelled at most once, come what may, exactly when the reminder is
      still scheduled, or no longer stored. */
  lemma WriteBackExactly(s: State, id: int)
    requires Inv(s) && CanAct(s, WriteBack(id))
    ensures AtMostOnceFrom(After(s, WriteBack(id)), id) <==> Guarded(s, WriteBack(id))
  {
    var edited := After(s, WriteBack(id));
    if Guarded(s, WriteBack(id)) {
      ActionKeepsInvariant(s, WriteBack(id));
      forall actions | IsRun(edited, actions) && IsGuarded(edited, actions)
        ensures EndOf(edited, actions).claims[id] + EndOf(edited, actions).cancels[id] <= 1
      {
        RunKeepsInvariant(edited, actions);
        assert HistoryOk(EndOf(edited, actions), id);
      }
    } else {
      LateEditCountsTwice(s, id);
      var cancelled := After(edited, Cancel(id));
      NoAction(cancelled);
      OneAction(edited, [Cancel(id)]);
      assert [Cancel(id)][1..] == [] && IsGuarded(edited, [Cancel(id)]);
    }
  }

  /** The handler reads a reminder while it is scheduled and writes it after it was sent: a second
      worker claims it again. */
  const EDITED_LATE :=
    [Create(7), Scan(1, [7]), ReadForEdit(7), Claim(1), Finish(1, Sent, true), WriteBack(7), Scan(2, [7]), Claim(2)]

  const CREATED := State(map[7 := Scheduled], map[], multiset{}, multiset{}, multiset{})
  const SCANNED := CREATED.(workers := map[1 := Scanning([7])])
  const READ := SCANNED.(edits := multiset{7})
  const CLAIMED := State(map[7 := Processing], map[1 := Working(7, [])], multiset{7}, multiset{7}, multiset{})
  const SENT := State(map[7 := Sent], map[1 := Scanning([])], multiset{7}, multiset{7}, multiset{})
  const EDITED := State(map[7 := Scheduled], map[1 := Scanning([])], multiset{}, multiset{7}, multiset{})
  const RESCANNED := EDITED.(workers := map[1 := Scanning([]), 2 := Scanning([7])])

  /** From s, the last actions of the run claim reminder 7 twice in all. */
  ghost predicate EndsTwice(s: State, done: nat)
    requires done <= |EDITED_LATE|
  {
    IsRun(s, EDITED_LATE[done..]) && EndOf(s, EDITED_LATE[done..]).claims[7] == 2
  }

  lemma OneEarlier(s: State, done: nat)
    requires done < |EDITED_LATE| && CanAct(s, EDITED_LATE[done]) && EndsTwice(After(s, EDITED_LATE[done]), done + 1)
    ensures EndsTwice(s, done)
  {
  }

  lemma SecondClaim()
    ensures EndsTwice(RESCANNED, 7)
  {
  }

  lemma FromEdit()
    ensures EndsTwice(SENT, 5)
  {
    hide EndsTwice;
    SecondClaim();
    assert After(EDITED, Scan(2, [7])) == RESCANNED;
    OneEarlier(EDITED, 6);
    assert After(SENT, WriteBack(7)) == EDITED by { assert multiset{7} - multiset{7} == multiset{}; }
    OneEarlier(SENT, 5);
  }

  lemma FromRead()
    ensures EndsTwice(READ, 3)
  {
    hide EndsTwice;
    FromEdit();
    assert After(CLAIMED, Finish(1, Sent, true)) == SENT;
    OneEarlier(CLAIMED, 4);
    assert At(READ, 1) == Scanning([7]) && [7][1..] == [] && multiset{} + multiset{7} == multiset{7};
    assert After(READ, Claim(1)) == CLAIMED;
    OneEarlier(READ, 3);
  }

  lemma UnguardedEditClaimsTwice()
    ensures IsRun(START, EDITED_LATE) && EndOf(START, EDITED_LATE).claims[7] == 2
  {
    FromRead();
    assert EDITED_LATE[0..] == EDITED_LATE;
    assert EndsTwice(START, 0) by {
      hide EndsTwice;
      assert After(SCANNED, ReadForEdit(7)) == READ by { assert multiset{} + multiset{7} == multiset{7}; }
      OneEarlier(SCANNED, 2);
      assert After(CREATED, Scan(1, [7])) == SCANNED;
      OneEarlier(CREATED, 1);
      assert After(START, Create(7)) == CREATED;
      OneEarlier(START, 0);
    }
  }
}
