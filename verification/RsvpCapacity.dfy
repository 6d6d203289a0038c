/**
 The capacity bound in interleavings of RSVP requests, event by event.
 Source: internal/rsvp/service.go.
 */
module RsvpCapacity {
  import opened Wrappers
  import opened AttendeeTable
  import opened Waitlist
  import opened RsvpRules
  import opened RsvpEffects
  import opened RsvpInterleaving

  /** Thread t is about to write seats that do not fit, and no check noticed. */
  ghost predicate Overruns(w: World, s: State, t: int) {
    var th := At(s, t);
    th.HasHeads? && Quiet(w, th.r.e) && WriteOverruns(w.events[th.r.e], s.rows, th, s.nextId)
  }

  /** The exact guard of each request's write, on the rows stored when it writes. */
  ghost predicate WriteOverruns(ev: Event, rows: Rows, th: Thread, nextId: int)
    requires th.HasHeads?
  {
    var HasHeads(r, row, heads) := th;
    match r
    case Submitting(_, req, newToken, now) =>
      RequestAcceptable(req)
      && var d := SubmitDecision(ev, req, row, heads, nextId, newToken, now);
         row.Some? && d.Store? && d.row.status != Attending && LeavingCosts(rows, ev, row.value)
    case Updating(_, read, update, _) =>
      var stored := RowById(rows, read.id);
      stored.Some? && TokenOversells(rows, ev, read, stored.value, update)
    case Removing(_, _) => row.Some? && row.value.eventId == ev.id && LeavingCosts(rows, ev, row.value)
    case Organizing(_, _, edit) => row.Some? && OrganizerOversells(rows, ev, row.value, edit)
  }

  // ---------- one step ----------

  lemma SubmitBound(w: World, s: State, th: Thread)
    requires TableOk(s) && MemoryOk(w, s, th) && th.HasHeads? && th.r.Submitting? && Quiet(w, th.r.e)
    ensures WithinCapacity(s.rows, Written(w, s, th).rows, w.events[th.r.e]) <==> !WriteOverruns(w.events[th.r.e], s.rows, th, s.nextId)
  {
    assert !HasId(s.rows, s.nextId);
    SubmitWithinCapacity(s.rows, w.events[th.r.e], th.r.req, th.found, s.nextId, th.r.newToken, th.r.now);
  }

  lemma UpdateBound(w: World, s: State, th: Thread)
    requires TableOk(s) && MemoryOk(w, s, th) && th.HasHeads? && th.r.Updating? && Quiet(w, th.r.e)
    ensures WithinCapacity(s.rows, Written(w, s, th).rows, w.events[th.r.e]) <==> !WriteOverruns(w.events[th.r.e], s.rows, th, s.nextId)
  {
    var stored := RowById(s.rows, th.r.row.id);
    if stored.Some? {
      TokenStoreWithinCapacity(s.rows, w.events[th.r.e], th.r.row, stored.value, th.r.update);
    } else {
      var d := Decide(w, s, th.r, th.found, th.heads);
      if d.Store? { UpdateMisses(s.rows, d.row); }
    }
  }

  lemma OrganizeBound(w: World, s: State, th: Thread)
    requires TableOk(s) && MemoryOk(w, s, th) && th.HasHeads? && th.r.Organizing? && Quiet(w, th.r.e)
    ensures WithinCapacity(s.rows, Written(w, s, th).rows, w.events[th.r.e]) <==> !WriteOverruns(w.events[th.r.e], s.rows, th, s.nextId)
  {
    if th.found.Some? && th.found.value.eventId == th.r.e {
      OrganizerStoreWithinCapacity(s.rows, w.events[th.r.e], th.found.value, th.r.edit);
    }
  }

  lemma RemoveBound(w: World, s: State, th: Thread)
    requires TableOk(s) && MemoryOk(w, s, th) && th.HasHeads? && th.r.Removing? && Quiet(w, th.r.e)
    ensures WithinCapacity(s.rows, Written(w, s, th).rows, w.events[th.r.e]) <==> !WriteOverruns(w.events[th.r.e], s.rows, th, s.nextId)
  {
    if th.found.Some? && th.found.value.eventId == th.r.e {
      DeleteWithinCapacity(s.rows, w.events[th.r.e], th.found.value);
    }
  }

  lemma PromotionBound(w: World, s: State, th: Thread)
    requires TableOk(s) && MemoryOk(w, s, th) && th.LoopRow? && Quiet(w, th.at)
    ensures WithinCapacity(s.rows, Promote(s.rows, th.first), w.events[th.at])
  {
    ManualPromotionWithinCapacity(s.rows, w.events[th.at], th.first);
  }

  /** At every step, whatever the other threads do, the headcount of a limited event at which nobody is
      promoted by hand passes the larger of itself and the capacity exactly when the step is an
      overrunning write there. */
  lemma StepWithinCapacity(w: World, s: State, t: int, c: Choice, e: int)
    requires Inv(w, s) && CanStep(w, s, t, c) && Quiet(w, e)
    ensures ThreadTyped(w, At(s, t))
    ensures Headcount(Step(w, s, t, c).rows, e) <= Larger(Headcount(s.rows, e), w.events[e].maxCapacity.value)
            <==> !(Overruns(w, s, t) && EventOf(At(s, t)) == e)
  {
    hide Headcount, WriteOverruns, TableOk, LocksOk, CanStep, MemoryOk, WriteRows, Promote, AfterWrite;
    var th := At(s, t);
    assert MemoryOk(w, s, th);
    var touched := StepWrites(w, s, t, c);
    if th.HasHeads? && th.r.e == e {
      StepIsWritten(w, s, t, c);
      match th.r {
        case Submitting(_, _, _, _) => SubmitBound(w, s, th);
        case Updating(_, _, _, _) => UpdateBound(w, s, th);
        case Removing(_, _) => RemoveBound(w, s, th);
        case Organizing(_, _, _) => OrganizeBound(w, s, th);
      }
      BoundOfWrite(w, s, th);
    } else if th.LoopRow? && th.at == e {
      PromotionBound(w, s, th);
    } else if th.Promoting? && th.at == e {
      PromotesByHand(w, s, th);
    } else if th.Importing? && th.at == e && th.todo != [] {
      ImportStep(w, s, t, c);
      PendingRowTakesNoSeat(s.rows, th.todo[0].(id := s.nextId), e);
    }
  }

  lemma PendingRowTakesNoSeat(rows: Rows, row: Attendee, e: int)
    requires row.status == Pending
    ensures Headcount(rows + [row], e) == Headcount(rows, e)
  {
    SumAppend(rows, row, Seats(e));
  }

  lemma StepIsWritten(w: World, s: State, t: int, c: Choice)
    requires At(s, t).HasHeads? && ThreadTyped(w, At(s, t)) && CanStep(w, s, t, c)
    ensures Step(w, s, t, c).rows == Written(w, s, At(s, t)).rows
  {
  }

  lemma BoundOfWrite(w: World, s: State, th: Thread)
    requires TableOk(s) && MemoryOk(w, s, th) && th.HasHeads? && Quiet(w, th.r.e)
    ensures WithinCapacity(s.rows, Written(w, s, th).rows, w.events[th.r.e])
            <==> Headcount(Written(w, s, th).rows, th.r.e) <= Larger(Headcount(s.rows, th.r.e), w.events[th.r.e].maxCapacity.value)
  {
    hide Headcount, WriteRows, TableOk, MemoryOk;
    if th.r.Removing? { RemoveWrite(w, s, th); } else { DecisionWrite(w, s, th); }
  }

  // ---------- whole interleavings ----------

  /** No write at event e overruns; nothing is asked of the steps at other events. */
  ghost predicate NeverOverruns(w: World, s: State, turns: seq<Turn>, e: int)
    requires IsRun(w, s, turns)
    decreases |turns|
  {
    turns == [] ||
    (!(Overruns(w, s, turns[0].thread) && EventOf(At(s, turns[0].thread)) == e)
     && NeverOverruns(w, Step(w, s, turns[0].thread, turns[0].choice), turns[1..], e))
  }

  /** In every interleaving over many events, an event at which no write overruns and nobody is promoted
      by hand does not end above the larger of its first headcount and its capacity. */
  lemma {:induction false} InterleavingsRespectCapacity(w: World, s: State, turns: seq<Turn>, e: int)
    requires Inv(w, s) && IsRun(w, s, turns) && Quiet(w, e) && NeverOverruns(w, s, turns, e)
    ensures Headcount(EndOf(w, s, turns).rows, e) <= Larger(Headcount(s.rows, e), w.events[e].maxCapacity.value)
    decreases |turns|
  {
    if turns != [] {
      hide Inv, Quiet, Headcount, ThreadTyped, CanStep, Step, Overruns;
      var t, c := turns[0].thread, turns[0].choice;
      StepKeepsInvariant(w, s, t, c);
      StepWithinCapacity(w, s, t, c, e);
      InterleavingsRespectCapacity(w, Step(w, s, t, c), turns[1..], e);
    }
  }

  // ---------- rows that are still the stored ones ----------

  /** The parties of e are not negative, and every UpdateByToken inside e's critical section that
      has not written yet works on the stored row. */
  ghost predicate Orderly(s: State, e: int) {
    && Sound(s.rows, e)
    && forall t :: OrderlyThread(s.rows, At(s, t), e)
  }

  ghost predicate OrderlyThread(rows: Rows, th: Thread, e: int) {
    (th.Entered? || th.Seeking? || th.HasRow? || th.HasHeads?) && th.r.Updating? && th.r.e == e ==> th.r.row in rows
  }

  /** At event e, UpdateByToken takes the lock while the row it read is still stored, no organizer
      raises an attending party, and nobody imports a negative party. */
  ghost predicate Disciplined(s: State, t: int, e: int) {
    match At(s, t)
    case Waiting(r) => r.Updating? && r.e == e ==> r.row in s.rows
    case Importing(at, todo) => at == e && todo != [] ==> todo[0].plusOnes >= 0
    case HasHeads(r, row, _) => r.Organizing? && r.e == e && row.Some? ==> !RaisesAttendingParty(row.value, r.edit)
    case _ => true
  }

  lemma OrderlyNeverOverruns(w: World, s: State, t: int, e: int)
    requires Inv(w, s) && Orderly(s, e) && Disciplined(s, t, e) && Quiet(w, e)
    ensures !(Overruns(w, s, t) && EventOf(At(s, t)) == e)
  {
  }

  lemma SoundElsewhere(rows: Rows, after: Rows, touched: int, e: int, nextId: int)
    requires Sound(rows, e) && UniqueIds(after) && OnlyEvent(rows, after, touched, nextId) && touched != e
    ensures Sound(after, e)
  {
  }

  lemma WriteKeepsSound(w: World, s: State, th: Thread, e: int)
    requires TableOk(s) && MemoryOk(w, s, th) && th.HasHeads? && th.r.e == e && Quiet(w, e)
    requires Sound(s.rows, e) && OrderlyThread(s.rows, th, e)
    ensures Sound(Written(w, s, th).rows, e)
  {
    var HasHeads(r, row, heads) := th;
    var ev := w.events[e];
    match r
    case Submitting(_, req, newToken, now) =>
      assert !HasId(s.rows, s.nextId);
      SubmitKeepsSound(s.rows, ev, req, row, s.nextId, newToken, now, e);
    case Updating(_, read, update, _) => TokenKeepsSound(s.rows, ev, read, update, e);
    case Removing(_, _) => if row.Some? && row.value.eventId == e { DeleteKeepsSound(s.rows, row.value, e); }
    case Organizing(_, _, edit) => if row.Some? && row.value.eventId == e { OrganizerKeepsSound(s.rows, ev, row.value, edit, e); }
  }

  lemma StepKeepsSound(w: World, s: State, t: int, c: Choice, e: int)
    requires Inv(w, s) && Orderly(s, e) && Disciplined(s, t, e) && CanStep(w, s, t, c) && Quiet(w, e)
    ensures ThreadTyped(w, At(s, t)) && Sound(Step(w, s, t, c).rows, e)
  {
    hide Sound, CanStep, MemoryOk, WriteRows, Promote, AfterWrite, LocksOk, OnlyEvent;
    var th := At(s, t);
    assert MemoryOk(w, s, th);
    var touched := StepWrites(w, s, t, c);
    if th.HasHeads? && th.r.e == e {
      StepIsWritten(w, s, t, c);
      WriteKeepsSound(w, s, th, e);
    } else if th.LoopRow? && th.at == e {
      LoopRowIsStored(w, s, th);
      ManualPromotionKeepsSound(s.rows, th.first, e);
    } else if th.Promoting? && th.at == e {
      PromotesByHand(w, s, th);
    } else if th.Importing? && th.at == e && th.todo != [] {
      ImportStep(w, s, t, c);
      ImportedRowKeepsSound(s, th.todo[0].(id := s.nextId), e);
    } else if Writes(th) {
      SoundElsewhere(s.rows, Step(w, s, t, c).rows, touched, e, s.nextId);
    }
  }

  lemma ImportedRowKeepsSound(s: State, row: Attendee, e: int)
    requires TableOk(s) && Sound(s.rows, e) && row.id == s.nextId && row.plusOnes >= 0
    ensures Sound(s.rows + [row], e)
  {
    assert forall i :: 0 <= i < |s.rows| ==> s.rows[i] in s.rows;
  }

  lemma LoopRowIsStored(w: World, s: State, th: Thread)
    requires MemoryOk(w, s, th) && th.LoopRow? && Quiet(w, th.at)
    ensures th.first in s.rows
  {
  }

  /** A row read before the lock and still stored when it is taken stays stored until the write. */
  lemma StepKeepsRow(w: World, s: State, t: int, c: Choice, u: int, e: int)
    requires Inv(w, s) && Orderly(s, e) && Disciplined(s, t, e) && CanStep(w, s, t, c) && Quiet(w, e)
    ensures ThreadTyped(w, At(s, t)) && OrderlyThread(Step(w, s, t, c).rows, At(Step(w, s, t, c), u), e)
  {
    hide CanStep, WriteRows, Promote, AfterWrite, TableOk, Headcount, Sound;
    var th, other := At(s, t), At(s, u);
    assert MemoryOk(w, s, th) && MemoryOk(w, s, other) && OrderlyThread(s.rows, other, e);
    var touched := StepWrites(w, s, t, c);
    if u == t {
      OwnRowStays(w, s, t, c, e);
    } else {
      OthersStay(w, s, t, c, u);
      if Writes(th) && Inside(other) && EventOf(other) == e == touched {
        if Inside(th) {
          MutualExclusion(w, s, t, u);
        } else if th.Promoting? {
          PromotesByHand(w, s, th);
        } else {
          ImportStep(w, s, t, c);
        }
      }
    }
  }

  lemma OwnRowStays(w: World, s: State, t: int, c: Choice, e: int)
    requires ThreadTyped(w, At(s, t)) && MemoryOk(w, s, At(s, t)) && CanStep(w, s, t, c)
    requires Disciplined(s, t, e) && OrderlyThread(s.rows, At(s, t), e)
    ensures OrderlyThread(Step(w, s, t, c).rows, At(Step(w, s, t, c), t), e)
  {
  }

  ghost predicate IsDisciplined(w: World, s: State, turns: seq<Turn>, e: int)
    requires IsRun(w, s, turns)
    decreases |turns|
  {
    turns == [] ||
    (Disciplined(s, turns[0].thread, e) && IsDisciplined(w, Step(w, s, turns[0].thread, turns[0].choice), turns[1..], e))
  }

  /** An event without negative parties keeps its bound over every interleaving in which, at this
      event, UpdateByToken's row is still the stored one when the lock is taken, no organizer raises an
      attending party or promotes by hand, and nobody imports a negative party. */
  lemma {:induction false} DisciplinedEventWithinCapacity(w: World, s: State, turns: seq<Turn>, e: int)
    requires Inv(w, s) && IsRun(w, s, turns) && Quiet(w, e) && Orderly(s, e) && IsDisciplined(w, s, turns, e)
    ensures NeverOverruns(w, s, turns, e) && Orderly(EndOf(w, s, turns), e)
    ensures Headcount(EndOf(w, s, turns).rows, e) <= Larger(Headcount(s.rows, e), w.events[e].maxCapacity.value)
    decreases |turns|
  {
    if turns != [] {
      hide Inv, Quiet, Headcount, ThreadTyped, CanStep, Step, Overruns, Sound, Disciplined, OrderlyThread;
      var t, c := turns[0].thread, turns[0].choice;
      StepKeepsInvariant(w, s, t, c);
      OrderlyNeverOverruns(w, s, t, e);
      StepKeepsSound(w, s, t, c, e);
      forall u ensures OrderlyThread(Step(w, s, t, c).rows, At(Step(w, s, t, c), u), e) {
        StepKeepsRow(w, s, t, c, u, e);
      }
      DisciplinedEventWithinCapacity(w, Step(w, s, t, c), turns[1..], e);
    }
    InterleavingsRespectCapacity(w, s, turns, e);
  }
}
