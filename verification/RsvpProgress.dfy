/**
 Every request that enters a critical section leaves it after a bounded number of its own steps,
 whatever the other threads do.  Source: internal/rsvp/service.go.
 */
module RsvpProgress {
  import opened AttendeeTable
  import opened Waitlist
  import opened RsvpRules
  import opened RsvpEffects
  import opened RsvpInterleaving

  /** Rounds the promotion loop of event e may still make. */
  ghost function Rounds(w: World, s: State, e: int): int {
    if Limited(w, e) then WaitlistLength(s.rows, e) else 0
  }

  lemma RoundsAreNat(w: World, s: State, e: int)
    ensures Rounds(w, s, e) >= 0
  {
    WaitlistLengthIsNat(s.rows, e);
  }

  /** A row under this id waits at e. */
  ghost predicate StillWaits(rows: Rows, id: int, e: int) {
    exists r :: r in rows && r.id == id && Waits(r, e)
  }

  /** How many steps of its own a thread may still take before it is outside. */
  ghost function Budget(w: World, s: State, th: Thread): int {
    match th
    case Idle => 0
    case Promoting(_, _) => 0
    case Importing(_, _) => 0
    case Waiting(_) => 0
    case Entered(r) => 3 * Rounds(w, s, r.e) + 10
    case Seeking(r) => 3 * Rounds(w, s, r.e) + 9
    case HasRow(r, _) => 3 * Rounds(w, s, r.e) + 8
    case HasHeads(r, _, _) => 3 * Rounds(w, s, r.e) + 7
    case LoopStart(e) => 3 * Rounds(w, s, e) + 3
    case LoopHeads(e, _) => 3 * Rounds(w, s, e) + 2
    case LoopRow(e, _, first) =>
      // the promotion to come is no round if somebody has promoted that guest by hand meanwhile
      3 * (Rounds(w, s, e) - if Limited(w, e) && StillWaits(s.rows, first.id, e) then 1 else 0) + 4
    case Leaving(_) => 1
  }

  // ---------- writes ----------

  lemma StoreAddsOneWaiter(rows: Rows, row: Attendee, e: int)
    requires UniqueIds(rows)
    ensures WaitlistLength(UpdateRows(rows, row), e) <= WaitlistLength(rows, e) + 1
  {
    if HasId(rows, row.id) {
      var i :| 0 <= i < |rows| && rows[i].id == row.id;
      UpdateIsPointwise(rows, i, row);
      SumUpdate(rows, i, Merge(rows[i], row), WaitsAt(e));
    } else {
      UpdateMisses(rows, row);
    }
  }

  lemma DeleteAddsNoWaiter(rows: Rows, id: int, e: int)
    requires UniqueIds(rows)
    ensures WaitlistLength(DeleteRows(rows, id), e) <= WaitlistLength(rows, e)
  {
  }

  /** A request's write adds one guest to a waitlist at most. */
  lemma WriteAddsOneWaiter(w: World, s: State, th: Thread)
    requires UniqueIds(s.rows) && th.HasHeads? && ThreadTyped(w, th)
    ensures WaitlistLength(WriteRows(w, s, th.r, th.found, th.heads), th.r.e) <= WaitlistLength(s.rows, th.r.e) + 1
  {
    var HasHeads(r, found, heads) := th;
    if r.Removing? {
      DeleteAddsNoWaiter(s.rows, r.id, r.e);
    } else {
      var d := Decide(w, s, r, found, heads);
      match d
      case Refuse(_) =>
      case Store(updated) => StoreAddsOneWaiter(s.rows, updated, r.e);
      case Insert(added) => SumAppend(s.rows, added, WaitsAt(r.e));
    }
  }

  lemma PromotionShortens(rows: Rows, row: Attendee, e: int)
    requires UniqueIds(rows)
    ensures WaitlistLength(Promote(rows, row), e) == WaitlistLength(rows, e) - if StillWaits(rows, row.id, e) then 1 else 0
    ensures forall id :: StillWaits(Promote(rows, row), id, e) <==> StillWaits(rows, id, e) && id != row.id
  {
    var promoted := row.(status := Attending);
    if HasId(rows, row.id) {
      var i :| 0 <= i < |rows| && rows[i].id == row.id;
      UpdateIsPointwise(rows, i, promoted);
      SumUpdate(rows, i, Merge(rows[i], promoted), WaitsAt(e));
      assert StillWaits(rows, row.id, e) <==> Waits(rows[i], e) by {
        if StillWaits(rows, row.id, e) { var r :| r in rows && r.id == row.id && Waits(r, e); assert r == rows[i]; }
      }
      WaitersAfter(rows, i, promoted, e);
    } else {
      UpdateMisses(rows, promoted);
    }
  }

  lemma WaitersAfter(rows: Rows, i: nat, promoted: Attendee, e: int)
    requires UniqueIds(rows) && i < |rows| && rows[i].id == promoted.id && promoted.status == Attending
    ensures var after := rows[i := Merge(rows[i], promoted)];
            forall id :: StillWaits(after, id, e) <==> StillWaits(rows, id, e) && id != promoted.id
  {
    var after := rows[i := Merge(rows[i], promoted)];
    forall id ensures StillWaits(after, id, e) <==> StillWaits(rows, id, e) && id != promoted.id {
      if StillWaits(after, id, e) {
        var r :| r in after && r.id == id && Waits(r, e);
        var k :| 0 <= k < |after| && after[k] == r;
        assert k != i && rows[k] == r;
      }
      if StillWaits(rows, id, e) && id != promoted.id {
        var r :| r in rows && r.id == id && Waits(r, e);
        var k :| 0 <= k < |rows| && rows[k] == r;
        assert k != i && after[k] == r;
      }
    }
  }

  lemma BudgetIsNat(w: World, s: State, th: Thread)
    ensures 0 <= Budget(w, s, th)
    ensures Inside(th) ==> 0 < Budget(w, s, th)
  {
    if !th.Idle? { RoundsAreNat(w, s, EventOf(th)); }
    if th.LoopRow? && Limited(w, th.at) && StillWaits(s.rows, th.first.id, th.at) {
      var r :| r in s.rows && r.id == th.first.id && Waits(r, th.at);
      SumBounds(s.rows, WaitsAt(th.at));
      var i :| 0 <= i < |s.rows| && s.rows[i] == r;
    }
  }

  // ---------- steps ----------

  /** A thread's own step inside a critical section spends from its budget... */
  lemma OwnStepSpends(w: World, s: State, t: int, c: Choice)
    requires Inv(w, s) && Inside(At(s, t)) && CanStep(w, s, t, c)
    ensures ThreadTyped(w, At(s, t))
    ensures var after := Step(w, s, t, c); Budget(w, after, At(after, t)) < Budget(w, s, At(s, t))
    ensures At(Step(w, s, t, c), t).Idle? || Inside(At(Step(w, s, t, c), t))
  {
    hide WriteRows, Decide, Promote, FirstWaitlisted, Headcount, WaitlistLength, LocksOk, Finds, StillWaits;
    var th := At(s, t);
    assert MemoryOk(w, s, th);
    RoundsAreNat(w, s, EventOf(th));
    match th
    case HasHeads(r, found, heads) => WriteAddsOneWaiter(w, s, th);
    case LoopHeads(e, _) =>
      FirstWaitlistedIsFirst(s.rows, e);
      if FirstWaitlisted(s.rows, e).Some? { FirstStillWaits(s.rows, e); }
    case LoopRow(e, _, first) => PromotionShortens(s.rows, first, e);
    case _ =>
  }

  lemma FirstStillWaits(rows: Rows, e: int)
    requires UniqueIds(rows) && FirstWaitlisted(rows, e).Some?
    ensures StillWaits(rows, FirstWaitlisted(rows, e).value.id, e)
  {
    FirstWaitlistedIsFirst(rows, e);
  }

  /** ...and no other thread's step adds to it. */
  lemma OtherStepAddsNothing(w: World, s: State, t: int, c: Choice, u: int)
    requires Inv(w, s) && CanStep(w, s, t, c) && u != t && Inside(At(s, u))
    ensures ThreadTyped(w, At(s, t))
    ensures var after := Step(w, s, t, c); At(after, u) == At(s, u) && Budget(w, after, At(s, u)) <= Budget(w, s, At(s, u))
  {
    hide Step, CanStep, ThreadTyped, MemoryOk, LocksOk, At, WaitlistLength, StillWaits, OnlyEvent;
    var th, e := At(s, t), EventOf(At(s, u));
    assert MemoryOk(w, s, th) && MemoryOk(w, s, At(s, u));
    var touched := StepWrites(w, s, t, c);
    OthersStay(w, s, t, c, u);
    if touched != e {
      ElsewhereKeepsWaiters(s.rows, Step(w, s, t, c).rows, touched, e, s.nextId);
    } else if Limited(w, e) && Writes(th) {
      if Inside(th) {
        MutualExclusion(w, s, t, u);
      } else if th.Promoting? {
        PromotingStep(w, s, t, c);
        PromotionShortens(s.rows, th.row, e);
      } else {
        ImportStep(w, s, t, c);
        PendingRowKeepsWaiters(s.rows, th.todo[0].(id := s.nextId), e);
      }
    }
  }

  lemma PromotingStep(w: World, s: State, t: int, c: Choice)
    requires At(s, t).Promoting? && ThreadTyped(w, At(s, t)) && CanStep(w, s, t, c)
    ensures Step(w, s, t, c).rows == Promote(s.rows, At(s, t).row)
  {
  }

  lemma ElsewhereKeepsWaiters(rows: Rows, after: Rows, touched: int, e: int, nextId: int)
    requires OnlyEvent(rows, after, touched, nextId) && touched != e
    ensures WaitlistLength(after, e) == WaitlistLength(rows, e)
    ensures forall id :: StillWaits(after, id, e) <==> StillWaits(rows, id, e)
  {
    forall id ensures StillWaits(after, id, e) <==> StillWaits(rows, id, e) {
      if StillWaits(rows, id, e) { var r :| r in rows && r.id == id && Waits(r, e); assert r in after; }
      if StillWaits(after, id, e) { var r :| r in after && r.id == id && Waits(r, e); assert r in rows; }
    }
  }

  lemma PendingRowKeepsWaiters(rows: Rows, row: Attendee, e: int)
    requires row.status == Pending
    ensures WaitlistLength(rows + [row], e) == WaitlistLength(rows, e)
    ensures forall id :: StillWaits(rows + [row], id, e) <==> StillWaits(rows, id, e)
  {
    SumAppend(rows, row, WaitsAt(e));
    forall id ensures StillWaits(rows + [row], id, e) <==> StillWaits(rows, id, e) {
      if StillWaits(rows, id, e) { var r :| r in rows && r.id == id && Waits(r, e); assert r in rows + [row]; }
    }
  }

  // ---------- runs ----------

  function OwnTurns(turns: seq<Turn>, t: int): nat {
    if turns == [] then 0 else (if turns[0].thread == t then 1 else 0) + OwnTurns(turns[1..], t)
  }

  /** Somewhere along the run thread t is outside. */
  ghost predicate Leaves(w: World, s: State, turns: seq<Turn>, t: int)
    requires IsRun(w, s, turns)
    decreases |turns|
  {
    !Inside(At(s, t)) || (turns != [] && Leaves(w, Step(w, s, turns[0].thread, turns[0].choice), turns[1..], t))
  }

  /** In every interleaving, a thread that starts inside a critical section and takes as many steps
      as its budget has left it. */
  lemma {:induction false} InsideIsBounded(w: World, s: State, turns: seq<Turn>, t: int)
    requires Inv(w, s) && IsRun(w, s, turns) && OwnTurns(turns, t) >= Budget(w, s, At(s, t))
    ensures Leaves(w, s, turns, t)
    decreases |turns|
  {
    BudgetIsNat(w, s, At(s, t));
    if Inside(At(s, t)) {
      hide Inv, Budget, ThreadTyped, CanStep, Step, Inside, At;
      var u, c := turns[0].thread, turns[0].choice;
      StepKeepsInvariant(w, s, u, c);
      if u == t { OwnStepSpends(w, s, t, c); } else { OtherStepAddsNothing(w, s, u, c, t); }
      InsideIsBounded(w, Step(w, s, u, c), turns[1..], t);
    }
  }
}
