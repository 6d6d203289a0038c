/**
 Draining the waitlist: promoteFromWaitlist and promoteWaitlistLoop of
 internal/rsvp/service.go, and what they do to GetWaitlistPosition.
 */
module Waitlist {
  import opened Wrappers
  import opened AttendeeTable

  // ---------- one promotion ----------

  /** The guest promoteFromWaitlist promotes, if any. */
  ghost function NextPromoted(rows: Rows, e: int, cap: int): Option<Attendee> {
    if Headcount(rows, e) >= cap then None
    else
      var first := FirstWaitlisted(rows, e);
      if first.Some? && Headcount(rows, e) + 1 + first.value.plusOnes <= cap then first else None
  }

  function Promote(rows: Rows, guest: Attendee): Rows {
    UpdateRows(rows, guest.(status := Attending))
  }

  /** Where the promoted guest sits, and what the promotion writes there. */
  lemma PromoteAt(rows: Rows, e: int) returns (i: nat)
    requires UniqueIds(rows) && FirstWaitlisted(rows, e).Some?
    ensures i < |rows| && rows[i] == FirstWaitlisted(rows, e).value && Waits(rows[i], e)
    ensures Promote(rows, rows[i]) == rows[i := rows[i].(status := Attending)]
    ensures UniqueIds(Promote(rows, rows[i]))
    ensures forall j :: 0 <= j < |rows| && j != i && Waits(rows[j], e) ==> Before(rows[i], rows[j])
  {
    FirstWaitlistedIsFirst(rows, e);
    var f := FirstWaitlisted(rows, e).value;
    i :| 0 <= i < |rows| && rows[i] == f;
    UpdateIsPointwise(rows, i, f.(status := Attending));
  }

  lemma PromotionShrinksWaitlist(rows: Rows, e: int)
    requires UniqueIds(rows) && FirstWaitlisted(rows, e).Some?
    ensures var after := Promote(rows, FirstWaitlisted(rows, e).value);
            UniqueIds(after) && WaitlistLength(after, e) == WaitlistLength(rows, e) - 1
  {
    var i := PromoteAt(rows, e);
    SumUpdate(rows, i, rows[i].(status := Attending), WaitsAt(e));
  }

  // ---------- the loop ----------

  /** The rows when promoteWaitlistLoop stops. */
  ghost function Drained(rows: Rows, e: int, cap: int): (after: Rows)
    requires UniqueIds(rows)
    ensures UniqueIds(after) && |after| == |rows|
    decreases WaitlistLength(rows, e)
  {
    var next := NextPromoted(rows, e, cap);
    if next.None? then rows
    else
      PromotionShrinksWaitlist(rows, e);
      WaitlistLengthIsNat(rows, e);
      WaitlistLengthIsNat(Promote(rows, next.value), e);
      Drained(Promote(rows, next.value), e, cap)
  }

  /** A waitlisted row becomes attending exactly when everyone up to and including it fits. */
  ghost function Served(rows: Rows, e: int, cap: int, r: Attendee): Attendee {
    if Waits(r, e) && Headcount(rows, e) + Demand(rows, e, r) <= cap then r.(status := Attending) else r
  }

  ghost predicate GreedyPrefix(rows: Rows, e: int, cap: int, after: Rows) {
    && |after| == |rows|
    && forall i :: 0 <= i < |rows| ==> after[i] == Served(rows, e, cap, rows[i])
  }

  lemma DemandIsAtLeastFirst(rows: Rows, e: int, r: Attendee)
    requires UniqueIds(rows) && NoNegativeParty(rows, e) && r in rows && Waits(r, e)
    ensures FirstWaitlisted(rows, e).Some? && Demand(rows, e, r) >= 1 + FirstWaitlisted(rows, e).value.plusOnes >= 1
  {
    FirstWaitlistedIsFirst(rows, e);
    var i := PromoteAt(rows, e);
    var k :| 0 <= k < |rows| && rows[k] == r;
    SumBounds(rows, PartyUpTo(e, r));
    assert PartyUpTo(e, r)(rows[i]) == 1 + rows[i].plusOnes;
  }

  lemma HeadcountAfterPromotion(rows: Rows, e: int)
    requires UniqueIds(rows) && FirstWaitlisted(rows, e).Some?
    ensures var f := FirstWaitlisted(rows, e).value;
            Headcount(Promote(rows, f), e) == Headcount(rows, e) + 1 + f.plusOnes
  {
    var i := PromoteAt(rows, e);
    SumUpdate(rows, i, rows[i].(status := Attending), Seats(e));
  }

  lemma DemandAfterPromotion(rows: Rows, e: int, r: Attendee)
    requires UniqueIds(rows) && FirstWaitlisted(rows, e).Some?
    requires r in rows && Waits(r, e) && r != FirstWaitlisted(rows, e).value
    ensures var f := FirstWaitlisted(rows, e).value;
            Demand(Promote(rows, f), e, r) == Demand(rows, e, r) - 1 - f.plusOnes
  {
    var i := PromoteAt(rows, e);
    var k :| 0 <= k < |rows| && rows[k] == r;
    SumUpdate(rows, i, rows[i].(status := Attending), PartyUpTo(e, r));
    assert PartyUpTo(e, r)(rows[i]) == 1 + rows[i].plusOnes;
  }

  /** The first guest's own demand is its party. */
  lemma DemandOfFirst(rows: Rows, e: int)
    requires UniqueIds(rows) && FirstWaitlisted(rows, e).Some?
    ensures var f := FirstWaitlisted(rows, e).value; Demand(rows, e, f) == 1 + f.plusOnes
  {
    var i := PromoteAt(rows, e);
    var f := rows[i];
    var after := rows[i := f.(status := Attending)];
    SumUpdate(rows, i, f.(status := Attending), PartyUpTo(e, f));
    SumSame(after, PartyUpTo(e, f), (r: Attendee) => 0);
    SumOfNothing(after);
    assert PartyUpTo(e, f)(f) == 1 + f.plusOnes;
  }

  lemma {:induction false} SumOfNothing(rows: Rows)
    ensures Sum(rows, (r: Attendee) => 0) == 0
  {
    if rows != [] { SumOfNothing(rows[1..]); }
  }

  /** One promotion leaves the verdict on every other row as it was. */
  lemma ServedAfterPromotion(rows: Rows, e: int, cap: int, i: nat)
    requires UniqueIds(rows) && i < |rows| && NextPromoted(rows, e, cap).Some?
    ensures var f := NextPromoted(rows, e, cap).value;
            var after := Promote(rows, f);
            Served(after, e, cap, after[i]) == Served(rows, e, cap, rows[i])
  {
    var p := PromoteAt(rows, e);
    HeadcountAfterPromotion(rows, e);
    if i == p {
      DemandOfFirst(rows, e);
    } else if Waits(rows[i], e) {
      DemandAfterPromotion(rows, e, rows[i]);
    }
  }

  lemma NobodyServed(rows: Rows, e: int, cap: int, i: nat)
    requires UniqueIds(rows) && NoNegativeParty(rows, e) && i < |rows| && NextPromoted(rows, e, cap).None?
    ensures Served(rows, e, cap, rows[i]) == rows[i]
  {
    if Waits(rows[i], e) {
      DemandIsAtLeastFirst(rows, e, rows[i]);
    }
  }

  lemma PromotionKeepsParties(rows: Rows, e: int)
    requires UniqueIds(rows) && NoNegativeParty(rows, e) && FirstWaitlisted(rows, e).Some?
    ensures NoNegativeParty(Promote(rows, FirstWaitlisted(rows, e).value), e)
  {
    var i := PromoteAt(rows, e);
  }

  /** The loop promotes exactly the waitlisted guests whose cumulative party fits in the
      free seats, and changes nothing else. */
  lemma {:induction false} LoopServesGreedyPrefix(rows: Rows, e: int, cap: int)
    requires UniqueIds(rows) && NoNegativeParty(rows, e)
    ensures GreedyPrefix(rows, e, cap, Drained(rows, e, cap))
    ensures NoNegativeParty(Drained(rows, e, cap), e)
    decreases WaitlistLength(rows, e)
  {
    var next := NextPromoted(rows, e, cap);
    if next.None? {
      forall i | 0 <= i < |rows| ensures Served(rows, e, cap, rows[i]) == rows[i] {
        NobodyServed(rows, e, cap, i);
      }
    } else {
      var after := Promote(rows, next.value);
      PromotionShrinksWaitlist(rows, e);
      WaitlistLengthIsNat(after, e);
      PromotionKeepsParties(rows, e);
      LoopServesGreedyPrefix(after, e, cap);
      forall i | 0 <= i < |rows| ensures Drained(rows, e, cap)[i] == Served(rows, e, cap, rows[i]) {
        ServedAfterPromotion(rows, e, cap, i);
      }
    }
  }

  /** Served guests form a prefix of the waitlist: nobody is served past a guest who waits. */
  lemma ServedIsPrefix(rows: Rows, e: int, cap: int, a: Attendee, b: Attendee)
    requires NoNegativeParty(rows, e) && a.eventId == b.eventId == e && a.status == b.status == Waitlisted
    requires a.createdAt < b.createdAt || (a.createdAt == b.createdAt && a.id < b.id)
    requires Served(rows, e, cap, b) != b
    ensures Served(rows, e, cap, a) != a
  {
    SumMonotone(rows, PartyUpTo(e, a), PartyUpTo(e, b));
  }

  lemma {:induction false} SumMonotone(rows: Rows, v: Attendee -> int, w: Attendee -> int)
    requires forall i :: 0 <= i < |rows| ==> v(rows[i]) <= w(rows[i])
    ensures Sum(rows, v) <= Sum(rows, w)
    ensures forall i :: 0 <= i < |rows| && v(rows[i]) < w(rows[i]) ==> Sum(rows, v) < Sum(rows, w)
  {
    if rows != [] {
      assert v(rows[0]) <= w(rows[0]);
      SumMonotone(rows[1..], v, w);
      assert forall i :: 1 <= i < |rows| ==> rows[i] == rows[1..][i - 1];
    }
  }

  /** No guest at the head of the waitlist would still fit. */
  ghost predicate Settled(rows: Rows, e: int, cap: int) {
    NextPromoted(rows, e, cap).None?
  }

  ghost function Larger(a: int, b: int): int {
    if a < b then b else a
  }

  /** The loop ends settled, never passes the capacity, and leaves other events alone. */
  lemma {:induction false} LoopSettlesWithinCapacity(rows: Rows, e: int, cap: int)
    requires UniqueIds(rows)
    ensures Settled(Drained(rows, e, cap), e, cap)
    ensures Headcount(Drained(rows, e, cap), e) <= Larger(Headcount(rows, e), cap)
    ensures forall other :: other != e ==> Headcount(Drained(rows, e, cap), other) == Headcount(rows, other)
    decreases WaitlistLength(rows, e)
  {
    var next := NextPromoted(rows, e, cap);
    if next.Some? {
      var i := PromoteAt(rows, e);
      var after := Promote(rows, next.value);
      PromotionShrinksWaitlist(rows, e);
      WaitlistLengthIsNat(after, e);
      HeadcountAfterPromotion(rows, e);
      LoopSettlesWithinCapacity(after, e, cap);
      forall other | other != e ensures Headcount(after, other) == Headcount(rows, other) {
        SumUpdate(rows, i, rows[i].(status := Attending), Seats(other));
      }
    }
  }

  // ---------- waitlist positions ----------

  lemma PositionsFollowOrder(rows: Rows, e: int, a: Attendee, b: Attendee)
    requires a in rows && Waits(a, e) && Before(a, b)
    ensures Position(rows, e, a) < Position(rows, e, b)
  {
    var i :| 0 <= i < |rows| && rows[i] == a;
    assert AheadOf(e, a)(rows[i]) < AheadOf(e, b)(rows[i]);
    SumMonotone(rows, AheadOf(e, a), AheadOf(e, b));
  }

  lemma PositionInRange(rows: Rows, e: int, a: Attendee)
    requires a in rows && Waits(a, e)
    ensures 1 <= Position(rows, e, a) <= WaitlistLength(rows, e)
  {
    SumBounds(rows, AheadOf(e, a));
    var i :| 0 <= i < |rows| && rows[i] == a;
    assert AheadOf(e, a)(rows[i]) < WaitsAt(e)(rows[i]);
    SumMonotone(rows, AheadOf(e, a), WaitsAt(e));
  }

  lemma FirstHasPositionOne(rows: Rows, e: int)
    requires UniqueIds(rows) && FirstWaitlisted(rows, e).Some?
    ensures Position(rows, e, FirstWaitlisted(rows, e).value) == 1
  {
    var i := PromoteAt(rows, e);
    SumSame(rows, AheadOf(e, rows[i]), (r: Attendee) => 0);
    SumOfNothing(rows);
  }

  lemma PositionAfterPromotion(rows: Rows, e: int, a: Attendee)
    requires UniqueIds(rows) && a in rows && Waits(a, e)
    requires FirstWaitlisted(rows, e).Some? && a != FirstWaitlisted(rows, e).value
    ensures var after := Promote(rows, FirstWaitlisted(rows, e).value);
            a in after && Position(after, e, a) == Position(rows, e, a) - 1
  {
    var i := PromoteAt(rows, e);
    var k :| 0 <= k < |rows| && rows[k] == a;
    SumUpdate(rows, i, rows[i].(status := Attending), AheadOf(e, a));
    assert Promote(rows, rows[i])[k] == a;
  }

  /** Every number from 1 to the length of the waitlist is somebody's position. */
  lemma {:induction false} PositionIsOnto(rows: Rows, e: int, p: int) returns (a: Attendee)
    requires UniqueIds(rows) && 1 <= p <= WaitlistLength(rows, e)
    ensures a in rows && Waits(a, e) && Position(rows, e, a) == p
    decreases p
  {
    FirstWaitlistedIsFirst(rows, e);
    if FirstWaitlisted(rows, e).None? {
      SumSame(rows, WaitsAt(e), (r: Attendee) => 0);
      SumOfNothing(rows);
      assert false;
    }
    var f := FirstWaitlisted(rows, e).value;
    FirstHasPositionOne(rows, e);
    if p == 1 {
      a := f;
    } else {
      PromotionShrinksWaitlist(rows, e);
      var i := PromoteAt(rows, e);
      a := PositionIsOnto(Promote(rows, f), e, p - 1);
      PositionAfterPromotion(rows, e, a);
    }
  }

  ghost predicate Occupied(rows: Rows, e: int, p: int) {
    exists a :: a in rows && Waits(a, e) && Position(rows, e, a) == p
  }

  /** GetWaitlistPosition is one-to-one between the waitlisted guests and 1..n. */
  lemma PositionIsBijection(rows: Rows, e: int)
    requires UniqueIds(rows)
    ensures forall a :: a in rows && Waits(a, e) ==> 1 <= Position(rows, e, a) <= WaitlistLength(rows, e)
    ensures forall a, b :: a in rows && b in rows && Waits(a, e) && Waits(b, e) && Position(rows, e, a) == Position(rows, e, b) ==> a == b
    ensures forall p :: 1 <= p <= WaitlistLength(rows, e) ==> Occupied(rows, e, p)
  {
    forall a | a in rows && Waits(a, e) ensures 1 <= Position(rows, e, a) <= WaitlistLength(rows, e) {
      PositionInRange(rows, e, a);
    }
    forall a, b | a in rows && b in rows && Waits(a, e) && Waits(b, e) && Position(rows, e, a) == Position(rows, e, b)
      ensures a == b
    {
      if Before(a, b) { PositionsFollowOrder(rows, e, a, b); }
      if Before(b, a) { PositionsFollowOrder(rows, e, b, a); }
    }
    forall p | 1 <= p <= WaitlistLength(rows, e) ensures Occupied(rows, e, p) {
      var a := PositionIsOnto(rows, e, p);
    }
  }

  /** A guest still waiting after the loop has moved up by the number of guests promoted. */
  lemma {:induction false} PositionsDropTogether(rows: Rows, e: int, cap: int, a: Attendee)
    requires UniqueIds(rows) && a in rows && Waits(a, e) && a in Drained(rows, e, cap)
    ensures var after := Drained(rows, e, cap);
            Position(after, e, a) == Position(rows, e, a) - (WaitlistLength(rows, e) - WaitlistLength(after, e))
    decreases WaitlistLength(rows, e)
  {
    var next := NextPromoted(rows, e, cap);
    if next.Some? {
      var after := Promote(rows, next.value);
      PromotionShrinksWaitlist(rows, e);
      WaitlistLengthIsNat(after, e);
      if a == next.value {
        PromotedStaysPromoted(rows, e, cap);
      } else {
        PositionAfterPromotion(rows, e, a);
        PositionsDropTogether(after, e, cap, a);
      }
    }
  }

  /** A row changes only from waiting at e to attending, and keeps everything else. */
  lemma {:induction false} LoopTouchesOnlyWaiting(rows: Rows, e: int, cap: int)
    requires UniqueIds(rows)
    ensures forall i :: 0 <= i < |rows| ==>
              Drained(rows, e, cap)[i] == rows[i] || (Waits(rows[i], e) && Drained(rows, e, cap)[i] == rows[i].(status := Attending))
    decreases WaitlistLength(rows, e)
  {
    var next := NextPromoted(rows, e, cap);
    if next.Some? {
      var i := PromoteAt(rows, e);
      PromotionShrinksWaitlist(rows, e);
      WaitlistLengthIsNat(Promote(rows, next.value), e);
      LoopTouchesOnlyWaiting(Promote(rows, next.value), e, cap);
    }
  }

  lemma PromotedStaysPromoted(rows: Rows, e: int, cap: int)
    requires UniqueIds(rows) && NextPromoted(rows, e, cap).Some?
    ensures NextPromoted(rows, e, cap).value !in Drained(rows, e, cap)
  {
    var f := NextPromoted(rows, e, cap).value;
    var i := PromoteAt(rows, e);
    var after := Promote(rows, f);
    LoopTouchesOnlyWaiting(after, e, cap);
    var final := Drained(after, e, cap);
    assert after[i].status == Attending && final[i] == after[i];
    forall j | 0 <= j < |final| ensures final[j] != f {
      if j != i { assert final[j].id == after[j].id == rows[j].id; }
    }
  }
}
