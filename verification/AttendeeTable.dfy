/**
 The attendees table of internal/rsvp/store.go as the sequence of its rows, and the
 queries the RSVP service runs on it.  Ids and tokens are opaque: they are compared for
 equality, and ids also for order.  Times are whole seconds.
 */
module AttendeeTable {
  import opened Wrappers

  datatype Status = Attending | Maybe | Declined | Pending | Waitlisted

  datatype Attendee = Attendee(id: int, eventId: int, token: int, name: string,
                               email: Option<string>, phone: Option<string>,
                               status: Status, plusOnes: int, createdAt: int)

  type Rows = seq<Attendee>

  ghost predicate UniqueIds(rows: Rows) {
    forall i, j :: 0 <= i < j < |rows| ==> rows[i].id != rows[j].id
  }

  ghost predicate NoNegativeParty(rows: Rows, e: int) {
    forall i :: 0 <= i < |rows| && rows[i].eventId == e ==> rows[i].plusOnes >= 0
  }

  predicate HasId(rows: Rows, id: int) {
    exists i :: 0 <= i < |rows| && rows[i].id == id
  }

  // ---------- sums over rows ----------

  ghost function Sum(rows: Rows, weight: Attendee -> int): int {
    if rows == [] then 0 else weight(rows[0]) + Sum(rows[1..], weight)
  }

  lemma {:induction false} SumConcat(a: Rows, b: Rows, weight: Attendee -> int)
    ensures Sum(a + b, weight) == Sum(a, weight) + Sum(b, weight)
  {
    if a == [] {
      assert a + b == b;
    } else {
      assert (a + b)[1..] == a[1..] + b;
      SumConcat(a[1..], b, weight);
    }
  }

  lemma SumSplit(rows: Rows, i: nat, weight: Attendee -> int)
    requires i < |rows|
    ensures Sum(rows, weight) == Sum(rows[..i], weight) + weight(rows[i]) + Sum(rows[i + 1..], weight)
  {
    assert rows == rows[..i] + rows[i..] && rows[i..][1..] == rows[i + 1..];
    SumConcat(rows[..i], rows[i..], weight);
  }

  lemma SumUpdate(rows: Rows, i: nat, row: Attendee, weight: Attendee -> int)
    requires i < |rows|
    ensures Sum(rows[i := row], weight) == Sum(rows, weight) - weight(rows[i]) + weight(row)
  {
    var after := rows[i := row];
    SumSplit(rows, i, weight);
    SumSplit(after, i, weight);
    assert after[..i] == rows[..i] && after[i + 1..] == rows[i + 1..];
  }

  lemma SumRemove(rows: Rows, i: nat, weight: Attendee -> int)
    requires i < |rows|
    ensures Sum(rows[..i] + rows[i + 1..], weight) == Sum(rows, weight) - weight(rows[i])
  {
    SumSplit(rows, i, weight);
    SumConcat(rows[..i], rows[i + 1..], weight);
  }

  lemma SumAppend(rows: Rows, row: Attendee, weight: Attendee -> int)
    ensures Sum(rows + [row], weight) == Sum(rows, weight) + weight(row)
  {
    SumConcat(rows, [row], weight);
    assert [row][1..] == [];
  }

  lemma {:induction false} SumBounds(rows: Rows, weight: Attendee -> int)
    requires forall i :: 0 <= i < |rows| ==> weight(rows[i]) >= 0
    ensures Sum(rows, weight) >= 0
    ensures forall i :: 0 <= i < |rows| ==> Sum(rows, weight) >= weight(rows[i])
  {
    if rows != [] {
      SumBounds(rows[1..], weight);
      assert forall i :: 1 <= i < |rows| ==> rows[i] == rows[1..][i - 1];
    }
  }

  /** Weights of 0 and 1 count the rows of weight 1. */
  lemma {:induction false} SumCounts(rows: Rows, weight: Attendee -> int)
    requires forall i :: 0 <= i < |rows| ==> 0 <= weight(rows[i]) <= 1
    ensures Sum(rows, weight) == |set i | 0 <= i < |rows| && weight(rows[i]) == 1|
  {
    var ones := set i | 0 <= i < |rows| && weight(rows[i]) == 1;
    if rows == [] {
      assert ones == {};
    } else {
      var n := |rows| - 1;
      var front := rows[..n];
      SumCounts(front, weight);
      SumAppend(front, rows[n], weight);
      assert front + [rows[n]] == rows;
      assert ones == (set i | 0 <= i < |front| && weight(front[i]) == 1) + if weight(rows[n]) == 1 then {n} else {};
    }
  }

  /** Weights that agree on every row have the same sum. */
  lemma {:induction false} SumSame(rows: Rows, v: Attendee -> int, w: Attendee -> int)
    requires forall i :: 0 <= i < |rows| ==> v(rows[i]) == w(rows[i])
    ensures Sum(rows, v) == Sum(rows, w)
  {
    if rows != [] {
      assert v(rows[0]) == w(rows[0]);
      SumSame(rows[1..], v, w);
    }
  }

  // ---------- single-row statements ----------

  /** SELECT ... WHERE id = ? */
  function RowById(rows: Rows, id: int): (r: Option<Attendee>)
    ensures r.None? <==> !HasId(rows, id)
    ensures r.Some? ==> r.value in rows && r.value.id == id
  {
    if rows == [] then None
    else if rows[0].id == id then Some(rows[0])
    else
      var r := RowById(rows[1..], id);
      assert r.None? ==> !HasId(rows, id) by {
        if HasId(rows, id) {
          var i :| 0 <= i < |rows| && rows[i].id == id;
          assert rows[1..][i - 1].id == id;
        }
      }
      assert r.Some? ==> HasId(rows, id) by {
        if r.Some? { var i :| 0 <= i < |rows[1..]| && rows[1..][i] == r.value; assert rows[i + 1].id == id; }
      }
      r
  }

  /** The columns an UPDATE writes; id, event, token and creation time never change. */
  function Merge(stored: Attendee, a: Attendee): Attendee {
    stored.(name := a.name, email := a.email, phone := a.phone, status := a.status, plusOnes := a.plusOnes)
  }

  /** UPDATE attendees SET ... WHERE id = a.id */
  function UpdateRows(rows: Rows, a: Attendee): (after: Rows)
    ensures |after| == |rows|
    ensures forall i :: 0 <= i < |rows| ==> after[i] == if rows[i].id == a.id then Merge(rows[i], a) else rows[i]
  {
    if rows == [] then []
    else [if rows[0].id == a.id then Merge(rows[0], a) else rows[0]] + UpdateRows(rows[1..], a)
  }

  /** DELETE FROM attendees WHERE id = ? */
  function DeleteRows(rows: Rows, id: int): Rows {
    if rows == [] then []
    else if rows[0].id == id then DeleteRows(rows[1..], id)
    else [rows[0]] + DeleteRows(rows[1..], id)
  }

  lemma UpdateIsPointwise(rows: Rows, i: nat, a: Attendee)
    requires UniqueIds(rows) && i < |rows| && rows[i].id == a.id
    ensures UpdateRows(rows, a) == rows[i := Merge(rows[i], a)]
    ensures UniqueIds(UpdateRows(rows, a))
    ensures var r, was := UpdateRows(rows, a)[i], rows[i];
            && r.name == a.name && r.email == a.email && r.phone == a.phone && r.status == a.status && r.plusOnes == a.plusOnes
            && r.id == was.id && r.eventId == was.eventId && r.token == was.token && r.createdAt == was.createdAt
  {
  }

  lemma UpdateMisses(rows: Rows, a: Attendee)
    requires !HasId(rows, a.id)
    ensures UpdateRows(rows, a) == rows
  {
  }

  lemma {:induction false} DeleteMisses(rows: Rows, id: int)
    requires !HasId(rows, id)
    ensures DeleteRows(rows, id) == rows
  {
    if rows != [] {
      assert forall i :: 0 <= i < |rows[1..]| ==> rows[1..][i] == rows[i + 1];
      DeleteMisses(rows[1..], id);
    }
  }

  lemma {:induction false} DeleteIsPointwise(rows: Rows, i: nat)
    requires UniqueIds(rows) && i < |rows|
    ensures DeleteRows(rows, rows[i].id) == rows[..i] + rows[i + 1..]
    ensures UniqueIds(DeleteRows(rows, rows[i].id))
  {
    var id := rows[i].id;
    if i == 0 {
      assert !HasId(rows[1..], id);
      DeleteMisses(rows[1..], id);
    } else {
      DeleteIsPointwise(rows[1..], i - 1);
      assert rows[1..][..i - 1] == rows[1..i] && rows[1..][i - 1 + 1..] == rows[i + 1..];
      assert rows[..i] == [rows[0]] + rows[1..i];
    }
  }

  // ---------- headcount ----------

  /** Seats a row takes at event e: an attending guest and the plus-ones. */
  ghost function Seats(e: int): Attendee -> int {
    (r: Attendee) => if r.eventId == e && r.status == Attending then 1 + r.plusOnes else 0
  }

  ghost function Headcount(rows: Rows, e: int): int {
    Sum(rows, Seats(e))
  }

  // ---------- waitlist order ----------

  /** ORDER BY created_at ASC, id ASC */
  predicate Before(a: Attendee, b: Attendee) {
    a.createdAt < b.createdAt || (a.createdAt == b.createdAt && a.id < b.id)
  }

  predicate Waits(r: Attendee, e: int) {
    r.eventId == e && r.status == Waitlisted
  }

  /** The first waitlisted row of e in waitlist order. */
  function FirstWaitlisted(rows: Rows, e: int): Option<Attendee> {
    if rows == [] then None
    else
      var rest := FirstWaitlisted(rows[1..], e);
      if !Waits(rows[0], e) then rest
      else if rest.Some? && !Before(rows[0], rest.value) then rest
      else Some(rows[0])
  }

  lemma {:induction false} FirstWaitlistedIsFirst(rows: Rows, e: int)
    requires UniqueIds(rows)
    ensures FirstWaitlisted(rows, e).None? <==> forall i :: 0 <= i < |rows| ==> !Waits(rows[i], e)
    ensures var f := FirstWaitlisted(rows, e);
            f.Some? ==> f.value in rows && Waits(f.value, e)
                        && forall i :: 0 <= i < |rows| && Waits(rows[i], e) ==> rows[i] == f.value || Before(f.value, rows[i])
    ensures var f := FirstWaitlisted(rows, e);
            f.Some? ==> f.value.eventId == e && f.value.status == Waitlisted
                        && forall i :: 0 <= i < |rows| && rows[i].eventId == e && rows[i].status == Waitlisted ==>
                             f.value.createdAt < rows[i].createdAt || (f.value.createdAt == rows[i].createdAt && f.value.id <= rows[i].id)
  {
    if rows != [] {
      var rest := rows[1..];
      FirstWaitlistedIsFirst(rest, e);
      assert forall i :: 1 <= i < |rows| ==> rows[i] == rest[i - 1];
      var f := FirstWaitlisted(rest, e);
      if f.None? {
        assert forall i :: 1 <= i < |rows| ==> !Waits(rows[i], e);
      } else {
        var j :| 0 <= j < |rest| && rest[j] == f.value;
        assert rows[j + 1] == f.value && rows[0].id != f.value.id;
      }
    }
  }

  ghost function AheadOf(e: int, a: Attendee): Attendee -> int {
    (r: Attendee) => if Waits(r, e) && Before(r, a) then 1 else 0
  }

  /** GetWaitlistPosition: one more than the waitlisted rows that come before a. */
  ghost function Position(rows: Rows, e: int, a: Attendee): int {
    Sum(rows, AheadOf(e, a)) + 1
  }

  /** The position in the columns of the table: guests who joined earlier, or with a smaller id at the
      same time, come before. */
  lemma PositionCounts(rows: Rows, e: int, a: Attendee)
    ensures Position(rows, e, a)
            == 1 + |set i | 0 <= i < |rows| && rows[i].eventId == e && rows[i].status == Waitlisted
                            && (rows[i].createdAt < a.createdAt || (rows[i].createdAt == a.createdAt && rows[i].id < a.id))|
  {
    SumCounts(rows, AheadOf(e, a));
    assert (set i | 0 <= i < |rows| && AheadOf(e, a)(rows[i]) == 1)
           == set i | 0 <= i < |rows| && rows[i].eventId == e && rows[i].status == Waitlisted
                      && (rows[i].createdAt < a.createdAt || (rows[i].createdAt == a.createdAt && rows[i].id < a.id));
  }

  ghost function PartyUpTo(e: int, a: Attendee): Attendee -> int {
    (r: Attendee) => if Waits(r, e) && (r.createdAt < a.createdAt || (r.createdAt == a.createdAt && r.id <= a.id)) then 1 + r.plusOnes else 0
  }

  /** Seats wanted by the waitlist of e up to and including a. */
  ghost function Demand(rows: Rows, e: int, a: Attendee): int {
    Sum(rows, PartyUpTo(e, a))
  }

  ghost function WaitsAt(e: int): Attendee -> int {
    (r: Attendee) => if Waits(r, e) then 1 else 0
  }

  ghost function WaitlistLength(rows: Rows, e: int): (n: int) {
    Sum(rows, WaitsAt(e))
  }

  lemma WaitlistLengthIsNat(rows: Rows, e: int)
    ensures WaitlistLength(rows, e) >= 0
  {
    SumBounds(rows, WaitsAt(e));
  }
}
