/**
 The attendee store of internal/rsvp/store.go: statements that change the table in place
 and the queries the service reads.
 */
module AttendeeStore {
  import opened Wrappers
  import opened AttendeeTable

  // ---------- GetStats ----------

  /** One row of SELECT rsvp_status, COUNT(*), SUM(plus_ones) ... GROUP BY rsvp_status. */
  datatype Group = Group(status: Status, count: int, plusOnes: int)

  datatype Stats = Stats(attending: int, attendingHeadcount: int, maybe: int, maybeHeadcount: int,
                         declined: int, waitlisted: int, pending: int, total: int, totalHeadcount: int)

  ghost function One(e: int, s: Status): Attendee -> int {
    (r: Attendee) => if r.eventId == e && r.status == s then 1 else 0
  }

  ghost function Extra(e: int, s: Status): Attendee -> int {
    (r: Attendee) => if r.eventId == e && r.status == s then r.plusOnes else 0
  }

  ghost function CountOf(rows: Rows, e: int, s: Status): int {
    Sum(rows, One(e, s))
  }

  ghost function PlusOnesOf(rows: Rows, e: int, s: Status): int {
    Sum(rows, Extra(e, s))
  }

  /** The groups are those of the rows of e, in any order. */
  ghost predicate GroupsOf(groups: seq<Group>, rows: Rows, e: int) {
    && (forall i :: 0 <= i < |groups| ==>
          groups[i].count == CountOf(rows, e, groups[i].status) && groups[i].plusOnes == PlusOnesOf(rows, e, groups[i].status))
    && (forall i, j :: 0 <= i < j < |groups| ==> groups[i].status != groups[j].status)
    && (forall s :: (forall i :: 0 <= i < |groups| ==> groups[i].status != s) ==> NoneOf(rows, e, s))
  }

  ghost predicate NoneOf(rows: Rows, e: int, s: Status) {
    forall i :: 0 <= i < |rows| && rows[i].eventId == e ==> rows[i].status != s
  }

  lemma {:induction false} NoneCountsNothing(rows: Rows, e: int, s: Status)
    requires NoneOf(rows, e, s)
    ensures CountOf(rows, e, s) == 0 && PlusOnesOf(rows, e, s) == 0
  {
    if rows != [] {
      assert forall i :: 0 <= i < |rows[1..]| ==> rows[1..][i] == rows[i + 1];
      NoneCountsNothing(rows[1..], e, s);
    }
  }

  /** The two queries that report attending heads agree: COUNT(*) + SUM(plus_ones) in
      GetStats and SUM(1 + plus_ones) in GetPublicAttendance. */
  lemma {:induction false} GroupHeadsAreHeadcount(rows: Rows, e: int)
    ensures CountOf(rows, e, Attending) + PlusOnesOf(rows, e, Attending) == Headcount(rows, e)
  {
    if rows != [] {
      GroupHeadsAreHeadcount(rows[1..], e);
    }
  }

  lemma CountIsCardinality(rows: Rows, e: int, s: Status)
    ensures CountOf(rows, e, s) == |set i | 0 <= i < |rows| && rows[i].eventId == e && rows[i].status == s|
  {
    SumCounts(rows, One(e, s));
    assert (set i | 0 <= i < |rows| && One(e, s)(rows[i]) == 1)
           == set i | 0 <= i < |rows| && rows[i].eventId == e && rows[i].status == s;
  }

  /** The headcount is the number of attending guests and their plus-ones. */
  lemma HeadcountCounts(rows: Rows, e: int)
    ensures Headcount(rows, e)
            == |set i | 0 <= i < |rows| && rows[i].eventId == e && rows[i].status == Attending|
               + Sum(rows, (r: Attendee) => if r.eventId == e && r.status == Attending then r.plusOnes else 0)
  {
    GroupHeadsAreHeadcount(rows, e);
    CountIsCardinality(rows, e, Attending);
    SumSame(rows, Extra(e, Attending), (r: Attendee) => if r.eventId == e && r.status == Attending then r.plusOnes else 0);
  }

  ghost function InEvent(e: int): Attendee -> int {
    (r: Attendee) => if r.eventId == e then 1 else 0
  }

  lemma {:induction false} CountsAddUp(rows: Rows, e: int)
    ensures Sum(rows, InEvent(e)) == CountOf(rows, e, Attending) + CountOf(rows, e, Maybe)
                                     + CountOf(rows, e, Declined) + CountOf(rows, e, Waitlisted) + CountOf(rows, e, Pending)
  {
    if rows != [] {
      CountsAddUp(rows[1..], e);
    }
  }

  /** Seats asked for by everyone who has neither declined nor waits. */
  ghost function Expected(e: int): Attendee -> int {
    (r: Attendee) => if r.eventId == e && r.status != Declined && r.status != Waitlisted then 1 + r.plusOnes else 0
  }

  ghost function HeadsOf(rows: Rows, e: int, s: Status): int {
    CountOf(rows, e, s) + PlusOnesOf(rows, e, s)
  }

  lemma {:induction false} HeadsAddUp(rows: Rows, e: int)
    ensures Sum(rows, Expected(e)) == HeadsOf(rows, e, Attending) + HeadsOf(rows, e, Maybe) + HeadsOf(rows, e, Pending)
  {
    if rows != [] {
      HeadsAddUp(rows[1..], e);
    }
  }

  /** A count contributes once its status has been seen. */
  ghost function Seen(groups: seq<Group>, n: nat, s: Status, value: int): int
    requires n <= |groups|
  {
    if exists i :: 0 <= i < n && groups[i].status == s then value else 0
  }

  /** The row loop of GetStats. */
  method GetStats(groups: seq<Group>, ghost rows: Rows, ghost e: int) returns (stats: Stats)
    requires GroupsOf(groups, rows, e)
    ensures stats.attendingHeadcount == Headcount(rows, e)
    ensures stats.attending == CountOf(rows, e, Attending) && stats.maybe == CountOf(rows, e, Maybe)
    ensures stats.declined == CountOf(rows, e, Declined) && stats.waitlisted == CountOf(rows, e, Waitlisted)
    ensures stats.pending == CountOf(rows, e, Pending) && stats.maybeHeadcount == HeadsOf(rows, e, Maybe)
    ensures stats.total == Sum(rows, InEvent(e)) && stats.totalHeadcount == Sum(rows, Expected(e))
  {
    hide CountOf, PlusOnesOf, Headcount, Sum, Seen;
    SeenNothing(groups);
    stats := Stats(0, 0, 0, 0, 0, 0, 0, 0, 0);
    for i := 0 to |groups|
      invariant stats.attending == Seen(groups, i, Attending, CountOf(rows, e, Attending))
      invariant stats.maybe == Seen(groups, i, Maybe, CountOf(rows, e, Maybe))
      invariant stats.declined == Seen(groups, i, Declined, CountOf(rows, e, Declined))
      invariant stats.waitlisted == Seen(groups, i, Waitlisted, CountOf(rows, e, Waitlisted))
      invariant stats.pending == Seen(groups, i, Pending, CountOf(rows, e, Pending))
      invariant stats.attendingHeadcount == Seen(groups, i, Attending, HeadsOf(rows, e, Attending))
      invariant stats.maybeHeadcount == Seen(groups, i, Maybe, HeadsOf(rows, e, Maybe))
      invariant stats.totalHeadcount == Seen(groups, i, Attending, HeadsOf(rows, e, Attending)) + Seen(groups, i, Maybe, HeadsOf(rows, e, Maybe))
                                        + Seen(groups, i, Pending, HeadsOf(rows, e, Pending))
      invariant stats.total == Seen(groups, i, Attending, CountOf(rows, e, Attending)) + Seen(groups, i, Maybe, CountOf(rows, e, Maybe))
                               + Seen(groups, i, Declined, CountOf(rows, e, Declined)) + Seen(groups, i, Waitlisted, CountOf(rows, e, Waitlisted))
                               + Seen(groups, i, Pending, CountOf(rows, e, Pending))
    {
      var g := groups[i];
      match g.status {
        case Attending => stats := stats.(attending := g.count, attendingHeadcount := g.count + g.plusOnes);
        case Maybe => stats := stats.(maybe := g.count, maybeHeadcount := g.count + g.plusOnes);
        case Declined => stats := stats.(declined := g.count);
        case Waitlisted => stats := stats.(waitlisted := g.count);
        case Pending => stats := stats.(pending := g.count);
      }
      stats := stats.(total := stats.total + g.count);
      if g.status != Declined && g.status != Waitlisted {
        stats := stats.(totalHeadcount := stats.totalHeadcount + g.count + g.plusOnes);
      }
      SeenNext(groups, i);
    }
    GroupHeadsAreHeadcount(rows, e);
    CountsAddUp(rows, e);
    HeadsAddUp(rows, e);
    SeenAll(groups, rows, e);
  }

  lemma SeenNothing(groups: seq<Group>)
    ensures forall s, value :: Seen(groups, 0, s, value) == 0
  {
  }

  /** A status without a group has nothing to contribute. */
  lemma SeenAll(groups: seq<Group>, rows: Rows, e: int)
    requires GroupsOf(groups, rows, e)
    ensures forall s :: Seen(groups, |groups|, s, CountOf(rows, e, s)) == CountOf(rows, e, s)
    ensures forall s :: Seen(groups, |groups|, s, HeadsOf(rows, e, s)) == HeadsOf(rows, e, s)
  {
    forall s
      ensures Seen(groups, |groups|, s, CountOf(rows, e, s)) == CountOf(rows, e, s)
      ensures Seen(groups, |groups|, s, HeadsOf(rows, e, s)) == HeadsOf(rows, e, s)
    {
      if !(exists i :: 0 <= i < |groups| && groups[i].status == s) {
        NoneCountsNothing(rows, e, s);
      }
    }
  }

  lemma SeenNext(groups: seq<Group>, n: nat)
    requires n < |groups| && forall i, j :: 0 <= i < j < |groups| ==> groups[i].status != groups[j].status
    ensures forall s, value :: Seen(groups, n + 1, s, value) == Seen(groups, n, s, value) + if groups[n].status == s then value else 0
    ensures forall value :: Seen(groups, n, groups[n].status, value) == 0
  {
  }

  // ---------- the store ----------

  class Store {
    var rows: Rows

    constructor ()
      ensures rows == []
    {
      rows := [];
    }

    method Create(a: Attendee)
      modifies this
      ensures rows == old(rows) + [a]
    {
      rows := rows + [a];
    }

    method Update(a: Attendee)
      modifies this
      ensures rows == UpdateRows(old(rows), a)
    {
      rows := UpdateRows(rows, a);
    }

    method Delete(id: int)
      modifies this
      ensures rows == DeleteRows(old(rows), id)
    {
      rows := DeleteRows(rows, id);
    }

    /** Any row that matches; the query does not say which. */
    method FindByEventAndEmail(e: int, email: string) returns (r: Option<Attendee>)
      ensures r.Some? ==> r.value in rows && r.value.eventId == e && r.value.email == Some(email)
      ensures r.None? ==> forall a :: a in rows ==> !(a.eventId == e && a.email == Some(email))
    {
      if i :| 0 <= i < |rows| && rows[i].eventId == e && rows[i].email == Some(email) {
        r := Some(rows[i]);
      } else {
        r := None;
      }
    }

    method FindByEventAndPhone(e: int, phone: string) returns (r: Option<Attendee>)
      ensures r.Some? ==> r.value in rows && r.value.eventId == e && r.value.phone == Some(phone)
      ensures r.None? ==> forall a :: a in rows ==> !(a.eventId == e && a.phone == Some(phone))
    {
      if i :| 0 <= i < |rows| && rows[i].eventId == e && rows[i].phone == Some(phone) {
        r := Some(rows[i]);
      } else {
        r := None;
      }
    }

    method FindByRSVPToken(token: int) returns (r: Option<Attendee>)
      ensures r.Some? ==> r.value in rows && r.value.token == token
      ensures r.None? ==> forall a :: a in rows ==> a.token != token
    {
      if i :| 0 <= i < |rows| && rows[i].token == token {
        r := Some(rows[i]);
      } else {
        r := None;
      }
    }

    /** One group of the GROUP BY query; a status without rows has none. */
    method GroupOf(e: int, s: Status) returns (g: Option<Group>)
      ensures g.None? ==> NoneOf(rows, e, s)
      ensures g.Some? ==> g.value == Group(s, CountOf(rows, e, s), PlusOnesOf(rows, e, s))
    {
      var count, plusOnes, any := 0, 0, false;
      for i := 0 to |rows|
        invariant count == CountOf(rows[..i], e, s) && plusOnes == PlusOnesOf(rows[..i], e, s)
        invariant !any ==> NoneOf(rows[..i], e, s)
      {
        assert rows[..i + 1] == rows[..i] + [rows[i]];
        SumAppend(rows[..i], rows[i], One(e, s));
        SumAppend(rows[..i], rows[i], Extra(e, s));
        if rows[i].eventId == e && rows[i].status == s {
          count, plusOnes, any := count + 1, plusOnes + rows[i].plusOnes, true;
        }
      }
      assert rows[..|rows|] == rows;
      g := if any then Some(Group(s, count, plusOnes)) else None;
    }

    method GroupByStatus(e: int) returns (groups: seq<Group>)
      ensures GroupsOf(groups, rows, e)
    {
      hide CountOf, PlusOnesOf, NoneOf;
      groups := [];
      ghost var done: set<Status> := {};
      var todo := [Attending, Maybe, Declined, Pending, Waitlisted];
      forall s: Status ensures s in todo {
        assert s == todo[0] || s == todo[1] || s == todo[2] || s == todo[3] || s == todo[4];
      }
      while todo != []
        invariant forall s: Status :: s in done || s in todo
        invariant forall i :: 0 <= i < |groups| ==> groups[i] == Group(groups[i].status, CountOf(rows, e, groups[i].status), PlusOnesOf(rows, e, groups[i].status))
        invariant forall i :: 0 <= i < |groups| ==> groups[i].status in done
        invariant forall i :: 0 <= i < |todo| ==> todo[i] !in done && forall j :: 0 <= j < i ==> todo[j] != todo[i]
        invariant forall i, j :: 0 <= i < j < |groups| ==> groups[i].status != groups[j].status
        invariant forall s :: s in done && (forall i :: 0 <= i < |groups| ==> groups[i].status != s) ==> NoneOf(rows, e, s)
        decreases |todo|
      {
        var s := todo[0];
        var g := GroupOf(e, s);
        ghost var before := groups;
        if g.Some? {
          groups := groups + [g.value];
          assert groups[|before|].status == s;
        }
        assert forall i :: 0 <= i < |before| ==> groups[i] == before[i];
        done := done + {s};
        todo := todo[1..];
      }
    }

    /** The 1-based place of a guest in the waitlist; without a row of the event under that id every
        comparison is with NULL and nothing is counted. */
    method GetWaitlistPosition(e: int, id: int) returns (position: int)
      requires UniqueIds(rows)
      ensures forall a :: a in rows && a.id == id && a.eventId == e ==>
                position == Position(rows, e, a)
                == 1 + |set i | 0 <= i < |rows| && rows[i].eventId == e && rows[i].status == Waitlisted
                                && (rows[i].createdAt < a.createdAt || (rows[i].createdAt == a.createdAt && rows[i].id < a.id))|
      ensures (forall a :: a in rows && a.id == id ==> a.eventId != e) ==> position == 1
    {
      var found := RowById(rows, id);
      if found == None || found.value.eventId != e { return 1; }
      var guest := found.value;
      var n := 0;
      for i := 0 to |rows|
        invariant n == Sum(rows[..i], AheadOf(e, guest))
      {
        assert rows[..i + 1] == rows[..i] + [rows[i]];
        SumAppend(rows[..i], rows[i], AheadOf(e, guest));
        if rows[i].eventId == e && rows[i].status == Waitlisted
           && (rows[i].createdAt < guest.createdAt || (rows[i].createdAt == guest.createdAt && rows[i].id < guest.id))
        {
          n := n + 1;
        }
      }
      assert rows[..|rows|] == rows;
      PositionCounts(rows, e, guest);
      position := n + 1;
    }
  }
}
