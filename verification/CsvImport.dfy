/**
 The CSV import of internal/rsvp/import.go: the preview's row loop and the import that
 follows it.  Lower-casing and the format checks are parameters: nothing below depends on
 which functions they are.
 */
module CsvImport {
  import opened Wrappers
  import opened AttendeeTable
  import opened AttendeeStore
  import RsvpEffects
  import RsvpRuns

  datatype Row = Row(name: string, email: string, phone: string, plusOnes: int, error: bool, duplicate: bool)

  /** What the outside world contributes to an import. */
  datatype World = World(lower: string -> string, wellFormed: Row -> bool, fails: nat -> bool, newId: nat -> int, newToken: nat -> int, now: int)

  /** The lower-cased addresses of the event's attendees. */
  function KnownEmails(rows: Rows, e: int, lower: string -> string): set<string> {
    set a | a in rows && a.eventId == e && a.email.Some? && a.email.value != "" :: lower(a.email.value)
  }

  predicate Repeats(row: Row, known: set<string>, lower: string -> string) {
    row.email != "" && lower(row.email) in known
  }

  // ---------- preview ----------

  predicate Acceptable(row: Row, w: World) {
    !row.error && row.name != "" && w.wellFormed(row) && row.plusOnes >= 0
  }

  function Previewed(row: Row, known: set<string>, w: World): Row {
    if !Acceptable(row, w) then row.(error := true)
    else if Repeats(row, known, w.lower) then row.(duplicate := true)
    else row
  }

  datatype Preview = Preview(rows: seq<Row>, totalRows: int, validRows: int, errorRows: int, duplicates: int)

  function Count(rows: seq<Row>, p: Row -> bool): nat {
    if rows == [] then 0 else (if p(rows[0]) then 1 else 0) + Count(rows[1..], p)
  }

  lemma {:induction false} CountAppend(rows: seq<Row>, row: Row, p: Row -> bool)
    ensures Count(rows + [row], p) == Count(rows, p) + if p(row) then 1 else 0
  {
    if rows == [] {
      assert rows + [row] == [row] && [row][1..] == [];
    } else {
      assert (rows + [row])[1..] == rows[1..] + [row];
      CountAppend(rows[1..], row, p);
    }
  }

  function HasError(): Row -> bool { (r: Row) => r.error }
  function IsDuplicate(): Row -> bool { (r: Row) => !r.error && r.duplicate }
  function IsValid(): Row -> bool { (r: Row) => !r.error && !r.duplicate }

  /** Rows as the parser leaves them carry no duplicate mark yet. */
  ghost predicate Parsed(parsed: seq<Row>) {
    forall i :: 0 <= i < |parsed| ==> !parsed[i].duplicate
  }

  ghost predicate IsPreview(parsed: seq<Row>, known: set<string>, w: World, p: Preview) {
    && |p.rows| == |parsed| && (forall i :: 0 <= i < |parsed| ==> p.rows[i] == Previewed(parsed[i], known, w))
    && p.totalRows == |parsed| == p.validRows + p.errorRows + p.duplicates
    && p.validRows == Count(p.rows, IsValid()) && p.errorRows == Count(p.rows, HasError()) && p.duplicates == Count(p.rows, IsDuplicate())
  }

  method ParsePreview(parsed: seq<Row>, known: set<string>, w: World) returns (p: Preview)
    requires Parsed(parsed)
    ensures IsPreview(parsed, known, w, p)
  {
    p := Preview([], 0, 0, 0, 0);
    for i := 0 to |parsed|
      invariant |p.rows| == i && forall j :: 0 <= j < i ==> p.rows[j] == Previewed(parsed[j], known, w)
      invariant p.totalRows == i == p.validRows + p.errorRows + p.duplicates
      invariant p.validRows == Count(p.rows, IsValid()) && p.errorRows == Count(p.rows, HasError()) && p.duplicates == Count(p.rows, IsDuplicate())
    {
      var row := parsed[i];
      p := p.(totalRows := p.totalRows + 1);
      if !Acceptable(row, w) {
        row := row.(error := true);
        p := p.(errorRows := p.errorRows + 1);
      } else {
        if Repeats(row, known, w.lower) {
          row := row.(duplicate := true);
          p := p.(duplicates := p.duplicates + 1);
        }
        if !row.error && !row.duplicate {
          p := p.(validRows := p.validRows + 1);
        }
      }
      CountAppend(p.rows, row, IsValid());
      CountAppend(p.rows, row, HasError());
      CountAppend(p.rows, row, IsDuplicate());
      p := p.(rows := p.rows + [row]);
    }
  }

  /** Which rows the preview marks, and that it changes nothing else. */
  lemma PreviewMarksExactly(parsed: seq<Row>, p: Preview, table: Rows, e: int, w: World, i: nat)
    requires Parsed(parsed) && IsPreview(parsed, KnownEmails(table, e, w.lower), w, p) && i < |parsed|
    ensures var row := p.rows[i];
            && row.(error := parsed[i].error, duplicate := false) == parsed[i]
            && (row.error <==> parsed[i].error || row.name == "" || !w.wellFormed(parsed[i]) || row.plusOnes < 0)
            && (row.duplicate <==> !row.error && row.email != ""
                                   && exists a :: a in table && a.eventId == e && a.email.Some? && a.email.value != ""
                                                  && w.lower(a.email.value) == w.lower(row.email))
  {
    assert p.rows[i] == Previewed(parsed[i], KnownEmails(table, e, w.lower), w);
  }

  // ---------- import ----------

  datatype Fate = Skips | Duplicates | Fails | Imports

  function FateOf(row: Row, known: set<string>, failed: bool, lower: string -> string): Fate {
    if row.error || row.name == "" then Skips
    else if Repeats(row, known, lower) then Duplicates
    else if failed then Fails
    else Imports
  }

  function KnownAfter(row: Row, known: set<string>, failed: bool, lower: string -> string): set<string> {
    if FateOf(row, known, failed, lower) == Imports && row.email != "" then known + {lower(row.email)} else known
  }

  /** The addresses known before row n. */
  function KnownBefore(rows: seq<Row>, n: nat, known: set<string>, w: World): set<string>
    requires n <= |rows|
  {
    if n == 0 then known else KnownAfter(rows[n - 1], KnownBefore(rows, n - 1, known, w), w.fails(n - 1), w.lower)
  }

  /** What happens to row i of the request. */
  function Fated(rows: seq<Row>, i: nat, known: set<string>, w: World): Fate
    requires i < |rows|
  {
    FateOf(rows[i], KnownBefore(rows, i, known, w), w.fails(i), w.lower)
  }

  function Tally(rows: seq<Row>, n: nat, known: set<string>, w: World, fate: Fate): nat
    requires n <= |rows|
  {
    if n == 0 then 0 else Tally(rows, n - 1, known, w, fate) + if Fated(rows, n - 1, known, w) == fate then 1 else 0
  }

  /** The rows of the first n with that fate. */
  ghost function WithFate(rows: seq<Row>, n: nat, known: set<string>, w: World, fate: Fate): set<int>
    requires n <= |rows|
  {
    set i | 0 <= i < n && Fated(rows, i, known, w) == fate
  }

  lemma OneMoreWithFate(rows: seq<Row>, n: nat, known: set<string>, w: World, fate: Fate)
    requires n < |rows|
    ensures |WithFate(rows, n + 1, known, w, fate)|
            == |WithFate(rows, n, known, w, fate)| + if Fated(rows, n, known, w) == fate then 1 else 0
  {
    hide Fated;
    assert WithFate(rows, n + 1, known, w, fate)
           == WithFate(rows, n, known, w, fate) + if Fated(rows, n, known, w) == fate then {n} else {};
  }

  /** The counters count rows. */
  lemma {:induction false} TallyCounts(rows: seq<Row>, n: nat, known: set<string>, w: World, fate: Fate)
    requires n <= |rows|
    ensures Tally(rows, n, known, w, fate) == |WithFate(rows, n, known, w, fate)|
  {
    if n == 0 {
      assert WithFate(rows, 0, known, w, fate) == {};
    } else {
      hide WithFate, Fated;
      TallyCounts(rows, n - 1, known, w, fate);
      OneMoreWithFate(rows, n - 1, known, w, fate);
    }
  }

  /** The imported rows of the first n that carry an address. */
  ghost function Invitable(rows: seq<Row>, n: nat, known: set<string>, w: World): set<int>
    requires n <= |rows|
  {
    set i | 0 <= i < n && Fated(rows, i, known, w) == Imports && rows[i].email != ""
  }


  lemma OneMoreInvitable(rows: seq<Row>, n: nat, known: set<string>, w: World)
    requires n < |rows|
    ensures |Invitable(rows, n + 1, known, w)|
            == |Invitable(rows, n, known, w)| + if Fated(rows, n, known, w) == Imports && rows[n].email != "" then 1 else 0
  {
    hide Fated;
    assert Invitable(rows, n + 1, known, w)
           == Invitable(rows, n, known, w) + if Fated(rows, n, known, w) == Imports && rows[n].email != "" then {n} else {};
  }

  function NewAttendee(row: Row, e: int, id: int, token: int, now: int): Attendee {
    Attendee(id, e, token, row.name, if row.email != "" then Some(row.email) else None,
             if row.phone != "" then Some(row.phone) else None, Pending, row.plusOnes, now)
  }

  function NewRow(rows: seq<Row>, i: nat, e: int, w: World): (a: Attendee)
    requires i < |rows|
    ensures a.plusOnes == rows[i].plusOnes
  {
    NewAttendee(rows[i], e, w.newId(i), w.newToken(i), w.now)
  }

  /** The attendees inserted for the first n rows. */
  function Inserted(rows: seq<Row>, n: nat, e: int, known: set<string>, w: World): Rows
    requires n <= |rows|
  {
    if n == 0 then []
    else Inserted(rows, n - 1, e, known, w)
         + if Fated(rows, n - 1, known, w) == Imports then [NewRow(rows, n - 1, e, w)] else []
  }

  /** What the import knows and has inserted after one more row. */
  lemma OneMoreRow(rows: seq<Row>, i: nat, e: int, known: set<string>, w: World)
    requires i < |rows|
    ensures var row, before, fate := rows[i], KnownBefore(rows, i, known, w), Fated(rows, i, known, w);
            && fate == FateOf(row, before, w.fails(i), w.lower)
            && KnownBefore(rows, i + 1, known, w) == (if fate == Imports && row.email != "" then before + {w.lower(row.email)} else before)
            && Inserted(rows, i + 1, e, known, w)
               == if fate == Imports then Inserted(rows, i, e, known, w) + [NewRow(rows, i, e, w)] else Inserted(rows, i, e, known, w)
  {
  }

  datatype ImportResult = ImportResult(imported: int, skipped: int, failed: int, duplicates: int, invited: int)

  /** The counters after n rows. */
  ghost predicate Counted(r: ImportResult, rows: seq<Row>, n: nat, known: set<string>, w: World, invite: bool)
    requires n <= |rows|
  {
    && r.imported == Tally(rows, n, known, w, Imports) && r.skipped == Tally(rows, n, known, w, Skips)
    && r.failed == Tally(rows, n, known, w, Fails) && r.duplicates == Tally(rows, n, known, w, Duplicates)
    && r.invited == (if invite then |Invitable(rows, n, known, w)| else 0)
    && r.imported + r.skipped + r.failed + r.duplicates == n && 0 <= r.invited <= r.imported
  }

  lemma NothingCounted(rows: seq<Row>, known: set<string>, w: World, invite: bool)
    ensures Counted(ImportResult(0, 0, 0, 0, 0), rows, 0, known, w, invite)
  {
    assert Invitable(rows, 0, known, w) == {};
  }

  lemma OneMoreCounted(r: ImportResult, rows: seq<Row>, n: nat, known: set<string>, w: World, invite: bool)
    requires n < |rows| && Counted(r, rows, n, known, w, invite)
    ensures var next := match Fated(rows, n, known, w)
              case Skips => r.(skipped := r.skipped + 1)
              case Duplicates => r.(duplicates := r.duplicates + 1)
              case Fails => r.(failed := r.failed + 1)
              case Imports => r.(imported := r.imported + 1, invited := r.invited + if invite && rows[n].email != "" then 1 else 0);
            Counted(next, rows, n + 1, known, w, invite)
  {
    OneMoreInvitable(rows, n, known, w);
    hide Invitable, Fated;
  }

  method ExecuteCSVImport(store: Store, e: int, rows: seq<Row>, invite: bool, w: World) returns (r: ImportResult)
    modifies store
    ensures var known := KnownEmails(old(store.rows), e, w.lower);
            && store.rows == old(store.rows) + Inserted(rows, |rows|, e, known, w)
            && r.imported == Tally(rows, |rows|, known, w, Imports) && r.skipped == Tally(rows, |rows|, known, w, Skips)
            && r.failed == Tally(rows, |rows|, known, w, Fails) && r.duplicates == Tally(rows, |rows|, known, w, Duplicates)
            && r.invited == if invite then |Invitable(rows, |rows|, known, w)| else 0
    ensures r.imported + r.skipped + r.failed + r.duplicates == |rows| && 0 <= r.invited <= r.imported
  {
    ghost var known := KnownEmails(store.rows, e, w.lower);
    var existingEmails := KnownEmails(store.rows, e, w.lower);
    r := ImportResult(0, 0, 0, 0, 0);
    NothingCounted(rows, known, w, invite);
    for i := 0 to |rows|
      invariant existingEmails == KnownBefore(rows, i, known, w)
      invariant store.rows == old(store.rows) + Inserted(rows, i, e, known, w)
      invariant Counted(r, rows, i, known, w, invite)
    {
      hide KnownBefore, Inserted, Fated, Counted, KnownEmails;
      OneMoreRow(rows, i, e, known, w);
      OneMoreCounted(r, rows, i, known, w, invite);
      var row := rows[i];
      if row.error || row.name == "" {
        r := r.(skipped := r.skipped + 1);
      } else if row.email != "" && w.lower(row.email) in existingEmails {
        r := r.(duplicates := r.duplicates + 1);
      } else if w.fails(i) {
        r := r.(failed := r.failed + 1);
      } else {
        var a := NewAttendee(row, e, w.newId(i), w.newToken(i), w.now);
        store.Create(a);
        r := r.(imported := r.imported + 1);
        if row.email != "" {
          existingEmails := existingEmails + {w.lower(row.email)};
        }
        if invite && a.email.Some? && a.email.value != "" {
          r := r.(invited := r.invited + 1);
        }
      }
    }
  }

  // ---------- addresses stay unique ----------

  predicate Addressed(a: Attendee, e: int) {
    a.eventId == e && a.email.Some? && a.email.value != ""
  }

  /** No two attendees of the event share an address, whatever the case. */
  ghost predicate UniqueEmails(rows: Rows, e: int, lower: string -> string) {
    forall i, j :: 0 <= i < j < |rows| && Addressed(rows[i], e) && Addressed(rows[j], e) ==>
      lower(rows[i].email.value) != lower(rows[j].email.value)
  }

  /** The import's record of known addresses is that of the table it is filling. */
  lemma {:induction false} KnownIsTracked(table: Rows, rows: seq<Row>, n: nat, e: int, w: World)
    requires n <= |rows|
    ensures var known := KnownEmails(table, e, w.lower);
            KnownEmails(table + Inserted(rows, n, e, known, w), e, w.lower) == KnownBefore(rows, n, known, w)
  {
    var known := KnownEmails(table, e, w.lower);
    if n == 0 {
      assert table + [] == table;
    } else {
      KnownIsTracked(table, rows, n - 1, e, w);
      var before := table + Inserted(rows, n - 1, e, known, w);
      if Fated(rows, n - 1, known, w) == Imports {
        var a := NewRow(rows, n - 1, e, w);
        assert table + Inserted(rows, n, e, known, w) == before + [a];
        KnownAppend(before, a, e, w.lower);
      } else {
        assert table + Inserted(rows, n, e, known, w) == before;
      }
    }
  }

  lemma KnownAppend(rows: Rows, a: Attendee, e: int, lower: string -> string)
    ensures KnownEmails(rows + [a], e, lower) == KnownEmails(rows, e, lower) + if Addressed(a, e) then {lower(a.email.value)} else {}
  {
  }

  lemma {:induction false} ImportKeepsEmailsUnique(table: Rows, rows: seq<Row>, n: nat, e: int, w: World)
    requires n <= |rows| && UniqueEmails(table, e, w.lower)
    ensures UniqueEmails(table + Inserted(rows, n, e, KnownEmails(table, e, w.lower), w), e, w.lower)
  {
    var known := KnownEmails(table, e, w.lower);
    if n == 0 {
      assert table + [] == table;
    } else {
      ImportKeepsEmailsUnique(table, rows, n - 1, e, w);
      KnownIsTracked(table, rows, n - 1, e, w);
      var before := table + Inserted(rows, n - 1, e, known, w);
      if Fated(rows, n - 1, known, w) == Imports {
        var a := NewRow(rows, n - 1, e, w);
        assert table + Inserted(rows, n, e, known, w) == before + [a];
        forall i | 0 <= i < |before| && Addressed(before[i], e) ensures w.lower(before[i].email.value) in KnownEmails(before, e, w.lower) {
          assert before[i] in before;
        }
      } else {
        assert table + Inserted(rows, n, e, known, w) == before;
      }
    }
  }

  /** The columns an import takes from its row; an empty address or number is stored as none. */
  predicate ComesFrom(a: Attendee, row: Row) {
    && a.name == row.name && a.plusOnes == row.plusOnes
    && (row.email == "" ==> a.email == None) && (row.email != "" ==> a.email == Some(row.email))
    && (row.phone == "" ==> a.phone == None) && (row.phone != "" ==> a.phone == Some(row.phone))
  }

  /** The inserted rows are rows the capacity argument accounts for: pending and of this event. */
  lemma {:induction false} InsertedArePending(rows: seq<Row>, n: nat, e: int, known: set<string>, w: World)
    requires n <= |rows|
    ensures |Inserted(rows, n, e, known, w)| <= n
    ensures forall a :: a in Inserted(rows, n, e, known, w) ==>
              a.eventId == e && a.status == Pending && exists i :: 0 <= i < n && a.id == w.newId(i) && ComesFrom(a, rows[i])
  {
    if n > 0 { InsertedArePending(rows, n - 1, e, known, w); }
  }

  /** Generated ids are new to the table and to each other. */
  ghost predicate NewIds(table: Rows, n: nat, w: World) {
    forall i :: 0 <= i < n ==> !HasId(table, w.newId(i)) && forall j :: 0 <= j < i ==> w.newId(j) != w.newId(i)
  }

  /** What an import inserts is what the capacity argument expects of an import. */
  lemma {:induction false} ImportIsImportable(table: Rows, rows: seq<Row>, n: nat, e: int, known: set<string>, w: World)
    requires n <= |rows| && UniqueIds(table) && NewIds(table, n, w)
    ensures RsvpRuns.Importable(table, e, Inserted(rows, n, e, known, w))
  {
    if n == 0 {
      assert table + [] == table;
    } else {
      ImportIsImportable(table, rows, n - 1, e, known, w);
      InsertedArePending(rows, n - 1, e, known, w);
      var before := Inserted(rows, n - 1, e, known, w);
      if Fated(rows, n - 1, known, w) == Imports {
        var a := NewRow(rows, n - 1, e, w);
        assert table + (before + [a]) == (table + before) + [a];
        forall i | 0 <= i < |table + before| ensures (table + before)[i].id != a.id {
          if i >= |table| { assert before[i - |table|] in before; }
        }
      } else {
        assert before + [] == before;
      }
    }
  }

  ghost predicate NoNegativeImport(rows: seq<Row>, n: nat, known: set<string>, w: World)
    requires n <= |rows|
  {
    forall i :: 0 <= i < n && Fated(rows, i, known, w) == Imports ==> rows[i].plusOnes >= 0
  }

  /** The import checks no party: what it inserts is free of negative ones exactly when the rows it
      imports are. */
  lemma {:induction false} ImportedParties(rows: seq<Row>, n: nat, e: int, known: set<string>, w: World)
    requires n <= |rows|
    ensures NoNegativeRows(Inserted(rows, n, e, known, w)) <==> NoNegativeImport(rows, n, known, w)
  {
    hide *;
    if n == 0 {
      NothingInserted(rows, e, known, w);
    } else {
      ImportedParties(rows, n - 1, e, known, w);
      InsertedOneMore(rows, n, e, known, w);
      NoNegativeOneMore(rows, n, known, w);
      NoNegativeAppend(Inserted(rows, n - 1, e, known, w), NewRow(rows, n - 1, e, w));
    }
  }

  lemma NothingInserted(rows: seq<Row>, e: int, known: set<string>, w: World)
    ensures NoNegativeRows(Inserted(rows, 0, e, known, w)) && NoNegativeImport(rows, 0, known, w)
  {
  }

  lemma InsertedOneMore(rows: seq<Row>, n: nat, e: int, known: set<string>, w: World)
    requires 0 < n <= |rows|
    ensures var before := Inserted(rows, n - 1, e, known, w);
            Inserted(rows, n, e, known, w) == if Fated(rows, n - 1, known, w) == Imports then before + [NewRow(rows, n - 1, e, w)] else before
  {
  }

  lemma NoNegativeOneMore(rows: seq<Row>, n: nat, known: set<string>, w: World)
    requires 0 < n <= |rows|
    ensures NoNegativeImport(rows, n, known, w)
            <==> NoNegativeImport(rows, n - 1, known, w) && (Fated(rows, n - 1, known, w) == Imports ==> rows[n - 1].plusOnes >= 0)
  {
  }

  lemma NoNegativeAppend(rows: Rows, a: Attendee)
    ensures NoNegativeRows(rows + [a]) <==> NoNegativeRows(rows) && a.plusOnes >= 0
  {
    assert (rows + [a])[|rows|] == a && forall i :: 0 <= i < |rows| ==> (rows + [a])[i] == rows[i];
  }

  ghost predicate NoNegativeRows(rows: Rows) {
    forall i :: 0 <= i < |rows| ==> rows[i].plusOnes >= 0
  }

  /** An import keeps the parties of its event non-negative exactly when the rows it imports are. */
  lemma ImportKeepsPartiesExactly(table: Rows, rows: seq<Row>, e: int, known: set<string>, w: World)
    requires RsvpEffects.Sound(table, e) && NewIds(table, |rows|, w)
    ensures RsvpEffects.Sound(table + Inserted(rows, |rows|, e, known, w), e) <==> NoNegativeImport(rows, |rows|, known, w)
  {
    var added := Inserted(rows, |rows|, e, known, w);
    ImportIsImportable(table, rows, |rows|, e, known, w);
    ImportedParties(rows, |rows|, e, known, w);
    RsvpRuns.ImportKeepsSound(table, e, added);
  }

  // ---------- importing a preview ----------

  /** Row j is imported under address x. */
  predicate Takes(rows: seq<Row>, j: nat, known: set<string>, w: World, x: string)
    requires j < |rows|
  {
    Fated(rows, j, known, w) == Imports && rows[j].email != "" && w.lower(rows[j].email) == x
  }

  /** Row i of the preview repeats the address of a row imported before it. */
  ghost predicate RepeatsInBatch(rows: seq<Row>, i: nat, known: set<string>, w: World)
    requires i < |rows|
  {
    IsValid()(rows[i]) && rows[i].email != ""
    && exists j :: 0 <= j < i && Takes(rows, j, known, w, w.lower(rows[i].email))
  }

  lemma {:induction false} KnownBeforeExactly(rows: seq<Row>, n: nat, known: set<string>, w: World, x: string)
    requires n <= |rows|
    ensures x in KnownBefore(rows, n, known, w)
            <==> x in known || exists j :: 0 <= j < n && Takes(rows, j, known, w, x)
  {
    if n > 0 {
      KnownBeforeExactly(rows, n - 1, known, w, x);
      assert x in KnownBefore(rows, n, known, w) <==> x in KnownBefore(rows, n - 1, known, w) || Takes(rows, n - 1, known, w, x);
      hide *;
    }
  }

  /** A row marked in error or without a name is skipped; another one is a duplicate if its address is
      known or was taken by a row imported before it; the rest is imported unless the insert fails. */
  lemma FateExactly(rows: seq<Row>, i: nat, known: set<string>, w: World)
    requires i < |rows|
    ensures var fate := Fated(rows, i, known, w);
            var skips := rows[i].error || rows[i].name == "";
            var repeats := rows[i].email != "" && (w.lower(rows[i].email) in known
                                                   || exists j :: 0 <= j < i && Takes(rows, j, known, w, w.lower(rows[i].email)));
            && (fate == Skips <==> skips)
            && (fate == Duplicates <==> !skips && repeats)
            && (fate == Fails <==> !skips && !repeats && w.fails(i))
            && (fate == Imports <==> !skips && !repeats && !w.fails(i))
  {
    KnownBeforeExactly(rows, i, known, w, w.lower(rows[i].email));
  }

  /** A previewed row is skipped exactly when the preview found an error, and is a duplicate
      exactly when the preview said so or an earlier row of the batch took its address. */
  lemma PreviewForetellsFate(parsed: seq<Row>, p: Preview, i: nat, known: set<string>, w: World)
    requires Parsed(parsed) && IsPreview(parsed, known, w, p) && i < |parsed|
    ensures Fated(p.rows, i, known, w) == Skips <==> p.rows[i].error
    ensures Fated(p.rows, i, known, w) == Duplicates <==> IsDuplicate()(p.rows[i]) || RepeatsInBatch(p.rows, i, known, w)
  {
    assert p.rows[i] == Previewed(parsed[i], known, w);
    KnownBeforeExactly(p.rows, i, known, w, w.lower(p.rows[i].email));
  }

  ghost function BatchRepeats(rows: seq<Row>, n: nat, known: set<string>, w: World): nat
    requires n <= |rows|
  {
    if n == 0 then 0 else BatchRepeats(rows, n - 1, known, w) + if RepeatsInBatch(rows, n - 1, known, w) then 1 else 0
  }

  lemma PreviewLength(parsed: seq<Row>, p: Preview, known: set<string>, w: World)
    requires IsPreview(parsed, known, w, p)
    ensures |p.rows| == |parsed|
  {
  }

  lemma ErrorMark(row: Row)
    ensures HasError()(row) <==> row.error
    ensures IsDuplicate()(row) ==> !IsValid()(row)
  {
  }

  lemma {:induction false} PreviewForetellsTallies(parsed: seq<Row>, p: Preview, n: nat, known: set<string>, w: World)
    requires Parsed(parsed) && IsPreview(parsed, known, w, p) && n <= |parsed|
    ensures Tally(p.rows, n, known, w, Skips) == Count(p.rows[..n], HasError())
    ensures Tally(p.rows, n, known, w, Duplicates) == Count(p.rows[..n], IsDuplicate()) + BatchRepeats(p.rows, n, known, w)
  {
    if n > 0 {
      hide Count, Fated, IsPreview, RepeatsInBatch, KnownBefore, Parsed, IsDuplicate, HasError;
      PreviewForetellsTallies(parsed, p, n - 1, known, w);
      PreviewForetellsFate(parsed, p, n - 1, known, w);
      ErrorMark(p.rows[n - 1]);
      assert p.rows != [] && |p.rows| == |parsed| by { PreviewLength(parsed, p, known, w); }
      assert p.rows[..n] == p.rows[..n - 1] + [p.rows[n - 1]];
      CountAppend(p.rows[..n - 1], p.rows[n - 1], HasError());
      CountAppend(p.rows[..n - 1], p.rows[n - 1], IsDuplicate());
    }
  }

  lemma PreviewHasNoNegativeParty(parsed: seq<Row>, p: Preview, known: set<string>, w: World)
    requires Parsed(parsed) && IsPreview(parsed, known, w, p)
    ensures NoNegativeImport(p.rows, |p.rows|, known, w)
  {
  }

  /** Feeding a preview back over an unchanged table skips the error rows, and finds the
      preview's duplicates plus those within the batch. */
  lemma ImportOfPreview(parsed: seq<Row>, p: Preview, known: set<string>, w: World)
    requires Parsed(parsed) && IsPreview(parsed, known, w, p)
    ensures Tally(p.rows, |p.rows|, known, w, Skips) == p.errorRows
    ensures Tally(p.rows, |p.rows|, known, w, Duplicates) == p.duplicates + BatchRepeats(p.rows, |p.rows|, known, w)
  {
    PreviewForetellsTallies(parsed, p, |parsed|, known, w);
    assert p.rows[..|parsed|] == p.rows;
  }
}
