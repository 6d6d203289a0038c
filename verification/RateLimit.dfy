/**
 The sliding-window rate limiter of internal/security/ratelimit.go.  Times are instants of
 the monotonic clock.
 */
module RateLimit {

  /** The entries that are not before the cutoff. */
  function Kept(entries: seq<int>, cutoff: int): seq<int> {
    if entries == [] then []
    else (if entries[0] >= cutoff then [entries[0]] else []) + Kept(entries[1..], cutoff)
  }

  lemma {:induction false} KeptAppend(s: seq<int>, x: int, cutoff: int)
    ensures Kept(s + [x], cutoff) == Kept(s, cutoff) + if x >= cutoff then [x] else []
  {
    if s == [] {
      assert s + [x] == [x] && [x][1..] == [];
    } else {
      assert (s + [x])[1..] == s[1..] + [x];
      KeptAppend(s[1..], x, cutoff);
      var first := if s[0] >= cutoff then [s[0]] else [];
      assert Kept(s + [x], cutoff) == first + Kept(s[1..] + [x], cutoff);
      assert Kept(s, cutoff) == first + Kept(s[1..], cutoff);
    }
  }

  lemma KeptNone()
    ensures forall cutoff :: Kept([], cutoff) == []
  {
  }

  /** Pruning twice is pruning once with the later cutoff. */
  lemma {:induction false} KeptTwice(s: seq<int>, c: int, d: int)
    requires c <= d
    ensures Kept(Kept(s, c), d) == Kept(s, d)
  {
    if s != [] {
      KeptTwice(s[1..], c, d);
      var rest := Kept(s[1..], c);
      if s[0] >= c {
        assert ([s[0]] + rest)[1..] == rest;
      } else {
        assert Kept(s, c) == rest && Kept(s, d) == Kept(s[1..], d);
      }
    }
  }

  /** Nothing is kept exactly when every entry is before the cutoff. */
  lemma {:induction false} KeptIsEmpty(s: seq<int>, cutoff: int)
    ensures Kept(s, cutoff) == [] <==> forall i :: 0 <= i < |s| ==> s[i] < cutoff
  {
    if s != [] {
      KeptIsEmpty(s[1..], cutoff);
      assert forall i :: 1 <= i < |s| ==> s[i] == s[1..][i - 1];
    }
  }

  // ---------- the limiter as a state machine ----------

  /** Entries recorded per key. */
  type Table = map<string, seq<int>>

  datatype Operation = Allow(key: string, now: int) | Reset(key: string) | Cleanup(now: int)

  function Entries(m: Table, key: string): seq<int> {
    if key in m then m[key] else []
  }

  predicate Verdict(m: Table, key: string, now: int, limit: int, span: int) {
    |Kept(Entries(m, key), now - span)| < limit
  }

  function AfterAllow(m: Table, key: string, now: int, limit: int, span: int): Table {
    m[key := Kept(Entries(m, key), now - span) + if Verdict(m, key, now, limit, span) then [now] else []]
  }

  function AfterCleanup(m: Table, cutoff: int): Table {
    map k | k in m && Kept(m[k], cutoff) != [] :: Kept(m[k], cutoff)
  }

  function Next(m: Table, op: Operation, limit: int, span: int): Table {
    match op
    case Allow(key, now) => AfterAllow(m, key, now, limit, span)
    case Reset(key) => m - {key}
    case Cleanup(now) => AfterCleanup(m, now - span)
  }

  // ---------- the naive limiter ----------

  /** Fewer than limit of the requests on record are at most the window's length old. */
  ghost predicate NaiveVerdict(h: Table, key: string, now: int, limit: int, span: int) {
    |set i | 0 <= i < |Entries(h, key)| && now - Entries(h, key)[i] <= span| < limit
  }

  lemma {:induction false} KeptCounts(s: seq<int>, now: int, span: int)
    ensures |Kept(s, now - span)| == |set i | 0 <= i < |s| && now - s[i] <= span|
  {
    var recent := set i | 0 <= i < |s| && now - s[i] <= span;
    if s == [] {
      assert recent == {};
    } else {
      hide Kept;
      var n := |s| - 1;
      KeptCounts(s[..n], now, span);
      KeptAppend(s[..n], s[n], now - span);
      RecentAppend(s[..n], s[n], now, span);
      assert s[..n] + [s[n]] == s;
    }
  }

  lemma RecentAppend(s: seq<int>, x: int, now: int, span: int)
    ensures var t := s + [x];
            |set i | 0 <= i < |t| && now - t[i] <= span| == |set i | 0 <= i < |s| && now - s[i] <= span| + if now - x <= span then 1 else 0
  {
    var t := s + [x];
    var before := set i | 0 <= i < |s| && now - s[i] <= span;
    assert (set i | 0 <= i < |t| && now - t[i] <= span) == before + (if now - x <= span then {|s|} else {});
    assert |s| !in before;
  }

  /** Keeps every accepted request since the last reset of its key. */
  ghost function NaiveNext(h: Table, op: Operation, limit: int, span: int): Table {
    match op
    case Allow(key, now) => if NaiveVerdict(h, key, now, limit, span) then h[key := Entries(h, key) + [now]] else h
    case Reset(key) => h - {key}
    case Cleanup(_) => h
  }

  /** The tables answer alike from the given time on. */
  ghost predicate Agree(m: Table, h: Table, cutoff: int) {
    forall key, d :: d >= cutoff ==> Kept(Entries(m, key), d) == Kept(Entries(h, key), d)
  }

  ghost predicate InTime(ops: seq<Operation>, clock: int) {
    ops == [] ||
    (match ops[0]
     case Reset(_) => InTime(ops[1..], clock)
     case _ => clock <= ops[0].now && InTime(ops[1..], ops[0].now))
  }

  function ClockAfter(op: Operation, clock: int): int {
    if op.Reset? then clock else op.now
  }

  lemma VerdictsAgree(m: Table, h: Table, key: string, now: int, limit: int, span: int)
    requires Agree(m, h, now - span)
    ensures Verdict(m, key, now, limit, span) == NaiveVerdict(h, key, now, limit, span)
  {
    KeptCounts(Entries(h, key), now, span);
    assert Kept(Entries(m, key), now - span) == Kept(Entries(h, key), now - span);
  }

  lemma RecordAgrees(s: seq<int>, t: seq<int>, now: int, d: int, span: int, accepted: bool)
    requires d >= now - span && Kept(s, d) == Kept(t, d)
    ensures var added := if accepted then [now] else [];
            Kept(Kept(s, now - span) + added, d) == Kept(if accepted then t + [now] else t, d)
  {
    hide Kept;
    KeptTwice(s, now - span, d);
    KeptAppend(Kept(s, now - span), now, d);
    KeptAppend(t, now, d);
    assert Kept(s, now - span) + [] == Kept(s, now - span);
  }

  lemma CleanupAgrees(m: Table, key: string, cutoff: int, d: int)
    requires d >= cutoff
    ensures Kept(Entries(AfterCleanup(m, cutoff), key), d) == Kept(Entries(m, key), d)
  {
    KeptNone();
    hide Kept;
    KeptTwice(Entries(m, key), cutoff, d);
  }

  lemma StepAgrees(m: Table, h: Table, op: Operation, clock: int, limit: int, span: int)
    requires Agree(m, h, clock - span) && clock <= ClockAfter(op, clock)
    ensures op.Allow? ==> Verdict(m, op.key, op.now, limit, span) == NaiveVerdict(h, op.key, op.now, limit, span)
    ensures Agree(Next(m, op, limit, span), NaiveNext(h, op, limit, span), ClockAfter(op, clock) - span)
  {
    var m', h' := Next(m, op, limit, span), NaiveNext(h, op, limit, span);
    KeptNone();
    if op.Allow? { VerdictsAgree(m, h, op.key, op.now, limit, span); }
    hide Kept, Verdict, NaiveVerdict, AfterCleanup;
    forall key, d | d >= ClockAfter(op, clock) - span ensures Kept(Entries(m', key), d) == Kept(Entries(h', key), d) {
      assert Kept(Entries(m, key), d) == Kept(Entries(h, key), d);
      match op
      case Allow(k, now) => if key == k { RecordAgrees(Entries(m, k), Entries(h, k), now, d, span, Verdict(m, k, now, limit, span)); }
      case Reset(_) =>
      case Cleanup(now) => CleanupAgrees(m, key, now - span, d);
    }
  }

  function Verdicts(m: Table, ops: seq<Operation>, limit: int, span: int): seq<bool>
    decreases |ops|
  {
    if ops == [] then []
    else
      (if ops[0].Allow? then [Verdict(m, ops[0].key, ops[0].now, limit, span)] else [])
      + Verdicts(Next(m, ops[0], limit, span), ops[1..], limit, span)
  }

  ghost function NaiveVerdicts(h: Table, ops: seq<Operation>, limit: int, span: int): seq<bool>
    decreases |ops|
  {
    if ops == [] then []
    else
      (if ops[0].Allow? then [NaiveVerdict(h, ops[0].key, ops[0].now, limit, span)] else [])
      + NaiveVerdicts(NaiveNext(h, ops[0], limit, span), ops[1..], limit, span)
  }

  /** Over every run with a non-decreasing clock, whatever resets and cleanups come between, the
      limiter gives the answers of the naive one. */
  lemma {:induction false} RunAgrees(m: Table, h: Table, ops: seq<Operation>, clock: int, limit: int, span: int)
    requires Agree(m, h, clock - span) && InTime(ops, clock)
    ensures Verdicts(m, ops, limit, span) == NaiveVerdicts(h, ops, limit, span)
    decreases |ops|
  {
    if ops != [] {
      StepAgrees(m, h, ops[0], clock, limit, span);
      RunAgrees(Next(m, ops[0], limit, span), NaiveNext(h, ops[0], limit, span), ops[1..], ClockAfter(ops[0], clock), limit, span);
    }
  }

  // ---------- the bound ----------

  function CountWithin(s: seq<int>, from: int, to: int): nat {
    if s == [] then 0 else (if from <= s[0] <= to then 1 else 0) + CountWithin(s[1..], from, to)
  }

  lemma {:induction false} CountAppend(s: seq<int>, x: int, from: int, to: int)
    ensures CountWithin(s + [x], from, to) == CountWithin(s, from, to) + if from <= x <= to then 1 else 0
  {
    if s == [] {
      assert s + [x] == [x] && [x][1..] == [];
    } else {
      assert (s + [x])[1..] == s[1..] + [x];
      CountAppend(s[1..], x, from, to);
    }
  }

  lemma {:induction false} CountAtMostKept(s: seq<int>, from: int, to: int, cutoff: int)
    requires cutoff <= from
    ensures CountWithin(s, from, to) <= |Kept(s, cutoff)|
  {
    if s != [] { CountAtMostKept(s[1..], from, to, cutoff); }
  }

  /** Requests in the closed interval of the window's length that starts at `from`. */
  function Crowd(s: seq<int>, from: int, span: int): nat {
    CountWithin(s, from, from + span)
  }

  /** No closed interval of the window's length holds more than limit accepted requests. */
  ghost predicate Sliding(h: Table, limit: int, span: int) {
    forall key, from :: Crowd(Entries(h, key), from, span) <= if limit < 0 then 0 else limit
  }

  lemma StepKeepsSliding(h: Table, op: Operation, limit: int, span: int)
    requires Sliding(h, limit, span)
    ensures Sliding(NaiveNext(h, op, limit, span), limit, span)
  {
    var h' := NaiveNext(h, op, limit, span);
    forall key, from ensures Crowd(Entries(h', key), from, span) <= if limit < 0 then 0 else limit {
      assert Crowd(Entries(h, key), from, span) <= if limit < 0 then 0 else limit;
      if op.Allow? && key == op.key && NaiveVerdict(h, key, op.now, limit, span) {
        KeptCounts(Entries(h, key), op.now, span);
        CountAppend(Entries(h, key), op.now, from, from + span);
        if from <= op.now <= from + span {
          CountAtMostKept(Entries(h, key), from, from + span, op.now - span);
        }
      }
    }
  }

  ghost function History(h: Table, ops: seq<Operation>, limit: int, span: int): Table
    decreases |ops|
  {
    if ops == [] then h else History(NaiveNext(h, ops[0], limit, span), ops[1..], limit, span)
  }

  lemma {:induction false} RunKeepsSliding(h: Table, ops: seq<Operation>, limit: int, span: int)
    requires Sliding(h, limit, span)
    ensures Sliding(History(h, ops, limit, span), limit, span)
    decreases |ops|
  {
    if ops != [] {
      StepKeepsSliding(h, ops[0], limit, span);
      RunKeepsSliding(NaiveNext(h, ops[0], limit, span), ops[1..], limit, span);
    }
  }

  /** From a new limiter: the answers are those of the naive limiter, and the requests accepted
      since the last reset of a key never crowd a window. */
  lemma LimiterIsSliding(ops: seq<Operation>, clock: int, limit: int, span: int)
    requires InTime(ops, clock)
    ensures Verdicts(map[], ops, limit, span) == NaiveVerdicts(map[], ops, limit, span)
    ensures Sliding(History(map[], ops, limit, span), limit, span)
  {
    RunAgrees(map[], map[], ops, clock, limit, span);
    RunKeepsSliding(map[], ops, limit, span);
  }

  // ---------- the program ----------

  /** Compacts the first n entries in place and returns how many are kept. */
  method PruneEntries(entries: array<int>, n: nat, cutoff: int) returns (idx: nat)
    requires n <= entries.Length
    modifies entries
    ensures idx <= n && entries[..idx] == Kept(old(entries[..n]), cutoff)
  {
    idx := 0;
    for i := 0 to n
      invariant idx <= i
      invariant entries[..idx] == Kept(old(entries[..i]), cutoff)
      invariant forall j :: i <= j < n ==> entries[j] == old(entries[j])
    {
      var e := entries[i];
      assert old(entries[..i + 1]) == old(entries[..i]) + [e];
      KeptAppend(old(entries[..i]), e, cutoff);
      if !(e < cutoff) {
        entries[idx] := e;
        idx := idx + 1;
        assert entries[..idx] == entries[..idx - 1] + [e];
      }
    }
  }

  /** A slice of a growable buffer. */
  class Window {
    ghost const key: string
    var buffer: array<int>
    var n: nat

    constructor (ghost key: string)
      ensures n == 0 && fresh(buffer) && this.key == key
    {
      this.key := key;
      buffer := new int[0];
      n := 0;
    }

    method Append(t: int)
      requires n <= buffer.Length
      modifies this, buffer
      ensures n <= buffer.Length && (buffer == old(buffer) || fresh(buffer))
      ensures buffer[..n] == old(buffer[..n]) + [t]
    {
      if n == buffer.Length {
        var larger := new int[2 * n + 1];
        forall i | 0 <= i < n { larger[i] := buffer[i]; }
        assert larger[..n] == buffer[..n];
        buffer := larger;
      }
      buffer[n] := t;
      n := n + 1;
      assert buffer[..n] == buffer[..n - 1] + [t];
    }
  }

  /** Allow as the program does it: make sure there is a window, prune it, perhaps record. */
  lemma AllowInSteps(m: Table, key: string, now: int, limit: int, span: int)
    ensures var found := m[key := Entries(m, key)];
            var pruned := found[key := Kept(found[key], now - span)];
            if |pruned[key]| >= limit then !Verdict(m, key, now, limit, span) && pruned == AfterAllow(m, key, now, limit, span)
            else Verdict(m, key, now, limit, span) && pruned[key := pruned[key] + [now]] == AfterAllow(m, key, now, limit, span)
  {
    var kept := Kept(Entries(m, key), now - span);
    assert kept + [] == kept;
  }

  lemma VerdictCounts(m: Table, key: string, now: int, limit: int, span: int)
    ensures Verdict(m, key, now, limit, span) == NaiveVerdict(m, key, now, limit, span)
  {
    KeptCounts(Entries(m, key), now, span);
  }

  /** A cleanup drops a key exactly when all its entries have left the window. */
  lemma CleanupDropsExactly(m: Table, key: string, cutoff: int)
    requires key in m
    ensures key !in AfterCleanup(m, cutoff) <==> forall i :: 0 <= i < |m[key]| ==> m[key][i] < cutoff
  {
    KeptIsEmpty(m[key], cutoff);
  }

  /** The table while some keys are still to be cleaned. */
  ghost function CleanedUpTo(m: Table, todo: set<string>, cutoff: int): Table {
    map k | k in m && (k in todo || Kept(m[k], cutoff) != []) :: if k in todo then m[k] else Kept(m[k], cutoff)
  }

  lemma CleanupStarts(m: Table, cutoff: int)
    ensures CleanedUpTo(m, m.Keys, cutoff) == m
  {
  }

  lemma CleanupEnds(m: Table, cutoff: int)
    ensures CleanedUpTo(m, {}, cutoff) == AfterCleanup(m, cutoff)
  {
  }

  lemma CleanupStep(m: Table, todo: set<string>, key: string, cutoff: int)
    requires key in todo && todo <= CleanedUpTo(m, todo, cutoff).Keys
    ensures var cleaned := CleanedUpTo(m, todo, cutoff);
            var pruned := cleaned[key := Kept(cleaned[key], cutoff)];
            var next := if |pruned[key]| == 0 then pruned - {key} else pruned;
            next == CleanedUpTo(m, todo - {key}, cutoff) && todo - {key} <= next.Keys
  {
  }

  class RateLimiter {
    var windows: map<string, Window>
    const limit: int
    const span: int
    ghost var table: Table                    // the recorded entries, key by key
    ghost var owner: map<array<int>, string>  // the key a buffer belongs to
    ghost var Repr: set<object>               // windows and buffers

    /** Window k is used by key k only, its buffer by no other window, and it holds table[k]. */
    ghost predicate Valid()
      reads this, Repr
    {
      && this !in Repr && table.Keys == windows.Keys
      && forall k :: k in windows ==> Holds(k)
    }

    ghost predicate Holds(k: string)
      requires k in windows && k in table
      reads this, Repr
    {
      var w := windows[k];
      && w in Repr && w.buffer in Repr
      && w.key == k && w.buffer in owner && owner[w.buffer] == k
      && w.n <= w.buffer.Length && w.buffer[..w.n] == table[k]
    }

    lemma Apart(key: string)
      requires Valid() && key in windows
      ensures forall k :: k in windows && k != key ==> windows[k] != windows[key] && windows[k].buffer != windows[key].buffer
    {
    }

    /** A window nobody wrote to still holds its entries. */
    twostate lemma HoldsStill(k: string)
      requires k in old(windows) && k in old(table) && old(Holds(k)) && old(Repr) <= Repr
      requires k in windows && windows[k] == old(windows[k]) && k in table && table[k] == old(table[k])
      requires unchanged(windows[k]) && unchanged(windows[k].buffer)
      requires old(owner.Keys) <= owner.Keys && forall b :: b in old(owner) ==> owner[b] == old(owner[b])
      ensures Holds(k)
    {
    }

    /** What a window that holds its entries looks like, spelled out. */
    lemma HoldsMeans(k: string)
      requires k in windows && k in table
      ensures var w := windows[k];
              Holds(k) <==> w in Repr && w.buffer in Repr && w.key == k && w.buffer in owner && owner[w.buffer] == k
                            && w.n <= w.buffer.Length && w.buffer[..w.n] == table[k]
    {
    }

    constructor (limit: int, span: int)
      ensures Valid() && table == map[] && this.limit == limit && this.span == span
    {
      this.limit, this.span := limit, span;
      windows, table, owner, Repr := map[], map[], map[], {};
    }

    method Reset(key: string)
      requires Valid()
      modifies this`windows, this`table
      ensures Valid() && table == old(table) - {key} && Repr == old(Repr)
    {
      windows, table := windows - {key}, table - {key};
      assert forall k :: k in windows ==> old(Holds(k));
    }

    /** The lookup at the start of Allow: a missing key gets an empty window. */
    method WindowOf(key: string) returns (w: Window)
      requires Valid()
      modifies this
      ensures Valid() && key in windows && w == windows[key]
      ensures table == old(table)[key := Entries(old(table), key)]
      ensures fresh(Repr - old(Repr))
    {
      hide Holds;
      if key !in windows {
        w := new Window(key);
        windows, table, owner, Repr := windows[key := w], table[key := []], owner[w.buffer := key], Repr + {w, w.buffer};
        HoldsMeans(key);
        forall k | k in windows && k != key ensures Holds(k) { HoldsStill(k); }
      }
      w := windows[key];
    }

    /** Prunes the window of a key. */
    method PruneKey(key: string, cutoff: int)
      requires Valid() && key in windows
      modifies this`table, Repr
      ensures Valid() && table == old(table)[key := Kept(old(table)[key], cutoff)]
      ensures windows[key].n == |table[key]|
    {
      var w := windows[key];
      assert Holds(key);
      Apart(key);
      w.n := PruneEntries(w.buffer, w.n, cutoff);
      assert |w.buffer[..w.n]| == w.n;
      table := table[key := Kept(table[key], cutoff)];
      forall k | k in windows ensures Holds(k) {
        assert old(Holds(k));
        if k != key { HoldsStill(k); }
      }
    }

    method Record(key: string, now: int)
      requires Valid() && key in windows
      modifies this`table, this`owner, this`Repr, Repr
      ensures Valid() && table == old(table)[key := old(table)[key] + [now]] && fresh(Repr - old(Repr))
    {
      hide Holds;
      var w := windows[key];
      HoldsMeans(key);
      Apart(key);
      w.Append(now);
      table, owner, Repr := table[key := table[key] + [now]], owner[w.buffer := key], Repr + {w.buffer};
      HoldsMeans(key);
      forall k | k in windows && k != key ensures Holds(k) { HoldsStill(k); }
    }

    method Allow(key: string, now: int) returns (ok: bool)
      requires Valid()
      modifies this, Repr
      ensures Valid() && fresh(Repr - old(Repr))
      ensures ok == Verdict(old(table), key, now, limit, span) == NaiveVerdict(old(table), key, now, limit, span)
      ensures table == AfterAllow(old(table), key, now, limit, span)
    {
      hide Kept, Verdict, NaiveVerdict, AfterAllow, Holds;
      AllowInSteps(table, key, now, limit, span);
      VerdictCounts(table, key, now, limit, span);
      var cutoff := now - span;
      var w := WindowOf(key);
      PruneKey(key, cutoff);
      if windows[key].n >= limit {
        return false;
      }
      Record(key, now);
      ok := true;
    }

    /** Prunes every window and drops the keys whose window is empty. */
    method Cleanup(now: int)
      requires Valid()
      modifies this, Repr
      ensures Valid() && Repr == old(Repr)
      ensures table == AfterCleanup(old(table), now - span)
    {
      hide Kept, Holds, AfterCleanup, CleanedUpTo;
      var cutoff := now - span;
      var todo := windows.Keys;
      CleanupStarts(table, cutoff);
      while todo != {}
        invariant Valid() && todo <= windows.Keys
        invariant Repr == old(Repr)
        invariant table == CleanedUpTo(old(table), todo, cutoff)
        decreases |todo|
      {
        var key :| key in todo;
        CleanupStep(old(table), todo, key, cutoff);
        PruneKey(key, cutoff);
        if windows[key].n == 0 {
          Reset(key);
        }
        todo := todo - {key};
      }
      CleanupEnds(old(table), cutoff);
    }
  }
}
