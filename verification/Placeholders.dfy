/**
 The SQL placeholder rewriter of internal/database/rewrite.go and the IN-clause
 builder of internal/auth/store.go.  A query is a sequence of octets, written as
 characters; nothing below depends on the range of a character.
 */
module Placeholders {
  import opened Wrappers

  /** How the lexer reads one octet.  `BlockEnd` is the '/' of a closing star-slash,
      which the program consumes together with the star. */
  datatype Context = Normal | SingleQuote | DoubleQuote | LineComment | BlockComment | BlockEnd

  predicate Peek(q: string, c: char) {
    1 < |q| && q[1] == c
  }

  /** The context of q[1], given the context of q[0]. */
  function Step(ctx: Context, q: string): Context
    requires q != []
  {
    match ctx
    case Normal =>
      if q[0] == '\'' then SingleQuote
      else if q[0] == '"' then DoubleQuote
      else if q[0] == '-' && Peek(q, '-') then LineComment
      else if q[0] == '/' && Peek(q, '*') then BlockComment
      else Normal
    case SingleQuote => if q[0] == '\'' then Normal else SingleQuote
    case DoubleQuote => if q[0] == '"' then Normal else DoubleQuote
    case LineComment => if q[0] == '\n' then Normal else LineComment
    case BlockComment => if q[0] == '*' && Peek(q, '/') then BlockEnd else BlockComment
    case BlockEnd => Normal
  }

  /** The context of every octet of q, when q[0] is read in ctx. */
  function Contexts(q: string, ctx: Context): (cs: seq<Context>)
    ensures |cs| == |q|
  {
    if q == [] then [] else [ctx] + Contexts(q[1..], Step(ctx, q))
  }

  /** The context in which an octet appended to q would be read. */
  function EndContext(q: string, ctx: Context): Context {
    if q == [] then ctx else EndContext(q[1..], Step(ctx, q))
  }

  /** The star that opens a block comment is read again: slash-star-slash is a whole comment
      here, although SQL still waits for its end. */
  lemma SlashStarSlashIsClosed(s: string)
    ensures EndContext(['/', '*', '/'] + s, Normal) == EndContext(s, Normal)
  {
    var q := ['/', '*', '/'] + s;
    assert q[1..] == ['*', '/'] + s && q[1..][1..] == ['/'] + s && q[1..][1..][1..] == s;
    assert EndContext(q, Normal) == EndContext(q[1..], BlockComment);
    assert EndContext(q[1..], BlockComment) == EndContext(q[1..][1..], BlockEnd);
  }

  // ---------- decimal numerals ----------

  function Digit(d: nat): char
    requires d < 10
  {
    '0' + d as char
  }

  predicate IsDigit(c: char) {
    '0' <= c <= '9'
  }

  /** The numeral strconv.Itoa writes for a non-negative number. */
  function Decimal(n: nat): (s: string)
    ensures s != [] && forall i :: 0 <= i < |s| ==> IsDigit(s[i])
  {
    if n < 10 then [Digit(n)] else Decimal(n / 10) + [Digit(n % 10)]
  }

  function Value(s: string): nat
    requires forall i :: 0 <= i < |s| ==> IsDigit(s[i])
  {
    if s == [] then 0 else
      assert IsDigit(s[|s| - 1]);
      10 * Value(s[..|s| - 1]) + (s[|s| - 1] as int - '0' as int)
  }

  lemma {:induction false} DecimalDenotes(n: nat)
    ensures Value(Decimal(n)) == n && (Decimal(n)[0] == '0' ==> n == 0 && Decimal(n) == "0")
  {
    if n >= 10 {
      DecimalDenotes(n / 10);
      assert Decimal(n)[..|Decimal(n)| - 1] == Decimal(n / 10);
    }
  }

  // ---------- the specification ----------

  /** Octet i of q is a placeholder. */
  ghost predicate IsMark(q: string, i: nat)
    requires i < |q|
  {
    q[i] == '?' && Contexts(q, Normal)[i] == Normal
  }

  ghost function MarksBefore(q: string, i: nat): nat
    requires i <= |q|
  {
    if i == 0 then 0 else MarksBefore(q, i - 1) + if IsMark(q, i - 1) then 1 else 0
  }

  ghost function Piece(q: string, i: nat): string
    requires i < |q|
  {
    if IsMark(q, i) then "$" + Decimal(MarksBefore(q, i) + 1) else [q[i]]
  }

  /** The pieces of q from octet i on, side by side. */
  ghost function PiecesFrom(q: string, i: nat): string
    requires i <= |q|
    decreases |q| - i
  {
    if i == |q| then "" else Piece(q, i) + PiecesFrom(q, i + 1)
  }

  /** The k-th placeholder becomes $k and every other octet stays. */
  ghost function Rewritten(q: string): string {
    PiecesFrom(q, 0)
  }

  // ---------- the same text computed from the front ----------

  predicate MarkAtFront(q: string, ctx: Context) {
    q != [] && ctx == Normal && q[0] == '?'
  }

  function Render(q: string, ctx: Context, n: nat): string {
    if q == [] then ""
    else if MarkAtFront(q, ctx) then "$" + Decimal(n + 1) + Render(q[1..], Normal, n + 1)
    else [q[0]] + Render(q[1..], Step(ctx, q), n)
  }

  function Marks(q: string, ctx: Context): nat {
    if q == [] then 0
    else (if MarkAtFront(q, ctx) then 1 else 0) + Marks(q[1..], Step(ctx, q))
  }

  lemma {:induction false} ContextsFrom(q: string, ctx: Context, i: nat)
    requires i < |q|
    ensures Contexts(q, ctx)[i..] == Contexts(q[i..], Contexts(q, ctx)[i])
    decreases i
  {
    if i == 0 {
      assert q[0..] == q && Contexts(q, ctx)[0..] == Contexts(q, ctx);
    } else {
      var next := Step(ctx, q);
      ContextsFrom(q[1..], next, i - 1);
      assert q[1..][i - 1..] == q[i..];
      assert Contexts(q, ctx)[i..] == Contexts(q[1..], next)[i - 1..];
    }
  }

  lemma {:induction false} RenderIsPieces(q: string, i: nat)
    requires i < |q|
    ensures PiecesFrom(q, i) == Render(q[i..], Contexts(q, Normal)[i], MarksBefore(q, i))
    decreases |q| - i
  {
    var cs := Contexts(q, Normal);
    assert q[i..][1..] == q[i + 1..];
    if i + 1 < |q| {
      RenderIsPieces(q, i + 1);
      ContextsFrom(q, Normal, i);
      assert cs[i + 1] == cs[i..][1] == Contexts(q[i..], cs[i])[1] == Step(cs[i], q[i..]);
    } else {
      assert PiecesFrom(q, i + 1) == "" && q[i + 1..] == "";
    }
  }

  lemma RewrittenIsRender(q: string)
    ensures Rewritten(q) == Render(q, Normal, 0)
  {
    if q != [] {
      RenderIsPieces(q, 0);
      assert q[0..] == q;
    }
  }

  // ---------- the program ----------

  /** The text produced for the first i octets: no buffer means they are unchanged. */
  function Written(b: Option<string>, query: string, i: nat): string
    requires i <= |query|
  {
    if b.Some? then b.value else query[..i]
  }

  /** Appends octet i to the output buffer when one exists. */
  function Emit(b: Option<string>, query: string, i: nat): (b': Option<string>)
    requires i < |query|
    ensures Written(b', query, i + 1) == Written(b, query, i) + [query[i]]
  {
    if b.Some? then Some(b.value + [query[i]]) else
      assert query[..i + 1] == query[..i] + [query[i]];
      b
  }

  /** The text written for the first i octets, followed by the rewriting of the rest,
      is the specified text. */
  ghost predicate OnTrack(q: string, b: Option<string>, i: nat, ctx: Context, n: nat)
    requires i <= |q|
  {
    Rewritten(q) == Written(b, q, i) + Render(q[i..], ctx, n)
  }

  lemma KeepOctet(q: string, b: Option<string>, i: nat, ctx: Context, n: nat)
    requires i < |q| && OnTrack(q, b, i, ctx, n) && !MarkAtFront(q[i..], ctx)
    ensures OnTrack(q, Emit(b, q, i), i + 1, Step(ctx, q[i..]), n)
  {
  }

  lemma NumberOctet(q: string, b: Option<string>, i: nat, n: nat)
    requires i < |q| && OnTrack(q, b, i, Normal, n) && q[i] == '?'
    ensures OnTrack(q, Some(Written(b, q, i) + "$" + Decimal(n + 1)), i + 1, Normal, n + 1)
  {
  }

  lemma AllWritten(q: string, b: Option<string>, ctx: Context, n: nat)
    requires OnTrack(q, b, |q|, ctx, n)
    ensures Rewritten(q) == Written(b, q, |q|)
  {
  }

  method RewritePlaceholders(query: string) returns (out: string)
    ensures out == Rewritten(query)
  {
    var state, n, i := Normal, 0, 0;
    var b: Option<string> := None;  // nothing rewritten yet
    hide Rewritten, Render, Decimal;
    assert OnTrack(query, b, 0, Normal, 0) by {
      RewrittenIsRender(query);
      assert query[0..] == query;
    }
    while i < |query|
      invariant 0 <= i <= |query| && state != BlockEnd
      invariant b.None? ==> n == 0
      invariant OnTrack(query, b, i, state, n)
    {
      var c := query[i];
      if state == Normal && c == '?' {
        NumberOctet(query, b, i, n);
        n := n + 1;
        if b == None {
          b := Some(query[..i]);
        }
        b := Some(b.value + "$");
        b := Some(b.value + Decimal(n));
        i := i + 1;
        continue;
      }
      KeepOctet(query, b, i, state, n);
      match state {
        case Normal =>
          if c == '\'' {
            state := SingleQuote;
          } else if c == '"' {
            state := DoubleQuote;
          } else if c == '-' && i + 1 < |query| && query[i + 1] == '-' {
            state := LineComment;
          } else if c == '/' && i + 1 < |query| && query[i + 1] == '*' {
            state := BlockComment;
          }
        case SingleQuote =>
          if c == '\'' { state := Normal; }
        case DoubleQuote =>
          if c == '"' { state := Normal; }
        case LineComment =>
          if c == '\n' { state := Normal; }
        case BlockComment =>
          if c == '*' && i + 1 < |query| && query[i + 1] == '/' {
            b := Emit(b, query, i);
            i := i + 1;
            KeepOctet(query, b, i, BlockEnd, n);
            state := Normal;
          }
      }
      b := Emit(b, query, i);
      i := i + 1;
    }
    AllWritten(query, b, state, n);
    assert query[..i] == query;
    out := if b == None then query else b.value;
  }

  // ---------- lexing is preserved ----------

  ghost function Repeat(ctx: Context, k: nat): (r: seq<Context>)
    ensures |r| == k
  {
    seq(k, _ => ctx)
  }

  /** The contexts of q with the context of each placeholder repeated over its numeral. */
  ghost function Stretched(q: string, ctx: Context, n: nat): seq<Context> {
    if q == [] then []
    else if MarkAtFront(q, ctx) then
      Repeat(Normal, 1 + |Decimal(n + 1)|) + Stretched(q[1..], Normal, n + 1)
    else [ctx] + Stretched(q[1..], Step(ctx, q), n)
  }

  /** No octet of s leaves the normal context. */
  predicate Inert(s: string) {
    forall i :: 0 <= i < |s| ==> s[i] == '$' || IsDigit(s[i])
  }

  lemma {:induction false} InertPrefix(s: string, rest: string)
    requires Inert(s)
    ensures Contexts(s + rest, Normal) == Repeat(Normal, |s|) + Contexts(rest, Normal)
    ensures Marks(s + rest, Normal) == Marks(rest, Normal)
    ensures EndContext(s + rest, Normal) == EndContext(rest, Normal)
  {
    if s == [] {
      assert s + rest == rest;
    } else {
      InertPrefix(s[1..], rest);
      assert (s + rest)[1..] == s[1..] + rest;
      assert Repeat(Normal, |s|) == [Normal] + Repeat(Normal, |s| - 1);
    }
  }

  /** Whatever a lookahead can test for, it sees the same octet in q and in its rendering. */
  lemma LookaheadPreserved(q: string, ctx: Context, n: nat, c: char)
    requires q != [] && c in {'-', '*', '/'} && !MarkAtFront(q, ctx)
    ensures Peek(q, c) == Peek([q[0]] + Render(q[1..], Step(ctx, q), n), c)
  {
  }

  /** Re-lexing the rewritten text visits the contexts of the original and meets no placeholder. */
  lemma {:induction false} Relex(q: string, ctx: Context, n: nat)
    ensures Contexts(Render(q, ctx, n), ctx) == Stretched(q, ctx, n)
    ensures Marks(Render(q, ctx, n), ctx) == 0
    ensures EndContext(Render(q, ctx, n), ctx) == EndContext(q, ctx)
  {
    if q == [] {
    } else if MarkAtFront(q, ctx) {
      var numeral, rest := "$" + Decimal(n + 1), Render(q[1..], Normal, n + 1);
      Relex(q[1..], Normal, n + 1);
      InertPrefix(numeral, rest);
      assert Render(q, ctx, n) == numeral + rest;
    } else {
      var next := Step(ctx, q);
      var rest := Render(q[1..], next, n);
      var r := [q[0]] + rest;
      Relex(q[1..], next, n);
      assert r[1..] == rest;
      LookaheadPreserved(q, ctx, n, '-');
      LookaheadPreserved(q, ctx, n, '*');
      LookaheadPreserved(q, ctx, n, '/');
      assert Step(ctx, r) == next;
    }
  }

  lemma {:induction false} RenderWithoutMarks(q: string, ctx: Context, n: nat)
    requires Marks(q, ctx) == 0
    ensures Render(q, ctx, n) == q
  {
    if q != [] {
      RenderWithoutMarks(q[1..], Step(ctx, q), n);
    }
  }

  lemma RewriteIsIdempotent(q: string)
    ensures Rewritten(Rewritten(q)) == Rewritten(q)
    ensures Contexts(Rewritten(q), Normal) == Stretched(q, Normal, 0)
  {
    RewrittenIsRender(q);
    RewrittenIsRender(Rewritten(q));
    Relex(q, Normal, 0);
    RenderWithoutMarks(Rewritten(q), Normal, 0);
  }

  // ---------- rewriting can be undone ----------

  function DropDigits(s: string): (r: string)
    ensures |r| <= |s|
  {
    if s != [] && IsDigit(s[0]) then DropDigits(s[1..]) else s
  }

  predicate DollarNumber(s: string, ctx: Context) {
    ctx == Normal && 1 < |s| && s[0] == '$' && IsDigit(s[1])
  }

  /** Turns every $digits read in normal context back into a question mark. */
  function Restore(s: string, ctx: Context): string
    decreases |s|
  {
    if s == [] then ""
    else if DollarNumber(s, ctx) then "?" + Restore(DropDigits(s[1..]), Normal)
    else [s[0]] + Restore(s[1..], Step(ctx, s))
  }

  /** In normal context, neither a dollar sign nor a placeholder is followed by a digit. */
  predicate Restorable(q: string, ctx: Context) {
    q == [] ||
    (!(ctx == Normal && 1 < |q| && q[0] in {'$', '?'} && IsDigit(q[1])) && Restorable(q[1..], Step(ctx, q)))
  }

  lemma {:induction false} DropNumeral(s: string, rest: string)
    requires forall i :: 0 <= i < |s| ==> IsDigit(s[i])
    ensures DropDigits(s + rest) == DropDigits(rest)
  {
    if s == [] {
      assert s + rest == rest;
    } else {
      assert (s + rest)[1..] == s[1..] + rest;
      DropNumeral(s[1..], rest);
    }
  }

  /** A run of digits in the query that follows a numeral is swallowed with it. */
  lemma {:induction false} RestoreAfterDigits(q: string, n: nat)
    ensures |Restore(DropDigits(Render(q, Normal, n)), Normal)| <= |q|
    ensures q != [] && IsDigit(q[0]) ==> |Restore(DropDigits(Render(q, Normal, n)), Normal)| < |q|
    decreases |q|, 1
  {
    if q != [] && IsDigit(q[0]) {
      var r := Render(q, Normal, n);
      assert r[1..] == Render(q[1..], Normal, n);
      RestoreAfterDigits(q[1..], n);
    } else {
      var r := Render(q, Normal, n);
      assert q != [] ==> r[0] == '$' || r[0] == q[0];
      assert DropDigits(r) == r;
      RestoreExactly(q, Normal, n);
    }
  }

  /** What RestoreExactly says of one query. */
  ghost predicate RestoresExactly(q: string, ctx: Context, n: nat) {
    var back := Restore(Render(q, ctx, n), ctx);
    && |back| <= |q|
    && (Restorable(q, ctx) ==> back == q)
    && (!Restorable(q, ctx) ==> |back| < |q|)
  }

  lemma RestoreNumeral(numeral: string, rest: string)
    requires numeral != [] && forall i :: 0 <= i < |numeral| ==> IsDigit(numeral[i])
    ensures Restore("$" + numeral + rest, Normal) == "?" + Restore(DropDigits(rest), Normal)
  {
    hide Restore, DropDigits;
    var r := "$" + numeral + rest;
    assert r[1..] == numeral + rest && r[1] == numeral[0];
    DropNumeral(numeral, rest);
    RestoreDollar(r);
  }

  lemma RestoreDollar(s: string)
    requires DollarNumber(s, Normal)
    ensures Restore(s, Normal) == "?" + Restore(DropDigits(s[1..]), Normal)
  {
  }

  lemma RestoreMark(q: string, n: nat)
    requires MarkAtFront(q, Normal) && RestoresExactly(q[1..], Normal, n + 1)
    requires var back := Restore(DropDigits(Render(q[1..], Normal, n + 1)), Normal);
             |back| <= |q| - 1 && (1 < |q| && IsDigit(q[1]) ==> |back| < |q| - 1)
    ensures RestoresExactly(q, Normal, n)
  {
    var numeral, rest := Decimal(n + 1), Render(q[1..], Normal, n + 1);
    var r := Render(q, Normal, n);
    RestoreNumeral(numeral, rest);
    assert r == "$" + numeral + rest;
    if !(1 < |q| && IsDigit(q[1])) {
      assert DropDigits(rest) == rest;
      assert q == "?" + q[1..];
    }
  }

  lemma RestoreOther(q: string, ctx: Context, n: nat)
    requires q != [] && !MarkAtFront(q, ctx) && RestoresExactly(q[1..], Step(ctx, q), n)
    requires ctx == Normal && 1 < |q| && IsDigit(q[1]) ==>
               |Restore(DropDigits(Render(q[1..], Normal, n)), Normal)| < |q| - 1
    ensures RestoresExactly(q, ctx, n)
  {
  }

  /** Undoing a rewrite gives the query itself when it is restorable and a shorter text
      when it is not. */
  lemma {:induction false} RestoreExactly(q: string, ctx: Context, n: nat)
    ensures RestoresExactly(q, ctx, n)
    decreases |q|, 0
  {
    if q == [] {
    } else if MarkAtFront(q, ctx) {
      RestoreAfterDigits(q[1..], n + 1);
      RestoreExactly(q[1..], Normal, n + 1);
      RestoreMark(q, n);
    } else {
      RestoreExactly(q[1..], Step(ctx, q), n);
      if ctx == Normal && 1 < |q| && IsDigit(q[1]) {
        RestoreAfterDigits(q[1..], n);
      }
      RestoreOther(q, ctx, n);
    }
  }

  lemma RewriteRoundTrip(q: string)
    ensures Restore(Rewritten(q), Normal) == q <==> Restorable(q, Normal)
  {
    RewrittenIsRender(q);
    RestoreExactly(q, Normal, 0);
  }

  // ---------- composition with IN clauses ----------

  /** The lookahead never pairs the last octet of a with the first of b. */
  predicate Seam(a: string, b: string) {
    a == [] || b == [] || a[|a| - 1] !in {'-', '*', '/'} || b[0] !in {'-', '*', '/'}
  }

  lemma Associative(a: string, b: string, c: string)
    ensures a + (b + c) == (a + b) + c
  {
  }

  function Front(q: string, ctx: Context, n: nat): string
    requires q != []
  {
    if MarkAtFront(q, ctx) then "$" + Decimal(n + 1) else [q[0]]
  }

  lemma RenderFront(q: string, ctx: Context, n: nat)
    requires q != []
    ensures var mark := MarkAtFront(q, ctx);
            Render(q, ctx, n) == Front(q, ctx, n) + Render(q[1..], Step(ctx, q), n + if mark then 1 else 0)
            && Marks(q, ctx) == (if mark then 1 else 0) + Marks(q[1..], Step(ctx, q))
            && EndContext(q, ctx) == EndContext(q[1..], Step(ctx, q))
  {
  }

  lemma FrontOfConcat(a: string, b: string, ctx: Context)
    requires a != [] && Seam(a, b)
    ensures (a + b)[0] == a[0] && (a + b)[1..] == a[1..] + b && Seam(a[1..], b)
    ensures Step(ctx, a + b) == Step(ctx, a) && MarkAtFront(a + b, ctx) == MarkAtFront(a, ctx)
    ensures forall n: nat :: Front(a + b, ctx, n) == Front(a, ctx, n)
  {
  }

  lemma {:induction false} RenderConcat(a: string, b: string, ctx: Context, n: nat)
    requires Seam(a, b)
    ensures Render(a + b, ctx, n) == Render(a, ctx, n) + Render(b, EndContext(a, ctx), n + Marks(a, ctx))
  {
    if a == [] {
      assert a + b == b;
    } else {
      hide *;
      FrontOfConcat(a, b, ctx);
      RenderFront(a + b, ctx, n);
      RenderFront(a, ctx, n);
      var first, n' := Front(a, ctx, n), n + if MarkAtFront(a, ctx) then 1 else 0;
      RenderConcat(a[1..], b, Step(ctx, a), n');
      Associative(first, Render(a[1..], Step(ctx, a), n'), Render(b, EndContext(a, ctx), n + Marks(a, ctx)));
    }
  }

  /** k question marks separated by commas. */
  ghost function Slots(k: nat): string {
    if k == 0 then "" else if k == 1 then "?" else Slots(k - 1) + ",?"
  }

  /** $(n+1),...,$(n+k) separated by commas. */
  ghost function Numbered(n: nat, k: nat): string {
    if k == 0 then ""
    else if k == 1 then "$" + Decimal(n + 1)
    else Numbered(n, k - 1) + ",$" + Decimal(n + k)
  }

  method InClause<T>(ids: seq<T>) returns (clause: string, args: array<T>)
    ensures clause == Clause(|ids|)
    ensures args[..] == ids && fresh(args)
  {
    var placeholders := "";
    args := new T[|ids|](i requires 0 <= i < |ids| => ids[i]);
    for i := 0 to |ids|
      invariant placeholders == Slots(i)
      invariant args[..i] == ids[..i]
    {
      if i > 0 {
        placeholders := placeholders + [','];
      }
      placeholders := placeholders + ['?'];
      args[i] := ids[i];
      assert args[..i + 1] == ids[..i + 1];
    }
    assert args[..] == args[..|ids|] && ids[..|ids|] == ids;
    clause := "(" + placeholders + ")";
  }

  lemma RenderMark(n: nat)
    ensures Render("?", Normal, n) == "$" + Decimal(n + 1) && Marks("?", Normal) == 1 && EndContext("?", Normal) == Normal
  {
  }

  lemma RenderCommaMark(n: nat)
    ensures Render(",?", Normal, n) == ",$" + Decimal(n + 1) && Marks(",?", Normal) == 1 && EndContext(",?", Normal) == Normal
  {
    RenderMark(n);
    RenderFront(",?", Normal, n);
    hide Render, Decimal, EndContext, Marks;
    assert ",?"[1..] == "?";
    assert "," + ("$" + Decimal(n + 1)) == ",$" + Decimal(n + 1);
  }

  lemma {:induction false} RenderSlots(k: nat, n: nat)
    ensures Render(Slots(k), Normal, n) == Numbered(n, k)
    ensures Marks(Slots(k), Normal) == k && EndContext(Slots(k), Normal) == Normal
  {
    if k == 1 {
      RenderMark(n);
    } else if k > 1 {
      RenderSlots(k - 1, n);
      RenderCommaMark(n + k - 1);
      hide Render, Decimal, EndContext, Marks;
      RenderConcat(Slots(k - 1), ",?", Normal, n);
      MarksConcat(Slots(k - 1), ",?", Normal);
    }
  }

  lemma {:induction false} MarksConcat(a: string, b: string, ctx: Context)
    requires Seam(a, b)
    ensures Marks(a + b, ctx) == Marks(a, ctx) + Marks(b, EndContext(a, ctx))
    ensures EndContext(a + b, ctx) == EndContext(b, EndContext(a, ctx))
  {
    if a == [] {
      assert a + b == b;
    } else {
      assert (a + b)[1..] == a[1..] + b;
      assert Step(ctx, a + b) == Step(ctx, a);
      MarksConcat(a[1..], b, Step(ctx, a));
    }
  }

  lemma RenderOneOctet(c: char, n: nat)
    requires c in {'(', ')'}
    ensures Render([c], Normal, n) == [c] && Marks([c], Normal) == 0 && EndContext([c], Normal) == Normal
  {
  }

  ghost function Clause(k: nat): string {
    "(" + Slots(k) + ")"
  }

  lemma RenderClause(k: nat, n: nat)
    ensures Render(Clause(k), Normal, n) == "(" + Numbered(n, k) + ")"
    ensures Marks(Clause(k), Normal) == k && EndContext(Clause(k), Normal) == Normal
  {
    var slots := Slots(k);
    RenderOneOctet('(', n);
    RenderOneOctet(')', n + k);
    RenderSlots(k, n);
    RenderConcat("(", slots, Normal, n);
    MarksConcat("(", slots, Normal);
    RenderConcat("(" + slots, ")", Normal, n);
    MarksConcat("(" + slots, ")", Normal);
  }

  /** An IN clause placed where the query is in normal context after p placeholders gets
      the numbers p+1 to p+k, and the rest of the query is numbered from p+k+1. */
  lemma InClausePlacement(prefix: string, k: nat, suffix: string)
    requires EndContext(prefix, Normal) == Normal
    ensures var p := Marks(prefix, Normal);
            Rewritten(prefix + (Clause(k) + suffix))
            == Rewritten(prefix) + (("(" + Numbered(p, k) + ")") + Render(suffix, Normal, p + k))
  {
    var p := Marks(prefix, Normal);
    RenderClause(k, p);
    RewrittenIsRender(prefix + (Clause(k) + suffix));
    RewrittenIsRender(prefix);
    hide Render, Rewritten, EndContext, Marks, Slots, Numbered, Decimal;
    RenderConcat(Clause(k), suffix, Normal, p);
    RenderConcat(prefix, Clause(k) + suffix, Normal, 0);
  }
}
