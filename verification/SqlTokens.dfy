/**
 Queries as lists of tokens: quoted literals, comments and single octets.  The rewriter of
 internal/database/rewrite.go numbers the question marks that are tokens of their own and copies
 every other token.  Nothing here refers to the states of its lexer.
 */
module SqlTokens {
  import opened Wrappers
  import opened Placeholders

  /** `Unclosed` is a literal or comment that the end of the query cuts off. */
  datatype Token = Octet(c: char) | Quoted(quote: char, body: string) | LineNote(body: string) | BlockNote(body: string) | Unclosed(text: string)

  function Text(t: Token): string {
    match t
    case Octet(c) => [c]
    case Quoted(quote, body) => [quote] + body + [quote]
    case LineNote(body) => "--" + body + "\n"
    case BlockNote(body) => "/" + body + "*/"
    case Unclosed(text) => text
  }

  /** No star of s is followed by a slash. */
  predicate NoClose(s: string) {
    forall i :: 0 <= i < |s| - 1 ==> !(s[i] == '*' && s[i + 1] == '/')
  }

  predicate StartsWith(s: string, prefix: string) {
    prefix <= s
  }

  /** A literal holds no quote of its kind, a line comment no newline and a block comment no closing
      star-slash; the star that opens a block comment may be the one that closes it. */
  predicate TokenOk(t: Token) {
    match t
    case Octet(c) => c !in {'\'', '"'}
    case Quoted(quote, body) => quote in {'\'', '"'} && quote !in body
    case LineNote(body) => '\n' !in body
    case BlockNote(body) => (body == "" || body[0] == '*') && NoClose(body + "*")
    case Unclosed(text) =>
      || (text != "" && text[0] in {'\'', '"'} && text[0] !in text[1..])
      || (StartsWith(text, "--") && '\n' !in text)
      || (StartsWith(text, "/*") && NoClose(text[1..]))
  }

  /** Side by side the two are not the opening of a comment. */
  predicate Separate(t: Token, next: Token) {
    && !t.Unclosed?
    && !(t == Octet('-') && StartsWith(Text(next), "-"))
    && !(t == Octet('/') && StartsWith(Text(next), "*"))
  }

  predicate Tokens(ts: seq<Token>) {
    && (forall i :: 0 <= i < |ts| ==> TokenOk(ts[i]))
    && (forall i :: 0 <= i < |ts| - 1 ==> Separate(ts[i], ts[i + 1]))
  }

  function Join(ts: seq<Token>): string {
    if ts == [] then "" else Text(ts[0]) + Join(ts[1..])
  }

  /** The text with the question marks numbered from n+1 on. */
  function Numbered(ts: seq<Token>, n: nat): string {
    if ts == [] then ""
    else if ts[0] == Octet('?') then "$" + Decimal(n + 1) + Numbered(ts[1..], n + 1)
    else Text(ts[0]) + Numbered(ts[1..], n)
  }

  // ---------- the rewriter copies literals and comments ----------

  /** Rewriting s after `text`, both from normal context, leaves `text` as it is. */
  ghost predicate Copies(text: string, s: string) {
    && EndContext(text + s, Normal) == EndContext(s, Normal)
    && forall n :: Render(text + s, Normal, n) == text + Render(s, Normal, n)
  }

  /** Octets that do not end the context they are read in. */
  predicate Stays(ctx: Context, body: string, rest: string) {
    match ctx
    case Normal => false
    case SingleQuote => '\'' !in body
    case DoubleQuote => '"' !in body
    case LineComment => '\n' !in body
    case BlockComment => forall i :: 0 <= i < |body| && body[i] == '*' ==> i + 1 < |body + rest| ==> (body + rest)[i + 1] != '/'
    case BlockEnd => false
  }

  lemma {:induction false} StaysInside(ctx: Context, body: string, rest: string, n: nat)
    requires Stays(ctx, body, rest)
    ensures Render(body + rest, ctx, n) == body + Render(rest, ctx, n)
    ensures EndContext(body + rest, ctx) == EndContext(rest, ctx)
  {
    if body == "" {
      assert body + rest == rest;
    } else {
      var q := body + rest;
      assert q[1..] == body[1..] + rest;
      assert Step(ctx, q) == ctx;
      forall i | 0 <= i < |body[1..]| && body[1..][i] == '*' && i + 1 < |body[1..] + rest| ensures ctx == BlockComment ==> (body[1..] + rest)[i + 1] != '/' {
        assert body[1..][i] == body[i + 1] && (body[1..] + rest)[i + 1] == q[i + 2];
      }
      StaysInside(ctx, body[1..], rest, n);
      assert body == [body[0]] + body[1..];
    }
  }

  lemma LiteralIsCopied(quote: char, body: string, s: string)
    requires quote in {'\'', '"'} && quote !in body
    ensures Copies([quote] + body + [quote], s)
  {
    var inside := if quote == '\'' then SingleQuote else DoubleQuote;
    var q := [quote] + body + [quote] + s;
    var rest := [quote] + s;
    assert q[1..] == body + rest && rest[1..] == s;
    forall n ensures Render(q, Normal, n) == [quote] + body + [quote] + Render(s, Normal, n) {
      StaysInside(inside, body, rest, n);
    }
    StaysInside(inside, body, rest, 0);
  }

  lemma LineNoteIsCopied(body: string, s: string)
    requires '\n' !in body
    ensures Copies("--" + body + "\n", s)
  {
    var q := "--" + body + "\n" + s;
    var rest := "\n" + s;
    assert q[1..] == ("-" + body) + rest && rest[1..] == s;
    assert '\n' !in "-" + body;
    forall n ensures Render(q, Normal, n) == "--" + body + "\n" + Render(s, Normal, n) {
      StaysInside(LineComment, "-" + body, rest, n);
    }
    StaysInside(LineComment, "-" + body, rest, 0);
  }

  lemma BlockNoteIsCopied(body: string, s: string)
    requires (body == "" || body[0] == '*') && NoClose(body + "*")
    ensures Copies("/" + body + "*/", s)
  {
    forall n
      ensures Render("/" + body + "*/" + s, Normal, n) == "/" + body + "*/" + Render(s, Normal, n)
    {
      BlockNoteRead(body, s, n);
    }
    BlockNoteRead(body, s, 0);
  }

  lemma BlockNoteRead(body: string, s: string, n: nat)
    requires (body == "" || body[0] == '*') && NoClose(body + "*")
    ensures Render("/" + body + "*/" + s, Normal, n) == "/" + body + "*/" + Render(s, Normal, n)
    ensures EndContext("/" + body + "*/" + s, Normal) == EndContext(s, Normal)
  {
    hide Render, EndContext, Stays;
    var rest := "*/" + s;
    StaysInBlock(body, rest);
    hide NoClose;
    assert "/" + body + "*/" + s == "/" + (body + rest);
    BlockStarts(body + rest, n);
    StaysInside(BlockComment, body, rest, n);
    BlockEnds(s, n);
  }

  lemma BlockStarts(s: string, n: nat)
    requires s != "" && s[0] == '*'
    ensures Render("/" + s, Normal, n) == "/" + Render(s, BlockComment, n)
    ensures EndContext("/" + s, Normal) == EndContext(s, BlockComment)
  {
    assert ("/" + s)[1..] == s;
  }

  lemma BlockEnds(s: string, n: nat)
    ensures Render("*/" + s, BlockComment, n) == "*/" + Render(s, Normal, n)
    ensures EndContext("*/" + s, BlockComment) == EndContext(s, Normal)
  {
    var rest := "*/" + s;
    assert rest[1..] == "/" + s && rest[1..][1..] == s;
  }

  lemma StaysInBlock(body: string, rest: string)
    requires NoClose(body + "*") && rest != "" && rest[0] == '*'
    ensures Stays(BlockComment, body, rest)
  {
    forall i | 0 <= i < |body| && body[i] == '*' ensures (body + rest)[i + 1] != '/' {
      var starred := body + "*";
      assert starred[i] == '*' && starred[i + 1] == (body + rest)[i + 1];
    }
  }

  lemma UnclosedIsCopied(text: string)
    requires TokenOk(Unclosed(text))
    ensures forall n :: Render(text, Normal, n) == text
  {
    var inside := Step(Normal, text);
    assert text[1..] + "" == text[1..];
    forall n ensures Render(text, Normal, n) == text {
      StaysInside(inside, text[1..], "", n);
    }
  }

  lemma OctetIsRead(c: char, s: string, n: nat)
    requires c !in {'\'', '"'} && !(c == '-' && StartsWith(s, "-")) && !(c == '/' && StartsWith(s, "*"))
    ensures Render([c] + s, Normal, n) == if c == '?' then "$" + Decimal(n + 1) + Render(s, Normal, n + 1) else [c] + Render(s, Normal, n)
    ensures EndContext([c] + s, Normal) == EndContext(s, Normal)
  {
    var q := [c] + s;
    assert q[1..] == s;
    if 1 < |q| { assert q[1] == s[0] && s[..1] == [s[0]]; }
  }

  /** Text without quotes, double hyphens and slash-stars is code throughout. */
  lemma {:induction false} PlainTextIsNormal(q: string, i: nat)
    requires '\'' !in q && '"' !in q && i < |q|
    requires forall k :: 0 <= k < |q| - 1 ==> !(q[k] == '-' && q[k + 1] == '-') && !(q[k] == '/' && q[k + 1] == '*')
    ensures Contexts(q, Normal)[i] == Normal
    decreases i
  {
    if i > 0 {
      assert q[0] in q;
      var rest := q[1..];
      forall k | 0 <= k < |rest| - 1 ensures !(rest[k] == '-' && rest[k + 1] == '-') && !(rest[k] == '/' && rest[k + 1] == '*') {
        assert q[k + 1] == rest[k] && q[k + 2] == rest[k + 1];
      }
      PlainTextIsNormal(rest, i - 1);
    }
  }

  // ---------- every query is a list of tokens ----------

  lemma JoinStart(ts: seq<Token>, prefix: char)
    requires Tokens(ts) && ts != []
    ensures Text(ts[0]) != "" && StartsWith(Join(ts), [prefix]) == StartsWith(Text(ts[0]), [prefix])
  {
  }

  /** However a query is split into tokens, rewriting it numbers the question marks among them. */
  lemma {:induction false} RewritesTokens(ts: seq<Token>, n: nat)
    requires Tokens(ts)
    ensures Render(Join(ts), Normal, n) == Numbered(ts, n)
  {
    if ts != [] {
      var t, s := ts[0], Join(ts[1..]);
      RewritesTokens(ts[1..], n);
      RewritesTokens(ts[1..], n + 1);
      if |ts| > 1 {
        assert Separate(ts[0], ts[1]);
        JoinStart(ts[1..], '-');
        JoinStart(ts[1..], '*');
      }
      match t
      case Octet(c) => OctetIsRead(c, s, n);
      case Quoted(quote, body) => LiteralIsCopied(quote, body, s);
      case LineNote(body) => LineNoteIsCopied(body, s);
      case BlockNote(body) => BlockNoteIsCopied(body, s);
      case Unclosed(text) => UnclosedIsCopied(text); assert text + s == text;
    }
  }

  lemma RewritingNumbersTokens(ts: seq<Token>)
    requires Tokens(ts)
    ensures Rewritten(Join(ts)) == Numbered(ts, 0)
  {
    RewrittenIsRender(Join(ts));
    RewritesTokens(ts, 0);
  }

  /** The first c in q from i on. */
  lemma FirstOctet(q: string, c: char, i: nat) returns (k: nat)
    requires i <= |q| && c in q[i..]
    ensures i <= k < |q| && q[k] == c && c !in q[i..k]
    decreases |q| - i
  {
    if q[i] == c {
      k := i;
    } else {
      assert q[i..] == [q[i]] + q[i + 1..];
      k := FirstOctet(q, c, i + 1);
      assert q[i..k] == [q[i]] + q[i + 1..k];
    }
  }

  /** The first star-slash in q from i on. */
  lemma FirstClose(q: string, i: nat) returns (k: nat)
    requires i <= |q| && !NoClose(q[i..])
    ensures i <= k && k + 1 < |q| && q[k] == '*' && q[k + 1] == '/' && NoClose(q[i..k + 1])
    decreases |q| - i
  {
    var j :| 0 <= j < |q[i..]| - 1 && q[i..][j] == '*' && q[i..][j + 1] == '/';
    if q[i] == '*' && q[i + 1] == '/' {
      k := i;
    } else {
      assert j > 0;
      assert q[i + 1..][j - 1] == '*' && q[i + 1..][j] == '/';
      k := FirstClose(q, i + 1);
      var s := q[i..k + 1];
      forall m | 0 <= m < |s| - 1 ensures !(s[m] == '*' && s[m + 1] == '/') {
        if m > 0 { assert q[i + 1..k + 1][m - 1] == s[m] && q[i + 1..k + 1][m] == s[m + 1]; }
      }
    }
  }

  lemma OneMoreToken(t: Token, ts: seq<Token>, q: string)
    requires TokenOk(t) && !t.Unclosed? && Tokens(ts) && q == Text(t) + Join(ts)
    requires !(t == Octet('-') && StartsWith(Join(ts), "-")) && !(t == Octet('/') && StartsWith(Join(ts), "*"))
    ensures Tokens([t] + ts) && Join([t] + ts) == q
  {
    assert ([t] + ts)[1..] == ts;
    if ts != [] {
      JoinStart(ts, '-');
      JoinStart(ts, '*');
    }
  }

  lemma OnlyToken(t: Token)
    requires TokenOk(t)
    ensures Tokens([t]) && Join([t]) == Text(t)
  {
    assert [t][1..] == [];
  }

  /** A literal or comment at the front of q, up to octet k or cut off by the end. */
  ghost predicate FrontToken(q: string, t: Token, k: nat) {
    && k <= |q| && q == Text(t) + q[k..] && k > 0
    && TokenOk(t) && !t.Octet? && (t.Unclosed? ==> k == |q|)
  }

  lemma LiteralInFront(q: string) returns (t: Token, k: nat)
    requires q != "" && q[0] in {'\'', '"'}
    ensures FrontToken(q, t, k)
  {
    if q[0] in q[1..] {
      var j := FirstOctet(q, q[0], 1);
      t, k := Quoted(q[0], q[1..j]), j + 1;
      assert q == [q[0]] + q[1..j] + [q[0]] + q[k..];
    } else {
      t, k := Unclosed(q), |q|;
    }
  }

  lemma LineNoteInFront(q: string) returns (t: Token, k: nat)
    requires StartsWith(q, "--")
    ensures FrontToken(q, t, k)
  {
    if '\n' in q[2..] {
      var j := FirstOctet(q, '\n', 2);
      t, k := LineNote(q[2..j]), j + 1;
      assert q == "--" + q[2..j] + "\n" + q[k..];
    } else {
      t, k := Unclosed(q), |q|;
      assert q == "--" + q[2..];
    }
  }

  lemma BlockNoteInFront(q: string) returns (t: Token, k: nat)
    requires StartsWith(q, "/*")
    ensures FrontToken(q, t, k)
  {
    assert q[0] == '/' && q[1] == '*';
    if NoClose(q[1..]) {
      t, k := Unclosed(q), |q|;
      assert q[k..] == "";
    } else {
      var j := FirstClose(q, 1);
      var body := q[1..j];
      t, k := BlockNote(body), j + 2;
      assert body + "*" == q[1..j + 1];
      assert body == "" || body[0] == q[1];
      assert q == "/" + body + "*/" + q[k..];
    }
  }

  lemma FrontThenRest(q: string, t: Token, k: nat, ts: seq<Token>)
    requires FrontToken(q, t, k) && Tokens(ts) && Join(ts) == q[k..]
    ensures t.Unclosed? ==> Tokens([t]) && Join([t]) == q
    ensures !t.Unclosed? ==> Tokens([t] + ts) && Join([t] + ts) == q
  {
    hide TokenOk, Tokens, Text, Join;
    if t.Unclosed? {
      assert q == Text(t) by { assert q[k..] == ""; }
      OnlyToken(t);
    } else {
      OneMoreToken(t, ts, q);
    }
  }

  lemma OctetThenRest(q: string, ts: seq<Token>)
    requires q != "" && q[0] !in {'\'', '"'} && !StartsWith(q, "--") && !StartsWith(q, "/*")
    requires Tokens(ts) && Join(ts) == q[1..]
    ensures Tokens([Octet(q[0])] + ts) && Join([Octet(q[0])] + ts) == q
  {
    hide Tokens, Join;
    assert q == [q[0]] + q[1..];
    OneMoreToken(Octet(q[0]), ts, q);
  }

  /** Every query can be split into tokens. */
  lemma {:induction false} EveryQueryHasTokens(q: string) returns (ts: seq<Token>)
    ensures Tokens(ts) && Join(ts) == q
    decreases |q|
  {
    if q == "" {
      ts := [];
    } else if q[0] in {'\'', '"'} || StartsWith(q, "--") || StartsWith(q, "/*") {
      hide TokenOk, Tokens, Text, Join, NoClose;
      var t, k;
      if q[0] in {'\'', '"'} { t, k := LiteralInFront(q); }
      else if StartsWith(q, "--") { t, k := LineNoteInFront(q); }
      else { t, k := BlockNoteInFront(q); }
      ts := EveryQueryHasTokens(q[k..]);
      FrontThenRest(q, t, k, ts);
      ts := if t.Unclosed? then [t] else [t] + ts;
    } else {
      hide TokenOk, Tokens, Text, Join, NoClose;
      ts := EveryQueryHasTokens(q[1..]);
      OctetThenRest(q, ts);
      ts := [Octet(q[0])] + ts;
    }
  }
}
