/**
 The iCalendar text writer of internal/calendar/ics.go: TEXT escaping and line folding, with
 the readers of RFC 5545 (sections 3.1 and 3.3.11) as their inverses.  A string is a sequence
 of octets, written as characters; nothing below depends on the range of a character.
 */
module Ics {

  // ---------- escaping ----------

  /** strings.ReplaceAll with a one-octet pattern. */
  function ReplaceAll(s: string, pattern: char, with: string): string {
    if s == "" then "" else (if s[0] == pattern then with else [s[0]]) + ReplaceAll(s[1..], pattern, with)
  }

  /** escapeICSText: five passes over the text. */
  function EscapeText(s: string): string {
    var s1 := ReplaceAll(s, '\\', "\\\\");
    var s2 := ReplaceAll(s1, ';', "\\;");
    var s3 := ReplaceAll(s2, ',', "\\,");
    var s4 := ReplaceAll(s3, '\n', "\\n");
    ReplaceAll(s4, '\r', "")
  }

  /** What becomes of one octet. */
  function EscapeChar(c: char): string {
    if c == '\\' then "\\\\"
    else if c == ';' then "\\;"
    else if c == ',' then "\\,"
    else if c == '\n' then "\\n"
    else if c == '\r' then ""
    else [c]
  }

  function EscapeOnce(s: string): string {
    if s == "" then "" else EscapeChar(s[0]) + EscapeOnce(s[1..])
  }

  lemma {:induction false} ReplaceConcat(a: string, b: string, pattern: char, with: string)
    ensures ReplaceAll(a + b, pattern, with) == ReplaceAll(a, pattern, with) + ReplaceAll(b, pattern, with)
  {
    if a == "" {
      assert a + b == b;
    } else {
      assert (a + b)[1..] == a[1..] + b;
      ReplaceConcat(a[1..], b, pattern, with);
    }
  }

  /** The five passes distribute over the octets of the text. */
  lemma EscapeConcat(a: string, b: string)
    ensures EscapeText(a + b) == EscapeText(a) + EscapeText(b)
  {
    ReplaceConcat(a, b, '\\', "\\\\");
    var a1, b1 := ReplaceAll(a, '\\', "\\\\"), ReplaceAll(b, '\\', "\\\\");
    ReplaceConcat(a1, b1, ';', "\\;");
    var a2, b2 := ReplaceAll(a1, ';', "\\;"), ReplaceAll(b1, ';', "\\;");
    ReplaceConcat(a2, b2, ',', "\\,");
    var a3, b3 := ReplaceAll(a2, ',', "\\,"), ReplaceAll(b2, ',', "\\,");
    ReplaceConcat(a3, b3, '\n', "\\n");
    ReplaceConcat(ReplaceAll(a3, '\n', "\\n"), ReplaceAll(b3, '\n', "\\n"), '\r', "");
  }

  lemma ReplaceOne(c: char, pattern: char, with: string)
    ensures ReplaceAll([c], pattern, with) == if c == pattern then with else [c]
  {
  }

  lemma ReplaceTwo(c: char, d: char, pattern: char, with: string)
    ensures ReplaceAll([c, d], pattern, with) == (if c == pattern then with else [c]) + if d == pattern then with else [d]
  {
    assert [c, d] == [c] + [d];
    ReplaceConcat([c], [d], pattern, with);
    ReplaceOne(c, pattern, with);
    ReplaceOne(d, pattern, with);
  }

  lemma EscapeOfChar(c: char)
    ensures EscapeText([c]) == EscapeChar(c)
  {
    ReplaceOne(c, '\\', "\\\\");
    ReplaceOne(c, ';', "\\;");
    ReplaceOne(c, ',', "\\,");
    ReplaceOne(c, '\n', "\\n");
    ReplaceOne(c, '\r', "");
    if c == '\\' || c == ';' || c == ',' {
      ReplaceTwo('\\', c, ';', "\\;");
      ReplaceTwo('\\', c, ',', "\\,");
      ReplaceTwo('\\', c, '\n', "\\n");
      ReplaceTwo('\\', c, '\r', "");
    } else if c == '\n' {
      ReplaceTwo('\\', 'n', '\r', "");
    }
  }

  /** The five passes are one pass: no pass touches what an earlier one wrote. */
  lemma {:induction false} EscapeIsOnePass(s: string)
    ensures EscapeText(s) == EscapeOnce(s)
  {
    if s == "" {
    } else {
      assert s == [s[0]] + s[1..];
      EscapeConcat([s[0]], s[1..]);
      EscapeOfChar(s[0]);
      EscapeIsOnePass(s[1..]);
    }
  }

  // ---------- reading TEXT back (section 3.3.11) ----------

  function DecodeText(s: string): string {
    if s == "" then ""
    else if s[0] == '\\' && 1 < |s| then
      [if s[1] == 'n' || s[1] == 'N' then '\n' else s[1]] + DecodeText(s[2..])
    else [s[0]] + DecodeText(s[1..])
  }

  function WithoutCR(s: string): string {
    if s == "" then "" else (if s[0] == '\r' then "" else [s[0]]) + WithoutCR(s[1..])
  }

  lemma DecodeEscaped(c: char, tail: string)
    ensures DecodeText(EscapeChar(c) + tail) == (if c == '\r' then "" else [c]) + DecodeText(tail)
  {
    var text := EscapeChar(c) + tail;
    if |EscapeChar(c)| == 2 {
      assert text[2..] == tail;
    } else if |EscapeChar(c)| == 1 {
      assert text[1..] == tail;
    } else {
      assert text == tail;
    }
  }

  lemma {:induction false} DecodeOnce(s: string)
    ensures DecodeText(EscapeOnce(s)) == WithoutCR(s)
  {
    if s != "" {
      DecodeOnce(s[1..]);
      DecodeEscaped(s[0], EscapeOnce(s[1..]));
    }
  }

  /** Decoding an escaped text gives the text back without its carriage returns. */
  lemma TextRoundTrip(s: string)
    ensures DecodeText(EscapeText(s)) == WithoutCR(s)
  {
    EscapeIsOnePass(s);
    DecodeOnce(s);
  }

  lemma {:induction false} EscapeIgnoresCR(s: string)
    ensures EscapeOnce(WithoutCR(s)) == EscapeOnce(s)
  {
    if s != "" {
      EscapeIgnoresCR(s[1..]);
      var rest := WithoutCR(s[1..]);
      if s[0] == '\r' {
        assert WithoutCR(s) == rest && EscapeOnce(s) == EscapeOnce(s[1..]);
      } else {
        assert WithoutCR(s) == [s[0]] + rest && ([s[0]] + rest)[1..] == rest;
      }
    }
  }

  /** Two texts are escaped alike exactly when they differ in carriage returns only. */
  lemma EscapeIsInjective(s: string, t: string)
    ensures EscapeText(s) == EscapeText(t) <==> WithoutCR(s) == WithoutCR(t)
  {
    TextRoundTrip(s);
    TextRoundTrip(t);
    EscapeIsOnePass(s);
    EscapeIsOnePass(t);
    EscapeIgnoresCR(s);
    EscapeIgnoresCR(t);
  }

  lemma {:induction false} OnePassHasNoLineBreak(s: string)
    ensures '\r' !in EscapeOnce(s) && '\n' !in EscapeOnce(s)
  {
    if s != "" { OnePassHasNoLineBreak(s[1..]); }
  }

  lemma EscapedHasNoLineBreak(s: string)
    ensures '\r' !in EscapeText(s) && '\n' !in EscapeText(s)
  {
    EscapeIsOnePass(s);
    OnePassHasNoLineBreak(s);
  }

  /** TEXT as section 3.3.11 writes it: a backslash, comma or semicolon appears only in the escape
      sequence of its own, and a line break only as backslash-n. */
  predicate IsText(s: string) {
    if s == "" then true
    else if s[0] == '\\' then 1 < |s| && s[1] in {'\\', ';', ',', 'n'} && IsText(s[2..])
    else s[0] !in {';', ',', '\n', '\r'} && IsText(s[1..])
  }

  lemma {:induction false} OnePassIsText(s: string)
    ensures IsText(EscapeOnce(s))
  {
    if s != "" {
      OnePassIsText(s[1..]);
      var first, rest := EscapeChar(s[0]), EscapeOnce(s[1..]);
      if |first| == 2 {
        assert (first + rest)[2..] == rest;
      } else if |first| == 1 {
        assert (first + rest)[1..] == rest;
      } else {
        assert first + rest == rest;
      }
    }
  }

  /** Commas, semicolons and backslashes are escaped wherever they appear, and nothing else is. */
  lemma EscapedIsText(s: string)
    ensures IsText(EscapeText(s))
  {
    EscapeIsOnePass(s);
    OnePassIsText(s);
  }

  // ---------- folding ----------

  const MAX_LINE := 75
  const CRLF := "\r\n"

  /** The builder the writer appends to. */
  class Builder {
    var text: string

    constructor ()
      ensures text == ""
    {
      text := "";
    }

    method WriteString(s: string)
      modifies this
      ensures text == old(text) + s
    {
      text := text + s;
    }
  }

  /** The pieces a line is cut into: the first of up to 75 octets, the others of up to 74. */
  function Chunks(line: string, size: nat): (chunks: seq<string>)
    requires size > 0
    ensures chunks != []
    decreases |line|
  {
    if |line| <= size then [line] else [line[..size]] + Chunks(line[size..], MAX_LINE - 1)
  }

  /** Each piece on a line of its own; all but the first after a space. */
  function Lines(chunks: seq<string>): string
    requires chunks != []
  {
    chunks[0] + CRLF + if |chunks| == 1 then "" else " " + Lines(chunks[1..])
  }

  function Folded(line: string): string {
    Lines(Chunks(line, MAX_LINE))
  }

  method WriteFoldedLine(b: Builder, line: string)
    modifies b
    ensures b.text == old(b.text) + Folded(line)
  {
    hide Lines, Chunks, Folded, Continued;
    ghost var goal := b.text + Folded(line);
    if |line| <= MAX_LINE {
      b.WriteString(line);
      b.WriteString(CRLF);
      assert b.text == goal by { ShortLine(old(b.text), line); }
      return;
    }
    b.WriteString(line[..MAX_LINE]);
    b.WriteString(CRLF);
    var rest := line[MAX_LINE..];
    assert b.text + Continued(rest) == goal by { FirstLine(old(b.text), line); }
    while |rest| > 0
      invariant b.text + Continued(rest) == goal
      decreases |rest|
    {
      var chunkLen := MAX_LINE - 1;
      if chunkLen > |rest| {
        chunkLen := |rest|;
      }
      ghost var before := b.text;
      b.WriteString(" ");
      b.WriteString(rest[..chunkLen]);
      b.WriteString(CRLF);
      assert b.text + Continued(rest[chunkLen..]) == goal by { NextLine(before, rest); }
      rest := rest[chunkLen..];
    }
    assert b.text == goal by { NoMoreLines(b.text); }
  }

  lemma ShortLine(text: string, line: string)
    requires |line| <= MAX_LINE
    ensures text + line + CRLF == text + Folded(line)
  {
  }

  lemma FirstLine(text: string, line: string)
    requires |line| > MAX_LINE
    ensures text + line[..MAX_LINE] + CRLF + Continued(line[MAX_LINE..]) == text + Folded(line)
  {
  }

  lemma NextLine(text: string, rest: string)
    requires rest != ""
    ensures var n := if MAX_LINE - 1 > |rest| then |rest| else MAX_LINE - 1;
            text + " " + rest[..n] + CRLF + Continued(rest[n..]) == text + Continued(rest)
  {
  }

  lemma NoMoreLines(text: string)
    ensures text + Continued("") == text
  {
  }

  /** The continuation lines of what is left of a line. */
  function Continued(rest: string): string {
    if rest == "" then "" else " " + Lines(Chunks(rest, MAX_LINE - 1))
  }

  /** The pieces put together are the line, and no piece is longer than it may be. */
  lemma {:induction false} ChunksOfLine(line: string, size: nat)
    requires size > 0
    ensures Joined(Chunks(line, size)) == line
    ensures |Chunks(line, size)[0]| <= size
    ensures forall i :: 1 <= i < |Chunks(line, size)| ==> |Chunks(line, size)[i]| <= MAX_LINE - 1
    decreases |line|
  {
    if |line| <= size {
      assert Joined([line]) == line + Joined([line][1..]);
    } else {
      var rest := Chunks(line[size..], MAX_LINE - 1);
      ChunksOfLine(line[size..], MAX_LINE - 1);
      assert ([line[..size]] + rest)[1..] == rest;
    }
  }

  /** Every piece but the last fills its line: 75 octets on the first, 74 after a space on the others;
      and a continuation line is never empty. */
  lemma {:induction false} ChunksAreFull(line: string, size: nat)
    requires size > 0
    ensures var chunks := Chunks(line, size); var n := |chunks|;
            && (n == 1 <==> |line| <= size) && (n > 1 ==> |chunks[0]| == size && |chunks[n - 1]| > 0)
            && forall i :: 1 <= i < n - 1 ==> |chunks[i]| == 74
    decreases |line|
  {
    if |line| > size { ChunksAreFull(line[size..], MAX_LINE - 1); }
  }

  function Joined(chunks: seq<string>): string {
    if chunks == [] then "" else chunks[0] + Joined(chunks[1..])
  }

  // ---------- physical lines ----------

  /** Octets since the last CRLF stay within the limit, up to and including the end. */
  predicate ShortLines(s: string, used: nat) {
    if s == "" then used <= 75
    else if AtBreak(s) then used <= 75 && ShortLines(s[2..], 0)
    else ShortLines(s[1..], used + 1)
  }

  predicate AtBreak(s: string) {
    1 < |s| && s[0] == '\r' && s[1] == '\n'
  }

  lemma {:induction false} ShortAfterChunk(chunk: string, used: nat, rest: string)
    requires used + |chunk| <= MAX_LINE && ShortLines(rest, 0)
    ensures ShortLines(chunk + CRLF + rest, used)
    decreases |chunk|
  {
    var s := chunk + CRLF + rest;
    if chunk == "" {
      assert s[2..] == rest;
    } else if AtBreak(s) {
      assert |chunk| >= 2;
      ShortAfterChunk(chunk[2..], 0, rest);
      assert s[2..] == chunk[2..] + CRLF + rest;
    } else {
      ShortAfterChunk(chunk[1..], used + 1, rest);
      assert s[1..] == chunk[1..] + CRLF + rest;
    }
  }

  lemma {:induction false} LinesAreShort(chunks: seq<string>)
    requires chunks != [] && |chunks[0]| <= MAX_LINE && forall i :: 1 <= i < |chunks| ==> |chunks[i]| <= MAX_LINE - 1
    ensures ShortLines(Lines(chunks), 0)
    decreases |chunks|, 1
  {
    if |chunks| == 1 {
      ShortAfterChunk(chunks[0], 0, "");
      assert Lines(chunks) == chunks[0] + CRLF + "";
    } else {
      ContinuationIsShort(chunks[1..]);
      ShortAfterChunk(chunks[0], 0, " " + Lines(chunks[1..]));
      assert Lines(chunks) == chunks[0] + CRLF + (" " + Lines(chunks[1..]));
    }
  }

  /** A continuation line counts its leading space. */
  lemma {:induction false} ContinuationIsShort(chunks: seq<string>)
    requires chunks != [] && forall i :: 0 <= i < |chunks| ==> |chunks[i]| <= MAX_LINE - 1
    ensures ShortLines(" " + Lines(chunks), 0)
    decreases |chunks|, 0
  {
    var spaced := [" " + chunks[0]] + chunks[1..];
    LinesWithPrefix(" ", chunks);
    assert spaced[1..] == chunks[1..];
    if |chunks| == 1 {
      ShortAfterChunk(spaced[0], 0, "");
      assert Lines(spaced) == spaced[0] + CRLF + "";
    } else {
      ContinuationIsShort(chunks[1..]);
      ShortAfterChunk(spaced[0], 0, " " + Lines(chunks[1..]));
      assert Lines(spaced) == spaced[0] + CRLF + (" " + Lines(chunks[1..]));
    }
  }

  lemma LinesWithPrefix(prefix: string, chunks: seq<string>)
    requires chunks != []
    ensures prefix + Lines(chunks) == Lines([prefix + chunks[0]] + chunks[1..])
  {
  }

  /** Every physical line of a folded line has at most 75 octets, whatever the line holds, and no line
      but the last has fewer. */
  lemma FoldedLinesAreShort(line: string)
    ensures ShortLines(Folded(line), 0)
    ensures var chunks := Chunks(line, MAX_LINE);
            (|line| <= 75 ==> chunks == [line])
            && (|line| > 75 ==> |chunks[0]| == 75 && forall i :: 1 <= i < |chunks| - 1 ==> |chunks[i]| == 74)
  {
    ChunksAreFull(line, MAX_LINE);
    ChunksOfLine(line, MAX_LINE);
    LinesAreShort(Chunks(line, MAX_LINE));
  }

  // ---------- unfolding (section 3.1) ----------

  predicate AtFold(s: string) {
    2 < |s| && s[0] == '\r' && s[1] == '\n' && (s[2] == ' ' || s[2] == '\t')
  }

  /** Removes every CRLF that is followed by a space or tab, with that space or tab. */
  function Unfold(s: string): string {
    if s == "" then "" else if AtFold(s) then Unfold(s[3..]) else [s[0]] + Unfold(s[1..])
  }

  /** No fold sequence lies within the text. */
  predicate FoldFree(s: string) {
    s == "" || (!AtFold(s) && FoldFree(s[1..]))
  }

  /** Unfolding one piece and going on after it: the piece comes back exactly when no fold
      sequence lies within it, and is shortened otherwise. */
  lemma {:induction false} UnfoldChunk(chunk: string, rest: string)
    requires rest == "" || rest[0] == ' '
    ensures |Unfold(chunk + CRLF + rest)| <= |chunk| + |Unfold(CRLF + rest)|
    ensures FoldFree(chunk) ==> Unfold(chunk + CRLF + rest) == chunk + Unfold(CRLF + rest)
    ensures !FoldFree(chunk) ==> |Unfold(chunk + CRLF + rest)| < |chunk| + |Unfold(CRLF + rest)|
    decreases |chunk|
  {
    var s := chunk + CRLF + rest;
    if chunk == "" {
      assert s == CRLF + rest;
    } else if AtFold(s) {
      FoldInChunk(chunk, rest);
      UnfoldChunk(chunk[3..], rest);
      assert s[3..] == chunk[3..] + CRLF + rest;
    } else {
      UnfoldChunk(chunk[1..], rest);
      assert s[1..] == chunk[1..] + CRLF + rest;
      assert !AtFold(chunk);
    }
  }

  lemma FoldInChunk(chunk: string, rest: string)
    requires chunk != "" && AtFold(chunk + CRLF + rest)
    ensures AtFold(chunk)
  {
  }

  predicate AllFoldFree(chunks: seq<string>) {
    forall i :: 0 <= i < |chunks| ==> FoldFree(chunks[i])
  }

  lemma {:induction false} UnfoldLines(chunks: seq<string>)
    requires chunks != []
    ensures |Unfold(Lines(chunks))| <= |Joined(chunks)| + 2
    ensures AllFoldFree(chunks) ==> Unfold(Lines(chunks)) == Joined(chunks) + CRLF
    ensures !AllFoldFree(chunks) ==> |Unfold(Lines(chunks))| < |Joined(chunks)| + 2
    decreases |chunks|
  {
    if |chunks| == 1 {
      UnfoldChunk(chunks[0], "");
      assert Lines(chunks) == chunks[0] + CRLF + "";
      assert CRLF + "" == CRLF && CRLF[1..][1..] == "";
      assert Unfold(CRLF) == [CRLF[0]] + Unfold(CRLF[1..]) == CRLF;
      assert Joined(chunks) == chunks[0] + Joined([]);
    } else {
      var tail := " " + Lines(chunks[1..]);
      UnfoldChunk(chunks[0], tail);
      assert Lines(chunks) == chunks[0] + CRLF + tail;
      assert (CRLF + tail)[3..] == Lines(chunks[1..]);
      UnfoldLines(chunks[1..]);
      assert AllFoldFree(chunks) <==> FoldFree(chunks[0]) && AllFoldFree(chunks[1..]);
    }
  }

  /** Unfolding gives the line back exactly when no piece of it holds a fold sequence. */
  lemma FoldRoundTrip(line: string)
    ensures Unfold(Folded(line)) == line + CRLF <==> AllFoldFree(Chunks(line, MAX_LINE))
  {
    ChunksOfLine(line, MAX_LINE);
    UnfoldLines(Chunks(line, MAX_LINE));
  }

  lemma {:induction false} WithoutCRIsFoldFree(line: string, size: nat)
    requires size > 0 && '\r' !in line
    ensures AllFoldFree(Chunks(line, size))
    decreases |line|
  {
    if |line| <= size {
      NoCRNoFold(line);
    } else {
      NoCRNoFold(line[..size]);
      WithoutCRIsFoldFree(line[size..], MAX_LINE - 1);
    }
  }

  lemma {:induction false} NoCRNoFold(s: string)
    requires '\r' !in s
    ensures FoldFree(s)
  {
    if s != "" { NoCRNoFold(s[1..]); }
  }

  /** A property line with escaped text: folding, unfolding, cutting off the property name and
      decoding recovers the text without its carriage returns, for every text. */
  lemma PropertyRoundTrip(name: string, text: string)
    requires '\r' !in name
    ensures var line := name + ":" + EscapeText(text);
            Unfold(Folded(line)) == line + CRLF && DecodeText(line[|name| + 1..]) == WithoutCR(text)
  {
    var line := name + ":" + EscapeText(text);
    EscapedHasNoLineBreak(text);
    WithoutCRIsFoldFree(line, MAX_LINE);
    FoldRoundTrip(line);
    assert line[|name| + 1..] == EscapeText(text);
    TextRoundTrip(text);
  }
}
