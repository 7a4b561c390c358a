/**
 * The map tokenizer: a five-state byte machine (Default, Comment,
 * MaybeComment, Unquoted, Quoted) that turns map text into tokens tagged with
 * a 1-based line number, rejecting null bytes and unterminated quotes.
 *
 * `Run` and `Lex` give the token stream as a function of the bytes; the
 * class `TokenIterator` is the iterator itself, whose fields change on every
 * byte, and whose `Next` is proved to hand out exactly that stream.
 */
module Lexer {
  import opened Common
  import opened Errors

  datatype Token = Token(text: Bytes, lineNumber: LineNumber)

  /** `match_byte`: the token is exactly the single byte `b`. */
  predicate MatchByte(t: Token, b: byte): (r: bool)
    ensures r <==> t.text == [b]
  {
    |t.text| == 1 && t.text[0] == b
  }

  /** `match_quoted`: two bytes at least, the first and the last a quote. */
  predicate MatchQuoted(t: Token) {
    |t.text| >= 2 && t.text[0] == QUOTE && t.text[|t.text| - 1] == QUOTE
  }

  /** A token matches as quoted iff it is some (possibly empty) inner text between two quotes. */
  lemma MatchQuotedIsQuotedText(t: Token)
    ensures MatchQuoted(t) <==> exists inner: Bytes :: t.text == [QUOTE] + inner + [QUOTE]
  {
    if MatchQuoted(t) {
      assert t.text == [QUOTE] + t.text[1..|t.text| - 1] + [QUOTE];
    }
  }

  function TextAsString(t: Token): string {
    BytesToString(t.text)
  }

  /** `Display for Token`: "text: line N". */
  function TokenDisplay(t: Token): string {
    TextAsString(t) + ": line " + Decimal(t.lineNumber)
  }

  /** What the iterator yields: a token or an error. */
  type Item = Result<Token, TextParse>

  const NULL_BYTE: string := "Null byte"
  const MISSING_QUOTE: string := "Missing closing quote"

  datatype LexState = Default | Comment | MaybeComment | Unquoted | Quoted

  /** The iterator's fields, as a value (`byte` always equals `last_byte` between calls). */
  datatype Machine = Machine(state: LexState, text: Option<Bytes>, lastByte: Option<byte>,
                             lineNumber: LineNumber)

  const START: Machine := Machine(Default, None, None, 1)

  /** Text of an open quoted token: the opening quote and no closing one yet. */
  predicate PendingQuoted(t: Bytes) {
    |t| >= 1 && t[0] == QUOTE && forall i :: 1 <= i < |t| ==> t[i] != QUOTE
  }

  /**
   * Text of an open unquoted token: it does not start with a quote or
   * whitespace and holds no whitespace, except that the byte after a leading
   * `/` may be anything.
   */
  predicate PendingUnquoted(t: Bytes) {
    && |t| >= 1 && t[0] != QUOTE && !IsAsciiWhitespace(t[0])
    && forall i :: 1 <= i < |t| ==> !IsAsciiWhitespace(t[i]) || (i == 1 && t[0] == SLASH)
  }

  /** The pending text exists exactly in the two token states, and has their shape. */
  predicate Coherent(st: LexState, text: Option<Bytes>) {
    match st
    case Quoted => text.Some? && PendingQuoted(text.value) && NoNul(text.value)
    case Unquoted => text.Some? && PendingUnquoted(text.value) && NoNul(text.value)
    case _ => text.None?
  }

  predicate ValidMachine(m: Machine) {
    Coherent(m.state, m.text)
  }

  /** The tokens the lexer can emit: a closed quoted token, or an unquoted one. */
  predicate WellFormedToken(t: Token) {
    && NoNul(t.text)
    && (PendingUnquoted(t.text) || (MatchQuoted(t) && PendingQuoted(t.text[..|t.text| - 1])))
  }

  /** The effect of one call of the current state function. */
  datatype Stepped = Stepped(state: LexState, text: Option<Bytes>, token: Option<Token>)

  /** `lex_default`, `lex_comment`, `lex_maybe_comment`, `lex_quoted`, `lex_unquoted`. */
  function StateStep(st: LexState, text: Option<Bytes>, b: byte, line: LineNumber): (r: Stepped)
    requires Coherent(st, text) && b != NUL
    ensures Coherent(r.state, r.text)
    ensures r.token.Some? ==> WellFormedToken(r.token.value) && r.token.value.lineNumber == line
    ensures r.token.Some? <==> r.state == Default && (st == Quoted || st == Unquoted)
  {
    match st
    case Default =>
      if IsAsciiWhitespace(b) then Stepped(Default, text, None)
      else if b == QUOTE then Stepped(Quoted, Some([b]), None)
      else if b == SLASH then Stepped(MaybeComment, text, None)
      else Stepped(Unquoted, Some([b]), None)
    case Comment =>
      if b == CR || b == LF then Stepped(Default, text, None) else Stepped(Comment, text, None)
    case MaybeComment =>
      if b == SLASH then Stepped(Comment, text, None)
      else Stepped(Unquoted, Some([SLASH, b]), None)
    case Quoted =>
      var t := text.value + [b];
      if b == QUOTE then
        assert t[..|t| - 1] == text.value;
        Stepped(Default, None, Some(Token(t, line)))
      else
        Stepped(Quoted, Some(t), None)
    case Unquoted =>
      if IsAsciiWhitespace(b) then Stepped(Default, None, Some(Token(text.value, line)))
      else Stepped(Unquoted, Some(text.value + [b]), None)
  }

  /** `saturating_add(1)` on the line counter. */
  function NextLine(n: LineNumber): (r: LineNumber)
    ensures r == if n + 1 < U64_LIMIT then n + 1 else n
  {
    if n + 1 < U64_LIMIT then n + 1 else n
  }

  /** The line counter advances after a line feed, and after any byte that follows a carriage return. */
  predicate IsBreak(last: Option<byte>, b: byte) {
    b == LF || last == Some(CR)
  }

  /** `byte_read` on a byte other than NUL: run the state, count the line, remember the byte. */
  function Step(m: Machine, b: byte): (r: (Machine, Option<Token>))
    requires ValidMachine(m) && b != NUL
    ensures ValidMachine(r.0) && r.0.lastByte == Some(b)
  {
    var s := StateStep(m.state, m.text, b, m.lineNumber);
    var line := if IsBreak(m.lastByte, b) then NextLine(m.lineNumber) else m.lineNumber;
    (Machine(s.state, s.text, Some(b), line), s.token)
  }

  /** `byte_read`: a NUL byte is an error at the current line and leaves the machine as it was. */
  function ByteStep(m: Machine, b: byte): (r: (Machine, Option<Item>))
    requires ValidMachine(m)
    ensures ValidMachine(r.0)
    ensures b == NUL ==> r == (m, Some(Err(FromLexer(NULL_BYTE, m.lineNumber))))
    ensures r.1.Some? && r.1.value.Ok? ==> WellFormedToken(r.1.value.value)
  {
    if b == NUL then (m, Some(Err(FromLexer(NULL_BYTE, m.lineNumber))))
    else
      var (m1, t) := Step(m, b);
      (m1, if t.Some? then Some(Ok(t.value)) else None)
  }

  function OptionToSeq(o: Option<Item>): seq<Item> {
    if o.Some? then [o.value] else []
  }

  predicate AllWellFormed(items: seq<Item>) {
    forall i {:trigger WellFormedToken(items[i].value)} :: 0 <= i < |items| && items[i].Ok? ==> WellFormedToken(items[i].value)
  }

  /** Feed the bytes `s` to the machine: the machine afterwards and the items it yielded. */
  function Run(m: Machine, s: Bytes): (r: (Machine, seq<Item>))
    requires ValidMachine(m)
    ensures ValidMachine(r.0)
    ensures AllWellFormed(r.1)
    ensures |r.1| <= |s|
    decreases |s|
  {
    if s == [] then (m, [])
    else
      var first := ByteStep(m, s[0]);
      var rest := Run(first.0, s[1..]);
      (rest.0, OptionToSeq(first.1) + rest.1)
  }

  /** `eof_read`: the pending text becomes the last token, unless it is an unclosed quote. */
  function EofItems(m: Machine): (r: seq<Item>)
    requires ValidMachine(m)
    ensures m.text.None? ==> r == []
    ensures m.state == Quoted ==> r == [Err(FromLexer(MISSING_QUOTE, m.lineNumber))]
    ensures m.state == Unquoted ==> r == [Ok(Token(m.text.value, m.lineNumber))]
    ensures AllWellFormed(r)
  {
    match m.text
    case None => []
    case Some(t) =>
      if t[0] == QUOTE && (t[|t| - 1] != QUOTE || |t| == 1) then
        [Err(FromLexer(MISSING_QUOTE, m.lineNumber))]
      else
        [Ok(Token(t, m.lineNumber))]
  }

  /** Everything a machine still yields on the bytes `s` and end of input. */
  function Pending(m: Machine, s: Bytes): (r: seq<Item>)
    requires ValidMachine(m)
    ensures AllWellFormed(r)
  {
    Run(m, s).1 + EofItems(Run(m, s).0)
  }

  /** The whole token stream of an input. */
  function Lex(input: Bytes): (r: seq<Item>)
    ensures AllWellFormed(r)
  {
    Pending(START, input)
  }

  // ---------------------------------------------------------------------
  // Properties of the token stream

  /** Feeding two pieces of input one after the other is feeding their concatenation. */
  lemma {:induction false} RunAppend(m: Machine, s: Bytes, t: Bytes)
    requires ValidMachine(m)
    ensures Run(m, s + t) == (Run(Run(m, s).0, t).0, Run(m, s).1 + Run(Run(m, s).0, t).1)
    decreases |s|
  {
    if s == [] {
      assert s + t == t;
      assert Run(m, s) == (m, []);
      assert [] + Run(m, t).1 == Run(m, t).1;
    } else {
      var first := ByteStep(m, s[0]);
      assert (s + t)[0] == s[0] && (s + t)[1..] == s[1..] + t;
      RunCons(m, s + t);
      RunCons(m, s);
      RunAppend(first.0, s[1..], t);
      var a, b := Run(first.0, s[1..]).1, Run(Run(first.0, s[1..]).0, t).1;
      ConcatAssoc(OptionToSeq(first.1), a, b);
    }
  }

  /** One step of `Run`, spelled out. */
  lemma RunCons(m: Machine, s: Bytes)
    requires ValidMachine(m) && s != []
    ensures Run(m, s) == (Run(ByteStep(m, s[0]).0, s[1..]).0,
                          OptionToSeq(ByteStep(m, s[0]).1) + Run(ByteStep(m, s[0]).0, s[1..]).1)
  {
  }

  /** One byte of what is still to come: what it yields, then what the machine after it yields. */
  lemma PendingCons(m: Machine, b: byte, rest: Bytes)
    requires ValidMachine(m)
    ensures Pending(m, [b] + rest) == OptionToSeq(ByteStep(m, b).1) + Pending(ByteStep(m, b).0, rest)
  {
    RunCons(m, [b] + rest);
    assert ([b] + rest)[1..] == rest;
  }

  lemma PendingAppend(m: Machine, s: Bytes, t: Bytes)
    requires ValidMachine(m)
    ensures Pending(m, s + t) == Run(m, s).1 + Pending(Run(m, s).0, t)
  {
    RunAppend(m, s, t);
    var mid := Run(m, s).0;
    var a, b, e := Run(m, s).1, Run(mid, t).1, EofItems(Run(mid, t).0);
    assert Pending(m, s + t) == (a + b) + e;
    assert Pending(mid, t) == b + e;
    ConcatAssoc(a, b, e);
  }

  /** A single byte: the machine after it and the item it yields. */
  lemma RunOne(m: Machine, b: byte)
    requires ValidMachine(m)
    ensures Run(m, [b]) == (ByteStep(m, b).0, OptionToSeq(ByteStep(m, b).1))
  {
    var first := ByteStep(m, b);
    assert [b][0] == b && [b][1..] == [];
    assert Run(first.0, []) == (first.0, []);
    assert Run(m, [b]) == (Run(first.0, []).0, OptionToSeq(first.1) + Run(first.0, []).1);
    assert OptionToSeq(first.1) + [] == OptionToSeq(first.1);
  }

  /**
   * A NUL byte is reported at the current line and otherwise ignored: the
   * machine continues exactly as if the byte were absent.
   */
  lemma NullByteIsSkipped(m: Machine, a: Bytes, b: Bytes)
    requires ValidMachine(m)
    ensures Run(m, a + [NUL] + b).0 == Run(m, a + b).0
    ensures Run(m, a + [NUL] + b).1
            == Run(m, a).1 + [Err(FromLexer(NULL_BYTE, Run(m, a).0.lineNumber))] + Run(Run(m, a).0, b).1
  {
    var ma := Run(m, a).0;
    var err := Err(FromLexer(NULL_BYTE, ma.lineNumber));
    assert a + [NUL] + b == a + ([NUL] + b);
    NulStep(ma, b);
    RunAppend(m, a, [NUL] + b);
    RunAppend(m, a, b);
    var ra, rb := Run(m, a).1, Run(ma, b).1;
    assert ra + ([err] + rb) == ra + [err] + rb;
  }

  /** A NUL byte first: its error, then the run of what follows from the same machine. */
  lemma NulStep(m: Machine, b: Bytes)
    requires ValidMachine(m)
    ensures Run(m, [NUL] + b) == (Run(m, b).0, [Err(FromLexer(NULL_BYTE, m.lineNumber))] + Run(m, b).1)
  {
    var tail := [NUL] + b;
    assert tail[0] == NUL && tail[1..] == b;
    RunCons(m, tail);
  }

  /** Without NUL bytes, nothing fails before the end of input. */
  lemma {:induction false} NulFreeRunHasNoErrors(m: Machine, s: Bytes)
    requires ValidMachine(m) && NoNul(s)
    ensures forall i :: 0 <= i < |Run(m, s).1| ==> Run(m, s).1[i].Ok?
    decreases |s|
  {
    if s != [] {
      NulFreeRunHasNoErrors(ByteStep(m, s[0]).0, s[1..]);
    }
  }

  /** Lines: for a NUL-free input only the last item can be an error (an unclosed quote). */
  lemma NulFreeLexFailsAtMostAtEnd(input: Bytes)
    requires NoNul(input)
    ensures forall i :: 0 <= i < |Lex(input)| - 1 ==> Lex(input)[i].Ok?
    ensures forall i :: 0 <= i < |Lex(input)| && Lex(input)[i].Err? ==>
              i == |Lex(input)| - 1 && Lex(input)[i].error.Lexer?
              && Lex(input)[i].error.line.message == MISSING_QUOTE
  {
    NulFreeRunHasNoErrors(START, input);
  }

  // Line counting

  /** The byte the counter compares with `CR` when it reads `s[i]`. */
  function Previous(last: Option<byte>, s: Bytes, i: nat): Option<byte>
    requires i < |s|
  {
    if i == 0 then last else Some(s[i - 1])
  }

  /** How many line breaks the counter sees in `s`, position by position. */
  function BreaksIn(last: Option<byte>, s: Bytes): nat
    decreases |s|
  {
    if s == [] then 0
    else BreaksIn(last, s[..|s| - 1]) + (if IsBreak(Previous(last, s, |s| - 1), s[|s| - 1]) then 1 else 0)
  }

  function Saturated(n: nat): LineNumber {
    if n == 0 then 1 else if n < U64_LIMIT then n else U64_LIMIT - 1
  }

  /**
   * The line counter after a NUL-free input is the starting line plus the
   * breaks in it (saturating), and the last byte is remembered.
   */
  lemma {:induction false} LineCount(m: Machine, s: Bytes)
    requires ValidMachine(m) && NoNul(s)
    ensures Run(m, s).0.lineNumber == Saturated(m.lineNumber + BreaksIn(m.lastByte, s))
    ensures Run(m, s).0.lastByte == if s == [] then m.lastByte else Some(s[|s| - 1])
    decreases |s|
  {
    if s != [] {
      var n := |s| - 1;
      var p, x := s[..n], s[n];
      assert s == p + [x];
      assert NoNul(p) by {
        assert forall i :: 0 <= i < |p| ==> p[i] == s[i];
      }
      LineCount(m, p);
      RunSnoc(m, p, x);
      var mp := Run(m, p).0;
      assert Previous(m.lastByte, s, n) == mp.lastByte;
      assert BreaksIn(m.lastByte, s)
          == BreaksIn(m.lastByte, p) + (if IsBreak(mp.lastByte, x) then 1 else 0);
    }
  }

  /** The last byte of an input, spelled out. */
  lemma RunSnoc(m: Machine, p: Bytes, x: byte)
    requires ValidMachine(m)
    ensures Run(m, p + [x]) == (ByteStep(Run(m, p).0, x).0, Run(m, p).1 + OptionToSeq(ByteStep(Run(m, p).0, x).1))
  {
    RunAppend(m, p, [x]);
    RunOne(Run(m, p).0, x);
  }

  /** A CR LF pair counts as one line when the CR does not itself follow a CR. */
  lemma CrLfCountsOnce(last: Option<byte>, s: Bytes)
    requires (if s == [] then last else Some(s[|s| - 1])) != Some(CR)
    ensures BreaksIn(last, s + [CR, LF]) == BreaksIn(last, s) + 1
  {
    var t := s + [CR, LF];
    assert t[..|t| - 1] == s + [CR];
    assert (s + [CR])[..|s|] == s;
  }

  /** Bytes other than CR and LF add no line, unless the first follows a CR. */
  lemma {:induction false} NoBreaksWithoutNewlines(last: Option<byte>, s: Bytes)
    requires last != Some(CR)
    requires forall i :: 0 <= i < |s| ==> s[i] != CR && s[i] != LF
    ensures BreaksIn(last, s) == 0
    decreases |s|
  {
    if s != [] {
      NoBreaksWithoutNewlines(last, s[..|s| - 1]);
    }
  }

  // State behaviour

  /** Default state: whitespace is skipped, `"` opens a quoted token, `/` may open a comment, anything else an unquoted token. */
  lemma DefaultState(m: Machine, b: byte)
    requires ValidMachine(m) && m.state == Default && b != NUL
    ensures var m1 := Run(m, [b]).0;
      && Run(m, [b]).1 == []
      && (IsAsciiWhitespace(b) ==> m1.state == Default && m1.text.None?)
      && (b == QUOTE ==> m1.state == Quoted && m1.text == Some([QUOTE]))
      && (b == SLASH ==> m1.state == MaybeComment && m1.text.None?)
      && (!IsAsciiWhitespace(b) && b != QUOTE && b != SLASH ==> m1.state == Unquoted && m1.text == Some([b]))
  {
    RunOne(m, b);
  }

  /** `//` starts a comment that swallows every byte up to the next CR or LF. */
  lemma {:induction false} CommentRunsToLineEnd(m: Machine, s: Bytes, e: byte)
    requires ValidMachine(m) && m.state == Comment && NoNul(s)
    requires forall i :: 0 <= i < |s| ==> s[i] != CR && s[i] != LF
    requires e == CR || e == LF
    ensures Run(m, s + [e]).1 == [] && Run(m, s + [e]).0.state == Default
    ensures Run(m, s).1 == [] && Run(m, s).0.state == Comment
    decreases |s|
  {
    if s == [] {
      assert s + [e] == [e];
      RunOne(m, e);
    } else {
      var m1 := ByteStep(m, s[0]).0;
      assert (s + [e])[0] == s[0] && (s + [e])[1..] == s[1..] + [e];
      RunCons(m, s + [e]);
      RunCons(m, s);
      CommentRunsToLineEnd(m1, s[1..], e);
    }
  }

  /** After a lone `/`, the next byte (whitespace included) is the second byte of an unquoted token. */
  lemma LoneSlash(m: Machine, b: byte)
    requires ValidMachine(m) && m.state == MaybeComment && b != SLASH && b != NUL
    ensures Run(m, [b]).1 == [] && Run(m, [b]).0.state == Unquoted
    ensures Run(m, [b]).0.text == Some([SLASH, b])
  {
    RunOne(m, b);
  }

  /** A `/` that ends the input yields no token. */
  lemma SlashAtEnd(m: Machine)
    requires ValidMachine(m) && m.state == MaybeComment
    ensures EofItems(m) == []
  {
  }

  /** The text of an unquoted token the writer can reproduce: no whitespace, no leading quote, no comment opener. */
  predicate UnquotedWord(w: Bytes) {
    && |w| >= 1 && NoNul(w) && !ContainsAsciiWhitespace(w) && w[0] != QUOTE
    && (w[0] == SLASH ==> |w| >= 2 && w[1] != SLASH)
  }

  /** A word read from the Default state stays pending as an unquoted token. */
  lemma {:induction false} RunUnquotedWord(m: Machine, w: Bytes)
    requires ValidMachine(m) && m.state == Default && UnquotedWord(w)
    ensures Run(m, w).1 == [] && Run(m, w).0.state == Unquoted && Run(m, w).0.text == Some(w)
    decreases |w|
  {
    var n := |w| - 1;
    assert !IsAsciiWhitespace(w[n]);
    if n == 0 {
      assert w == [w[0]];
      RunOne(m, w[0]);
    } else if n == 1 && w[0] == SLASH {
      assert w == [w[0]] + [w[1]] && w == [SLASH, w[1]];
      RunAppend(m, [w[0]], [w[1]]);
      RunOne(m, w[0]);
      RunOne(Run(m, [w[0]]).0, w[1]);
    } else {
      var p := w[..n];
      assert w == p + [w[n]];
      assert UnquotedWord(p) by {
        assert forall i :: 0 <= i < |p| ==> p[i] == w[i];
      }
      RunUnquotedWord(m, p);
      RunAppend(m, p, [w[n]]);
      RunOne(Run(m, p).0, w[n]);
    }
  }

  /** An unquoted token ends at whitespace, which is not part of it, and is tagged with the line then current. */
  lemma UnquotedTokenEndsAtWhitespace(m: Machine, w: Bytes, e: byte)
    requires ValidMachine(m) && m.state == Default && UnquotedWord(w) && IsAsciiWhitespace(e)
    ensures Run(m, w + [e]).1 == [Ok(Token(w, Run(m, w).0.lineNumber))]
    ensures Run(m, w + [e]).0.state == Default
  {
    RunUnquotedWord(m, w);
    RunAppend(m, w, [e]);
    RunOne(Run(m, w).0, e);
  }

  /** Inside a quoted token every byte but `"` is kept, whitespace and line breaks included. */
  lemma {:induction false} RunQuotedBody(m: Machine, s: Bytes)
    requires ValidMachine(m) && m.state == Quoted && NoNul(s)
    requires forall i :: 0 <= i < |s| ==> s[i] != QUOTE
    ensures Run(m, s).1 == [] && Run(m, s).0.state == Quoted && Run(m, s).0.text == Some(m.text.value + s)
    decreases |s|
  {
    if s != [] {
      var m1 := ByteStep(m, s[0]).0;
      assert m1.text == Some(m.text.value + [s[0]]);
      RunCons(m, s);
      RunQuotedBody(m1, s[1..]);
      assert s == [s[0]] + s[1..];
      ConcatAssoc(m.text.value, [s[0]], s[1..]);
    } else {
      assert m.text.value + s == m.text.value;
    }
  }

  /** A quoted token keeps everything up to and including its closing quote. */
  lemma QuotedToken(m: Machine, s: Bytes)
    requires ValidMachine(m) && m.state == Default && NoNul(s)
    requires forall i :: 0 <= i < |s| ==> s[i] != QUOTE
    ensures var q := [QUOTE] + s + [QUOTE];
      && Run(m, q).1 == [Ok(Token(q, Run(m, [QUOTE] + s).0.lineNumber))]
      && Run(m, q).0.state == Default
  {
    var m1 := Run(m, [QUOTE]).0;
    RunOne(m, QUOTE);
    RunQuotedBody(m1, s);
    RunAppend(m, [QUOTE], s);
    RunAppend(m, [QUOTE] + s, [QUOTE]);
    RunOne(Run(m, [QUOTE] + s).0, QUOTE);
  }

  /** Whitespace between tokens yields nothing. */
  lemma {:induction false} RunWhitespace(m: Machine, s: Bytes)
    requires ValidMachine(m) && m.state == Default
    requires forall i :: 0 <= i < |s| ==> IsAsciiWhitespace(s[i])
    ensures Run(m, s).1 == [] && Run(m, s).0.state == Default
    decreases |s|
  {
    if s != [] {
      RunWhitespace(ByteStep(m, s[0]).0, s[1..]);
    }
  }

  /**
   * A word, a space and an unclosed quote: the word is the first token and
   * the second item is the missing-quote error, both on line 1.
   */
  lemma UnclosedQuoteIsReported(w: Bytes, s: Bytes)
    requires UnquotedWord(w) && NoNul(s)
    requires forall i :: 0 <= i < |s| ==> s[i] != QUOTE && s[i] != CR && s[i] != LF
    ensures Lex(w + [SPACE, QUOTE] + s) == [Ok(Token(w, 1)), Err(FromLexer(MISSING_QUOTE, 1))]
  {
    var u := w + [SPACE];
    var v := u + [QUOTE];
    var input := v + s;
    assert w + [SPACE, QUOTE] + s == input;
    assert Run(START, v).1 == [Ok(Token(w, 1))] && Run(START, v).0.state == Quoted by {
      WordThenQuote(w);
    }
    var m2 := Run(START, v).0;
    assert Run(START, input).1 == [Ok(Token(w, 1))] && Run(START, input).0.state == Quoted by {
      RunQuotedBody(m2, s);
      RunAppend(START, v, s);
    }
    assert Run(START, input).0.lineNumber == 1 by {
      assert NoNul(input) && forall i :: 0 <= i < |input| ==> input[i] != CR && input[i] != LF by {
        assert forall i :: 0 <= i < |w| ==> input[i] == w[i] && !IsAsciiWhitespace(w[i]);
        assert forall i :: |v| <= i < |input| ==> input[i] == s[i - |v|];
      }
      StaysOnLineOne(input);
    }
  }

  /** A word, a space and a quote leave the machine inside a quoted token after emitting the word. */
  lemma WordThenQuote(w: Bytes)
    requires UnquotedWord(w)
    ensures Run(START, w + [SPACE] + [QUOTE]).1 == [Ok(Token(w, 1))]
    ensures Run(START, w + [SPACE] + [QUOTE]).0.state == Quoted
  {
    var u := w + [SPACE];
    assert forall i :: 0 <= i < |w| ==> !IsAsciiWhitespace(w[i]);
    StaysOnLineOne(w);
    UnquotedTokenEndsAtWhitespace(START, w, SPACE);
    var m1 := Run(START, u).0;
    RunSnoc(START, u, QUOTE);
    assert Run(START, u).1 + [] == Run(START, u).1;
  }

  /** Without CR or LF, the counter stays on line 1. */
  lemma StaysOnLineOne(s: Bytes)
    requires NoNul(s)
    requires forall i :: 0 <= i < |s| ==> s[i] != CR && s[i] != LF
    ensures Run(START, s).0.lineNumber == 1
  {
    NoBreaksWithoutNewlines(None, s);
    StartLine(s);
  }

  lemma StartLine(s: Bytes)
    requires NoNul(s) && BreaksIn(None, s) == 0
    ensures Run(START, s).0.lineNumber == 1
  {
    assert START.lineNumber == 1 && START.lastByte == None;
    LineCount(START, s);
    assert Saturated(1 + 0) == 1;
  }

  // ---------------------------------------------------------------------
  // The iterator

  class TokenIterator {
    var text: Option<Bytes>
    var state: LexState
    var byte: Option<byte>
    var lastByte: Option<byte>
    var lineNumber: LineNumber
    const input: Bytes
    /** How many bytes of the reader have been taken. */
    var consumed: nat

    function AsMachine(): Machine
      reads this
    {
      Machine(state, text, lastByte, lineNumber)
    }

    ghost predicate Valid()
      reads this
    {
      consumed <= |input| && byte == lastByte && ValidMachine(AsMachine())
    }

    /** The items the iterator has still to yield. */
    ghost function Remaining(): seq<Item>
      reads this
      requires Valid()
    {
      Pending(AsMachine(), input[consumed..])
    }

    constructor (input: Bytes)
      ensures Valid() && this.input == input && consumed == 0
      ensures Remaining() == Lex(input)
    {
      text := None;
      state := Default;
      byte := None;
      lastByte := None;
      lineNumber := 1;
      this.input := input;
      consumed := 0;
    }

    method LexDefault() returns (t: Option<Token>)
      requires state == Default && Coherent(state, text) && byte.Some? && byte.value != NUL
      modifies this`state, this`text
      ensures Stepped(state, text, t) == StateStep(Default, old(text), byte.value, lineNumber)
    {
      var b := byte.value;
      t := None;
      if !IsAsciiWhitespace(b) {
        if b == QUOTE {
          state := Quoted;
          text := Some([b]);
        } else if b == SLASH {
          state := MaybeComment;
        } else {
          state := Unquoted;
          text := Some([b]);
        }
      }
    }

    method LexComment() returns (t: Option<Token>)
      requires state == Comment && Coherent(state, text) && byte.Some? && byte.value != NUL
      modifies this`state
      ensures Stepped(state, text, t) == StateStep(Comment, old(text), byte.value, lineNumber)
    {
      if byte == Some(CR) || byte == Some(LF) {
        state := Default;
      }
      t := None;
    }

    method LexMaybeComment() returns (t: Option<Token>)
      requires state == MaybeComment && Coherent(state, text) && byte.Some? && byte.value != NUL
      modifies this`state, this`text
      ensures Stepped(state, text, t) == StateStep(MaybeComment, old(text), byte.value, lineNumber)
    {
      if byte == Some(SLASH) {
        state := Comment;
      } else {
        text := Some([SLASH, byte.value]);
        state := Unquoted;
      }
      t := None;
    }

    method LexQuoted() returns (t: Option<Token>)
      requires state == Quoted && Coherent(state, text) && byte.Some? && byte.value != NUL
      modifies this`state, this`text
      ensures Stepped(state, text, t) == StateStep(Quoted, old(text), byte.value, lineNumber)
    {
      text := Some(text.value + [byte.value]);
      if byte == Some(QUOTE) {
        var local := text.value;
        text := None;
        state := Default;
        t := Some(Token(local, lineNumber));
      } else {
        t := None;
      }
    }

    method LexUnquoted() returns (t: Option<Token>)
      requires state == Unquoted && Coherent(state, text) && byte.Some? && byte.value != NUL
      modifies this`state, this`text
      ensures Stepped(state, text, t) == StateStep(Unquoted, old(text), byte.value, lineNumber)
    {
      if IsAsciiWhitespace(byte.value) {
        var local := text.value;
        text := None;
        state := Default;
        t := Some(Token(local, lineNumber));
      } else {
        text := Some(text.value + [byte.value]);
        t := None;
      }
    }

    /** `byte_read`. */
    method ByteRead(b: byte) returns (r: Result<Option<Token>, TextParse>)
      requires Valid()
      modifies this`state, this`text, this`byte, this`lastByte, this`lineNumber
      ensures Valid()
      ensures (AsMachine(), if r.Ok? then (if r.value.Some? then Some(Ok(r.value.value)) else None)
                            else Some(Err(r.error)))
              == ByteStep(old(AsMachine()), b)
    {
      if b == NUL {
        return Err(FromLexer(NULL_BYTE, lineNumber));
      }
      byte := Some(b);
      var maybeToken;
      match state {
        case Default => maybeToken := LexDefault();
        case Comment => maybeToken := LexComment();
        case MaybeComment => maybeToken := LexMaybeComment();
        case Quoted => maybeToken := LexQuoted();
        case Unquoted => maybeToken := LexUnquoted();
      }
      if byte == Some(LF) || lastByte == Some(CR) {
        lineNumber := NextLine(lineNumber);
      }
      lastByte := byte;
      r := Ok(maybeToken);
    }

    /** `eof_read`: takes the pending text, if any. */
    method EofRead() returns (r: Result<Option<Token>, TextParse>)
      requires Valid() && consumed == |input|
      modifies this`text, this`state
      ensures Valid() && text.None? && Remaining() == []
      ensures (if r.Ok? then (if r.value.Some? then [Ok(r.value.value)] else []) else [Err(r.error)])
              == EofItems(old(AsMachine()))
    {
      var last := text;
      text := None;
      if state == Quoted || state == Unquoted {
        state := Default;
      }
      match last
      case None =>
        r := Ok(None);
      case Some(t) =>
        if t[0] == QUOTE && (t[|t| - 1] != QUOTE || |t| == 1) {
          r := Err(FromLexer(MISSING_QUOTE, lineNumber));
        } else {
          r := Ok(Some(Token(t, lineNumber)));
        }
    }

    /** Feeds one more byte of the reader to the machine: what it yields comes off the front of what remains. */
    method ReadOne() returns (r: Option<Item>)
      requires Valid() && consumed < |input|
      modifies this
      ensures Valid() && consumed == old(consumed) + 1
      ensures OptionToSeq(r) + Remaining() == old(Remaining())
    {
      var b := input[consumed];
      ghost var before := AsMachine();
      ghost var rest := input[consumed + 1..];
      assert input[consumed..] == [b] + rest;
      consumed := consumed + 1;
      PendingCons(before, b, rest);
      var res := ByteRead(b);
      if res.Err? {
        r := Some(Err(res.error));
      } else if res.value.Some? {
        r := Some(Ok(res.value.value));
      } else {
        r := None;
      }
    }

    /** The reader is exhausted: the pending text, if any, is the last item. */
    method ReadEnd() returns (r: Option<Item>)
      requires Valid() && consumed == |input|
      modifies this
      ensures Valid() && Remaining() == []
      ensures OptionToSeq(r) == old(Remaining())
    {
      assert input[consumed..] == [];
      var res := EofRead();
      if res.Err? {
        r := Some(Err(res.error));
      } else if res.value.Some? {
        r := Some(Ok(res.value.value));
      } else {
        r := None;
      }
    }

    /** `Iterator::next`: the next item of the stream, or `None` once it is exhausted. */
    method Next() returns (r: Option<Item>)
      requires Valid()
      modifies this
      ensures Valid()
      ensures old(Remaining()) == [] ==> r.None? && Remaining() == []
      ensures old(Remaining()) != [] ==> r == Some(old(Remaining())[0]) && Remaining() == old(Remaining())[1..]
    {
      ghost var todo := Remaining();
      while consumed < |input|
        invariant Valid()
        invariant Remaining() == todo
        decreases |input| - consumed
      {
        r := ReadOne();
        if r.Some? {
          assert todo == [r.value] + Remaining();
          return;
        }
      }
      r := ReadEnd();
    }
  }
}
