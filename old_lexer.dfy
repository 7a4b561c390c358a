/**
 * The older tokenizer, `lex`: the same five states as the map tokenizer,
 * run by a `for` loop over the bytes of a reader, with the tokens pushed onto
 * a queue. It differs from the map tokenizer in three ways: its whitespace is
 * only space, tab, LF and CR (a form feed is an ordinary byte); a NUL byte is
 * an ordinary byte; and at end of input any pending text, an unclosed quoted
 * token included, becomes the last token, so it never reports an error.
 *
 * `Scan` is the loop as a function of the bytes read so far (one `Feed` per
 * byte); the method `Lex` is the loop itself and is proved to return
 * `Tokens(input)`.
 */
module OldLexer {
  import opened Common
  import Lexer
  import Errors

  /** A token of this lexer; its line counter is a plain `usize`, modelled unbounded. */
  datatype Token = Token(text: Bytes, lineNumber: nat)

  /** `match_byte`: the same rule as the map tokenizer's. */
  predicate MatchByte(t: Token, b: byte): (r: bool)
    ensures r <==> t.text == [b]
    ensures r <==> Lexer.MatchByte(Lexer.Token(t.text, 1), b)
  {
    |t.text| == 1 && t.text[0] == b
  }

  /** `match_quoted`: the same rule as the map tokenizer's. */
  predicate MatchQuoted(t: Token): (r: bool)
    ensures r <==> Lexer.MatchQuoted(Lexer.Token(t.text, 1))
  {
    |t.text| >= 2 && t.text[0] == QUOTE && t.text[|t.text| - 1] == QUOTE
  }

  /** The `whitespace` set: space, tab, LF and CR. */
  predicate IsWhitespace(b: byte): (r: bool)
    ensures r <==> IsAsciiWhitespace(b) && b != FF
  {
    b == SPACE || b == TAB || b == LF || b == CR
  }

  /** The cells the closures share: state, pending text, last byte and line counter. */
  datatype Cells = Cells(state: Lexer.LexState, text: Option<Bytes>, lastByte: Option<byte>, lineNumber: nat)

  const INITIAL: Cells := Cells(Lexer.Default, None, None, 1)

  /**
   * Text of an open unquoted token: it does not start with a quote or
   * whitespace and holds no whitespace, except that the byte after a leading
   * `/` may be anything.
   */
  predicate OpenWord(t: Bytes) {
    && |t| >= 1 && t[0] != QUOTE && !IsWhitespace(t[0])
    && forall i :: 1 <= i < |t| ==> !IsWhitespace(t[i]) || (i == 1 && t[0] == SLASH)
  }

  /** Pending text exists exactly in the two token states, and has their shape. */
  predicate Shaped(st: Lexer.LexState, text: Option<Bytes>) {
    match st
    case Quoted => text.Some? && Lexer.PendingQuoted(text.value)
    case Unquoted => text.Some? && OpenWord(text.value)
    case _ => text.None?
  }

  /** The text of a token the loop emits: a word, or a quoted text closed by its quote. */
  predicate Closed(t: Bytes) {
    OpenWord(t) || (|t| >= 2 && t[|t| - 1] == QUOTE && Lexer.PendingQuoted(t[..|t| - 1]))
  }

  datatype Stepped = Stepped(state: Lexer.LexState, text: Option<Bytes>, token: Option<Token>)

  /** `lex_default`, `lex_comment`, `lex_maybe_comment`, `lex_quoted`, `lex_unquoted`. */
  function Transition(st: Lexer.LexState, text: Option<Bytes>, b: byte, line: nat): (r: Stepped)
    requires Shaped(st, text)
    ensures Shaped(r.state, r.text)
    ensures r.token.Some? <==> r.state == Lexer.Default && (st == Lexer.Quoted || st == Lexer.Unquoted)
    ensures r.token.Some? ==> Closed(r.token.value.text) && r.token.value.lineNumber == line
  {
    match st
    case Default =>
      if IsWhitespace(b) then Stepped(Lexer.Default, text, None)
      else if b == QUOTE then Stepped(Lexer.Quoted, Some([b]), None)
      else if b == SLASH then Stepped(Lexer.MaybeComment, text, None)
      else Stepped(Lexer.Unquoted, Some([b]), None)
    case Comment =>
      if b == CR || b == LF then Stepped(Lexer.Default, text, None) else Stepped(Lexer.Comment, text, None)
    case MaybeComment =>
      if b == SLASH then Stepped(Lexer.Comment, text, None)
      else Stepped(Lexer.Unquoted, Some([SLASH, b]), None)
    case Quoted =>
      var t := text.value + [b];
      if b == QUOTE then
        assert t[..|t| - 1] == text.value;
        Stepped(Lexer.Default, None, Some(Token(t, line)))
      else
        Stepped(Lexer.Quoted, Some(t), None)
    case Unquoted =>
      if IsWhitespace(b) then Stepped(Lexer.Default, None, Some(Token(text.value, line)))
      else Stepped(Lexer.Unquoted, Some(text.value + [b]), None)
  }

  predicate Valid(c: Cells) {
    Shaped(c.state, c.text)
  }

  /** One turn of the loop: the state's closure, then the line counter, then the last byte. */
  function Feed(c: Cells, b: byte): (r: (Cells, Option<Token>))
    requires Valid(c)
    ensures Valid(r.0) && r.0.lastByte == Some(b)
    ensures r.0.lineNumber == c.lineNumber + if Lexer.IsBreak(c.lastByte, b) then 1 else 0
  {
    var s := Transition(c.state, c.text, b, c.lineNumber);
    var line := if b == LF || c.lastByte == Some(CR) then c.lineNumber + 1 else c.lineNumber;
    (Cells(s.state, s.text, Some(b), line), s.token)
  }

  function AsSeq(t: Option<Token>): seq<Token> {
    if t.Some? then [t.value] else []
  }

  /** The cells and the queue after the loop has read the bytes `s`. */
  function Scan(c: Cells, s: Bytes): (r: (Cells, seq<Token>))
    requires Valid(c)
    ensures Valid(r.0)
    decreases |s|
  {
    if s == [] then (c, [])
    else
      var before := Scan(c, s[..|s| - 1]);
      var after := Feed(before.0, s[|s| - 1]);
      (after.0, before.1 + AsSeq(after.1))
  }

  /** After the loop: the pending text, if any, is the last token. */
  function Flush(c: Cells): seq<Token> {
    if c.text.Some? then [Token(c.text.value, c.lineNumber)] else []
  }

  /** The queue `lex` returns. */
  function Tokens(input: Bytes): seq<Token> {
    Scan(INITIAL, input).1 + Flush(Scan(INITIAL, input).0)
  }

  /** `lex`: the `for` loop over the bytes, then the pending text. */
  method Lex(input: Bytes) returns (queue: seq<Token>)
    ensures queue == Tokens(input)
  {
    queue := [];
    var state := Lexer.Default;
    var text: Option<Bytes> := None;
    var lastByte: Option<byte> := None;
    var lineNumber: nat := 1;
    for i := 0 to |input|
      invariant (Cells(state, text, lastByte, lineNumber), queue) == Scan(INITIAL, input[..i])
    {
      var b := input[i];
      assert input[..i + 1][..i] == input[..i];
      ghost var step := Feed(Cells(state, text, lastByte, lineNumber), b);
      ghost var before := queue;
      match state {
        case Default =>
          if !IsWhitespace(b) {
            if b == QUOTE {
              state := Lexer.Quoted;
              text := Some([b]);
            } else if b == SLASH {
              state := Lexer.MaybeComment;
            } else {
              state := Lexer.Unquoted;
              text := Some([b]);
            }
          }
        case Comment =>
          if b == CR || b == LF {
            state := Lexer.Default;
          }
        case MaybeComment =>
          if b == SLASH {
            state := Lexer.Comment;
          } else {
            text := Some([SLASH, b]);
            state := Lexer.Unquoted;
          }
        case Quoted =>
          text := Some(text.value + [b]);
          if b == QUOTE {
            queue := queue + [Token(text.value, lineNumber)];
            text := None;
            state := Lexer.Default;
          }
        case Unquoted =>
          if IsWhitespace(b) {
            queue := queue + [Token(text.value, lineNumber)];
            text := None;
            state := Lexer.Default;
          } else {
            text := Some(text.value + [b]);
          }
      }
      if b == LF || lastByte == Some(CR) {
        lineNumber := lineNumber + 1;
      }
      lastByte := Some(b);
      assert Cells(state, text, lastByte, lineNumber) == step.0;
      assert queue == before + AsSeq(step.1);
    }
    assert input[..|input|] == input;
    if text.Some? {
      queue := queue + [Token(text.value, lineNumber)];
    }
  }

  // ---------------------------------------------------------------------
  // Properties

  /** Every token the loop queues is a word or a quoted text closed by its quote. */
  lemma {:induction false} ScanTokensClosed(c: Cells, s: Bytes)
    requires Valid(c)
    ensures forall i :: 0 <= i < |Scan(c, s).1| ==> Closed(Scan(c, s).1[i].text)
    decreases |s|
  {
    if s != [] {
      ScanTokensClosed(c, s[..|s| - 1]);
    }
  }

  /** Reading one more byte is one more turn of the loop. */
  lemma ScanSnoc(c: Cells, u: Bytes, b: byte)
    requires Valid(c)
    ensures Scan(c, u + [b]) == (Feed(Scan(c, u).0, b).0, Scan(c, u).1 + AsSeq(Feed(Scan(c, u).0, b).1))
  {
    var ub := u + [b];
    assert ub[..|ub| - 1] == u && ub[|ub| - 1] == b;
  }

  /** Reading two pieces one after the other is reading their concatenation; tokens queue in input order. */
  lemma {:induction false} ScanAppend(c: Cells, s: Bytes, t: Bytes)
    requires Valid(c)
    ensures Scan(c, s + t) == (Scan(Scan(c, s).0, t).0, Scan(c, s).1 + Scan(Scan(c, s).0, t).1)
    decreases |t|
  {
    var mid := Scan(c, s).0;
    if t == [] {
      assert s + t == s;
      assert Scan(mid, t) == (mid, []);
      assert Scan(c, s).1 + [] == Scan(c, s).1;
    } else {
      var t', e := t[..|t| - 1], t[|t| - 1];
      assert t == t' + [e];
      assert s + t == (s + t') + [e];
      ScanAppend(c, s, t');
      ScanSnoc(c, s + t', e);
      ScanSnoc(mid, t', e);
      var a, b := Scan(c, s).1, Scan(mid, t').1;
      var o := AsSeq(Feed(Scan(mid, t').0, e).1);
      ConcatAssoc(a, b, o);
    }
  }

  lemma ScanOne(c: Cells, b: byte)
    requires Valid(c)
    ensures Scan(c, [b]) == (Feed(c, b).0, AsSeq(Feed(c, b).1))
  {
    assert [b][..0] == [];
    assert Scan(c, []) == (c, []);
    assert [] + AsSeq(Feed(c, b).1) == AsSeq(Feed(c, b).1);
  }

  /** The line counter after reading `s` is the starting line plus the breaks in `s`, with nothing lost to saturation. */
  lemma {:induction false} LineCount(c: Cells, s: Bytes)
    requires Valid(c)
    ensures Scan(c, s).0.lineNumber == c.lineNumber + Lexer.BreaksIn(c.lastByte, s)
    ensures Scan(c, s).0.lastByte == if s == [] then c.lastByte else Some(s[|s| - 1])
    decreases |s|
  {
    if s != [] {
      var n := |s| - 1;
      LineCount(c, s[..n]);
      assert Lexer.Previous(c.lastByte, s, n) == Scan(c, s[..n]).0.lastByte;
    }
  }

  /** Inside a quoted token every byte but `"` is kept, whitespace and line breaks included. */
  lemma {:induction false} QuotedBody(c: Cells, s: Bytes)
    requires Valid(c) && c.state == Lexer.Quoted
    requires forall i :: 0 <= i < |s| ==> s[i] != QUOTE
    ensures Scan(c, s).1 == [] && Scan(c, s).0.state == Lexer.Quoted
    ensures Scan(c, s).0.text == Some(c.text.value + s)
    decreases |s|
  {
    if s == [] {
      assert c.text.value + s == c.text.value;
    } else {
      var n := |s| - 1;
      QuotedBody(c, s[..n]);
      assert c.text.value + s[..n] + [s[n]] == c.text.value + s;
    }
  }

  /** A quoted token keeps everything up to and including its closing quote. */
  lemma QuotedToken(c: Cells, s: Bytes)
    requires Valid(c) && c.state == Lexer.Default
    requires forall i :: 0 <= i < |s| ==> s[i] != QUOTE
    ensures var q := [QUOTE] + s + [QUOTE];
      && Scan(c, q).1 == [Token(q, Scan(c, [QUOTE] + s).0.lineNumber)]
      && Scan(c, q).0.state == Lexer.Default && Scan(c, q).0.text.None?
  {
    ScanOne(c, QUOTE);
    QuotedBody(Scan(c, [QUOTE]).0, s);
    ScanAppend(c, [QUOTE], s);
    ScanAppend(c, [QUOTE] + s, [QUOTE]);
    ScanOne(Scan(c, [QUOTE] + s).0, QUOTE);
  }

  /**
   * An unclosed quote is not an error here: the open quote and everything
   * after it become the last token, tagged with the line the input ends on
   * (which `LineCount` gives).
   */
  lemma UnclosedQuoteIsLastToken(s: Bytes)
    requires forall i :: 0 <= i < |s| ==> s[i] != QUOTE
    ensures Tokens([QUOTE] + s) == [Token([QUOTE] + s, Scan(INITIAL, [QUOTE] + s).0.lineNumber)]
  {
    var q := [QUOTE] + s;
    ScanOne(INITIAL, QUOTE);
    var c1 := Scan(INITIAL, [QUOTE]).0;
    assert Scan(INITIAL, [QUOTE]).1 == [] && c1.state == Lexer.Quoted && c1.text == Some([QUOTE]);
    QuotedBody(c1, s);
    ScanAppend(INITIAL, [QUOTE], s);
    var end := Scan(c1, s).0;
    assert Scan(INITIAL, q) == (end, [] + Scan(c1, s).1);
    assert Flush(end) == [Token(q, end.lineNumber)];
  }

  /** `//` starts a comment that swallows every byte up to the next CR or LF. */
  lemma {:induction false} CommentRunsToLineEnd(c: Cells, s: Bytes)
    requires Valid(c) && c.state == Lexer.Comment
    requires forall i :: 0 <= i < |s| ==> s[i] != CR && s[i] != LF
    ensures Scan(c, s).1 == [] && Scan(c, s).0.state == Lexer.Comment
    decreases |s|
  {
    if s != [] {
      CommentRunsToLineEnd(c, s[..|s| - 1]);
    }
  }

  /** The CR or LF after a comment ends it, and yields nothing. */
  lemma CommentEnds(c: Cells, s: Bytes, e: byte)
    requires Valid(c) && c.state == Lexer.Comment
    requires forall i :: 0 <= i < |s| ==> s[i] != CR && s[i] != LF
    requires e == CR || e == LF
    ensures Scan(c, s + [e]).1 == [] && Scan(c, s + [e]).0.state == Lexer.Default
  {
    CommentRunsToLineEnd(c, s);
  }

  /** A lone `/` and the byte after it, whitespace or quote included, open an unquoted token. */
  lemma LoneSlash(c: Cells, b: byte)
    requires Valid(c) && c.state == Lexer.Default && b != SLASH
    ensures Scan(c, [SLASH, b]).1 == [] && Scan(c, [SLASH, b]).0.state == Lexer.Unquoted
    ensures Scan(c, [SLASH, b]).0.text == Some([SLASH, b])
  {
    assert [SLASH, b] == [SLASH] + [b];
    ScanAppend(c, [SLASH], [b]);
    ScanOne(c, SLASH);
    ScanOne(Scan(c, [SLASH]).0, b);
  }

  /** A `/` that ends the input yields no token. */
  lemma SlashAtEnd(s: Bytes)
    requires Scan(INITIAL, s).0.state == Lexer.Default
    ensures Tokens(s + [SLASH]) == Scan(INITIAL, s).1
  {
    ScanSnoc(INITIAL, s, SLASH);
    var before := Scan(INITIAL, s);
    var after := Feed(before.0, SLASH);
    assert after.1.None? && after.0.text.None?;
    assert before.1 + [] + [] == before.1;
  }

  /** A word with no whitespace, opened by a byte other than `"` and `/`. */
  predicate Word(w: Bytes) {
    |w| >= 1 && w[0] != QUOTE && w[0] != SLASH && forall i :: 0 <= i < |w| ==> !IsWhitespace(w[i])
  }

  /** A word read from the Default state stays pending as an unquoted token. */
  lemma {:induction false} WordStaysPending(c: Cells, w: Bytes)
    requires Valid(c) && c.state == Lexer.Default && Word(w)
    ensures Scan(c, w).1 == [] && Scan(c, w).0.state == Lexer.Unquoted && Scan(c, w).0.text == Some(w)
    decreases |w|
  {
    var n := |w| - 1;
    if n == 0 {
      assert w == [w[0]];
      ScanOne(c, w[0]);
    } else {
      var p := w[..n];
      assert Word(p) by {
        assert forall i :: 0 <= i < |p| ==> p[i] == w[i];
      }
      WordStaysPending(c, p);
      assert w[..|w| - 1] == p;
      var mp := Scan(c, p).0;
      var after := Feed(mp, w[n]);
      assert Scan(c, w) == (after.0, Scan(c, p).1 + AsSeq(after.1));
      assert after.0.text == Some(p + [w[n]]) && after.1.None? && after.0.state == Lexer.Unquoted;
      assert p + [w[n]] == w;
    }
  }

  /** An unquoted token ends at whitespace, which is not part of it. */
  lemma WordEndsAtWhitespace(c: Cells, w: Bytes, e: byte)
    requires Valid(c) && c.state == Lexer.Default && Word(w) && IsWhitespace(e)
    ensures Scan(c, w + [e]).1 == [Token(w, Scan(c, w).0.lineNumber)]
    ensures Scan(c, w + [e]).0.state == Lexer.Default
  {
    WordStaysPending(c, w);
    assert (w + [e])[..|w|] == w;
  }

  /**
   * The two tokenizers part ways on form feed and NUL: here a form feed is a
   * one-byte word and a NUL is a one-byte word, where the map tokenizer skips
   * the form feed and reports the NUL.
   */
  lemma FormFeedAndNulAreWords()
    ensures Tokens([FF]) == [Token([FF], 1)] && Lexer.Lex([FF]) == []
    ensures Tokens([NUL]) == [Token([NUL], 1)]
    ensures Lexer.Lex([NUL]) == [Err(Errors.FromLexer(Lexer.NULL_BYTE, 1))]
  {
    ScanOne(INITIAL, FF);
    ScanOne(INITIAL, NUL);
    Lexer.RunOne(Lexer.START, FF);
    Lexer.RunOne(Lexer.START, NUL);
  }
}
