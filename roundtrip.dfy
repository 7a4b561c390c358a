/**
 * Reading written text back.
 *
 * A texture name is written bare unless it needs quotes, and the lexer must
 * then read it back as one token that the parser turns into the same name.
 * The writer as it stands decides on quotes by emptiness and whitespace
 * only, so a bare name `//` passes validation, is written bare and is then
 * read as the start of a comment. The map checks and writers take the rule
 * as a parameter (`Repr.TextureRule`): `AsWritten` is the source's, and
 * `Corrected` (`Repr.CheckTexture`, `MapWriter.TextureText`) also quotes a
 * name that reads as a comment, so that every name it accepts reads back.
 */
module Roundtrip {
  import opened Common
  import opened Lexer
  import opened Repr
  import opened Parser
  import opened MapWriter

  const COMMENT_TEXTURE: Bytes := [SLASH, SLASH]

  /**
   * As written: the texture `//` passes validation and is written bare; the
   * lexer then reads it, and the space after it, as an open comment and
   * yields no token, so the rest of the surface line is lost.
   */
  lemma CommentTextureIsLost(m: Machine)
    requires ValidMachine(m) && m.state == Default
    ensures CheckTextureAsWritten(COMMENT_TEXTURE).Ok?
    ensures TextureTextAsWritten(COMMENT_TEXTURE) == COMMENT_TEXTURE
    ensures Run(m, COMMENT_TEXTURE + [SPACE]).1 == [] && Run(m, COMMENT_TEXTURE + [SPACE]).0.state == Comment
  {
    assert !ContainsAsciiWhitespace(COMMENT_TEXTURE) by {
      assert forall i :: 0 <= i < 2 ==> COMMENT_TEXTURE[i] == SLASH;
    }
    var s := COMMENT_TEXTURE + [SPACE];
    assert s == [SLASH] + [SLASH] + [SPACE];
    RunOne(m, SLASH);
    var m1 := Run(m, [SLASH]).0;
    RunOne(m1, SLASH);
    var m2 := Run(m1, [SLASH]).0;
    RunOne(m2, SPACE);
    RunAppend(m, [SLASH], [SLASH]);
    RunAppend(m, [SLASH] + [SLASH], [SPACE]);
  }

  /**
   * As written: the texture `/` passes validation and is written bare; the
   * lexer then takes the space after it into an unquoted token `/ ` that is
   * still open, so the next word of the surface line joins the texture.
   */
  lemma LoneSlashTextureRunsOn(m: Machine)
    requires ValidMachine(m) && m.state == Default
    ensures CheckTextureAsWritten([SLASH]).Ok?
    ensures TextureTextAsWritten([SLASH]) == [SLASH]
    ensures var r := Run(m, [SLASH, SPACE]);
      && r.1 == [] && r.0.state == Unquoted && r.0.text == Some([SLASH, SPACE])
  {
    assert !ContainsAsciiWhitespace([SLASH]);
    assert [SLASH, SPACE] == [SLASH] + [SPACE];
    RunOne(m, SLASH);
    var m1 := Run(m, [SLASH]).0;
    RunOne(m1, SPACE);
    RunAppend(m, [SLASH], [SPACE]);
  }

  /** A quotable name between quotes, then whitespace, lexes as one token of that text. */
  lemma QuotedNameLexes(m: Machine, t: CString, e: byte)
    requires ValidMachine(m) && m.state == Default && QuotedWritable(t) && IsAsciiWhitespace(e)
    ensures var r := Run(m, MapWriter.Quoted(t) + [e]);
      && |r.1| == 1 && r.1[0].Ok? && r.1[0].value.text == MapWriter.Quoted(t) && r.0.state == Default
  {
    var q := [QUOTE] + t + [QUOTE];
    assert MapWriter.Quoted(t) == q;
    assert forall i :: 0 <= i < |t| ==> t[i] != QUOTE;
    QuotedToken(m, t);
    var mq := Run(m, q);
    RunAppend(m, q, [e]);
    RunOne(mq.0, e);
    var step := ByteStep(mq.0, e);
    assert step.1.None? && step.0.state == Default;
    assert Run(m, q + [e]) == (step.0, mq.1 + []);
  }

  /** A token whose text is a quotable name between quotes strips back to the name. */
  lemma QuotedTextStrips(t: CString, token: Token)
    requires QuotedWritable(t) && token.text == MapWriter.Quoted(t)
    ensures Lexeme(token) && TextureOf(token) == t
  {
    var q := [QUOTE] + t + [QUOTE];
    assert MapWriter.Quoted(t) == q;
    assert NoNul(q) by {
      assert forall i :: 1 <= i <= |t| ==> q[i] == t[i - 1];
    }
    StripQuotedUndoesQuoting(t);
  }

  /** A quotable name between quotes, then whitespace: one quoted token, which strips back to the name. */
  lemma QuotedNameReadsBack(m: Machine, t: CString, e: byte)
    requires ValidMachine(m) && m.state == Default && QuotedWritable(t) && IsAsciiWhitespace(e)
    ensures var r := Run(m, MapWriter.Quoted(t) + [e]);
      && |r.1| == 1 && r.1[0].Ok? && r.1[0].value.text == MapWriter.Quoted(t) && r.0.state == Default
      && Lexeme(r.1[0].value) && TextureOf(r.1[0].value) == t
  {
    QuotedNameLexes(m, t, e);
    QuotedTextStrips(t, Run(m, MapWriter.Quoted(t) + [e]).1[0].value);
  }

  /** The corrected writer's texture text, with the whitespace after it, is read back as one token naming the texture. */
  lemma TextureReadsBack(m: Machine, t: CString, e: byte)
    requires ValidMachine(m) && m.state == Default && CheckTexture(t).Ok? && IsAsciiWhitespace(e)
    ensures var r := Run(m, TextureText(t) + [e]);
      && |r.1| == 1 && r.1[0].Ok? && r.1[0].value.text == TextureText(t) && r.0.state == Default
      && Lexeme(r.1[0].value) && TextureOf(r.1[0].value) == t
  {
    ValidTextureIsReadable(t);
    if NeedsQuotes(t) {
      QuotedNameReadsBack(m, t, e);
    } else {
      assert UnquotedWord(t);
      UnquotedTokenEndsAtWhitespace(m, t, e);
    }
  }
}
