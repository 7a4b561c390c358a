/**
 * The recursive-descent map parser over the token stream.
 *
 * The stream is the sequence of lexer items; a position in it plays the
 * part of the peekable cursor: peeking reads the item at the position and
 * extracting also moves past it. Reading past the last item gives no token,
 * which every expectation turns into the end-of-file error. An error item,
 * whether peeked or extracted, ends the parse with that error.
 *
 * The straight-line parsers are functions. The four loops (`parse`,
 * `parse_edict`, `parse_brushes`, `parse_brush`) are methods whose result is
 * proved equal to a function that gives the same answer by recursion.
 */
module Parser {
  import opened Common
  import opened Errors
  import opened Lexer
  import opened Repr

  /** A parsed value and the position of the first item not consumed. */
  datatype Parsed<T> = Parsed(value: T, next: nat)

  type Parsing<T> = Result<Parsed<T>, TextParse>

  /**
   * What the parser relies on about a token: it is not empty, holds no NUL
   * byte, and is two bytes long at least when it starts with a quote.
   */
  predicate Lexeme(t: Token) {
    |t.text| >= 1 && NoNul(t.text) && (t.text[0] == QUOTE ==> |t.text| >= 2)
  }

  predicate AllLexemes(items: seq<Item>) {
    forall i {:trigger Lexeme(items[i].value)} :: 0 <= i < |items| && items[i].Ok? ==> Lexeme(items[i].value)
  }

  /** The lexer's tokens are all of that kind. */
  lemma WellFormedAreLexemes(items: seq<Item>)
    requires AllWellFormed(items)
    ensures AllLexemes(items)
  {
    forall i | 0 <= i < |items| && items[i].Ok?
      ensures Lexeme(items[i].value)
    {
      assert WellFormedToken(items[i].value);
    }
  }

  /** A position in a stream of such tokens. */
  predicate Stream(items: seq<Item>, pos: nat) {
    pos <= |items| && AllLexemes(items)
  }

  /** Some token was consumed and the next position is still in the stream. */
  predicate Advanced<T>(items: seq<Item>, pos: nat, r: Parsing<T>) {
    r.Ok? ==> pos < r.value.next <= |items|
  }

  // ---------------------------------------------------------------------
  // Expectations on one token

  /** `extract`: the next token or none at the end, or the error item found there. */
  function Extract(items: seq<Item>, pos: nat): (r: Result<Option<Token>, TextParse>)
    requires pos <= |items|
    ensures r == Ok(None) <==> pos == |items|
    ensures r.Ok? && r.value.Some? ==> pos < |items| && items[pos] == Ok(r.value.value)
    ensures r.Err? ==> pos < |items| && items[pos] == Err(r.error)
  {
    if pos == |items| then Ok(None)
    else if items[pos].Err? then Err(items[pos].error)
    else Ok(Some(items[pos].value))
  }

  /** "Expected `c`, got `text`". */
  function ExpectedMessage(what: string, t: Token): string {
    "Expected " + what + ", got `" + TextAsString(t) + "`"
  }

  function Ticked(b: byte): string {
    "`" + [ByteToChar(b)] + "`"
  }

  /** `expect_byte`. */
  function ExpectByte(token: Option<Token>, b: byte): (r: Result<(), TextParse>)
    ensures r.Ok? <==> token.Some? && MatchByte(token.value, b)
    ensures token.None? ==> r == Err(Eof())
    ensures token.Some? && r.Err? ==> r.error == FromParser(ExpectedMessage(Ticked(b), token.value), token.value.lineNumber)
  {
    match token
    case Some(t) =>
      if MatchByte(t, b) then Ok(()) else Err(FromParser(ExpectedMessage(Ticked(b), t), t.lineNumber))
    case None => Err(Eof())
  }

  /** The alternatives of `expect_byte_or`, each in backticks, separated by ", ". */
  function Alternatives(rest: seq<byte>): string
    decreases |rest|
  {
    if rest == [] then "" else if |rest| == 1 then Ticked(rest[0]) else Ticked(rest[0]) + ", " + Alternatives(rest[1..])
  }

  /** `expect_byte_or`: only `b` is accepted; the message lists the other bytes that would have been. */
  function ExpectByteOr(token: Option<Token>, b: byte, rest: seq<byte>): (r: Result<(), TextParse>)
    ensures r.Ok? <==> token.Some? && MatchByte(token.value, b)
    ensures token.None? ==> r == Err(Eof())
    ensures token.Some? && r.Err? ==>
              r.error == FromParser(ExpectedMessage(Alternatives(rest) + " or " + Ticked(b), token.value), token.value.lineNumber)
  {
    match token
    case Some(t) =>
      if MatchByte(t, b) then Ok(())
      else Err(FromParser(ExpectedMessage(Alternatives(rest) + " or " + Ticked(b), t), t.lineNumber))
    case None => Err(Eof())
  }

  /** `expect_quoted`. */
  function ExpectQuoted(token: Option<Token>): (r: Result<(), TextParse>)
    ensures r.Ok? <==> token.Some? && MatchQuoted(token.value)
    ensures token.None? ==> r == Err(Eof())
    ensures token.Some? && r.Err? ==> r.error == FromParser(ExpectedMessage("quoted", token.value), token.value.lineNumber)
  {
    match token
    case Some(t) => if MatchQuoted(t) then Ok(()) else Err(FromParser(ExpectedMessage("quoted", t), t.lineNumber))
    case None => Err(Eof())
  }

  /** `expect_float`: the number the token's text denotes. */
  function ExpectFloat(c: FloatText, token: Option<Token>): (r: Result<F64, TextParse>)
    ensures token.None? ==> r == Err(Eof())
    ensures token.Some? ==>
              match ReadNumber(c, TextAsString(token.value))
              case Some(x) => r == Ok(x)
              case None => r == Err(FromParser(ExpectedMessage("number", token.value), token.value.lineNumber))
  {
    match token
    case Some(t) =>
      (match ReadNumber(c, TextAsString(t))
       case Some(x) => Ok(x)
       case None => Err(FromParser(ExpectedMessage("number", t), t.lineNumber)))
    case None => Err(Eof())
  }

  /** `strip_quoted`: drop the first and the last byte. */
  function StripQuoted(text: Bytes): (r: Bytes)
    requires |text| >= 2
    ensures |r| == |text| - 2
    ensures NoNul(text) ==> NoNul(r)
  {
    text[1..|text| - 1]
  }

  /** Stripping undoes quoting: the inner text between two quotes comes back. */
  lemma StripQuotedUndoesQuoting(inner: Bytes)
    ensures StripQuoted([QUOTE] + inner + [QUOTE]) == inner
  {
    assert ([QUOTE] + inner + [QUOTE])[1..|inner| + 1] == inner;
  }

  // ---------------------------------------------------------------------
  // Fixed sequences of tokens

  /** Extract a token and expect it to be `b`; the position after it. */
  function ByteAt(items: seq<Item>, pos: nat, b: byte): (r: Result<nat, TextParse>)
    requires pos <= |items|
    ensures r.Ok? <==> pos < |items| && items[pos].Ok? && MatchByte(items[pos].value, b)
    ensures r.Ok? ==> r.value == pos + 1
  {
    var token := Extract(items, pos);
    if token.Err? then Err(token.error)
    else
      var e := ExpectByte(token.value, b);
      if e.Err? then Err(e.error) else Ok(pos + 1)
  }

  /** `n` numbers in a row, or the first failure among them. */
  function FloatsAt(c: FloatText, items: seq<Item>, pos: nat, n: nat): (r: Parsing<seq<F64>>)
    requires pos <= |items|
    ensures r.Ok? ==> |r.value.value| == n && r.value.next == pos + n <= |items|
    decreases n
  {
    if n == 0 then Ok(Parsed([], pos))
    else
      var token := Extract(items, pos);
      if token.Err? then Err(token.error)
      else
        var x := ExpectFloat(c, token.value);
        if x.Err? then Err(x.error)
        else
          var rest := FloatsAt(c, items, pos + 1, n - 1);
          if rest.Err? then rest else Ok(Parsed([x.value] + rest.value.value, rest.value.next))
  }

  /** `parse_point`: `(` x y z `)`. */
  function PointAt(c: FloatText, items: seq<Item>, pos: nat): (r: Parsing<Point>)
    requires pos <= |items|
    ensures r.Ok? ==> r.value.next == pos + 5 <= |items|
  {
    var open := ByteAt(items, pos, LPAREN);
    if open.Err? then Err(open.error)
    else
      var xs := FloatsAt(c, items, open.value, 3);
      if xs.Err? then Err(xs.error)
      else
        var close := ByteAt(items, xs.value.next, RPAREN);
        if close.Err? then Err(close.error) else Ok(Parsed(xs.value.value, close.value))
  }

  /** `parse_legacy_alignment`: offset x and y, rotation, scale x and y. */
  function LegacyAlignmentAt(c: FloatText, items: seq<Item>, pos: nat): (r: Parsing<Alignment>)
    requires pos <= |items|
    ensures r.Ok? ==> r.value.next == pos + 5 <= |items| && r.value.value.axes.None?
  {
    var xs := FloatsAt(c, items, pos, 5);
    if xs.Err? then Err(xs.error)
    else
      var n := xs.value.value;
      Ok(Parsed(Alignment([n[0], n[1]], n[2], [n[3], n[4]], None), xs.value.next))
  }

  /** `[` three axis components and an offset `]`: the four numbers. */
  function BracketAt(c: FloatText, items: seq<Item>, pos: nat): (r: Parsing<seq<F64>>)
    requires pos <= |items|
    ensures r.Ok? ==> |r.value.value| == 4 && r.value.next == pos + 6 <= |items|
  {
    var open := ByteAt(items, pos, LBRACKET);
    if open.Err? then Err(open.error)
    else
      var xs := FloatsAt(c, items, open.value, 4);
      if xs.Err? then Err(xs.error)
      else
        var close := ByteAt(items, xs.value.next, RBRACKET);
        if close.Err? then Err(close.error) else Ok(Parsed(xs.value.value, close.value))
  }

  /** `parse_valve_alignment`: `[ ux uy uz ox ] [ vx vy vz oy ] r sx sy`. */
  function ValveAlignmentAt(c: FloatText, items: seq<Item>, pos: nat): (r: Parsing<Alignment>)
    requires pos <= |items|
    ensures r.Ok? ==> r.value.next == pos + 15 <= |items| && r.value.value.axes.Some?
  {
    var u := BracketAt(c, items, pos);
    if u.Err? then Err(u.error)
    else
      var v := BracketAt(c, items, u.value.next);
      if v.Err? then Err(v.error)
      else
        var t := FloatsAt(c, items, v.value.next, 3);
        if t.Err? then Err(t.error)
        else
          var un, vn, tn := u.value.value, v.value.value, t.value.value;
          Ok(Parsed(Alignment([un[3], vn[3]], tn[0], [tn[1], tn[2]], Some(Axes(un[..3], vn[..3]))), t.value.next))
  }

  /** The texture a token names: a token that starts with `"` loses its quotes; any other is kept whole. */
  function TextureOf(t: Token): (r: CString)
    requires Lexeme(t)
    ensures t.text[0] == QUOTE ==> r == t.text[1..|t.text| - 1]
    ensures t.text[0] != QUOTE ==> r == t.text
  {
    if t.text[0] == QUOTE then StripQuoted(t.text) else t.text
  }

  /** `parse_surface`: three points, the texture, then the alignment in the dialect its first token shows. */
  function SurfaceAt(c: FloatText, items: seq<Item>, pos: nat): (r: Parsing<Surface>)
    requires Stream(items, pos)
    ensures Advanced(items, pos, r)
  {
    var p1 := PointAt(c, items, pos);
    if p1.Err? then Err(p1.error)
    else
      var p2 := PointAt(c, items, p1.value.next);
      if p2.Err? then Err(p2.error)
      else
        var p3 := PointAt(c, items, p2.value.next);
        if p3.Err? then Err(p3.error)
        else
          var at := p3.value.next;
          var token := Extract(items, at);
          if token.Err? then Err(token.error)
          else if token.value.None? then Err(Eof())
          else
            assert Lexeme(items[at].value);
            var texture := TextureOf(token.value.value);
            var halfSpace: HalfSpace := [p1.value.value, p2.value.value, p3.value.value];
            if at + 1 == |items| then Err(Eof())
            else if items[at + 1].Err? then Err(items[at + 1].error)
            else
              var alignment :=
                if MatchByte(items[at + 1].value, LBRACKET) then ValveAlignmentAt(c, items, at + 1)
                else LegacyAlignmentAt(c, items, at + 1);
              if alignment.Err? then Err(alignment.error)
              else Ok(Parsed(Surface(halfSpace, texture, alignment.value.value), alignment.value.next))
  }

  // ---------------------------------------------------------------------
  // The loops, as recursion

  /** The surfaces of a brush from `pos`, after the ones already in `acc`: parsed while the next token is `(`. */
  function SurfacesFrom(c: FloatText, items: seq<Item>, pos: nat, acc: Brush): (r: Parsing<Brush>)
    requires Stream(items, pos)
    ensures r.Ok? ==> pos <= r.value.next <= |items|
    decreases |items| - pos, 1
  {
    if pos < |items| && items[pos].Err? then Err(items[pos].error)
    else if pos < |items| && MatchByte(items[pos].value, LPAREN) then SurfaceThen(c, items, pos, acc)
    else Ok(Parsed(acc, pos))
  }

  /** One more surface, then the rest of them. */
  function SurfaceThen(c: FloatText, items: seq<Item>, pos: nat, acc: Brush): (r: Parsing<Brush>)
    requires Stream(items, pos) && pos < |items|
    ensures r.Ok? ==> pos < r.value.next <= |items|
    decreases |items| - pos, 0
  {
    var s := SurfaceAt(c, items, pos);
    if s.Err? then Err(s.error) else SurfacesFrom(c, items, s.value.next, acc + [s.value.value])
  }

  /** `parse_brush`: `{`, the surfaces, then the closing brace. */
  function BrushAt(c: FloatText, items: seq<Item>, pos: nat): (r: Parsing<Brush>)
    requires Stream(items, pos)
    ensures Advanced(items, pos, r)
  {
    var open := ByteAt(items, pos, LBRACE);
    if open.Err? then Err(open.error)
    else CloseBrush(items, SurfacesFrom(c, items, open.value, []))
  }

  /** The end of `parse_brush`: `}` after the surfaces, where a `(` would also have been accepted. */
  function CloseBrush(items: seq<Item>, body: Parsing<Brush>): (r: Parsing<Brush>)
    requires body.Ok? ==> body.value.next <= |items|
    ensures r.Ok? ==> body.Ok? && r.value == Parsed(body.value.value, body.value.next + 1) && r.value.next <= |items|
  {
    if body.Err? then body
    else
      var token := Extract(items, body.value.next);
      if token.Err? then Err(token.error)
      else
        var close := ExpectByteOr(token.value, RBRACE, [LPAREN]);
        if close.Err? then Err(close.error) else Ok(Parsed(body.value.value, body.value.next + 1))
  }

  /** The brushes of an entity from `pos`: parsed while the next token is `{`. */
  function BrushesFrom(c: FloatText, items: seq<Item>, pos: nat, acc: seq<Brush>): (r: Parsing<seq<Brush>>)
    requires Stream(items, pos)
    ensures r.Ok? ==> pos <= r.value.next <= |items|
    decreases |items| - pos
  {
    if pos < |items| && items[pos].Err? then Err(items[pos].error)
    else if pos < |items| && MatchByte(items[pos].value, LBRACE) then
      var b := BrushAt(c, items, pos);
      if b.Err? then Err(b.error) else BrushesFrom(c, items, b.value.next, acc + [b.value.value])
    else Ok(Parsed(acc, pos))
  }

  /**
   * The pairs of an edict from `pos`, inserted into `acc`: taken while the
   * next token is quoted, each key followed by a quoted value.
   */
  function EdictFrom(items: seq<Item>, pos: nat, acc: Edict): (r: Parsing<Edict>)
    requires Stream(items, pos)
    ensures r.Ok? ==> pos <= r.value.next <= |items|
    decreases |items| - pos, 1
  {
    if pos < |items| && items[pos].Err? then Err(items[pos].error)
    else if pos < |items| && MatchQuoted(items[pos].value) then EdictPairThen(items, pos, acc)
    else Ok(Parsed(acc, pos))
  }

  /** A quoted key at `pos`: its quoted value, then the rest of the edict. */
  function EdictPairThen(items: seq<Item>, pos: nat, acc: Edict): (r: Parsing<Edict>)
    requires Stream(items, pos) && pos < |items| && items[pos].Ok? && MatchQuoted(items[pos].value)
    ensures r.Ok? ==> pos + 2 <= r.value.next <= |items|
    decreases |items| - pos, 0
  {
    assert Lexeme(items[pos].value);
    var key: CString := StripQuoted(items[pos].value.text);
    var token := Extract(items, pos + 1);
    if token.Err? then Err(token.error)
    else
      var e := ExpectQuoted(token.value);
      if e.Err? then Err(e.error)
      else
        assert Lexeme(items[pos + 1].value);
        var value: CString := StripQuoted(token.value.value.text);
        EdictFrom(items, pos + 2, acc[key := value])
  }

  /** `parse_entity`: `{`, the edict, the brushes, `}`. */
  function EntityAt(c: FloatText, items: seq<Item>, pos: nat): (r: Parsing<Entity>)
    requires Stream(items, pos)
    ensures Advanced(items, pos, r)
  {
    var open := ByteAt(items, pos, LBRACE);
    if open.Err? then Err(open.error)
    else
      var edict := EdictFrom(items, open.value, map[]);
      if edict.Err? then Err(edict.error)
      else
        var brushes := BrushesFrom(c, items, edict.value.next, []);
        if brushes.Err? then Err(brushes.error)
        else
          var close := ByteAt(items, brushes.value.next, RBRACE);
          if close.Err? then Err(close.error)
          else Ok(Parsed(Entity(edict.value.value, brushes.value.value), close.value))
  }

  /** The entities from `pos` on, after those in `acc`: parsed while any item remains. */
  function EntitiesFrom(c: FloatText, items: seq<Item>, pos: nat, acc: seq<Entity>): (r: Result<QuakeMap, TextParse>)
    requires Stream(items, pos)
    decreases |items| - pos
  {
    if pos == |items| then Ok(QuakeMap(acc))
    else
      var e := EntityAt(c, items, pos);
      if e.Err? then Err(e.error) else EntitiesFrom(c, items, e.value.next, acc + [e.value.value])
  }

  /** The map a token stream denotes. */
  function ParseTokens(c: FloatText, items: seq<Item>): Result<QuakeMap, TextParse>
    requires AllLexemes(items)
  {
    EntitiesFrom(c, items, 0, [])
  }

  /** `parse`: the map a text denotes, through the lexer's token stream. */
  function ParseText(c: FloatText, input: Bytes): Result<QuakeMap, TextParse> {
    var items := Lex(input);
    WellFormedAreLexemes(items);
    ParseTokens(c, items)
  }

  // ---------------------------------------------------------------------
  // The loops

  /** The surfaces end where the next token is not `(`. */
  lemma SurfacesStop(c: FloatText, items: seq<Item>, pos: nat, acc: Brush)
    requires Stream(items, pos)
    requires pos == |items| || (items[pos].Ok? && !MatchByte(items[pos].value, LPAREN))
    ensures SurfacesFrom(c, items, pos, acc) == Ok(Parsed(acc, pos))
  {
  }

  /** A brush that opens with `{` is what follows it, closed. */
  lemma BrushOpens(c: FloatText, items: seq<Item>, pos: nat)
    requires Stream(items, pos) && pos < |items| && items[pos].Ok? && MatchByte(items[pos].value, LBRACE)
    ensures BrushAt(c, items, pos) == CloseBrush(items, SurfacesFrom(c, items, pos + 1, []))
  {
  }

  /** A surface that starts at `(` is parsed and appended, or its failure ends the brush. */
  lemma SurfacesStep(c: FloatText, items: seq<Item>, pos: nat, acc: Brush)
    requires Stream(items, pos) && pos < |items|
    requires items[pos].Ok? && MatchByte(items[pos].value, LPAREN)
    ensures SurfaceAt(c, items, pos).Err? ==> SurfacesFrom(c, items, pos, acc) == Err(SurfaceAt(c, items, pos).error)
    ensures SurfaceAt(c, items, pos).Ok? ==>
              SurfacesFrom(c, items, pos, acc)
              == SurfacesFrom(c, items, SurfaceAt(c, items, pos).value.next, acc + [SurfaceAt(c, items, pos).value.value])
  {
  }

  /** `parse_brush`. */
  method ParseBrush(c: FloatText, items: seq<Item>, pos: nat) returns (r: Parsing<Brush>)
    requires Stream(items, pos)
    ensures r == BrushAt(c, items, pos)
  {
    var surfaces: Brush := [];
    var open := ByteAt(items, pos, LBRACE);
    if open.Err? {
      return Err(open.error);
    }
    BrushOpens(c, items, pos);
    var p := open.value;
    while p < |items|
      invariant open.value <= p <= |items|
      invariant SurfacesFrom(c, items, p, surfaces) == SurfacesFrom(c, items, open.value, [])
      decreases |items| - p
    {
      var peeked := items[p];
      if peeked.Err? {
        return Err(peeked.error);
      }
      if !MatchByte(peeked.value, LPAREN) {
        break;
      }
      SurfacesStep(c, items, p, surfaces);
      var s := SurfaceAt(c, items, p);
      if s.Err? {
        return Err(s.error);
      }
      surfaces := surfaces + [s.value.value];
      p := s.value.next;
    }
    // The loop has stopped on a token that is not `(`, or at the end.
    SurfacesStop(c, items, p, surfaces);
    var token := Extract(items, p);
    if token.Err? {
      assert false;
    }
    var close := ExpectByteOr(token.value, RBRACE, [LPAREN]);
    if close.Err? {
      return Err(close.error);
    }
    return Ok(Parsed(surfaces, p + 1));
  }

  /** `parse_brushes`. */
  method ParseBrushes(c: FloatText, items: seq<Item>, pos: nat) returns (r: Parsing<seq<Brush>>)
    requires Stream(items, pos)
    ensures r == BrushesFrom(c, items, pos, [])
  {
    var brushes: seq<Brush> := [];
    var p := pos;
    while p < |items|
      invariant pos <= p <= |items|
      invariant BrushesFrom(c, items, p, brushes) == BrushesFrom(c, items, pos, [])
      decreases |items| - p
    {
      var peeked := items[p];
      if peeked.Err? {
        return Err(peeked.error);
      }
      if !MatchByte(peeked.value, LBRACE) {
        break;
      }
      var b := ParseBrush(c, items, p);
      if b.Err? {
        return Err(b.error);
      }
      brushes := brushes + [b.value.value];
      p := b.value.next;
    }
    return Ok(Parsed(brushes, p));
  }

  /** `parse_edict`: a later pair with the same key replaces the earlier one. */
  method ParseEdict(items: seq<Item>, pos: nat) returns (r: Parsing<Edict>)
    requires Stream(items, pos)
    ensures r == EdictFrom(items, pos, map[])
  {
    var edict: Edict := map[];
    var p := pos;
    while p < |items|
      invariant pos <= p <= |items|
      invariant EdictFrom(items, p, edict) == EdictFrom(items, pos, map[])
      decreases |items| - p
    {
      var peeked := items[p];
      if peeked.Err? {
        return Err(peeked.error);
      }
      if !MatchQuoted(peeked.value) {
        break;
      }
      assert Lexeme(items[p].value);
      var key: CString := StripQuoted(peeked.value.text);
      var maybeValue := Extract(items, p + 1);
      if maybeValue.Err? {
        return Err(maybeValue.error);
      }
      var quoted := ExpectQuoted(maybeValue.value);
      if quoted.Err? {
        return Err(quoted.error);
      }
      assert Lexeme(items[p + 1].value);
      var value: CString := StripQuoted(maybeValue.value.value.text);
      edict := edict[key := value];
      p := p + 2;
    }
    return Ok(Parsed(edict, p));
  }

  /** `parse_entity`. */
  method ParseEntity(c: FloatText, items: seq<Item>, pos: nat) returns (r: Parsing<Entity>)
    requires Stream(items, pos)
    ensures r == EntityAt(c, items, pos)
  {
    var open := ByteAt(items, pos, LBRACE);
    if open.Err? {
      return Err(open.error);
    }
    var edict := ParseEdict(items, open.value);
    if edict.Err? {
      return Err(edict.error);
    }
    var brushes := ParseBrushes(c, items, edict.value.next);
    if brushes.Err? {
      return Err(brushes.error);
    }
    var close := ByteAt(items, brushes.value.next, RBRACE);
    if close.Err? {
      return Err(close.error);
    }
    return Ok(Parsed(Entity(edict.value.value, brushes.value.value), close.value));
  }

  /** `parse`: entities while any item remains. */
  method Parse(c: FloatText, items: seq<Item>) returns (r: Result<QuakeMap, TextParse>)
    requires AllLexemes(items)
    ensures r == ParseTokens(c, items)
  {
    var entities: seq<Entity> := [];
    var p := 0;
    while p < |items|
      invariant p <= |items|
      invariant EntitiesFrom(c, items, p, entities) == ParseTokens(c, items)
      decreases |items| - p
    {
      var e := ParseEntity(c, items, p);
      if e.Err? {
        return Err(e.error);
      }
      entities := entities + [e.value.value];
      p := e.value.next;
    }
    return Ok(QuakeMap(entities));
  }
}
