/**
 * A whole map, written and read back.
 *
 * The writer's text is a sequence of lines, each a list of words joined by
 * single spaces and ended by CR LF. Under the corrected texture rule every
 * word the writer emits is one the lexer reads back as a single token of
 * the same text: a bare word with no whitespace that neither starts with a
 * quote nor reads as a comment, or a quoted name. So the token stream of the
 * text is exactly the writer's words, in order, and the parser, reading
 * them level by level, rebuilds the map: the numbers come back because the
 * float conversions are assumed to be inverse (`Repr.WellBehaved`), the
 * edict because each key is written once.
 */
module MapRoundtrip {
  import opened Common
  import opened Lexer
  import opened Repr
  import opened Parser
  import opened ParserProperties
  import opened MapWriter
  import opened Roundtrip
  import Errors

  /** The words of one written line, before the spaces and the CR LF. */
  type Line = seq<Bytes>

  // ---------------------------------------------------------------------
  // Lines

  /** Each line's words joined by spaces, each followed by CR LF. */
  function LinesText(ls: seq<Line>): Bytes
    decreases |ls|
  {
    if ls == [] then [] else Join(ls[0]) + CRLF + LinesText(ls[1..])
  }

  /** The words of all the lines, in order. */
  function Words(ls: seq<Line>): seq<Bytes>
    decreases |ls|
  {
    if ls == [] then [] else ls[0] + Words(ls[1..])
  }

  /** Groups of lines, one after the other. */
  function Concat(gs: seq<seq<Line>>): seq<Line>
    decreases |gs|
  {
    if gs == [] then [] else gs[0] + Concat(gs[1..])
  }

  lemma {:induction false} LinesTextAppend(a: seq<Line>, b: seq<Line>)
    ensures LinesText(a + b) == LinesText(a) + LinesText(b)
    decreases |a|
  {
    if a == [] {
      assert a + b == b;
    } else {
      assert (a + b)[0] == a[0] && (a + b)[1..] == a[1..] + b;
      LinesTextAppend(a[1..], b);
      ConcatAssoc(Join(a[0]) + CRLF, LinesText(a[1..]), LinesText(b));
    }
  }

  /** A text made of the texts of two runs of lines is the text of the two runs together. */
  lemma TextsJoin(t: Bytes, front: seq<Line>, last: seq<Line>, whole: seq<Line>)
    requires t == LinesText(front) + LinesText(last) && whole == front + last
    ensures t == LinesText(whole)
  {
    LinesTextAppend(front, last);
  }

  lemma {:induction false} WordsAppend(a: seq<Line>, b: seq<Line>)
    ensures Words(a + b) == Words(a) + Words(b)
    decreases |a|
  {
    if a == [] {
      assert a + b == b;
    } else {
      assert (a + b)[0] == a[0] && (a + b)[1..] == a[1..] + b;
      WordsAppend(a[1..], b);
      ConcatAssoc(a[0], Words(a[1..]), Words(b));
    }
  }

  lemma {:induction false} ConcatSnoc(gs: seq<seq<Line>>, g: seq<Line>)
    ensures Concat(gs + [g]) == Concat(gs) + g
    decreases |gs|
  {
    if gs == [] {
      assert Concat([g]) == g + Concat([]);
    } else {
      assert (gs + [g])[0] == gs[0] && (gs + [g])[1..] == gs[1..] + [g];
      ConcatSnoc(gs[1..], g);
      ConcatAssoc(gs[0], Concat(gs[1..]), g);
    }
  }

  lemma OneLine(l: Line)
    ensures LinesText([l]) == Join(l) + CRLF && Words([l]) == l
  {
    assert [l][1..] == [];
  }

  // ---------------------------------------------------------------------
  // The written map as lines (corrected texture rule)

  function SurfaceLines(c: FloatText, b: Brush): (r: seq<Line>)
    ensures |r| == |b|
  {
    seq(|b|, i requires 0 <= i < |b| => SurfaceWords(c, Corrected, b[i]))
  }

  const OPEN_LINE: Line := [[LBRACE]]
  const CLOSE_LINE: Line := [[RBRACE]]

  function BrushLines(c: FloatText, b: Brush): seq<Line> {
    [OPEN_LINE] + SurfaceLines(c, b) + [CLOSE_LINE]
  }

  function BrushesLines(c: FloatText, bs: seq<Brush>): seq<Line> {
    Concat(seq(|bs|, i requires 0 <= i < |bs| => BrushLines(c, bs[i])))
  }

  /** The first `n` pairs of the edict in the walk order, one line each. */
  function PairLines(order: seq<CString>, e: Edict, n: nat): (r: seq<Line>)
    requires n <= |order| && forall i :: 0 <= i < |order| ==> order[i] in e
    ensures |r| == n
  {
    seq(n, i requires 0 <= i < n => [MapWriter.Quoted(order[i]), MapWriter.Quoted(e[order[i]])])
  }

  function EntityLines(c: FloatText, order: seq<CString>, ent: Entity): seq<Line>
    requires IsEnumeration(order, ent.edict)
  {
    [OPEN_LINE] + PairLines(order, ent.edict, |order|) + BrushesLines(c, ent.brushes) + [CLOSE_LINE]
  }

  /** The lines of the first `n` entities. */
  function EntitiesLines(c: FloatText, orders: seq<seq<CString>>, es: seq<Entity>, n: nat): seq<Line>
    requires AreEnumerations(orders, es) && n <= |es|
  {
    Concat(seq(n, i requires 0 <= i < n => EntityLines(c, orders[i], es[i])))
  }

  lemma {:induction false} SurfacesTextIsLines(c: FloatText, b: Brush)
    ensures SurfacesText(c, Corrected, b) == LinesText(SurfaceLines(c, b))
    decreases |b|
  {
    if b != [] {
      var n := |b| - 1;
      assert SurfaceLines(c, b) == SurfaceLines(c, b[..n]) + [SurfaceWords(c, Corrected, b[n])];
      SurfacesTextIsLines(c, b[..n]);
      LinesTextAppend(SurfaceLines(c, b[..n]), [SurfaceWords(c, Corrected, b[n])]);
      OneLine(SurfaceWords(c, Corrected, b[n]));
      ConcatAssoc(SurfacesText(c, Corrected, b[..n]), Join(SurfaceWords(c, Corrected, b[n])), CRLF);
    }
  }

  lemma BrushTextIsLines(c: FloatText, b: Brush)
    ensures BrushText(c, Corrected, b) == LinesText(BrushLines(c, b))
  {
    SurfacesTextIsLines(c, b);
    OneLine(OPEN_LINE);
    OneLine(CLOSE_LINE);
    LinesTextAppend([OPEN_LINE], SurfaceLines(c, b));
    LinesTextAppend([OPEN_LINE] + SurfaceLines(c, b), [CLOSE_LINE]);
  }

  lemma {:induction false} BrushesTextIsLines(c: FloatText, bs: seq<Brush>)
    ensures BrushesText(c, Corrected, bs) == LinesText(BrushesLines(c, bs))
    decreases |bs|
  {
    if bs != [] {
      var n := |bs| - 1;
      var gs := seq(|bs|, i requires 0 <= i < |bs| => BrushLines(c, bs[i]));
      var front := seq(n, i requires 0 <= i < n => BrushLines(c, bs[..n][i]));
      assert gs == front + [BrushLines(c, bs[n])];
      ConcatSnoc(front, BrushLines(c, bs[n]));
      BrushesTextIsLines(c, bs[..n]);
      BrushTextIsLines(c, bs[n]);
      LinesTextAppend(Concat(front), BrushLines(c, bs[n]));
    }
  }

  lemma {:induction false} PairsTextIsLines(order: seq<CString>, e: Edict, n: nat)
    requires n <= |order| && forall i :: 0 <= i < |order| ==> order[i] in e
    ensures PairsText(order, e, n) == LinesText(PairLines(order, e, n))
    decreases n
  {
    if n > 0 {
      var l := [MapWriter.Quoted(order[n - 1]), MapWriter.Quoted(e[order[n - 1]])];
      assert PairLines(order, e, n) == PairLines(order, e, n - 1) + [l];
      PairsTextIsLines(order, e, n - 1);
      LinesTextAppend(PairLines(order, e, n - 1), [l]);
      OneLine(l);
    }
  }

  lemma EntityTextIsLines(c: FloatText, order: seq<CString>, ent: Entity)
    requires IsEnumeration(order, ent.edict)
    ensures EntityText(c, Corrected, order, ent) == LinesText(EntityLines(c, order, ent))
  {
    var pairs := PairLines(order, ent.edict, |order|);
    var brushes := BrushesLines(c, ent.brushes);
    PairsTextIsLines(order, ent.edict, |order|);
    BrushesTextIsLines(c, ent.brushes);
    OneLine(OPEN_LINE);
    OneLine(CLOSE_LINE);
    LinesTextAppend([OPEN_LINE], pairs);
    LinesTextAppend([OPEN_LINE] + pairs, brushes);
    LinesTextAppend([OPEN_LINE] + pairs + brushes, [CLOSE_LINE]);
  }

  lemma {:induction false} EntitiesTextIsLines(c: FloatText, orders: seq<seq<CString>>, es: seq<Entity>, n: nat)
    requires AreEnumerations(orders, es) && n <= |es|
    ensures EntitiesText(c, Corrected, orders, es, n) == LinesText(EntitiesLines(c, orders, es, n))
    decreases n
  {
    if n > 0 {
      var front := EntitiesLines(c, orders, es, n - 1);
      var last := EntityLines(c, orders[n - 1], es[n - 1]);
      EntitiesTextIsLines(c, orders, es, n - 1);
      EntityTextIsLines(c, orders[n - 1], es[n - 1]);
      EntitiesLinesSnoc(c, orders, es, n - 1);
      TextsJoin(EntitiesText(c, Corrected, orders, es, n), front, last, EntitiesLines(c, orders, es, n));
    }
  }

  // ---------------------------------------------------------------------
  // Lexing the lines

  /** A quotable name between quotes. */
  predicate QuotedWord(w: Bytes) {
    && |w| >= 2 && w[0] == QUOTE && w[|w| - 1] == QUOTE
    && NoNul(w) && QuotedWritable(w[1..|w| - 1])
  }

  /** A word the lexer reads, from the default state up to the whitespace after it, as one token of its own text. */
  predicate Lexable(w: Bytes) {
    UnquotedWord(w) || QuotedWord(w)
  }

  predicate GoodLine(l: Line) {
    |l| >= 1 && forall j :: 0 <= j < |l| ==> Lexable(l[j])
  }

  predicate GoodLines(ls: seq<Line>) {
    forall i :: 0 <= i < |ls| ==> GoodLine(ls[i])
  }

  /** The items are tokens whose texts are the words, one for one. */
  predicate Carries(items: seq<Item>, ws: seq<Bytes>) {
    |items| == |ws| && forall i :: 0 <= i < |ws| ==> items[i].Ok? && items[i].value.text == ws[i]
  }

  lemma CarriesAppend(a: seq<Item>, ws: seq<Bytes>, b: seq<Item>, vs: seq<Bytes>)
    requires Carries(a, ws) && Carries(b, vs)
    ensures Carries(a + b, ws + vs)
  {
    forall i | |ws| <= i < |ws| + |vs|
      ensures (a + b)[i] == b[i - |ws|] && (ws + vs)[i] == vs[i - |ws|]
    {
    }
  }

  /** One word and the whitespace after it give one token of the word's text, and the lexer is back in its default state. */
  lemma WordLexes(m: Machine, w: Bytes, e: byte)
    requires ValidMachine(m) && m.state == Default && Lexable(w) && IsAsciiWhitespace(e)
    ensures Carries(Run(m, w + [e]).1, [w]) && Run(m, w + [e]).0.state == Default
  {
    if UnquotedWord(w) {
      UnquotedTokenEndsAtWhitespace(m, w, e);
    } else {
      QuotedWordLexes(m, w, e);
    }
  }

  /** A quoted word and the whitespace after it give one token of the word's text. */
  lemma QuotedWordLexes(m: Machine, w: Bytes, e: byte)
    requires ValidMachine(m) && m.state == Default && QuotedWord(w) && IsAsciiWhitespace(e)
    ensures Carries(Run(m, w + [e]).1, [w]) && Run(m, w + [e]).0.state == Default
  {
    var t: CString := w[1..|w| - 1];
    assert w == MapWriter.Quoted(t);
    QuotedNameLexes(m, t, e);
  }

  /** A line lexes as its words, and the lexer ends it in its default state. */
  lemma {:induction false} LineLexes(m: Machine, l: Line)
    requires ValidMachine(m) && m.state == Default && GoodLine(l)
    ensures Carries(Run(m, Join(l) + CRLF).1, l) && Run(m, Join(l) + CRLF).0.state == Default
    decreases |l|
  {
    var r := Run(m, l[0] + [SPACE]);
    if |l| == 1 {
      var head := l[0] + [CR];
      assert Join(l) + CRLF == head + [LF];
      WordLexes(m, l[0], CR);
      RunAppend(m, head, [LF]);
      RunWhitespace(Run(m, head).0, [LF]);
      assert Run(m, head).1 + [] == Run(m, head).1;
    } else {
      var rest := Join(l[1..]) + CRLF;
      assert Join(l) + CRLF == (l[0] + [SPACE]) + rest;
      WordLexes(m, l[0], SPACE);
      RunAppend(m, l[0] + [SPACE], rest);
      assert GoodLine(l[1..]) by {
        assert forall j :: 0 <= j < |l[1..]| ==> l[1..][j] == l[j + 1];
      }
      LineLexes(r.0, l[1..]);
      CarriesAppend(r.1, [l[0]], Run(r.0, rest).1, l[1..]);
      assert [l[0]] + l[1..] == l;
    }
  }

  /** Lines lex as all their words, in order, and the lexer ends them in its default state. */
  lemma {:induction false} LinesLex(m: Machine, ls: seq<Line>)
    requires ValidMachine(m) && m.state == Default && GoodLines(ls)
    ensures Carries(Run(m, LinesText(ls)).1, Words(ls)) && Run(m, LinesText(ls)).0.state == Default
    decreases |ls|
  {
    if ls != [] {
      var first := Join(ls[0]) + CRLF;
      LineLexes(m, ls[0]);
      RunAppend(m, first, LinesText(ls[1..]));
      var mid := Run(m, first);
      LinesLex(mid.0, ls[1..]);
      CarriesAppend(mid.1, ls[0], Run(mid.0, LinesText(ls[1..])).1, Words(ls[1..]));
    }
  }

  /** The token stream of written lines is exactly their words. */
  lemma LexLines(ls: seq<Line>)
    requires GoodLines(ls)
    ensures Carries(Lex(LinesText(ls)), Words(ls))
  {
    LinesLex(START, ls);
    var r := Run(START, LinesText(ls));
    assert r.0.text.None?;
    assert Lex(LinesText(ls)) == r.1 + [];
  }

  // ---------------------------------------------------------------------
  // Every written word is lexable

  /** A one-byte word that is not whitespace, a quote or a slash. */
  lemma PunctuationLexable(b: byte)
    requires b != NUL && !IsAsciiWhitespace(b) && b != QUOTE && b != SLASH
    ensures Lexable([b])
  {
    assert !ContainsAsciiWhitespace([b]);
  }

  /** A finite number's text is a bare word. */
  lemma NumberLexable(c: FloatText, x: F64)
    requires WellBehaved(c) && IsFinite(x)
    ensures Lexable(Show(c, x))
  {
    var t := Show(c, x);
    assert IsNumberText(t);
    assert forall i :: 0 <= i < |t| ==> IsNumberByte(t[i]);
  }

  lemma QuotedLexable(t: CString)
    requires QuotedWritable(t)
    ensures Lexable(MapWriter.Quoted(t))
  {
    var q := MapWriter.Quoted(t);
    assert q[1..|q| - 1] == t;
    assert forall i :: 1 <= i <= |t| ==> q[i] == t[i - 1];
  }

  lemma TextureLexable(t: CString)
    requires CheckTexture(t).Ok?
    ensures Lexable(TextureText(t))
  {
    ValidTextureIsReadable(t);
    if NeedsQuotes(t) {
      QuotedLexable(t);
    }
  }

  /** Every number of a finite vector is a bare word. */
  lemma NumbersLexable(c: FloatText, xs: seq<F64>)
    requires WellBehaved(c) && AllFinite(xs)
    ensures forall i :: 0 <= i < |xs| ==> Lexable(Show(c, xs[i]))
  {
    forall i | 0 <= i < |xs| ensures Lexable(Show(c, xs[i])) {
      NumberLexable(c, xs[i]);
    }
  }

  predicate AllLexable(ws: seq<Bytes>) {
    forall j :: 0 <= j < |ws| ==> Lexable(ws[j])
  }

  lemma AllLexableAppend(a: seq<Bytes>, b: seq<Bytes>)
    requires AllLexable(a) && AllLexable(b)
    ensures AllLexable(a + b)
  {
    forall j | |a| <= j < |a| + |b| ensures (a + b)[j] == b[j - |a|] {
    }
  }

  lemma PointWordsLexable(c: FloatText, p: Point)
    requires WellBehaved(c) && AllFinite(p)
    ensures AllLexable(PointWords(c, p))
  {
    PunctuationLexable(LPAREN);
    PunctuationLexable(RPAREN);
    NumbersLexable(c, p);
  }

  lemma HalfSpaceWordsLexable(c: FloatText, h: HalfSpace)
    requires WellBehaved(c) && HalfSpaceWritable(h)
    ensures AllLexable(HalfSpaceWords(c, h))
  {
    assert AllFinite(h[0]) && AllFinite(h[1]) && AllFinite(h[2]) by {
      assert forall p, k :: 0 <= p < 3 && 0 <= k < 3 ==> IsFinite(h[p][k]);
    }
    PointWordsLexable(c, h[0]);
    PointWordsLexable(c, h[1]);
    PointWordsLexable(c, h[2]);
    AllLexableAppend(PointWords(c, h[0]), PointWords(c, h[1]));
    AllLexableAppend(PointWords(c, h[0]) + PointWords(c, h[1]), PointWords(c, h[2]));
  }

  lemma AlignmentWordsLexable(c: FloatText, a: Alignment)
    requires WellBehaved(c) && AlignmentWritable(a)
    ensures AllLexable(AlignmentWords(c, a))
  {
    PunctuationLexable(LBRACKET);
    PunctuationLexable(RBRACKET);
    NumbersLexable(c, a.offset);
    NumbersLexable(c, a.scale);
    NumberLexable(c, a.rotation);
    if a.axes.Some? {
      NumbersLexable(c, a.axes.value.u);
      NumbersLexable(c, a.axes.value.v);
    }
  }

  lemma SurfaceLineGood(c: FloatText, s: Surface)
    requires WellBehaved(c) && SurfaceWritable(Corrected, s)
    ensures GoodLine(SurfaceWords(c, Corrected, s))
  {
    HalfSpaceWordsLexable(c, s.halfSpace);
    AlignmentWordsLexable(c, s.alignment);
    TextureLexable(s.texture);
    var tex := [TextureTextBy(Corrected, s.texture)];
    AllLexableAppend(HalfSpaceWords(c, s.halfSpace), tex);
    AllLexableAppend(HalfSpaceWords(c, s.halfSpace) + tex, AlignmentWords(c, s.alignment));
  }

  lemma SurfaceLinesGood(c: FloatText, b: Brush)
    requires WellBehaved(c) && BrushWritable(Corrected, b)
    ensures GoodLines(SurfaceLines(c, b))
  {
    forall i | 0 <= i < |b| ensures GoodLine(SurfaceLines(c, b)[i]) {
      SurfaceLineGood(c, b[i]);
    }
  }

  lemma GoodLinesAppend(a: seq<Line>, b: seq<Line>)
    requires GoodLines(a) && GoodLines(b)
    ensures GoodLines(a + b)
  {
    forall i | |a| <= i < |a| + |b| ensures (a + b)[i] == b[i - |a|] {
    }
  }

  lemma {:induction false} ConcatGood(gs: seq<seq<Line>>)
    requires forall i :: 0 <= i < |gs| ==> GoodLines(gs[i])
    ensures GoodLines(Concat(gs))
    decreases |gs|
  {
    if gs != [] {
      assert forall i :: 0 <= i < |gs[1..]| ==> gs[1..][i] == gs[i + 1];
      ConcatGood(gs[1..]);
      GoodLinesAppend(gs[0], Concat(gs[1..]));
    }
  }

  lemma BraceLinesGood()
    ensures GoodLines([OPEN_LINE]) && GoodLines([CLOSE_LINE])
  {
    PunctuationLexable(LBRACE);
    PunctuationLexable(RBRACE);
  }

  lemma BrushLinesGood(c: FloatText, b: Brush)
    requires WellBehaved(c) && BrushWritable(Corrected, b)
    ensures GoodLines(BrushLines(c, b))
  {
    SurfaceLinesGood(c, b);
    BraceLinesGood();
    GoodLinesAppend([OPEN_LINE], SurfaceLines(c, b));
    GoodLinesAppend([OPEN_LINE] + SurfaceLines(c, b), [CLOSE_LINE]);
  }

  lemma BrushesLinesGood(c: FloatText, bs: seq<Brush>)
    requires WellBehaved(c) && forall i :: 0 <= i < |bs| ==> BrushWritable(Corrected, bs[i])
    ensures GoodLines(BrushesLines(c, bs))
  {
    var gs := seq(|bs|, i requires 0 <= i < |bs| => BrushLines(c, bs[i]));
    forall i | 0 <= i < |bs| ensures GoodLines(gs[i]) {
      BrushLinesGood(c, bs[i]);
    }
    ConcatGood(gs);
  }

  lemma PairLinesGood(order: seq<CString>, e: Edict)
    requires IsEnumeration(order, e) && EdictWritable(e)
    ensures GoodLines(PairLines(order, e, |order|))
  {
    forall i | 0 <= i < |order| ensures GoodLine(PairLines(order, e, |order|)[i]) {
      QuotedLexable(order[i]);
      QuotedLexable(e[order[i]]);
    }
  }

  lemma EntityLinesGood(c: FloatText, order: seq<CString>, ent: Entity)
    requires WellBehaved(c) && IsEnumeration(order, ent.edict) && EntityWritable(Corrected, ent)
    ensures GoodLines(EntityLines(c, order, ent))
  {
    var pairs := PairLines(order, ent.edict, |order|);
    var brushes := BrushesLines(c, ent.brushes);
    PairLinesGood(order, ent.edict);
    BrushesLinesGood(c, ent.brushes);
    BraceLinesGood();
    GoodLinesAppend([OPEN_LINE], pairs);
    GoodLinesAppend([OPEN_LINE] + pairs, brushes);
    GoodLinesAppend([OPEN_LINE] + pairs + brushes, [CLOSE_LINE]);
  }

  lemma EntitiesLinesGood(c: FloatText, orders: seq<seq<CString>>, es: seq<Entity>)
    requires WellBehaved(c) && AreEnumerations(orders, es)
    requires forall i :: 0 <= i < |es| ==> EntityWritable(Corrected, es[i])
    ensures GoodLines(EntitiesLines(c, orders, es, |es|))
  {
    var gs := seq(|es|, i requires 0 <= i < |es| => EntityLines(c, orders[i], es[i]));
    forall i | 0 <= i < |es| ensures GoodLines(gs[i]) {
      EntityLinesGood(c, orders[i], es[i]);
    }
    ConcatGood(gs);
  }

  // ---------------------------------------------------------------------
  // Parsing the words back

  /** The text of the token at `i`, if there is one. */
  function TokenText(items: seq<Item>, i: nat): (r: Option<Bytes>)
    ensures r.Some? <==> i < |items| && items[i].Ok?
    ensures r.Some? ==> r.value == items[i].value.text
  {
    if i < |items| && items[i].Ok? then Some(items[i].value.text) else None
  }

  /** The items from `pos` on start with tokens whose texts are the words. */
  predicate At(items: seq<Item>, pos: nat, ws: seq<Bytes>) {
    && pos + |ws| <= |items|
    && forall i {:trigger TokenText(items, i)} :: pos <= i < pos + |ws| ==> TokenText(items, i) == Some(ws[i - pos])
  }

  /** A run of the words, read from where it starts. */
  lemma AtSlice(items: seq<Item>, pos: nat, ws: seq<Bytes>, k: nat, j: nat)
    requires At(items, pos, ws) && k <= j <= |ws|
    ensures At(items, pos + k, ws[k..j])
  {
    forall i | pos + k <= i < pos + j
      ensures TokenText(items, i) == Some(ws[k..j][i - (pos + k)])
    {
      assert ws[k..j][i - (pos + k)] == ws[i - pos];
    }
  }

  lemma AtSplit(items: seq<Item>, pos: nat, a: seq<Bytes>, b: seq<Bytes>)
    requires At(items, pos, a + b)
    ensures At(items, pos, a) && At(items, pos + |a|, b)
  {
    AtSlice(items, pos, a + b, 0, |a|);
    AtSlice(items, pos, a + b, |a|, |a| + |b|);
    assert (a + b)[..|a|] == a && (a + b)[|a|..] == b;
  }

  /** The texts of the numbers. */
  function Shows(c: FloatText, xs: seq<F64>): (r: seq<Bytes>)
    ensures |r| == |xs|
  {
    seq(|xs|, i requires 0 <= i < |xs| => Show(c, xs[i]))
  }

  /** Finite numbers, each written and then read, come back. */
  lemma {:induction false} FloatsRead(c: FloatText, items: seq<Item>, pos: nat, xs: seq<F64>)
    requires WellBehaved(c) && AllFinite(xs) && At(items, pos, Shows(c, xs))
    ensures FloatsAt(c, items, pos, |xs|) == Ok(Parsed(xs, pos + |xs|))
    decreases |xs|
  {
    if xs != [] {
      assert TokenText(items, pos) == Some(Show(c, xs[0]));
      var t := items[pos].value;
      assert IsFinite(xs[0]);
      assert ReadNumber(c, TextAsString(t)) == Some(xs[0]);
      AtSlice(items, pos, Shows(c, xs), 1, |xs|);
      assert Shows(c, xs)[1..] == Shows(c, xs[1..]);
      FloatsRead(c, items, pos + 1, xs[1..]);
      assert [xs[0]] + xs[1..] == xs;
    }
  }

  lemma ByteRead(items: seq<Item>, pos: nat, b: byte)
    requires TokenText(items, pos) == Some([b])
    ensures ByteAt(items, pos, b) == Ok(pos + 1)
  {
  }

  lemma PointRead(c: FloatText, items: seq<Item>, pos: nat, p: Point)
    requires WellBehaved(c) && AllFinite(p) && At(items, pos, PointWords(c, p))
    ensures PointAt(c, items, pos) == Ok(Parsed(p, pos + 5))
  {
    var ws := PointWords(c, p);
    assert TokenText(items, pos) == Some(ws[0]) && TokenText(items, pos + 4) == Some(ws[4]);
    ByteRead(items, pos, LPAREN);
    AtSlice(items, pos, ws, 1, 4);
    assert ws[1..4] == Shows(c, p);
    FloatsRead(c, items, pos + 1, p);
    ByteRead(items, pos + 4, RPAREN);
  }

  lemma LegacyRead(c: FloatText, items: seq<Item>, pos: nat, a: Alignment)
    requires WellBehaved(c) && AlignmentWritable(a) && a.axes.None? && At(items, pos, AlignmentWords(c, a))
    ensures LegacyAlignmentAt(c, items, pos) == Ok(Parsed(a, pos + 5))
  {
    var xs := [a.offset[0], a.offset[1], a.rotation, a.scale[0], a.scale[1]];
    assert Shows(c, xs) == AlignmentWords(c, a);
    FloatsRead(c, items, pos, xs);
    assert a == Alignment([xs[0], xs[1]], xs[2], [xs[3], xs[4]], None);
  }

  /** `[` three axis components and an offset `]`. */
  lemma BracketRead(c: FloatText, items: seq<Item>, pos: nat, xs: seq<F64>)
    requires WellBehaved(c) && |xs| == 4 && AllFinite(xs)
    requires At(items, pos, [[LBRACKET]] + Shows(c, xs) + [[RBRACKET]])
    ensures BracketAt(c, items, pos) == Ok(Parsed(xs, pos + 6))
  {
    var ws := [[LBRACKET]] + Shows(c, xs) + [[RBRACKET]];
    assert TokenText(items, pos) == Some(ws[0]) && TokenText(items, pos + 5) == Some(ws[5]);
    ByteRead(items, pos, LBRACKET);
    AtSlice(items, pos, ws, 1, 5);
    assert ws[1..5] == Shows(c, xs);
    FloatsRead(c, items, pos + 1, xs);
    ByteRead(items, pos + 5, RBRACKET);
  }

  /** The Valve 220 words of an axis with its offset, of another, then rotation and scale. */
  function ValveWords(c: FloatText, un: seq<F64>, vn: seq<F64>, tn: seq<F64>): seq<Bytes> {
    [[LBRACKET]] + Shows(c, un) + [[RBRACKET]] + ([[LBRACKET]] + Shows(c, vn) + [[RBRACKET]]) + Shows(c, tn)
  }

  lemma ValveNumbersRead(c: FloatText, items: seq<Item>, pos: nat, un: seq<F64>, vn: seq<F64>, tn: seq<F64>)
    requires WellBehaved(c) && |un| == 4 && |vn| == 4 && |tn| == 3 && AllFinite(un) && AllFinite(vn) && AllFinite(tn)
    requires At(items, pos, ValveWords(c, un, vn, tn))
    ensures ValveAlignmentAt(c, items, pos)
            == Ok(Parsed(Alignment([un[3], vn[3]], tn[0], [tn[1], tn[2]], Some(Axes(un[..3], vn[..3]))), pos + 15))
  {
    var bu := [[LBRACKET]] + Shows(c, un) + [[RBRACKET]];
    var bv := [[LBRACKET]] + Shows(c, vn) + [[RBRACKET]];
    AtSplit(items, pos, bu + bv, Shows(c, tn));
    AtSplit(items, pos, bu, bv);
    BracketRead(c, items, pos, un);
    BracketRead(c, items, pos + 6, vn);
    FloatsRead(c, items, pos + 12, tn);
  }

  /** A Valve 220 alignment is its two axes with their offsets, then its rotation and scale. */
  lemma ValveNumbersOf(c: FloatText, a: Alignment)
    requires a.axes.Some?
    ensures var un, vn := a.axes.value.u + [a.offset[0]], a.axes.value.v + [a.offset[1]];
            var tn := [a.rotation, a.scale[0], a.scale[1]];
            && AlignmentWords(c, a) == ValveWords(c, un, vn, tn)
            && a == Alignment([un[3], vn[3]], tn[0], [tn[1], tn[2]], Some(Axes(un[..3], vn[..3])))
  {
    var u, v := a.axes.value.u, a.axes.value.v;
    var un, vn := u + [a.offset[0]], v + [a.offset[1]];
    assert un[..3] == u && vn[..3] == v;
    assert a.offset == [un[3], vn[3]] && a.scale == [a.scale[0], a.scale[1]];
  }

  lemma ValveRead(c: FloatText, items: seq<Item>, pos: nat, a: Alignment)
    requires WellBehaved(c) && AlignmentWritable(a) && a.axes.Some? && At(items, pos, AlignmentWords(c, a))
    ensures ValveAlignmentAt(c, items, pos) == Ok(Parsed(a, pos + 15))
  {
    var u, v := a.axes.value.u, a.axes.value.v;
    var un, vn := u + [a.offset[0]], v + [a.offset[1]];
    var tn := [a.rotation, a.scale[0], a.scale[1]];
    ValveNumbersOf(c, a);
    ValveNumbersRead(c, items, pos, un, vn, tn);
  }

  /** A token spelling the corrected texture text names the texture. */
  lemma TextureTokenNames(t: CString, token: Token)
    requires CheckTexture(t).Ok? && token.text == TextureText(t)
    ensures Lexeme(token) && TextureOf(token) == t
  {
    ValidTextureIsReadable(t);
    if NeedsQuotes(t) {
      QuotedTextStrips(t, token);
    }
  }

  /** A number's text is never `[`, so a legacy alignment is read as one. */
  lemma NumberIsNotBracket(c: FloatText, x: F64)
    requires WellBehaved(c) && IsFinite(x)
    ensures Show(c, x) != [LBRACKET]
  {
    assert IsNumberText(Show(c, x));
  }

  /** The three points of a written half-space are read back in turn. */
  lemma HalfSpaceRead(c: FloatText, items: seq<Item>, pos: nat, h: HalfSpace)
    requires WellBehaved(c) && HalfSpaceWritable(h) && At(items, pos, HalfSpaceWords(c, h))
    ensures PointAt(c, items, pos) == Ok(Parsed(h[0], pos + 5))
    ensures PointAt(c, items, pos + 5) == Ok(Parsed(h[1], pos + 10))
    ensures PointAt(c, items, pos + 10) == Ok(Parsed(h[2], pos + 15))
    ensures h == [h[0], h[1], h[2]]
  {
    AtSplit(items, pos, PointWords(c, h[0]) + PointWords(c, h[1]), PointWords(c, h[2]));
    AtSplit(items, pos, PointWords(c, h[0]), PointWords(c, h[1]));
    assert AllFinite(h[0]) && AllFinite(h[1]) && AllFinite(h[2]) by {
      assert forall p, k :: 0 <= p < 3 && 0 <= k < 3 ==> IsFinite(h[p][k]);
    }
    PointRead(c, items, pos, h[0]);
    PointRead(c, items, pos + 5, h[1]);
    PointRead(c, items, pos + 10, h[2]);
    HalfSpaceIsItsPoints(h);
  }

  /** A half-space is its three points. */
  lemma HalfSpaceIsItsPoints(h: HalfSpace)
    ensures h == [h[0], h[1], h[2]]
  {
  }

  /** A written alignment is read back in the dialect its first word shows. */
  lemma AlignmentRead(c: FloatText, items: seq<Item>, pos: nat, a: Alignment)
    requires WellBehaved(c) && AlignmentWritable(a) && At(items, pos, AlignmentWords(c, a))
    ensures pos < |items| && items[pos].Ok?
    ensures (if MatchByte(items[pos].value, LBRACKET) then ValveAlignmentAt(c, items, pos)
             else LegacyAlignmentAt(c, items, pos)) == Ok(Parsed(a, pos + |AlignmentWords(c, a)|))
  {
    if a.axes.Some? {
      assert TokenText(items, pos) == Some([LBRACKET]);
      ValveRead(c, items, pos, a);
    } else {
      assert TokenText(items, pos) == Some(Show(c, a.offset[0]));
      NumberIsNotBracket(c, a.offset[0]);
      LegacyRead(c, items, pos, a);
    }
  }

  /** A written surface is read back as itself. */
  lemma SurfaceRead(c: FloatText, items: seq<Item>, pos: nat, s: Surface)
    requires WellBehaved(c) && SurfaceWritable(Corrected, s) && AllLexemes(items)
    requires At(items, pos, SurfaceWords(c, Corrected, s))
    ensures SurfaceAt(c, items, pos) == Ok(Parsed(s, pos + |SurfaceWords(c, Corrected, s)|))
  {
    var h, a := s.halfSpace, s.alignment;
    var tex := [TextureTextBy(Corrected, s.texture)];
    AtSplit(items, pos, HalfSpaceWords(c, h) + tex, AlignmentWords(c, a));
    AtSplit(items, pos, HalfSpaceWords(c, h), tex);
    HalfSpaceRead(c, items, pos, h);
    assert TokenText(items, pos + 15) == Some(TextureText(s.texture));
    TextureTokenNames(s.texture, items[pos + 15].value);
    AlignmentRead(c, items, pos + 16, a);
  }

  /** The first surface's words, then the others'. */
  lemma SurfaceWordsCons(c: FloatText, b: Brush)
    requires b != []
    ensures Words(SurfaceLines(c, b)) == SurfaceWords(c, Corrected, b[0]) + Words(SurfaceLines(c, b[1..]))
  {
    assert SurfaceLines(c, b)[1..] == SurfaceLines(c, b[1..]);
  }

  /** One surface read at a `(`, then the loop goes on after it. */
  lemma SurfacesStep(c: FloatText, items: seq<Item>, pos: nat, acc: Brush, s: Surface, n: nat)
    requires Stream(items, pos) && pos < |items| && items[pos].Ok? && MatchByte(items[pos].value, LPAREN)
    requires SurfaceAt(c, items, pos) == Ok(Parsed(s, n))
    ensures SurfacesFrom(c, items, pos, acc) == SurfacesFrom(c, items, n, acc + [s])
  {
  }

  /** A parse that succeeded with the value `v`, stopping at `n`. */
  predicate ReadsAs<T(==)>(r: Parsing<T>, v: T, n: nat) {
    r.Ok? && r.value.value == v && r.value.next == n
  }

  /** The words of the surfaces from the `k`-th on: that surface's, then the others'. */
  lemma SurfaceWordsFrom(c: FloatText, b: Brush, k: nat)
    requires k < |b|
    ensures Words(SurfaceLines(c, b[k..])) == SurfaceWords(c, Corrected, b[k]) + Words(SurfaceLines(c, b[k + 1..]))
  {
    SurfaceWordsCons(c, b[k..]);
    assert b[k..][1..] == b[k + 1..];
  }

  /** The `k`-th written surface is read, and the loop goes on at the words of the next. */
  lemma NextSurfaceRead(c: FloatText, items: seq<Item>, pos: nat, b: Brush, k: nat) returns (n: nat)
    requires WellBehaved(c) && BrushWritable(Corrected, b) && AllLexemes(items) && k < |b|
    requires At(items, pos, Words(SurfaceLines(c, b[k..])) + [[RBRACE]])
    ensures At(items, n, Words(SurfaceLines(c, b[k + 1..])) + [[RBRACE]])
    ensures n + |Words(SurfaceLines(c, b[k + 1..]))| == pos + |Words(SurfaceLines(c, b[k..]))|
    ensures SurfacesFrom(c, items, pos, b[..k]) == SurfacesFrom(c, items, n, b[..k + 1])
  {
    var first := SurfaceWords(c, Corrected, b[k]);
    var rest := Words(SurfaceLines(c, b[k + 1..]));
    n := pos + |first|;
    SurfaceWordsFrom(c, b, k);
    ConcatAssoc(first, rest, [[RBRACE]]);
    AtSplit(items, pos, first, rest + [[RBRACE]]);
    assert TokenText(items, pos) == Some([LPAREN]);
    SurfaceRead(c, items, pos, b[k]);
    SurfacesStep(c, items, pos, b[..k], b[k], n);
    TakeSnoc(b, k);
  }

  /**
   * The written surfaces from the `k`-th on, then the brush's `}`: the surface loop, having read the
   * first `k`, reads the others and stops at the brace.
   */
  lemma {:induction false} SurfacesRead(c: FloatText, items: seq<Item>, pos: nat, b: Brush, k: nat)
    requires WellBehaved(c) && BrushWritable(Corrected, b) && AllLexemes(items) && k <= |b|
    requires At(items, pos, Words(SurfaceLines(c, b[k..])) + [[RBRACE]])
    ensures ReadsAs(SurfacesFrom(c, items, pos, b[..k]), b, pos + |Words(SurfaceLines(c, b[k..]))|)
    decreases |b| - k
  {
    if k == |b| {
      assert SurfaceLines(c, b[k..]) == [] && b[..k] == b;
      assert TokenText(items, pos) == Some([RBRACE]);
      SurfacesStop(c, items, pos, b[..k]);
    } else {
      var n := NextSurfaceRead(c, items, pos, b, k);
      SurfacesRead(c, items, n, b, k + 1);
    }
  }

  lemma BrushWords(c: FloatText, b: Brush)
    ensures Words(BrushLines(c, b)) == [[LBRACE]] + (Words(SurfaceLines(c, b)) + [[RBRACE]])
  {
    OneLine(OPEN_LINE);
    OneLine(CLOSE_LINE);
    WordsAppend([OPEN_LINE], SurfaceLines(c, b));
    WordsAppend([OPEN_LINE] + SurfaceLines(c, b), [CLOSE_LINE]);
  }

  /** A written brush is read back as itself. */
  lemma BrushRead(c: FloatText, items: seq<Item>, pos: nat, b: Brush)
    requires WellBehaved(c) && BrushWritable(Corrected, b) && AllLexemes(items)
    requires At(items, pos, Words(BrushLines(c, b)))
    ensures ReadsAs(BrushAt(c, items, pos), b, pos + |Words(BrushLines(c, b))|)
  {
    var body := Words(SurfaceLines(c, b)) + [[RBRACE]];
    BrushWords(c, b);
    AtSplit(items, pos, [[LBRACE]], body);
    ByteRead(items, pos, LBRACE);
    assert b[0..] == b && b[..0] == [];
    SurfacesRead(c, items, pos + 1, b, 0);
    var n := pos + 1 + |Words(SurfaceLines(c, b))|;
    assert TokenText(items, n) == Some([RBRACE]);
    CloseBrushRead(items, SurfacesFrom(c, items, pos + 1, []), b, n);
  }

  lemma CloseBrushRead(items: seq<Item>, r: Parsing<Brush>, b: Brush, n: nat)
    requires ReadsAs(r, b, n) && TokenText(items, n) == Some([RBRACE])
    ensures ReadsAs(CloseBrush(items, r), b, n + 1)
  {
  }

  /** The first brush's lines, then the others'. */
  lemma BrushesLinesCons(c: FloatText, bs: seq<Brush>)
    requires bs != []
    ensures BrushesLines(c, bs) == BrushLines(c, bs[0]) + BrushesLines(c, bs[1..])
  {
    var gs := seq(|bs|, i requires 0 <= i < |bs| => BrushLines(c, bs[i]));
    assert gs[1..] == seq(|bs| - 1, i requires 0 <= i < |bs| - 1 => BrushLines(c, bs[1..][i]));
  }

  /** The words of the brushes from the `k`-th on: that brush's, then the others'. */
  lemma BrushesWordsFrom(c: FloatText, bs: seq<Brush>, k: nat)
    requires k < |bs|
    ensures Words(BrushesLines(c, bs[k..])) == Words(BrushLines(c, bs[k])) + Words(BrushesLines(c, bs[k + 1..]))
  {
    BrushesLinesCons(c, bs[k..]);
    assert bs[k..][1..] == bs[k + 1..];
    WordsAppend(BrushLines(c, bs[k]), BrushesLines(c, bs[k + 1..]));
  }

  /** The `k`-th written brush is read, and the loop goes on at the words of the next. */
  lemma NextBrushRead(c: FloatText, items: seq<Item>, pos: nat, bs: seq<Brush>, k: nat) returns (n: nat)
    requires WellBehaved(c) && AllLexemes(items) && k < |bs| && BrushWritable(Corrected, bs[k])
    requires At(items, pos, Words(BrushesLines(c, bs[k..])) + [[RBRACE]])
    ensures At(items, n, Words(BrushesLines(c, bs[k + 1..])) + [[RBRACE]])
    ensures n + |Words(BrushesLines(c, bs[k + 1..]))| == pos + |Words(BrushesLines(c, bs[k..]))|
    ensures BrushesFrom(c, items, pos, bs[..k]) == BrushesFrom(c, items, n, bs[..k + 1])
  {
    n := pos + |Words(BrushLines(c, bs[k]))|;
    NextBrushLayout(c, items, pos, bs, k);
    BrushRead(c, items, pos, bs[k]);
    BrushesStep(c, items, pos, bs[..k], bs[k], n);
    TakeSnoc(bs, k);
  }

  /** The words of the brushes from the `k`-th on: that brush's, starting with `{`, then the others'. */
  lemma NextBrushLayout(c: FloatText, items: seq<Item>, pos: nat, bs: seq<Brush>, k: nat)
    requires k < |bs|
    requires At(items, pos, Words(BrushesLines(c, bs[k..])) + [[RBRACE]])
    ensures TokenText(items, pos) == Some([LBRACE])
    ensures At(items, pos, Words(BrushLines(c, bs[k])))
    ensures At(items, pos + |Words(BrushLines(c, bs[k]))|, Words(BrushesLines(c, bs[k + 1..])) + [[RBRACE]])
    ensures |Words(BrushLines(c, bs[k]))| + |Words(BrushesLines(c, bs[k + 1..]))| == |Words(BrushesLines(c, bs[k..]))|
  {
    var first := Words(BrushLines(c, bs[k]));
    var rest := Words(BrushesLines(c, bs[k + 1..]));
    BrushesWordsFrom(c, bs, k);
    ConcatAssoc(first, rest, [[RBRACE]]);
    AtSplit(items, pos, first, rest + [[RBRACE]]);
    BrushWords(c, bs[k]);
    assert TokenText(items, pos) == Some([LBRACE]);
  }

  /** One brush read at a `{`, then the loop goes on after it. */
  lemma BrushesStep(c: FloatText, items: seq<Item>, pos: nat, acc: seq<Brush>, b: Brush, n: nat)
    requires Stream(items, pos) && pos < |items| && items[pos].Ok? && MatchByte(items[pos].value, LBRACE)
    requires ReadsAs(BrushAt(c, items, pos), b, n)
    ensures BrushesFrom(c, items, pos, acc) == BrushesFrom(c, items, n, acc + [b])
  {
  }

  /**
   * The written brushes from the `k`-th on, then the entity's `}`: the brush loop, having read the
   * first `k`, reads the others and stops at the brace.
   */
  lemma {:induction false} BrushesRead(c: FloatText, items: seq<Item>, pos: nat, bs: seq<Brush>, k: nat)
    requires WellBehaved(c) && AllLexemes(items) && k <= |bs|
    requires forall i :: 0 <= i < |bs| ==> BrushWritable(Corrected, bs[i])
    requires At(items, pos, Words(BrushesLines(c, bs[k..])) + [[RBRACE]])
    ensures ReadsAs(BrushesFrom(c, items, pos, bs[..k]), bs, pos + |Words(BrushesLines(c, bs[k..]))|)
    decreases |bs| - k
  {
    if k == |bs| {
      assert BrushesLines(c, bs[k..]) == [] && bs[..k] == bs;
      assert TokenText(items, pos) == Some([RBRACE]);
    } else {
      var n := NextBrushRead(c, items, pos, bs, k);
      BrushesRead(c, items, n, bs, k + 1);
    }
  }

  /** An entity's written brushes, then its `}`: the brush loop reads them all and stops at the brace. */
  lemma EntityBrushesRead(c: FloatText, items: seq<Item>, pos: nat, ent: Entity)
    requires WellBehaved(c) && AllLexemes(items) && EntityWritable(Corrected, ent)
    requires At(items, pos, Words(BrushesLines(c, ent.brushes)) + [[RBRACE]])
    ensures ReadsAs(BrushesFrom(c, items, pos, []), ent.brushes, pos + |Words(BrushesLines(c, ent.brushes))|)
  {
    var bs := ent.brushes;
    assert bs[..0] == [] && bs[0..] == bs;
    BrushesRead(c, items, pos, bs, 0);
  }

  /** The brushes' words, then `}`, start with a one-byte brace. */
  lemma BrushesThenCloseStart(c: FloatText, bs: seq<Brush>)
    ensures var ws := Words(BrushesLines(c, bs)) + [[RBRACE]]; |ws| >= 1 && |ws[0]| == 1
  {
    if bs == [] {
      assert BrushesLines(c, bs) == [];
    } else {
      BrushesLinesCons(c, bs);
      WordsAppend(BrushLines(c, bs[0]), BrushesLines(c, bs[1..]));
      BrushWords(c, bs[0]);
    }
  }

  // ---------------------------------------------------------------------
  // Edicts, entities and the whole map

  /** The words of the first `n` pairs: key then value, two words a pair. */
  lemma {:induction false} PairWords(order: seq<CString>, e: Edict, n: nat)
    requires IsEnumeration(order, e) && n <= |order|
    ensures var ws := Words(PairLines(order, e, n));
            && |ws| == 2 * n
            && forall j :: 0 <= j < n ==> ws[2 * j] == MapWriter.Quoted(order[j]) && ws[2 * j + 1] == MapWriter.Quoted(e[order[j]])
    decreases n
  {
    if n > 0 {
      var line := [MapWriter.Quoted(order[n - 1]), MapWriter.Quoted(e[order[n - 1]])];
      assert PairLines(order, e, n) == PairLines(order, e, n - 1) + [line];
      WordsAppend(PairLines(order, e, n - 1), [line]);
      OneLine(line);
      PairWords(order, e, n - 1);
    }
  }

  /** Two quoted words at `q + 2j` and `q + 2j + 1` name the `j`-th key and its value. */
  lemma PairTokens(items: seq<Item>, q: nat, order: seq<CString>, e: Edict, j: nat)
    requires AllLexemes(items) && IsEnumeration(order, e) && j < |order|
    requires At(items, q, Words(PairLines(order, e, |order|)))
    ensures QuotedAt(items, q + 2 * j) && QuotedAt(items, q + 2 * j + 1)
    ensures QuotedText(items, q + 2 * j) == order[j] && QuotedText(items, q + 2 * j + 1) == e[order[j]]
  {
    PairWords(order, e, |order|);
    var ws := Words(PairLines(order, e, |order|));
    assert TokenText(items, q + 2 * j) == Some(ws[2 * j]);
    assert TokenText(items, q + 2 * j + 1) == Some(ws[2 * j + 1]);
    StripQuotedUndoesQuoting(order[j]);
    StripQuotedUndoesQuoting(e[order[j]]);
  }

  /** The written pairs are quoted pairs, one for each key in the order. */
  lemma PairsQuoted(items: seq<Item>, q: nat, order: seq<CString>, e: Edict)
    requires AllLexemes(items) && IsEnumeration(order, e)
    requires At(items, q, Words(PairLines(order, e, |order|)))
    ensures QuotedPairs(items, q, |order|)
    ensures forall j :: 0 <= j < |order| ==> QuotedText(items, q + 2 * j) == order[j] && QuotedText(items, q + 2 * j + 1) == e[order[j]]
  {
    PairWords(order, e, |order|);
    forall i | q <= i < q + 2 * |order| ensures QuotedAt(items, i) {
      PairTokens(items, q, order, e, (i - q) / 2);
    }
    forall j | 0 <= j < |order|
      ensures QuotedText(items, q + 2 * j) == order[j] && QuotedText(items, q + 2 * j + 1) == e[order[j]]
    {
      PairTokens(items, q, order, e, j);
    }
  }

  /** The edict the loop builds from the written pairs is the written edict. */
  lemma EdictAfterIsWritten(items: seq<Item>, q: nat, order: seq<CString>, e: Edict)
    requires AllLexemes(items) && IsEnumeration(order, e) && QuotedPairs(items, q, |order|)
    requires forall j :: 0 <= j < |order| ==> QuotedText(items, q + 2 * j) == order[j] && QuotedText(items, q + 2 * j + 1) == e[order[j]]
    ensures EdictAfter(items, q, |order|, map[]) == e
  {
    EdictAfterHasWrittenKeys(items, q, order, e);
    EdictAfterHasWrittenValues(items, q, order, e);
  }

  /** The keys read from the written pairs are the edict's keys. */
  lemma EdictAfterHasWrittenKeys(items: seq<Item>, q: nat, order: seq<CString>, e: Edict)
    requires AllLexemes(items) && IsEnumeration(order, e) && QuotedPairs(items, q, |order|)
    requires forall j :: 0 <= j < |order| ==> QuotedText(items, q + 2 * j) == order[j] && QuotedText(items, q + 2 * j + 1) == e[order[j]]
    ensures forall k :: k in EdictAfter(items, q, |order|, map[]) <==> k in e
  {
    var n := |order|;
    var r := EdictAfter(items, q, n, map[]);
    forall k ensures k in r <==> k in e {
      EdictAfterKeys(items, q, n, k);
      if k in e {
        var j :| 0 <= j < n && order[j] == k;
        assert QuotedText(items, q + 2 * j) == k;
      }
      if k in r {
        var j :| 0 <= j < n && QuotedText(items, q + 2 * j) == k;
        assert order[j] == k;
      }
    }
  }

  /** Each key of the edict is read with its own value: no later pair repeats the key. */
  lemma EdictAfterHasWrittenValues(items: seq<Item>, q: nat, order: seq<CString>, e: Edict)
    requires AllLexemes(items) && IsEnumeration(order, e) && QuotedPairs(items, q, |order|)
    requires forall j :: 0 <= j < |order| ==> QuotedText(items, q + 2 * j) == order[j] && QuotedText(items, q + 2 * j + 1) == e[order[j]]
    ensures forall k | k in e :: k in EdictAfter(items, q, |order|, map[]) && EdictAfter(items, q, |order|, map[])[k] == e[k]
  {
    var n := |order|;
    var r := EdictAfter(items, q, n, map[]);
    forall k | k in e ensures k in r && r[k] == e[k] {
      var j :| 0 <= j < n && order[j] == k;
      forall l | j < l < n ensures QuotedText(items, q + 2 * l) != k {
        assert order[l] != order[j];
      }
      EdictAfterLastValue(items, q, n, k, j);
    }
  }

  /** Written pairs, then a token that is not quoted: the edict loop reads the written edict. */
  lemma EdictRead(items: seq<Item>, q: nat, order: seq<CString>, e: Edict)
    requires AllLexemes(items) && IsEnumeration(order, e)
    requires At(items, q, Words(PairLines(order, e, |order|)))
    requires var r := q + |Words(PairLines(order, e, |order|))|; r < |items| && items[r].Ok? && !MatchQuoted(items[r].value)
    ensures ReadsAs(EdictFrom(items, q, map[]), e, q + |Words(PairLines(order, e, |order|))|)
  {
    PairWords(order, e, |order|);
    PairsQuoted(items, q, order, e);
    EdictEndsAfterPairs(items, q, |order|, map[]);
    EdictAfterIsWritten(items, q, order, e);
  }

  /** The words of an entity: its brace, its pairs, its brushes and its closing brace. */
  lemma EntityWords(c: FloatText, order: seq<CString>, ent: Entity)
    requires IsEnumeration(order, ent.edict)
    ensures Words(EntityLines(c, order, ent))
            == [[LBRACE]] + (Words(PairLines(order, ent.edict, |order|)) + (Words(BrushesLines(c, ent.brushes)) + [[RBRACE]]))
  {
    var pairs := PairLines(order, ent.edict, |order|);
    var brushes := BrushesLines(c, ent.brushes);
    OneLine(OPEN_LINE);
    OneLine(CLOSE_LINE);
    WordsAppend([OPEN_LINE], pairs);
    WordsAppend([OPEN_LINE] + pairs, brushes);
    WordsAppend([OPEN_LINE] + pairs + brushes, [CLOSE_LINE]);
    ConcatAssoc([[LBRACE]], Words(pairs), Words(brushes));
    ConcatAssoc([[LBRACE]] + Words(pairs), Words(brushes), [[RBRACE]]);
    ConcatAssoc([[LBRACE]], Words(pairs), Words(brushes) + [[RBRACE]]);
  }

  /** Where the parts of a written entity lie: its brace, its pairs, then its brushes and closing brace. */
  lemma EntityLayout(c: FloatText, items: seq<Item>, pos: nat, order: seq<CString>, ent: Entity)
    requires IsEnumeration(order, ent.edict) && At(items, pos, Words(EntityLines(c, order, ent)))
    ensures TokenText(items, pos) == Some([LBRACE])
    ensures At(items, pos + 1, Words(PairLines(order, ent.edict, |order|)))
    ensures At(items, pos + 1 + |Words(PairLines(order, ent.edict, |order|))|, Words(BrushesLines(c, ent.brushes)) + [[RBRACE]])
    ensures |Words(EntityLines(c, order, ent))| == |Words(PairLines(order, ent.edict, |order|))| + |Words(BrushesLines(c, ent.brushes))| + 2
  {
    var pw := Words(PairLines(order, ent.edict, |order|));
    var bw := Words(BrushesLines(c, ent.brushes)) + [[RBRACE]];
    EntityWords(c, order, ent);
    AtSplit(items, pos, [[LBRACE]], pw + bw);
    AtSplit(items, pos + 1, pw, bw);
  }

  /** A written entity's `{` and pairs are read back, leaving its brushes and `}`. */
  lemma EntityHeadRead(c: FloatText, items: seq<Item>, pos: nat, order: seq<CString>, ent: Entity)
    requires AllLexemes(items) && IsEnumeration(order, ent.edict)
    requires At(items, pos, Words(EntityLines(c, order, ent)))
    ensures ByteAt(items, pos, LBRACE) == Ok(pos + 1)
    ensures ReadsAs(EdictFrom(items, pos + 1, map[]), ent.edict, pos + 1 + |Words(PairLines(order, ent.edict, |order|))|)
    ensures At(items, pos + 1 + |Words(PairLines(order, ent.edict, |order|))|, Words(BrushesLines(c, ent.brushes)) + [[RBRACE]])
    ensures |Words(EntityLines(c, order, ent))| == |Words(PairLines(order, ent.edict, |order|))| + |Words(BrushesLines(c, ent.brushes))| + 2
  {
    var bw := Words(BrushesLines(c, ent.brushes)) + [[RBRACE]];
    var r := pos + 1 + |Words(PairLines(order, ent.edict, |order|))|;
    EntityLayout(c, items, pos, order, ent);
    ByteRead(items, pos, LBRACE);
    BrushesThenCloseStart(c, ent.brushes);
    assert TokenText(items, r) == Some(bw[0]);
    EdictRead(items, pos + 1, order, ent.edict);
  }

  /** The last of the words at `pos` is the token after the others. */
  lemma AtLast(items: seq<Item>, pos: nat, ws: seq<Bytes>, w: Bytes)
    requires At(items, pos, ws + [w])
    ensures TokenText(items, pos + |ws|) == Some(w)
  {
    assert (ws + [w])[|ws|] == w;
  }

  /** A written entity is read back as itself. */
  lemma EntityRead(c: FloatText, items: seq<Item>, pos: nat, order: seq<CString>, ent: Entity)
    requires WellBehaved(c) && AllLexemes(items) && IsEnumeration(order, ent.edict) && EntityWritable(Corrected, ent)
    requires At(items, pos, Words(EntityLines(c, order, ent)))
    ensures ReadsAs(EntityAt(c, items, pos), ent, pos + |Words(EntityLines(c, order, ent))|)
  {
    var bs := ent.brushes;
    var r := pos + 1 + |Words(PairLines(order, ent.edict, |order|))|;
    var close := r + |Words(BrushesLines(c, bs))|;
    EntityHeadRead(c, items, pos, order, ent);
    EntityBrushesRead(c, items, r, ent);
    AtLast(items, r, Words(BrushesLines(c, bs)), [RBRACE]);
    ByteRead(items, close, RBRACE);
    EntityAssembled(c, items, pos, ent, r, close);
  }

  /** `{`, the edict, the brushes and `}`, each read in turn, make the entity. */
  lemma EntityAssembled(c: FloatText, items: seq<Item>, pos: nat, ent: Entity, r: nat, close: nat)
    requires AllLexemes(items) && pos < r <= close < |items|
    requires ByteAt(items, pos, LBRACE) == Ok(pos + 1)
    requires ReadsAs(EdictFrom(items, pos + 1, map[]), ent.edict, r)
    requires ReadsAs(BrushesFrom(c, items, r, []), ent.brushes, close)
    requires ByteAt(items, close, RBRACE) == Ok(close + 1)
    ensures ReadsAs(EntityAt(c, items, pos), ent, close + 1)
  {
  }

  /** The lines of the first `k` entities begin the lines of the first `n`. */
  lemma {:induction false} EntitiesLinesPrefix(c: FloatText, orders: seq<seq<CString>>, es: seq<Entity>, k: nat, n: nat)
    returns (rest: seq<Line>)
    requires AreEnumerations(orders, es) && k <= n <= |es|
    ensures EntitiesLines(c, orders, es, n) == EntitiesLines(c, orders, es, k) + rest
    decreases n
  {
    if n == k {
      rest := [];
    } else {
      var before := EntitiesLinesPrefix(c, orders, es, k, n - 1);
      EntitiesLinesSnoc(c, orders, es, n - 1);
      rest := before + EntityLines(c, orders[n - 1], es[n - 1]);
    }
  }

  /** The lines of the first `n + 1` entities: those of the first `n`, then the next one's. */
  lemma EntitiesLinesSnoc(c: FloatText, orders: seq<seq<CString>>, es: seq<Entity>, n: nat)
    requires AreEnumerations(orders, es) && n < |es|
    ensures EntitiesLines(c, orders, es, n + 1) == EntitiesLines(c, orders, es, n) + EntityLines(c, orders[n], es[n])
  {
    var gs := seq(n + 1, i requires 0 <= i < n + 1 => EntityLines(c, orders[i], es[i]));
    assert gs == seq(n, i requires 0 <= i < n => EntityLines(c, orders[i], es[i])) + [EntityLines(c, orders[n], es[n])];
    ConcatSnoc(seq(n, i requires 0 <= i < n => EntityLines(c, orders[i], es[i])), EntityLines(c, orders[n], es[n]));
  }

  /** The items from `pos` on hold the words of the `k`-th entity, where `pos` is the length of the words before it. */
  lemma NextEntityWords(c: FloatText, items: seq<Item>, orders: seq<seq<CString>>, es: seq<Entity>, k: nat)
    requires AreEnumerations(orders, es) && k < |es|
    requires At(items, 0, Words(EntitiesLines(c, orders, es, |es|)))
    ensures var pos := |Words(EntitiesLines(c, orders, es, k))|;
            && At(items, pos, Words(EntityLines(c, orders[k], es[k])))
            && pos + |Words(EntityLines(c, orders[k], es[k]))| == |Words(EntitiesLines(c, orders, es, k + 1))|
  {
    var rest := EntitiesLinesPrefix(c, orders, es, k + 1, |es|);
    EntitiesLinesSnoc(c, orders, es, k);
    var before := EntitiesLines(c, orders, es, k);
    var current := EntityLines(c, orders[k], es[k]);
    WordsAppend(before + current, rest);
    WordsAppend(before, current);
    AtSplit(items, 0, Words(before + current), Words(rest));
    AtSplit(items, 0, Words(before), Words(current));
  }

  /** A non-empty entity line list: an entity writes at least its two braces. */
  lemma EntityWordsNonEmpty(c: FloatText, order: seq<CString>, ent: Entity)
    requires IsEnumeration(order, ent.edict)
    ensures |Words(EntityLines(c, order, ent))| >= 2
  {
    EntityWords(c, order, ent);
  }

  /**
   * The words of all the written entities, and nothing after them: the entity loop, having read the
   * first `k`, reads the others and ends the map.
   */
  lemma {:induction false} EntitiesRead(c: FloatText, items: seq<Item>, orders: seq<seq<CString>>, es: seq<Entity>, k: nat)
    requires WellBehaved(c) && AllLexemes(items) && AreEnumerations(orders, es) && k <= |es|
    requires forall i :: 0 <= i < |es| ==> EntityWritable(Corrected, es[i])
    requires At(items, 0, Words(EntitiesLines(c, orders, es, |es|)))
    requires |items| == |Words(EntitiesLines(c, orders, es, |es|))|
    ensures var pos := |Words(EntitiesLines(c, orders, es, k))|;
            pos <= |items| && EntitiesFrom(c, items, pos, es[..k]).Ok? && EntitiesFrom(c, items, pos, es[..k]).value.entities == es
    decreases |es| - k
  {
    var pos := |Words(EntitiesLines(c, orders, es, k))|;
    if k == |es| {
      assert es[..k] == es;
    } else {
      NextEntityWords(c, items, orders, es, k);
      EntityWordsNonEmpty(c, orders[k], es[k]);
      var rest := EntitiesLinesPrefix(c, orders, es, k + 1, |es|);
      WordsAppend(EntitiesLines(c, orders, es, k + 1), rest);
      EntityRead(c, items, pos, orders[k], es[k]);
      EntitiesStep(c, items, pos, es[..k], es[k], |Words(EntitiesLines(c, orders, es, k + 1))|);
      TakeSnoc(es, k);
      EntitiesRead(c, items, orders, es, k + 1);
    }
  }

  /** One entity read before the end of the stream, then the loop goes on after it. */
  lemma EntitiesStep(c: FloatText, items: seq<Item>, pos: nat, acc: seq<Entity>, e: Entity, n: nat)
    requires Stream(items, pos) && pos < |items|
    requires ReadsAs(EntityAt(c, items, pos), e, n)
    ensures EntitiesFrom(c, items, pos, acc) == EntitiesFrom(c, items, n, acc + [e])
  {
  }

  /**
   * A map that the corrected check accepts, written by the corrected writer and read back with
   * well-behaved number texts, is the written map.
   */
  lemma MapReadsBack(c: FloatText, orders: seq<seq<CString>>, m: QuakeMap)
    requires WellBehaved(c) && AreEnumerations(orders, m.entities) && CheckMap(c, Corrected, orders, m).Ok?
    ensures ParseText(c, MapText(c, Corrected, orders, m)) == Ok(m)
  {
    var es := m.entities;
    var ls := EntitiesLines(c, orders, es, |es|);
    EntitiesTextIsLines(c, orders, es, |es|);
    EntitiesLinesGood(c, orders, es);
    LexLines(ls);
    var items := Lex(LinesText(ls));
    WellFormedAreLexemes(items);
    forall i | 0 <= i < |Words(ls)| ensures TokenText(items, i) == Some(Words(ls)[i]) {
    }
    assert EntitiesLines(c, orders, es, 0) == [] && es[..0] == [];
    EntitiesRead(c, items, orders, es, 0);
    MapIsItsEntities(m, EntitiesFrom(c, items, 0, []));
  }

  /** A successful read whose entities are those of `m` is `m`. */
  lemma MapIsItsEntities(m: QuakeMap, r: Result<QuakeMap, Errors.TextParse>)
    requires r.Ok? && r.value.entities == m.entities
    ensures r == Ok(m)
  {
  }
}
