/**
 * The map writer: every record is a line of space-separated words ending in
 * CR LF.  An entity is validated before any of its bytes are written; a map
 * is written entity by entity and stops at the first entity that fails.
 *
 * The text functions (`Join`, `LinesText`, `EntityLines`, ...) say what is
 * written; the methods write it piece by piece into a `Sink`, as the writer
 * does, and are proved to produce exactly that text.
 */
module MapWriter {
  import opened Common
  import opened Repr
  import Errors

  /** `WriteError`: a failed validation or an I/O failure. */
  datatype WriteError = Validation(message: string) | Io(io: Errors.IoError)

  type WriteAttempt = Result<(), WriteError>

  /** `Display for WriteError`. */
  function WriteErrorDisplay(e: WriteError): (r: string)
    ensures e.Validation? ==> r == "Validation: " + e.message
    ensures e.Io? ==> r == "I/O: " + e.io.text
  {
    match e
    case Validation(msg) => "Validation: " + msg
    case Io(io) => "I/O: " + io.text
  }

  /** The writer: the bytes written to it so far. */
  class Sink {
    var bytes: Bytes

    constructor ()
      ensures bytes == []
    {
      bytes := [];
    }

    /** `write_all`. */
    method WriteAll(b: Bytes)
      modifies this
      ensures bytes == old(bytes) + b
    {
      bytes := bytes + b;
    }
  }

  // ---------------------------------------------------------------------
  // The text

  const CRLF: Bytes := [CR, LF]

  /** Words separated by single spaces. */
  function Join(ws: seq<Bytes>): Bytes
    decreases |ws|
  {
    if ws == [] then [] else if |ws| == 1 then ws[0] else ws[0] + [SPACE] + Join(ws[1..])
  }

  function Quoted(s: Bytes): Bytes {
    [QUOTE] + s + [QUOTE]
  }

  /** What `write_texture_to` writes: the name, in quotes when it is empty or holds whitespace. */
  function TextureTextAsWritten(t: Bytes): Bytes {
    if NeedsQuotesAsWritten(t) then Quoted(t) else t
  }

  /** The corrected texture text: also quoted when the bare name would read as a comment. */
  function TextureText(t: Bytes): Bytes {
    if NeedsQuotes(t) then Quoted(t) else t
  }

  /** The texture text under the given rule. */
  function TextureTextBy(rule: TextureRule, t: Bytes): Bytes {
    if rule.AsWritten? then TextureTextAsWritten(t) else TextureText(t)
  }

  /** `( x y z )`. */
  function PointWords(c: FloatText, p: Point): (r: seq<Bytes>)
    ensures |r| == 5
  {
    [[LPAREN], Show(c, p[0]), Show(c, p[1]), Show(c, p[2]), [RPAREN]]
  }

  function HalfSpaceWords(c: FloatText, h: HalfSpace): (r: seq<Bytes>)
    ensures |r| == 15
  {
    PointWords(c, h[0]) + PointWords(c, h[1]) + PointWords(c, h[2])
  }

  /** The five legacy numbers, or the Valve 220 form `[ u ox ] [ v oy ] r sx sy`. */
  function AlignmentWords(c: FloatText, a: Alignment): (r: seq<Bytes>)
    ensures |r| == if a.axes.None? then 5 else 15
  {
    var tail := [Show(c, a.rotation), Show(c, a.scale[0]), Show(c, a.scale[1])];
    match a.axes
    case None => [Show(c, a.offset[0]), Show(c, a.offset[1])] + tail
    case Some(Axes(u, v)) =>
      [[LBRACKET], Show(c, u[0]), Show(c, u[1]), Show(c, u[2]), Show(c, a.offset[0]), [RBRACKET]]
      + [[LBRACKET], Show(c, v[0]), Show(c, v[1]), Show(c, v[2]), Show(c, a.offset[1]), [RBRACKET]]
      + tail
  }

  /** One surface line, before its CR LF: 15 half-space words, the texture, the alignment. */
  function SurfaceWords(c: FloatText, rule: TextureRule, s: Surface): (r: seq<Bytes>)
    ensures |r| == 16 + |AlignmentWords(c, s.alignment)|
  {
    HalfSpaceWords(c, s.halfSpace) + [TextureTextBy(rule, s.texture)] + AlignmentWords(c, s.alignment)
  }

  /** A surface whose texture does not read as a comment is written alike under both rules. */
  lemma SurfaceWordsRulesAgree(c: FloatText, s: Surface)
    requires !ReadsAsComment(s.texture)
    ensures SurfaceWords(c, AsWritten, s) == SurfaceWords(c, Corrected, s)
  {
  }

  /** Each surface's line and CR LF. */
  function SurfacesText(c: FloatText, rule: TextureRule, b: Brush): Bytes
    decreases |b|
  {
    if b == [] then [] else SurfacesText(c, rule, b[..|b| - 1]) + Join(SurfaceWords(c, rule, b[|b| - 1])) + CRLF
  }

  /** `{` CR LF, the surfaces, `}` CR LF. */
  function BrushText(c: FloatText, rule: TextureRule, b: Brush): Bytes {
    ([LBRACE] + CRLF) + SurfacesText(c, rule, b) + ([RBRACE] + CRLF)
  }

  function BrushesText(c: FloatText, rule: TextureRule, bs: seq<Brush>): Bytes
    decreases |bs|
  {
    if bs == [] then [] else BrushesText(c, rule, bs[..|bs| - 1]) + BrushText(c, rule, bs[|bs| - 1])
  }

  /** `"key" "value"` CR LF. */
  function PairText(k: Bytes, v: Bytes): Bytes {
    Join([Quoted(k), Quoted(v)]) + CRLF
  }

  /** The lines of the first `n` pairs, in the walk order. */
  function PairsText(order: seq<CString>, e: Edict, n: nat): Bytes
    requires n <= |order| && forall i :: 0 <= i < |order| ==> order[i] in e
  {
    if n == 0 then [] else PairsText(order, e, n - 1) + PairText(order[n - 1], e[order[n - 1]])
  }

  /** One pair line per key, in the walk order. */
  function EdictText(order: seq<CString>, e: Edict): Bytes
    requires forall i :: 0 <= i < |order| ==> order[i] in e
  {
    PairsText(order, e, |order|)
  }

  /** `{` CR LF, the edict, the brushes, `}` CR LF. */
  function EntityText(c: FloatText, rule: TextureRule, order: seq<CString>, ent: Entity): Bytes
    requires IsEnumeration(order, ent.edict)
  {
    ([LBRACE] + CRLF) + EdictText(order, ent.edict) + BrushesText(c, rule, ent.brushes) + ([RBRACE] + CRLF)
  }

  /** The texts of the first `n` entities. */
  function EntitiesText(c: FloatText, rule: TextureRule, orders: seq<seq<CString>>, es: seq<Entity>, n: nat): Bytes
    requires AreEnumerations(orders, es) && n <= |es|
  {
    if n == 0 then [] else EntitiesText(c, rule, orders, es, n - 1) + EntityText(c, rule, orders[n - 1], es[n - 1])
  }

  /** The text of a whole map: each entity's text in order. */
  function MapText(c: FloatText, rule: TextureRule, orders: seq<seq<CString>>, m: QuakeMap): Bytes
    requires AreEnumerations(orders, m.entities)
  {
    EntitiesText(c, rule, orders, m.entities, |m.entities|)
  }

  // ---------------------------------------------------------------------
  // Shape of the text

  lemma {:induction false} JoinAppend(a: seq<Bytes>, b: seq<Bytes>)
    requires a != [] && b != []
    ensures Join(a + b) == Join(a) + [SPACE] + Join(b)
    decreases |a|
  {
    if |a| == 1 {
      assert (a + b)[0] == a[0] && (a + b)[1..] == b;
    } else {
      assert (a + b)[0] == a[0] && (a + b)[1..] == a[1..] + b;
      JoinAppend(a[1..], b);
    }
  }

  /** An edict pair is written as `"key" "value"` and CR LF. */
  lemma PairLayout(k: Bytes, v: Bytes)
    ensures PairText(k, v) == [QUOTE] + k + [QUOTE, SPACE, QUOTE] + v + [QUOTE, CR, LF]
  {
    var ws := [Quoted(k), Quoted(v)];
    assert ws[1..] == [Quoted(v)];
    assert Join(ws) == Quoted(k) + [SPACE] + Quoted(v);
  }

  /** The five writes of one pair append its line. */
  lemma PairWrites(start: Bytes, k: Bytes, v: Bytes)
    ensures start + [QUOTE] + k + [QUOTE, SPACE, QUOTE] + v + [QUOTE, CR, LF] == start + PairText(k, v)
  {
    PairLayout(k, v);
  }

  /** A point is written as `( x y z )`. */
  lemma PointLayout(c: FloatText, p: Point)
    ensures Join(PointWords(c, p))
         == [LPAREN, SPACE] + Show(c, p[0]) + [SPACE] + Show(c, p[1]) + [SPACE] + Show(c, p[2]) + [SPACE, RPAREN]
  {
    var ws := PointWords(c, p);
    var x, y, z := Show(c, p[0]), Show(c, p[1]), Show(c, p[2]);
    assert ws[1..][1..][1..][1..] == [[RPAREN]];
    assert Join(ws[1..][1..][1..]) == z + [SPACE, RPAREN];
    assert Join(ws[1..][1..]) == y + [SPACE] + z + [SPACE, RPAREN];
    assert Join(ws[1..]) == x + [SPACE] + y + [SPACE] + z + [SPACE, RPAREN];
  }

  /** Writing an empty map writes nothing. */
  lemma EmptyMapText(c: FloatText, rule: TextureRule)
    ensures MapText(c, rule, [], QuakeMap([])) == []
  {
  }

  // ---------------------------------------------------------------------
  // The writer

  /** `write_texture_to`, quoting when the given rule asks for it. */
  method WriteTexture(rule: TextureRule, t: CString, w: Sink)
    modifies w
    ensures w.bytes == old(w.bytes) + TextureTextBy(rule, t)
  {
    var needsQuotes := NeedsQuotesBy(rule, t);
    ghost var text := if needsQuotes then Quoted(t) else t;
    assert TextureTextBy(rule, t) == text;
    if needsQuotes {
      w.WriteAll([QUOTE]);
    }
    w.WriteAll(t);
    if needsQuotes {
      w.WriteAll([QUOTE]);
      ConcatAssoc(old(w.bytes) + [QUOTE], t, [QUOTE]);
      ConcatAssoc(old(w.bytes), [QUOTE], t + [QUOTE]);
    }
  }

  /** What the loop of `write_half_space_to` over one point's coordinates writes: each number and a space. */
  function NumbersText(c: FloatText, xs: seq<F64>): Bytes
    decreases |xs|
  {
    if xs == [] then [] else NumbersText(c, xs[..|xs| - 1]) + Show(c, xs[|xs| - 1]) + [SPACE]
  }

  /** The first `n` points of a half-space as written, each followed by a space but the last. */
  function PointsText(c: FloatText, h: HalfSpace, n: nat): Bytes
    requires n <= 3
  {
    if n == 0 then [] else PointsText(c, h, n - 1) + Join(PointWords(c, h[n - 1])) + (if n - 1 != 2 then [SPACE] else [])
  }

  lemma HalfSpaceJoin(c: FloatText, h: HalfSpace)
    ensures Join(HalfSpaceWords(c, h)) == PointsText(c, h, 3)
  {
    var p0, p1, p2 := Join(PointWords(c, h[0])), Join(PointWords(c, h[1])), Join(PointWords(c, h[2]));
    assert PointsText(c, h, 1) == p0 + [SPACE];
    assert PointsText(c, h, 2) == p0 + [SPACE] + p1 + [SPACE];
    assert PointsText(c, h, 3) == p0 + [SPACE] + p1 + [SPACE] + p2;
    JoinAppend(PointWords(c, h[0]) + PointWords(c, h[1]), PointWords(c, h[2]));
    JoinAppend(PointWords(c, h[0]), PointWords(c, h[1]));
  }

  /** The point loop writes `( `, each number and a space, and `)`: the point's words. */
  lemma PointText(c: FloatText, p: Point)
    ensures [LPAREN, SPACE] + NumbersText(c, p) + [RPAREN] == Join(PointWords(c, p))
  {
    PointLayout(c, p);
    assert p[..3][..2] == p[..2] && p[..2][..1] == p[..1] && p[..1][..0] == [];
    assert NumbersText(c, p[..1]) == Show(c, p[0]) + [SPACE];
    assert NumbersText(c, p[..2]) == Show(c, p[0]) + [SPACE] + Show(c, p[1]) + [SPACE];
    assert p[..3] == p;
  }

  /** `write_half_space_to`. */
  method WriteHalfSpace(c: FloatText, h: HalfSpace, w: Sink)
    modifies w
    ensures w.bytes == old(w.bytes) + Join(HalfSpaceWords(c, h))
  {
    var index := 0;
    while index < 3
      invariant 0 <= index <= 3
      invariant w.bytes == old(w.bytes) + PointsText(c, h, index)
    {
      ghost var start := w.bytes;
      var pt := h[index];
      w.WriteAll([LPAREN, SPACE]);
      ghost var opening := w.bytes;
      var k := 0;
      while k < 3
        invariant 0 <= k <= 3
        invariant w.bytes == opening + NumbersText(c, pt[..k])
      {
        w.WriteAll(Show(c, pt[k]) + [SPACE]);
        assert pt[..k + 1][..k] == pt[..k];
        ConcatAssoc(opening, NumbersText(c, pt[..k]), Show(c, pt[k]) + [SPACE]);
        ConcatAssoc(NumbersText(c, pt[..k]), Show(c, pt[k]), [SPACE]);
        k := k + 1;
      }
      w.WriteAll([RPAREN]);
      assert pt[..3] == pt;
      PointWrites(start, c, pt);
      ghost var sep: Bytes := if index != 2 then [SPACE] else [];
      if index != 2 {
        w.WriteAll([SPACE]);
      }
      assert w.bytes == start + Join(PointWords(c, pt)) + sep;
      ConcatAssoc(old(w.bytes), PointsText(c, h, index), Join(PointWords(c, pt)));
      ConcatAssoc(old(w.bytes), PointsText(c, h, index) + Join(PointWords(c, pt)), sep);
      index := index + 1;
    }
    HalfSpaceJoin(c, h);
  }

  lemma PointWrites(start: Bytes, c: FloatText, p: Point)
    ensures start + [LPAREN, SPACE] + NumbersText(c, p) + [RPAREN] == start + Join(PointWords(c, p))
  {
    PointText(c, p);
    ConcatAssoc(start, [LPAREN, SPACE] + NumbersText(c, p), [RPAREN]);
    ConcatAssoc(start, [LPAREN, SPACE], NumbersText(c, p));
  }

  /** `Alignment::write_to`: one formatted write. */
  method WriteAlignment(c: FloatText, a: Alignment, w: Sink)
    modifies w
    ensures w.bytes == old(w.bytes) + Join(AlignmentWords(c, a))
  {
    w.WriteAll(Join(AlignmentWords(c, a)));
  }

  /** `Surface::write_to`: the half-space, a space, the texture, a space, the alignment. */
  method WriteSurface(c: FloatText, rule: TextureRule, s: Surface, w: Sink)
    modifies w
    ensures w.bytes == old(w.bytes) + Join(SurfaceWords(c, rule, s))
  {
    WriteHalfSpace(c, s.halfSpace, w);
    w.WriteAll([SPACE]);
    WriteTexture(rule, s.texture, w);
    w.WriteAll([SPACE]);
    WriteAlignment(c, s.alignment, w);
    SurfaceTextParts(old(w.bytes), c, rule, s);
  }

  lemma SurfaceTextParts(start: Bytes, c: FloatText, rule: TextureRule, s: Surface)
    ensures start + Join(SurfaceWords(c, rule, s))
         == start + Join(HalfSpaceWords(c, s.halfSpace)) + [SPACE] + TextureTextBy(rule, s.texture) + [SPACE]
            + Join(AlignmentWords(c, s.alignment))
  {
    var hw, tw, aw := HalfSpaceWords(c, s.halfSpace), [TextureTextBy(rule, s.texture)], AlignmentWords(c, s.alignment);
    JoinAppend(hw + tw, aw);
    JoinAppend(hw, tw);
    assert Join(tw) == tw[0];
  }

  /** `write_brush_to`. */
  method WriteBrush(c: FloatText, rule: TextureRule, b: Brush, w: Sink)
    modifies w
    ensures w.bytes == old(w.bytes) + BrushText(c, rule, b)
  {
    w.WriteAll([LBRACE] + CRLF);
    ghost var head := w.bytes;
    var i := 0;
    while i < |b|
      invariant 0 <= i <= |b|
      invariant w.bytes == head + SurfacesText(c, rule, b[..i])
    {
      ghost var before := w.bytes;
      WriteSurface(c, rule, b[i], w);
      w.WriteAll(CRLF);
      ghost var line := Join(SurfaceWords(c, rule, b[i]));
      SurfacesTextStep(c, rule, b, i);
      ConcatAssoc(before, line, CRLF);
      ConcatAssoc(head, SurfacesText(c, rule, b[..i]), line + CRLF);
      i := i + 1;
    }
    assert b[..i] == b;
    w.WriteAll([RBRACE] + CRLF);
    BrushTextParts(old(w.bytes), c, rule, b);
  }

  lemma SurfacesTextStep(c: FloatText, rule: TextureRule, b: Brush, i: nat)
    requires i < |b|
    ensures SurfacesText(c, rule, b[..i + 1]) == SurfacesText(c, rule, b[..i]) + (Join(SurfaceWords(c, rule, b[i])) + CRLF)
  {
    assert b[..i + 1][..i] == b[..i];
    ConcatAssoc(SurfacesText(c, rule, b[..i]), Join(SurfaceWords(c, rule, b[i])), CRLF);
  }

  lemma BrushTextParts(start: Bytes, c: FloatText, rule: TextureRule, b: Brush)
    ensures start + BrushText(c, rule, b) == start + ([LBRACE] + CRLF) + SurfacesText(c, rule, b) + ([RBRACE] + CRLF)
  {
    var o, m, e := [LBRACE] + CRLF, SurfacesText(c, rule, b), [RBRACE] + CRLF;
    ConcatAssoc(start, o + m, e);
    ConcatAssoc(start, o, m);
  }

  /** The body of the loop of `write_edict_to`: one pair's five writes. */
  method WritePair(key: CString, value: CString, w: Sink)
    modifies w
    ensures w.bytes == old(w.bytes) + PairText(key, value)
  {
    w.WriteAll([QUOTE]);
    w.WriteAll(key);
    w.WriteAll([QUOTE, SPACE, QUOTE]);
    w.WriteAll(value);
    w.WriteAll([QUOTE, CR, LF]);
    PairWrites(old(w.bytes), key, value);
  }

  /** `write_edict_to`: one line per pair, in the walk order. */
  method WriteEdict(order: seq<CString>, e: Edict, w: Sink)
    requires IsEnumeration(order, e)
    modifies w
    ensures w.bytes == old(w.bytes) + EdictText(order, e)
  {
    var i := 0;
    while i < |order|
      invariant 0 <= i <= |order|
      invariant w.bytes == old(w.bytes) + PairsText(order, e, i)
    {
      var key := order[i];
      var value := e[key];
      WritePair(key, value, w);
      ConcatAssoc(old(w.bytes), PairsText(order, e, i), PairText(key, value));
      i := i + 1;
    }
  }

  /** `Entity::write_to`: validate, and only then write. */
  method WriteEntity(c: FloatText, rule: TextureRule, order: seq<CString>, ent: Entity, w: Sink) returns (r: WriteAttempt)
    requires IsEnumeration(order, ent.edict)
    modifies w
    ensures CheckEntity(c, rule, order, ent).Err? ==>
              r == Err(Validation(CheckEntity(c, rule, order, ent).error)) && w.bytes == old(w.bytes)
    ensures CheckEntity(c, rule, order, ent).Ok? ==> r == Ok(()) && w.bytes == old(w.bytes) + EntityText(c, rule, order, ent)
  {
    var check := CheckEntity(c, rule, order, ent);
    if check.Err? {
      return Err(Validation(check.error));
    }
    w.WriteAll([LBRACE] + CRLF);
    WriteEdict(order, ent.edict, w);
    WriteBrushes(c, rule, ent.brushes, w);
    w.WriteAll([RBRACE] + CRLF);
    EntityTextParts(old(w.bytes), c, rule, order, ent);
    return Ok(());
  }

  /** The `for` loop over an entity's brushes: each brush's text in turn. */
  method WriteBrushes(c: FloatText, rule: TextureRule, bs: seq<Brush>, w: Sink)
    modifies w
    ensures w.bytes == old(w.bytes) + BrushesText(c, rule, bs)
  {
    var i := 0;
    while i < |bs|
      invariant 0 <= i <= |bs|
      invariant w.bytes == old(w.bytes) + BrushesText(c, rule, bs[..i])
    {
      WriteBrush(c, rule, bs[i], w);
      assert bs[..i + 1][..i] == bs[..i];
      ConcatAssoc(old(w.bytes), BrushesText(c, rule, bs[..i]), BrushText(c, rule, bs[i]));
      i := i + 1;
    }
    assert bs[..i] == bs;
  }

  lemma EntityTextParts(start: Bytes, c: FloatText, rule: TextureRule, order: seq<CString>, ent: Entity)
    requires IsEnumeration(order, ent.edict)
    ensures start + EntityText(c, rule, order, ent)
         == start + ([LBRACE] + CRLF) + EdictText(order, ent.edict) + BrushesText(c, rule, ent.brushes) + ([RBRACE] + CRLF)
  {
    var o, d, bs, e := [LBRACE] + CRLF, EdictText(order, ent.edict), BrushesText(c, rule, ent.brushes), [RBRACE] + CRLF;
    ConcatAssoc(start, o + d + bs, e);
    ConcatAssoc(start, o + d, bs);
    ConcatAssoc(start, o, d);
  }

  /**
   * What writing the entities from `i` on leaves in the writer and returns:
   * each entity's text until the first entity that fails validation, whose
   * error ends the write.
   */
  function WriteOutcome(c: FloatText, rule: TextureRule, orders: seq<seq<CString>>, es: seq<Entity>, i: nat): (Bytes, WriteAttempt)
    requires AreEnumerations(orders, es) && i <= |es|
    decreases |es| - i
  {
    if i == |es| then ([], Ok(()))
    else
      var head := CheckEntity(c, rule, orders[i], es[i]);
      if head.Err? then ([], Err(Validation(head.error)))
      else
        var rest := WriteOutcome(c, rule, orders, es, i + 1);
        (EntityText(c, rule, orders[i], es[i]) + rest.0, rest.1)
  }

  /** One step of the outcome: a failing entity ends it, a passing one adds its text. */
  lemma OutcomeStep(c: FloatText, rule: TextureRule, orders: seq<seq<CString>>, es: seq<Entity>, i: nat)
    requires AreEnumerations(orders, es) && i < |es|
    ensures var check := CheckEntity(c, rule, orders[i], es[i]);
      WriteOutcome(c, rule, orders, es, i)
      == if check.Err? then ([], Err(Validation(check.error)))
         else (EntityText(c, rule, orders[i], es[i]) + WriteOutcome(c, rule, orders, es, i + 1).0, WriteOutcome(c, rule, orders, es, i + 1).1)
  {
  }

  /** `QuakeMap::write_to`. */
  method WriteMap(c: FloatText, rule: TextureRule, orders: seq<seq<CString>>, m: QuakeMap, w: Sink) returns (r: WriteAttempt)
    requires AreEnumerations(orders, m.entities)
    modifies w
    ensures w.bytes == old(w.bytes) + WriteOutcome(c, rule, orders, m.entities, 0).0
    ensures r == WriteOutcome(c, rule, orders, m.entities, 0).1
  {
    var es := m.entities;
    ghost var goal := WriteOutcome(c, rule, orders, es, 0);
    var i := 0;
    while i < |es|
      invariant 0 <= i <= |es|
      invariant w.bytes + WriteOutcome(c, rule, orders, es, i).0 == old(w.bytes) + goal.0
      invariant WriteOutcome(c, rule, orders, es, i).1 == goal.1
    {
      ghost var before := w.bytes;
      OutcomeStep(c, rule, orders, es, i);
      r := WriteEntity(c, rule, orders[i], es[i], w);
      if r.Err? {
        assert w.bytes + [] == w.bytes;
        return;
      }
      ConcatAssoc(before, EntityText(c, rule, orders[i], es[i]), WriteOutcome(c, rule, orders, es, i + 1).0);
      i := i + 1;
    }
    assert w.bytes + [] == w.bytes;
    r := Ok(());
  }

  // ---------------------------------------------------------------------
  // What writing a map does

  /** Entities that all pass move their texts from the outcome into the prefix. */
  lemma {:induction false} OutcomeThroughPassing(c: FloatText, rule: TextureRule, orders: seq<seq<CString>>, es: seq<Entity>, n: nat, stop: nat)
    requires AreEnumerations(orders, es) && n <= stop <= |es|
    requires forall j :: n <= j < stop ==> EntityWritable(rule, es[j])
    ensures EntitiesText(c, rule, orders, es, n) + WriteOutcome(c, rule, orders, es, n).0
         == EntitiesText(c, rule, orders, es, stop) + WriteOutcome(c, rule, orders, es, stop).0
    ensures WriteOutcome(c, rule, orders, es, n).1 == WriteOutcome(c, rule, orders, es, stop).1
    decreases stop - n
  {
    if n < stop {
      OutcomeThroughPassing(c, rule, orders, es, n + 1, stop);
      var done, text, rest := EntitiesText(c, rule, orders, es, n), EntityText(c, rule, orders[n], es[n]), WriteOutcome(c, rule, orders, es, n + 1);
      assert WriteOutcome(c, rule, orders, es, n) == (text + rest.0, rest.1);
      ConcatAssoc(done, text, rest.0);
    }
  }

  /** A map that passes validation is written whole, and the write succeeds. */
  lemma ValidMapIsWrittenWhole(c: FloatText, rule: TextureRule, orders: seq<seq<CString>>, m: QuakeMap)
    requires AreEnumerations(orders, m.entities) && CheckMap(c, rule, orders, m).Ok?
    ensures WriteOutcome(c, rule, orders, m.entities, 0) == (MapText(c, rule, orders, m), Ok(()))
  {
    var es := m.entities;
    OutcomeThroughPassing(c, rule, orders, es, 0, |es|);
    var whole := WriteOutcome(c, rule, orders, es, 0);
    assert WriteOutcome(c, rule, orders, es, |es|) == ([], Ok(()));
    assert EntitiesText(c, rule, orders, es, 0) == [];
    assert EntitiesText(c, rule, orders, es, |es|) + [] == EntitiesText(c, rule, orders, es, |es|);
    assert whole.0 == MapText(c, rule, orders, m);
    assert whole.1 == Ok(());
  }

  /**
   * A map that fails validation has the entities before the first failing
   * one written, then the write ends with that entity's error, which is the
   * one the map's own validation reports.
   */
  lemma InvalidMapStopsAtFirstBadEntity(c: FloatText, rule: TextureRule, orders: seq<seq<CString>>, m: QuakeMap) returns (i: nat)
    requires AreEnumerations(orders, m.entities) && CheckMap(c, rule, orders, m).Err?
    ensures i < |m.entities| && !EntityWritable(rule, m.entities[i])
    ensures forall j :: 0 <= j < i ==> EntityWritable(rule, m.entities[j])
    ensures WriteOutcome(c, rule, orders, m.entities, 0)
         == (EntitiesText(c, rule, orders, m.entities, i), Err(Validation(CheckMap(c, rule, orders, m).error)))
  {
    var es := m.entities;
    i := MapErrorIsFirstBadEntity(c, rule, orders, m);
    OutcomeThroughPassing(c, rule, orders, es, 0, i);
    var whole := WriteOutcome(c, rule, orders, es, 0);
    assert WriteOutcome(c, rule, orders, es, i) == ([], Err(Validation(CheckEntity(c, rule, orders[i], es[i]).error)));
    assert EntitiesText(c, rule, orders, es, 0) == [];
    assert EntitiesText(c, rule, orders, es, i) + [] == EntitiesText(c, rule, orders, es, i);
    assert whole.0 == EntitiesText(c, rule, orders, es, i);
    assert whole.1 == Err(Validation(CheckMap(c, rule, orders, m).error));
  }

  /** A point entity is written as `{`, its pairs, `}`. */
  lemma PointEntityLayout(c: FloatText, rule: TextureRule, order: seq<CString>, ent: Entity)
    requires IsEnumeration(order, ent.edict) && Kind(ent) == PointKind
    ensures EntityText(c, rule, order, ent) == [LBRACE, CR, LF] + EdictText(order, ent.edict) + [RBRACE, CR, LF]
  {
  }
}
