/**
 * The two older map writers, which hold the same code under two names
 * (`AstElement` in `ast.rs`, `QuakeMapElement` in `quake_map_elements.rs`):
 * a map of `Brush` and `Point` entities written without any validation.
 * Edict keys and values go between quotes as they are, textures are written
 * raw, and points and alignments are laid out as the validated writer lays
 * them out, whose text functions are reused here.
 */
module LegacyMap {
  import opened Common
  import Repr
  import MapWriter

  type Edict = map<Bytes, Bytes>

  /** `HalfSpace(Point, Point, Point)`. */
  datatype HalfSpace = HalfSpace(p0: Repr.Point, p1: Repr.Point, p2: Repr.Point)

  datatype BaseAlignment = BaseAlignment(offset: Repr.Vec2, rotation: Repr.F64, scale: Repr.Vec2)

  datatype Alignment = Standard(base: BaseAlignment) | Valve220(base: BaseAlignment, u: Repr.Vec3, v: Repr.Vec3)

  datatype Surface = Surface(halfSpace: HalfSpace, texture: Bytes, alignment: Alignment)

  type Brush = seq<Surface>

  datatype Entity = BrushEntity(edict: Edict, brushes: seq<Brush>) | PointEntity(edict: Edict)

  datatype QuakeMap = QuakeMap(entities: seq<Entity>)

  // ---------------------------------------------------------------------
  // Indexing a half-space

  const OUT_OF_BOUNDS: string := "Out of bounds"

  /** The three points in index order. */
  function Points(h: HalfSpace): Repr.HalfSpace {
    [h.p0, h.p1, h.p2]
  }

  /** `Index for HalfSpace`: indices 0, 1 and 2 are the three points; any other index panics. */
  function Index(h: HalfSpace, i: nat): (r: Fallible<Repr.Point>)
    ensures r.Returns? <==> i < 3
    ensures r.Returns? ==> r.value == Points(h)[i]
    ensures r.Panics? ==> r.message == OUT_OF_BOUNDS
  {
    match i
    case 0 => Returns(h.p0)
    case 1 => Returns(h.p1)
    case 2 => Returns(h.p2)
    case _ => Panics(OUT_OF_BOUNDS)
  }

  /** A store through `IndexMut`: the half-space with point `i` replaced; any other index panics. */
  function Replace(h: HalfSpace, i: nat, p: Repr.Point): (r: Fallible<HalfSpace>)
    ensures r.Returns? <==> i < 3
  {
    match i
    case 0 => Returns(h.(p0 := p))
    case 1 => Returns(h.(p1 := p))
    case 2 => Returns(h.(p2 := p))
    case _ => Panics(OUT_OF_BOUNDS)
  }

  /** Reading back after a store: the stored point at its index, the old points elsewhere. */
  lemma ReplaceThenIndex(h: HalfSpace, i: nat, p: Repr.Point, j: nat)
    requires i < 3
    ensures Index(Replace(h, i, p).value, j) == if j == i then Returns(p) else Index(h, j)
  {
  }

  // ---------------------------------------------------------------------
  // The text

  /** The alignment in the validated model's terms: Standard has no axes, Valve 220 has `u` and `v`. */
  function AlignmentOf(a: Alignment): (r: Repr.Alignment)
    ensures r.axes.None? <==> a.Standard?
  {
    match a
    case Standard(b) => Repr.Alignment(b.offset, b.rotation, b.scale, None)
    case Valve220(b, u, v) => Repr.Alignment(b.offset, b.rotation, b.scale, Some(Repr.Axes(u, v)))
  }

  /** One surface line before its CR LF: the half-space, the raw texture, the alignment. */
  function SurfaceWords(c: Repr.FloatText, s: Surface): seq<Bytes> {
    MapWriter.HalfSpaceWords(c, Points(s.halfSpace)) + [s.texture] + MapWriter.AlignmentWords(c, AlignmentOf(s.alignment))
  }

  function SurfacesText(c: Repr.FloatText, b: Brush): Bytes
    decreases |b|
  {
    if b == [] then [] else SurfacesText(c, b[..|b| - 1]) + MapWriter.Join(SurfaceWords(c, b[|b| - 1])) + MapWriter.CRLF
  }

  function BrushText(c: Repr.FloatText, b: Brush): Bytes {
    ([LBRACE] + MapWriter.CRLF) + SurfacesText(c, b) + ([RBRACE] + MapWriter.CRLF)
  }

  function BrushesText(c: Repr.FloatText, bs: seq<Brush>): Bytes
    decreases |bs|
  {
    if bs == [] then [] else BrushesText(c, bs[..|bs| - 1]) + BrushText(c, bs[|bs| - 1])
  }

  /** The order in which the edict's `HashMap` hands out its keys: every key exactly once. */
  predicate Walks(order: seq<Bytes>, e: Edict) {
    && (forall i, j :: 0 <= i < j < |order| ==> order[i] != order[j])
    && (forall i :: 0 <= i < |order| ==> order[i] in e)
    && (forall k :: k in e ==> k in order)
  }

  function PairsText(order: seq<Bytes>, e: Edict, n: nat): Bytes
    requires n <= |order| && forall i :: 0 <= i < |order| ==> order[i] in e
  {
    if n == 0 then [] else PairsText(order, e, n - 1) + MapWriter.PairText(order[n - 1], e[order[n - 1]])
  }

  function EdictText(order: seq<Bytes>, e: Edict): Bytes
    requires forall i :: 0 <= i < |order| ==> order[i] in e
  {
    PairsText(order, e, |order|)
  }

  /** `{` CR LF, the edict, the brushes of a brush entity, `}` CR LF. */
  function EntityText(c: Repr.FloatText, order: seq<Bytes>, ent: Entity): Bytes
    requires Walks(order, ent.edict)
  {
    match ent
    case BrushEntity(e, bs) => ([LBRACE] + MapWriter.CRLF) + EdictText(order, e) + BrushesText(c, bs) + ([RBRACE] + MapWriter.CRLF)
    case PointEntity(e) => ([LBRACE] + MapWriter.CRLF) + EdictText(order, e) + ([RBRACE] + MapWriter.CRLF)
  }

  predicate AllWalk(orders: seq<seq<Bytes>>, es: seq<Entity>) {
    |orders| == |es| && forall i :: 0 <= i < |es| ==> Walks(orders[i], es[i].edict)
  }

  function EntitiesText(c: Repr.FloatText, orders: seq<seq<Bytes>>, es: seq<Entity>, n: nat): Bytes
    requires AllWalk(orders, es) && n <= |es|
  {
    if n == 0 then [] else EntitiesText(c, orders, es, n - 1) + EntityText(c, orders[n - 1], es[n - 1])
  }

  function MapText(c: Repr.FloatText, orders: seq<seq<Bytes>>, m: QuakeMap): Bytes
    requires AllWalk(orders, m.entities)
  {
    EntitiesText(c, orders, m.entities, |m.entities|)
  }

  // ---------------------------------------------------------------------
  // The writer

  /** `HalfSpace::write_to`: the validated writer's loop over `self[0]`, `self[1]`, `self[2]`. */
  method WriteHalfSpace(c: Repr.FloatText, h: HalfSpace, w: MapWriter.Sink)
    modifies w
    ensures w.bytes == old(w.bytes) + MapWriter.Join(MapWriter.HalfSpaceWords(c, Points(h)))
  {
    MapWriter.WriteHalfSpace(c, Points(h), w);
  }

  /** `Alignment::write_to`: one formatted write of five or eleven numbers. */
  method WriteAlignment(c: Repr.FloatText, a: Alignment, w: MapWriter.Sink)
    modifies w
    ensures w.bytes == old(w.bytes) + MapWriter.Join(MapWriter.AlignmentWords(c, AlignmentOf(a)))
  {
    MapWriter.WriteAlignment(c, AlignmentOf(a), w);
  }

  /** `Surface::write_to`: the half-space, a space, the texture as it is, a space, the alignment. */
  method WriteSurface(c: Repr.FloatText, s: Surface, w: MapWriter.Sink)
    modifies w
    ensures w.bytes == old(w.bytes) + MapWriter.Join(SurfaceWords(c, s))
  {
    WriteHalfSpace(c, s.halfSpace, w);
    w.WriteAll([SPACE]);
    w.WriteAll(s.texture);
    w.WriteAll([SPACE]);
    WriteAlignment(c, s.alignment, w);
    var hw, tw, aw := MapWriter.HalfSpaceWords(c, Points(s.halfSpace)), [s.texture], MapWriter.AlignmentWords(c, AlignmentOf(s.alignment));
    MapWriter.JoinAppend(hw + tw, aw);
    MapWriter.JoinAppend(hw, tw);
  }

  /** `Brush::write_to`: `{`, each surface and CR LF, `}`. */
  method WriteBrush(c: Repr.FloatText, b: Brush, w: MapWriter.Sink)
    modifies w
    ensures w.bytes == old(w.bytes) + BrushText(c, b)
  {
    w.WriteAll([LBRACE] + MapWriter.CRLF);
    ghost var head := w.bytes;
    var i := 0;
    while i < |b|
      invariant 0 <= i <= |b|
      invariant w.bytes == head + SurfacesText(c, b[..i])
    {
      ghost var before := w.bytes;
      WriteSurface(c, b[i], w);
      w.WriteAll(MapWriter.CRLF);
      ghost var line := MapWriter.Join(SurfaceWords(c, b[i]));
      assert b[..i + 1][..i] == b[..i];
      ConcatAssoc(SurfacesText(c, b[..i]), line, MapWriter.CRLF);
      ConcatAssoc(before, line, MapWriter.CRLF);
      ConcatAssoc(head, SurfacesText(c, b[..i]), line + MapWriter.CRLF);
      i := i + 1;
    }
    assert b[..i] == b;
    w.WriteAll([RBRACE] + MapWriter.CRLF);
    ConcatAssoc(old(w.bytes), [LBRACE] + MapWriter.CRLF + SurfacesText(c, b), [RBRACE] + MapWriter.CRLF);
    ConcatAssoc(old(w.bytes), [LBRACE] + MapWriter.CRLF, SurfacesText(c, b));
  }

  /** The body of the edict loop: `"`, the key, `" "`, the value, `"` CR LF. */
  method WritePair(key: Bytes, value: Bytes, w: MapWriter.Sink)
    modifies w
    ensures w.bytes == old(w.bytes) + MapWriter.PairText(key, value)
  {
    w.WriteAll([QUOTE]);
    w.WriteAll(key);
    w.WriteAll([QUOTE, SPACE, QUOTE]);
    w.WriteAll(value);
    w.WriteAll([QUOTE, CR, LF]);
    MapWriter.PairWrites(old(w.bytes), key, value);
  }

  /** `Edict::write_to`: one line per pair, in the walk order, nothing checked. */
  method WriteEdict(order: seq<Bytes>, e: Edict, w: MapWriter.Sink)
    requires Walks(order, e)
    modifies w
    ensures w.bytes == old(w.bytes) + EdictText(order, e)
  {
    var i := 0;
    while i < |order|
      invariant 0 <= i <= |order|
      invariant w.bytes == old(w.bytes) + PairsText(order, e, i)
    {
      WritePair(order[i], e[order[i]], w);
      ConcatAssoc(old(w.bytes), PairsText(order, e, i), MapWriter.PairText(order[i], e[order[i]]));
      i := i + 1;
    }
  }

  /** `Entity::write_to`: `{`, the edict, the brushes only for a brush entity, `}`. */
  method WriteEntity(c: Repr.FloatText, order: seq<Bytes>, ent: Entity, w: MapWriter.Sink)
    requires Walks(order, ent.edict)
    modifies w
    ensures w.bytes == old(w.bytes) + EntityText(c, order, ent)
  {
    var open, close := [LBRACE] + MapWriter.CRLF, [RBRACE] + MapWriter.CRLF;
    w.WriteAll(open);
    WriteEdict(order, ent.edict, w);
    ghost var head := w.bytes;
    match ent {
      case BrushEntity(e, bs) =>
        var i := 0;
        while i < |bs|
          invariant 0 <= i <= |bs|
          invariant w.bytes == head + BrushesText(c, bs[..i])
        {
          WriteBrush(c, bs[i], w);
          assert bs[..i + 1][..i] == bs[..i];
          ConcatAssoc(head, BrushesText(c, bs[..i]), BrushText(c, bs[i]));
          i := i + 1;
        }
        assert bs[..i] == bs;
        w.WriteAll(close);
        ghost var d, t := EdictText(order, e), BrushesText(c, bs);
        ConcatAssoc(old(w.bytes), open + d + t, close);
        ConcatAssoc(old(w.bytes), open + d, t);
        ConcatAssoc(old(w.bytes), open, d);
      case PointEntity(e) =>
        w.WriteAll(close);
        ConcatAssoc(old(w.bytes), open + EdictText(order, e), close);
        ConcatAssoc(old(w.bytes), open, EdictText(order, e));
    }
  }

  lemma EntitiesTextStep(c: Repr.FloatText, orders: seq<seq<Bytes>>, es: seq<Entity>, i: nat)
    requires AllWalk(orders, es) && i < |es|
    ensures EntitiesText(c, orders, es, i + 1) == EntitiesText(c, orders, es, i) + EntityText(c, orders[i], es[i])
  {
  }

  /** One turn of the map loop: the next entity's text joins those already written. */
  method WriteNextEntity(c: Repr.FloatText, orders: seq<seq<Bytes>>, es: seq<Entity>, i: nat, w: MapWriter.Sink,
                         ghost before: Bytes)
    requires AllWalk(orders, es) && i < |es|
    requires w.bytes == before + EntitiesText(c, orders, es, i)
    modifies w
    ensures w.bytes == before + EntitiesText(c, orders, es, i + 1)
  {
    assert Walks(orders[i], es[i].edict);
    WriteEntity(c, orders[i], es[i], w);
    EntitiesTextStep(c, orders, es, i);
    ConcatAssoc(before, EntitiesText(c, orders, es, i), EntityText(c, orders[i], es[i]));
  }

  /** `QuakeMap::write_to`: every entity in order; nothing is validated, so nothing stops the write. */
  method WriteMap(c: Repr.FloatText, orders: seq<seq<Bytes>>, m: QuakeMap, w: MapWriter.Sink)
    requires AllWalk(orders, m.entities)
    modifies w
    ensures w.bytes == old(w.bytes) + MapText(c, orders, m)
  {
    var es := m.entities;
    var i := 0;
    while i < |es|
      invariant 0 <= i <= |es|
      invariant w.bytes == old(w.bytes) + EntitiesText(c, orders, es, i)
    {
      WriteNextEntity(c, orders, es, i, w, old(w.bytes));
      i := i + 1;
    }
  }

  // ---------------------------------------------------------------------
  // Agreement with the validated writer

  function HalfSpaceFrom(h: Repr.HalfSpace): (r: HalfSpace)
    ensures Points(r) == h
  {
    HalfSpace(h[0], h[1], h[2])
  }

  function AlignmentFrom(a: Repr.Alignment): (r: Alignment)
    ensures AlignmentOf(r) == a
  {
    var base := BaseAlignment(a.offset, a.rotation, a.scale);
    match a.axes
    case None => Standard(base)
    case Some(Axes(u, v)) => Valve220(base, u, v)
  }

  function SurfaceFrom(s: Repr.Surface): Surface {
    Surface(HalfSpaceFrom(s.halfSpace), s.texture, AlignmentFrom(s.alignment))
  }

  function BrushFrom(b: Repr.Brush): (r: Brush)
    ensures |r| == |b| && forall i :: 0 <= i < |b| ==> r[i] == SurfaceFrom(b[i])
  {
    seq(|b|, i requires 0 <= i < |b| => SurfaceFrom(b[i]))
  }

  function BrushesFrom(bs: seq<Repr.Brush>): (r: seq<Brush>)
    ensures |r| == |bs| && forall i :: 0 <= i < |bs| ==> r[i] == BrushFrom(bs[i])
  {
    seq(|bs|, i requires 0 <= i < |bs| => BrushFrom(bs[i]))
  }

  /** A validated-model entity as a legacy one: a point entity when it has no brushes. */
  function EntityFrom(ent: Repr.Entity): (r: Entity)
    ensures r.edict == ent.edict
  {
    if Repr.Kind(ent) == Repr.PointKind then PointEntity(ent.edict) else BrushEntity(ent.edict, BrushesFrom(ent.brushes))
  }

  predicate BareTextures(rule: Repr.TextureRule, bs: seq<Repr.Brush>) {
    forall i, j :: 0 <= i < |bs| && 0 <= j < |bs[i]| ==> !Repr.NeedsQuotesBy(rule, bs[i][j].texture)
  }

  /** A surface whose texture needs no quotes has the same line in both writers. */
  lemma SurfaceAgrees(c: Repr.FloatText, rule: Repr.TextureRule, s: Repr.Surface)
    requires !Repr.NeedsQuotesBy(rule, s.texture)
    ensures SurfaceWords(c, SurfaceFrom(s)) == MapWriter.SurfaceWords(c, rule, s)
  {
  }

  lemma {:induction false} SurfacesAgree(c: Repr.FloatText, rule: Repr.TextureRule, b: Repr.Brush)
    requires forall j :: 0 <= j < |b| ==> !Repr.NeedsQuotesBy(rule, b[j].texture)
    ensures SurfacesText(c, BrushFrom(b)) == MapWriter.SurfacesText(c, rule, b)
    decreases |b|
  {
    if b != [] {
      var n := |b| - 1;
      SurfacesAgree(c, rule, b[..n]);
      assert BrushFrom(b)[..n] == BrushFrom(b[..n]);
      SurfaceAgrees(c, rule, b[n]);
    }
  }

  lemma {:induction false} BrushesAgree(c: Repr.FloatText, rule: Repr.TextureRule, bs: seq<Repr.Brush>)
    requires BareTextures(rule, bs)
    ensures BrushesText(c, BrushesFrom(bs)) == MapWriter.BrushesText(c, rule, bs)
    decreases |bs|
  {
    if bs != [] {
      var n := |bs| - 1;
      assert BareTextures(rule, bs[..n]) by {
        assert forall i :: 0 <= i < n ==> bs[..n][i] == bs[i];
      }
      BrushesAgree(c, rule, bs[..n]);
      var legacy := BrushesFrom(bs);
      assert legacy[..n] == BrushesFrom(bs[..n]) && legacy[n] == BrushFrom(bs[n]);
      assert forall j :: 0 <= j < |bs[n]| ==> !Repr.NeedsQuotesBy(rule, bs[n][j].texture);
      SurfacesAgree(c, rule, bs[n]);
      assert BrushesText(c, legacy) == BrushesText(c, legacy[..n]) + BrushText(c, legacy[n]);
      assert MapWriter.BrushesText(c, rule, bs) == MapWriter.BrushesText(c, rule, bs[..n]) + MapWriter.BrushText(c, rule, bs[n]);
    }
  }

  lemma {:induction false} PairsAgree(order: seq<Repr.CString>, e: Repr.Edict, n: nat)
    requires n <= |order| && forall i :: 0 <= i < |order| ==> order[i] in e
    ensures PairsText(order, e, n) == MapWriter.PairsText(order, e, n)
  {
    if n > 0 {
      PairsAgree(order, e, n - 1);
    }
  }

  /**
   * Where textures need no quotes, the legacy writer writes an entity
   * byte for byte as the validated writer does alongside a passing check:
   * the two differ only in validation and in texture quoting.
   */
  lemma EntityAgrees(c: Repr.FloatText, rule: Repr.TextureRule, order: seq<Repr.CString>, ent: Repr.Entity)
    requires Repr.IsEnumeration(order, ent.edict) && BareTextures(rule, ent.brushes)
    ensures EntityText(c, order, EntityFrom(ent)) == MapWriter.EntityText(c, rule, order, ent)
  {
    PairsAgree(order, ent.edict, |order|);
    BrushesAgree(c, rule, ent.brushes);
    if Repr.Kind(ent) == Repr.PointKind {
      assert MapWriter.BrushesText(c, rule, ent.brushes) == [];
      var head := [LBRACE] + MapWriter.CRLF + MapWriter.EdictText(order, ent.edict);
      assert head + [] == head;
    }
  }
}
