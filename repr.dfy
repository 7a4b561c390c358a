/**
 * The map document model: a map is a list of entities, each an edict of
 * key/value strings and a list of brushes; a brush is a list of surfaces,
 * each a half-space given by three points, a texture name and a texture
 * alignment.  `check_writable` decides whether a document can be written as
 * map text, reporting the first offending part it meets.
 */
module Repr {
  import opened Common

  // ---------------------------------------------------------------------
  // Numbers

  /** An `f64`, as its IEEE 754 bit pattern. */
  type F64 = u64

  const MANTISSA_SPAN: nat := 0x10_0000_0000_0000

  /** `f64::is_finite`: the 11-bit exponent field is not all ones. */
  predicate IsFinite(x: F64) {
    (x / MANTISSA_SPAN) % 0x800 != 0x7FF
  }

  /**
   * Conversion between numbers and their text, which the model takes as
   * given: `parse` is `f64::from_str` and `display` is the bytes of the
   * `Display` output.
   */
  datatype FloatText = FloatText(parse: string -> Option<F64>, display: F64 -> Bytes)

  /** `{}` of an `f64`. */
  function Show(c: FloatText, x: F64): Bytes {
    c.display(x)
  }

  /** `f64::from_str`. */
  function ReadNumber(c: FloatText, s: string): Option<F64> {
    c.parse(s)
  }

  /** The bytes `Display` uses for a finite number: digits, sign, point and exponent. */
  predicate IsNumberByte(b: byte) {
    (0x30 <= b <= 0x39) || b == 0x2B || b == 0x2D || b == 0x2E || b == 0x45 || b == 0x65
  }

  predicate IsNumberText(t: Bytes) {
    |t| >= 1 && forall i :: 0 <= i < |t| ==> IsNumberByte(t[i])
  }

  /**
   * What the round trip relies on: a finite number displays as non-empty
   * number text, and parsing that text gives the number back.
   */
  predicate WellBehaved(c: FloatText) {
    forall x: F64 {:trigger Show(c, x)} :: IsFinite(x) ==> IsNumberText(Show(c, x)) && ReadNumber(c, BytesToString(Show(c, x))) == Some(x)
  }

  // ---------------------------------------------------------------------
  // The document

  /** A `CString`: bytes without NUL. */
  type CString = s: Bytes | NoNul(s)

  type Vec2 = s: seq<F64> | |s| == 2 witness [0, 0]
  type Vec3 = s: seq<F64> | |s| == 3 witness [0, 0, 0]
  type Point = Vec3
  const ORIGIN: Point := [0, 0, 0]
  type HalfSpace = s: seq<Point> | |s| == 3 witness [ORIGIN, ORIGIN, ORIGIN]

  /** The two texture axes of the Valve 220 alignment. */
  datatype Axes = Axes(u: Vec3, v: Vec3)

  /** Texture alignment; without axes it is the legacy five-number form. */
  datatype Alignment = Alignment(offset: Vec2, rotation: F64, scale: Vec2, axes: Option<Axes>)

  datatype Surface = Surface(halfSpace: HalfSpace, texture: CString, alignment: Alignment)

  type Brush = seq<Surface>

  type Edict = map<CString, CString>

  datatype Entity = Entity(edict: Edict, brushes: seq<Brush>)

  datatype QuakeMap = QuakeMap(entities: seq<Entity>)

  datatype EntityKind = PointKind | BrushKind

  /** `Entity::kind`: a point entity is one without brushes. */
  function Kind(e: Entity): (k: EntityKind)
    ensures k == PointKind <==> e.brushes == []
  {
    if e.brushes == [] then PointKind else BrushKind
  }

  /**
   * The order in which the edict's `HashMap` hands out its keys: every key
   * exactly once.  The map does not fix it, so every operation that walks an
   * edict takes it as a parameter.
   */
  predicate IsEnumeration(order: seq<CString>, e: Edict) {
    && (forall i, j :: 0 <= i < j < |order| ==> order[i] != order[j])
    && (forall i :: 0 <= i < |order| ==> order[i] in e)
    && (forall k :: k in e ==> k in order)
  }

  /** Every edict has such an order, so the parameter never excludes a document. */
  lemma EnumerationExists(e: Edict) returns (order: seq<CString>)
    ensures IsEnumeration(order, e)
    decreases |e|
  {
    if |e| == 0 {
      order := [];
    } else {
      var k :| k in e;
      var rest := e - {k};
      assert |rest| == |e| - 1;
      var tail := EnumerationExists(rest);
      order := [k] + tail;
    }
  }

  // ---------------------------------------------------------------------
  // Validation

  /** `ValidationResult`: success, or the message of the first problem found. */
  type Validation = Result<(), string>

  const VALID: Validation := Ok(())

  /** `a?; b`: the first error of two checks. */
  function Then(a: Validation, b: Validation): (r: Validation)
    ensures r.Ok? <==> a.Ok? && b.Ok?
    ensures r.Err? ==> r == (if a.Err? then a else b)
  {
    if a.Err? then a else b
  }

  /** A `for` loop of checks with `?`: the first failing element's error, or success. */
  function FirstError<T>(xs: seq<T>, check: T -> Validation): (r: Validation)
    ensures r.Ok? <==> forall i :: 0 <= i < |xs| ==> check(xs[i]).Ok?
    decreases |xs|
  {
    if xs == [] then VALID
    else if check(xs[0]).Err? then check(xs[0])
    else
      var r := FirstError(xs[1..], check);
      assert forall i :: 1 <= i < |xs| ==> xs[i] == xs[1..][i - 1];
      r
  }

  /** The error reported is that of the first element that fails. */
  lemma {:induction false} FirstErrorIsFirstFailure<T>(xs: seq<T>, check: T -> Validation) returns (i: nat)
    requires FirstError(xs, check).Err?
    ensures i < |xs| && FirstError(xs, check) == check(xs[i]) && check(xs[i]).Err?
    ensures forall j :: 0 <= j < i ==> check(xs[j]).Ok?
    decreases |xs|
  {
    if check(xs[0]).Err? {
      i := 0;
    } else {
      var k := FirstErrorIsFirstFailure(xs[1..], check);
      i := k + 1;
      assert xs[1..][k] == xs[i];
      assert forall j :: 1 <= j < i ==> xs[j] == xs[1..][j - 1];
    }
  }

  /** The first error of a concatenation is the first part's, or else the second's. */
  lemma {:induction false} FirstErrorAppend<T>(xs: seq<T>, ys: seq<T>, check: T -> Validation)
    ensures FirstError(xs + ys, check) == Then(FirstError(xs, check), FirstError(ys, check))
    decreases |xs|
  {
    if xs != [] {
      assert (xs + ys)[0] == xs[0] && (xs + ys)[1..] == xs[1..] + ys;
      FirstErrorAppend(xs[1..], ys, check);
    } else {
      assert xs + ys == ys;
    }
  }

  /** `check_writable_f64`: the error shows the number's `Display` text. */
  function CheckF64(c: FloatText, x: F64): (r: Validation)
    ensures r.Ok? <==> IsFinite(x)
    ensures r.Err? ==> r.error == "Non-finite number (" + BytesToString(Show(c, x)) + ")"
  {
    if IsFinite(x) then VALID else Err("Non-finite number (" + BytesToString(Show(c, x)) + ")")
  }

  predicate AllFinite(xs: seq<F64>) {
    forall i :: 0 <= i < |xs| ==> IsFinite(xs[i])
  }

  /** `check_writable_array`. */
  function CheckArray(c: FloatText, xs: seq<F64>): (r: Validation)
    ensures r.Ok? <==> AllFinite(xs)
  {
    FirstError(xs, x => CheckF64(c, x))
  }

  /** A failing array reports its first non-finite element. */
  lemma ArrayErrorIsFirstNonFinite(c: FloatText, xs: seq<F64>) returns (i: nat)
    requires CheckArray(c, xs).Err?
    ensures i < |xs| && !IsFinite(xs[i]) && AllFinite(xs[..i])
    ensures CheckArray(c, xs) == CheckF64(c, xs[i])
  {
    i := FirstErrorIsFirstFailure(xs, x => CheckF64(c, x));
    assert forall j :: 0 <= j < i ==> xs[..i][j] == xs[j];
  }

  /** The bytes a quote-wrapped string may not contain. */
  predicate IsQuoteBreaking(b: byte) {
    b == QUOTE || b == CR || b == LF
  }

  /** Can be written between quotes and read back unchanged. */
  predicate QuotedWritable(s: Bytes) {
    forall i :: 0 <= i < |s| ==> !IsQuoteBreaking(s[i])
  }

  /** `{:?}` of one of the three forbidden characters. */
  function CharDebug(b: byte): (r: string)
    ensures b == QUOTE ==> r == "'\"'"
    ensures b == CR ==> r == "'\\r'"
    ensures b == LF ==> r == "'\\n'"
  {
    if b == CR then "'\\r'" else if b == LF then "'\\n'" else "'" + [ByteToChar(b)] + "'"
  }

  const QUOTED_PREFIX: string := "Cannot write quote-wrapped string, contains "

  function QuotedByteCheck(b: byte): Validation {
    if IsQuoteBreaking(b) then Err(QUOTED_PREFIX + CharDebug(b)) else VALID
  }

  /** `check_writable_quoted`. */
  function CheckQuoted(s: Bytes): (r: Validation)
    ensures r.Ok? <==> QuotedWritable(s)
  {
    FirstError(s, QuotedByteCheck)
  }

  /** A quote-wrapped string that fails names its first `"`, CR or LF. */
  lemma QuotedErrorNamesFirstBadByte(s: Bytes) returns (i: nat)
    requires CheckQuoted(s).Err?
    ensures i < |s| && IsQuoteBreaking(s[i]) && QuotedWritable(s[..i])
    ensures CheckQuoted(s).error == QUOTED_PREFIX + CharDebug(s[i])
  {
    i := FirstErrorIsFirstFailure(s, QuotedByteCheck);
    assert forall j :: 0 <= j < i ==> s[..i][j] == s[j];
  }

  /** Can be written bare and read back as one token. */
  predicate UnquotedWritable(s: Bytes) {
    |s| >= 1 && s[0] != QUOTE && !ContainsAsciiWhitespace(s)
  }

  const EMPTY_UNQUOTED: string := "Cannot write unquoted empty string"
  const LEADING_QUOTE: string := "Cannot lead unquoted string with quote"
  const UNQUOTED_WHITESPACE: string := "Cannot write unquoted string, contains whitespace"

  /** `check_writable_unquoted`: emptiness, then a leading quote, then whitespace. */
  function CheckUnquoted(s: Bytes): (r: Validation)
    ensures r.Ok? <==> UnquotedWritable(s)
    ensures r.Err? ==> r.error == if s == [] then EMPTY_UNQUOTED
                                  else if s[0] == QUOTE then LEADING_QUOTE
                                  else UNQUOTED_WHITESPACE
  {
    if s == [] then Err(EMPTY_UNQUOTED)
    else if s[0] == QUOTE then Err(LEADING_QUOTE)
    else if ContainsAsciiWhitespace(s) then Err(UNQUOTED_WHITESPACE)
    else VALID
  }

  function HexDigit(d: nat): char
    requires d < 16
  {
    if d < 10 then (d + '0' as int) as char else (d - 10 + 'a' as int) as char
  }

  /** `u8::escape_ascii` of one byte. */
  function EscapeByte(b: byte): (r: string)
    ensures 1 <= |r| <= 4
    ensures 0x20 <= b < 0x7F && b != QUOTE && b != 0x27 && b != 0x5C ==> r == [ByteToChar(b)]
  {
    if b == TAB then "\\t"
    else if b == CR then "\\r"
    else if b == LF then "\\n"
    else if b == 0x5C then "\\\\"
    else if b == 0x27 then "\\'"
    else if b == QUOTE then "\\\""
    else if 0x20 <= b < 0x7F then [ByteToChar(b)]
    else "\\x" + [HexDigit(b as nat / 16), HexDigit(b as nat % 16)]
  }

  function EscapeAscii(s: Bytes): string {
    if s == [] then "" else EscapeByte(s[0]) + EscapeAscii(s[1..])
  }

  /** `{:?}` of a `CStr`: the escaped bytes between double quotes. */
  function CStrDebug(s: Bytes): (r: string)
    ensures |r| >= 2 && r[0] == '"' && r[|r| - 1] == '"'
  {
    "\"" + EscapeAscii(s) + "\""
  }

  /**
   * A bare name the lexer would not read back as itself: `//` opens a
   * comment, and a lone `/` takes the byte after it into the token.
   */
  predicate ReadsAsComment(s: Bytes) {
    s == [SLASH] || (|s| >= 2 && s[0] == SLASH && s[1] == SLASH)
  }

  /** The texture rule as `check_writable_texture` states it: writable bare, or else between quotes. */
  predicate TextureWritableAsWritten(s: Bytes) {
    UnquotedWritable(s) || QuotedWritable(s)
  }

  const TEXTURE_PREFIX: string := "Cannot write texture "
  const TEXTURE_SUFFIX: string := ", not quotable and contains whitespace"

  /** `check_writable_texture`, as the source has it. */
  function CheckTextureAsWritten(s: Bytes): (r: Validation)
    ensures r.Ok? <==> TextureWritableAsWritten(s)
    ensures r.Err? ==> r.error == TEXTURE_PREFIX + CStrDebug(s) + TEXTURE_SUFFIX
  {
    if CheckUnquoted(s).Ok? then VALID
    else if CheckQuoted(s).Ok? then VALID
    else Err(TEXTURE_PREFIX + CStrDebug(s) + TEXTURE_SUFFIX)
  }

  /** The texture rule with bare names that read as comments sent to the quoted form. */
  predicate TextureWritable(s: Bytes) {
    (UnquotedWritable(s) && !ReadsAsComment(s)) || QuotedWritable(s)
  }

  /** `check_writable_texture`, corrected: a bare name must also not read as a comment. */
  function CheckTexture(s: Bytes): (r: Validation)
    ensures r.Ok? <==> TextureWritable(s)
    ensures r.Err? ==> r.error == TEXTURE_PREFIX + CStrDebug(s) + TEXTURE_SUFFIX
  {
    if CheckUnquoted(s).Ok? && !ReadsAsComment(s) then VALID
    else if CheckQuoted(s).Ok? then VALID
    else Err(TEXTURE_PREFIX + CStrDebug(s) + TEXTURE_SUFFIX)
  }

  /** The correction only rejects names that read as comments and cannot be quoted. */
  lemma CheckTextureDiffers(s: Bytes)
    ensures CheckTexture(s).Ok? <==> CheckTextureAsWritten(s).Ok? && !(ReadsAsComment(s) && !QuotedWritable(s))
  {
  }

  /**
   * Which texture rule a check or a writer follows: the one the source
   * states (`AsWritten`), or the corrected one, under which a bare name
   * never reads back as a comment (`Corrected`).
   */
  datatype TextureRule = AsWritten | Corrected

  predicate TextureWritableBy(rule: TextureRule, s: Bytes) {
    if rule.AsWritten? then TextureWritableAsWritten(s) else TextureWritable(s)
  }

  /** `check_writable_texture` under the given rule. */
  function CheckTextureBy(rule: TextureRule, s: Bytes): (r: Validation)
    ensures r.Ok? <==> TextureWritableBy(rule, s)
    ensures r.Err? ==> r.error == TEXTURE_PREFIX + CStrDebug(s) + TEXTURE_SUFFIX
  {
    if rule.AsWritten? then CheckTextureAsWritten(s) else CheckTexture(s)
  }

  /** The nine coordinates in the order `iter().flatten()` visits them. */
  function Coordinates(h: HalfSpace): (r: seq<F64>)
    ensures |r| == 9 && forall i :: 0 <= i < 9 ==> r[i] == h[i / 3][i % 3]
  {
    var first: seq<F64> := h[0];
    first + h[1] + h[2]
  }

  predicate HalfSpaceWritable(h: HalfSpace) {
    forall p, k :: 0 <= p < 3 && 0 <= k < 3 ==> IsFinite(h[p][k])
  }

  /** `CheckWritable for HalfSpace`. */
  function CheckHalfSpace(c: FloatText, h: HalfSpace): (r: Validation)
    ensures r.Ok? <==> HalfSpaceWritable(h)
  {
    var xs := Coordinates(h);
    assert AllFinite(xs) <==> HalfSpaceWritable(h) by {
      assert forall p, k :: 0 <= p < 3 && 0 <= k < 3 ==> xs[3 * p + k] == h[p][k];
    }
    CheckArray(c, xs)
  }

  /** A failing half-space reports its first non-finite coordinate, point by point. */
  lemma HalfSpaceErrorIsFirstNonFinite(c: FloatText, h: HalfSpace) returns (p: nat, k: nat)
    requires CheckHalfSpace(c, h).Err?
    ensures p < 3 && k < 3 && !IsFinite(h[p][k]) && CheckHalfSpace(c, h) == CheckF64(c, h[p][k])
    ensures forall q, l :: 0 <= q < 3 && 0 <= l < 3 && 3 * q + l < 3 * p + k ==> IsFinite(h[q][l])
  {
    var xs := Coordinates(h);
    var i := ArrayErrorIsFirstNonFinite(c, xs);
    p, k := i / 3, i % 3;
    forall q, l | 0 <= q < 3 && 0 <= l < 3 && 3 * q + l < 3 * p + k ensures IsFinite(h[q][l]) {
      assert xs[..i][3 * q + l] == xs[3 * q + l] == h[q][l];
    }
  }

  predicate AlignmentWritable(a: Alignment) {
    && AllFinite(a.offset) && IsFinite(a.rotation) && AllFinite(a.scale)
    && (a.axes.Some? ==> AllFinite(a.axes.value.u) && AllFinite(a.axes.value.v))
  }

  /** `CheckWritable for Alignment`. */
  function CheckAlignment(c: FloatText, a: Alignment): (r: Validation)
    ensures r.Ok? <==> AlignmentWritable(a)
  {
    var axes := if a.axes.Some? then Then(CheckArray(c, a.axes.value.u), CheckArray(c, a.axes.value.v)) else VALID;
    Then(CheckArray(c, a.offset), Then(CheckF64(c, a.rotation), Then(CheckArray(c, a.scale), axes)))
  }

  /** The alignment checks offset, rotation, scale, then the axes u and v, and reports the first failure. */
  lemma AlignmentErrorOrder(c: FloatText, a: Alignment)
    requires !AlignmentWritable(a)
    ensures CheckAlignment(c, a) ==
      if !AllFinite(a.offset) then CheckArray(c, a.offset)
      else if !IsFinite(a.rotation) then CheckF64(c, a.rotation)
      else if !AllFinite(a.scale) then CheckArray(c, a.scale)
      else if !AllFinite(a.axes.value.u) then CheckArray(c, a.axes.value.u)
      else CheckArray(c, a.axes.value.v)
  {
  }

  predicate SurfaceWritable(rule: TextureRule, s: Surface) {
    HalfSpaceWritable(s.halfSpace) && TextureWritableBy(rule, s.texture) && AlignmentWritable(s.alignment)
  }

  /** `CheckWritable for Surface`. */
  function CheckSurface(c: FloatText, rule: TextureRule, s: Surface): (r: Validation)
    ensures r.Ok? <==> SurfaceWritable(rule, s)
  {
    Then(CheckHalfSpace(c, s.halfSpace), Then(CheckTextureBy(rule, s.texture), CheckAlignment(c, s.alignment)))
  }

  /** A surface reports a bad half-space before a bad texture, and a bad texture before a bad alignment. */
  lemma SurfaceErrorOrder(c: FloatText, rule: TextureRule, s: Surface)
    requires !SurfaceWritable(rule, s)
    ensures CheckSurface(c, rule, s) == if !HalfSpaceWritable(s.halfSpace) then CheckHalfSpace(c, s.halfSpace)
                                        else if !TextureWritableBy(rule, s.texture) then CheckTextureBy(rule, s.texture)
                                        else CheckAlignment(c, s.alignment)
  {
  }

  predicate BrushWritable(rule: TextureRule, b: Brush) {
    forall i :: 0 <= i < |b| ==> SurfaceWritable(rule, b[i])
  }

  /** `CheckWritable for Brush`. */
  function CheckBrush(c: FloatText, rule: TextureRule, b: Brush): (r: Validation)
    ensures r.Ok? <==> BrushWritable(rule, b)
  {
    FirstError(b, s => CheckSurface(c, rule, s))
  }

  /** A failing brush reports its first failing surface. */
  lemma BrushErrorIsFirstBadSurface(c: FloatText, rule: TextureRule, b: Brush) returns (i: nat)
    requires CheckBrush(c, rule, b).Err?
    ensures i < |b| && !SurfaceWritable(rule, b[i]) && BrushWritable(rule, b[..i])
    ensures CheckBrush(c, rule, b) == CheckSurface(c, rule, b[i])
  {
    i := FirstErrorIsFirstFailure(b, s => CheckSurface(c, rule, s));
    forall j | 0 <= j < i
      ensures SurfaceWritable(rule, b[..i][j])
    {
      assert CheckSurface(c, rule, b[j]).Ok? && b[..i][j] == b[j];
    }
  }

  /** An edict string pair as the walk visits it. */
  datatype Pair = Pair(key: CString, value: CString)

  /** The edict's pairs in the walk order. */
  function Pairs(order: seq<CString>, e: Edict): (r: seq<Pair>)
    requires forall i :: 0 <= i < |order| ==> order[i] in e
    ensures |r| == |order| && forall i :: 0 <= i < |order| ==> r[i] == Pair(order[i], e[order[i]])
  {
    if order == [] then [] else [Pair(order[0], e[order[0]])] + Pairs(order[1..], e)
  }

  /** The key, then the value. */
  function CheckPair(p: Pair): Validation {
    Then(CheckQuoted(p.key), CheckQuoted(p.value))
  }

  predicate EdictWritable(e: Edict) {
    forall k :: k in e ==> QuotedWritable(k) && QuotedWritable(e[k])
  }

  /** `CheckWritable for Edict`: each key, then its value, in the walk order. */
  function CheckEdict(order: seq<CString>, e: Edict): (r: Validation)
    requires IsEnumeration(order, e)
    ensures r.Ok? <==> EdictWritable(e)
  {
    var ps := Pairs(order, e);
    var r := FirstError(ps, CheckPair);
    assert r.Ok? <==> EdictWritable(e) by {
      if r.Ok? {
        forall k | k in e ensures QuotedWritable(k) && QuotedWritable(e[k]) {
          var i :| 0 <= i < |order| && order[i] == k;
          assert CheckPair(ps[i]).Ok?;
        }
      }
    }
    r
  }

  /** A failing edict reports the first pair, in the walk order, whose key or value fails. */
  lemma EdictErrorIsFirstBadPair(order: seq<CString>, e: Edict) returns (i: nat)
    requires IsEnumeration(order, e) && CheckEdict(order, e).Err?
    ensures i < |order| && CheckEdict(order, e) == CheckPair(Pair(order[i], e[order[i]]))
    ensures !QuotedWritable(order[i]) || !QuotedWritable(e[order[i]])
    ensures forall j :: 0 <= j < i ==> QuotedWritable(order[j]) && QuotedWritable(e[order[j]])
  {
    var ps := Pairs(order, e);
    i := FirstErrorIsFirstFailure(ps, CheckPair);
    forall j | 0 <= j < i
      ensures QuotedWritable(order[j]) && QuotedWritable(e[order[j]])
    {
      assert CheckPair(ps[j]).Ok? && ps[j] == Pair(order[j], e[order[j]]);
    }
  }

  predicate EntityWritable(rule: TextureRule, ent: Entity) {
    EdictWritable(ent.edict) && forall i :: 0 <= i < |ent.brushes| ==> BrushWritable(rule, ent.brushes[i])
  }

  /** `CheckWritable for Entity`: the edict, then each brush. */
  function CheckEntity(c: FloatText, rule: TextureRule, order: seq<CString>, ent: Entity): (r: Validation)
    requires IsEnumeration(order, ent.edict)
    ensures r.Ok? <==> EntityWritable(rule, ent)
  {
    Then(CheckEdict(order, ent.edict), FirstError(ent.brushes, b => CheckBrush(c, rule, b)))
  }

  /** An entity reports a bad edict first, and otherwise its first bad brush. */
  lemma EntityErrorOrder(c: FloatText, rule: TextureRule, order: seq<CString>, ent: Entity) returns (i: nat)
    requires IsEnumeration(order, ent.edict) && !EntityWritable(rule, ent)
    ensures !EdictWritable(ent.edict) ==> CheckEntity(c, rule, order, ent) == CheckEdict(order, ent.edict)
    ensures EdictWritable(ent.edict) ==>
              && i < |ent.brushes| && CheckEntity(c, rule, order, ent) == CheckBrush(c, rule, ent.brushes[i])
              && !BrushWritable(rule, ent.brushes[i])
              && forall j :: 0 <= j < i ==> BrushWritable(rule, ent.brushes[j])
  {
    i := 0;
    if EdictWritable(ent.edict) {
      i := FirstErrorIsFirstFailure(ent.brushes, b => CheckBrush(c, rule, b));
    }
  }

  /** One walk order per entity, in entity order. */
  predicate AreEnumerations(orders: seq<seq<CString>>, entities: seq<Entity>) {
    |orders| == |entities| && forall i :: 0 <= i < |entities| ==> IsEnumeration(orders[i], entities[i].edict)
  }

  function CheckEntities(c: FloatText, rule: TextureRule, orders: seq<seq<CString>>, es: seq<Entity>): (r: Validation)
    requires AreEnumerations(orders, es)
    ensures r.Ok? <==> forall i :: 0 <= i < |es| ==> EntityWritable(rule, es[i])
    decreases |es|
  {
    if es == [] then VALID
    else
      assert forall i :: 1 <= i < |es| ==> es[i] == es[1..][i - 1] && orders[i] == orders[1..][i - 1];
      Then(CheckEntity(c, rule, orders[0], es[0]), CheckEntities(c, rule, orders[1..], es[1..]))
  }

  /** `CheckWritable for QuakeMap`. */
  function CheckMap(c: FloatText, rule: TextureRule, orders: seq<seq<CString>>, m: QuakeMap): (r: Validation)
    requires AreEnumerations(orders, m.entities)
    ensures r.Ok? <==> forall i :: 0 <= i < |m.entities| ==> EntityWritable(rule, m.entities[i])
  {
    CheckEntities(c, rule, orders, m.entities)
  }

  /** A surface whose texture does not read as a comment is checked alike under both rules. */
  lemma SurfaceRulesAgree(c: FloatText, s: Surface)
    requires !ReadsAsComment(s.texture)
    ensures CheckSurface(c, AsWritten, s) == CheckSurface(c, Corrected, s)
  {
  }

  /** An entity the corrected rule passes, the source's rule passes too. */
  lemma EntityCorrectedIsStricter(ent: Entity)
    requires EntityWritable(Corrected, ent)
    ensures EntityWritable(AsWritten, ent)
  {
    forall k | 0 <= k < |ent.brushes|
      ensures BrushWritable(AsWritten, ent.brushes[k])
    {
      var b := ent.brushes[k];
      assert BrushWritable(Corrected, b);
      forall j | 0 <= j < |b|
        ensures SurfaceWritable(AsWritten, b[j])
      {
        assert SurfaceWritable(Corrected, b[j]);
      }
    }
  }

  /** The corrected check passes only maps that the source's check passes. */
  lemma CorrectedCheckIsStricter(c: FloatText, orders: seq<seq<CString>>, m: QuakeMap)
    requires AreEnumerations(orders, m.entities)
    ensures CheckMap(c, Corrected, orders, m).Ok? ==> CheckMap(c, AsWritten, orders, m).Ok?
  {
    if CheckMap(c, Corrected, orders, m).Ok? {
      forall i | 0 <= i < |m.entities|
        ensures EntityWritable(AsWritten, m.entities[i])
      {
        EntityCorrectedIsStricter(m.entities[i]);
      }
    }
  }

  /** A failing map reports its first failing entity. */
  lemma {:induction false} EntitiesErrorIsFirstBadEntity(c: FloatText, rule: TextureRule, orders: seq<seq<CString>>, es: seq<Entity>)
    returns (i: nat)
    requires AreEnumerations(orders, es) && CheckEntities(c, rule, orders, es).Err?
    ensures i < |es| && !EntityWritable(rule, es[i]) && CheckEntities(c, rule, orders, es) == CheckEntity(c, rule, orders[i], es[i])
    ensures forall j :: 0 <= j < i ==> EntityWritable(rule, es[j])
    decreases |es|
  {
    if CheckEntity(c, rule, orders[0], es[0]).Err? {
      i := 0;
      EntitiesHead(c, rule, orders, es);
    } else {
      EntitiesTail(c, rule, orders, es);
      var k := EntitiesErrorIsFirstBadEntity(c, rule, orders[1..], es[1..]);
      i := k + 1;
      assert es[i] == es[1..][k] && orders[i] == orders[1..][k];
      WritablePrefixCons(rule, es, k);
    }
  }

  /** A writable first entity before a writable prefix of the rest makes a writable prefix one longer. */
  lemma WritablePrefixCons(rule: TextureRule, es: seq<Entity>, k: nat)
    requires es != [] && EntityWritable(rule, es[0]) && k < |es|
    requires forall j :: 0 <= j < k ==> EntityWritable(rule, es[1..][j])
    ensures forall j :: 0 <= j < k + 1 ==> EntityWritable(rule, es[j])
  {
    forall j | 0 < j < k + 1
      ensures EntityWritable(rule, es[j])
    {
      assert es[j] == es[1..][j - 1];
    }
  }

  /** A failing first entity is what the map reports. */
  lemma EntitiesHead(c: FloatText, rule: TextureRule, orders: seq<seq<CString>>, es: seq<Entity>)
    requires AreEnumerations(orders, es) && es != [] && CheckEntity(c, rule, orders[0], es[0]).Err?
    ensures !EntityWritable(rule, es[0]) && CheckEntities(c, rule, orders, es) == CheckEntity(c, rule, orders[0], es[0])
  {
  }

  /** Past a passing first entity, the map is checked as the rest of its entities. */
  lemma EntitiesTail(c: FloatText, rule: TextureRule, orders: seq<seq<CString>>, es: seq<Entity>)
    requires AreEnumerations(orders, es) && es != [] && CheckEntity(c, rule, orders[0], es[0]).Ok?
    ensures AreEnumerations(orders[1..], es[1..])
    ensures CheckEntities(c, rule, orders, es) == CheckEntities(c, rule, orders[1..], es[1..])
  {
    assert forall j :: 0 <= j < |es| - 1 ==> orders[1..][j] == orders[j + 1] && es[1..][j] == es[j + 1];
  }

  lemma MapErrorIsFirstBadEntity(c: FloatText, rule: TextureRule, orders: seq<seq<CString>>, m: QuakeMap) returns (i: nat)
    requires AreEnumerations(orders, m.entities) && CheckMap(c, rule, orders, m).Err?
    ensures i < |m.entities| && !EntityWritable(rule, m.entities[i])
    ensures CheckMap(c, rule, orders, m) == CheckEntity(c, rule, orders[i], m.entities[i])
    ensures forall j :: 0 <= j < i ==> EntityWritable(rule, m.entities[j])
  {
    i := EntitiesErrorIsFirstBadEntity(c, rule, orders, m.entities);
  }

  /** Whether a document passes does not depend on the walk orders; only which error it reports may. */
  lemma CheckPassesInAnyOrder(c: FloatText, rule: TextureRule, orders1: seq<seq<CString>>, orders2: seq<seq<CString>>, m: QuakeMap)
    requires AreEnumerations(orders1, m.entities) && AreEnumerations(orders2, m.entities)
    ensures CheckMap(c, rule, orders1, m).Ok? <==> CheckMap(c, rule, orders2, m).Ok?
  {
  }

  /** `write_texture_to` adds quotes iff the name is empty or holds whitespace. */
  predicate NeedsQuotesAsWritten(s: Bytes) {
    s == [] || ContainsAsciiWhitespace(s)
  }

  /** The corrected writer also quotes a name that would read as a comment. */
  predicate NeedsQuotes(s: Bytes) {
    NeedsQuotesAsWritten(s) || ReadsAsComment(s)
  }

  predicate NeedsQuotesBy(rule: TextureRule, s: Bytes) {
    if rule.AsWritten? then NeedsQuotesAsWritten(s) else NeedsQuotes(s)
  }

  /** A texture that passes is written bare only when it is bare-writable, and quoted only when it can be. */
  lemma ValidTextureIsReadable(s: CString)
    requires CheckTexture(s).Ok?
    ensures !NeedsQuotes(s) ==> UnquotedWritable(s) && !ReadsAsComment(s)
    ensures NeedsQuotes(s) ==> QuotedWritable(s)
  {
  }
}
