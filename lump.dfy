/**
 * Lumps: the data items of a texture archive, also read as loose files.
 * A lump is a 256-colour palette, a status-bar image, a four-level
 * mip-mapped texture or raw flat bytes.  This module holds their values,
 * the image and mip-texture constructors, and the 40-byte mip-texture head
 * with its decoder and encoder.
 */
module Lump {
  import opened Common

  // ---------------------------------------------------------------------
  // Kinds

  const PALETTE: byte := 0x40
  const SBAR: byte := 0x42
  const MIPTEX: byte := 0x44
  const FLAT: byte := 0x45

  /** One colour of a palette: red, green and blue. */
  type Rgb = c: Bytes | |c| == 3 witness [0, 0, 0]

  const PALETTE_COLOURS: nat := 256
  const PALETTE_SIZE: nat := 768

  const BLACK: Rgb := [0, 0, 0]

  /** A palette: 256 colours. */
  type Palette = p: seq<Rgb> | |p| == PALETTE_COLOURS witness seq(256, _ => BLACK)

  datatype Image = Image(width: u32, height: u32, pixels: Bytes)

  /** A mip texture's four levels, largest first. */
  type Levels = s: seq<Image> | |s| == 4
    witness [Image(0, 0, []), Image(0, 0, []), Image(0, 0, []), Image(0, 0, [])]

  datatype MipTexture = MipTexture(mips: Levels)

  datatype Lump =
    | PaletteLump(palette: Palette)
    | StatusBarLump(image: Image)
    | MipTextureLump(texture: MipTexture)
    | FlatLump(flat: Bytes)
    | UnknownLump(raw: Bytes)

  /** `Lump::kind`: the identifier byte of each known lump; none for an unknown one. */
  function Kind(l: Lump): (r: Option<byte>)
    ensures r == Some(PALETTE) <==> l.PaletteLump?
    ensures r == Some(SBAR) <==> l.StatusBarLump?
    ensures r == Some(MIPTEX) <==> l.MipTextureLump?
    ensures r == Some(FLAT) <==> l.FlatLump?
    ensures r == None <==> l.UnknownLump?
  {
    match l
    case PaletteLump(_) => Some(PALETTE)
    case StatusBarLump(_) => Some(SBAR)
    case MipTextureLump(_) => Some(MIPTEX)
    case FlatLump(_) => Some(FLAT)
    case UnknownLump(_) => None
  }

  /** The colours of 768 packed bytes: colour `i`, channel `c` is byte `3i + c`. */
  function PaletteOf(bytes: Bytes): (p: Palette)
    requires |bytes| == PALETTE_SIZE
    ensures forall i, c :: 0 <= i < PALETTE_COLOURS && 0 <= c < 3 ==> p[i][c] == bytes[3 * i + c]
  {
    seq(PALETTE_COLOURS, i requires 0 <= i < PALETTE_COLOURS => bytes[3 * i..3 * i + 3])
  }

  /** The packed bytes of a palette. */
  function PaletteBytes(p: seq<Rgb>): (r: Bytes)
    ensures |r| == 3 * |p|
  {
    if p == [] then [] else PaletteBytes(p[..|p| - 1]) + p[|p| - 1]
  }

  lemma {:induction false} PaletteBytesAt(p: seq<Rgb>, i: nat, c: nat)
    requires i < |p| && c < 3
    ensures PaletteBytes(p)[3 * i + c] == p[i][c]
    decreases |p|
  {
    if i < |p| - 1 {
      PaletteBytesAt(p[..|p| - 1], i, c);
      assert p[..|p| - 1][i] == p[i];
    }
  }

  /** Packing a palette and unpacking it again gives the same palette. */
  lemma PaletteRoundTrip(p: Palette)
    ensures PaletteOf(PaletteBytes(p)) == p
  {
    var q := PaletteOf(PaletteBytes(p));
    forall i | 0 <= i < PALETTE_COLOURS
      ensures q[i] == p[i]
    {
      forall c | 0 <= c < 3
        ensures q[i][c] == p[i][c]
      {
        PaletteBytesAt(p, i, c);
      }
    }
  }

  // ---------------------------------------------------------------------
  // Images

  const TOO_MANY_PIXELS: string := "Too many pixels"
  const NOT_RECTANGULAR: string := "Pixel count != width * height"
  const DIVISOR_ZERO: string := "attempt to calculate the remainder with a divisor of zero"

  /**
   * `Image::from_pixels` as written: the height is the pixel count over the
   * width.  It panics when the count does not fit a `u32`, when the width
   * does not divide it, and, through the remainder by zero, for width 0 even
   * when there are no pixels.
   */
  function FromPixelsAsWritten(width: u32, pixels: Bytes): (r: Fallible<Image>)
    ensures r.Returns? <==> |pixels| < U32_LIMIT && width > 0 && |pixels| % width == 0
    ensures r.Returns? ==>
      r.value.width == width && r.value.pixels == pixels && r.value.width * r.value.height == |pixels|
    ensures |pixels| >= U32_LIMIT ==> r == Panics(TOO_MANY_PIXELS)
    ensures |pixels| < U32_LIMIT && width == 0 ==> r == Panics(DIVISOR_ZERO)
  {
    if |pixels| >= U32_LIMIT then Panics(TOO_MANY_PIXELS)
    else if width == 0 then Panics(DIVISOR_ZERO)
    else if |pixels| % width != 0 then Panics(NOT_RECTANGULAR)
    else Returns(Image(width, |pixels| / width, pixels))
  }

  /**
   * `Image::from_pixels` with width 0 and no pixels giving the empty image,
   * as the constructor's own use `from_pixels(0, [])` expects; every other
   * input behaves as written.
   */
  function FromPixels(width: u32, pixels: Bytes): (r: Fallible<Image>)
    ensures r.Returns? <==> |pixels| < U32_LIMIT && (if width == 0 then pixels == [] else |pixels| % width == 0)
    ensures r.Returns? ==>
      r.value.width == width && r.value.pixels == pixels && r.value.width * r.value.height == |pixels|
    ensures width == 0 && pixels == [] ==> r == Returns(Image(0, 0, []))
    ensures width > 0 || pixels != [] ==> r == FromPixelsAsWritten(width, pixels)
  {
    if width == 0 && pixels == [] then Returns(Image(0, 0, [])) else FromPixelsAsWritten(width, pixels)
  }

  /** As written, a zero-width image panics even with no pixels; the corrected constructor returns it. */
  lemma ZeroWidthImage()
    ensures FromPixelsAsWritten(0, []) == Panics(DIVISOR_ZERO)
    ensures FromPixels(0, []) == Returns(Image(0, 0, []))
    ensures FromPixels(0, [0]).Panics?
  {
  }

  /** A width and height whose product is the pixel count build that very image. */
  lemma FromPixelsOfRectangle(width: u32, height: u32, pixels: Bytes)
    requires |pixels| == width * height < U32_LIMIT && (width == 0 ==> height == 0)
    ensures FromPixels(width, pixels) == Returns(Image(width, height, pixels))
  {
    if width > 0 {
      DivideProduct(width, height);
    }
  }

  // ---------------------------------------------------------------------
  // Mip textures

  const BAD_MIPMAPS: string := "Bad mipmaps"

  /** `small.checked_mul(2) == Some(big)`. */
  predicate Doubles(big: u32, small: u32) {
    CheckedMulU32(small, 2) == Some(big)
  }

  /** The halving check from level `l` of `mips` downwards. */
  function HalvingFrom(mips: Levels, l: nat): (r: bool)
    requires l <= 3
    decreases 3 - l
  {
    if l == 3 then true
    else if !Doubles(mips[l].width, mips[l + 1].width) then false
    else if !Doubles(mips[l].height, mips[l + 1].height) then false
    else HalvingFrom(mips, l + 1)
  }

  lemma {:induction false} HalvingFromMeans(mips: Levels, l: nat)
    requires l <= 3
    ensures HalvingFrom(mips, l) <==> forall k :: l <= k < 3 ==>
      mips[k].width == 2 * mips[k + 1].width && mips[k].height == 2 * mips[k + 1].height
    decreases 3 - l
  {
    if l < 3 {
      HalvingFromMeans(mips, l + 1);
    }
  }

  /**
   * `MipTexture::new`: the levels form a texture iff each level's width and
   * height are exactly twice the next level's; otherwise "Bad mipmaps".
   */
  function NewMipTexture(mips: Levels): (r: Result<MipTexture, string>)
    ensures r.Ok? <==> forall k :: 0 <= k < 3 ==>
      mips[k].width == 2 * mips[k + 1].width && mips[k].height == 2 * mips[k + 1].height
    ensures r.Ok? ==> r.value.mips == mips
    ensures r.Err? ==> r.error == BAD_MIPMAPS
  {
    HalvingFromMeans(mips, 0);
    if HalvingFrom(mips, 0) then Ok(MipTexture(mips)) else Err(BAD_MIPMAPS)
  }

  const MIP_BOUNDS: string := "Outside mip bounds ([0..4])"

  /** `MipTexture::mip`: level `index` when it is below 4, a panic otherwise. */
  function Mip(t: MipTexture, index: nat): (r: Fallible<Image>)
    ensures r.Returns? <==> index < 4
    ensures r.Returns? ==> r.value == t.mips[index]
    ensures r.Panics? ==> r.message == MIP_BOUNDS
  {
    if index < 4 then Returns(t.mips[index]) else Panics(MIP_BOUNDS)
  }

  // ---------------------------------------------------------------------
  // Mip-texture head

  const NAME_SIZE: nat := 16
  const HEAD_SIZE: nat := 40

  type Name = s: Bytes | |s| == NAME_SIZE witness [0, 0, 0, 0, 0, 0, 0, 0, 0, 0, 0, 0, 0, 0, 0, 0]

  type Offsets = s: seq<u32> | |s| == 4 witness [0, 0, 0, 0]

  datatype MipTextureHead = MipTextureHead(name: Name, width: u32, height: u32, offsets: Offsets)

  /** What a decoded head satisfies: width and height multiples of 8, their product a `u32`. */
  predicate WellFormedHead(h: MipTextureHead) {
    h.width % 8 == 0 && h.height % 8 == 0 && h.width * h.height < U32_LIMIT
  }

  const TEXTURE_TOO_LARGE: string := "Texture too large"

  function InvalidWidth(w: u32): string { "Invalid width " + Decimal(w) }
  function InvalidHeight(h: u32): string { "Invalid height " + Decimal(h) }

  /** The four level offsets: `u32`s at 24, 28, 32 and 36. */
  function OffsetsOf(bytes: Bytes): (r: Offsets)
    requires |bytes| == HEAD_SIZE
    ensures forall i :: 0 <= i < 4 ==> r[i] == LeU32(bytes, 24 + 4 * i)
  {
    [LeU32(bytes, 24), LeU32(bytes, 28), LeU32(bytes, 32), LeU32(bytes, 36)]
  }

  /**
   * `MipTextureHead::try_from`: the name is the first 16 bytes, then the
   * width, height and four level offsets as little-endian `u32`s.  A width
   * that is not a multiple of 8 is rejected first, then such a height,
   * then a width times height that overflows a `u32`.
   */
  function HeadFrom(bytes: Bytes): (r: Result<MipTextureHead, string>)
    requires |bytes| == HEAD_SIZE
    ensures var w, h := LeU32(bytes, 16), LeU32(bytes, 20);
      && (r.Ok? <==> w % 8 == 0 && h % 8 == 0 && w * h < U32_LIMIT)
      && (w % 8 != 0 ==> r == Err(InvalidWidth(w)))
      && (w % 8 == 0 && h % 8 != 0 ==> r == Err(InvalidHeight(h)))
      && (w % 8 == 0 && h % 8 == 0 && w * h >= U32_LIMIT ==> r == Err(TEXTURE_TOO_LARGE))
      && (r.Ok? ==>
            r.value.name == bytes[..16] && r.value.width == w && r.value.height == h
            && r.value.offsets == OffsetsOf(bytes) && WellFormedHead(r.value))
  {
    var w, h := LeU32(bytes, 16), LeU32(bytes, 20);
    if w % 8 != 0 then Err(InvalidWidth(w))
    else if h % 8 != 0 then Err(InvalidHeight(h))
    else if CheckedMulU32(w, h).None? then Err(TEXTURE_TOO_LARGE)
    else Ok(MipTextureHead(bytes[..16], w, h, OffsetsOf(bytes)))
  }

  /** The decoder as the source runs it, filling the offsets in a loop. */
  method DecodeHead(bytes: Bytes) returns (r: Result<MipTextureHead, string>)
    requires |bytes| == HEAD_SIZE
    ensures r == HeadFrom(bytes)
  {
    var name := bytes[..16];
    var width := LeU32(bytes, 16);
    var height := LeU32(bytes, 20);
    if width % 8 != 0 {
      return Err(InvalidWidth(width));
    }
    if height % 8 != 0 {
      return Err(InvalidHeight(height));
    }
    if CheckedMulU32(width, height).None? {
      return Err(TEXTURE_TOO_LARGE);
    }
    var rest := bytes[24..];
    var offsets := new u32[4];
    for i := 0 to 4
      invariant forall k :: 0 <= k < i ==> offsets[k] == LeU32(bytes, 24 + 4 * k)
    {
      assert rest[4 * i..4 * i + 4] == bytes[24 + 4 * i..24 + 4 * i + 4];
      offsets[i] := LeU32(rest, 4 * i);
    }
    assert offsets[..] == OffsetsOf(bytes);
    r := Ok(MipTextureHead(name, width, height, offsets[..]));
  }

  /** The 40 bytes of a head. */
  function HeadBytes(h: MipTextureHead): (r: Bytes)
    ensures |r| == HEAD_SIZE
  {
    h.name + U32ToLe(h.width) + U32ToLe(h.height)
      + U32ToLe(h.offsets[0]) + U32ToLe(h.offsets[1]) + U32ToLe(h.offsets[2]) + U32ToLe(h.offsets[3])
  }

  lemma HeadBytesFields(h: MipTextureHead)
    ensures var b := HeadBytes(h);
      && b[..16] == h.name && b[16..20] == U32ToLe(h.width) && b[20..24] == U32ToLe(h.height)
      && forall i :: 0 <= i < 4 ==> b[24 + 4 * i..28 + 4 * i] == U32ToLe(h.offsets[i])
  {
  }

  /** A well-formed head survives being written and read back. */
  lemma HeadRoundTrip(h: MipTextureHead)
    requires WellFormedHead(h)
    ensures HeadFrom(HeadBytes(h)) == Ok(h)
  {
    var b := HeadBytes(h);
    HeadBytesFields(h);
    LeU32OfU32ToLe(h.width, b, 16);
    LeU32OfU32ToLe(h.height, b, 20);
    forall i | 0 <= i < 4
      ensures LeU32(b, 24 + 4 * i) == h.offsets[i]
    {
      LeU32OfU32ToLe(h.offsets[i], b, 24 + 4 * i);
    }
    assert OffsetsOf(b) == h.offsets;
  }

  /** Every head that decodes is written back as the very bytes it came from. */
  lemma DecodedHeadIsItsBytes(bytes: Bytes)
    requires |bytes| == HEAD_SIZE && HeadFrom(bytes).Ok?
    ensures HeadBytes(HeadFrom(bytes).value) == bytes
  {
    var h := HeadFrom(bytes).value;
    var b := HeadBytes(h);
    HeadBytesFields(h);
    U32ToLeOfLeU32(bytes, 16);
    U32ToLeOfLeU32(bytes, 20);
    forall i | 0 <= i < 4
      ensures b[24 + 4 * i..28 + 4 * i] == bytes[24 + 4 * i..28 + 4 * i]
    {
      U32ToLeOfLeU32(bytes, 24 + 4 * i);
    }
    forall j | 0 <= j < HEAD_SIZE
      ensures b[j] == bytes[j]
    {
      if j < 16 {
      } else if j < 20 {
        assert b[j] == b[16..20][j - 16];
        assert bytes[j] == bytes[16..20][j - 16];
      } else if j < 24 {
        assert b[j] == b[20..24][j - 20];
        assert bytes[j] == bytes[20..24][j - 20];
      } else {
        var i := (j - 24) / 4;
        assert b[j] == b[24 + 4 * i..28 + 4 * i][j - 24 - 4 * i];
        assert bytes[j] == bytes[24 + 4 * i..28 + 4 * i][j - 24 - 4 * i];
      }
    }
  }

  // ---------------------------------------------------------------------
  // Level geometry

  /** `x >> k`. */
  function Shr(x: nat, k: nat): nat
    decreases k
  {
    if k == 0 then x else Shr(x / 2, k - 1)
  }

  /** Level `i`'s pixel count, `(width * height) >> 2i`. */
  function LevelLength(h: MipTextureHead, i: nat): nat {
    Shr(h.width * h.height, 2 * i)
  }

  /** Level `i`'s width, `width >> i`. */
  function LevelWidth(h: MipTextureHead, i: nat): u32 {
    ShrBound(h.width, i);
    Shr(h.width, i)
  }

  lemma {:induction false} ShrBound(x: nat, k: nat)
    ensures Shr(x, k) <= x
    decreases k
  {
    if k > 0 {
      ShrBound(x / 2, k - 1);
    }
  }

  lemma ShrOfMultiple(a: nat)
    ensures Shr(8 * a, 0) == 8 * a && Shr(8 * a, 1) == 4 * a && Shr(8 * a, 2) == 2 * a && Shr(8 * a, 3) == a
  {
    assert Shr(8 * a, 1) == Shr(4 * a, 0);
    assert Shr(8 * a, 2) == Shr(4 * a, 1) == Shr(2 * a, 0);
    assert Shr(8 * a, 3) == Shr(4 * a, 2) == Shr(2 * a, 1) == Shr(a, 0);
  }

  lemma ShrOfSquareMultiple(p: nat)
    ensures Shr(64 * p, 0) == 64 * p && Shr(64 * p, 2) == 16 * p && Shr(64 * p, 4) == 4 * p && Shr(64 * p, 6) == p
  {
    ShrOfMultiple(8 * p);
    assert Shr(64 * p, 2) == Shr(16 * p, 0);
    assert Shr(64 * p, 4) == Shr(32 * p, 3) == Shr(16 * p, 2) == Shr(8 * p, 1);
    assert Shr(64 * p, 6) == Shr(32 * p, 5) == Shr(16 * p, 4) == Shr(8 * p, 3);
  }

  /** The height level `i` of a well-formed head has: `height >> i`, or 0 for a zero-width texture. */
  function LevelHeight(h: MipTextureHead, i: nat): u32 {
    ShrBound(h.height, i);
    if h.width == 0 then 0 else Shr(h.height, i)
  }

  /** `(ca) (cb) == c^2 ab` for the four level scales `c`. */
  lemma ScaledProduct(a: nat, b: nat, c: nat)
    requires c == 8 || c == 4 || c == 2 || c == 1
    ensures (c * a) * (c * b) == (c * c) * (a * b)
  {
  }

  /** `8a >> i` times `8b >> i` is `64ab >> 2i`, for the four levels. */
  lemma LevelProduct(a: nat, b: nat, i: nat)
    requires i < 4
    ensures Shr(8 * a, i) * Shr(8 * b, i) == Shr(64 * (a * b), 2 * i)
  {
    var p := a * b;
    ShrOfMultiple(a);
    ShrOfMultiple(b);
    ShrOfSquareMultiple(p);
    var c := if i == 0 then 8 else if i == 1 then 4 else if i == 2 then 2 else 1;
    assert Shr(8 * a, i) == c * a && Shr(8 * b, i) == c * b && Shr(64 * p, 2 * i) == (c * c) * p;
    ScaledProduct(a, b, c);
  }

  /**
   * Level `i` of a well-formed head is a width-`w >> i` rectangle of
   * `(w * h) >> 2i` pixels whose height is `h >> i` (0 when `w` is 0).
   */
  lemma LevelIsRectangle(h: MipTextureHead, i: nat)
    requires WellFormedHead(h) && i < 4
    ensures LevelLength(h, i) == LevelWidth(h, i) * LevelHeight(h, i)
    ensures LevelWidth(h, i) == 0 ==> LevelHeight(h, i) == 0
    ensures LevelLength(h, i) < U32_LIMIT
  {
    var a, b := h.width / 8, h.height / 8;
    assert h.width == 8 * a && h.height == 8 * b;
    assert h.width * h.height == 64 * (a * b);
    ShrBound(h.width * h.height, 2 * i);
    ShrOfMultiple(a);
    if a == 0 {
      ShrOfSquareMultiple(0);
    } else {
      LevelProduct(a, b, i);
    }
  }

  /** The levels a well-formed head describes pass the halving check, whatever their pixels. */
  lemma LevelsHalve(h: MipTextureHead, mips: Levels)
    requires WellFormedHead(h)
    requires forall i :: 0 <= i < 4 ==> mips[i].width == LevelWidth(h, i) && mips[i].height == LevelHeight(h, i)
    ensures NewMipTexture(mips) == Ok(MipTexture(mips))
  {
    var a, b := h.width / 8, h.height / 8;
    assert h.width == 8 * a && h.height == 8 * b;
    ShrOfMultiple(a);
    ShrOfMultiple(b);
  }

  /** The image level `i` of a well-formed head is, from pixels of the level's length. */
  function LevelImage(h: MipTextureHead, i: nat, pixels: Bytes): (r: Image)
    requires WellFormedHead(h) && i < 4 && |pixels| == LevelLength(h, i)
    ensures FromPixels(LevelWidth(h, i), pixels) == Returns(r)
    ensures r.width == LevelWidth(h, i) && r.height == LevelHeight(h, i) && r.pixels == pixels
  {
    LevelIsRectangle(h, i);
    FromPixelsOfRectangle(LevelWidth(h, i), LevelHeight(h, i), pixels);
    Image(LevelWidth(h, i), LevelHeight(h, i), pixels)
  }

  /** 40 zero bytes: a well-formed head of width 0. */
  const ZERO_HEAD: Bytes := seq(HEAD_SIZE, _ => 0)

  /**
   * As written, a texture reader given the zero head gets a head of width
   * 0 and then builds level 0 from no pixels, which panics.
   */
  lemma ZeroHeadPanicsAsWritten()
    ensures HeadFrom(ZERO_HEAD).Ok?
    ensures var h := HeadFrom(ZERO_HEAD).value;
      && h.width == 0 && LevelLength(h, 0) == 0
      && FromPixelsAsWritten(LevelWidth(h, 0), []).Panics?
  {
    assert LeU32(ZERO_HEAD, 16) == 0 && LeU32(ZERO_HEAD, 20) == 0;
  }
}
