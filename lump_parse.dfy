/**
 * Reading lumps from a seekable byte source: a mip texture (a 40-byte
 * head, then each level's pixels at the head's offset from where the lump
 * starts), a 768-byte palette, a status-bar image (width, height, pixels)
 * and raw bytes.  A source that ends early gives an I/O error; a bad head
 * or an image too large gives a parse error.
 */
module LumpParse {
  import opened Common
  import opened Errors
  import opened Stream
  import opened Lump
  import Wad

  /** What a caller may know about a lump before reading it. */
  datatype ParseInferenceInfo = NoInfo | EntryInfo(entry: Wad.Entry) | LengthInfo(length: u32)

  /** `ParseInferenceInfo::length`: the entry's length, the given length, or none. */
  function InfoLength(info: ParseInferenceInfo): (r: Option<u32>)
    ensures r.None? <==> info.NoInfo?
    ensures info.EntryInfo? ==> r == Some(info.entry.length)
    ensures info.LengthInfo? ==> r == Some(info.length)
  {
    match info
    case NoInfo => None
    case EntryInfo(entry) => Some(entry.length)
    case LengthInfo(length) => Some(length)
  }

  // ---------------------------------------------------------------------
  // Mip textures

  const BAD_OFFSET: string := "Bad offset"

  /** The four level lengths of a head, `(width * height) >> 2i`. */
  function LengthsOf(h: MipTextureHead): (r: seq<nat>)
    ensures |r| == 4 && forall k :: 0 <= k < 4 ==> r[k] == LevelLength(h, k)
  {
    [LevelLength(h, 0), LevelLength(h, 1), LevelLength(h, 2), LevelLength(h, 3)]
  }

  /** One level's pixels: `length` bytes at `start + offset`, or an offset that overflows, or end-of-file. */
  function LevelAt(data: Buffer, start: u64, offset: u32, length: nat): (r: Result<Bytes, BinParse>)
    ensures r.Ok? <==> start + offset + length <= |data|
    ensures r.Ok? ==> r.value == data[start + offset..start + offset + length]
    ensures r.Err? ==> r.error == BinParse.Parse(BAD_OFFSET) || r.error == BinParse.Io(UNEXPECTED_EOF)
  {
    var at := CheckedAddU64(start, offset);
    if at.None? then Err(BinParse.Parse(BAD_OFFSET))
    else
      var pixels := ReadAt(data, at.value, length);
      if pixels.Err? then Err(BinParse.Io(pixels.error)) else Ok(pixels.value)
  }

  /** The first `n` levels' pixels, or the first failure among them. */
  function PixelsBefore(data: Buffer, start: u64, offsets: Offsets, lengths: seq<nat>, n: nat)
    : (r: Result<seq<Bytes>, BinParse>)
    requires n <= 4 && |lengths| == 4
    ensures r.Ok? ==> |r.value| == n
    ensures r.Err? ==> r.error == BinParse.Parse(BAD_OFFSET) || r.error == BinParse.Io(UNEXPECTED_EOF)
  {
    if n == 0 then Ok([])
    else
      var before := PixelsBefore(data, start, offsets, lengths, n - 1);
      if before.Err? then before
      else
        var pixels := LevelAt(data, start, offsets[n - 1], lengths[n - 1]);
        if pixels.Err? then Err(pixels.error) else Ok(before.value + [pixels.value])
  }

  /** Level `k`'s bytes lie within the source. */
  predicate InBounds(data: Buffer, start: u64, offsets: Offsets, lengths: seq<nat>, k: nat)
    requires k < 4 && |lengths| == 4
  {
    start + offsets[k] + lengths[k] <= |data|
  }

  /** Level `k`'s bytes. */
  function PixelsOf(data: Buffer, start: u64, offsets: Offsets, lengths: seq<nat>, k: nat): (r: Bytes)
    requires k < 4 && |lengths| == 4 && InBounds(data, start, offsets, lengths, k)
    ensures |r| == lengths[k]
  {
    data[start + offsets[k]..start + offsets[k] + lengths[k]]
  }

  /** What the levels read are: each level's bytes, all within the source. */
  lemma {:induction false} PixelsBeforeReads(data: Buffer, start: u64, offsets: Offsets, lengths: seq<nat>, n: nat, k: nat)
    requires k < n <= 4 && |lengths| == 4 && PixelsBefore(data, start, offsets, lengths, n).Ok?
    ensures InBounds(data, start, offsets, lengths, k)
    ensures PixelsBefore(data, start, offsets, lengths, n).value[k] == PixelsOf(data, start, offsets, lengths, k)
  {
    if k < n - 1 {
      PixelsBeforeReads(data, start, offsets, lengths, n - 1, k);
    }
  }

  /** The levels are read iff every one of them lies within the source. */
  lemma {:induction false} PixelsBeforeSucceeds(data: Buffer, start: u64, offsets: Offsets, lengths: seq<nat>, n: nat)
    requires n <= 4 && |lengths| == 4
    ensures PixelsBefore(data, start, offsets, lengths, n).Ok? <==>
      forall k :: 0 <= k < n ==> InBounds(data, start, offsets, lengths, k)
  {
    if n > 0 {
      PixelsBeforeSucceeds(data, start, offsets, lengths, n - 1);
      var last := LevelAt(data, start, offsets[n - 1], lengths[n - 1]);
      assert last.Ok? <==> InBounds(data, start, offsets, lengths, n - 1);
    }
  }

  /** Reading stops at the first failure: later levels are not looked at. */
  lemma {:induction false} FirstFailureStands(data: Buffer, start: u64, offsets: Offsets, lengths: seq<nat>, n: nat)
    requires n <= 4 && |lengths| == 4 && PixelsBefore(data, start, offsets, lengths, n).Err?
    ensures PixelsBefore(data, start, offsets, lengths, 4) == PixelsBefore(data, start, offsets, lengths, n)
    decreases 4 - n
  {
    if n < 4 {
      FirstFailureStands(data, start, offsets, lengths, n + 1);
    }
  }

  /** The four level images of a well-formed head, from their pixels. */
  function LevelImages(h: MipTextureHead, pixels: seq<Bytes>): (r: Levels)
    requires WellFormedHead(h) && |pixels| == 4
    requires forall k :: 0 <= k < 4 ==> |pixels[k]| == LevelLength(h, k)
    ensures forall k :: 0 <= k < 4 ==> r[k] == Image(LevelWidth(h, k), LevelHeight(h, k), pixels[k])
  {
    [LevelImage(h, 0, pixels[0]), LevelImage(h, 1, pixels[1]), LevelImage(h, 2, pixels[2]), LevelImage(h, 3, pixels[3])]
  }

  /** The four levels a well-formed head describes, read from the source, or the first failure. */
  function LevelsRead(data: Buffer, start: u64, h: MipTextureHead): (r: Result<Levels, BinParse>)
    requires WellFormedHead(h)
    ensures r.Ok? ==> forall k :: 0 <= k < 4 ==>
      r.value[k].width == LevelWidth(h, k) && r.value[k].height == LevelHeight(h, k)
    ensures r.Err? ==> r.error == BinParse.Parse(BAD_OFFSET) || r.error == BinParse.Io(UNEXPECTED_EOF)
  {
    var pixels := PixelsBefore(data, start, h.offsets, LengthsOf(h), 4);
    if pixels.Err? then Err(pixels.error)
    else
      LevelsAreRead(data, start, h.offsets, LengthsOf(h), pixels.value);
      Ok(LevelImages(h, pixels.value))
  }

  /**
   * `parse_mip_texture` from a lump starting at `start`: the head, then the
   * levels, then `MipTexture::new`, which cannot fail on what a well-formed
   * head describes.
   */
  function MipTextureAt(data: Buffer, start: u64): (r: Result<MipTexture, BinParse>)
    ensures start + HEAD_SIZE > |data| ==> r == Err(BinParse.Io(UNEXPECTED_EOF))
    ensures start + HEAD_SIZE <= |data| && HeadFrom(data[start..start + HEAD_SIZE]).Err? ==>
      r == Err(BinParse.Parse(HeadFrom(data[start..start + HEAD_SIZE]).error))
    ensures r.Err? ==> r.error != BinParse.Parse(BAD_MIPMAPS)
    ensures r.Ok? ==> start + HEAD_SIZE <= |data| && HeadFrom(data[start..start + HEAD_SIZE]).Ok?
  {
    var headBytes := ReadAt(data, start, HEAD_SIZE);
    if headBytes.Err? then Err(BinParse.Io(headBytes.error))
    else
      var head := HeadFrom(headBytes.value);
      if head.Err? then Err(BinParse.Parse(head.error))
      else
        var levels := LevelsRead(data, start, head.value);
        if levels.Err? then Err(levels.error)
        else
          LevelsHalve(head.value, levels.value);
          Ok(NewMipTexture(levels.value).value)
  }

  lemma LevelsAreRead(data: Buffer, start: u64, offsets: Offsets, lengths: seq<nat>, pixels: seq<Bytes>)
    requires |lengths| == 4 && PixelsBefore(data, start, offsets, lengths, 4) == Ok(pixels)
    ensures |pixels| == 4
    ensures forall k :: 0 <= k < 4 ==>
      InBounds(data, start, offsets, lengths, k) && pixels[k] == PixelsOf(data, start, offsets, lengths, k)
  {
    forall k | 0 <= k < 4
      ensures InBounds(data, start, offsets, lengths, k) && pixels[k] == PixelsOf(data, start, offsets, lengths, k)
    {
      PixelsBeforeReads(data, start, offsets, lengths, 4, k);
    }
  }

  /** The head a texture read at `start` has. */
  function HeadAt(data: Buffer, start: u64): (h: MipTextureHead)
    requires MipTextureAt(data, start).Ok?
    ensures WellFormedHead(h)
  {
    HeadFrom(data[start..start + HEAD_SIZE]).value
  }

  /** A texture is read iff the head is there and decodes and every level lies within the source. */
  lemma MipTextureAtSucceeds(data: Buffer, start: u64)
    ensures MipTextureAt(data, start).Ok? <==>
      start + HEAD_SIZE <= |data| && HeadFrom(data[start..start + HEAD_SIZE]).Ok?
      && (var h := HeadFrom(data[start..start + HEAD_SIZE]).value;
          forall k :: 0 <= k < 4 ==> InBounds(data, start, h.offsets, LengthsOf(h), k))
  {
    if start + HEAD_SIZE <= |data| && HeadFrom(data[start..start + HEAD_SIZE]).Ok? {
      var h := HeadFrom(data[start..start + HEAD_SIZE]).value;
      PixelsBeforeSucceeds(data, start, h.offsets, LengthsOf(h), 4);
      assert MipTextureAt(data, start).Ok? <==> LevelsRead(data, start, h).Ok?;
    }
  }

  /**
   * Level `k` of a texture that is read is `width >> k` by `height >> k`,
   * its pixels the level's length of bytes at `start + offsets[k]`.
   */
  lemma MipTextureAtLevel(data: Buffer, start: u64, k: nat)
    requires k < 4 && MipTextureAt(data, start).Ok?
    ensures var h := HeadAt(data, start);
      && InBounds(data, start, h.offsets, LengthsOf(h), k)
      && MipTextureAt(data, start).value.mips[k]
         == Image(LevelWidth(h, k), LevelHeight(h, k), PixelsOf(data, start, h.offsets, LengthsOf(h), k))
  {
    var h := HeadAt(data, start);
    assert data[start..start + HEAD_SIZE] == ReadAt(data, start, HEAD_SIZE).value;
    var levels := LevelsRead(data, start, h);
    assert levels.Ok?;
    LevelsHalve(h, levels.value);
    assert MipTextureAt(data, start) == Ok(NewMipTexture(levels.value).value);
    var pixels := PixelsBefore(data, start, h.offsets, LengthsOf(h), 4).value;
    LevelsAreRead(data, start, h.offsets, LengthsOf(h), pixels);
    assert levels.value == LevelImages(h, pixels);
  }

  /**
   * `Image::from_pixels(width >> i, pixels)` on level `i`'s pixels: the
   * level's width and height, never a panic.
   */
  method FromLevelPixels(h: MipTextureHead, i: nat, pixels: Bytes) returns (image: Image)
    requires WellFormedHead(h) && i < 4 && |pixels| == LevelLength(h, i)
    ensures image == Image(LevelWidth(h, i), LevelHeight(h, i), pixels)
  {
    var r := FromPixels(LevelWidth(h, i), pixels);
    ghost var level := LevelImage(h, i, pixels);
    image := r.value;
  }

  /** Seek to `start + offset` and read `length` bytes there. */
  method ReadLevel(cursor: Cursor, start: u64, offset: u32, length: nat) returns (r: Result<Bytes, BinParse>)
    modifies cursor
    ensures r == LevelAt(cursor.data, start, offset, length)
  {
    var at := CheckedAddU64(start, offset);
    if at.None? {
      return Err(BinParse.Parse(BAD_OFFSET));
    }
    cursor.Seek(at.value);
    var pixels := cursor.ReadExact(length);
    if pixels.Err? {
      return Err(BinParse.Io(pixels.error));
    }
    r := Ok(pixels.value);
  }

  /** The loop of `parse_mip_texture`: for each level, seek to its offset and read its pixels. */
  method ReadLevels(cursor: Cursor, start: u64, h: MipTextureHead) returns (r: Result<Levels, BinParse>)
    requires WellFormedHead(h)
    modifies cursor
    ensures r == LevelsRead(cursor.data, start, h)
  {
    var lengths := LengthsOf(h);
    var mips: seq<Image> := [];
    ghost var pixelsRead: seq<Bytes> := [];
    for i := 0 to 4
      invariant PixelsBefore(cursor.data, start, h.offsets, lengths, i) == Ok(pixelsRead)
      invariant |mips| == i
      invariant forall k :: 0 <= k < i ==>
        |pixelsRead[k]| == lengths[k] && mips[k] == Image(LevelWidth(h, k), LevelHeight(h, k), pixelsRead[k])
    {
      var pixels := ReadLevel(cursor, start, h.offsets[i], lengths[i]);
      if pixels.Err? {
        assert PixelsBefore(cursor.data, start, h.offsets, lengths, i + 1) == Err(pixels.error);
        FirstFailureStands(cursor.data, start, h.offsets, lengths, i + 1);
        return Err(pixels.error);
      }
      var image := FromLevelPixels(h, i, pixels.value);
      mips := mips + [image];
      pixelsRead := pixelsRead + [pixels.value];
    }
    LevelsAreRead(cursor.data, start, h.offsets, lengths, pixelsRead);
    assert mips == LevelImages(h, pixelsRead);
    r := Ok(mips);
  }

  /** `parse_mip_texture`: the head at the current position, then its levels. */
  method ParseMipTexture(cursor: Cursor) returns (r: Result<MipTexture, BinParse>)
    modifies cursor
    ensures r == MipTextureAt(cursor.data, old(cursor.pos))
  {
    var start := cursor.Position();
    var headBytes := cursor.ReadExact(HEAD_SIZE);
    if headBytes.Err? {
      return Err(BinParse.Io(headBytes.error));
    }
    var head := DecodeHead(headBytes.value);
    if head.Err? {
      return Err(BinParse.Parse(head.error));
    }
    var levels := ReadLevels(cursor, start, head.value);
    if levels.Err? {
      return Err(levels.error);
    }
    LevelsHalve(head.value, levels.value);
    var t := NewMipTexture(levels.value);
    r := Ok(t.value);
  }

  // ---------------------------------------------------------------------
  // Palettes, images and raw bytes

  /** `parse_palette`: 768 bytes, colour `i` channel `c` being byte `3i + c`. */
  method ParsePalette(cursor: Cursor) returns (r: Result<Palette, BinParse>)
    modifies cursor
    ensures r.Ok? <==> old(cursor.pos) + PALETTE_SIZE <= |cursor.data|
    ensures r.Ok? ==> forall i, c :: 0 <= i < PALETTE_COLOURS && 0 <= c < 3 ==>
      r.value[i][c] == cursor.data[old(cursor.pos) + 3 * i + c]
    ensures r.Err? ==> r.error == BinParse.Io(UNEXPECTED_EOF)
    ensures cursor.pos == if r.Ok? then old(cursor.pos) + PALETTE_SIZE else old(cursor.pos)
  {
    var bytes := cursor.ReadExact(PALETTE_SIZE);
    if bytes.Err? {
      return Err(BinParse.Io(bytes.error));
    }
    r := Ok(PaletteOf(bytes.value));
  }

  const IMAGE_TOO_LARGE: string := "Image too large"

  /** The pixels of a read image make it whole: its width, and its height unless it has no columns. */
  lemma ImageOfPixels(w: u32, h: u32, pixels: Bytes)
    requires CheckedMulU32(w, h).Some? && |pixels| == CheckedMulU32(w, h).value
    ensures FromPixels(w, pixels).Returns?
    ensures FromPixels(w, pixels).value.width == w && FromPixels(w, pixels).value.pixels == pixels
    ensures w > 0 ==> FromPixels(w, pixels).value.height == h
  {
    FromPixelsOfRectangle(w, if w == 0 then 0 else h, pixels);
  }

  /** `parse_image` at `at`: width, height, then width times height pixels. */
  function ImageAt(data: Bytes, at: nat): (r: Result<Image, BinParse>)
    ensures at + 8 > |data| ==> r == Err(BinParse.Io(UNEXPECTED_EOF))
    ensures at + 8 <= |data| ==> var w, h := LeU32(data, at), LeU32(data, at + 4); var n := CheckedMulU32(w, h);
      && (n.None? ==> r == Err(BinParse.Parse(IMAGE_TOO_LARGE)))
      && (n.Some? && at + 8 + n.value > |data| ==> r == Err(BinParse.Io(UNEXPECTED_EOF)))
      && (n.Some? && at + 8 + n.value <= |data| ==>
            r.Ok? && r.value.width == w && r.value.pixels == data[at + 8..at + 8 + n.value]
            && (w > 0 ==> r.value.height == h))
  {
    if at + 8 > |data| then Err(BinParse.Io(UNEXPECTED_EOF))
    else
      var w, h := LeU32(data, at), LeU32(data, at + 4);
      match CheckedMulU32(w, h)
      case None => Err(BinParse.Parse(IMAGE_TOO_LARGE))
      case Some(count) =>
        var pixels := ReadAt(data, at + 8, count);
        if pixels.Err? then Err(BinParse.Io(pixels.error))
        else
          ImageOfPixels(w, h, pixels.value);
          Ok(FromPixels(w, pixels.value).value)
  }

  /** `parse_image`. */
  method ParseImage(cursor: Cursor) returns (r: Result<Image, BinParse>)
    modifies cursor
    ensures r == ImageAt(cursor.data, old(cursor.pos))
    ensures r.Ok? ==> cursor.pos == old(cursor.pos) + 8 + |r.value.pixels|
  {
    var start := cursor.pos;
    var wb := cursor.ReadExact(4);
    if wb.Err? {
      return Err(BinParse.Io(wb.error));
    }
    var width := LeU32(wb.value, 0);
    var hb := cursor.ReadExact(4);
    if hb.Err? {
      return Err(BinParse.Io(hb.error));
    }
    var height := LeU32(hb.value, 0);
    assert width == LeU32(cursor.data, start) && height == LeU32(cursor.data, start + 4) by {
      assert wb.value == cursor.data[start..start + 4] && hb.value == cursor.data[start + 4..start + 8];
    }
    var count := CheckedMulU32(width, height);
    if count.None? {
      return Err(BinParse.Parse(IMAGE_TOO_LARGE));
    }
    var pixels := cursor.ReadExact(count.value);
    if pixels.Err? {
      return Err(BinParse.Io(pixels.error));
    }
    ImageOfPixels(width, height, pixels.value);
    r := Ok(FromPixels(width, pixels.value).value);
  }

  /** `read_raw`: exactly `length` bytes, or an I/O error when fewer remain. */
  method ReadRaw(cursor: Cursor, length: nat) returns (r: Result<Bytes, BinParse>)
    modifies cursor
    ensures r.Ok? <==> old(cursor.pos) + length <= |cursor.data|
    ensures r.Ok? ==> r.value == cursor.data[old(cursor.pos)..old(cursor.pos) + length]
    ensures r.Err? ==> r.error == BinParse.Io(UNEXPECTED_EOF)
    ensures cursor.pos == if r.Ok? then old(cursor.pos) + length else old(cursor.pos)
  {
    var bytes := cursor.ReadExact(length);
    if bytes.Err? {
      return Err(BinParse.Io(bytes.error));
    }
    r := Ok(bytes.value);
  }
}
