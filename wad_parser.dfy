/**
 * Reading a texture archive: the directory (the header, then `entry_count`
 * 32-byte records from the directory offset, either absolute after a
 * rewind or relative to where the archive starts in the stream), and the
 * lumps the entries point at, decoded from their bytes by kind.
 */
module WadParser {
  import opened Common
  import Errors
  import opened Stream
  import opened Lump
  import Wad
  import LumpParse

  /** The archive reader's error: an I/O failure, or a header or record that does not decode. */
  datatype ReadError = Io(io: Errors.IoError) | Parse(message: string)

  const OFFSET_TOO_LARGE: Errors.IoError := Errors.IoError("Offset too large")

  // ---------------------------------------------------------------------
  // The directory

  /** Record `k` of a directory at `at`: 32 bytes at `at + 32k`, decoded. */
  function Record(data: Buffer, at: nat, k: nat): (r: Result<Wad.Entry, ReadError>)
    ensures r.Ok? ==> at + Wad.ENTRY_SIZE * (k + 1) <= |data|
    ensures at + Wad.ENTRY_SIZE * (k + 1) > |data| ==> r == Err(Io(Errors.UNEXPECTED_EOF))
  {
    var bytes := ReadAt(data, at + Wad.ENTRY_SIZE * k, Wad.ENTRY_SIZE);
    if bytes.Err? then Err(Io(bytes.error))
    else
      var entry := Wad.EntryFrom(bytes.value);
      if entry.Err? then Err(Parse(entry.error)) else Ok(entry.value)
  }

  /** The first `n` records of a directory at `at`, in order, or the first failure among them. */
  function Records(data: Buffer, at: nat, n: nat): (r: Result<seq<Wad.Entry>, ReadError>)
    ensures r.Ok? ==> |r.value| == n
  {
    if n == 0 then Ok([])
    else
      var before := Records(data, at, n - 1);
      if before.Err? then before
      else
        var entry := Record(data, at, n - 1);
        if entry.Err? then Err(entry.error) else Ok(before.value + [entry.value])
  }

  /** Entry `k` of the records read is record `k`. */
  lemma {:induction false} RecordsAreInOrder(data: Buffer, at: nat, n: nat, k: nat)
    requires k < n && Records(data, at, n).Ok?
    ensures Record(data, at, k).Ok? && Records(data, at, n).value[k] == Record(data, at, k).value
  {
    if k < n - 1 {
      RecordsAreInOrder(data, at, n - 1, k);
    }
  }

  /** The records are read iff every one of them is there and decodes. */
  lemma {:induction false} RecordsSucceed(data: Buffer, at: nat, n: nat)
    ensures Records(data, at, n).Ok? <==> forall k :: 0 <= k < n ==> Record(data, at, k).Ok?
  {
    if n > 0 {
      RecordsSucceed(data, at, n - 1);
    }
  }

  /** Once a record fails, reading more records keeps that failure. */
  lemma {:induction false} FailureStands(data: Buffer, at: nat, n: nat, m: nat)
    requires n <= m && Records(data, at, n).Err?
    ensures Records(data, at, m) == Records(data, at, n)
    decreases m - n
  {
    if n < m {
      FailureStands(data, at, n, m - 1);
    }
  }

  /** The failure is that of the first record that fails; nothing read before it is returned. */
  lemma FirstFailingRecord(data: Buffer, at: nat, n: nat, j: nat)
    requires j < n && Record(data, at, j).Err?
    requires forall k :: 0 <= k < j ==> Record(data, at, k).Ok?
    ensures Records(data, at, n) == Err(Record(data, at, j).error)
  {
    RecordsSucceed(data, at, j);
    FailureStands(data, at, j + 1, n);
  }

  /** The loop over the records: `count` reads of 32 bytes from the current position, each decoded. */
  method ReadRecords(cursor: Cursor, count: u32) returns (r: Result<seq<Wad.Entry>, ReadError>)
    modifies cursor
    ensures r == Records(cursor.data, old(cursor.pos), count)
  {
    ghost var start := cursor.pos;
    var entries: seq<Wad.Entry> := [];
    for i := 0 to count
      invariant cursor.pos == start + Wad.ENTRY_SIZE * i
      invariant Records(cursor.data, start, i) == Ok(entries)
    {
      var bytes := cursor.ReadExact(Wad.ENTRY_SIZE);
      if bytes.Err? {
        assert Records(cursor.data, start, i + 1) == Err(Io(bytes.error));
        FailureStands(cursor.data, start, i + 1, count);
        return Err(Io(bytes.error));
      }
      var entry := Wad.EntryFrom(bytes.value);
      if entry.Err? {
        assert Records(cursor.data, start, i + 1) == Err(Parse(entry.error));
        FailureStands(cursor.data, start, i + 1, count);
        return Err(Parse(entry.error));
      }
      entries := entries + [entry.value];
    }
    r := Ok(entries);
  }

  /** The header at `at`, if the source holds 12 bytes there. */
  function HeadAt(data: Buffer, at: nat): (r: Result<Wad.Head, ReadError>)
    ensures at + Wad.HEAD_SIZE > |data| ==> r == Err(Io(Errors.UNEXPECTED_EOF))
    ensures at + Wad.HEAD_SIZE <= |data| && data[at..at + 4] != Wad.MAGIC ==> r == Err(Parse(Wad.BAD_MAGIC))
    ensures r.Ok? <==> at + Wad.HEAD_SIZE <= |data| && data[at..at + 4] == Wad.MAGIC
    ensures r.Ok? ==> r.value == Wad.HeadFrom(data[at..at + Wad.HEAD_SIZE]).value
  {
    var bytes := ReadAt(data, at, Wad.HEAD_SIZE);
    if bytes.Err? then Err(Io(bytes.error))
    else
      assert bytes.value[..4] == data[at..at + 4];
      var head := Wad.HeadFrom(bytes.value);
      if head.Err? then Err(Parse(head.error)) else Ok(head.value)
  }

  /**
   * `directory` (and the identical `parse_directory` of the older
   * reader): the header at the start of the source, then its records from
   * the absolute directory offset.
   */
  function Directory(data: Buffer): (r: Result<seq<Wad.Entry>, ReadError>)
    ensures HeadAt(data, 0).Err? ==> r == Err(HeadAt(data, 0).error)
    ensures r.Ok? ==> HeadAt(data, 0).Ok? && |r.value| == HeadAt(data, 0).value.entryCount
  {
    var head := HeadAt(data, 0);
    if head.Err? then Err(head.error)
    else Records(data, head.value.directoryOffset, head.value.entryCount)
  }

  /**
   * `parse_directory` relative to `start`, where the archive begins in the
   * stream: the header there, then its records from `start` plus the
   * directory offset, an offset past the 64-bit range being an I/O error.
   */
  function DirectoryFrom(data: Buffer, start: u64): (r: Result<seq<Wad.Entry>, ReadError>)
    ensures HeadAt(data, start).Err? ==> r == Err(HeadAt(data, start).error)
    ensures r.Ok? ==> HeadAt(data, start).Ok? && |r.value| == HeadAt(data, start).value.entryCount
  {
    var head := HeadAt(data, start);
    if head.Err? then Err(head.error)
    else
      var at := CheckedAddU64(start, head.value.directoryOffset);
      if at.None? then Err(Io(OFFSET_TOO_LARGE))
      else Records(data, at.value, head.value.entryCount)
  }

  /** For an archive at the start of the source the two readers agree. */
  lemma DirectoryFromStart(data: Buffer)
    ensures DirectoryFrom(data, 0) == Directory(data)
  {
  }

  /**
   * The directory read holds the header's `entry_count` entries, entry `k`
   * being the record at the directory offset plus `32k`; it is read iff
   * every one of them is there and decodes.
   */
  lemma DirectoryIsItsRecords(data: Buffer)
    requires HeadAt(data, 0).Ok?
    ensures var h := HeadAt(data, 0).value;
      && (Directory(data).Ok? <==> forall k :: 0 <= k < h.entryCount ==> Record(data, h.directoryOffset, k).Ok?)
      && (Directory(data).Ok? ==> forall k :: 0 <= k < h.entryCount ==>
            Directory(data).value[k] == Record(data, h.directoryOffset, k).value)
  {
    var h := HeadAt(data, 0).value;
    RecordsSucceed(data, h.directoryOffset, h.entryCount);
    if Directory(data).Ok? {
      forall k | 0 <= k < h.entryCount
        ensures Directory(data).value[k] == Record(data, h.directoryOffset, k).value
      {
        RecordsAreInOrder(data, h.directoryOffset, h.entryCount, k);
      }
    }
  }

  /** `directory`: rewind, read the header, seek to the directory, read the records. */
  method ReadDirectory(cursor: Cursor) returns (r: Result<seq<Wad.Entry>, ReadError>)
    modifies cursor
    ensures r == Directory(cursor.data)
  {
    cursor.Rewind();
    var bytes := cursor.ReadExact(Wad.HEAD_SIZE);
    if bytes.Err? {
      return Err(Io(bytes.error));
    }
    var head := Wad.HeadFrom(bytes.value);
    if head.Err? {
      return Err(Parse(head.error));
    }
    cursor.Seek(head.value.directoryOffset);
    r := ReadRecords(cursor, head.value.entryCount);
  }

  /** `parse_directory` at the current position: the directory offset counts from there. */
  method ParseDirectory(cursor: Cursor) returns (r: Result<seq<Wad.Entry>, ReadError>)
    modifies cursor
    ensures r == DirectoryFrom(cursor.data, old(cursor.pos))
  {
    var start := cursor.Position();
    var bytes := cursor.ReadExact(Wad.HEAD_SIZE);
    if bytes.Err? {
      return Err(Io(bytes.error));
    }
    var head := Wad.HeadFrom(bytes.value);
    if head.Err? {
      return Err(Parse(head.error));
    }
    var at := CheckedAddU64(start, head.value.directoryOffset);
    if at.None? {
      return Err(Io(OFFSET_TOO_LARGE));
    }
    cursor.Seek(at.value);
    r := ReadRecords(cursor, head.value.entryCount);
  }

  // ---------------------------------------------------------------------
  // Lumps from their bytes

  /** Rust's message for a slice whose end lies past the data. */
  function RangeEndPanic(end: nat, length: nat): string {
    "range end index " + Decimal(end) + " out of range for slice of length " + Decimal(length)
  }

  function PaletteLength(): string {
    "Palette must be " + Decimal(PALETTE_SIZE) + " bytes long"
  }

  /** `parse_palette_lump`: exactly 768 bytes, or an error. */
  function PaletteLumpOf(bytes: Bytes): (r: Result<Palette, string>)
    ensures r.Ok? <==> |bytes| == PALETTE_SIZE
    ensures r.Err? ==> r.error == PaletteLength()
    ensures r.Ok? ==> forall i, c :: 0 <= i < PALETTE_COLOURS && 0 <= c < 3 ==> r.value[i][c] == bytes[3 * i + c]
  {
    if |bytes| != PALETTE_SIZE then Err(PaletteLength()) else Ok(PaletteOf(bytes))
  }

  /** A palette's packed bytes are read back as that palette. */
  lemma PaletteLumpRoundTrip(p: Palette)
    ensures PaletteLumpOf(PaletteBytes(p)) == Ok(p)
  {
    PaletteRoundTrip(p);
  }

  /** `parse_palette_lump`: the colours filled in place, channel by channel, from a running index. */
  method ParsePaletteLump(bytes: Bytes) returns (r: Result<Palette, string>)
    ensures r == PaletteLumpOf(bytes)
  {
    if |bytes| != PALETTE_SIZE {
      return Err(PaletteLength());
    }
    var palette := new byte[PALETTE_COLOURS, 3]((_, _) => 0);
    var idx := 0;
    for colour := 0 to PALETTE_COLOURS
      invariant idx == 3 * colour
      invariant forall i, c :: 0 <= i < colour && 0 <= c < 3 ==> palette[i, c] == bytes[3 * i + c]
    {
      for channel := 0 to 3
        invariant idx == 3 * colour + channel
        invariant forall i, c :: 0 <= i < colour && 0 <= c < 3 ==> palette[i, c] == bytes[3 * i + c]
        invariant forall c :: 0 <= c < channel ==> palette[colour, c] == bytes[3 * colour + c]
      {
        palette[colour, channel] := bytes[idx];
        idx := idx + 1;
      }
    }
    var colours: seq<Rgb> := seq(PALETTE_COLOURS, i requires 0 <= i < PALETTE_COLOURS reads palette =>
      [palette[i, 0], palette[i, 1], palette[i, 2]]);
    assert colours == PaletteOf(bytes) by {
      forall i | 0 <= i < PALETTE_COLOURS
        ensures colours[i] == PaletteOf(bytes)[i]
      {
        assert colours[i][0] == bytes[3 * i] && colours[i][1] == bytes[3 * i + 1] && colours[i][2] == bytes[3 * i + 2];
      }
    }
    r := Ok(colours);
  }

  const IMAGE_TOO_LARGE: string := "Image too large"
  const IMAGE_SIZE_MISMATCH: string := "Status bar image size does not match width * height"

  /**
   * `parse_image_lump`: width and height, then exactly width times height
   * pixels to the end of the lump.  Slicing the first 8 bytes panics on a
   * shorter lump.
   */
  function ImageLumpOf(bytes: Bytes): (r: Fallible<Result<Image, string>>)
    ensures |bytes| < 4 ==> r == Panics(RangeEndPanic(4, |bytes|))
    ensures 4 <= |bytes| < 8 ==> r == Panics(RangeEndPanic(8, |bytes|))
    ensures |bytes| >= 8 ==> r.Returns? && var w, h := LeU32(bytes, 0), LeU32(bytes, 4);
      && (w * h >= U32_LIMIT ==> r.value == Err(IMAGE_TOO_LARGE))
      && (w * h < U32_LIMIT && 8 + w * h != |bytes| ==> r.value == Err(IMAGE_SIZE_MISMATCH))
      && (w * h < U32_LIMIT && 8 + w * h == |bytes| ==>
            r.value.Ok? && r.value.value.width == w && r.value.value.pixels == bytes[8..]
            && (w > 0 ==> r.value.value.height == h))
  {
    if |bytes| < 4 then Panics(RangeEndPanic(4, |bytes|))
    else if |bytes| < 8 then Panics(RangeEndPanic(8, |bytes|))
    else
      var w, h := LeU32(bytes, 0), LeU32(bytes, 4);
      match CheckedMulU32(w, h)
      case None => Returns(Err(IMAGE_TOO_LARGE))
      case Some(count) =>
        if count + 8 != |bytes| then Returns(Err(IMAGE_SIZE_MISMATCH))
        else
          var height := if w == 0 then 0 else h;
          FromPixelsOfRectangle(w, height, bytes[8..]);
          Returns(Ok(FromPixels(w, bytes[8..]).value))
  }

  /** The bytes of a status-bar lump: width, height, pixels. */
  function ImageLumpBytes(image: Image): (r: Bytes)
    ensures |r| == 8 + |image.pixels|
  {
    U32ToLe(image.width) + U32ToLe(image.height) + image.pixels
  }

  /** Every image whose size is its pixel count is read back from its lump bytes. */
  lemma ImageLumpRoundTrip(image: Image)
    requires image.width * image.height == |image.pixels| < U32_LIMIT
    requires image.width == 0 ==> image.height == 0
    ensures ImageLumpOf(ImageLumpBytes(image)) == Returns(Ok(image))
  {
    var b := ImageLumpBytes(image);
    assert b[0..4] == U32ToLe(image.width) && b[4..8] == U32ToLe(image.height) && b[8..] == image.pixels;
    LeU32OfU32ToLe(image.width, b, 0);
    LeU32OfU32ToLe(image.height, b, 4);
  }

  /** The first `n` levels' pixels sliced out of a mip-texture lump, or the panic of the first slice past its end. */
  function SlicesBefore(bytes: Bytes, offsets: Offsets, lengths: seq<nat>, n: nat): (r: Fallible<seq<Bytes>>)
    requires n <= 4 && |lengths| == 4
    ensures r.Returns? ==> |r.value| == n && forall k :: 0 <= k < n ==> |r.value[k]| == lengths[k]
  {
    if n == 0 then Returns([])
    else
      var before := SlicesBefore(bytes, offsets, lengths, n - 1);
      if before.Panics? then before
      else
        var end := offsets[n - 1] + lengths[n - 1];
        if end > |bytes| then Panics(RangeEndPanic(end, |bytes|))
        else Returns(before.value + [bytes[offsets[n - 1]..end]])
  }

  /** Once a slice panics, slicing more levels keeps that panic. */
  lemma {:induction false} SlicePanicStands(bytes: Bytes, offsets: Offsets, lengths: seq<nat>, n: nat)
    requires n <= 4 && |lengths| == 4 && SlicesBefore(bytes, offsets, lengths, n).Panics?
    ensures SlicesBefore(bytes, offsets, lengths, 4) == SlicesBefore(bytes, offsets, lengths, n)
    decreases 4 - n
  {
    if n < 4 {
      SlicePanicStands(bytes, offsets, lengths, n + 1);
    }
  }

  /** Slicing levels out of a lump's bytes and reading them through a cursor at its start agree. */
  lemma {:induction false} SlicesAreReads(bytes: Buffer, offsets: Offsets, lengths: seq<nat>, n: nat)
    requires n <= 4 && |lengths| == 4
    ensures SlicesBefore(bytes, offsets, lengths, n).Returns? <==> LumpParse.PixelsBefore(bytes, 0, offsets, lengths, n).Ok?
    ensures SlicesBefore(bytes, offsets, lengths, n).Returns? ==>
      SlicesBefore(bytes, offsets, lengths, n).value == LumpParse.PixelsBefore(bytes, 0, offsets, lengths, n).value
  {
    if n > 0 {
      SlicesAreReads(bytes, offsets, lengths, n - 1);
    }
  }

  /**
   * `parse_mip_texture_lump`: the 40-byte head, then level `i` sliced at
   * `offsets[i]`, `(width * height) >> 2i` bytes long, as a `width >> i`
   * wide image.  Slicing panics on a lump shorter than the head or a level
   * past its end; `MipTexture::new` cannot fail on what a well-formed head
   * describes.
   */
  function MipTextureLumpOf(bytes: Bytes): (r: Fallible<Result<MipTexture, string>>)
    ensures |bytes| < HEAD_SIZE ==> r == Panics(RangeEndPanic(HEAD_SIZE, |bytes|))
    ensures |bytes| >= HEAD_SIZE && HeadFrom(bytes[..HEAD_SIZE]).Err? ==>
      r == Returns(Err(HeadFrom(bytes[..HEAD_SIZE]).error))
    ensures r.Returns? && r.value.Err? ==> r.value.error != BAD_MIPMAPS
  {
    if |bytes| < HEAD_SIZE then Panics(RangeEndPanic(HEAD_SIZE, |bytes|))
    else
      var head := HeadFrom(bytes[..HEAD_SIZE]);
      if head.Err? then Returns(Err(head.error))
      else
        var levels := LevelsSliced(bytes, head.value);
        if levels.Panics? then Panics(levels.message)
        else
          LevelsHalve(head.value, levels.value);
          Returns(Ok(NewMipTexture(levels.value).value))
  }

  /** The four levels a well-formed head describes, sliced out of the lump, or the first slice's panic. */
  function LevelsSliced(bytes: Bytes, h: MipTextureHead): (r: Fallible<Levels>)
    requires WellFormedHead(h)
    ensures r.Returns? ==> forall k :: 0 <= k < 4 ==>
      r.value[k].width == LevelWidth(h, k) && r.value[k].height == LevelHeight(h, k)
  {
    var slices := SlicesBefore(bytes, h.offsets, LumpParse.LengthsOf(h), 4);
    if slices.Panics? then Panics(slices.message)
    else Returns(LumpParse.LevelImages(h, slices.value))
  }

  /**
   * On a lump held in memory the slice-based reader and the cursor-based
   * `parse_mip_texture` at the lump's start read the same textures: one
   * succeeds iff the other does, with the same texture.
   */
  lemma SliceAndCursorReadersAgree(bytes: Buffer)
    ensures LumpParse.MipTextureAt(bytes, 0).Ok? <==> MipTextureLumpOf(bytes).Returns? && MipTextureLumpOf(bytes).value.Ok?
    ensures LumpParse.MipTextureAt(bytes, 0).Ok? ==>
      MipTextureLumpOf(bytes) == Returns(Ok(LumpParse.MipTextureAt(bytes, 0).value))
  {
    if |bytes| >= HEAD_SIZE {
      assert ReadAt(bytes, 0, HEAD_SIZE).value == bytes[..HEAD_SIZE];
      var head := HeadFrom(bytes[..HEAD_SIZE]);
      if head.Ok? {
        var h := head.value;
        SlicesAreReads(bytes, h.offsets, LumpParse.LengthsOf(h), 4);
        var levels := LumpParse.LevelsRead(bytes, 0, h);
        assert levels.Ok? <==> LevelsSliced(bytes, h).Returns?;
        if levels.Ok? {
          assert LevelsSliced(bytes, h).value == levels.value;
          LevelsHalve(h, levels.value);
        }
      }
    }
  }

  /** The loop of `parse_mip_texture_lump`: slice each level and build its image. */
  method SliceLevels(bytes: Bytes, h: MipTextureHead) returns (r: Fallible<Levels>)
    requires WellFormedHead(h)
    ensures r == LevelsSliced(bytes, h)
  {
    var lengths := LumpParse.LengthsOf(h);
    var mips: seq<Image> := [];
    ghost var slices: seq<Bytes> := [];
    for i := 0 to 4
      invariant SlicesBefore(bytes, h.offsets, lengths, i) == Returns(slices)
      invariant |mips| == i
      invariant forall k :: 0 <= k < i ==> mips[k] == Image(LevelWidth(h, k), LevelHeight(h, k), slices[k])
    {
      var start := h.offsets[i];
      var end := start + lengths[i];
      if end > |bytes| {
        assert SlicesBefore(bytes, h.offsets, lengths, i + 1) == Panics(RangeEndPanic(end, |bytes|));
        SlicePanicStands(bytes, h.offsets, lengths, i + 1);
        return Panics(RangeEndPanic(end, |bytes|));
      }
      var pixels := bytes[start..end];
      var image := LumpParse.FromLevelPixels(h, i, pixels);
      mips := mips + [image];
      slices := slices + [pixels];
    }
    assert mips == LumpParse.LevelImages(h, slices);
    r := Returns(mips);
  }

  /** `parse_mip_texture_lump`. */
  method ParseMipTextureLump(bytes: Bytes) returns (r: Fallible<Result<MipTexture, string>>)
    ensures r == MipTextureLumpOf(bytes)
  {
    if |bytes| < HEAD_SIZE {
      return Panics(RangeEndPanic(HEAD_SIZE, |bytes|));
    }
    var head := DecodeHead(bytes[..HEAD_SIZE]);
    if head.Err? {
      return Returns(Err(head.error));
    }
    var levels := SliceLevels(bytes, head.value);
    if levels.Panics? {
      return Panics(levels.message);
    }
    LevelsHalve(head.value, levels.value);
    var t := NewMipTexture(levels.value);
    r := Returns(Ok(t.value));
  }

  // ---------------------------------------------------------------------
  // Lumps from the archive

  const LUMP_EOF: string := "Reached EOF before end of lump"

  /** `b"CONCHARS\0"`. */
  const CONCHARS: Bytes := [0x43, 0x4F, 0x4E, 0x43, 0x48, 0x41, 0x52, 0x53, 0x00]

  /** The kind a lump is read as: flat for an entry named `CONCHARS`, whatever its stored kind. */
  function EffectiveKind(entry: Wad.Entry): (k: byte)
    ensures entry.name[..|CONCHARS|] == CONCHARS ==> k == FLAT
    ensures entry.name[..|CONCHARS|] != CONCHARS ==> k == entry.kind
  {
    if entry.name[..|CONCHARS|] == CONCHARS then FLAT else entry.kind
  }

  /** The message for a kind no reader handles, naming the kind byte as a character. */
  function UnknownKind(kind: byte): string {
    "Unknown lump type `" + [ByteToChar(kind)] + "`"
  }

  /** The dispatch of `parse_lump` on a lump's bytes. */
  function LumpFromBytes(kind: byte, bytes: Bytes): (r: Fallible<Result<Lump, string>>)
    ensures r.Returns? && r.value.Ok? ==> Kind(r.value.value) == Some(kind)
    ensures !Wad.ExpectedKind(kind) ==> r == Returns(Err(UnknownKind(kind)))
    ensures kind == FLAT ==> r == Returns(Ok(FlatLump(bytes)))
    ensures kind == PALETTE ==> r.Returns? && (r.value.Ok? <==> |bytes| == PALETTE_SIZE)
  {
    if kind == PALETTE then
      var p := PaletteLumpOf(bytes);
      if p.Err? then Returns(Err(p.error)) else Returns(Ok(PaletteLump(p.value)))
    else if kind == SBAR then
      var i := ImageLumpOf(bytes);
      if i.Panics? then Panics(i.message)
      else if i.value.Err? then Returns(Err(i.value.error))
      else Returns(Ok(StatusBarLump(i.value.value)))
    else if kind == MIPTEX then
      var t := MipTextureLumpOf(bytes);
      if t.Panics? then Panics(t.message)
      else if t.value.Err? then Returns(Err(t.value.error))
      else Returns(Ok(MipTextureLump(t.value.value)))
    else if kind == FLAT then Returns(Ok(FlatLump(bytes)))
    else Returns(Err(UnknownKind(kind)))
  }

  /**
   * `parse_lump`: the entry's `length` bytes at its absolute `offset`, an
   * error when the source ends first, then decoded by the entry's kind.  An
   * empty entry is read as no bytes wherever its offset lies.
   */
  function LumpOf(data: Buffer, entry: Wad.Entry): (r: Fallible<Result<Lump, string>>)
    ensures entry.offset + entry.length > |data| && entry.length > 0 ==> r == Returns(Err(LUMP_EOF))
    ensures entry.offset + entry.length <= |data| ==>
      r == LumpFromBytes(EffectiveKind(entry), data[entry.offset..entry.offset + entry.length])
    ensures entry.length == 0 ==> r == LumpFromBytes(EffectiveKind(entry), [])
  {
    var bytes := Available(data, entry.offset, entry.length);
    if |bytes| != entry.length then Returns(Err(LUMP_EOF))
    else
      assert entry.offset + entry.length <= |data| ==> bytes == data[entry.offset..entry.offset + entry.length];
      LumpFromBytes(EffectiveKind(entry), bytes)
  }

  /** A `CONCHARS` entry of any stored kind is read as its raw bytes. */
  lemma ConcharsIsFlat(data: Buffer, entry: Wad.Entry)
    requires entry.name[..|CONCHARS|] == CONCHARS && entry.offset + entry.length <= |data|
    ensures LumpOf(data, entry) == Returns(Ok(FlatLump(data[entry.offset..entry.offset + entry.length])))
  {
  }

  /** `parse_lump`: seek to the entry's offset, take its length of bytes, then dispatch on its kind. */
  method ParseLump(entry: Wad.Entry, cursor: Cursor) returns (r: Fallible<Result<Lump, string>>)
    modifies cursor
    ensures r == LumpOf(cursor.data, entry)
  {
    cursor.Seek(entry.offset);
    var bytes := cursor.TakeBytes(entry.length);
    if |bytes| != entry.length {
      return Returns(Err(LUMP_EOF));
    }
    var kind := entry.kind;
    if entry.name[..|CONCHARS|] == CONCHARS {
      kind := FLAT;
    }
    if kind == PALETTE {
      var p := ParsePaletteLump(bytes);
      r := if p.Err? then Returns(Err(p.error)) else Returns(Ok(PaletteLump(p.value)));
    } else if kind == SBAR {
      var i := ImageLumpOf(bytes);
      r := if i.Panics? then Panics(i.message)
        else if i.value.Err? then Returns(Err(i.value.error))
        else Returns(Ok(StatusBarLump(i.value.value)));
    } else if kind == MIPTEX {
      var t := ParseMipTextureLump(bytes);
      r := if t.Panics? then Panics(t.message)
        else if t.value.Err? then Returns(Err(t.value.error))
        else Returns(Ok(MipTextureLump(t.value.value)));
    } else if kind == FLAT {
      r := Returns(Ok(FlatLump(bytes)));
    } else {
      r := Returns(Err(UnknownKind(kind)));
    }
  }
}
