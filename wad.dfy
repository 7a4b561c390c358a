/**
 * The texture archive's fixed records: the 12-byte header ("WAD2", entry
 * count, directory offset) and the 32-byte directory entries (offset,
 * length, uncompressed length, kind, compression, two padding bytes,
 * 16-byte name), with their decoders and encoders.
 */
module Wad {
  import opened Common
  import Lump

  const HEAD_SIZE: nat := 12
  const ENTRY_SIZE: nat := 32

  /** `b"WAD2"`. */
  const MAGIC: Bytes := [0x57, 0x41, 0x44, 0x32]

  /** A header; its magic field is always `MAGIC` and is left implicit. */
  datatype Head = Head(entryCount: u32, directoryOffset: u32)

  const BAD_MAGIC: string := "Magic number does not match `WAD2`"

  /**
   * `Head::try_from`: the first four bytes must be the magic, then the entry
   * count and directory offset follow as little-endian `u32`s.
   */
  function HeadFrom(bytes: Bytes): (r: Result<Head, string>)
    requires |bytes| == HEAD_SIZE
    ensures r.Ok? <==> bytes[..4] == MAGIC
    ensures r.Err? ==> r.error == BAD_MAGIC
    ensures r.Ok? ==> r.value.entryCount == LeU32(bytes, 4) && r.value.directoryOffset == LeU32(bytes, 8)
  {
    if bytes[..4] != MAGIC then Err(BAD_MAGIC) else Ok(Head(LeU32(bytes, 4), LeU32(bytes, 8)))
  }

  /** The 12 bytes of a header. */
  function HeadBytes(h: Head): (r: Bytes)
    ensures |r| == HEAD_SIZE
  {
    MAGIC + U32ToLe(h.entryCount) + U32ToLe(h.directoryOffset)
  }

  /** Every header is read back from its bytes. */
  lemma HeadRoundTrip(h: Head)
    ensures HeadFrom(HeadBytes(h)) == Ok(h)
  {
    var b := HeadBytes(h);
    assert b[..4] == MAGIC;
    assert b[4..8] == U32ToLe(h.entryCount) && b[8..12] == U32ToLe(h.directoryOffset);
    LeU32OfU32ToLe(h.entryCount, b, 4);
    LeU32OfU32ToLe(h.directoryOffset, b, 8);
  }

  /** Every header that decodes is written back as the bytes it came from. */
  lemma DecodedHeadIsItsBytes(bytes: Bytes)
    requires |bytes| == HEAD_SIZE && HeadFrom(bytes).Ok?
    ensures HeadBytes(HeadFrom(bytes).value) == bytes
  {
    U32ToLeOfLeU32(bytes, 4);
    U32ToLeOfLeU32(bytes, 8);
    assert bytes == bytes[..4] + bytes[4..8] + bytes[8..12];
  }

  // ---------------------------------------------------------------------
  // Directory entries

  datatype Entry = Entry(
    offset: u32, length: u32, uncompressedLength: u32, kind: byte, compression: byte, name: Lump.Name)

  /** What a new entry is made from. */
  datatype EntryConfig = EntryConfig(offset: u32, length: u32, kind: byte, name: Lump.Name)

  /** `Entry::new`: uncompressed, its uncompressed length the same as its length. */
  function NewEntry(config: EntryConfig): (e: Entry)
    ensures e.offset == config.offset && e.length == config.length && e.kind == config.kind
    ensures e.name == config.name
    ensures e.uncompressedLength == e.length && e.compression == 0
  {
    Entry(config.offset, config.length, config.length, config.kind, 0, config.name)
  }

  /** `expected_lump_kind`: palette, status bar, mip texture or flat. */
  predicate ExpectedKind(kind: byte) {
    kind == Lump.PALETTE || kind == Lump.SBAR || kind == Lump.MIPTEX || kind == Lump.FLAT
  }

  /** The expected kinds are exactly the kinds of the known lumps. */
  lemma ExpectedKindsAreLumpKinds(kind: byte)
    ensures ExpectedKind(kind) <==> exists l :: Lump.Kind(l) == Some(kind)
  {
    if ExpectedKind(kind) {
      var l :=
        if kind == Lump.PALETTE then Lump.PaletteLump(seq(256, _ => Lump.BLACK))
        else if kind == Lump.SBAR then Lump.StatusBarLump(Lump.Image(0, 0, []))
        else if kind == Lump.MIPTEX then Lump.MipTextureLump(Lump.MipTexture(
          [Lump.Image(0, 0, []), Lump.Image(0, 0, []), Lump.Image(0, 0, []), Lump.Image(0, 0, [])]))
        else Lump.FlatLump([]);
      assert Lump.Kind(l) == Some(kind);
    }
  }

  const COMPRESSED: string := "Compression is unsupported"

  function UnexpectedKind(kind: byte): string {
    "Unexpected lump type `" + Decimal(kind as nat) + "`"
  }

  /**
   * `Entry::try_from`: offset and length at 0 and 4, kind at 12,
   * compression at 13 and the name in the last 16 bytes.  A compressed entry
   * is rejected before the kind is looked at; the stored uncompressed length
   * and the padding are dropped.
   */
  function EntryFrom(bytes: Bytes): (r: Result<Entry, string>)
    requires |bytes| == ENTRY_SIZE
    ensures r.Ok? <==> bytes[13] == 0 && ExpectedKind(bytes[12])
    ensures bytes[13] != 0 ==> r == Err(COMPRESSED)
    ensures bytes[13] == 0 && !ExpectedKind(bytes[12]) ==> r == Err(UnexpectedKind(bytes[12]))
    ensures r.Ok? ==> r.value == NewEntry(EntryConfig(LeU32(bytes, 0), LeU32(bytes, 4), bytes[12], bytes[16..]))
  {
    var offset, length := LeU32(bytes, 0), LeU32(bytes, 4);
    var kind, compression := bytes[12], bytes[13];
    if compression != 0 then Err(COMPRESSED)
    else if !ExpectedKind(kind) then Err(UnexpectedKind(kind))
    else Ok(NewEntry(EntryConfig(offset, length, kind, bytes[16..])))
  }

  /** The 32 bytes of an entry, with zero padding. */
  function EntryBytes(e: Entry): (r: Bytes)
    ensures |r| == ENTRY_SIZE
  {
    U32ToLe(e.offset) + U32ToLe(e.length) + U32ToLe(e.uncompressedLength)
      + [e.kind, e.compression, 0, 0] + e.name
  }

  /** A new entry of an expected kind is read back from its bytes. */
  lemma EntryRoundTrip(config: EntryConfig)
    requires ExpectedKind(config.kind)
    ensures EntryFrom(EntryBytes(NewEntry(config))) == Ok(NewEntry(config))
  {
    var e := NewEntry(config);
    var b := EntryBytes(e);
    assert b[0..4] == U32ToLe(e.offset) && b[4..8] == U32ToLe(e.length);
    assert b[12] == e.kind && b[13] == 0 && b[16..] == e.name;
    LeU32OfU32ToLe(e.offset, b, 0);
    LeU32OfU32ToLe(e.length, b, 4);
  }

  /**
   * Decoding looks at neither the stored uncompressed length (bytes 8..12)
   * nor the padding (bytes 14..16): records that differ only there decode
   * alike.
   */
  lemma EntryIgnoresStoredLengthAndPadding(a: Bytes, b: Bytes)
    requires |a| == ENTRY_SIZE && |b| == ENTRY_SIZE
    requires a[..8] == b[..8] && a[12..14] == b[12..14] && a[16..] == b[16..]
    ensures EntryFrom(a) == EntryFrom(b)
  {
    assert a[12] == a[12..14][0] == b[12..14][0] == b[12];
    assert a[13] == a[12..14][1] == b[12..14][1] == b[13];
    assert forall i :: 0 <= i < 8 ==> a[i] == a[..8][i] == b[..8][i] == b[i];
  }
}
