/**
 * The compiled-map header: a little-endian version (29, or the bytes
 * "BSP2") followed by a table of fifteen `(offset, length)` entries, one per
 * lump kind, each a pair of little-endian `u32`s.
 */
module Bsp {
  import opened Common
  import opened Errors

  const BSP_VERSION: u32 := 29
  /** `u32::from_le_bytes(*b"BSP2")`. */
  const BSP2_VERSION: u32 := 0x3250_5342
  const ENTRY_COUNT: nat := 15
  const ENTRY_SIZE: nat := 8
  /** The version, then the entry table. */
  const HEAD_SIZE: nat := 124

  /** The lumps a header lists, in table order. */
  datatype EntryOffset =
    | Entities | Planes | Textures | Vertices | Vis | Nodes | TexInfo | Faces
    | Light | ClipNodes | Leaves | MarkSurfaces | Edges | SurfEdges | Models

  /** `usize::from(EntryOffset)`: the entry's place in the table. */
  function Index(o: EntryOffset): (i: nat)
    ensures i < ENTRY_COUNT
  {
    match o
    case Entities => 0
    case Planes => 1
    case Textures => 2
    case Vertices => 3
    case Vis => 4
    case Nodes => 5
    case TexInfo => 6
    case Faces => 7
    case Light => 8
    case ClipNodes => 9
    case Leaves => 10
    case MarkSurfaces => 11
    case Edges => 12
    case SurfEdges => 13
    case Models => 14
  }

  /** The lump at a place in the table. */
  function OffsetAt(i: nat): (o: EntryOffset)
    requires i < ENTRY_COUNT
    ensures Index(o) == i
  {
    if i == 0 then Entities else if i == 1 then Planes else if i == 2 then Textures
    else if i == 3 then Vertices else if i == 4 then Vis else if i == 5 then Nodes
    else if i == 6 then TexInfo else if i == 7 then Faces else if i == 8 then Light
    else if i == 9 then ClipNodes else if i == 10 then Leaves else if i == 11 then MarkSurfaces
    else if i == 12 then Edges else if i == 13 then SurfEdges else Models
  }

  /** Every place in the table belongs to exactly one lump: `Index` is a bijection onto 0..15. */
  lemma IndexIsBijection(a: EntryOffset, b: EntryOffset)
    ensures OffsetAt(Index(a)) == a
    ensures Index(a) == Index(b) ==> a == b
  {
  }

  datatype Entry = Entry(offset: u32, length: u32)

  type Entries = s: seq<Entry> | |s| == ENTRY_COUNT witness seq(ENTRY_COUNT, _ => Entry(0, 0))

  datatype Head = Head(version: u32, entries: Entries)

  /** `Head::entry`. */
  function EntryOf(h: Head, o: EntryOffset): Entry {
    h.entries[Index(o)]
  }

  predicate KnownVersion(v: u32) {
    v == BSP_VERSION || v == BSP2_VERSION
  }

  /** `{:?}` of a byte array: its elements in decimal, comma-separated, in brackets. */
  function DebugBytes(s: Bytes): (r: string)
    requires |s| == 4
    ensures |r| >= 2 && r[0] == '[' && r[|r| - 1] == ']'
  {
    "[" + Decimal(s[0] as nat) + ", " + Decimal(s[1] as nat) + ", " + Decimal(s[2] as nat)
      + ", " + Decimal(s[3] as nat) + "]"
  }

  function UnrecognizedVersion(v: u32): string {
    "Unrecognized BSP version " + Decimal(v) + " (" + DebugBytes(U32ToLe(v)) + ")"
  }

  /** Entry `k` of the table in a header's bytes. */
  function EntryAt(bytes: Bytes, k: nat): Entry
    requires |bytes| == HEAD_SIZE && k < ENTRY_COUNT
  {
    Entry(LeU32(bytes, 4 + ENTRY_SIZE * k), LeU32(bytes, 8 + ENTRY_SIZE * k))
  }

  /**
   * `Head::try_from`: an unknown version is a parse error naming the
   * version and its bytes; otherwise entry `k` is the pair of `u32`s at
   * `4 + 8k` and `8 + 8k`.
   */
  function HeadFrom(bytes: Bytes): (r: Result<Head, BinParse>)
    requires |bytes| == HEAD_SIZE
    ensures r.Ok? <==> KnownVersion(LeU32(bytes, 0))
    ensures r.Err? ==> r.error == BinParse.Parse(UnrecognizedVersion(LeU32(bytes, 0)))
    ensures r.Ok? ==> r.value.version == LeU32(bytes, 0)
    ensures r.Ok? ==> forall k :: 0 <= k < ENTRY_COUNT ==> r.value.entries[k] == EntryAt(bytes, k)
  {
    var version := LeU32(bytes, 0);
    if !KnownVersion(version) then Err(BinParse.Parse(UnrecognizedVersion(version)))
    else Ok(Head(version, seq(ENTRY_COUNT, k requires 0 <= k < ENTRY_COUNT => EntryAt(bytes, k))))
  }

  /** `Head::try_from` as the source writes it: the entries filled chunk by chunk. */
  method DecodeHead(bytes: Bytes) returns (r: Result<Head, BinParse>)
    requires |bytes| == HEAD_SIZE
    ensures r == HeadFrom(bytes)
  {
    var version := LeU32(bytes, 0);
    if version != BSP_VERSION && version != BSP2_VERSION {
      return Err(BinParse.Parse(UnrecognizedVersion(version)));
    }
    var rest := bytes[4..];
    var entries := new Entry[ENTRY_COUNT](_ => Entry(0, 0));
    for idx := 0 to ENTRY_COUNT
      invariant forall j :: 0 <= j < idx ==> entries[j] == EntryAt(bytes, j)
    {
      var chunk := rest[ENTRY_SIZE * idx..ENTRY_SIZE * idx + ENTRY_SIZE];
      assert chunk == bytes[4 + ENTRY_SIZE * idx..12 + ENTRY_SIZE * idx];
      entries[idx] := Entry(LeU32(chunk, 0), LeU32(chunk, 4));
    }
    assert entries[..] == HeadFrom(bytes).value.entries;
    r := Ok(Head(version, entries[..]));
  }

  /** A header's entry of a lump is the pair stored at that lump's place. */
  lemma DecodedEntry(bytes: Bytes, o: EntryOffset)
    requires |bytes| == HEAD_SIZE && HeadFrom(bytes).Ok?
    ensures EntryOf(HeadFrom(bytes).value, o)
      == Entry(LeU32(bytes, 4 + ENTRY_SIZE * Index(o)), LeU32(bytes, 8 + ENTRY_SIZE * Index(o)))
  {
  }

  // ---------------------------------------------------------------------
  // Encoding

  function EntryBytes(e: Entry): (r: Bytes)
    ensures |r| == ENTRY_SIZE
  {
    U32ToLe(e.offset) + U32ToLe(e.length)
  }

  /** The entries' bytes, one after the other. */
  function TableBytes(es: seq<Entry>): (r: Bytes)
    ensures |r| == ENTRY_SIZE * |es|
  {
    if es == [] then [] else EntryBytes(es[0]) + TableBytes(es[1..])
  }

  /** The 124 bytes of a header. */
  function HeadBytes(h: Head): (r: Bytes)
    ensures |r| == HEAD_SIZE
  {
    U32ToLe(h.version) + TableBytes(h.entries)
  }

  /** Entry `k`'s bytes sit at `8k` in the table. */
  lemma {:induction false} TableBytesAt(es: seq<Entry>, k: nat)
    requires k < |es|
    ensures TableBytes(es)[ENTRY_SIZE * k..ENTRY_SIZE * k + ENTRY_SIZE] == EntryBytes(es[k])
  {
    var t := TableBytes(es);
    if k > 0 {
      TableBytesAt(es[1..], k - 1);
      assert t == EntryBytes(es[0]) + TableBytes(es[1..]);
      assert t[ENTRY_SIZE * k..ENTRY_SIZE * k + ENTRY_SIZE]
        == TableBytes(es[1..])[ENTRY_SIZE * (k - 1)..ENTRY_SIZE * (k - 1) + ENTRY_SIZE];
    } else {
      assert t[..ENTRY_SIZE] == EntryBytes(es[0]);
    }
  }

  /** Every header of a known version is read back from its bytes. */
  lemma HeadRoundTrip(h: Head)
    requires KnownVersion(h.version)
    ensures HeadFrom(HeadBytes(h)) == Ok(h)
  {
    var b := HeadBytes(h);
    assert b[..4] == U32ToLe(h.version);
    assert b[4..] == TableBytes(h.entries);
    LeU32OfU32ToLe(h.version, b, 0);
    forall k | 0 <= k < ENTRY_COUNT
      ensures EntryAt(b, k) == h.entries[k]
    {
      TableBytesAt(h.entries, k);
      var e := h.entries[k];
      var at := 4 + ENTRY_SIZE * k;
      assert b[at..at + ENTRY_SIZE] == b[4..][ENTRY_SIZE * k..ENTRY_SIZE * k + ENTRY_SIZE];
      var chunk := b[at..at + ENTRY_SIZE];
      assert chunk == EntryBytes(e);
      assert b[at..at + 4] == chunk[..4] == U32ToLe(e.offset);
      assert b[at + 4..at + 8] == chunk[4..] == U32ToLe(e.length);
      LeU32OfU32ToLe(e.offset, b, at);
      LeU32OfU32ToLe(e.length, b, at + 4);
    }
    assert HeadFrom(b).value.entries == h.entries;
  }

  /** The table's bytes from entry `k` on are exactly the decoded entries' bytes from `k` on. */
  lemma {:induction false} DecodedTableIsItsBytes(bytes: Bytes, k: nat)
    requires |bytes| == HEAD_SIZE && HeadFrom(bytes).Ok? && k <= ENTRY_COUNT
    ensures TableBytes(HeadFrom(bytes).value.entries[k..]) == bytes[4 + ENTRY_SIZE * k..]
    decreases ENTRY_COUNT - k
  {
    var es := HeadFrom(bytes).value.entries;
    if k < ENTRY_COUNT {
      DecodedTableIsItsBytes(bytes, k + 1);
      var at := 4 + ENTRY_SIZE * k;
      assert es[k..][1..] == es[k + 1..];
      U32ToLeOfLeU32(bytes, at);
      U32ToLeOfLeU32(bytes, at + 4);
      assert EntryBytes(es[k]) == bytes[at..at + 4] + bytes[at + 4..at + 8];
      assert bytes[at..] == bytes[at..at + 4] + bytes[at + 4..at + 8] + bytes[at + 8..];
    }
  }

  /** Every header that decodes is written back as the bytes it came from. */
  lemma DecodedHeadIsItsBytes(bytes: Bytes)
    requires |bytes| == HEAD_SIZE && HeadFrom(bytes).Ok?
    ensures HeadBytes(HeadFrom(bytes).value) == bytes
  {
    DecodedTableIsItsBytes(bytes, 0);
    U32ToLeOfLeU32(bytes, 0);
    assert HeadFrom(bytes).value.entries[0..] == HeadFrom(bytes).value.entries;
    assert bytes == bytes[..4] + bytes[4..];
  }
}
