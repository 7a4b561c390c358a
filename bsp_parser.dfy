/**
 * Reading a compiled map from a seekable byte source: the header is read
 * where the source stands, each lump is found at the header's offset from
 * that start, and the entities lump, text up to its first zero byte, is
 * handed to the map parser.
 */
module BspParser {
  import opened Common
  import opened Errors
  import opened Stream
  import Bsp
  import Repr
  import TextParser = Parser
  import ParserProperties
  import LumpParse

  /** The header at `at`: end-of-file when fewer than 124 bytes remain, else as the header decodes. */
  function HeaderAt(data: Buffer, at: u64): (r: Result<Bsp.Head, BinParse>)
    ensures r.Ok? <==> at + Bsp.HEAD_SIZE <= |data| && Bsp.KnownVersion(LeU32(data, at))
    ensures at + Bsp.HEAD_SIZE > |data| ==> r == Err(BinParse.Io(UNEXPECTED_EOF))
    ensures at + Bsp.HEAD_SIZE <= |data| && r.Err?
      ==> r.error == BinParse.Parse(Bsp.UnrecognizedVersion(LeU32(data, at)))
    ensures r.Ok? ==> r.value.version == LeU32(data, at)
    ensures r.Ok? ==> forall k :: 0 <= k < Bsp.ENTRY_COUNT ==>
      r.value.entries[k] == Bsp.Entry(LeU32(data, at + 4 + Bsp.ENTRY_SIZE * k), LeU32(data, at + 8 + Bsp.ENTRY_SIZE * k))
  {
    var bytes := ReadAt(data, at, Bsp.HEAD_SIZE);
    if bytes.Err? then Err(BinParse.Io(bytes.error))
    else
      assert LeU32(bytes.value, 0) == LeU32(data, at);
      assert forall k :: 0 <= k < Bsp.ENTRY_COUNT ==>
        Bsp.EntryAt(bytes.value, k) == Bsp.Entry(LeU32(data, at + 4 + Bsp.ENTRY_SIZE * k), LeU32(data, at + 8 + Bsp.ENTRY_SIZE * k));
      Bsp.HeadFrom(bytes.value)
  }

  /** Where a lump starts: `start + offset`, or a parse error when that overflows 64 bits. */
  function LumpStart(start: u64, e: Bsp.Entry): (r: Result<u64, BinParse>)
    ensures r.Ok? <==> start + e.offset < U64_LIMIT
    ensures r.Ok? ==> r.value == start + e.offset
    ensures r.Err? ==> r.error == BinParse.Parse(LumpParse.BAD_OFFSET)
  {
    var at := CheckedAddU64(start, e.offset);
    if at.None? then Err(BinParse.Parse(LumpParse.BAD_OFFSET)) else Ok(at.value)
  }

  /** `take_while(|b| b != 0)`: the longest prefix holding no zero byte. */
  function UntilNul(s: Bytes): (r: Bytes)
    ensures r <= s && NUL !in r
    ensures |r| < |s| ==> s[|r|] == NUL
  {
    if s == [] || s[0] == NUL then [] else [s[0]] + UntilNul(s[1..])
  }

  /** A NUL-free text before a zero byte is what is kept. */
  lemma {:induction false} UntilNulIsTextBeforeNul(text: Bytes, rest: Bytes)
    requires NUL !in text
    ensures UntilNul(text + [NUL] + rest) == text
  {
    var s := text + [NUL] + rest;
    if text != [] {
      assert s[0] == text[0] && s[1..] == text[1..] + [NUL] + rest;
      UntilNulIsTextBeforeNul(text[1..], rest);
    }
  }

  /** `lump.bytes()` over bytes in memory: each item is the next byte. */
  function ByteItems(s: Bytes): Items {
    seq(|s|, j requires 0 <= j < |s| => Ok(s[j]))
  }

  /** The `take_while` of `parse_entities`: the items before the first zero byte, error items kept. */
  function TakeWhileNonNul(items: Items): (r: Items)
    ensures |r| <= |items| && r == items[..|r|]
    ensures forall j :: 0 <= j < |r| ==> r[j] != Ok(NUL)
    ensures |r| < |items| ==> items[|r|] == Ok(NUL)
  {
    if items == [] || items[0] == Ok(NUL) then [] else [items[0]] + TakeWhileNonNul(items[1..])
  }

  /** The iterator `parse_entities` hands to `IterReader` yields exactly the bytes up to the first zero byte. */
  lemma {:induction false} TakeWhileIsUntilNul(s: Bytes)
    ensures TakeWhileNonNul(ByteItems(s)) == ByteItems(UntilNul(s))
  {
    if s != [] && s[0] != NUL {
      assert ByteItems(s)[1..] == ByteItems(s[1..]);
      TakeWhileIsUntilNul(s[1..]);
      assert ByteItems(UntilNul(s)) == [Ok(s[0])] + ByteItems(UntilNul(s[1..]));
    }
  }

  /** `IterReader::read` over byte items never meets an error: it stores as many as fit, or all that remain. */
  lemma {:induction false} StoredOfBytes(s: Bytes, count: nat)
    ensures Stored(ByteItems(s), count) == if count < |s| then count else |s|
    decreases count
  {
    if count > 0 && s != [] {
      assert ByteItems(s)[1..] == ByteItems(s[1..]);
      StoredOfBytes(s[1..], count - 1);
    }
  }

  /**
   * One `IterReader::read` of `count` bytes over the iterator `parse_entities` builds: it stores the
   * next bytes of the text before the first zero byte, as many as fit, and leaves the iterator over
   * the rest of that text. Reading on until a read returns 0 therefore yields exactly that text.
   */
  lemma IterReaderReadsText(s: Bytes, count: nat)
    ensures var items := TakeWhileNonNul(ByteItems(s));
            var t := UntilNul(s);
            var k := Stored(items, count);
            && k == (if count < |t| then count else |t|)
            && (forall j :: 0 <= j < k ==> items[j] == Ok(t[j]))
            && items[k..] == ByteItems(t[k..])
  {
    var t := UntilNul(s);
    TakeWhileIsUntilNul(s);
    StoredOfBytes(t, count);
    var k := Stored(ByteItems(t), count);
    assert ByteItems(t)[k..] == ByteItems(t[k..]);
  }

  /** The map parser's error as `parse_entities` reports it: I/O stays I/O, anything else becomes its display text. */
  function EntitiesResult(t: Result<Repr.QuakeMap, TextParse>): (r: Result<Repr.QuakeMap, BinParse>)
    ensures r.Ok? <==> t.Ok?
    ensures r.Ok? ==> r.value == t.value
    ensures t.Err? && t.error.Io? ==> r.error == BinParse.Io(t.error.io)
    ensures t.Err? && !t.error.Io? ==> r.error == BinParse.Parse(TextParseDisplay(t.error))
  {
    match t
    case Ok(m) => Ok(m)
    case Err(Io(io)) => Err(BinParse.Io(io))
    case Err(e) => Err(BinParse.Parse(TextParseDisplay(e)))
  }

  /** The entities lump's text: its bytes up to the first zero byte, fewer at the end of the data. */
  function EntitiesText(data: Buffer, at: u64, e: Bsp.Entry): (r: Bytes)
    ensures NUL !in r && |r| <= e.length
    ensures forall i :: 0 <= i < |r| ==> at + i < |data| && r[i] == data[at + i]
  {
    UntilNul(Available(data, at, e.length))
  }

  /** `parse_entities`: the map parsed from the entities lump's text. */
  function EntitiesAt(c: Repr.FloatText, data: Buffer, start: u64, header: Bsp.Head)
    : (r: Result<Repr.QuakeMap, BinParse>)
    ensures LumpStart(start, Bsp.EntryOf(header, Bsp.Entities)).Err? ==> r == Err(BinParse.Parse(LumpParse.BAD_OFFSET))
  {
    var e := Bsp.EntryOf(header, Bsp.Entities);
    var at := LumpStart(start, e);
    if at.Err? then Err(at.error)
    else EntitiesResult(TextParser.ParseText(c, EntitiesText(data, at.value, e)))
  }

  /** An empty entities lump is a map of no entities. */
  lemma EmptyEntitiesAreEmptyMap(c: Repr.FloatText, data: Buffer, start: u64, header: Bsp.Head)
    requires Bsp.EntryOf(header, Bsp.Entities).length == 0
    requires LumpStart(start, Bsp.EntryOf(header, Bsp.Entities)).Ok?
    ensures EntitiesAt(c, data, start, header) == Ok(Repr.QuakeMap([]))
  {
    var e := Bsp.EntryOf(header, Bsp.Entities);
    assert EntitiesText(data, start + e.offset, e) == [];
    ParserProperties.EmptyTextIsEmptyMap(c);
  }

  /** The map parser sees the lump's text before its first zero byte, and nothing after it. */
  lemma EntitiesEndAtNul(c: Repr.FloatText, data: Buffer, start: u64, header: Bsp.Head, text: Bytes, rest: Bytes)
    requires LumpStart(start, Bsp.EntryOf(header, Bsp.Entities)).Ok?
    requires NUL !in text
    requires Available(data, start + Bsp.EntryOf(header, Bsp.Entities).offset, Bsp.EntryOf(header, Bsp.Entities).length)
      == text + [NUL] + rest
    ensures EntitiesAt(c, data, start, header) == EntitiesResult(TextParser.ParseText(c, text))
  {
    UntilNulIsTextBeforeNul(text, rest);
  }

  /** An entity left open, the text `{`, is reported as a parse error, not an I/O one. */
  lemma UnclosedEntityIsParseError(c: Repr.FloatText)
    ensures EntitiesResult(TextParser.ParseText(c, [LBRACE])).Err?
    ensures EntitiesResult(TextParser.ParseText(c, [LBRACE])).error.Parse?
  {
  }

  /** An empty lump yields no bytes; a non-empty one that starts inside the data yields some. */
  lemma LumpYieldsNothingIffEmpty(data: Buffer, at: u64, e: Bsp.Entry)
    requires at < |data|
    ensures Available(data, at, e.length) == [] <==> e.length == 0
  {
  }

  class Parser {
    const cursor: Cursor
    /** Where the header was read: lump offsets count from here. */
    const start: u64
    const header: Bsp.Head

    constructor (cursor: Cursor, start: u64, header: Bsp.Head)
      ensures this.cursor == cursor && this.start == start && this.header == header
    {
      this.cursor := cursor;
      this.start := start;
      this.header := header;
    }

    /** `Parser::new`: the header at the source's position, which becomes the start. */
    static method New(cursor: Cursor) returns (r: Result<Parser, BinParse>)
      modifies cursor
      ensures var h := HeaderAt(cursor.data, old(cursor.pos));
        && (r.Ok? <==> h.Ok?)
        && (r.Err? ==> r.error == h.error)
        && (r.Ok? ==> fresh(r.value) && r.value.cursor == cursor && r.value.start == old(cursor.pos)
                      && r.value.header == h.value)
      ensures cursor.pos == if old(cursor.pos) + Bsp.HEAD_SIZE <= |cursor.data| then old(cursor.pos) + Bsp.HEAD_SIZE
                            else old(cursor.pos)
    {
      var start := cursor.Position();
      var headerBytes := cursor.ReadExact(Bsp.HEAD_SIZE);
      if headerBytes.Err? {
        return Err(BinParse.Io(headerBytes.error));
      }
      var header := Bsp.DecodeHead(headerBytes.value);
      if header.Err? {
        return Err(header.error);
      }
      var p := new Parser(cursor, start, header.value);
      r := Ok(p);
    }

    /** `Parser::version`. */
    function Version(): u32 {
      header.version
    }

    /** `Parser::lump_empty`. */
    predicate LumpEmpty(o: Bsp.EntryOffset) {
      Bsp.EntryOf(header, o).length == 0
    }

    /**
     * `Parser::lump_reader`: positions the source at the lump and returns
     * the most bytes to take from there, its length.  The start plus the
     * offset overflowing is a parse error, with the source left alone.
     */
    method LumpReader(o: Bsp.EntryOffset) returns (r: Result<nat, BinParse>)
      modifies cursor
      ensures var at := LumpStart(start, Bsp.EntryOf(header, o));
        && (r.Ok? <==> at.Ok?)
        && (r.Err? ==> r.error == at.error && cursor.pos == old(cursor.pos))
        && (r.Ok? ==> r.value == Bsp.EntryOf(header, o).length && cursor.pos == at.value)
    {
      var e := Bsp.EntryOf(header, o);
      var at := CheckedAddU64(start, e.offset);
      if at.None? {
        return Err(BinParse.Parse(LumpParse.BAD_OFFSET));
      }
      cursor.Seek(at.value);
      r := Ok(e.length);
    }

    /** `Parser::parse_entities`. */
    method ParseEntities(c: Repr.FloatText) returns (r: Result<Repr.QuakeMap, BinParse>)
      modifies cursor
      ensures r == EntitiesAt(c, cursor.data, start, header)
    {
      var limit := LumpReader(Bsp.Entities);
      if limit.Err? {
        return Err(limit.error);
      }
      var bytes := cursor.TakeBytes(limit.value);
      var text := UntilNul(bytes);
      r := EntitiesResult(TextParser.ParseText(c, text));
    }
  }
}
