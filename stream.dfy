/**
 * Byte sources.  A `Cursor` is an in-memory seekable reader: a fixed
 * buffer and a position that may lie anywhere, even past its end.  Reads
 * are `read_exact` (all the bytes or an end-of-file error) and the
 * byte-at-a-time `bytes()` iterator, possibly limited by `take`.
 */
module Stream {
  import opened Common
  import opened Errors

  /** A buffer a 64-bit position can address. */
  type Buffer = s: Bytes | |s| < U64_LIMIT

  /** `read_exact` of `n` bytes at `at`: those bytes, or end-of-file when fewer remain. */
  function ReadAt(data: Bytes, at: nat, n: nat): (r: Result<Bytes, IoError>)
    ensures r.Ok? <==> at + n <= |data|
    ensures r.Ok? ==> |r.value| == n
    ensures r.Err? ==> r.error == UNEXPECTED_EOF
  {
    if at + n <= |data| then Ok(data[at..at + n]) else Err(UNEXPECTED_EOF)
  }

  /** What `take(limit).bytes()` yields at `at`: up to `limit` bytes, fewer at the end of the buffer. */
  function Available(data: Bytes, at: nat, limit: nat): (r: Bytes)
    ensures |r| <= limit
    ensures at + limit <= |data| ==> |r| == limit
    ensures forall i :: 0 <= i < |r| ==> at + i < |data| && r[i] == data[at + i]
  {
    if |data| <= at then []
    else if at + limit <= |data| then data[at..at + limit]
    else data[at..]
  }

  class Cursor {
    const data: Buffer
    var pos: u64

    /** `Cursor::new`: positioned at the start. */
    constructor (data: Buffer)
      ensures this.data == data && pos == 0
    {
      this.data := data;
      pos := 0;
    }

    /** `read_exact`: on success the position moves past the bytes read. */
    method ReadExact(n: nat) returns (r: Result<Bytes, IoError>)
      modifies this
      ensures r == ReadAt(data, old(pos), n)
      ensures pos == if r.Ok? then old(pos) + n else old(pos)
    {
      r := ReadAt(data, pos, n);
      if r.Ok? {
        pos := pos + n;
      }
    }

    /** `seek(SeekFrom::Start(to))`: always succeeds on a cursor. */
    method Seek(to: u64)
      modifies this
      ensures pos == to
    {
      pos := to;
    }

    /** `rewind`. */
    method Rewind()
      modifies this
      ensures pos == 0
    {
      pos := 0;
    }

    /** `stream_position`. */
    method Position() returns (p: u64)
      ensures p == pos
    {
      p := pos;
    }

    /** `bytes().take(limit)` collected: the bytes there are, up to `limit`. */
    method TakeBytes(limit: nat) returns (r: Bytes)
      modifies this
      ensures r == Available(data, old(pos), limit)
      ensures pos == old(pos) + |r|
    {
      r := Available(data, pos, limit);
      pos := pos + |r|;
    }
  }

  /** The items an iterator of `io::Result<u8>` still yields, in order. */
  type Items = seq<Result<byte, IoError>>

  /** How many bytes `IterReader::read` stores into a buffer of `count`: up to the first error or the end. */
  function Stored(items: Items, count: nat): (k: nat)
    ensures k <= count && k <= |items|
    ensures forall j :: 0 <= j < k ==> items[j].Ok?
    ensures k < count && k < |items| ==> items[k].Err?
    decreases count
  {
    if count == 0 || items == [] || items[0].Err? then 0 else 1 + Stored(items[1..], count - 1)
  }

  /** `IterReader`: a reader over an iterator of byte results. */
  class IterReader {
    var items: Items

    constructor (items: Items)
      ensures this.items == items
    {
      this.items := items;
    }

    /**
     * `read`: fills the buffer from the front with the next bytes, stopping
     * when the buffer is full, at the iterator's end (returning how many were
     * stored) or at an error item (returned after the bytes before it).
     */
    method Read(buf: array<byte>) returns (r: Result<nat, IoError>)
      modifies this, buf
      ensures var k := Stored(old(items), buf.Length);
        && (forall j :: 0 <= j < k ==> buf[j] == old(items)[j].value)
        && (forall j :: k <= j < buf.Length ==> buf[j] == old(buf[j]))
        && (if k < buf.Length && k < |old(items)|
            then r == Err(old(items)[k].error) && items == old(items)[k + 1..]
            else r == Ok(k) && items == old(items)[k..])
    {
      var i := 0;
      ghost var start := items;
      while i < buf.Length
        invariant 0 <= i <= buf.Length && i <= |start|
        invariant items == start[i..]
        invariant Stored(start, buf.Length) == i + Stored(items, buf.Length - i)
        invariant forall j :: 0 <= j < i ==> start[j].Ok? && buf[j] == start[j].value
        invariant forall j :: i <= j < buf.Length ==> buf[j] == old(buf[j])
        decreases buf.Length - i
      {
        if items == [] {
          return Ok(i);
        }
        var b := items[0];
        items := items[1..];
        if b.Err? {
          return Err(b.error);
        }
        buf[i] := b.value;
        i := i + 1;
      }
      r := Ok(i);
    }
  }
}
