/**
 * Shared vocabulary of the model: bytes, the fixed-width unsigned integers
 * of the binary formats, optional values and results, little-endian
 * decoding, ASCII classes and the decimal text Rust's `{}` formatting gives
 * an unsigned integer.
 */
module Common {

  newtype byte = x: int | 0 <= x < 0x100
  type Bytes = seq<byte>

  const U8_LIMIT: nat := 0x100
  const U32_LIMIT: nat := 0x1_0000_0000
  const U64_LIMIT: nat := 0x1_0000_0000_0000_0000

  type u32 = x: nat | x < U32_LIMIT
  type u64 = x: nat | x < U64_LIMIT

  datatype Option<T> = None | Some(value: T)

  datatype Result<T, E> = Ok(value: T) | Err(error: E)

  /** The outcome of Rust code that may panic on some inputs. */
  datatype Fallible<T> = Returns(value: T) | Panics(message: string)

  // ---------------------------------------------------------------------
  // ASCII

  const NUL: byte := 0x00
  const TAB: byte := 0x09
  const LF: byte := 0x0A
  const FF: byte := 0x0C
  const CR: byte := 0x0D
  const SPACE: byte := 0x20
  const QUOTE: byte := 0x22
  const LPAREN: byte := 0x28
  const RPAREN: byte := 0x29
  const SLASH: byte := 0x2F
  const LBRACKET: byte := 0x5B
  const RBRACKET: byte := 0x5D
  const LBRACE: byte := 0x7B
  const RBRACE: byte := 0x7D

  /** `u8::is_ascii_whitespace`: space, tab, line feed, form feed, carriage return. */
  predicate IsAsciiWhitespace(b: byte) {
    b == SPACE || b == TAB || b == LF || b == FF || b == CR
  }

  predicate ContainsAsciiWhitespace(s: Bytes) {
    exists i :: 0 <= i < |s| && IsAsciiWhitespace(s[i])
  }

  /** The bytes of a `CString`: no interior NUL. */
  predicate NoNul(s: Bytes) {
    forall i :: 0 <= i < |s| ==> s[i] != NUL
  }

  /** A byte as the Unicode scalar value of the same number (`char::from(u8)`). */
  function ByteToChar(b: byte): (c: char)
    ensures c as int == b as int
  {
    (b as int) as char
  }

  /** Every byte made a char of the same value, as `text_as_string` does. */
  function BytesToString(s: Bytes): (r: string)
    ensures |r| == |s|
    ensures forall i :: 0 <= i < |s| ==> r[i] as int == s[i] as int
  {
    if s == [] then [] else [ByteToChar(s[0])] + BytesToString(s[1..])
  }

  /** ASCII text (used for the byte literals of the formats) as bytes. */
  function AsciiBytes(s: string): (r: Bytes)
    requires forall i :: 0 <= i < |s| ==> s[i] as int < U8_LIMIT
    ensures |r| == |s|
    ensures forall i :: 0 <= i < |s| ==> r[i] as int == s[i] as int
  {
    if s == [] then [] else [s[0] as int as byte] + AsciiBytes(s[1..])
  }

  // ---------------------------------------------------------------------
  // Little-endian integers

  /** `u32::from_le_bytes` of the four bytes at `at`. */
  function LeU32(s: Bytes, at: nat): (r: u32)
    requires at + 4 <= |s|
  {
    s[at] as nat + 0x100 * s[at + 1] as nat + 0x1_0000 * s[at + 2] as nat
      + 0x100_0000 * s[at + 3] as nat
  }

  /** `u32::to_le_bytes`. */
  function U32ToLe(x: u32): (r: Bytes)
    ensures |r| == 4
  {
    var q1 := x / 0x100;
    var q2 := q1 / 0x100;
    [(x % 0x100) as byte, (q1 % 0x100) as byte, (q2 % 0x100) as byte, (q2 / 0x100) as byte]
  }

  lemma LeU32OfU32ToLe(x: u32, s: Bytes, at: nat)
    requires at + 4 <= |s| && s[at..at + 4] == U32ToLe(x)
    ensures LeU32(s, at) == x
  {
    var q1 := x / 0x100;
    var q2 := q1 / 0x100;
    assert s[at] as nat == x % 0x100 && s[at + 1] as nat == q1 % 0x100 by {
      assert s[at] == U32ToLe(x)[0] && s[at + 1] == U32ToLe(x)[1];
    }
    assert s[at + 2] as nat == q2 % 0x100 && s[at + 3] as nat == q2 / 0x100 by {
      assert s[at + 2] == U32ToLe(x)[2] && s[at + 3] == U32ToLe(x)[3];
    }
    assert q2 == q2 % 0x100 + 0x100 * (q2 / 0x100);
    assert q1 == q1 % 0x100 + 0x100 * q2;
    assert x == x % 0x100 + 0x100 * q1;
  }

  /** Four bytes read as a `u32` and written back are the same four bytes. */
  lemma U32ToLeOfLeU32(s: Bytes, at: nat)
    requires at + 4 <= |s|
    ensures U32ToLe(LeU32(s, at)) == s[at..at + 4]
  {
    var x := LeU32(s, at);
    var b0, b1, b2, b3 := s[at] as nat, s[at + 1] as nat, s[at + 2] as nat, s[at + 3] as nat;
    assert x == b0 + 0x100 * (b1 + 0x100 * (b2 + 0x100 * b3));
    assert x / 0x100 == b1 + 0x100 * (b2 + 0x100 * b3) && x % 0x100 == b0;
    assert x / 0x100 / 0x100 == b2 + 0x100 * b3;
  }

  // ---------------------------------------------------------------------
  // Multiplication and division

  lemma MulAtLeast(w: nat, k: nat)
    requires k >= 1
    ensures w * k >= w
  {
    assert w * k == w * (k - 1) + w;
  }

  /** Division is determined by a quotient and a remainder below the divisor. */
  lemma DivUnique(x: nat, w: nat, q: nat, r: nat)
    requires w > 0 && x == w * q + r && r < w
    ensures x / w == q && x % w == r
  {
    var q2, r2 := x / w, x % w;
    assert x == w * q2 + r2;
    if q > q2 {
      MulAtLeast(w, q - q2);
    } else if q < q2 {
      MulAtLeast(w, q2 - q);
    }
  }

  lemma DivideProduct(w: nat, h: nat)
    requires w > 0
    ensures (w * h) % w == 0 && (w * h) / w == h
  {
    DivUnique(w * h, w, h, 0);
  }

  /** `u32::checked_mul`. */
  function CheckedMulU32(a: u32, b: u32): (r: Option<u32>)
    ensures r.Some? <==> a * b < U32_LIMIT
    ensures r.Some? ==> r.value == a * b
  {
    if a * b < U32_LIMIT then Some(a * b) else None
  }

  /** `u64::checked_add`. */
  function CheckedAddU64(a: u64, b: u64): (r: Option<u64>)
    ensures r.Some? <==> a + b < U64_LIMIT
    ensures r.Some? ==> r.value == a + b
  {
    if a + b < U64_LIMIT then Some(a + b) else None
  }

  // ---------------------------------------------------------------------
  // Decimal text

  function DigitChar(d: nat): (c: char)
    requires d < 10
    ensures '0' <= c <= '9'
  {
    ((d + '0' as int) as char)
  }

  predicate IsDigits(s: string) {
    forall i :: 0 <= i < |s| ==> '0' <= s[i] <= '9'
  }

  /** `{}` of an unsigned integer: its decimal digits, no leading zero. */
  function Decimal(n: nat): (r: string)
    ensures |r| >= 1 && IsDigits(r)
    ensures |r| > 1 ==> r[0] != '0'
    decreases n
  {
    if n < 10 then [DigitChar(n)] else Decimal(n / 10) + [DigitChar(n % 10)]
  }

  /** The number a string of decimal digits denotes. */
  function DecimalValue(s: string): nat
    requires IsDigits(s)
  {
    if s == [] then 0 else 10 * DecimalValue(s[..|s| - 1]) + (s[|s| - 1] as int - '0' as int)
  }

  lemma {:induction false} DecimalRoundTrip(n: nat)
    ensures DecimalValue(Decimal(n)) == n
    decreases n
  {
    if n >= 10 {
      DecimalRoundTrip(n / 10);
      var s := Decimal(n);
      assert s[..|s| - 1] == Decimal(n / 10);
    }
  }

  lemma DecimalInjective(m: nat, n: nat)
    requires Decimal(m) == Decimal(n)
    ensures m == n
  {
    DecimalRoundTrip(m);
    DecimalRoundTrip(n);
  }

  /** Concatenation regroups freely. */
  lemma ConcatAssoc<T>(a: seq<T>, b: seq<T>, c: seq<T>)
    ensures (a + b) + c == a + (b + c)
  {
  }

  /** A prefix grown by the next element is the next prefix. */
  lemma TakeSnoc<T>(s: seq<T>, k: nat)
    requires k < |s|
    ensures s[..k] + [s[k]] == s[..k + 1]
  {
  }
}
