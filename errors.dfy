/**
 * The crate-wide error types: binary-parse errors, line-tagged text-parse
 * errors and write errors, with their Display text.
 */
module Errors {
  import opened Common

  /** An `io::Error`, kept as the text its Display shows. */
  datatype IoError = IoError(text: string)

  /** What `read_exact` reports when the source ends first. */
  const UNEXPECTED_EOF: IoError := IoError("failed to fill whole buffer")

  /** The line counter's type: a `NonZeroU64`. */
  type LineNumber = n: nat | 1 <= n < U64_LIMIT witness 1

  datatype BinParse = Io(io: IoError) | Parse(message: string)

  /** `Display for BinParse`. */
  function BinParseDisplay(e: BinParse): (r: string)
    ensures e.Io? ==> r == "IO Error: " + e.io.text
    ensures e.Parse? ==> r == "Binary Parse Error: " + e.message
  {
    match e
    case Io(io) => "IO Error: " + io.text
    case Parse(s) => "Binary Parse Error: " + s
  }

  /** The two prefixes tell the variants apart, so the text determines the error. */
  lemma BinParseDisplayInjective(a: BinParse, b: BinParse)
    requires BinParseDisplay(a) == BinParseDisplay(b)
    ensures a == b
  {
    var ra, rb := BinParseDisplay(a), BinParseDisplay(b);
    assert ra[0] == rb[0];
    if a.Io? && b.Io? {
      assert a.io.text == ra[10..] == rb[10..] == b.io.text;
    } else if a.Parse? && b.Parse? {
      assert a.message == ra[20..] == rb[20..] == b.message;
    }
  }

  datatype Line = Line(message: string, lineNumber: Option<LineNumber>)

  /** `Display for Line`. */
  function LineDisplay(l: Line): (r: string)
    ensures |r| >= |l.message| && r[|r| - |l.message|..] == l.message
    ensures r == l.message <==> l.lineNumber.None?
    ensures l.lineNumber.Some? ==> |r| > 5 && r[..5] == "Line "
  {
    match l.lineNumber
    case Some(n) => "Line " + Decimal(n) + ": " + l.message
    case None => l.message
  }

  /** Two displays of the same message agree only if they carry the same line. */
  lemma LineDisplayDeterminesLine(m: string, a: LineNumber, b: LineNumber)
    requires LineDisplay(Line(m, Some(a))) == LineDisplay(Line(m, Some(b)))
    ensures a == b
  {
    var da, db := Decimal(a), Decimal(b);
    var ra, rb := LineDisplay(Line(m, Some(a))), LineDisplay(Line(m, Some(b)));
    assert |da| == |db|;
    assert da == ra[5..5 + |da|] == rb[5..5 + |db|] == db;
    DecimalInjective(a, b);
  }

  datatype TextParse = Io(io: IoError) | Lexer(line: Line) | Parser(line: Line)

  function FromLexer(message: string, lineNumber: LineNumber): (r: TextParse)
    ensures r.Lexer? && r.line.message == message && r.line.lineNumber == Some(lineNumber)
  {
    Lexer(Line(message, Some(lineNumber)))
  }

  function FromParser(message: string, lineNumber: LineNumber): (r: TextParse)
    ensures r.Parser? && r.line.message == message && r.line.lineNumber == Some(lineNumber)
  {
    Parser(Line(message, Some(lineNumber)))
  }

  const EOF_MESSAGE: string := "Unexpected end-of-file"

  /** The end-of-file error: a parser error with no line. */
  function Eof(): (r: TextParse)
    ensures r.Parser? && r.line.lineNumber.None?
    ensures TextParseDisplay(r) == EOF_MESSAGE
  {
    Parser(Line(EOF_MESSAGE, None))
  }

  /** `Display for TextParse`: the I/O error's text or the line error's display. */
  function TextParseDisplay(e: TextParse): (r: string)
    ensures e.Io? ==> r == e.io.text
    ensures !e.Io? ==> r == LineDisplay(e.line)
  {
    match e
    case Io(io) => io.text
    case Lexer(l) => LineDisplay(l)
    case Parser(l) => LineDisplay(l)
  }

  /** A lexer error and a parser error with the same message and line read alike. */
  lemma LexerAndParserDisplayAlike(message: string, n: LineNumber)
    ensures TextParseDisplay(FromLexer(message, n)) == TextParseDisplay(FromParser(message, n))
    ensures TextParseDisplay(FromLexer(message, n)) == "Line " + Decimal(n) + ": " + message
  {
  }

  datatype Write = Validation(message: string) | Io(io: IoError)

  /** `Display for Write`: the bare message or I/O text, without a prefix. */
  function WriteDisplay(e: Write): (r: string)
    ensures r == if e.Validation? then e.message else e.io.text
  {
    match e
    case Validation(msg) => msg
    case Io(io) => io.text
  }
}
