/**
 * The map parser's own error type (`ParseError`): I/O errors kept as text,
 * and line-tagged lexer and parser errors.
 */
module ParseResult {
  import opened Common
  import Errors

  datatype LineError = LineError(message: string, lineNumber: Option<Errors.LineNumber>)

  /** `Display for LineError`: "Line N: msg", or the bare message without a line. */
  function LineErrorDisplay(l: LineError): (r: string)
    ensures |r| >= |l.message| && r[|r| - |l.message|..] == l.message
    ensures r == l.message <==> l.lineNumber.None?
  {
    match l.lineNumber
    case Some(n) => "Line " + Decimal(n) + ": " + l.message
    case None => l.message
  }

  datatype ParseError = Io(text: string) | Lexer(line: LineError) | Parser(line: LineError)

  function FromLexer(message: string, lineNumber: Errors.LineNumber): (r: ParseError)
    ensures r.Lexer? && r.line.message == message && r.line.lineNumber == Some(lineNumber)
  {
    Lexer(LineError(message, Some(lineNumber)))
  }

  function FromParser(message: string, lineNumber: Errors.LineNumber): (r: ParseError)
    ensures r.Parser? && r.line.message == message && r.line.lineNumber == Some(lineNumber)
  {
    Parser(LineError(message, Some(lineNumber)))
  }

  /** `from_io` keeps only the I/O error's text, so what it displays is preserved. */
  function FromIo(e: Errors.IoError): (r: ParseError)
    ensures r.Io? && ParseErrorDisplay(r) == e.text
  {
    Io(e.text)
  }

  function Eof(): (r: ParseError)
    ensures r.Parser? && r.line.lineNumber.None?
    ensures ParseErrorDisplay(r) == "Unexpected end-of-file"
  {
    Parser(LineError("Unexpected end-of-file", None))
  }

  /** `Display for ParseError`. */
  function ParseErrorDisplay(e: ParseError): (r: string)
    ensures e.Io? ==> r == e.text
    ensures !e.Io? ==> r == LineErrorDisplay(e.line)
  {
    match e
    case Io(msg) => msg
    case Lexer(l) => LineErrorDisplay(l)
    case Parser(l) => LineErrorDisplay(l)
  }

  /** The same error as the crate-wide `TextParse`. */
  function ToTextParse(e: ParseError): Errors.TextParse {
    match e
    case Io(msg) => Errors.TextParse.Io(Errors.IoError(msg))
    case Lexer(l) => Errors.TextParse.Lexer(Errors.Line(l.message, l.lineNumber))
    case Parser(l) => Errors.TextParse.Parser(Errors.Line(l.message, l.lineNumber))
  }

  /** `ParseError` and `TextParse` show the same text for corresponding errors. */
  lemma DisplayAgreesWithTextParse(e: ParseError)
    ensures ParseErrorDisplay(e) == Errors.TextParseDisplay(ToTextParse(e))
    ensures ToTextParse(Eof()) == Errors.Eof()
  {
  }
}
