/**
 * The older map `Error` type: the same shape as `ParseError`, with a shorter
 * end-of-file message.
 */
module QmapResult {
  import opened Common
  import Errors
  import ParseResult

  datatype LineError = LineError(message: string, lineNumber: Option<Errors.LineNumber>)

  /** `Display for LineError`: "Line N: msg", or the bare message without a line. */
  function LineErrorDisplay(l: LineError): (r: string)
    ensures |r| >= |l.message| && r[|r| - |l.message|..] == l.message
    ensures r == l.message <==> l.lineNumber.None?
  {
    match l.lineNumber
    case Some(n) => "Line " + Decimal(n) + ": " + l.message
    case None => l.message
  }

  datatype Error = Io(text: string) | Lexer(line: LineError) | Parser(line: LineError)

  function FromLexer(message: string, lineNumber: Errors.LineNumber): (r: Error)
    ensures r.Lexer? && r.line.message == message && r.line.lineNumber == Some(lineNumber)
  {
    Lexer(LineError(message, Some(lineNumber)))
  }

  function FromParser(message: string, lineNumber: Errors.LineNumber): (r: Error)
    ensures r.Parser? && r.line.message == message && r.line.lineNumber == Some(lineNumber)
  {
    Parser(LineError(message, Some(lineNumber)))
  }

  /** `from_io` keeps only the I/O error's text. */
  function FromIo(e: Errors.IoError): (r: Error)
    ensures r.Io? && ErrorDisplay(r) == e.text
  {
    Io(e.text)
  }

  function Eof(): (r: Error)
    ensures r.Parser? && r.line.lineNumber.None?
    ensures ErrorDisplay(r) == "Unexpected EOF"
  {
    Parser(LineError("Unexpected EOF", None))
  }

  /** `Display for Error`. */
  function ErrorDisplay(e: Error): (r: string)
    ensures e.Io? ==> r == e.text
    ensures !e.Io? ==> r == LineErrorDisplay(e.line)
  {
    match e
    case Io(msg) => msg
    case Lexer(l) => LineErrorDisplay(l)
    case Parser(l) => LineErrorDisplay(l)
  }

  function ToParseError(e: Error): ParseResult.ParseError {
    match e
    case Io(msg) => ParseResult.Io(msg)
    case Lexer(l) => ParseResult.Lexer(ParseResult.LineError(l.message, l.lineNumber))
    case Parser(l) => ParseResult.Parser(ParseResult.LineError(l.message, l.lineNumber))
  }

  /**
   * Both map error types display alike, except that the end-of-file error
   * reads "Unexpected EOF" here and "Unexpected end-of-file" there.
   */
  lemma DisplayAgreesWithParseError(e: Error)
    ensures ErrorDisplay(e) == ParseResult.ParseErrorDisplay(ToParseError(e))
    ensures ErrorDisplay(Eof()) != ParseResult.ParseErrorDisplay(ParseResult.Eof())
  {
  }
}
