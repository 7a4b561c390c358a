# quake-util in Dafny

A verified model of the core of quake-util, a Rust library that reads and
writes Quake game data:

- **Map text** (`.map` files). The tokenizer is a five-state byte machine
  that tracks line numbers and rejects null bytes and unclosed quotes. The
  recursive-descent parser builds a map of entities, each an edict of
  key/value strings and a list of brushes. Each brush surface is a
  half-space, a texture and a Standard or Valve 220 alignment. The document
  model has a writability check and a CR LF writer that validates each
  entity before writing any of it. The older closure-based tokenizer and the
  two older, unvalidated writers are modelled too.
- **Binary data.** The compiled-map (BSP) header and its entities lump, the
  texture archive (WAD2) header, directory and lump readers, and the lumps
  themselves: palette, status-bar image, mip texture and flat bytes.

## How the model is built

- **Modules.** There is one Dafny module per source component.
  - Tokenizers: `Lexer` (`src/qmap/lexer.rs`) and `OldLexer` (`src/lexer.rs`).
  - Parser: `Parser` and `ParserProperties` (`src/qmap/parser.rs`).
  - Document model and writers: `Repr` and `MapWriter` (`src/qmap/repr.rs`); `Roundtrip` (reading a written texture back); `MapRoundtrip` (reading a whole written map back); `LegacyMap` (`src/qmap/ast.rs` and `src/qmap/quake_map_elements.rs`, the same code under two trait names).
  - Errors: `Errors`, `ParseResult` and `QmapResult` (`src/error/mod.rs`, `src/qmap/parse_result.rs`, `src/qmap/result.rs`).
  - Lumps: `Lump` and `LumpParse` (`src/lump/`).
  - Texture archive: `Wad` and `WadParser` (`src/wad/`).
  - Compiled map: `Bsp` and `BspParser` (`src/bsp/`).
  - Shared: `Stream` (byte sources) and `Common` (shared vocabulary).
- **How each part is written.** Stateful code is imperative Dafny whose result is proved equal to a specification function.
  - The tokenizer is the class `Lexer.TokenIterator`, with its state, line, byte and text fields.
  - The writers append to a `MapWriter.Sink`.
  - The binary readers advance a `Stream.Cursor`.
  - `IterReader.read` fills an `array`.
  - The parser's while-let loops and the header and offset fill loops are `while`/`for` loops.
  - Pure decoders and checks are functions. Lemmas relate them: round trips, first-error folds, iff-conditions.
- **Bytes.** A byte is a `newtype byte` over 0..255 rather than `bv8`, and byte strings are `seq<byte>`. `u32` and `u64` are bounded subsets of `nat`. Every overflow check in the source (`checked_mul`, `checked_add`, `try_into`) is written out.
- **Floats.** An `f64` is its 64-bit pattern. Finiteness is decided by the exponent field.
  - Float text conversion (`f64::from_str` and `Display`) is a parameter `Repr.FloatText` of every member that needs it. Lemmas that need parsing and display to agree say so explicitly.
- **Edict order.** Edicts are `map`s. A `HashMap`'s iteration order is unspecified, so it enters as a parameter: any sequence that lists each key once (`Repr.IsEnumeration`, `LegacyMap.Walks`). `Repr.EnumerationExists` shows that such an order always exists.
- **Texture rule.** The map checks and writers take a `Repr.TextureRule`.
  - `AsWritten` is the source's `check_writable_texture` and `write_texture_to`, so `CheckSurface` up to `CheckMap`, and `SurfaceWords` up to `WriteMap`, model the source under it.
  - `Corrected` also quotes, or refuses, a bare name that would read as a comment (see Findings). `Roundtrip.TextureReadsBack` holds for it.
- **Panics.** A panic is the value `Common.Fallible.Panics(message)`, never a hidden precondition: slicing past the end, `Index` out of range, division by zero.
- **Copied code.** The texture archive's own copies of `Image`, `MipTexture` and `MipTextureHead` (`src/wad/repr.rs:163-296`) are the lump versions with `String` errors, and are modelled once in `Lump`.
  - The three error modules are kept apart because the source declares three distinct types with the same shape: `Errors` for `src/error/mod.rs`, `ParseResult` for `src/qmap/parse_result.rs` and `QmapResult` for `src/qmap/result.rs`. Their constructors and displays therefore read alike.
  - `WadParser.ReadError` has the variant `Parse`, which `src/wad/parser.rs:15` and `:37` construct, next to `Io`, the only variant `src/wad/result.rs:2-4` declares.
  - The new tokenizer's items carry an `Errors.TextParse`, where `src/qmap/lexer.rs` uses the `ParseError` of `src/qmap/parse_result.rs`. `ParseResult.DisplayAgreesWithTextParse` shows that the two read alike.
  - The names `src/wad/parser.rs` imports but `src/wad/repr.rs` does not define (`Lump`, the `*_LUMP_ID` constants) are taken to be the lump module's `Lump` and kind constants.

## Model

| member | source | states |
|---|---|---|
| Common.LeU32OfU32ToLe | src/bsp/repr.rs:63-64 | a little-endian u32 read from the four bytes it was written to is that number |
| Common.U32ToLeOfLeU32 | src/bsp/repr.rs:70 | any four bytes read as a little-endian u32 and written back are the same four bytes |
| Common.CheckedMulU32 | src/lump/parse.rs:74-76 | the product is some value iff it fits in 32 bits, and is then the true product |
| Common.CheckedAddU64 | src/bsp/parser.rs:43-46 | the sum is some value iff it fits in 64 bits, and is then the true sum |
| Common.Decimal | src/bsp/repr.rs:67-71 | an unsigned number's display is a non-empty run of digits with no leading zero |
| Common.DecimalRoundTrip | src/bsp/repr.rs:67-71 | the digits displayed for a number denote that number |
| Common.DecimalInjective | src/bsp/repr.rs:67-71 | two numbers with the same display are equal |
| Errors.BinParseDisplay | src/error/mod.rs:17-30 | an I/O error shows as "IO Error: " followed by its text, a parse error as "Binary Parse Error: " followed by its message |
| Errors.BinParseDisplayInjective | src/error/mod.rs:17-30 | two binary-parse errors with the same display text are the same error (the prefixes tell the variants apart) |
| Errors.LineDisplay | src/error/mod.rs:40-47 | the display ends with the message; it is exactly the message iff there is no line number; with a line it starts with "Line " |
| Errors.LineDisplayDeterminesLine | src/error/mod.rs:40-47 | two displays of the same message with line numbers agree only when the line numbers are equal |
| Errors.FromLexer | src/error/mod.rs:59-64 | `from_lexer` is a Lexer error carrying the message and `Some(line)` |
| Errors.FromParser | src/error/mod.rs:66-71 | `from_parser` is a Parser error carrying the message and `Some(line)` |
| Errors.Eof | src/error/mod.rs:73-78 | `eof()` is a Parser error with no line, displayed as "Unexpected end-of-file" |
| Errors.TextParseDisplay | src/error/mod.rs:87-95 | an I/O error shows its text; lexer and parser errors show their line error's display |
| Errors.LexerAndParserDisplayAlike | src/error/mod.rs:59-71 | a lexer and a parser error built from the same message and line display alike, as "Line N: msg" |
| Errors.WriteDisplay | src/error/mod.rs:111-118 | a write error shows the bare validation message or the I/O error's text |
| ParseResult.LineErrorDisplay | src/qmap/parse_result.rs:16-23 | the display ends with the message, and equals it iff there is no line |
| ParseResult.FromLexer | src/qmap/parse_result.rs:33-38 | a Lexer error with the message and `Some(line)` |
| ParseResult.FromParser | src/qmap/parse_result.rs:40-45 | a Parser error with the message and `Some(line)` |
| ParseResult.FromIo | src/qmap/parse_result.rs:47-49 | an Io error whose display is the I/O error's text |
| ParseResult.Eof | src/qmap/parse_result.rs:51-56 | a Parser error with no line, displayed as "Unexpected end-of-file" |
| ParseResult.ParseErrorDisplay | src/qmap/parse_result.rs:59-67 | an Io error shows its text; the others show their line error's display |
| ParseResult.DisplayAgreesWithTextParse | src/qmap/parse_result.rs:25-67 | each `ParseError` displays exactly as the corresponding crate-wide `TextParse`, and the two `eof()` errors correspond |
| QmapResult.LineErrorDisplay | src/qmap/result.rs:16-23 | the display ends with the message, and equals it iff there is no line |
| QmapResult.FromLexer | src/qmap/result.rs:33-38 | a Lexer error with the message and `Some(line)` |
| QmapResult.FromParser | src/qmap/result.rs:40-45 | a Parser error with the message and `Some(line)` |
| QmapResult.FromIo | src/qmap/result.rs:47-49 | an Io error whose display is the I/O error's text |
| QmapResult.Eof | src/qmap/result.rs:51-56 | a Parser error with no line, displayed as "Unexpected EOF" |
| QmapResult.ErrorDisplay | src/qmap/result.rs:59-67 | an Io error shows its text; the others show their line error's display |
| QmapResult.DisplayAgreesWithParseError | src/qmap/result.rs:25-67 | every `Error` displays as the corresponding `ParseError`, but the two end-of-file errors read differently |
| Lexer.MatchByte | src/qmap/lexer.rs:25-27 | a token matches byte `b` iff its text is exactly `[b]` |
| Lexer.MatchQuotedIsQuotedText | src/qmap/lexer.rs:29-33 | a token matches as quoted iff its text is some (possibly empty) inner text between two quotes |
| Lexer.StateStep | src/qmap/lexer.rs:131-216 | one state function on a non-NUL byte keeps the pending text in the shape of its state; a token is emitted exactly when a Quoted or Unquoted state returns to Default, it is well formed, and it carries the current line |
| Lexer.NextLine | src/qmap/lexer.rs:82-85 | the line counter's saturating increment: one more, unless that would leave `u64` |
| Lexer.Step | src/qmap/lexer.rs:77-88 | after a non-NUL byte the machine stays well formed and remembers that byte as the last one |
| Lexer.ByteStep | src/qmap/lexer.rs:70-91 | a NUL byte yields the Lexer error "Null byte" at the current line and leaves the machine unchanged; any token yielded is well formed |
| Lexer.Run | src/qmap/lexer.rs:118-128 | feeding bytes keeps the machine well formed, yields well-formed tokens only, and at most one item per byte |
| Lexer.EofItems | src/qmap/lexer.rs:93-112 | at end of input: no pending text yields nothing; an open quoted token is "Missing closing quote" at the current line; an open unquoted token is the last token, at the current line |
| Lexer.Pending | src/qmap/lexer.rs:118-128 | what a machine still yields on some bytes and end of input consists of well-formed tokens |
| Lexer.Lex | src/qmap/lexer.rs:59-68 | the whole token stream of an input read from the start state (Default, no text, line 1) |
| Lexer.RunAppend | src/qmap/lexer.rs:118-128 | feeding `s` then `t` is feeding `s + t`: the items are concatenated |
| Lexer.RunCons | src/qmap/lexer.rs:118-128 | one byte of a run: its item, then the run from the machine after it |
| Lexer.PendingCons | src/qmap/lexer.rs:118-128 | what remains is the next byte's item followed by what the machine after it yields |
| Lexer.PendingAppend | src/qmap/lexer.rs:118-128 | what remains after `s + t` is the items of `s` followed by what remains for `t` |
| Lexer.RunOne | src/qmap/lexer.rs:118-128 | a one-byte run is that byte's step |
| Lexer.NullByteIsSkipped | src/qmap/lexer.rs:70-75 | a NUL byte inserted anywhere adds exactly the "Null byte" error at the current line and otherwise leaves the stream and machine as if it were absent |
| Lexer.NulFreeRunHasNoErrors | src/qmap/lexer.rs:70-91 | without NUL bytes no item is an error before end of input |
| Lexer.NulFreeLexFailsAtMostAtEnd | src/qmap/lexer.rs:93-112 | for a NUL-free input only the last item can be an error, and that error is "Missing closing quote" |
| Lexer.LineCount | src/qmap/lexer.rs:79-88 | after a NUL-free input the line counter is the starting line plus the line breaks counted (LF, or any byte after CR), saturating, and the last byte is remembered |
| Lexer.RunSnoc | src/qmap/lexer.rs:118-128 | the last byte of a run, spelled out |
| Lexer.CrLfCountsOnce | src/qmap/lexer.rs:79-81 | a CR LF pair adds exactly one line |
| Lexer.NoBreaksWithoutNewlines | src/qmap/lexer.rs:79-81 | bytes other than CR and LF, not following a CR, add no line |
| Lexer.StaysOnLineOne | src/qmap/lexer.rs:79-88 | without CR or LF the counter stays on line 1 |
| Lexer.StartLine | src/qmap/lexer.rs:65 | an input with no line breaks leaves the counter at its starting value 1 |
| Lexer.DefaultState | src/qmap/lexer.rs:131-149 | in Default, whitespace is skipped, `"` opens a quoted token with text `"`, `/` moves to MaybeComment with no text, any other byte opens an unquoted token; nothing is emitted |
| Lexer.CommentRunsToLineEnd | src/qmap/lexer.rs:151-159 | a comment swallows every byte up to the next CR or LF, emitting nothing, and that byte returns to Default |
| Lexer.LoneSlash | src/qmap/lexer.rs:161-175 | after a lone `/`, the next byte (whitespace included) makes the unquoted text `/` + byte |
| Lexer.SlashAtEnd | src/qmap/lexer.rs:93-112 | a `/` at end of input produces no token |
| Lexer.RunUnquotedWord | src/qmap/lexer.rs:197-216 | a word without whitespace read from Default stays pending as the unquoted text, emitting nothing |
| Lexer.UnquotedTokenEndsAtWhitespace | src/qmap/lexer.rs:197-205 | an unquoted token ends at whitespace, which it does not include, and carries the line then current |
| Lexer.RunQuotedBody | src/qmap/lexer.rs:177-195 | inside a quoted token every byte but `"` is kept, whitespace and line breaks included |
| Lexer.QuotedToken | src/qmap/lexer.rs:177-195 | a quoted token keeps everything up to and including its closing quote, and is the only item |
| Lexer.RunWhitespace | src/qmap/lexer.rs:131-132 | whitespace between tokens yields nothing |
| Lexer.UnclosedQuoteIsReported | src/qmap/lexer.rs:93-102 | a word, a space and an unclosed quote lex as the word then "Missing closing quote", both on line 1 |
| Lexer.WordThenQuote | src/qmap/lexer.rs:197-205 | a word, a space and a quote yield the word on line 1 and leave the machine in Quoted |
| Lexer.TokenIterator.constructor | src/qmap/lexer.rs:59-68 | `new`: Default, no text, no byte, line 1, and what remains to yield is the whole stream `Lex(input)` |
| Lexer.TokenIterator.LexDefault | src/qmap/lexer.rs:131-149 | the fields change as the Default step says |
| Lexer.TokenIterator.LexComment | src/qmap/lexer.rs:151-159 | the fields change as the Comment step says |
| Lexer.TokenIterator.LexMaybeComment | src/qmap/lexer.rs:161-175 | the fields change as the MaybeComment step says |
| Lexer.TokenIterator.LexQuoted | src/qmap/lexer.rs:177-195 | the fields change as the Quoted step says |
| Lexer.TokenIterator.LexUnquoted | src/qmap/lexer.rs:197-216 | the fields change as the Unquoted step says |
| Lexer.TokenIterator.ByteRead | src/qmap/lexer.rs:70-91 | the new fields and the result are those of `ByteStep` on the old fields |
| Lexer.TokenIterator.EofRead | src/qmap/lexer.rs:93-112 | the pending text is taken, and the result is `EofItems` of the old fields |
| Lexer.TokenIterator.ReadOne | src/qmap/lexer.rs:120-123 | one more byte is taken, and what it yields comes off the front of what remained |
| Lexer.TokenIterator.ReadEnd | src/qmap/lexer.rs:124-126 | with the reader exhausted, the result is all that remained, and nothing remains |
| Lexer.TokenIterator.Next | src/qmap/lexer.rs:118-128 | `next` returns the first remaining item and drops it, or `None` when nothing remains |
| OldLexer.MatchByte | src/lexer.rs:16-18 | a token matches byte `b` iff its text is `[b]`, the same rule as the map tokenizer's |
| OldLexer.MatchQuoted | src/lexer.rs:20-24 | the quoted rule is the map tokenizer's: at least two bytes, the first and the last a quote |
| OldLexer.IsWhitespace | src/lexer.rs:51-54 | whitespace is exactly the ASCII whitespace bytes other than form feed: space, tab, LF and CR |
| OldLexer.Transition | src/lexer.rs:56-124 | one closure keeps the pending text in the shape of its state; a token is pushed exactly when a Quoted or Unquoted state returns to Default, and it carries the current line |
| OldLexer.Feed | src/lexer.rs:126-142 | one turn of the loop keeps the cells well formed, remembers the byte, and adds one line iff the byte is LF or follows a CR |
| OldLexer.Scan | src/lexer.rs:126-142 | the cells after any bytes are well formed: pending text exactly in the two token states, of their shape |
| OldLexer.ScanTokensClosed | src/lexer.rs:126-142 | every token the loop queues is a word or a quoted text closed by its quote |
| OldLexer.Lex | src/lexer.rs:43-154 | the `for` loop over the bytes, then the pending text, returns exactly `Tokens(input)` |
| OldLexer.ScanAppend | src/lexer.rs:126-153 | reading `s` then `t` is reading `s + t`; tokens queue in input order |
| OldLexer.ScanOne | src/lexer.rs:126-142 | reading one byte is one turn of the loop |
| OldLexer.LineCount | src/lexer.rs:137-141 | the line counter after any input is the starting line plus the breaks counted (LF, or any byte after CR), and the last byte is remembered |
| OldLexer.QuotedBody | src/lexer.rs:95-108 | inside a quoted token every byte but `"` is kept, whitespace and line breaks included |
| OldLexer.QuotedToken | src/lexer.rs:95-108 | a quoted token keeps everything up to and including its closing quote |
| OldLexer.UnclosedQuoteIsLastToken | src/lexer.rs:144-151 | an unclosed quoted text is not an error: it becomes the last token, at the line the input ends on |
| OldLexer.CommentRunsToLineEnd | src/lexer.rs:75-80 | a comment swallows every byte up to the next CR or LF |
| OldLexer.CommentEnds | src/lexer.rs:75-80 | the CR or LF after a comment returns to Default and yields nothing |
| OldLexer.LoneSlash | src/lexer.rs:82-93 | a lone `/` and the byte after it, whitespace or quote included, open the unquoted text `/` + byte |
| OldLexer.SlashAtEnd | src/lexer.rs:144-151 | a `/` that ends the input adds no token |
| OldLexer.WordStaysPending | src/lexer.rs:110-124 | a word without whitespace stays pending as an unquoted token |
| OldLexer.WordEndsAtWhitespace | src/lexer.rs:110-120 | an unquoted token ends at whitespace, which it does not include, and carries the line then current |
| OldLexer.FormFeedAndNulAreWords | src/lexer.rs:51-54 | a form feed and a NUL are each a one-byte token here, where the map tokenizer skips the form feed and reports the NUL |
| Parser.WellFormedAreLexemes | src/qmap/lexer.rs:131-216 | every token the lexer yields is non-empty, NUL-free, and two bytes long at least when it starts with a quote, which is all the parser relies on |
| Parser.Extract | src/qmap/parser.rs:24-26 | `extract` is no token exactly at the end of the stream, the token at the position, or the error item found there |
| Parser.ExpectByte | src/qmap/parser.rs:225-238 | succeeds iff the token is exactly `b`; no token is the end-of-file error; any other token is "Expected `b`, got `text`" at that token's line |
| Parser.ExpectByteOr | src/qmap/parser.rs:240-267 | succeeds iff the token is exactly `b`; no token is end-of-file; any other token is "Expected <the other bytes> or `b`, got `text`" at its line |
| Parser.ExpectQuoted | src/qmap/parser.rs:269-278 | succeeds iff the token matches as quoted; no token is end-of-file; any other is "Expected quoted, got `text`" at its line |
| Parser.ExpectFloat | src/qmap/parser.rs:280-291 | the number the token's text reads as, or "Expected number, got `text`" at its line; no token is end-of-file |
| Parser.StripQuoted | src/qmap/parser.rs:293-295 | drops exactly the first and the last byte, and keeps a NUL-free text NUL-free |
| Parser.StripQuotedUndoesQuoting | src/qmap/parser.rs:293-295 | stripping a quoted text gives back the inner text |
| Parser.ByteAt | src/qmap/parser.rs:225-238 | succeeds iff the token at the position is exactly `b`, and then moves past it |
| Parser.FloatsAt | src/qmap/parser.rs:167-177 | `n` numbers in a row: exactly `n` values, and the position moves past `n` tokens |
| Parser.PointAt | src/qmap/parser.rs:167-177 | `parse_point` consumes exactly five tokens when it succeeds |
| Parser.LegacyAlignmentAt | src/qmap/parser.rs:179-194 | the legacy dialect consumes five tokens and has no axes |
| Parser.BracketAt | src/qmap/parser.rs:199-211 | one bracket of the Valve dialect: four numbers over six tokens |
| Parser.ValveAlignmentAt | src/qmap/parser.rs:196-223 | the Valve dialect consumes fifteen tokens and has axes |
| Parser.TextureOf | src/qmap/parser.rs:144-148 | a texture token starting with `"` loses its first and last byte; any other is kept whole |
| Parser.SurfaceAt | src/qmap/parser.rs:133-165 | a parsed surface consumes at least one token and stays in the stream |
| Parser.SurfacesFrom | src/qmap/parser.rs:121-127 | the surface loop ends at or after its start, within the stream |
| Parser.SurfaceThen | src/qmap/parser.rs:122-123 | one more surface and the rest move strictly forward |
| Parser.BrushAt | src/qmap/parser.rs:115-131 | a parsed brush consumes at least one token |
| Parser.CloseBrush | src/qmap/parser.rs:129-130 | a brush closes only after its surfaces parse, and consumes exactly the closing token |
| Parser.BrushesFrom | src/qmap/parser.rs:99-113 | the brush loop ends at or after its start, within the stream |
| Parser.EdictFrom | src/qmap/parser.rs:72-97 | the edict loop ends at or after its start, within the stream |
| Parser.EdictPairThen | src/qmap/parser.rs:83-90 | a quoted key and its value consume two tokens at least |
| Parser.EntityAt | src/qmap/parser.rs:59-70 | a parsed entity consumes at least one token |
| Parser.SurfacesStop | src/qmap/parser.rs:121-127 | the surfaces end where the next token is not `(`, or at the end |
| Parser.BrushOpens | src/qmap/parser.rs:119 | a brush that opens with `{` is its surfaces from the next token, closed |
| Parser.SurfacesStep | src/qmap/parser.rs:122-123 | a surface at `(` is appended and the loop continues after it, or its failure ends the brush |
| Parser.ParseBrush | src/qmap/parser.rs:115-131 | the `while let` loop of `parse_brush` returns exactly `BrushAt` |
| Parser.ParseBrushes | src/qmap/parser.rs:99-113 | the loop of `parse_brushes` returns exactly `BrushesFrom` |
| Parser.ParseEdict | src/qmap/parser.rs:72-97 | the loop of `parse_edict`, inserting each pair into the map, returns exactly `EdictFrom` from an empty edict |
| Parser.ParseEntity | src/qmap/parser.rs:59-70 | `parse_entity` returns exactly `EntityAt` |
| Parser.Parse | src/qmap/parser.rs:47-57 | the loop of `parse` returns exactly `ParseTokens`: entities parsed while any item remains |
| ParserProperties.EntitiesKeepPrefix | src/qmap/parser.rs:51-54 | every entity parsed stays in the map after the ones before it, and an item left over adds at least one entity |
| ParserProperties.EmptyStreamHasNoEntities | src/qmap/parser.rs:47-57 | an empty token stream is a map with no entities; a successful parse of a non-empty stream has at least one |
| ParserProperties.EmptyTextIsEmptyMap | src/qmap/parser.rs:47-57 | the empty text parses to the map with no entities |
| ParserProperties.ExpectedMessageIs | src/qmap/parser.rs:229-233 | the message of a failed expectation spelled out |
| ParserProperties.EntityMustOpen | src/qmap/parser.rs:59-62 | an entity opened by any token but `{` fails with "Expected `{`, got `text`" at that token's line |
| ParserProperties.EntityParts | src/qmap/parser.rs:59-70 | an entity is `{`, an edict, brushes and the result of expecting `}` |
| ParserProperties.ByteMismatch | src/qmap/parser.rs:225-235 | a token other than `b` is reported with its text and line |
| ParserProperties.EntityMustClose | src/qmap/parser.rs:59-70 | after the edict and brushes, any token but `}` fails with "Expected `}`, got `text`" at its line |
| ParserProperties.CloseBrushMismatch | src/qmap/parser.rs:240-267 | a brush closer other than `}` is "Expected `(` or `}`, got `text`" at its line |
| ParserProperties.BrushMustClose | src/qmap/parser.rs:121-129 | after its surfaces, a brush closed by anything but `}` fails with "Expected `(` or `}`, got `text`" |
| ParserProperties.EmptyBrushParses | src/qmap/parser.rs:115-131 | `{` followed by `}` is a brush with no surfaces: no minimum count |
| ParserProperties.InsertPairsKeys | src/qmap/parser.rs:90 | a key is in the edict iff it was there before or some pair has it |
| ParserProperties.InsertPairsUntouched | src/qmap/parser.rs:90 | pairs without a key leave its entry as it was |
| ParserProperties.InsertPairsLastWins | src/qmap/parser.rs:90 | the last pair with a key decides its value |
| ParserProperties.PairsAt | src/qmap/parser.rs:77-94 | `n` pairs at a position, each with its quotes stripped |
| ParserProperties.PairsAtIndex | src/qmap/parser.rs:83-89 | pair `j` is made of the tokens at `pos + 2j` and `pos + 2j + 1`, stripped |
| ParserProperties.EdictStep | src/qmap/parser.rs:83-90 | one pair: the key and value stripped and inserted, and the loop continues two tokens on |
| ParserProperties.InsertPairsCons | src/qmap/parser.rs:90 | inserting pairs is inserting the first, then the rest |
| ParserProperties.InsertPairsAt | src/qmap/parser.rs:77-94 | inserting the pairs at a position is inserting the first one, then the others |
| ParserProperties.EdictAfterInsertsPairs | src/qmap/parser.rs:77-94 | the loop's pair-by-pair insertion is inserting the stripped pairs in order |
| ParserProperties.EdictAfterStep | src/qmap/parser.rs:77-94 | the first of `n` pairs, then the other `n - 1` |
| ParserProperties.EdictTakesPairs | src/qmap/parser.rs:77-94 | the edict loop inserts every quoted pair it passes over, in order |
| ParserProperties.EdictStop | src/qmap/parser.rs:91-93 | the edict loop stops at a token that is not quoted, or at the end |
| ParserProperties.EdictEndsAfterPairs | src/qmap/parser.rs:77-97 | an edict of `n` quoted pairs ends two tokens per pair on, at the first unquoted token |
| ParserProperties.EdictAfterKeys | src/qmap/parser.rs:77-94 | the keys of the edict are exactly the stripped keys of its pairs |
| ParserProperties.EdictAfterLastValue | src/qmap/parser.rs:77-94 | a key's value is the value of its last pair |
| ParserProperties.EdictAfterLastWins | src/qmap/parser.rs:77-94 | the keys are the keys of the pairs, and a later duplicate key overwrites an earlier one |
| ParserProperties.EdictIsLastValueOfEachKey | src/qmap/parser.rs:72-97 | `parse_edict` over `n` quoted pairs succeeds, ends after them, holds exactly their keys, and each key has the value of its last pair |
| ParserProperties.EdictValueMustBeQuoted | src/qmap/parser.rs:269-278 | a quoted key followed by a token that is not quoted fails with "Expected quoted, got `text`" at that token's line |
| ParserProperties.FloatsAreTokenNumbers | src/qmap/parser.rs:280-291 | each of `n` numbers read in a row is what its own token denotes |
| ParserProperties.LegacyAlignmentNumbers | src/qmap/parser.rs:179-194 | the legacy dialect is two offsets, the rotation and two scales, in that order, with no axes |
| ParserProperties.BracketNumbers | src/qmap/parser.rs:199-204 | one Valve bracket: its four numbers are the tokens inside it |
| ParserProperties.ValveAlignmentNumbers | src/qmap/parser.rs:196-223 | the Valve axes are the first three numbers in each bracket, the offsets the fourth, then rotation and two scales |
| ParserProperties.TextureStripsQuotes | src/qmap/parser.rs:144-148 | a quoted texture token is its texture between a quote and its last byte; any other is the texture |
| ParserProperties.SurfaceDialect | src/qmap/parser.rs:150-158 | a parsed surface has axes iff the token after its texture is `[` |
| ParserProperties.SurfaceCutAfterTexture | src/qmap/parser.rs:150-158 | a stream that ends right after a surface's texture is the end-of-file error, with no line |
| Repr.Kind | src/qmap/repr.rs:109-115 | an entity is a point entity iff it has no brushes |
| Repr.EnumerationExists | src/qmap/repr.rs:152-163 | every edict has an order listing each key exactly once, so taking the `HashMap`'s walk order as a parameter excludes no document |
| Repr.Then | src/qmap/repr.rs:198-200 | `a?; b` fails iff either fails, with the first failure |
| Repr.FirstError | src/qmap/repr.rs:81-86 | a loop of checks with `?` succeeds iff every element's check does |
| Repr.FirstErrorIsFirstFailure | src/qmap/repr.rs:81-86 | such a loop reports the error of the first failing element, with every element before it passing |
| Repr.FirstErrorAppend | src/qmap/repr.rs:81-86 | the first error of a concatenation is the first part's, or else the second's |
| Repr.CheckF64 | src/qmap/repr.rs:357-363 | a number passes iff it is finite; otherwise "Non-finite number (x)" with the number's display text |
| Repr.CheckArray | src/qmap/repr.rs:349-355 | an array passes iff every element is finite |
| Repr.ArrayErrorIsFirstNonFinite | src/qmap/repr.rs:349-355 | a failing array reports its first non-finite element |
| Repr.CharDebug | src/qmap/repr.rs:384-387 | `{:?}` of the three forbidden characters: `'"'`, `'\r'`, `'\n'` |
| Repr.CheckQuoted | src/qmap/repr.rs:379-392 | a quote-wrapped string passes iff it holds no `"`, CR or LF |
| Repr.QuotedErrorNamesFirstBadByte | src/qmap/repr.rs:379-392 | a failing string's message names its first `"`, CR or LF |
| Repr.CheckUnquoted | src/qmap/repr.rs:394-412 | a bare string passes iff it is non-empty, does not start with `"` and holds no ASCII whitespace; the error is for emptiness, then a leading quote, then whitespace |
| Repr.EscapeByte | src/qmap/repr.rs:373-374 | one byte of `{:?}` of a `CStr`: printable ASCII other than quotes and backslash stands for itself; others are escaped in at most four characters |
| Repr.CStrDebug | src/qmap/repr.rs:373-374 | `{:?}` of a `CStr` is its escaped text between double quotes |
| Repr.CheckTextureAsWritten | src/qmap/repr.rs:365-377 | as the source has it: a texture passes iff it is bare-writable or quote-writable; otherwise "Cannot write texture ..., not quotable and contains whitespace" |
| Repr.CheckTexture | src/qmap/repr.rs:365-377 | corrected: a texture passes iff it is bare-writable and does not read as a comment, or is quote-writable; same message otherwise |
| Repr.CheckTextureDiffers | src/qmap/repr.rs:365-377 | the correction rejects exactly the names that read as a comment bare and cannot be quoted |
| Repr.CheckTextureBy | src/qmap/repr.rs:365-377 | under `AsWritten` a texture passes exactly as `check_writable_texture` decides, under `Corrected` as the corrected rule decides; the same message otherwise |
| Repr.Coordinates | src/qmap/repr.rs:208 | the nine coordinates in the order `iter().flatten()` visits them |
| Repr.CheckHalfSpace | src/qmap/repr.rs:206-214 | a half-space passes iff all nine coordinates are finite |
| Repr.HalfSpaceErrorIsFirstNonFinite | src/qmap/repr.rs:206-214 | a failing half-space reports its first non-finite coordinate, point by point |
| Repr.CheckAlignment | src/qmap/repr.rs:263-277 | an alignment passes iff offsets, rotation, scales and (when present) both axes are finite |
| Repr.AlignmentErrorOrder | src/qmap/repr.rs:263-277 | offsets are checked first, then rotation, scales, axis u and axis v; the first failure is reported |
| Repr.CheckSurface | src/qmap/repr.rs:196-202 | under either texture rule, a surface passes iff its half-space, its texture under that rule and its alignment do |
| Repr.SurfaceErrorOrder | src/qmap/repr.rs:196-202 | under either texture rule, a bad half-space is reported before a bad texture, and a bad texture before a bad alignment |
| Repr.CheckBrush | src/qmap/repr.rs:167-175 | under either texture rule, a brush passes iff every surface does |
| Repr.BrushErrorIsFirstBadSurface | src/qmap/repr.rs:167-175 | under either texture rule, a failing brush reports its first failing surface |
| Repr.Pairs | src/qmap/repr.rs:156 | the edict's pairs in the walk order |
| Repr.CheckEdict | src/qmap/repr.rs:154-163 | an edict passes iff every key and every value is quote-writable, whatever the walk order |
| Repr.EdictErrorIsFirstBadPair | src/qmap/repr.rs:154-163 | a failing edict reports the first pair in the walk order whose key or value fails, key before value |
| Repr.CheckEntity | src/qmap/repr.rs:140-150 | under either texture rule, an entity passes iff its edict and all its brushes do |
| Repr.EntityErrorOrder | src/qmap/repr.rs:140-150 | under either texture rule, a bad edict is reported first, and otherwise the first bad brush |
| Repr.CheckEntities | src/qmap/repr.rs:79-87 | under either texture rule, a list of entities passes iff every entity does |
| Repr.CheckMap | src/qmap/repr.rs:79-87 | under either texture rule, `QuakeMap::check_writable` succeeds iff every entity does |
| Repr.EntitiesErrorIsFirstBadEntity | src/qmap/repr.rs:79-87 | under either texture rule, a failing list of entities reports the first failing entity's error, every entity before it passing |
| Repr.MapErrorIsFirstBadEntity | src/qmap/repr.rs:79-87 | under either texture rule, a failing map reports its first failing entity's error |
| Repr.CheckPassesInAnyOrder | src/qmap/repr.rs:154-163 | under either texture rule, whether a map passes does not depend on the edicts' walk orders |
| Repr.SurfaceRulesAgree | src/qmap/repr.rs:196-202 | a surface whose texture does not read as a comment gets the same result from both texture rules |
| Repr.EntityCorrectedIsStricter | src/qmap/repr.rs:140-150 | an entity that passes under the corrected rule passes under the source's |
| Repr.CorrectedCheckIsStricter | src/qmap/repr.rs:79-87 | a map that passes under the corrected rule passes `check_writable` as the source has it |
| Repr.ValidTextureIsReadable | src/qmap/repr.rs:326-347 | a texture that passes is written bare only when it is non-empty, has no whitespace, does not start with `"` and does not read as a comment, and quoted only when it holds no `"`, CR or LF |
| MapWriter.WriteErrorDisplay | src/qmap/repr.rs:38-46 | a validation error shows as "Validation: " and its message, an I/O error as "I/O: " and its text |
| MapWriter.Sink.constructor | src/qmap/repr.rs:71 | an empty writer |
| MapWriter.Sink.WriteAll | src/qmap/repr.rs:121 | `write_all` appends exactly its bytes to what was written |
| MapWriter.PointWords | src/qmap/repr.rs:309-317 | a point is five words: `(`, three numbers, `)` |
| MapWriter.HalfSpaceWords | src/qmap/repr.rs:305-323 | a half-space is fifteen words |
| MapWriter.AlignmentWords | src/qmap/repr.rs:226-260 | the legacy alignment is five words, the Valve 220 form fifteen |
| MapWriter.SurfaceWords | src/qmap/repr.rs:186-193 | under either texture rule, a surface line is the fifteen half-space words, the texture as that rule writes it, and the alignment's words |
| MapWriter.SurfaceWordsRulesAgree | src/qmap/repr.rs:186-193 | a surface whose texture does not read as a comment is written alike under both texture rules |
| MapWriter.JoinAppend | src/qmap/repr.rs:186-193 | two word lists joined are joined by one space |
| MapWriter.PairLayout | src/qmap/repr.rs:280-289 | an edict pair is written as `"key" "value"` and CR LF |
| MapWriter.PairWrites | src/qmap/repr.rs:282-286 | the five writes of one pair append exactly its line |
| MapWriter.PointLayout | src/qmap/repr.rs:309-317 | a point is written as `( x y z )` |
| MapWriter.EmptyMapText | src/qmap/repr.rs:71-76 | under either texture rule, an empty map writes nothing |
| MapWriter.WriteTexture | src/qmap/repr.rs:326-347 | appends the name, in quotes when it is empty or holds whitespace (`AsWritten`, the source), or also when it would read as a comment (`Corrected`) |
| MapWriter.HalfSpaceJoin | src/qmap/repr.rs:309-322 | the points written one by one, a space between them, are the half-space's words joined |
| MapWriter.PointText | src/qmap/repr.rs:310-316 | `( `, each number and a space, and `)` are the point's words joined |
| MapWriter.WriteHalfSpace | src/qmap/repr.rs:305-323 | appends `( x y z ) ( x y z ) ( x y z )` |
| MapWriter.PointWrites | src/qmap/repr.rs:310-316 | the writes of one point append its words joined |
| MapWriter.WriteAlignment | src/qmap/repr.rs:226-260 | appends the five legacy numbers, or `[ u0 u1 u2 ox ] [ v0 v1 v2 oy ] r sx sy` |
| MapWriter.WriteSurface | src/qmap/repr.rs:186-193 | under either texture rule, appends the half-space, a space, the texture as that rule writes it, a space and the alignment |
| MapWriter.WriteBrush | src/qmap/repr.rs:292-302 | under either texture rule, appends `{` CR LF, each surface and CR LF, then `}` CR LF |
| MapWriter.SurfacesTextStep | src/qmap/repr.rs:295-298 | under either texture rule, one more surface adds its line and CR LF |
| MapWriter.BrushTextParts | src/qmap/repr.rs:292-302 | under either texture rule, a brush's text is its opening line, the surfaces and its closing line |
| MapWriter.WritePair | src/qmap/repr.rs:282-286 | appends one pair's line |
| MapWriter.WriteEdict | src/qmap/repr.rs:280-289 | appends one `"k" "v"` CR LF line per key, in the walk order |
| MapWriter.WriteEntity | src/qmap/repr.rs:118-131 | under either texture rule, an entity that fails validation returns its validation error and writes zero bytes; one that passes appends `{` CR LF, the edict, the brushes, `}` CR LF |
| MapWriter.WriteBrushes | src/qmap/repr.rs:125-127 | under either texture rule, the sink gains each brush's text in turn, in the entity's order |
| MapWriter.EntityTextParts | src/qmap/repr.rs:121-129 | under either texture rule, an entity's text is its opening line, the edict, the brushes and its closing line |
| MapWriter.WriteMap | src/qmap/repr.rs:71-76 | under either texture rule, `QuakeMap::write_to` appends each entity's text in order up to the first failing entity and returns that entity's error, or succeeds |
| MapWriter.OutcomeThroughPassing | src/qmap/repr.rs:72-74 | under either texture rule, entities that pass move their texts from what is still to be written into what has been written |
| MapWriter.ValidMapIsWrittenWhole | src/qmap/repr.rs:71-76 | under either texture rule, a map that passes validation is written whole and the write succeeds |
| MapWriter.InvalidMapStopsAtFirstBadEntity | src/qmap/repr.rs:71-76 | under either texture rule, a failing map leaves exactly the texts of the entities before the first failing one, and reports that entity's validation error, which is the map's |
| MapWriter.PointEntityLayout | src/qmap/repr.rs:121-129 | under either texture rule, a point entity is written as `{` CR LF, its pairs, `}` CR LF |
| Roundtrip.CommentTextureIsLost | src/qmap/repr.rs:326-347 | as written: the texture `//` passes `check_writable_texture` and is written bare, and the lexer then reads it and the space after it as an open comment, yielding no token |
| Roundtrip.LoneSlashTextureRunsOn | src/qmap/lexer.rs:161-175 | as written: the texture `/` passes `check_writable_texture` and is written bare, and the lexer then takes the space after it into an open unquoted token `/ `, so the next word joins the texture |
| Roundtrip.QuotedNameLexes | src/qmap/repr.rs:334-344 | a quotable name between quotes, then whitespace, lexes as exactly one token of that quoted text |
| Roundtrip.QuotedTextStrips | src/qmap/parser.rs:144-148 | a token whose text is a quotable name between quotes gives back that name as the texture |
| Roundtrip.QuotedNameReadsBack | src/qmap/repr.rs:334-344 | a quoted name written and read back is one token whose texture is the name |
| Roundtrip.TextureReadsBack | src/qmap/repr.rs:326-347 | corrected: every texture that passes validation, written with the corrected quoting rule and followed by whitespace, is read back as one token naming the same texture |
| MapRoundtrip.SurfacesTextIsLines | src/qmap/repr.rs:295-298 | with the corrected texture rule, a brush's surface text is one line of words per surface, each joined by spaces and ended by CR LF |
| MapRoundtrip.BrushTextIsLines | src/qmap/repr.rs:292-303 | with the corrected texture rule, a brush's text is the line `{`, its surface lines and the line `}` |
| MapRoundtrip.BrushesTextIsLines | src/qmap/repr.rs:125-127 | with the corrected texture rule, an entity's brushes text is each brush's lines in turn |
| MapRoundtrip.PairsTextIsLines | src/qmap/repr.rs:280-290 | the edict text is one line `"k" "v"` per key, in the walk order |
| MapRoundtrip.EntityTextIsLines | src/qmap/repr.rs:118-131 | with the corrected texture rule, an entity's text is the line `{`, its pair lines, its brush lines and the line `}` |
| MapRoundtrip.EntitiesTextIsLines | src/qmap/repr.rs:71-76 | with the corrected texture rule, the map text is the lines of each entity in turn |
| MapRoundtrip.WordLexes | src/qmap/lexer.rs:131-215 | a word the writer emits, followed by whitespace, lexes from the default state as exactly one token of that text and leaves the lexer in the default state |
| MapRoundtrip.QuotedWordLexes | src/qmap/lexer.rs:177-195 | a quoted name followed by whitespace lexes as exactly one token of that text |
| MapRoundtrip.LineLexes | src/qmap/lexer.rs:131-215 | a line of such words joined by spaces and ended by CR LF lexes as exactly its words, in order, back in the default state |
| MapRoundtrip.LinesLex | src/qmap/lexer.rs:131-215 | a sequence of such lines lexes as all their words, in order |
| MapRoundtrip.LexLines | src/qmap/lexer.rs:93-128 | the whole token stream of such lines, from the start state to the end of input, is exactly their words and holds no error |
| MapRoundtrip.NumberLexable | src/qmap/repr.rs:305-324 | with display agreeing with parsing, every finite number's text is a bare word the lexer reads as itself |
| MapRoundtrip.TextureLexable | src/qmap/repr.rs:326-347 | every texture the corrected check accepts is written as a word the lexer reads as itself |
| MapRoundtrip.SurfaceLineGood | src/qmap/repr.rs:186-193 | with the corrected texture rule, every word of a writable surface's line is one the lexer reads as itself |
| MapRoundtrip.EntityLinesGood | src/qmap/repr.rs:118-131 | with the corrected texture rule, every word of a writable entity's lines is one the lexer reads as itself |
| MapRoundtrip.EntitiesLinesGood | src/qmap/repr.rs:71-76 | with the corrected texture rule, every word of a map that passes the corrected check is one the lexer reads as itself |
| MapRoundtrip.FloatsRead | src/qmap/parser.rs:280-291 | the texts of finite numbers read back, one token each, as those numbers |
| MapRoundtrip.PointRead | src/qmap/parser.rs:167-177 | a written point `( x y z )` reads back as that point, five tokens on |
| MapRoundtrip.HalfSpaceRead | src/qmap/parser.rs:136-140 | a written half-space reads back as its three points, fifteen tokens on |
| MapRoundtrip.LegacyRead | src/qmap/parser.rs:179-194 | a written standard alignment reads back as that alignment, five tokens on |
| MapRoundtrip.BracketRead | src/qmap/parser.rs:196-223 | a written `[ a b c d ]` reads back as its four numbers, six tokens on |
| MapRoundtrip.ValveRead | src/qmap/parser.rs:196-223 | a written Valve 220 alignment reads back as that alignment, fifteen tokens on |
| MapRoundtrip.AlignmentRead | src/qmap/parser.rs:150-158 | a written alignment starts with a token, and whichever branch the parser takes on whether it is `[` reads the alignment back, just past its words |
| MapRoundtrip.TextureTokenNames | src/qmap/parser.rs:142-148 | the token of a texture the corrected check accepts names that texture |
| MapRoundtrip.SurfaceRead | src/qmap/parser.rs:133-165 | with the corrected texture rule, a written surface reads back as that surface, just past its words |
| MapRoundtrip.SurfacesRead | src/qmap/parser.rs:115-131 | the surfaces of a written brush, followed by `}`, read back as the brush's surfaces, in order, up to the `}` |
| MapRoundtrip.BrushRead | src/qmap/parser.rs:115-131 | a written brush reads back as that brush, just past its `}` |
| MapRoundtrip.BrushesRead | src/qmap/parser.rs:99-113 | the brushes of a written entity, followed by `}`, read back as those brushes, in order, up to the `}` |
| MapRoundtrip.PairsQuoted | src/qmap/parser.rs:72-97 | a written edict is a run of quoted tokens whose pairs are each key and its value, in the walk order |
| MapRoundtrip.EdictAfterIsWritten | src/qmap/parser.rs:72-97 | reading those pairs into an empty edict gives back exactly the written edict |
| MapRoundtrip.EdictRead | src/qmap/parser.rs:72-97 | a written edict followed by a token that is not quoted reads back as that edict, just past its pairs |
| MapRoundtrip.EntityRead | src/qmap/parser.rs:59-70 | with the corrected texture rule, a written entity reads back as that entity, just past its `}` |
| MapRoundtrip.EntitiesRead | src/qmap/parser.rs:47-57 | when the tokens are exactly the written entities, the loop of `parse`, resumed after the first k of them with those k collected, ends with exactly the written entities, in order |
| MapRoundtrip.MapReadsBack | src/qmap/repr.rs:71-76 | with the corrected texture rule and display agreeing with parsing, every map that passes the check, written in any walk order of its edicts, is read back by `parse` as that same map |
| LegacyMap.Index | src/qmap/ast.rs:106-117 | indices 0, 1 and 2 give the three points in order; every other index panics with "Out of bounds" |
| LegacyMap.Replace | src/qmap/ast.rs:119-128 | a store through a mutable index returns exactly when the index is below 3, and panics otherwise |
| LegacyMap.ReplaceThenIndex | src/qmap/ast.rs:106-128 | after storing a point at index i, reading index i gives that point and every other index reads as before, including its panic |
| LegacyMap.AlignmentOf | src/qmap/ast.rs:149-156 | a Standard alignment has no texture axes; a Valve 220 one has both |
| LegacyMap.WriteHalfSpace | src/qmap/ast.rs:130-147 | the sink gains the three points, each `( x y z )`, separated by single spaces, as the validated writer lays them out |
| LegacyMap.WriteAlignment | src/qmap/ast.rs:158-179 | the sink gains the five Standard numbers, or the two bracketed axes, then rotation and scale, for Valve 220 |
| LegacyMap.WriteSurface | src/qmap/ast.rs:87-96 | the sink gains the half-space, a space, the texture bytes unquoted and unchecked, a space, and the alignment |
| LegacyMap.WriteBrush | src/qmap/ast.rs:67-79 | the sink gains `{` CR LF, each surface followed by CR LF, then `}` CR LF |
| LegacyMap.WritePair | src/qmap/ast.rs:54-60 | the sink gains `"key" "value"` and CR LF, the bytes copied as they are |
| LegacyMap.WriteEdict | src/qmap/ast.rs:52-63 | for any order that visits every key exactly once, the sink gains one pair line per key, in that order |
| LegacyMap.WriteEntity | src/qmap/ast.rs:31-48 | the sink gains `{` CR LF, the edict, the brushes (for a brush entity only), then `}` CR LF |
| LegacyMap.EntitiesTextStep | src/qmap/ast.rs:19-21 | the text of the first i + 1 entities is the text of the first i followed by entity i's |
| LegacyMap.WriteNextEntity | src/qmap/ast.rs:19-21 | one loop turn takes the written text from the first i entities to the first i + 1 |
| LegacyMap.WriteMap | src/qmap/ast.rs:17-24 | the sink gains every entity's text in order; nothing is validated, so every map is written whole |
| LegacyMap.HalfSpaceFrom | src/qmap/ast.rs:98 | every validated-model half-space has a legacy half-space with the same three points |
| LegacyMap.AlignmentFrom | src/qmap/ast.rs:149-156 | every validated-model alignment has a legacy alignment that maps back to it |
| LegacyMap.BrushFrom | src/qmap/ast.rs:65 | a validated brush becomes a legacy brush of the same surfaces, in the same order |
| LegacyMap.BrushesFrom | src/qmap/ast.rs:27 | a list of validated brushes becomes legacy brushes one by one, in the same order |
| LegacyMap.EntityFrom | src/qmap/ast.rs:26-29 | a validated entity becomes a legacy one with the same edict: a point entity when it has no brushes |
| LegacyMap.SurfaceAgrees | src/qmap/ast.rs:87-96 | a surface whose texture needs no quotes under a texture rule gets the same line from the legacy writer as from the validated one |
| LegacyMap.SurfacesAgree | src/qmap/ast.rs:71-74 | when no texture needs quotes, a brush's surface lines match the validated writer's |
| LegacyMap.BrushesAgree | src/qmap/ast.rs:37-39 | when no texture needs quotes under a texture rule, a run of brushes gets the same text from both writers |
| LegacyMap.PairsAgree | src/qmap/ast.rs:54-60 | in the same walk order, both writers produce the same pair lines |
| LegacyMap.EntityAgrees | src/qmap/ast.rs:31-48 | an entity whose textures need no quotes under a texture rule gets the same text from both writers under that rule, walked in the same order |
| Lump.Kind | src/lump/repr.rs:18-28 | each known lump kind has its own identifier byte: palette 0x40, status bar 0x42, mip texture 0x44, flat 0x45; an unknown lump has none, in both directions |
| Lump.PaletteOf | src/lump/parse.rs:61-65 | colour i, channel c of the palette is byte 3i + c of the 768 packed bytes |
| Lump.PaletteBytes | src/common/mod.rs:1 | a palette packs into three bytes per colour |
| Lump.PaletteBytesAt | src/common/mod.rs:1 | byte 3i + c of the packed palette is colour i's channel c |
| Lump.PaletteRoundTrip | src/lump/parse.rs:61-65 | packing any palette and reading it back gives the same palette |
| Lump.FromPixelsAsWritten | src/lump/repr.rs:38-50 | as written: returns iff there are fewer than 2^32 pixels, the width is positive and it divides the count, with width times height equal to the count; more pixels panic with "Too many pixels", and a zero width panics with division by zero |
| Lump.FromPixels | src/lump/repr.rs:38-50 | corrected: a zero width with no pixels gives the empty image; on every other input it agrees with the code as written |
| Lump.ZeroWidthImage | src/lump/repr.rs:41 | the constructor as written panics on a zero width with no pixels; the corrected one returns the 0 by 0 image and still refuses a zero width with pixels |
| Lump.FromPixelsOfRectangle | src/lump/repr.rs:38-50 | pixels whose count is width times height build that very image, for every width |
| Lump.HalvingFromMeans | src/lump/repr.rs:74-85 | the halving check from level l on holds iff every later level has half the width and half the height of the one before it |
| Lump.NewMipTexture | src/lump/repr.rs:73-88 | a texture is built iff each of the four levels is exactly twice the next in both width and height; otherwise the error is "Bad mipmaps" |
| Lump.Mip | src/lump/repr.rs:90-96 | indices below 4 give that level; any other index panics |
| Lump.OffsetsOf | src/lump/repr.rs:155-161 | the four level offsets are the little-endian u32s at bytes 24, 28, 32 and 36 of the head |
| Lump.HeadFrom | src/lump/repr.rs:117-170 | a head decodes iff its width and height are multiples of 8 and their product fits a u32; otherwise the error names the first check that failed, width before height before the size; a decoded head carries the name, width, height and offsets stored in the bytes |
| Lump.DecodeHead | src/lump/repr.rs:117-170 | the loop that fills the offsets one at a time returns exactly what the head decoder specifies |
| Lump.HeadBytes | src/lump/repr.rs:108-115 | a head packs into 40 bytes |
| Lump.HeadBytesFields | src/lump/repr.rs:108-115 | the packed head holds the 16-byte name, then width, height and the four offsets as little-endian u32s at their fixed places |
| Lump.HeadRoundTrip | src/lump/repr.rs:117-170 | every head that passes the checks decodes back from its own 40 bytes |
| Lump.DecodedHeadIsItsBytes | src/lump/repr.rs:117-170 | every 40 bytes that decode are exactly the packed form of the head they decode to |
| Lump.ShrBound | src/lump/parse.rs:44 | a right shift never increases a number |
| Lump.ShrOfMultiple | src/lump/parse.rs:55 | shifting 8a right by 0, 1, 2 and 3 gives 8a, 4a, 2a and a |
| Lump.ShrOfSquareMultiple | src/lump/parse.rs:44 | shifting 64p right by 0, 2, 4 and 6 gives 64p, 16p, 4p and p |
| Lump.ScaledProduct | src/lump/parse.rs:44 | for each of the four level scales c, (ca)(cb) equals c squared times ab |
| Lump.LevelProduct | src/lump/parse.rs:42-56 | for each of the four levels, (8a >> i)(8b >> i) equals 64ab >> 2i, so each level's pixel count is its width times its height |
| Lump.LevelIsRectangle | src/lump/parse.rs:38-55 | for a head that passes the checks, level i's pixel count `(width * height) >> 2i` is its width times its height and fits a u32; a level of zero width has zero height |
| Lump.LevelsHalve | src/lump/repr.rs:73-88 | the four levels that a head passing the checks describes always pass the halving check, whatever their pixels |
| Lump.LevelImage | src/lump/parse.rs:52-55 | for a head that passes the checks, a level's pixels build an image of that level's width and height |
| Lump.ZeroHeadPanicsAsWritten | src/lump/parse.rs:37-55 | as written: 40 zero bytes decode to a head of width 0, and building its first level with the constructor as written panics |
| LumpParse.InfoLength | src/lump/parse.rs:18-26 | the length is none iff nothing is known; otherwise it is the entry's stored length or the length given |
| LumpParse.LengthsOf | src/lump/parse.rs:38-44 | the four level lengths are `(width * height) >> 2i` |
| LumpParse.LevelAt | src/lump/parse.rs:43-53 | a level is read iff its `length` bytes at the lump start plus its offset lie within the source, and then it is exactly those bytes; otherwise the error is "Bad offset" or end-of-file |
| LumpParse.PixelsBefore | src/lump/parse.rs:42-56 | reading the first n levels gives n byte strings, or one of the two level errors |
| LumpParse.PixelsOf | src/lump/parse.rs:52-53 | the bytes of a level that lies within the source have the level's length |
| LumpParse.PixelsBeforeReads | src/lump/parse.rs:42-56 | when the first n levels are read, level k lies within the source and its pixels are exactly its bytes |
| LumpParse.PixelsBeforeSucceeds | src/lump/parse.rs:42-56 | the first n levels are read iff every one of them lies within the source |
| LumpParse.FirstFailureStands | src/lump/parse.rs:46-53 | the first level that fails decides the error; no later level is looked at |
| LumpParse.LevelImages | src/lump/parse.rs:55 | with the corrected `Lump.FromPixels` for a zero width: the images built from the four levels' pixels have each level's width and height, and those pixels |
| LumpParse.LevelsRead | src/lump/parse.rs:42-56 | with the corrected `Lump.FromPixels` for a zero width: the levels that are read have the widths and heights the head describes; a failure is "Bad offset" or end-of-file |
| LumpParse.MipTextureAt | src/lump/parse.rs:28-59 | corrected: a missing head is end-of-file, a bad head is its parse error, and a texture that reads never fails the halving check |
| LumpParse.LevelsAreRead | src/lump/parse.rs:42-56 | when all four levels are read, each lies within the source and holds its bytes |
| LumpParse.HeadAt | src/lump/parse.rs:37 | the head of a texture that reads passes the head checks |
| LumpParse.MipTextureAtSucceeds | src/lump/parse.rs:28-59 | a texture is read iff its 40-byte head is in the source and decodes and every level lies within the source |
| LumpParse.MipTextureAtLevel | src/lump/parse.rs:42-58 | level k of a texture that reads is the image of the head's level-k width and height over the bytes at the lump start plus offset k |
| LumpParse.FromLevelPixels | src/lump/parse.rs:55 | with the corrected `Lump.FromPixels` for a zero width: a level's image has the level's width and height and the pixels read |
| LumpParse.ReadLevel | src/lump/parse.rs:46-53 | seeking to the lump start plus the offset and reading gives exactly the level the specification reads |
| LumpParse.ReadLevels | src/lump/parse.rs:42-56 | with the corrected `Lump.FromPixels` for a zero width: the loop over the four levels gives exactly the specified levels or the first failure |
| LumpParse.ParseMipTexture | src/lump/parse.rs:28-59 | with the corrected `Lump.FromPixels` for a zero width: reading a mip texture at the cursor gives exactly the specified texture or error |
| LumpParse.ParsePalette | src/lump/parse.rs:61-65 | a palette is read iff 768 bytes remain; colour i, channel c is the byte 3i + c after the position, and the cursor moves past the palette only on success |
| LumpParse.ImageOfPixels | src/lump/parse.rs:74-81 | width times height pixels that fit a u32 always build an image of that width and those pixels, and of that height when the width is positive |
| LumpParse.ImageAt | src/lump/parse.rs:67-82 | fewer than 8 bytes is end-of-file; a product of width and height that overflows u32 is "Image too large"; too few pixels is end-of-file; otherwise the image has the width read and the pixels that follow |
| LumpParse.ParseImage | src/lump/parse.rs:67-82 | with the corrected `Lump.FromPixels` for a zero width: reading an image at the cursor gives exactly the specified image or error, and on success the cursor moves past header and pixels |
| LumpParse.ReadRaw | src/lump/parse.rs:84-91 | exactly `length` bytes are read iff that many remain; otherwise the error is end-of-file and the cursor does not move |
| Wad.HeadFrom | src/wad/repr.rs:36-60 | a header decodes iff its first four bytes are "WAD2", otherwise the magic-number error; the entry count and the directory offset are the little-endian u32s at 4 and 8 |
| Wad.HeadBytes | src/wad/repr.rs:10-16 | a header packs into 12 bytes |
| Wad.HeadRoundTrip | src/wad/repr.rs:19-60 | every header made by `Head::new` decodes back from its bytes with the same count and offset |
| Wad.DecodedHeadIsItsBytes | src/wad/repr.rs:36-60 | every 12 bytes that decode are exactly the packed form of the header they decode to |
| Wad.NewEntry | src/wad/repr.rs:76-107 | a new entry keeps the configured offset, length, kind and name, is uncompressed, and stores its length as its uncompressed length |
| Wad.ExpectedKindsAreLumpKinds | src/wad/repr.rs:298-306 | a kind byte is accepted iff it is the identifier of some known lump |
| Wad.EntryFrom | src/wad/repr.rs:109-153 | an entry decodes iff its compression byte is 0 and its kind is expected; compression is checked first; the entry has the offset and length at 0 and 4, the kind at 12 and the name in bytes 16..32 |
| Wad.EntryBytes | src/wad/repr.rs:63-73 | an entry packs into 32 bytes |
| Wad.EntryRoundTrip | src/wad/repr.rs:76-153 | every new entry of an expected kind decodes back from its bytes |
| Wad.EntryIgnoresStoredLengthAndPadding | src/wad/repr.rs:123-144 | two records that differ only in the stored uncompressed length and the padding decode alike |
| WadParser.Record | src/wad/parse.rs:33-39 | record k of a directory at `at` is the 32 bytes at `at + 32k`, decoded; when they are not all in the source the error is end-of-file |
| WadParser.Records | src/wad/parse.rs:33-41 | reading n records gives exactly n entries, or an error |
| WadParser.RecordsAreInOrder | src/wad/parse.rs:33-41 | entry k of the records read is record k decoded: the entries are in file order |
| WadParser.RecordsSucceed | src/wad/parse.rs:33-41 | n records are read iff every one of them is in the source and decodes |
| WadParser.FailureStands | src/wad/parse.rs:36-37 | once a record fails, reading further records keeps that same failure |
| WadParser.FirstFailingRecord | src/wad/parse.rs:36-37 | the error is that of the first record that fails, and no partial list is returned |
| WadParser.ReadRecords | src/wad/parse.rs:33-41 | the loop of 32-byte reads from the current position gives exactly the specified records or the first failure |
| WadParser.HeadAt | src/wad/parse.rs:13-15 | fewer than 12 bytes is end-of-file; a wrong magic number is a parse error; otherwise the header is the one its 12 bytes decode to |
| WadParser.Directory | src/wad/read.rs:7-27 | a header failure is returned as it is; a directory that reads has the header's entry count of entries |
| WadParser.DirectoryFrom | src/wad/parse.rs:8-42 | a header failure at the start position is returned as it is; a directory that reads has the header's entry count of entries |
| WadParser.DirectoryFromStart | src/wad/parse.rs:19-25 | for an archive at position 0 the relative reader and the absolute reader give the same result |
| WadParser.DirectoryIsItsRecords | src/wad/read.rs:12-26 | with a good header, the directory reads iff each of the entry-count records at the absolute directory offset is there and decodes, and entry k is record k |
| WadParser.ReadDirectory | src/wad/read.rs:7-27 | rewinding, reading the header, seeking to the directory and reading its records gives exactly the specified directory (the same code is at src/wad/parser.rs:13-33) |
| WadParser.ParseDirectory | src/wad/parse.rs:8-42 | reading from the current position gives exactly the specified relative directory, an offset past 64 bits being the I/O error "Offset too large" |
| WadParser.PaletteLumpOf | src/wad/parser.rs:95-114 | a palette lump is read iff it is exactly 768 bytes, with colour i, channel c being byte 3i + c; otherwise the error names the required length |
| WadParser.PaletteLumpRoundTrip | src/wad/parser.rs:95-114 | the packed bytes of any palette are read back as that palette |
| WadParser.ParsePaletteLump | src/wad/parser.rs:95-114 | the nested loop with a running index gives exactly the specified palette or error |
| WadParser.ImageLumpOf | src/wad/parser.rs:116-143 | fewer than 4 or 8 bytes is the slice panic; a w·h past u32 is "Image too large"; a length other than 8 + w·h is the size-mismatch error; otherwise the image has width w, the pixels after byte 8 and, for w > 0, height h |
| WadParser.ImageLumpBytes | src/wad/parser.rs:116-143 | a status-bar lump is 8 bytes longer than its pixels |
| WadParser.ImageLumpRoundTrip | src/wad/parser.rs:116-143 | every image whose width times height is its pixel count is read back from its lump bytes |
| WadParser.SlicesBefore | src/wad/parser.rs:82-88 | slicing the first n levels gives n byte strings of the level lengths, or a panic |
| WadParser.SlicePanicStands | src/wad/parser.rs:82-88 | once a level's slice panics, no later level changes the outcome |
| WadParser.SlicesAreReads | src/wad/parser.rs:82-88 | slicing levels out of the lump's bytes succeeds iff reading them through a cursor at the lump's start does, and both give the same pixels |
| WadParser.MipTextureLumpOf | src/wad/parser.rs:73-93 | corrected: fewer than 40 bytes is the slice panic, a bad head is its error, and a texture that is sliced never fails the halving check |
| WadParser.LevelsSliced | src/wad/parser.rs:82-88 | with the corrected `Lump.FromPixels` for a zero width: the sliced levels have the widths and heights the head describes |
| WadParser.SliceAndCursorReadersAgree | src/wad/parser.rs:73-93 | the slice-based reader returns a texture iff the cursor-based reader does, and then the same texture |
| WadParser.SliceLevels | src/wad/parser.rs:82-88 | with the corrected `Lump.FromPixels` for a zero width: the loop that slices each level gives exactly the specified levels or the first panic |
| WadParser.ParseMipTextureLump | src/wad/parser.rs:73-93 | with the corrected `Lump.FromPixels` for a zero width: parsing a mip-texture lump gives exactly the specified texture, error or panic |
| WadParser.EffectiveKind | src/wad/parser.rs:57-62 | an entry whose name begins with "CONCHARS" and a zero byte is read as a flat lump; any other entry keeps its stored kind |
| WadParser.LumpFromBytes | src/wad/parser.rs:64-70 | with the corrected `Lump.FromPixels` for a zero width: a decoded lump's kind is the kind dispatched on, a flat lump keeps its bytes, a palette needs 768 bytes, and any other kind is "Unknown lump type" |
| WadParser.LumpOf | src/wad/parser.rs:35-71 | with the corrected `Lump.FromPixels` for a zero width: fewer than `length` bytes at the offset is "Reached EOF before end of lump"; otherwise the lump's bytes are dispatched on the effective kind |
| WadParser.ConcharsIsFlat | src/wad/parser.rs:57-62 | a CONCHARS entry of any stored kind is read as its raw bytes |
| WadParser.ParseLump | src/wad/parser.rs:35-71 | with the corrected `Lump.FromPixels` for a zero width: seeking, taking the entry's length of bytes and dispatching gives exactly the specified lump, error or panic |
| Stream.ReadAt | src/bsp/parser.rs:22 | `read_exact` of n bytes succeeds iff n bytes remain, giving n bytes; otherwise it is the end-of-file error |
| Stream.Available | src/bsp/parser.rs:50 | a reader limited by `take` yields at most the limit, exactly the limit when that many bytes remain, and each byte is the source's byte at its place |
| Stream.Stored | src/bsp/parser.rs:92-115 | the bytes stored are at most the buffer's size and the items left; all are bytes, and stopping early with items left means the next item is an error |
| Stream.IterReader.Read | src/bsp/parser.rs:92-115 | the buffer's front holds the iterator's bytes in order up to the buffer's end, the iterator's end or its first error; the rest of the buffer is untouched; an error item is returned after the bytes before it, otherwise the count stored; exactly the items consumed are gone |
| Bsp.Index | src/bsp/repr.rs:28-32 | every lump kind has a place below 15 in the header table |
| Bsp.OffsetAt | src/bsp/repr.rs:10-26 | every place below 15 belongs to a lump kind whose index it is |
| Bsp.IndexIsBijection | src/bsp/repr.rs:10-32 | Entities..Models map one-to-one onto the places 0..14 |
| Bsp.DebugBytes | src/bsp/repr.rs:70 | the debug form of the version's bytes is bracketed |
| Bsp.HeadFrom | src/bsp/repr.rs:59-92 | a header decodes iff its little-endian version is 29 or "BSP2"; otherwise the error names the version and its bytes; a header holds that version and, as entry k, the little-endian pair at 4 + 8k and 8 + 8k |
| Bsp.DecodeHead | src/bsp/repr.rs:59-92 | the chunk loop that fills the entry array gives exactly the decoded header |
| Bsp.DecodedEntry | src/bsp/repr.rs:48-57 | a decoded header's entry for a lump is the pair stored at that lump's place |
| Bsp.EntryBytes | src/bsp/repr.rs:34-39 | an entry packs into 8 bytes |
| Bsp.TableBytes | src/bsp/repr.rs:41-46 | a table of entries packs into 8 bytes per entry |
| Bsp.HeadBytes | src/bsp/repr.rs:41-46 | a header packs into 124 bytes |
| Bsp.TableBytesAt | src/bsp/repr.rs:77-86 | entry k's bytes sit at 8k in the packed table |
| Bsp.HeadRoundTrip | src/bsp/repr.rs:59-92 | every header of a known version decodes back from its own bytes |
| Bsp.DecodedTableIsItsBytes | src/bsp/repr.rs:74-88 | the packed decoded entries from k on are exactly the header's bytes from 4 + 8k on |
| Bsp.DecodedHeadIsItsBytes | src/bsp/repr.rs:59-92 | every 124 bytes that decode are exactly the packed form of their header |
| BspParser.HeaderAt | src/bsp/parser.rs:19-30 | a header is read iff 124 bytes remain at the position and the version is known; too few is end-of-file, an unknown version is its parse error, and the entries are the pairs at their places |
| BspParser.Parser.New | src/bsp/parser.rs:19-30 | the parser records the position as its start and holds the header read there, with the same errors; the position moves past the header when 124 bytes remain |
| BspParser.LumpStart | src/bsp/parser.rs:40-46 | a lump starts at the start plus its offset, or is "Bad offset" when that overflows 64 bits |
| BspParser.Parser.LumpReader | src/bsp/parser.rs:36-51 | on success the source stands at the lump's start and at most the entry's length may be read; on overflow the error is "Bad offset" and the source does not move |
| BspParser.LumpYieldsNothingIffEmpty | src/bsp/parser.rs:53-56 | a lump starting inside the source yields no bytes iff its length is 0, the length `lump_empty` tests |
| BspParser.UntilNul | src/bsp/parser.rs:60-63 | the text kept is a prefix of the bytes holding no zero byte, and the byte after it, if any, is zero |
| BspParser.UntilNulIsTextBeforeNul | src/bsp/parser.rs:60-63 | for any text without a zero byte, followed by a zero byte and anything, exactly that text is kept |
| BspParser.TakeWhileNonNul | src/bsp/parser.rs:60-63 | the items kept are a prefix of the bytes' items, none of them the byte zero, and the item after them, if any, is the byte zero |
| BspParser.TakeWhileIsUntilNul | src/bsp/parser.rs:60-65 | over bytes in memory, `take_while` keeps exactly the items of the text before the first zero byte |
| BspParser.StoredOfBytes | src/bsp/parser.rs:92-115 | one `IterReader::read` into a buffer of a given size stores that many bytes, or all the bytes there are when fewer remain |
| BspParser.IterReaderReadsText | src/bsp/parser.rs:58-115 | reading the entities text through `IterReader` stores its first bytes, as many as the buffer holds or the text has, and leaves exactly the rest of the text to read |
| BspParser.EntitiesResult | src/bsp/parser.rs:65-68 | a parsed map is kept; a text-parse I/O error stays I/O; a lexer or parser error becomes a parse error carrying its display text |
| BspParser.EntitiesText | src/bsp/parser.rs:59-63 | the text handed to the map parser has no zero byte, is at most the lump's length, and is the lump's bytes from its start |
| BspParser.EntitiesAt | src/bsp/parser.rs:58-69 | a lump offset that overflows gives "Bad offset" before anything is parsed |
| BspParser.EmptyEntitiesAreEmptyMap | src/bsp/parser.rs:58-69 | an empty entities lump yields a map of no entities |
| BspParser.EntitiesEndAtNul | src/bsp/parser.rs:58-69 | the map parsed is that of the lump's text before its first zero byte, whatever follows it |
| BspParser.UnclosedEntityIsParseError | src/bsp/parser.rs:65-68 | an entity left open in the lump is reported as a parse error, not an I/O error |
| BspParser.Parser.ParseEntities | src/bsp/parser.rs:58-69 | reading the entities lump through the cursor gives exactly the specified map or error |
| BspParser.Parser.constructor | src/bsp/parser.rs:25-29 | the parser holds the given source, start and header |

## Left out

- Float text conversion, in both directions. `f64::from_str` and float `Display` are the `Repr.FloatText` parameter, not Rust's algorithms, so properties that need a number's text to read back as the number assume it (`Repr.WellBehaved`).
- Real I/O. Readers are a `Stream.Cursor` over a fixed buffer and writers a `MapWriter.Sink` that never fails.
  - An I/O error is an `Errors.IoError` holding only its text. The one that occurs is end-of-file ("failed to fill whole buffer").
  - The writers' `Io` branches, seek failures and the reader error in `byte_read` (`src/qmap/lexer.rs:71`) cannot occur.
  - The `Take` reader `lump_reader` returns is modelled as the position and limit it stands for.
- The text parser only receives bytes. Its `Io` error conversions (`from_io`, `From<io::Error>`) are modelled as constructors, but no text parse produces them.
- `HashMap` iteration order in every edict writer. It is the `order` parameter, any listing of the keys.
- `Cell`/`RefCell` error threading and `normalize`/`steal` (`src/qmap/parser.rs:16-37`, `src/common/ext_traits.rs`). Results are propagated directly.
  - `MIN_BRUSH_SURFACES` is only a capacity hint and has no effect.
- `unsafe` construction: `MaybeUninit`, `assume_init` and `transmute` in the lump and BSP decoders, and `new_unchecked` in the tokenizer. Each is modelled as the direct construction it performs.
- Lexer.TokenIterator.EofRead: sets the state back to Default, where the source leaves it as it was. No later call observes the difference, because nothing is left to read.
- OldLexer.Lex: the line counter is an unbounded `nat` (no `usize` overflow)
  - The `unwrap` panic on a read error (`src/lexer.rs:127`) cannot occur, because input is bytes.
  - `String::from_utf8_lossy` in the old token's `Display` is not modelled.
- Stream.Cursor.ReadExact: a failed read leaves the position unchanged. `Read::read_exact` leaves the position unspecified on failure, and the standard `Cursor` moves it to the end of its data.
- BspParser.Parser.New: a header too short for 124 bytes leaves the position unchanged. `Read::read_exact` leaves the position unspecified on failure, and the standard `Cursor` moves it to the end of its data.
- LumpParse.ParsePalette: a palette too short for 768 bytes leaves the position unchanged. `Read::read_exact` leaves the position unspecified on failure, and the standard `Cursor` moves it to the end of its data.
- LumpParse.ReadRaw: too few bytes leave the position unchanged. `Read::read_exact` leaves the position unspecified on failure, and the standard `Cursor` moves it to the end of its data.
- BspParser.Parser.ParseEntities: does not state where the source stands afterwards. The model reads the lump's bytes through the cursor and does not promise a position.
- BspParser.Parser.Version and BspParser.Parser.LumpEmpty carry no contract of their own: what they return is stated by `Bsp.DecodedEntry` and `BspParser.LumpYieldsNothingIffEmpty`.
- `take_while` letting error items through (`src/bsp/parser.rs:60-63`): a cursor yields no error items. `BspParser.TakeWhileNonNul` keeps error items as the source does, and `BspParser.TakeWhileIsUntilNul` and `BspParser.IterReaderReadsText` show that over bytes in memory it and `IterReader` give the entities text, its bytes up to the first zero byte.
- LumpParse.ImageAt: for a zero width it states only the width and the pixels; the image it returns then has height 0, where the source panics (see Findings).
- WadParser.ImageLumpOf: the same as `LumpParse.ImageAt`, for an image lump.
- LumpParse.LevelImages: builds its images with the corrected `Lump.FromPixels`, so a zero width with no pixels gives an image of height 0 where the source panics with division by zero (see Findings).
- LumpParse.FromLevelPixels: builds its images with the corrected `Lump.FromPixels`, so a zero width with no pixels gives an image of height 0 where the source panics with division by zero (see Findings).
- LumpParse.LevelsRead: builds its images with the corrected `Lump.FromPixels`, so a zero width with no pixels gives an image of height 0 where the source panics with division by zero (see Findings).
- LumpParse.ReadLevels: builds its images with the corrected `Lump.FromPixels`, so a zero width with no pixels gives an image of height 0 where the source panics with division by zero (see Findings).
- LumpParse.ParseMipTexture: builds its images with the corrected `Lump.FromPixels`, so a zero width with no pixels gives an image of height 0 where the source panics with division by zero (see Findings).
- LumpParse.ParseImage: builds its images with the corrected `Lump.FromPixels`, so a zero width with no pixels gives an image of height 0 where the source panics with division by zero (see Findings).
- WadParser.LevelsSliced: builds its images with the corrected `Lump.FromPixels`, so a zero width with no pixels gives an image of height 0 where the source panics with division by zero (see Findings).
- WadParser.SliceLevels: builds its images with the corrected `Lump.FromPixels`, so a zero width with no pixels gives an image of height 0 where the source panics with division by zero (see Findings).
- WadParser.ParseMipTextureLump: builds its images with the corrected `Lump.FromPixels`, so a zero width with no pixels gives an image of height 0 where the source panics with division by zero (see Findings).
- WadParser.LumpFromBytes: builds its images with the corrected `Lump.FromPixels`, so a zero width with no pixels gives an image of height 0 where the source panics with division by zero (see Findings).
- WadParser.LumpOf: builds its images with the corrected `Lump.FromPixels`, so a zero width with no pixels gives an image of height 0 where the source panics with division by zero (see Findings).
- WadParser.ParseLump: builds its images with the corrected `Lump.FromPixels`, so a zero width with no pixels gives an image of height 0 where the source panics with division by zero (see Findings).
- `Entry::name_as_cstring` and `slice_to_cstring` (`src/lib.rs`), and `IntoIterator for &MipTexture`: a getter over a C-string helper that is not part of this model, and a plain iteration over the four levels.
- `Junk` padding (`src/common/mod.rs`). Its only effect is that padding does not matter, which `Wad.EntryIgnoresStoredLengthAndPadding` states.
- Module wiring and type-only files: `src/lib.rs`, the `mod.rs` files (except the lump kind constants), `src/qmap/repr_write.rs` and `src/wad/result.rs`.
- Examples, benchmarks, the command-line tools, PNG encoding and downloading. Test files serve only as statements of intended behaviour where they agree with the code.

## Findings

| source | as written | input that shows it | evidently intended | confidence | as-written member | corrected member |
|---|---|---|---|---|---|---|
| src/qmap/repr.rs:326-347 | `check_writable_texture` accepts any bare-writable name, and `write_texture_to` quotes a texture only when it is empty or holds whitespace | two cases, both passing the check and written bare. (1) The texture `//`, or any name starting with `//`: the tokenizer reads it as a comment, so the surface loses its texture token and the rest of its line. (2) The lone texture `/`: the tokenizer takes the space after it into the unquoted token `/ `, which then runs on into the next word, the alignment's first number, so the texture token is `/ ` joined with that word | a written texture reads back as itself: a name that reads as a comment is quoted, or refused when it cannot be quoted | not executed; follows from the tokenizer's `/` rules at src/qmap/lexer.rs:161-175 | Roundtrip.CommentTextureIsLost, Roundtrip.LoneSlashTextureRunsOn (with Repr.CheckTextureAsWritten and MapWriter.TextureTextAsWritten, which Repr.CheckMap and MapWriter.WriteMap follow under the rule `AsWritten`) | Repr.CheckTexture, MapWriter.TextureText, Roundtrip.TextureReadsBack (the rule `Corrected`), Repr.CorrectedCheckIsStricter |
| src/lump/repr.rs:38-50 | `Image::from_pixels` computes `pixel_ct % width` with no zero check (the same at src/wad/repr.rs:170-183) | a mip-texture head of width 0, which the head decoder accepts since 0 is a multiple of 8. Example: 40 zero bytes. Its level 0 then has no pixels, and `parse_mip_texture` panics with division by zero instead of returning | a zero-width image with no pixels is the empty image, and a head the decoder accepts always yields a texture or an error, never a panic. A zero width with pixels still panics, as the crate's test expects | not executed | Lump.FromPixelsAsWritten, Lump.ZeroHeadPanicsAsWritten | Lump.FromPixels, Lump.ZeroWidthImage, Lump.LevelsHalve, LumpParse.MipTextureAt, WadParser.MipTextureLumpOf |
