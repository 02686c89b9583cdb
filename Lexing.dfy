/**
 * The parts of the Irony scanner interface the Lua terminals use: a source
 * stream (the text and a movable preview position), the parsing context (the
 * parser errors and the line-scan state of the editor integration) and the tokens
 * a terminal returns.
 */
module Lexing {

  /** The terminals of the model. `SyntaxError` is the grammar's error terminal. */
  datatype Terminal = StringLiteral | LongComment | SyntaxError

  /** A parser error a terminal reports through `AddParserError` or in an error token. */
  datatype LexError =
    | BadXEscape                   // "Invalid \x escape, at least one digit expected."
    | InvalidEscape(segment: string) // "Invalid escape sequence: \{0}"
    | UnclosedComment              // "Unclosed comment block"

  /** What a token carries as its value. */
  datatype TokenValue = NoValue | StringValue(s: string) | ErrorMessage(error: LexError)

  /**
   * A token spanning `text[start..stop]` of the source; `incomplete` is the
   * `TokenFlags.IsIncomplete` flag of a comment left open at the end of a line scan.
   */
  datatype Token = Token(terminal: Terminal, start: nat, stop: nat, value: TokenValue, incomplete: bool)

  /** `ISourceStream`: the text, the location the current token starts at, and the preview position. */
  class SourceStream {
    const text: string
    const location: nat
    var previewPosition: nat

    predicate Valid()
      reads this
    {
      location <= previewPosition <= |text|
    }

    constructor(text: string, location: nat)
      requires location <= |text|
      ensures this.text == text && this.location == location && previewPosition == location && Valid()
    {
      this.text := text;
      this.location := location;
      previewPosition := location;
    }

    /** The text from the location to the preview position (`GetPreviewText`). */
    function PreviewText(): (s: string)
      reads this
      requires Valid()
      ensures |s| == previewPosition - location
      ensures forall i :: 0 <= i < |s| ==> s[i] == text[location + i]
    {
      text[location..previewPosition]
    }

    /** `CreateToken(terminal)`: a token whose value is its own text. */
    function CreateTextToken(terminal: Terminal): (t: Token)
      reads this
      requires Valid()
      ensures t.start == location && t.stop == previewPosition && t.terminal == terminal
      ensures t.value == StringValue(PreviewText()) && !t.incomplete
    {
      Token(terminal, location, previewPosition, StringValue(PreviewText()), false)
    }

    /** `CreateToken(terminal, value)`: a token from the location to the preview position. */
    function CreateToken(terminal: Terminal, value: TokenValue): (t: Token)
      reads this
      requires Valid()
      ensures t.start == location && t.stop == previewPosition && t.terminal == terminal && t.value == value
      ensures !t.incomplete
    {
      Token(terminal, location, previewPosition, value, false)
    }
  }

  /** A value of one byte, as Irony's `byte` fields hold. */
  type ByteValue = b: int | 0 <= b < 256

  /** The low byte of a line-scan state: Irony lays `TerminalIndex` over it. */
  function LowByte(v: int): ByteValue {
    v % 256
  }

  /** `v` with its low byte replaced by `b`; the bytes above it keep their value. */
  function WithLowByte(v: int, b: ByteValue): (w: int)
    ensures LowByte(w) == b && w - LowByte(w) == v - LowByte(v)
  {
    v - v % 256 + b
  }

  /** The parts of `ParsingContext` the terminals read and write. */
  class ParsingContext {
    /** The errors reported through `AddParserError`, in order. */
    var errors: seq<LexError>
    /**
     * `VsLineScanState.Value`: non-zero while a multi-line token is being continued.
     * `VsLineScanState.TerminalIndex`, the terminal the line scan continues with, is
     * its low byte.
     */
    var lineScanState: int
    /** `Mode == ParseMode.VsLineScan`. */
    const lineScanMode: bool
    /** `Language.Grammar.CaseSensitive`. */
    const caseSensitive: bool

    constructor(lineScanMode: bool, caseSensitive: bool, lineScanState: int)
      ensures errors == [] && this.lineScanMode == lineScanMode && this.caseSensitive == caseSensitive
      ensures this.lineScanState == lineScanState
    {
      errors := [];
      this.lineScanState := lineScanState;
      this.lineScanMode := lineScanMode;
      this.caseSensitive := caseSensitive;
    }

    /** `AddParserError`. */
    method AddParserError(error: LexError)
      modifies this
      ensures errors == old(errors) + [error]
      ensures lineScanState == old(lineScanState)
    {
      errors := errors + [error];
    }

    /** `VsLineScanState.TerminalIndex`. */
    function TerminalIndex(): ByteValue
      reads this
    {
      LowByte(lineScanState)
    }

    /** `VsLineScanState.TerminalIndex = index`: the low byte of the state becomes `index`. */
    method SetTerminalIndex(index: ByteValue)
      modifies this
      ensures lineScanState == WithLowByte(old(lineScanState), index) && TerminalIndex() == index
      ensures errors == old(errors)
    {
      lineScanState := WithLowByte(lineScanState, index);
    }

    /** `CreateErrorToken`: a token of the error terminal carrying the message, over the current preview. */
    function CreateErrorToken(source: SourceStream, error: LexError): (t: Token)
      reads source
      requires source.Valid()
      ensures t.terminal == SyntaxError && t.value == ErrorMessage(error)
      ensures t.start == source.location && t.stop == source.previewPosition
    {
      source.CreateToken(SyntaxError, ErrorMessage(error))
    }
  }
}
