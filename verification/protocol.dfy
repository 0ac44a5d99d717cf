/** The Language Server Protocol 3.17 records the server exchanges with the
    editor ("Basic JSON Structures": Position, Range, Diagnostic, TextEdit),
    with the `uint32` fields of the Go binding. */
module Protocol {
  import opened Wrappers
  import opened Text

  /** Zero-based line and character offsets. */
  datatype Position = Position(line: Uint32, character: Uint32)

  datatype Range = Range(start: Position, end: Position) {
    predicate SingleLine() {
      start.line == end.line
    }
  }

  datatype Severity = SeverityError | SeverityWarning | SeverityInformation | SeverityHint

  /** A diagnostic; `code` is absent unless the tool supplied one. */
  datatype Diagnostic = Diagnostic(
    range: Range,
    severity: Severity,
    source: string,
    code: Option<string>,
    message: string)

  datatype TextEdit = TextEdit(range: Range, newText: string)

  datatype MessageType = MessageError | MessageWarning | MessageInfo | MessageLog

  /** A Go slice of diagnostics: `None` is the nil slice, which JSON-encodes as
      `null` rather than `[]`. */
  type DiagnosticSlice = Option<seq<Diagnostic>>

  function Items(s: DiagnosticSlice): seq<Diagnostic> {
    if s.Some? then s.value else []
  }

  /** Go's `append(s, xs...)`: appending nothing to a nil slice leaves it nil. */
  function Append(s: DiagnosticSlice, xs: seq<Diagnostic>): (r: DiagnosticSlice)
    ensures Items(r) == Items(s) + xs
    ensures r.None? <==> (s.None? && |xs| == 0)
  {
    if s.None? && |xs| == 0 then None else Some(Items(s) + xs)
  }

  /** The tools report one-based line numbers; the protocol's are zero-based.
      A positive number is decremented, anything else becomes line 0, and the
      result is cast to `uint32`. */
  function ZeroBasedLine(n: int): (r: Uint32)
    ensures n <= 0 ==> r == 0
    ensures 0 < n <= TwoTo32 ==> r + 1 == n
    ensures n > 0 ==> (r - (n - 1)) % TwoTo32 == 0
  {
    if n > 0 then ToUint32(n - 1) else 0
  }

  /** Both tools mark characters 0 to 100 of the reported line. */
  const LineRangeEnd: Uint32 := 100

  function LineRange(line: Uint32): (r: Range)
    ensures r.SingleLine() && r.start.line == line
    ensures r.start.character == 0 && r.end.character == LineRangeEnd
  {
    Range(Position(line, 0), Position(line, LineRangeEnd))
  }
}
