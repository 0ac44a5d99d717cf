/** The mapping of `php -l` output onto diagnostics, inside `Analyze`
    (internal/diagnostics/phplint.go). The regular-expression match over the
    output is an input: the captured message and the captured line digits,
    or `None` when nothing matched. */
module PhpLint {
  import opened Wrappers
  import opened Text
  import opened Protocol

  const ProviderId: string := "phplint"
  const ProviderName: string := "php-lint"
  const CleanPrefix: string := "No syntax errors detected"

  datatype LintMatch = LintMatch(message: string, lineDigits: string)

  /** The only error: a line number `strconv.Atoi` rejects. */
  datatype LintError = BadLineNumber(digits: string)

  /** `Analyze`'s result over the tool's output and the match. */
  function Analyze(output: string, m: Option<LintMatch>): (r: Result<DiagnosticSlice, LintError>)
    ensures HasPrefix(output, CleanPrefix) ==> r == Success(None)
    ensures r.Failure? <==> !HasPrefix(output, CleanPrefix) && m.Some? && Atoi(m.value.lineDigits).None?
    ensures r.Failure? ==> r.error == BadLineNumber(m.value.lineDigits)
    ensures r.Success? ==> |Items(r.value)| <= 1
    ensures (r.Success? && |Items(r.value)| == 1) <==> !HasPrefix(output, CleanPrefix) && m.Some? && Atoi(m.value.lineDigits).Some?
    ensures r.Success? && |Items(r.value)| == 1 ==>
      var d := Items(r.value)[0];
      && d.range == LineRange(ZeroBasedLine(Atoi(m.value.lineDigits).value))
      && d.severity == SeverityError && d.source == ProviderName && d.code.None?
      && d.message == TrimSpace(m.value.message)
  {
    if HasPrefix(output, CleanPrefix) then Success(None)
    else if m.Some? then
      match Atoi(m.value.lineDigits)
      case None => Failure(BadLineNumber(m.value.lineDigits))
      case Some(n) =>
        var line := ZeroBasedLine(n);
        Success(Some([Diagnostic(LineRange(line), SeverityError, ProviderName, None, TrimSpace(m.value.message))]))
    else Success(None)
  }

  /** A line number captured as decimal digits is rejected only when it does
      not fit a 64-bit int; a reported line `n` lands on line `n - 1`. */
  lemma AnalyzeLine(output: string, msg: string, n: nat)
    requires !HasPrefix(output, CleanPrefix)
    ensures Analyze(output, Some(LintMatch(msg, NatToString(n)))).Success? <==> n <= MaxInt64
    ensures n > MaxInt64 ==> Analyze(output, Some(LintMatch(msg, NatToString(n)))) == Failure(BadLineNumber(NatToString(n)))
    ensures 0 < n <= TwoTo32 ==> Items(Analyze(output, Some(LintMatch(msg, NatToString(n)))).value)[0].range.start.line == n - 1
  {
    AtoiNatToString(n);
  }
}
