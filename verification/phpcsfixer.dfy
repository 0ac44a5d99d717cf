/** The decision logic of php-cs-fixer's `Format` and `CanFormat`
    (internal/diagnostics/phpcsfixer.go). The command run in the container is
    an abstract result: its standard output and error, its exit code, and
    the run's error, if any. Whether the context had expired when the run
    failed is an input too.

    php-cs-fixer exits with 0 when nothing needs fixing and with 8 when it
    found changes, printing them as a unified diff; any other code is a
    failure. Every failure gives the content back unchanged.

    The diff is applied with the applier of the given `HeaderRule`: the
    server's is `HeadersAnywhere`, which loses added lines starting with
    `++`; `HeadersBeforeFirstHunk` is the corrected reading. */
module PhpCsFixer {
  import opened Wrappers
  import opened Text
  import opened Config
  import opened ApplyDiff
  import opened DiffScript

  const ProviderId: string := "phpcsfixer"
  const ProviderName: string := "php-cs-fixer"

  /** Seconds allowed to a formatting run when neither the caller nor the
      configuration sets a limit. */
  const DefaultTimeoutSeconds: int := 30

  predicate CanFormat(cfg: ProviderConfig) {
    cfg.format.enabled
  }

  /** The limit `Format` puts on the run: none when the caller's context has a
      deadline already, else the configured seconds if positive, else the
      default. */
  function EffectiveTimeout(hasDeadline: bool, cfg: ProviderConfig): (r: Option<int>)
    ensures r.None? <==> hasDeadline
    ensures r.Some? ==> r.value > 0
    ensures r.Some? ==> (r.value == cfg.format.timeoutSeconds || r.value == DefaultTimeoutSeconds)
    ensures r.Some? && r.value != cfg.format.timeoutSeconds ==> cfg.format.timeoutSeconds <= 0
  {
    if hasDeadline then None
    else if cfg.format.timeoutSeconds > 0 then Some(cfg.format.timeoutSeconds)
    else Some(DefaultTimeoutSeconds)
  }

  const FixPrefix: string := " fix - --diff "

  /** The command line: the tool reads the content from standard input and
      prints a diff; `--config <file>` follows when a file is configured. */
  function FormatCommand(cfg: ProviderConfig): (r: string)
    ensures HasPrefix(r, cfg.path + FixPrefix)
    ensures cfg.configFile == "" <==> |r| == |cfg.path + FixPrefix|
    ensures cfg.configFile != "" ==> r[|cfg.path + FixPrefix|..] == "--config " + cfg.configFile
  {
    var configArg := if cfg.configFile != "" then "--config " + cfg.configFile else "";
    cfg.path + FixPrefix + configArg
  }

  datatype CommandResult = CommandResult(stdout: string, stderr: string, exitCode: int, err: Option<string>)

  datatype FormatError =
    | NotEnabled
    | Cancelled(cause: string)
    | CommandFailed(cause: string)
    | BadExitCode(code: int)

  function ErrorMessage(e: FormatError): string {
    match e
    case NotEnabled => "formatting is not enabled for " + ProviderName
    case Cancelled(cause) => "formatting cancelled: " + cause
    case CommandFailed(cause) => "php-cs-fixer command failed: " + cause
    case BadExitCode(code) => "php-cs-fixer failed with exit code " + IntToString(code)
  }

  predicate ExitOk(code: int) {
    code == 0 || code == 8
  }

  /** `Format`'s result: the text and the error, if any. */
  datatype FormatOutcome = FormatOutcome(text: string, err: Option<FormatError>)

  /** `Format(ctx, path, content)` given the run's result `res`; `ctxErr` is
      `ctx.Err()`: the context's error once it has expired or been cancelled
      ("context deadline exceeded", "context canceled"), else none. A failed
      run under a finished context reports the context's error, not the
      run's. */
  function Format(rule: HeaderRule, cfg: ProviderConfig, content: string, ctxErr: Option<string>, res: CommandResult): (r: FormatOutcome)
    ensures r.err.Some? ==> r.text == content
    ensures r.err == Some(NotEnabled) <==> !CanFormat(cfg)
    ensures (r.err.Some? && r.err.value.Cancelled?) <==> CanFormat(cfg) && res.err.Some? && ctxErr.Some?
    ensures r.err.Some? && r.err.value.Cancelled? ==> r.err.value.cause == ctxErr.value
    ensures (r.err.Some? && r.err.value.CommandFailed?) <==> CanFormat(cfg) && res.err.Some? && ctxErr.None?
    ensures r.err.Some? && r.err.value.CommandFailed? ==> r.err.value.cause == res.err.value
    ensures (r.err.Some? && r.err.value.BadExitCode?) <==> CanFormat(cfg) && res.err.None? && !ExitOk(res.exitCode)
    ensures r.err.None? <==> CanFormat(cfg) && res.err.None? && ExitOk(res.exitCode)
    ensures r.err.None? && AllSpace(res.stdout) ==> r.text == content
    ensures r.err.None? && !AllSpace(res.stdout) && rule == HeadersAnywhere
      ==> r.text == ApplyUnifiedDiff(content, TrimSpace(res.stdout))
    ensures r.err.None? && !AllSpace(res.stdout) && rule == HeadersBeforeFirstHunk
      ==> r.text == ApplyUnifiedDiffCorrected(content, TrimSpace(res.stdout))
  {
    TrimSpaceEmpty(res.stdout);
    if !CanFormat(cfg) then FormatOutcome(content, Some(NotEnabled))
    else if res.err.Some? then
      if ctxErr.Some? then FormatOutcome(content, Some(Cancelled(ctxErr.value)))
      else FormatOutcome(content, Some(CommandFailed(res.err.value)))
    else if !ExitOk(res.exitCode) then FormatOutcome(content, Some(BadExitCode(res.exitCode)))
    else
      var diff := TrimSpace(res.stdout);
      if diff == "" then FormatOutcome(content, None)
      else
        var lines := ApplyLines(rule, Split(content, '\n'), Split(diff, '\n'));
        FormatOutcome(Join(lines, '\n'), None)
  }

  // ---------------------------------------------------------------------------
  // Properties

  /** A joined text is at least as long as its first piece. */
  lemma JoinHeadLength(parts: seq<string>, sep: char)
    requires |parts| >= 1
    ensures |Join(parts, sep)| >= |parts[0]|
  {
  }

  /** When php-cs-fixer reports the diff of an edit script against the old
      lines, `Format` returns the new lines: always with the corrected
      applier, and with the server's when no removed line starts with `--`
      and no added line with `++`. */
  lemma FormatRendered(rule: HeaderRule, cfg: ProviderConfig, es: seq<Edit>, ctxErr: Option<string>, res: CommandResult)
    requires CanFormat(cfg) && res.err.None? && ExitOk(res.exitCode)
    requires TrimSpace(res.stdout) == Join(Render(es), '\n')
    requires NoNewlines(es) && |OldSide(es)| >= 1
    requires rule == HeadersAnywhere ==> HeaderSafe(es)
    ensures Format(rule, cfg, Join(OldSide(es), '\n'), ctxErr, res) == FormatOutcome(Join(NewSide(es), '\n'), None)
  {
    JoinHeadLength(Render(es), '\n');
    TrimSpaceEmpty(res.stdout);
    ApplyUnifiedDiffRendered(es);
  }

  /** The same for a diff with any number of hunks: the unchanged lines
      between hunks and after the last one are kept. */
  lemma FormatRenderedHunks(rule: HeaderRule, cfg: ProviderConfig, hs: seq<Hunk>, tail: seq<string>, ctxErr: Option<string>, res: CommandResult)
    requires CanFormat(cfg) && res.err.None? && ExitOk(res.exitCode)
    requires TrimSpace(res.stdout) == Join(RenderDiff(hs), '\n')
    requires HunksNoNewlines(hs) && NoSep(tail, '\n')
    requires |OldFrom(hs, 0) + tail| >= 1 && |OldFrom(hs, 0)| < MaxInt64
    requires rule == HeadersAnywhere ==> HunksHeaderSafe(hs)
    ensures Format(rule, cfg, Join(OldFrom(hs, 0) + tail, '\n'), ctxErr, res)
      == FormatOutcome(Join(NewFrom(hs, 0) + tail, '\n'), None)
  {
    JoinHeadLength(RenderDiff(hs), '\n');
    TrimSpaceEmpty(res.stdout);
    ApplyUnifiedDiffHunks(hs, tail);
  }

  /** Output without edits (empty, white space only, headers or context only)
      gives back the content, without error, on either success code. */
  lemma FormatNoEdit(cfg: ProviderConfig, content: string, ctxErr: Option<string>, res: CommandResult)
    requires CanFormat(cfg) && res.err.None? && ExitOk(res.exitCode)
    requires forall i :: 0 <= i < |Split(TrimSpace(res.stdout), '\n')| ==> NoEdit(Split(TrimSpace(res.stdout), '\n')[i])
    ensures Format(HeadersAnywhere, cfg, content, ctxErr, res) == FormatOutcome(content, None)
  {
    ApplyUnifiedDiffNoEdit(content, TrimSpace(res.stdout));
  }
}
