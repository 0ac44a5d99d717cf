/** The mapping of PHPStan's JSON report onto diagnostics, inside `Analyze`
    (internal/diagnostics/phpstan.go). The decoded report is an input: `None`
    when the output did not decode. The report's `files` object is a Go map,
    so its files come in an arbitrary order; the messages of a file keep
    theirs. The top-level `errors` list is never read. */
module PhpStan {
  import opened Wrappers
  import opened Text
  import opened Protocol

  const ProviderId: string := "phpstan"
  const ProviderName: string := "phpstan"

  datatype Message = Message(message: string, line: int, ignorable: bool, identifier: Option<string>)

  datatype FileReport = FileReport(messages: seq<Message>)

  datatype Report = Report(files: seq<(string, FileReport)>, errors: seq<string>)

  /** One message as a diagnostic. */
  function ToDiagnostic(m: Message): (d: Diagnostic)
    ensures d.range == LineRange(ZeroBasedLine(m.line))
    ensures d.severity == SeverityWarning <==> m.ignorable
    ensures d.severity == SeverityError <==> !m.ignorable
    ensures d.code.Some? <==> m.identifier.Some?
    ensures d.code == m.identifier
    ensures d.source == ProviderName && d.message == m.message
  {
    var severity := if m.ignorable then SeverityWarning else SeverityError;
    Diagnostic(LineRange(ZeroBasedLine(m.line)), severity, ProviderName, m.identifier, m.message)
  }

  /** The inner loop: appends one diagnostic per message. */
  function AppendMessages(acc: DiagnosticSlice, msgs: seq<Message>): DiagnosticSlice
    decreases |msgs|
  {
    if |msgs| == 0 then acc else AppendMessages(Append(acc, [ToDiagnostic(msgs[0])]), msgs[1..])
  }

  /** The outer loop, over the files in iteration order. */
  function AppendFiles(acc: DiagnosticSlice, files: seq<(string, FileReport)>): DiagnosticSlice
    decreases |files|
  {
    if |files| == 0 then acc else AppendFiles(AppendMessages(acc, files[0].1.messages), files[1..])
  }

  /** `Analyze`'s result: an empty (non-nil) list when the output did not
      decode; otherwise the appended diagnostics, which stay the nil slice
      when there are no messages. It never reports an error. */
  function Analyze(report: Option<Report>): DiagnosticSlice {
    if report.None? then Some([]) else AppendFiles(None, report.value.files)
  }

  // ---------------------------------------------------------------------------
  // Properties

  /** All messages of all files, in iteration order. */
  function AllMessages(files: seq<(string, FileReport)>): seq<Message> {
    if |files| == 0 then [] else files[0].1.messages + AllMessages(files[1..])
  }

  function Diagnostics(msgs: seq<Message>): (ds: seq<Diagnostic>)
    ensures |ds| == |msgs|
  {
    seq(|msgs|, i requires 0 <= i < |msgs| => ToDiagnostic(msgs[i]))
  }

  lemma DiagnosticsAppend(a: seq<Message>, b: seq<Message>)
    ensures Diagnostics(a + b) == Diagnostics(a) + Diagnostics(b)
  {
  }

  lemma DiagnosticsCons(msgs: seq<Message>)
    requires |msgs| > 0
    ensures Diagnostics(msgs) == [ToDiagnostic(msgs[0])] + Diagnostics(msgs[1..])
  {
    assert msgs == [msgs[0]] + msgs[1..];
    DiagnosticsAppend([msgs[0]], msgs[1..]);
  }

  /** Appending the first message, then the rest. */
  lemma MessagesStep(acc: DiagnosticSlice, msgs: seq<Message>)
    requires |msgs| > 0
    requires Items(AppendMessages(Append(acc, [ToDiagnostic(msgs[0])]), msgs[1..]))
      == Items(Append(acc, [ToDiagnostic(msgs[0])])) + Diagnostics(msgs[1..])
    requires AppendMessages(Append(acc, [ToDiagnostic(msgs[0])]), msgs[1..]).None?
      <==> |msgs[1..]| == 0 && Append(acc, [ToDiagnostic(msgs[0])]).None?
    ensures Items(AppendMessages(acc, msgs)) == Items(acc) + Diagnostics(msgs)
    ensures AppendMessages(acc, msgs).None? <==> |msgs| == 0 && acc.None?
  {
    DiagnosticsCons(msgs);
    assert (Items(acc) + [ToDiagnostic(msgs[0])]) + Diagnostics(msgs[1..])
      == Items(acc) + ([ToDiagnostic(msgs[0])] + Diagnostics(msgs[1..]));
  }

  lemma {:induction false} AppendMessagesItems(acc: DiagnosticSlice, msgs: seq<Message>)
    ensures Items(AppendMessages(acc, msgs)) == Items(acc) + Diagnostics(msgs)
    ensures AppendMessages(acc, msgs).None? <==> |msgs| == 0 && acc.None?
    decreases |msgs|
  {
    if |msgs| > 0 {
      AppendMessagesItems(Append(acc, [ToDiagnostic(msgs[0])]), msgs[1..]);
      MessagesStep(acc, msgs);
    } else {
      assert Items(acc) + Diagnostics(msgs) == Items(acc);
    }
  }

  lemma {:induction false} AppendFilesItems(acc: DiagnosticSlice, files: seq<(string, FileReport)>)
    ensures Items(AppendFiles(acc, files)) == Items(acc) + Diagnostics(AllMessages(files))
    ensures AppendFiles(acc, files).None? <==> acc.None? && |AllMessages(files)| == 0
    decreases |files|
  {
    if |files| > 0 {
      var msgs := files[0].1.messages;
      AppendMessagesItems(acc, msgs);
      AppendFilesItems(AppendMessages(acc, msgs), files[1..]);
      DiagnosticsAppend(msgs, AllMessages(files[1..]));
    }
  }

  /** One diagnostic per message, in iteration order; the nil slice exactly
      when there are no messages; an empty list for undecodable output. */
  lemma AnalyzeDiagnostics(report: Option<Report>)
    ensures report.None? ==> Analyze(report) == Some([])
    ensures report.Some? ==> Items(Analyze(report)) == Diagnostics(AllMessages(report.value.files))
    ensures report.Some? ==> (Analyze(report).None? <==> |AllMessages(report.value.files)| == 0)
  {
    if report.Some? {
      AppendFilesItems(None, report.value.files);
    }
  }

  lemma {:induction false} AllMessagesAppend(a: seq<(string, FileReport)>, b: seq<(string, FileReport)>)
    ensures AllMessages(a + b) == AllMessages(a) + AllMessages(b)
    decreases |a|
  {
    if |a| > 0 {
      assert (a + b)[0] == a[0];
      assert (a + b)[1..] == a[1..] + b;
      AllMessagesAppend(a[1..], b);
    } else {
      assert a + b == b;
    }
  }

  /** The diagnostics of files `pre`, `f`, `g`, `post` visited in this order. */
  lemma FourFiles(pre: seq<(string, FileReport)>, f: (string, FileReport), g: (string, FileReport), post: seq<(string, FileReport)>)
    ensures Diagnostics(AllMessages(pre + [f, g] + post))
      == Diagnostics(AllMessages(pre)) + Diagnostics(f.1.messages) + Diagnostics(g.1.messages) + Diagnostics(AllMessages(post))
  {
    var rest := [g] + post;
    assert pre + [f, g] + post == pre + ([f] + rest);
    AllMessagesAppend(pre, [f] + rest);
    assert ([f] + rest)[0] == f && ([f] + rest)[1..] == rest;
    assert rest[0] == g && rest[1..] == post;
    var mp, mf, mg, mq := AllMessages(pre), f.1.messages, g.1.messages, AllMessages(post);
    assert AllMessages(pre + [f, g] + post) == mp + (mf + (mg + mq));
    DiagnosticsAppend(mp, mf + (mg + mq));
    DiagnosticsAppend(mf, mg + mq);
    DiagnosticsAppend(mg, mq);
  }

  /** Visiting two files in the other order permutes the diagnostics: the
      map's iteration order changes the order, never the contents. */
  lemma FileOrderIrrelevant(pre: seq<(string, FileReport)>, f: (string, FileReport), g: (string, FileReport), post: seq<(string, FileReport)>, errors: seq<string>)
    ensures multiset(Items(Analyze(Some(Report(pre + [f, g] + post, errors)))))
      == multiset(Items(Analyze(Some(Report(pre + [g, f] + post, errors)))))
  {
    AnalyzeDiagnostics(Some(Report(pre + [f, g] + post, errors)));
    AnalyzeDiagnostics(Some(Report(pre + [g, f] + post, errors)));
    FourFiles(pre, f, g, post);
    FourFiles(pre, g, f, post);
  }
}
