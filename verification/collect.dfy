/** `collectDiagnostics` (internal/server/server.go): skips vendored and
    cached files, runs every diagnostics provider concurrently and gathers
    what the successful ones report; a failing provider only produces an
    error message for the editor. The providers' results are inputs, in the
    order the runs finished, since each appends under a mutex when done. */
module Collect {
  import opened Wrappers
  import opened Text
  import opened Protocol

  const IgnoredDirs: seq<string> := ["/vendor/", "/var/cache/"]

  predicate Ignored(path: string) {
    exists i :: 0 <= i < |IgnoredDirs| && Contains(path, IgnoredDirs[i])
  }

  /** One provider's run: its name and its diagnostics or error text. */
  datatype ProviderRun = ProviderRun(name: string, result: Result<DiagnosticSlice, string>)

  /** The gathered diagnostics and the window messages sent for failures. */
  datatype Collected = Collected(diagnostics: DiagnosticSlice, messages: seq<string>)

  function FailureMessage(name: string, err: string): string {
    "Diagnostics provider " + name + " failed: " + err
  }

  /** One finished run: its diagnostics are appended, or its failure is
      reported. */
  function Absorb(acc: Collected, run: ProviderRun): Collected {
    match run.result
    case Failure(err) => Collected(acc.diagnostics, acc.messages + [FailureMessage(run.name, err)])
    case Success(ds) => Collected(Append(acc.diagnostics, Items(ds)), acc.messages)
  }

  /** The runs finishing one after the other. */
  function Gather(acc: Collected, runs: seq<ProviderRun>): Collected
    decreases |runs|
  {
    if |runs| == 0 then acc else Gather(Absorb(acc, runs[0]), runs[1..])
  }

  /** `collectDiagnostics(path)` with the loaded providers' runs. */
  function CollectDiagnostics(path: string, runs: seq<ProviderRun>): Collected {
    if Ignored(path) || |runs| == 0 then Collected(None, [])
    else Gather(Collected(None, []), runs)
  }

  // ---------------------------------------------------------------------------
  // Properties

  /** What the successful runs reported, in finishing order. */
  function Reported(runs: seq<ProviderRun>): seq<Diagnostic> {
    if |runs| == 0 then []
    else (if runs[0].result.Success? then Items(runs[0].result.value) else []) + Reported(runs[1..])
  }

  /** The messages for the failed runs, in finishing order. */
  function Failures(runs: seq<ProviderRun>): seq<string> {
    if |runs| == 0 then []
    else
      (if runs[0].result.Failure? then [FailureMessage(runs[0].name, runs[0].result.error)] else [])
      + Failures(runs[1..])
  }

  /** One run adds what `Reported` and `Failures` list for it. */
  lemma AbsorbResult(acc: Collected, run: ProviderRun)
    ensures Items(Absorb(acc, run).diagnostics) == Items(acc.diagnostics) + Reported([run])
    ensures Absorb(acc, run).messages == acc.messages + Failures([run])
  {
    assert Reported([run]) == (if run.result.Success? then Items(run.result.value) else []) + Reported([]);
    assert Failures([run]) == (if run.result.Failure? then [FailureMessage(run.name, run.result.error)] else []) + Failures([]);
  }

  lemma {:induction false} GatherResult(acc: Collected, runs: seq<ProviderRun>)
    ensures Items(Gather(acc, runs).diagnostics) == Items(acc.diagnostics) + Reported(runs)
    ensures Gather(acc, runs).messages == acc.messages + Failures(runs)
    decreases |runs|
  {
    if |runs| > 0 {
      var acc' := Absorb(acc, runs[0]);
      AbsorbResult(acc, runs[0]);
      GatherResult(acc', runs[1..]);
      ReportedAppend([runs[0]], runs[1..]);
      FailuresAppend([runs[0]], runs[1..]);
      assert [runs[0]] + runs[1..] == runs;
    }
  }

  /** A path under `/vendor/` or `/var/cache/` gets nothing and consults no
      provider; any other path gets exactly what the successful providers
      reported, and one message per failed provider. */
  lemma CollectResult(path: string, runs: seq<ProviderRun>)
    ensures Ignored(path) ==> CollectDiagnostics(path, runs) == Collected(None, [])
    ensures !Ignored(path) ==> Items(CollectDiagnostics(path, runs).diagnostics) == Reported(runs)
    ensures !Ignored(path) ==> CollectDiagnostics(path, runs).messages == Failures(runs)
  {
    if !Ignored(path) && |runs| > 0 {
      GatherResult(Collected(None, []), runs);
    }
  }

  lemma {:induction false} ReportedAppend(a: seq<ProviderRun>, b: seq<ProviderRun>)
    ensures Reported(a + b) == Reported(a) + Reported(b)
    decreases |a|
  {
    if |a| > 0 {
      assert (a + b)[0] == a[0];
      assert (a + b)[1..] == a[1..] + b;
      ReportedAppend(a[1..], b);
    } else {
      assert a + b == b;
    }
  }

  lemma {:induction false} FailuresAppend(a: seq<ProviderRun>, b: seq<ProviderRun>)
    ensures Failures(a + b) == Failures(a) + Failures(b)
    decreases |a|
  {
    if |a| > 0 {
      assert (a + b)[0] == a[0];
      assert (a + b)[1..] == a[1..] + b;
      FailuresAppend(a[1..], b);
    } else {
      assert a + b == b;
    }
  }

  lemma FourRuns(pre: seq<ProviderRun>, x: ProviderRun, y: ProviderRun, post: seq<ProviderRun>)
    ensures Reported(pre + [x, y] + post) == Reported(pre) + Reported([x]) + Reported([y]) + Reported(post)
  {
    ReportedAppend(pre + [x, y], post);
    ReportedAppend(pre, [x, y]);
    assert [x] + [y] == [x, y];
    ReportedAppend([x], [y]);
    var a, b, c := Reported(pre), Reported([x]), Reported([y]);
    assert a + (b + c) == a + b + c;
  }

  /** Two runs finishing in the other order change the order of the
      diagnostics but not which ones are gathered. */
  lemma FinishingOrderIrrelevant(path: string, pre: seq<ProviderRun>, x: ProviderRun, y: ProviderRun, post: seq<ProviderRun>)
    ensures multiset(Items(CollectDiagnostics(path, pre + [x, y] + post).diagnostics))
      == multiset(Items(CollectDiagnostics(path, pre + [y, x] + post).diagnostics))
  {
    CollectResult(path, pre + [x, y] + post);
    CollectResult(path, pre + [y, x] + post);
    FourRuns(pre, x, y, post);
    FourRuns(pre, y, x, post);
  }

  /** The vendored-code filter, on an example path. */
  lemma VendorIgnored(prefix: string, suffix: string)
    ensures Ignored(prefix + "/vendor/" + suffix)
  {
    var p := prefix + "/vendor/" + suffix;
    assert p[|prefix|..][..8] == "/vendor/";
    assert HasPrefix(p[|prefix|..], IgnoredDirs[0]);
  }
}
