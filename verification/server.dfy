/** The language server's bookkeeping (internal/server/server.go) as a state
    machine. Client messages arrive already decoded; the runtime's timers,
    goroutines and mutexes are `Event`s that fire, clear, finish and call
    back in any order the scheduler allows. What the server sends out is a
    list of `Output`s per step.

    The environment supplies what the server would compute by running tools:
    the providers' diagnostics runs, the file contents read from disk, and
    php-cs-fixer's command result. */
module Server {
  import opened Wrappers
  import opened Text
  import opened Protocol
  import opened Config
  import opened Scheduler
  import opened Capabilities
  import Utils
  import Collect
  import Factory
  import PhpCsFixer
  import ApplyDiff
  import WholeDocument

  datatype FileChangeType = Created | Changed | Deleted

  datatype FileEvent = FileEvent(uri: Uri, kind: FileChangeType)

  /** The messages `Handle` dispatches on, by method name; the `id` of a
      request is what its reply carries. `Initialized`, `Exit` and
      `CancelRequest` are notifications, which get no reply; `cancelled` is
      the id of the request to cancel. */
  datatype Message =
    | Initialize(id: nat, entries: seq<Entry>, rawConfig: string)
    | Initialized
    | ExecuteCommand(id: nat, command: string)
    | DidOpen(uri: Uri, text: string)
    | DidChange(uri: Uri, changes: seq<string>)
    | DidClose(uri: Uri)
    | DidSave(uri: Uri, text: string)
    | Formatting(id: nat, uri: Uri)
    | DidChangeWatchedFiles(events: seq<FileEvent>)
    | Shutdown(id: nat)
    | Exit
    | CancelRequest(cancelled: nat)
    | Unhandled(id: nat, name: string)

  datatype ReplyBody =
    | Null
    | InitializeResult(capabilities: ServerCapabilities, info: ServerInfo)
    | Edits(edits: seq<TextEdit>)
    | Error(message: string)

  /** What the server sends. A `Publish` records the generation of the run
      that sent it, or `None` when no run did (this is not part of the
      notification). */
  datatype Output =
    | Publish(uri: Uri, diagnostics: DiagnosticSlice, run: Option<nat>)
    | ShowMessage(kind: MessageType, text: string)
    | Reply(id: nat, body: ReplyBody)
    | Close

  /** How a finishing diagnostics run fences its publish. As written, it
      reads the counter under the lock, releases the lock and publishes
      afterwards, so a run that passed the check can be overtaken by a newer
      change (and a newer run) before it sends. The corrected rule publishes
      in the same hold of the lock that reads the counter. */
  datatype Fence = CheckThenPublish | PublishUnderLock

  datatype Server = Server(
    configured: bool,
    rawConfig: string,
    formatters: seq<Factory.FormattingProvider>,
    documents: map<Uri, string>,
    sched: Sched,
    fence: Fence)

  /** A fresh server, fenced as the source is. */
  const Start: Server := Server(false, "", [], map[], Idle, CheckThenPublish)

  datatype Stepped = Stepped(server: Server, outputs: seq<Output>)

  // ---------------------------------------------------------------------------
  // Document cache

  function SetDocument(docs: map<Uri, string>, u: Uri, text: string): (r: map<Uri, string>)
    ensures u in r && r[u] == text
    ensures forall v :: v != u ==> (v in r <==> v in docs) && (v in r ==> r[v] == docs[v])
  {
    docs[u := text]
  }

  function DeleteDocument(docs: map<Uri, string>, u: Uri): (r: map<Uri, string>)
    ensures u !in r
    ensures forall v :: v != u ==> (v in r <==> v in docs) && (v in r ==> r[v] == docs[v])
  {
    docs - {u}
  }

  // ---------------------------------------------------------------------------
  // Client messages

  const UnknownCommandPrefix: string := "unknown command: "
  const ShowConfigPrefix: string := "Current configuration: "

  /** `publishDiagnostics`: never sends the nil slice. */
  function PublishOf(u: Uri, ds: DiagnosticSlice, run: Option<nat>): (o: Output)
    ensures o.Publish? && o.diagnostics.Some? && Items(o.diagnostics) == Items(ds)
  {
    Publish(u, Utils.EnsureDiagnosticsArray(ds), run)
  }

  /** The watched-file changes, in order: `.php` files that changed or were
      created get diagnostics scheduled; a deleted one gets an empty list
      published; anything else is ignored. */
  function Watched(s: Server, changes: seq<FileEvent>): Stepped
    decreases |changes|
  {
    if |changes| == 0 then Stepped(s, [])
    else
      var c := changes[0];
      if !HasSuffix(c.uri, ".php") then Watched(s, changes[1..])
      else if c.kind == Deleted then
        var rest := Watched(s, changes[1..]);
        Stepped(rest.server, [PublishOf(c.uri, Some([]), None)] + rest.outputs)
      else Watched(s.(sched := ScheduleDiagnostics(s.sched, c.uri)), changes[1..])
  }

  function ExecuteCommandReply(s: Server, id: nat, command: string): seq<Output> {
    if command == FullCommandName(ShowConfig) then
      [ShowMessage(MessageInfo, ShowConfigPrefix + s.rawConfig), Reply(id, Null)]
    else [Reply(id, Error(UnknownCommandPrefix + command))]
  }

  /** `Handle`: one client message. */
  function Handle(s: Server, m: Message): Stepped {
    match m
    case Initialize(id, entries, raw) =>
      var s' := if s.configured then s
        else s.(configured := true, rawConfig := raw, formatters := Factory.LoadFormattingProviders(entries));
      Stepped(s', [Reply(id, InitializeResult(Advertised(), Info()))])
    case Initialized => Stepped(s, [])
    case ExecuteCommand(id, command) => Stepped(s, ExecuteCommandReply(s, id, command))
    case DidOpen(u, text) =>
      Stepped(s.(documents := SetDocument(s.documents, u, text), sched := ScheduleDiagnostics(s.sched, u)), [])
    case DidChange(u, changes) =>
      var docs := if |changes| > 0 then SetDocument(s.documents, u, changes[|changes| - 1]) else s.documents;
      Stepped(s.(documents := docs, sched := ScheduleDiagnostics(s.sched, u)), [])
    case DidClose(u) =>
      Stepped(s.(documents := DeleteDocument(s.documents, u), sched := ScheduleDiagnostics(s.sched, u)), [])
    case DidSave(u, text) =>
      var docs := if text != "" then SetDocument(s.documents, u, text) else s.documents;
      Stepped(s.(documents := docs, sched := ScheduleDiagnosticsPriority(s.sched, u)), [])
    case Formatting(id, u) => Stepped(s.(sched := ScheduleFormatting(s.sched, u, id)), [])
    case DidChangeWatchedFiles(changes) => Watched(s, changes)
    case Shutdown(id) => Stepped(s, [Reply(id, Null)])
    case Exit => Stepped(s, [Close])
    case CancelRequest(_) => Stepped(s, [])
    case Unhandled(id, _) => Stepped(s, [Reply(id, Null)])
  }

  // ---------------------------------------------------------------------------
  // Runtime events

  datatype Event =
    | Receive(message: Message)
    | DiagTimerFires(i: nat)
    | DiagCallbackClears(i: nat)
    | DiagRunFinishes(i: nat, runs: seq<Collect.ProviderRun>)
    | DiagRunPublishes(i: nat)
    | FmtTimerFires(i: nat)
    | FmtCallbackRuns(i: nat, file: Result<string, string>, res: PhpCsFixer.CommandResult, ctxErr: Option<string>)

  /** The reply of a formatting request that is still current: the cached
      content, or the file read from disk; then the first formatting
      provider's result. The list of edits is empty when there is no
      provider, the provider fails or the text is already formatted, and
      otherwise holds the one whole-document edit to the formatted text. */
  function FormattingReply(s: Server, u: Uri, file: Result<string, string>, res: PhpCsFixer.CommandResult, ctxErr: Option<string>): (b: ReplyBody)
    ensures b.Error? <==> u !in s.documents && file.Failure?
    ensures b.Error? ==> b.message == "failed to read file: " + file.error
    ensures b.Edits? ==> |b.edits| <= 1
    ensures u in s.documents || file.Success? ==>
      var content := if u in s.documents then s.documents[u] else file.value;
      && (|s.formatters| == 0 ==> b == Edits([]))
      && (|s.formatters| > 0 ==>
            var out := PhpCsFixer.Format(ApplyDiff.HeadersAnywhere, s.formatters[0].config, content, ctxErr, res);
            && (b == Edits([]) <==> out.err.Some? || out.text == content)
            && (out.err.None? && out.text != content ==> b == Edits([WholeDocument.WholeDocumentEdit(content, out.text)])))
    ensures (b.Edits? && |b.edits| == 1) ==>
      var content := if u in s.documents then s.documents[u] else file.value;
      && |s.formatters| > 0
      && b.edits[0].newText != content
      && b.edits[0] == WholeDocument.WholeDocumentEdit(content, b.edits[0].newText)
      && b.edits[0].newText == PhpCsFixer.Format(ApplyDiff.HeadersAnywhere, s.formatters[0].config, content, ctxErr, res).text
  {
    var content := if u in s.documents then Success(s.documents[u]) else file;
    if content.Failure? then Error("failed to read file: " + content.error)
    else if |s.formatters| == 0 then Edits([])
    else
      var out := PhpCsFixer.Format(ApplyDiff.HeadersAnywhere, s.formatters[0].config, content.value, ctxErr, res);
      if out.err.Some? || out.text == content.value then Edits([])
      else Edits([WholeDocument.WholeDocumentEdit(content.value, out.text)])
  }

  /** Running diagnostics task `i` finishes with its providers' runs: failures
      are shown while collecting, then the counter is read. Under the
      corrected fence the result is published at once if the task is still
      current; as written, a current task is only marked as checked and
      publishes in a later step. */
  function FinishRun(s: Server, i: nat, runs: seq<Collect.ProviderRun>): (r: Stepped)
    requires i < |s.sched.diagTasks| && s.sched.diagTasks[i].stage == Running
  {
    var t := s.sched.diagTasks[i];
    var c := Collect.CollectDiagnostics(Utils.URIToPath(t.uri), runs);
    var shown := seq(|c.messages|, k requires 0 <= k < |c.messages| => ShowMessage(MessageError, c.messages[k]));
    match s.fence
    case PublishUnderLock =>
      var (sched, current) := FinishDiag(s.sched, i);
      var published := if current then [PublishOf(t.uri, c.diagnostics, Some(t.gen))] else [];
      Stepped(s.(sched := sched), shown + published)
    case CheckThenPublish =>
      Stepped(s.(sched := CheckDiag(s.sched, i, c.diagnostics).0), shown)
  }

  /** Checked diagnostics task `i` publishes what it collected. As written it
      does not look at the counter again. Under the corrected fence no task
      is ever left checked; one that is re-reads the counter like a
      finishing run. */
  function PublishRun(s: Server, i: nat): (r: Stepped)
    requires i < |s.sched.diagTasks| && s.sched.diagTasks[i].stage.Checked?
  {
    var t := s.sched.diagTasks[i];
    var sends := s.fence == CheckThenPublish || t.gen == Gen(s.sched.diagGen, t.uri);
    var published := if sends then [PublishOf(t.uri, t.stage.diagnostics, Some(t.gen))] else [];
    Stepped(s.(sched := PublishDiag(s.sched, i)), published)
  }

  /** Fired formatting task `i` runs its callback: a superseded request is
      answered with no edits. */
  function FormattingCallback(s: Server, i: nat, file: Result<string, string>, res: PhpCsFixer.CommandResult, ctxErr: Option<string>): (r: Stepped)
    requires i < |s.sched.fmtTasks| && s.sched.fmtTasks[i].fired
  {
    var t := s.sched.fmtTasks[i];
    var (sched, current) := FmtCallback(s.sched, i);
    var body := if current then FormattingReply(s, t.uri, file, res, ctxErr) else Edits([]);
    Stepped(s.(sched := sched), [Reply(t.request, body)])
  }

  /** One step; an event that cannot happen in this state changes nothing. */
  function Step(s: Server, e: Event): Stepped {
    match e
    case Receive(m) => Handle(s, m)
    case DiagTimerFires(i) =>
      if i < |s.sched.diagTasks| && s.sched.diagTasks[i].stage == Armed
      then Stepped(s.(sched := FireDiag(s.sched, i)), []) else Stepped(s, [])
    case DiagCallbackClears(i) =>
      if i < |s.sched.diagTasks| && s.sched.diagTasks[i].stage == Fired
      then Stepped(s.(sched := ClearDiag(s.sched, i)), []) else Stepped(s, [])
    case DiagRunFinishes(i, runs) =>
      if i < |s.sched.diagTasks| && s.sched.diagTasks[i].stage == Running
      then FinishRun(s, i, runs) else Stepped(s, [])
    case DiagRunPublishes(i) =>
      if i < |s.sched.diagTasks| && s.sched.diagTasks[i].stage.Checked?
      then PublishRun(s, i) else Stepped(s, [])
    case FmtTimerFires(i) =>
      if i < |s.sched.fmtTasks| && !s.sched.fmtTasks[i].fired
      then Stepped(s.(sched := FireFmt(s.sched, i)), []) else Stepped(s, [])
    case FmtCallbackRuns(i, file, res, ctxErr) =>
      if i < |s.sched.fmtTasks| && s.sched.fmtTasks[i].fired
      then FormattingCallback(s, i, file, res, ctxErr) else Stepped(s, [])
  }

  /** A run of events from `s`: the final state and everything sent. */
  function Run(s: Server, es: seq<Event>): Stepped
    decreases |es|
  {
    if |es| == 0 then Stepped(s, [])
    else
      var first := Step(s, es[0]);
      var rest := Run(first.server, es[1..]);
      Stepped(rest.server, first.outputs + rest.outputs)
  }

  // ---------------------------------------------------------------------------
  // Messages

  /** Only the first `initialize` loads the configuration and the formatting
      providers; a repeated one answers the same and changes nothing. */
  lemma InitializeOnce(s: Server, id1: nat, e1: seq<Entry>, raw1: string, id2: nat, e2: seq<Entry>, raw2: string)
    ensures var first := Handle(s, Initialize(id1, e1, raw1));
      && first.server.configured
      && (!s.configured ==> first.server.formatters == Factory.LoadFormattingProviders(e1) && first.server.rawConfig == raw1)
      && (s.configured ==> first.server == s)
      && Handle(first.server, Initialize(id2, e2, raw2)).server == first.server
      && Handle(first.server, Initialize(id2, e2, raw2)).outputs == [Reply(id2, InitializeResult(Advertised(), Info()))]
  {
  }

  /** `workspace/executeCommand`: only `php-diagls/showConfig` is known; it
      shows the raw configuration and answers null, anything else is answered
      with an error naming the command. */
  lemma ExecuteCommandOutputs(s: Server, id: nat, command: string)
    ensures var r := Handle(s, ExecuteCommand(id, command));
      && r.server == s
      && (command == "php-diagls/showConfig" ==>
            r.outputs == [ShowMessage(MessageInfo, "Current configuration: " + s.rawConfig), Reply(id, Null)])
      && (command != "php-diagls/showConfig" ==>
            r.outputs == [Reply(id, Error("unknown command: " + command))])
  {
    assert FullCommandName(ShowConfig) == "php-diagls/showConfig";
  }

  /** The messages that name one document. */
  predicate NamesDocument(m: Message) {
    m.DidOpen? || m.DidChange? || m.DidClose? || m.DidSave?
  }

  /** The document cache: opening stores the text, a change stores the last
      full text if there is one, saving stores a non-empty text, closing
      forgets the document; no other entry and no other message touches it. */
  lemma HandleDocuments(s: Server, m: Message, v: Uri)
    ensures var docs := Handle(s, m).server.documents;
      && (m.DidOpen? ==> m.uri in docs && docs[m.uri] == m.text)
      && (m.DidChange? && |m.changes| > 0 ==> m.uri in docs && docs[m.uri] == m.changes[|m.changes| - 1])
      && (m.DidChange? && |m.changes| == 0 ==> docs == s.documents)
      && (m.DidSave? && m.text != "" ==> m.uri in docs && docs[m.uri] == m.text)
      && (m.DidSave? && m.text == "" ==> docs == s.documents)
      && (m.DidClose? ==> m.uri !in docs)
      && (NamesDocument(m) && v != m.uri ==> (v in docs <==> v in s.documents) && (v in docs ==> docs[v] == s.documents[v]))
      && (!NamesDocument(m) ==> docs == s.documents)
  {
    if m.DidChangeWatchedFiles? {
      WatchedEffect(s, m.events);
    }
  }

  /** Every message that names a document advances that document's
      diagnostics generation by one and no other; `didSave` starts its run at
      once, the others arm a timer for it. */
  lemma HandleSchedules(s: Server, m: Message, v: Uri)
    requires NamesDocument(m)
    ensures var sched := Handle(s, m).server.sched;
      && Gen(sched.diagGen, m.uri) == Gen(s.sched.diagGen, m.uri) + 1
      && (v != m.uri ==> Gen(sched.diagGen, v) == Gen(s.sched.diagGen, v))
      && (m.DidSave? ==> DiagTask(m.uri, Gen(sched.diagGen, m.uri), Running) in sched.diagTasks)
      && (!m.DidSave? ==> DiagTask(m.uri, Gen(sched.diagGen, m.uri), Armed) in sched.diagTasks)
      && sched.fmtTasks == s.sched.fmtTasks && sched.fmtGen == s.sched.fmtGen
  {
  }

  // Watched files

  predicate IsPhp(c: FileEvent) {
    HasSuffix(c.uri, ".php")
  }

  /** How many of the watched-file events reschedule `u`. */
  function Rescheduled(cs: seq<FileEvent>, u: Uri): nat {
    if |cs| == 0 then 0
    else (if cs[0].uri == u && IsPhp(cs[0]) && cs[0].kind != Deleted then 1 else 0) + Rescheduled(cs[1..], u)
  }

  /** The deleted `.php` files among the events, in order. */
  function DeletedPhp(cs: seq<FileEvent>): seq<Uri> {
    if |cs| == 0 then []
    else (if IsPhp(cs[0]) && cs[0].kind == Deleted then [cs[0].uri] else []) + DeletedPhp(cs[1..])
  }

  /** Watched-file events: each changed or created `.php` file is
      rescheduled, a deleted one does not move its counter, and the cache and
      the formatting tasks are untouched. */
  lemma {:induction false} WatchedEffect(s: Server, cs: seq<FileEvent>)
    ensures var r := Watched(s, cs);
      && (forall v :: Gen(r.server.sched.diagGen, v) == Gen(s.sched.diagGen, v) + Rescheduled(cs, v))
      && r.server.documents == s.documents && r.server.fence == s.fence
      && r.server.sched.fmtTasks == s.sched.fmtTasks && r.server.sched.fmtGen == s.sched.fmtGen
    decreases |cs|
  {
    if |cs| > 0 {
      var c := cs[0];
      if !IsPhp(c) || c.kind == Deleted {
        WatchedEffect(s, cs[1..]);
      } else {
        WatchedEffect(s.(sched := ScheduleDiagnostics(s.sched, c.uri)), cs[1..]);
      }
    }
  }

  /** Each deleted `.php` file gets an empty list published, in order, outside
      the generation fence; nothing else is sent. */
  lemma {:induction false} WatchedOutputs(s: Server, cs: seq<FileEvent>)
    ensures var r := Watched(s, cs);
      && |r.outputs| == |DeletedPhp(cs)|
      && (forall k :: 0 <= k < |r.outputs| ==> r.outputs[k] == Publish(DeletedPhp(cs)[k], Some([]), None))
    decreases |cs|
  {
    if |cs| > 0 {
      var c := cs[0];
      if !IsPhp(c) || c.kind == Deleted {
        WatchedOutputs(s, cs[1..]);
      } else {
        WatchedOutputs(s.(sched := ScheduleDiagnostics(s.sched, c.uri)), cs[1..]);
      }
    }
  }

  lemma {:induction false} WatchedValid(s: Server, cs: seq<FileEvent>)
    requires Valid(s.sched)
    ensures Valid(Watched(s, cs).server.sched)
    decreases |cs|
  {
    if |cs| > 0 {
      var c := cs[0];
      if !IsPhp(c) || c.kind == Deleted {
        WatchedValid(s, cs[1..]);
      } else {
        ScheduleDiagnosticsValid(s.sched, c.uri);
        WatchedValid(s.(sched := ScheduleDiagnostics(s.sched, c.uri)), cs[1..]);
      }
    }
  }

  // ---------------------------------------------------------------------------
  // Formatting

  /** A cached document is formatted from the cache: what is on disk, or
      whether it can be read, does not matter. */
  lemma FormattingUsesCache(s: Server, u: Uri, f1: Result<string, string>, f2: Result<string, string>, res: PhpCsFixer.CommandResult, ctxErr: Option<string>)
    requires u in s.documents
    ensures FormattingReply(s, u, f1, res, ctxErr) == FormattingReply(s, u, f2, res, ctxErr)
  {
  }

  /** The one edit a current formatting request is answered with turns the
      document into the formatter's output. */
  lemma FormattingEditApplies(s: Server, u: Uri, file: Result<string, string>, res: PhpCsFixer.CommandResult, ctxErr: Option<string>)
    requires var b := FormattingReply(s, u, file, res, ctxErr); b.Edits? && |b.edits| == 1
    requires u in s.documents ==> |s.documents[u]| < TwoTo32
    requires u !in s.documents && file.Success? ==> |file.value| < TwoTo32
    ensures var b := FormattingReply(s, u, file, res, ctxErr);
      var content := if u in s.documents then s.documents[u] else file.value;
      WholeDocument.ApplyEdit(content, b.edits[0]) == Some(b.edits[0].newText)
  {
    var b := FormattingReply(s, u, file, res, ctxErr);
    var content := if u in s.documents then s.documents[u] else file.value;
    WholeDocument.WholeEditReplaces(content, b.edits[0].newText);
  }

  /** A formatting callback whose request has been superseded by a newer one
      for the same document answers with an empty list of edits. */
  lemma StaleFormattingReply(s: Server, i: nat, file: Result<string, string>, res: PhpCsFixer.CommandResult, ctxErr: Option<string>)
    requires i < |s.sched.fmtTasks| && s.sched.fmtTasks[i].fired
    ensures var t := s.sched.fmtTasks[i];
      var r := Step(s, FmtCallbackRuns(i, file, res, ctxErr));
      && |r.outputs| == 1 && r.outputs[0].Reply? && r.outputs[0].id == t.request
      && (t.gen != Gen(s.sched.fmtGen, t.uri) ==> r.outputs[0].body == Edits([]))
      && (t.gen == Gen(s.sched.fmtGen, t.uri) ==> r.outputs[0].body == FormattingReply(s, t.uri, file, res, ctxErr))
  {
  }

  /** A formatting request whose timer has not fired yet is dropped when a
      newer request for the same document arrives: its task is stopped and
      nothing answers it, so the client's request stays unanswered. */
  lemma SupersededFormattingDropped(s: Server, u: Uri, g: nat, r1: nat, r2: nat)
    requires Valid(s.sched)
    requires u in s.sched.fmtTimers && s.sched.fmtTimers[u] == g
    requires FmtTask(u, g, false, r1) in s.sched.fmtTasks
    ensures var r := Handle(s, Formatting(r2, u));
      && FmtTask(u, g, false, r1) !in r.server.sched.fmtTasks
      && r.outputs == []
  {
  }

  // ---------------------------------------------------------------------------
  // Diagnostics runs

  /** A finishing run shows one error message per failed provider. Then,
      exactly when its generation is still the document's current one, it
      publishes what the successful providers reported (nothing for an
      ignored path) under the corrected fence, or keeps that result for a
      later publish as written; a superseded run leaves. */
  lemma FinishRunOutputs(s: Server, i: nat, runs: seq<Collect.ProviderRun>)
    requires i < |s.sched.diagTasks| && s.sched.diagTasks[i].stage == Running
    ensures var t := s.sched.diagTasks[i];
      var ignored := Collect.Ignored(Utils.URIToPath(t.uri));
      var failures := if ignored then [] else Collect.Failures(runs);
      var reported := if ignored then [] else Collect.Reported(runs);
      var current := t.gen == Gen(s.sched.diagGen, t.uri);
      var r := FinishRun(s, i, runs);
      && |r.outputs| == |failures| + (if s.fence == PublishUnderLock && current then 1 else 0)
      && (forall k :: 0 <= k < |failures| ==> r.outputs[k] == ShowMessage(MessageError, failures[k]))
      && (s.fence == PublishUnderLock && current ==>
            r.outputs[|failures|] == Publish(t.uri, Some(reported), Some(t.gen)))
      && (s.fence == CheckThenPublish && current ==>
            && |r.server.sched.diagTasks| == |s.sched.diagTasks|
            && r.server.sched.diagTasks[i].uri == t.uri && r.server.sched.diagTasks[i].gen == t.gen
            && r.server.sched.diagTasks[i].stage.Checked?
            && Items(r.server.sched.diagTasks[i].stage.diagnostics) == reported)
      && (!current ==> |r.server.sched.diagTasks| + 1 == |s.sched.diagTasks|)
  {
    var t := s.sched.diagTasks[i];
    Collect.CollectResult(Utils.URIToPath(t.uri), runs);
  }

  /** A checked run sends what it collected, under the generation it was
      started with, and leaves. As written it sends even if its document has
      been rescheduled since its check; under the corrected fence it sends
      only while still current. */
  lemma PublishRunOutputs(s: Server, i: nat)
    requires i < |s.sched.diagTasks| && s.sched.diagTasks[i].stage.Checked?
    ensures var t := s.sched.diagTasks[i];
      var r := PublishRun(s, i);
      && |r.server.sched.diagTasks| + 1 == |s.sched.diagTasks|
      && (s.fence == CheckThenPublish || t.gen == Gen(s.sched.diagGen, t.uri) ==>
            r.outputs == [Publish(t.uri, Some(Items(t.stage.diagnostics)), Some(t.gen))])
      && (s.fence == PublishUnderLock && t.gen != Gen(s.sched.diagGen, t.uri) ==> r.outputs == [])
  {
  }

  /** A client message publishes only outside the fence: for deleted files. */
  lemma HandlePublishesNoRun(s: Server, m: Message)
    ensures forall o :: o in Handle(s, m).outputs && o.Publish? ==> o.run.None?
  {
    if m.DidChangeWatchedFiles? {
      WatchedOutputs(s, m.events);
      forall o | o in Handle(s, m).outputs
        ensures o.Publish? && o.run.None?
      {
        var k :| 0 <= k < |Handle(s, m).outputs| && Handle(s, m).outputs[k] == o;
      }
    }
  }

  /** The corrected fence at one step: a publish by a run carries the
      generation that is current for its document when it is sent. */
  lemma StepPublishesCurrent(s: Server, e: Event)
    requires s.fence == PublishUnderLock
    ensures forall o :: o in Step(s, e).outputs && o.Publish? && o.run.Some? ==>
      o.run.value == Gen(s.sched.diagGen, o.uri)
  {
    match e
    case Receive(m) => HandlePublishesNoRun(s, m);
    case DiagRunFinishes(i, runs) =>
      if i < |s.sched.diagTasks| && s.sched.diagTasks[i].stage == Running {
        var t := s.sched.diagTasks[i];
        forall o | o in FinishRun(s, i, runs).outputs && o.Publish?
          ensures o.uri == t.uri && o.run == Some(t.gen) && t.gen == Gen(s.sched.diagGen, t.uri)
        {
        }
      }
    case DiagRunPublishes(i) =>
      if i < |s.sched.diagTasks| && s.sched.diagTasks[i].stage.Checked? {
        PublishRunOutputs(s, i);
      }
    case _ =>
  }

  /** No step changes how runs are fenced. */
  lemma StepKeepsFence(s: Server, e: Event)
    ensures Step(s, e).server.fence == s.fence
  {
    if e.Receive? && e.message.DidChangeWatchedFiles? {
      WatchedEffect(s, e.message.events);
    }
  }

  /** Diagnostics generations never go down. */
  lemma HandleGensGrow(s: Server, m: Message)
    ensures GensGrow(s.sched.diagGen, Handle(s, m).server.sched.diagGen)
  {
    if m.DidChangeWatchedFiles? {
      WatchedEffect(s, m.events);
    }
  }

  lemma StepGensGrow(s: Server, e: Event)
    ensures GensGrow(s.sched.diagGen, Step(s, e).server.sched.diagGen)
  {
    if e.Receive? {
      HandleGensGrow(s, e.message);
    }
  }

  lemma {:induction false} RunGensGrow(s: Server, es: seq<Event>)
    ensures GensGrow(s.sched.diagGen, Run(s, es).server.sched.diagGen)
    decreases |es|
  {
    if |es| > 0 {
      StepGensGrow(s, es[0]);
      RunGensGrow(Step(s, es[0]).server, es[1..]);
    }
  }

  /** The property the generation counters exist for, under the corrected
      fence: once a newer change to a document has been scheduled, no run of
      an older generation ever publishes for it, whatever the timers,
      goroutines and providers do afterwards. */
  lemma {:induction false} StaleNeverPublishes(s: Server, es: seq<Event>, u: Uri, g: nat)
    requires s.fence == PublishUnderLock
    requires g < Gen(s.sched.diagGen, u)
    ensures forall o :: o in Run(s, es).outputs && o.Publish? && o.uri == u ==> o.run != Some(g)
    decreases |es|
  {
    if |es| > 0 {
      var first := Step(s, es[0]);
      StepPublishesCurrent(s, es[0]);
      StepGensGrow(s, es[0]);
      StepKeepsFence(s, es[0]);
      StaleNeverPublishes(first.server, es[1..], u, g);
    }
  }

  /** What each message does to the scheduler. */
  lemma HandleSched(s: Server, m: Message)
    ensures m.DidOpen? || m.DidChange? || m.DidClose? ==> Handle(s, m).server.sched == ScheduleDiagnostics(s.sched, m.uri)
    ensures m.DidSave? ==> Handle(s, m).server.sched == ScheduleDiagnosticsPriority(s.sched, m.uri)
    ensures m.Formatting? ==> Handle(s, m).server.sched == ScheduleFormatting(s.sched, m.uri, m.id)
    ensures m.DidChangeWatchedFiles? ==> Handle(s, m).server.sched == Watched(s, m.events).server.sched
    ensures !NamesDocument(m) && !m.Formatting? && !m.DidChangeWatchedFiles? ==> Handle(s, m).server.sched == s.sched
  {
  }

  /** Every message and every step keeps the scheduler's bookkeeping valid. */
  lemma HandleValid(s: Server, m: Message)
    requires Valid(s.sched)
    ensures Valid(Handle(s, m).server.sched)
  {
    HandleSched(s, m);
    if m.DidOpen? || m.DidChange? || m.DidClose? {
      ScheduleDiagnosticsValid(s.sched, m.uri);
    } else if m.DidSave? {
      ScheduleDiagnosticsPriorityValid(s.sched, m.uri);
    } else if m.Formatting? {
      ScheduleFormattingValid(s.sched, m.uri, m.id);
    } else if m.DidChangeWatchedFiles? {
      WatchedValid(s, m.events);
    }
  }

  lemma StepValid(s: Server, e: Event)
    requires Valid(s.sched)
    ensures Valid(Step(s, e).server.sched)
  {
    match e
    case Receive(m) => HandleValid(s, m);
    case DiagTimerFires(i) => DiagStepsValid(s.sched, i);
    case DiagCallbackClears(i) => DiagStepsValid(s.sched, i);
    case DiagRunFinishes(i, _) => DiagStepsValid(s.sched, i);
    case DiagRunPublishes(i) => DiagStepsValid(s.sched, i);
    case FmtTimerFires(i) => FmtStepsValid(s.sched, i);
    case FmtCallbackRuns(i, _, _, _) => FmtStepsValid(s.sched, i);
  }

  lemma {:induction false} RunValid(s: Server, es: seq<Event>)
    requires Valid(s.sched)
    ensures Valid(Run(s, es).server.sched)
    decreases |es|
  {
    if |es| > 0 {
      StepValid(s, es[0]);
      RunValid(Step(s, es[0]).server, es[1..]);
    }
  }

  // ---------------------------------------------------------------------------
  // The timer race

  /** The scheduler half of the race, up to the newer change. */
  lemma RaceFirstHalf(u: Uri)
    ensures var c := ScheduleDiagnostics(FireDiag(ScheduleDiagnostics(Idle, u), 0), u);
      && c.diagTasks == [DiagTask(u, 1, Fired), DiagTask(u, 2, Armed)]
      && c.diagTimers == map[u := 2]
      && Gen(c.diagGen, u) == 2
  {
    var a := ScheduleDiagnostics(Idle, u);
    assert a.diagTasks == [DiagTask(u, 1, Armed)];
    var b := FireDiag(a, 0);
    assert b.diagTasks == [DiagTask(u, 1, Fired)] && b.diagTimers == map[u := 1];
    assert StopDiag([DiagTask(u, 1, Fired)], u, 1) == [DiagTask(u, 1, Fired)];
  }

  /** The rest: the old callback clears the entry, the next change stops
      nothing. */
  lemma RaceSecondHalf(c: Sched, u: Uri)
    requires c.diagTasks == [DiagTask(u, 1, Fired), DiagTask(u, 2, Armed)]
    requires Gen(c.diagGen, u) == 2
    ensures var e := ScheduleDiagnostics(ClearDiag(c, 0), u);
      DiagTask(u, 2, Armed) in e.diagTasks && DiagTask(u, 3, Armed) in e.diagTasks
  {
    var d := ClearDiag(c, 0);
    assert u !in d.diagTimers;
    assert d.diagTasks[1] == DiagTask(u, 2, Armed);
  }

  /** A diagnostics timer's callback clears the document's timer entry without
      checking that it is still its own. If a change arrives after a timer
      has fired but before its callback clears the entry, the callback
      deletes the newer timer's entry, and the change after that finds no
      timer to stop: two armed timers then wait for the same document. The
      fence above still keeps the older of them from publishing. */
  lemma TwoArmedTimers(u: Uri, text: string)
    ensures var s1 := Step(Start, Receive(DidOpen(u, text))).server;
      var s2 := Step(s1, DiagTimerFires(0)).server;
      var s3 := Step(s2, Receive(DidChange(u, []))).server;
      var s4 := Step(s3, DiagCallbackClears(0)).server;
      var s5 := Step(s4, Receive(DidChange(u, []))).server;
      && DiagTask(u, 2, Armed) in s5.sched.diagTasks
      && DiagTask(u, 3, Armed) in s5.sched.diagTasks
  {
    RaceFirstHalf(u);
    var a := ScheduleDiagnostics(Idle, u);
    assert a.diagTasks == [DiagTask(u, 1, Armed)];
    var s1 := Step(Start, Receive(DidOpen(u, text))).server;
    ReceiveSchedules(Start, DidOpen(u, text));
    var s2 := Step(s1, DiagTimerFires(0)).server;
    TimerFiresSchedules(s1, 0);
    var c := ScheduleDiagnostics(FireDiag(a, 0), u);
    var s3 := Step(s2, Receive(DidChange(u, []))).server;
    ReceiveSchedules(s2, DidChange(u, []));
    assert s3.sched == c;
    var s4 := Step(s3, DiagCallbackClears(0)).server;
    CallbackClearsSchedules(s3, 0);
    RaceSecondHalf(c, u);
    ReceiveSchedules(s4, DidChange(u, []));
  }

  lemma ReceiveSchedules(s: Server, m: Message)
    requires m.DidOpen? || m.DidChange?
    ensures Step(s, Receive(m)).server.sched == ScheduleDiagnostics(s.sched, m.uri)
  {
  }

  lemma TimerFiresSchedules(s: Server, i: nat)
    requires i < |s.sched.diagTasks| && s.sched.diagTasks[i].stage == Armed
    ensures Step(s, DiagTimerFires(i)).server.sched == FireDiag(s.sched, i)
  {
  }

  lemma CallbackClearsSchedules(s: Server, i: nat)
    requires i < |s.sched.diagTasks| && s.sched.diagTasks[i].stage == Fired
    ensures Step(s, DiagCallbackClears(i)).server.sched == ClearDiag(s.sched, i)
  {
  }

  // ---------------------------------------------------------------------------
  // The publish race

  /** As written, the fence has a gap between the check and the publish: two
      saves of one document start two runs. The older run reports `d`; the
      newer one, after the fix was saved, runs the same provider, which now
      reports nothing. Both pass their
      check before either publishes, the newer one publishes first, and the
      older one then publishes `d` with generation 1 while generation 2 is
      current. The client is left showing the stale diagnostic. */
  lemma StaleRunPublishesLast(u: Uri, text: string, name: string, d: Diagnostic)
    requires !Collect.Ignored(Utils.URIToPath(u))
    ensures var s1 := Step(Start, Receive(DidSave(u, text))).server;
      var s2 := Step(s1, DiagRunFinishes(0, [Collect.ProviderRun(name, Success(Some([d])))])).server;
      var s3 := Step(s2, Receive(DidSave(u, text))).server;
      var s4 := Step(s3, DiagRunFinishes(1, [Collect.ProviderRun(name, Success(None))])).server;
      var p5 := Step(s4, DiagRunPublishes(1));
      var p6 := Step(p5.server, DiagRunPublishes(0));
      && p5.outputs == [Publish(u, Some([]), Some(2))]
      && p6.outputs == [Publish(u, Some([d]), Some(1))]
      && Gen(p6.server.sched.diagGen, u) == 2
  {
    var s4 := TwoRunsChecked(u, text, name, d);
    StaleRunPublishes(s4, u, d);
  }

  /** The last two steps of the trace, from both runs holding their results. */
  lemma StaleRunPublishes(s4: Server, u: Uri, d: Diagnostic)
    requires s4.sched.diagTasks == [DiagTask(u, 1, Checked(Some([d]))), DiagTask(u, 2, Checked(None))]
    requires Gen(s4.sched.diagGen, u) == 2 && s4.fence == CheckThenPublish
    ensures var p5 := Step(s4, DiagRunPublishes(1));
      var p6 := Step(p5.server, DiagRunPublishes(0));
      && p5.outputs == [Publish(u, Some([]), Some(2))]
      && p6.outputs == [Publish(u, Some([d]), Some(1))]
      && Gen(p6.server.sched.diagGen, u) == 2
  {
    var p5 := Step(s4, DiagRunPublishes(1));
    PublishRunOutputs(s4, 1);
    assert p5.server.sched.diagTasks == [DiagTask(u, 1, Checked(Some([d])))];
    PublishRunOutputs(p5.server, 0);
  }

  /** The first three steps of the trace: run 1 holds `d`. */
  lemma FirstRunChecked(u: Uri, text: string, name: string, d: Diagnostic) returns (s2: Server)
    requires !Collect.Ignored(Utils.URIToPath(u))
    ensures s2 == Step(Step(Start, Receive(DidSave(u, text))).server, DiagRunFinishes(0, [Collect.ProviderRun(name, Success(Some([d])))])).server
    ensures s2.sched.diagTasks == [DiagTask(u, 1, Checked(Some([d])))] && Gen(s2.sched.diagGen, u) == 1
    ensures u !in s2.sched.diagTimers && s2.fence == CheckThenPublish
  {
    var s1 := FirstSave(u, text);
    var runs := [Collect.ProviderRun(name, Success(Some([d])))];
    s2 := Step(s1, DiagRunFinishes(0, runs)).server;
    OneReport(Utils.URIToPath(u), name, d);
    FinishChecks(s1, 0, runs);
  }

  /** The first four steps of the trace: run 1 holds `d`, run 2 nothing. */
  lemma TwoRunsChecked(u: Uri, text: string, name: string, d: Diagnostic) returns (s4: Server)
    requires !Collect.Ignored(Utils.URIToPath(u))
    ensures var s2 := Step(Step(Start, Receive(DidSave(u, text))).server, DiagRunFinishes(0, [Collect.ProviderRun(name, Success(Some([d])))])).server;
      s4 == Step(Step(s2, Receive(DidSave(u, text))).server, DiagRunFinishes(1, [Collect.ProviderRun(name, Success(None))])).server
    ensures s4.sched.diagTasks == [DiagTask(u, 1, Checked(Some([d]))), DiagTask(u, 2, Checked(None))]
    ensures Gen(s4.sched.diagGen, u) == 2 && s4.fence == CheckThenPublish
  {
    var s2 := FirstRunChecked(u, text, name, d);
    var s3 := Step(s2, Receive(DidSave(u, text))).server;
    SaveStarts(s2, u, text);
    assert s3.sched.diagTasks == [DiagTask(u, 1, Checked(Some([d]))), DiagTask(u, 2, Running)];
    var runs := [Collect.ProviderRun(name, Success(None))];
    s4 := Step(s3, DiagRunFinishes(1, runs)).server;
    NoReport(Utils.URIToPath(u), name);
    FinishChecks(s3, 1, runs);
  }

  /** The first step of the trace: the save starts run 1. */
  lemma FirstSave(u: Uri, text: string) returns (s1: Server)
    ensures s1 == Step(Start, Receive(DidSave(u, text))).server
    ensures s1.sched.diagTasks == [DiagTask(u, 1, Running)] && Gen(s1.sched.diagGen, u) == 1
    ensures u !in s1.sched.diagTimers && s1.fence == CheckThenPublish
  {
    s1 := Step(Start, Receive(DidSave(u, text))).server;
    SaveStarts(Start, u, text);
  }

  lemma SaveStarts(s: Server, u: Uri, text: string)
    ensures Step(s, Receive(DidSave(u, text))).server.sched == ScheduleDiagnosticsPriority(s.sched, u)
    ensures Step(s, Receive(DidSave(u, text))).server.fence == s.fence
  {
  }

  /** One provider reporting `d` on a path that is not skipped. */
  lemma OneReport(path: string, name: string, d: Diagnostic)
    requires !Collect.Ignored(path)
    ensures Collect.CollectDiagnostics(path, [Collect.ProviderRun(name, Success(Some([d])))]) == Collect.Collected(Some([d]), [])
  {
    var run := Collect.ProviderRun(name, Success(Some([d])));
    var acc := Collect.Absorb(Collect.Collected(None, []), run);
    assert Items(Some([d])) == [d] && [] + [d] == [d];
    assert acc == Collect.Collected(Some([d]), []);
    assert [run][1..] == [];
    assert Collect.Gather(Collect.Collected(None, []), [run]) == Collect.Gather(acc, []);
  }

  /** One provider reporting nothing: the collection stays nil. */
  lemma NoReport(path: string, name: string)
    requires !Collect.Ignored(path)
    ensures Collect.CollectDiagnostics(path, [Collect.ProviderRun(name, Success(None))]) == Collect.Collected(None, [])
  {
    var run := Collect.ProviderRun(name, Success(None));
    assert [run][1..] == [];
    assert Collect.Gather(Collect.Collected(None, []), [run]) == Collect.Gather(Collect.Absorb(Collect.Collected(None, []), run), []);
  }

  /** As written, a current run whose providers all succeed finishes by
      holding what they reported, and shows nothing. */
  lemma FinishChecks(s: Server, i: nat, runs: seq<Collect.ProviderRun>)
    requires s.fence == CheckThenPublish
    requires i < |s.sched.diagTasks| && s.sched.diagTasks[i].stage == Running
    requires s.sched.diagTasks[i].gen == Gen(s.sched.diagGen, s.sched.diagTasks[i].uri)
    requires Collect.CollectDiagnostics(Utils.URIToPath(s.sched.diagTasks[i].uri), runs).messages == []
    ensures var c := Collect.CollectDiagnostics(Utils.URIToPath(s.sched.diagTasks[i].uri), runs);
      var r := Step(s, DiagRunFinishes(i, runs));
      && r.outputs == []
      && r.server.sched == s.sched.(diagTasks := s.sched.diagTasks[i := s.sched.diagTasks[i].(stage := Checked(c.diagnostics))])
      && r.server.fence == s.fence
  {
  }
}
