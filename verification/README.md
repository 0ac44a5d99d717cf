# php-diagls in Dafny

A model of the core of php-diagls, a language server for PHP written in Go.
The server keeps a cache of the open documents and debounces diagnostics and
formatting per document with generation counters and timers. It runs
php-lint, PHPStan and php-cs-fixer, maps their output to LSP diagnostics,
and turns php-cs-fixer's unified diff into either diagnostic ranges or a
whole-document text edit.

The model is functional. Documents are strings of characters. A diff is a
sequence of lines. The server is an immutable record. Timers, goroutines
and mutexes are explicit events: a timer fires, its callback clears the
map entry, a run finishes, a formatting callback runs. They may come in any
order the state allows. Tool runs, file reads and the providers' results
are inputs to the steps.

Modules, following the source:

- `Text`: the parts of Go's `strings`, `strconv` and `unicode` that the code
  uses. These are `Split`/`Join`, `TrimSpace`, `TrimPrefix`, `Trim` of one
  character, `Atoi` on digit strings, `ToUpper` restricted to the ASCII
  letters, and the `uint32` cast as `ToUint32`.
- `Protocol`: LSP positions, ranges, diagnostics and text edits. A
  diagnostic slice is `Option<seq<Diagnostic>>`, so Go's nil slice is
  `None`.
- `Config`: the provider records. Map iteration order becomes a sequence
  of entries with distinct ids.
- `Utils`: `URIToPath`, `EnsureDiagnosticsArray`, `SnakeCaseToHumanReadable`.
- `HunkHeader`: the hunk-header pattern `@@\s+-(\d+),(\d+)?\s+\+(\d+),(\d+)?\s+@@`.
  It is searched leftmost-first, as `FindStringSubmatch` does.
- `DiffLines`: how both diff walkers read one line.
- `ApplyDiff`: `ApplyUnifiedDiff`, a cursor walk over the original lines.
- `DiffScript`: edit scripts and the unified diffs php-cs-fixer prints for
  them: one hunk over the whole file, or several hunks with unchanged gaps
  between them. It is the independent reference for the applier and the
  diagnostics walker.
- `DiffDiagnostics`: `parseDiffForDiagnostics`, on single-hunk and several-hunk
  diffs.
- `PhpCsFixer`: `CanFormat` and the decision logic of `Format` over an
  abstract command result.
- `PhpStan`, `PhpLint`: the mappings from tool output to diagnostics.
- `Factory`: `NewFormattingProvider` and `LoadFormattingProviders`.
- `Capabilities`: the command name, the advertised capabilities and the
  server info.
- `Collect`: `collectDiagnostics`.
- `WholeDocument`: the formatting reply's whole-document edit.
- `Scheduler`: the per-document counters, timer maps and pending tasks.
- `Server`: `Handle` for each client message, the runtime events, and runs
  of events.

Where the code and its comments or test descriptions disagree, the model
follows the code. The main model (`ApplyUnifiedDiff`,
`ParseDiffForDiagnostics`, the server) does what the code does, quirks
included. The quirks whose intended behaviour the code's comments or test
descriptions state are listed under "Findings". Each has a lemma that
exhibits it and a corrected definition with the intended property proved.
Two scheduling behaviours that may be deliberate are stated as lemmas
without a corrected version: `Server.SupersededFormattingDropped` and
`Server.TwoArmedTimers`. The server model keeps the behaviour as
written: it formats with the server's applier, and `Start` fences
diagnostics runs as the source does (`CheckThenPublish`). The corrected
fence (`PublishUnderLock`) is a field of the same server state, so every
lemma about steps and runs that does not name a fence holds for both.

## Model

| member | source | states |
|---|---|---|
| Text.ToUint32 | internal/diagnostics/phpcsfixer.go:158-159 | the `uint32` cast: the identity on 0..2^32-1, -1 becomes 2^32-1, and the result is congruent to the input modulo 2^32 |
| Text.TrimPrefix | internal/diagnostics/phpcsfixer.go:156 | `strings.TrimPrefix` drops one leading copy of the prefix when present, else returns the input |
| Text.JoinSplit | internal/utils/utils.go:74-75 | joining the pieces of a split on `\n` gives back the text, so a trailing empty line survives the applier |
| Text.SplitJoin | internal/utils/utils.go:74-75 | splitting a join of pieces without the separator gives back the pieces |
| Text.TrimSpaceEmpty | internal/diagnostics/phpcsfixer.go:258-259 | `TrimSpace` gives "" exactly when every character is white space |
| Text.Atoi | internal/utils/utils.go:96 | `strconv.Atoi` on a captured digit run succeeds exactly when the run is non-empty and its value fits in int64 |
| Text.AtoiNatToString | internal/utils/utils.go:96 | a printed natural number below 2^63 parses back to itself |
| Protocol.ZeroBasedLine | internal/diagnostics/phpstan.go:70-73 | a reported line n > 0 becomes n-1 (as uint32), and n <= 0 becomes 0 |
| Protocol.LineRange | internal/diagnostics/phpstan.go:81 | the tool range lies on one line, from character 0 to character 100 |
| Protocol.Append | internal/server/server.go:521-523 | appending keeps the earlier items, adds the new ones after them, and leaves a nil slice nil only when nothing is added |
| Utils.URIToPath | internal/utils/utils.go:15-17 | removes one leading `file://` if present, else returns the input |
| Utils.EnsureDiagnosticsArray | internal/utils/utils.go:41-46 | never returns nil, returns a non-nil input unchanged, and keeps the items |
| Utils.SnakeCaseToHumanReadable | internal/utils/utils.go:48-61 | has no contract of its own; `Utils.SnakeCaseToHumanReadableChars` and `Utils.SnakeCaseToHumanReadableNoUnderscore` state its result |
| Utils.SnakeCaseToHumanReadableChars | internal/utils/utils.go:48-61 | the result is as long as the input with `_` trimmed from both ends; its first character is upper-cased; every inner `_` is a space; every other character is unchanged |
| Utils.SnakeCaseToHumanReadableNoUnderscore | internal/utils/utils.go:48-61 | no `_` remains, and the result is empty exactly when the input is all `_` |
| Utils.JoinSplitReplaces | internal/utils/utils.go:54-59 | splitting on `_` and joining with a space replaces each `_` by a space |
| HunkHeader.MatchPrefixComplete | internal/utils/utils.go:80 | every text of the header pattern's shape (runs of `\s`, digits, optional count digits) is matched, with its four captures |
| HunkHeader.MatchPrefixSound | internal/utils/utils.go:80 | every match starts with a text of the pattern's shape built from its captures |
| HunkHeader.FindFromLeftmost | internal/utils/utils.go:94-95 | the search finds a header iff the pattern matches at some position, and it returns the leftmost match |
| HunkHeader.NoCommaNoHeader | internal/utils/utils.go:80-95 | a line without a comma (such as `@@ -3 +3 @@`) is not a header |
| HunkHeader.StandardHeaderMatches | internal/utils/utils.go:80 | the header `@@ -a,b +c,d @@` is recognised with captures a, b, c, d |
| DiffLines.Classify | internal/utils/utils.go:86-129 | a line is a file header iff headers are allowed and it starts with `---`/`+++`; otherwise a hunk line iff it starts with `@@` (carrying the pattern's captures); blank iff empty; else context, removal or addition by its first character, with the rest as text |
| DiffLines.ClassifyRemoval | internal/utils/utils.go:87-125 | `-x` reads as a removal of x, except that it is a file header when x starts with `--` and headers are allowed |
| DiffLines.ClassifyAddition | internal/utils/utils.go:87-128 | `+x` reads as an addition of x, except that it is a file header when x starts with `++` and headers are allowed |
| ApplyDiff.CopyUpTo | internal/utils/utils.go:98-101 | copying stops at the stop line or at the end of the original, and appends exactly the original lines passed |
| ApplyDiff.HunkNoEdit | internal/utils/utils.go:93-105 | a hunk header, matching or not, only copies original lines |
| ApplyDiff.ContextNoEdit | internal/utils/utils.go:115-120 | a context line copies the next original line, or does nothing past the end |
| ApplyDiff.WalkFromAppend | internal/utils/utils.go:83-132 | walking two pieces of a diff is walking the first, then the second from where it stopped |
| ApplyDiff.ApplyLinesNoEdit | internal/utils/utils.go:83-138 | a diff with no removal or addition lines gives back the original lines |
| ApplyDiff.ApplyUnifiedDiffNoEdit | internal/utils/utils.go:73-141 | on texts: an empty, blank, header-only, context-only or malformed-header diff returns the original content |
| ApplyDiff.ApplyUnifiedDiff | internal/utils/utils.go:73-141 | the applier itself has no contract of its own; what it returns is stated by `ApplyDiff.ApplyUnifiedDiffNoEdit`, `ApplyDiff.ApplyLinesLength`, `ApplyDiff.ApplyLinesOrder` and the round trips `DiffScript.ApplyUnifiedDiffRendered` and `DiffScript.ApplyUnifiedDiffHunks` |
| ApplyDiff.DropFileHeader | internal/utils/utils.go:86-90 | a `---`/`+++` line anywhere in the diff can be dropped without changing the result |
| ApplyDiff.WalkBalance | internal/utils/utils.go:114-138 | along any walk, lines produced minus original lines passed grows by the number of additions minus the removals that met an original line |
| ApplyDiff.ApplyLinesLength | internal/utils/utils.go:114-138 | the result has exactly the original's lines plus one per addition minus one per removal that met an original line, hence at most one fewer per removal |
| ApplyDiff.WalkTraced | internal/utils/utils.go:83-132 | every output line of a walk is an added line or an original line, the original ones in order and each used at most once |
| ApplyDiff.ApplyLinesOrder | internal/utils/utils.go:83-138 | the lines of the result that are not added lines are original lines in their original order, each at most once |
| ApplyDiff.ResultSourcesCount | internal/utils/utils.go:114-138 | exactly as many result lines are added lines as the diff has additions; the others are one per original line no removal consumed |
| DiffScript.ApplyRendered | internal/utils/utils.go:73-141 | applying the rendered diff of an edit script to its old side gives its new side: always with the corrected applier, and with the server's applier when no deleted line starts with `--` and no inserted line with `++` |
| DiffScript.ApplyRenderedInverse | internal/utils/utils.go:73-141 | the diff of the inverted script takes the new side back to the old side: always with the corrected applier, and with the server's applier when no inserted line starts with `--` and no deleted line with `++` (the inverted script's deletions and insertions) |
| DiffScript.ApplyUnifiedDiffRendered | internal/utils/utils.go:73-141 | the same round trip on joined texts |
| DiffScript.RenderIsOneHunk | internal/utils/utils.go:93-105 | the whole-file diff is the several-hunk diff of one hunk with no gap, over the same sides |
| DiffScript.ActHunkStop | internal/utils/utils.go:93-105 | a header whose old start parses to s+1 copies the original up to line s and enters the hunk |
| DiffScript.CopyGap | internal/utils/utils.go:98-101 | copying up to the end of an unchanged gap appends exactly the gap |
| DiffScript.WalkOneHunk | internal/utils/utils.go:93-129 | a hunk's header copies its gap and its body then edits: the walk appends gap and new side and passes gap and old side |
| DiffScript.WalkHunksOut | internal/utils/utils.go:83-132 | walking hunks i.. from the start of hunk i's gap appends exactly their gaps and new sides |
| DiffScript.WalkHunksNext | internal/utils/utils.go:83-132 | the same walk passes exactly their gaps and old sides |
| DiffScript.ApplyRenderedHunks | internal/utils/utils.go:73-141 | applying the diff of several hunks, each after a gap and numbered from line 1, to gaps, old sides and an unchanged rest gives gaps, new sides and the rest: always with the corrected applier, and with the server's when no deleted line starts with `--` and no inserted line with `++` |
| DiffScript.ApplyUnifiedDiffHunks | internal/utils/utils.go:73-141 | the several-hunk round trip on joined texts, for newline-free lines and a non-empty original |
| DiffScript.TwoHunksApply | internal/utils/diff_test.go:122-153 | on the "complex multi-hunk diff" case (lines 2 and 6 of eight rewritten, line 4 between the hunks) the server's applier gives the expected eight lines, both on the case's literal diff text with its `--- a/test.php`/`+++ b/test.php` labels and on php-cs-fixer's rendering of the same hunks |
| DiffScript.RelabelledDiff | internal/utils/utils.go:87-90 | the server's applier skips the file labels, so two diff texts that differ only in their `---`/`+++` labels give the same result on any original |
| DiffScript.TwoHunksRendered | internal/utils/diff_test.go:133-143 | the rendered diff of those hunks is the case's diff after its file labels, headers `@@ -1,3 +1,3 @@` and `@@ -5,4 +5,4 @@` included |
| DiffScript.WalkBody | internal/utils/utils.go:114-129 | walking a diff body from inside a hunk appends the new side and consumes the old side |
| DiffScript.TrailingIncrementLost | internal/utils/utils.go:87-90 | the server's applier drops a last inserted line that starts with `++`; the rest of the script still applies |
| DiffScript.IncrementLineDropped | internal/utils/utils.go:87-90 | the `$i++;` to `++$i;` rewrite loses the new line under the server's applier and keeps it under the corrected one |
| DiffDiagnostics.RemovalRange | internal/diagnostics/phpcsfixer.go:155-160 | a removed line's range is single-line, starts at the current line and column, and ends at the length of the trimmed text |
| DiffDiagnostics.InsertionRange | internal/diagnostics/phpcsfixer.go:166-171 | an added line's range is empty, at the current line and column |
| DiffDiagnostics.AtHunk | internal/diagnostics/phpcsfixer.go:137-146 | a matching header sets the line to start-1 when the start parses, and sets the column to count-1 when the count parses; otherwise they are unchanged |
| DiffDiagnostics.ParseDiffForDiagnostics | internal/diagnostics/phpcsfixer.go:123-179 | the walker on a diff text has no contract of its own; `DiffDiagnostics.ParseDiffCount`, `DiffDiagnostics.ParseDiffSingleLine`, `DiffDiagnostics.RenderedDiagnostics`, `DiffDiagnostics.RenderedHunksDiagnostics` and `DiffDiagnostics.MultipleHunks` state what it returns |
| DiffDiagnostics.ScanEdit | internal/diagnostics/phpcsfixer.go:154-175 | what one body line adds and how it moves the line counter and the removal flag |
| DiffDiagnostics.ScanCount | internal/diagnostics/phpcsfixer.go:150-176 | the number of ranges is the number of removals plus, while no removal has been seen, the number of additions before the first removal |
| DiffDiagnostics.ParseDiffCount | internal/diagnostics/phpcsfixer.go:123-179 | an empty or context-only diff yields no ranges; the count is removals plus additions before the first removal |
| DiffDiagnostics.ParseDiffSingleLine | internal/diagnostics/phpcsfixer.go:157-170 | every reported range lies on one line |
| DiffDiagnostics.ScanBody | internal/diagnostics/phpcsfixer.go:132-176 | walking a diff body yields exactly the ranges the edit script calls for |
| DiffDiagnostics.RenderedDiagnostics | internal/diagnostics/phpcsfixer.go:123-179 | the ranges for a rendered script, with the header's count as the column |
| DiffDiagnostics.ScanHunks | internal/diagnostics/phpcsfixer.go:132-176 | walking hunks i.. under headers that enter them appends exactly the hunk-level ranges: each hunk from the line before its start, at its header's column, additions only while no removal has been seen in any earlier hunk |
| DiffDiagnostics.RenderedHunksDiagnostics | internal/diagnostics/phpcsfixer.go:123-179 | on the diff of several hunks with unchanged gaps, as php-cs-fixer prints it, each reading reports the hunk-level ranges |
| DiffDiagnostics.SwapScriptRanges | internal/diagnostics/phpcsfixer.go:154-175 | keep, replace, keep yields one range, at the replaced line, whatever was seen before |
| DiffDiagnostics.MultipleHunks | internal/diagnostics/phpcsfixer_test.go:337-352 | on the "multiple hunks" diff text (hunks at lines 1 and 10) both readings report ranges on lines 1 and 10 for `old line 2` and `old line 11`: at column 2 as written, at column 0 corrected |
| DiffDiagnostics.MixedScriptRanges | internal/diagnostics/phpcsfixer.go:154-175 | keep, delete, insert, delete, keep yields removals at lines 1 and 3 (as written) or 1 and 2 (corrected) |
| DiffDiagnostics.MixedAddRemove | internal/diagnostics/phpcsfixer.go:137-175 | on the rendered diff of the "mixed add and remove" script (header `@@ -1,4 +1,3 @@`; the case writes `+1,4`, a new-side count the walker never reads) the walker reports (1,3) and (3,3); the corrected walker reports (1,0) and (2,0) |
| PhpCsFixer.EffectiveTimeout | internal/diagnostics/phpcsfixer.go:216-223 | no limit is added when the caller has a deadline; otherwise the configured seconds if positive, else 30 |
| PhpCsFixer.FormatCommand | internal/diagnostics/phpcsfixer.go:227-232 | the command is `<path> fix - --diff `, then `--config <file>` when a config file is set |
| PhpCsFixer.Format | internal/diagnostics/phpcsfixer.go:211-269 | not enabled, cancelled, command failed and bad exit code each hold exactly in their case and return the content; exit 0 or 8 succeeds; blank output returns the content; otherwise the trimmed diff is applied |
| PhpCsFixer.FormatRendered | internal/diagnostics/phpcsfixer.go:258-268 | with a successful run that printed the diff of a script, formatting the old side gives the new side |
| PhpCsFixer.FormatRenderedHunks | internal/diagnostics/phpcsfixer.go:258-268 | with a successful run that printed the diff of several hunks, formatting gaps, old sides and an unchanged rest gives gaps, new sides and that rest |
| PhpCsFixer.FormatNoEdit | internal/diagnostics/phpcsfixer.go:258-268 | a successful run whose diff has no removal or addition lines leaves the content unchanged |
| PhpStan.ToDiagnostic | internal/diagnostics/phpstan.go:69-89 | line mapping, the 0-100 range, warning iff ignorable, code iff identifier, message verbatim, source `phpstan` |
| PhpStan.AppendFilesItems | internal/diagnostics/phpstan.go:68-91 | one diagnostic per message of every file, in order, and nil only when there are no messages |
| PhpStan.AnalyzeDiagnostics | internal/diagnostics/phpstan.go:62-93 | unparseable output gives an empty non-nil list; otherwise the diagnostics of all files' messages, ignoring the top-level errors |
| PhpStan.Analyze | internal/diagnostics/phpstan.go:62-93 | has no contract of its own; `PhpStan.AnalyzeDiagnostics` and `PhpStan.FileOrderIrrelevant` state its result |
| PhpStan.FileOrderIrrelevant | internal/diagnostics/phpstan.go:68 | the order the files are visited in changes only the order of the diagnostics |
| PhpLint.Analyze | internal/diagnostics/phplint.go:47-77 | clean output gives nothing; at most one diagnostic; exactly one iff there is a match whose line parses; the only error is an unparseable line; the diagnostic's range, severity, source and trimmed message |
| PhpLint.AnalyzeLine | internal/diagnostics/phplint.go:55-65 | a captured line number is rejected exactly when it exceeds 2^63-1, with the bad-line error; a reported line n in 1..2^32 becomes line n-1 |
| Factory.NewFormattingProvider | internal/formatting/factory.go:12-29 | a provider exactly when formatting is enabled and the id is `phpcsfixer`, with that id and name; otherwise the not-enabled or the not-supported error, never both and never neither |
| Factory.NotSupportedMessage | internal/formatting/factory.go:26-27 | the unsupported-id error contains "not supported" |
| Factory.LoadedProviders | internal/formatting/factory.go:32-56 | one provider per entry that is enabled, has formatting enabled and has id `phpcsfixer`, and no other |
| Factory.LoadFormattingProviders | internal/formatting/factory.go:32-56 | has no contract of its own; `Factory.LoadedProviders`, `Factory.AtMostOneLoads`, `Factory.NoLoadsCount` and `Factory.LoadOrderIndependent` state its result |
| Factory.LoadFromShape | internal/formatting/factory.go:35-53 | the loop keeps what it has and appends exactly the loading entries' providers |
| Factory.AtMostOneLoads | internal/formatting/factory.go:32-56 | with distinct ids at most one provider is loaded |
| Factory.NoLoadsCount | internal/formatting/factory.go:35-53 | with no loading entry (an empty or disabled configuration) nothing is loaded |
| Factory.LoadOrderIndependent | internal/formatting/factory.go:35 | whatever order the map is visited in, the result is the `phpcsfixer` entry's provider when that entry loads, and nothing otherwise |
| Capabilities.FullCommandName | internal/server/capabilities.go:39-41 | the name is `php-diagls/` followed by the command |
| Capabilities.FullCommandNameInjective | internal/server/capabilities.go:39-41 | different commands get different full names |
| Capabilities.Advertised | internal/server/capabilities.go:16-30 | full sync, open/close, save without text, formatting, and exactly the command `php-diagls/showConfig` |
| Capabilities.Info | internal/server/capabilities.go:32-37 | the server info is name `php-diagls`, version `0.0.1-dev` |
| Collect.CollectResult | internal/server/server.go:491-529 | a path under `/vendor/` or `/var/cache/` gets nothing; otherwise exactly what the successful providers reported, and one message per failed provider |
| Collect.CollectDiagnostics | internal/server/server.go:491-529 | has no contract of its own; `Collect.CollectResult`, `Collect.VendorIgnored` and `Collect.FinishingOrderIrrelevant` state its result |
| Collect.GatherResult | internal/server/server.go:510-526 | gathering appends each successful run's diagnostics and each failure's message, in finishing order |
| Collect.FinishingOrderIrrelevant | internal/server/server.go:510-526 | two runs finishing in the other order change only the order of the diagnostics |
| Collect.VendorIgnored | internal/server/server.go:494-499 | any path containing `/vendor/` is ignored |
| WholeDocument.WholeDocumentEdit | internal/server/server.go:442-457 | the edit spans (0,0) to (lines-1, length of the last line) and carries the formatted text |
| WholeDocument.WholeEditReplaces | internal/server/server.go:442-459 | applying that edit to a document shorter than 2^32 characters yields exactly the formatted text |
| Scheduler.StopDiag | internal/server/server.go:326-328 | stopping removes exactly the armed timer of that document and generation |
| Scheduler.FireDiag | internal/server/server.go:336 | the timer of task i fires: that task, and only it, moves from armed to fired; maps and counters are unchanged |
| Scheduler.ScheduleDiagnostics | internal/server/server.go:323-354 | the document's counter goes up by one and no other counter moves; the timer map maps the document to the new generation and is otherwise unchanged; the new timer is armed; the superseded armed timer is stopped, every other task is kept and nothing else is added; formatting is untouched |
| Scheduler.ScheduleDiagnosticsPriority | internal/server/server.go:356-384 | the counter goes up by one and no other moves; the document's entry is deleted and every other entry kept; a run of the new generation starts; the superseded armed timer is stopped, every other task is kept and nothing else is added; formatting is untouched |
| Scheduler.ScheduleFormatting | internal/server/server.go:386-403 | the formatting counter goes up by one and no other moves; the map maps the document to the new generation; the new timer is armed; the superseded armed timer is stopped, every other task is kept and nothing else is added; diagnostics are untouched |
| Scheduler.ClearDiag | internal/server/server.go:336-339 | the callback removes the document's entry, whichever timer it holds, keeps every other entry, and its task starts running; nothing else changes |
| Scheduler.FinishDiag | internal/server/server.go:344-351 | corrected fence: a finished run may publish iff its generation is still the document's current one; it leaves and the other tasks keep their order; maps and counters are unchanged |
| Scheduler.CheckDiag | internal/server/server.go:344-348 | as written: a run passes its check iff its generation is current; a passing run stays, holding its result, and a failing one leaves with the other tasks kept in order; maps and counters are unchanged |
| Scheduler.PublishDiag | internal/server/server.go:351 | a checked run leaves when it publishes, the other tasks keeping their order; no counter or timer moves |
| Scheduler.FmtCallback | internal/server/server.go:401-410 | the callback removes the document's entry and keeps the others, its task leaves with the rest kept in order, and it is current iff its generation is the current one; diagnostics are untouched |
| Scheduler.FireFmt | internal/server/server.go:401 | the timer of formatting task i fires: that task, and only it, is marked fired; maps and counters are unchanged |
| Scheduler.ScheduleDiagnosticsValid | internal/server/server.go:323-354 | scheduling keeps every task and handle at a generation already handed out |
| Scheduler.ScheduleDiagnosticsPriorityValid | internal/server/server.go:356-384 | the same for the priority path |
| Scheduler.ScheduleFormattingValid | internal/server/server.go:386-403 | the same for formatting |
| Scheduler.DiagStepsValid | internal/server/server.go:336-351 | firing, clearing, finishing, checking and publishing keep the state valid |
| Scheduler.FmtStepsValid | internal/server/server.go:401-410 | firing and running a formatting callback keep the state valid |
| Server.SetDocument | internal/server/server.go:304-308 | the cache maps the document to the new text and no other entry changes |
| Server.DeleteDocument | internal/server/server.go:317-321 | the document leaves the cache and no other entry changes |
| Server.PublishOf | internal/server/server.go:293-302 | a publication never carries the nil slice and keeps the items |
| Server.InitializeOnce | internal/server/server.go:99-142 | only the first `initialize` loads the configuration and formatting providers; every one replies with the capabilities and server info |
| Server.ExecuteCommandOutputs | internal/server/server.go:150-172 | `php-diagls/showConfig` shows the raw configuration and replies null; any other command gets `unknown command: <name>` |
| Server.HandleDocuments | internal/server/server.go:174-257 | didOpen stores the text; didChange stores the last change or nothing; didSave stores non-empty text; didClose deletes; no other entry and no other message touches the cache |
| Server.HandleSchedules | internal/server/server.go:174-257 | each document message advances that document's counter by one and no other; didSave starts a run, the others arm a timer |
| Server.WatchedEffect | internal/server/server.go:223-243 | each changed or created `.php` file is rescheduled once per event; deleted files and non-`.php` files move no counter |
| Server.WatchedOutputs | internal/server/server.go:231-240 | exactly one empty publication per deleted `.php` file, in order |
| Server.WatchedValid | internal/server/server.go:223-243 | watched-file handling keeps the scheduler valid |
| Server.Watched | internal/server/server.go:223-243 | has no contract of its own; `Server.WatchedEffect`, `Server.WatchedOutputs` and `Server.WatchedValid` state its effect |
| Server.FormattingReply | internal/server/server.go:412-459 | an error iff the document is not cached and the read fails, with `failed to read file: `; with no provider no edits; otherwise no edits iff the formatter fails or returns the content unchanged, and else exactly one whole-document edit to the formatted text |
| Server.FormattingUsesCache | internal/server/server.go:414-422 | a cached document is formatted without looking at the file on disk |
| Server.FormattingEditApplies | internal/server/server.go:442-459 | applying the reply's edit to the content gives the formatted text |
| Server.StaleFormattingReply | internal/server/server.go:401-410 | each formatting callback replies once to its request: empty edits if superseded, the formatting reply if current |
| Server.FormattingCallback | internal/server/server.go:401-459 | has no contract of its own; `Server.StaleFormattingReply` states its reply |
| Server.SupersededFormattingDropped | internal/server/server.go:391-393 | a new request stops the pending one's timer, so that request never gets a reply |
| Server.FinishRunOutputs | internal/server/server.go:341-351 | a finished run shows one message per failed provider; if it is current it then publishes what the providers reported (corrected fence) or keeps it for a later publish (as written); a superseded run leaves |
| Server.FinishRun | internal/server/server.go:341-351 | has no contract of its own; `Server.FinishRunOutputs` states its outputs |
| Server.PublishRun | internal/server/server.go:351 | has no contract of its own; `Server.PublishRunOutputs` states what it publishes |
| Server.PublishRunOutputs | internal/server/server.go:351 | as written, a checked run publishes what it kept under its own generation even if the document was rescheduled since; under the corrected fence it publishes only while current |
| Server.HandlePublishesNoRun | internal/server/server.go:236-237 | the only publication a client message causes is the deleted-file one, outside any run |
| Server.StepPublishesCurrent | internal/server/server.go:344-351 | under the corrected fence, every run's publication carries the document's current generation |
| Server.StepKeepsFence | internal/server/server.go:323-462 | no step changes how runs are fenced |
| Server.HandleGensGrow | internal/server/server.go:333 | no message lowers a counter |
| Server.StepGensGrow | internal/server/server.go:333 | no event lowers a counter |
| Server.RunGensGrow | internal/server/server.go:333 | no run of events lowers a counter |
| Server.StaleNeverPublishes | internal/server/server.go:344-351 | under the corrected fence, once a newer schedule exists no run of the older generation ever publishes, whatever events follow |
| Server.StaleRunPublishesLast | internal/server/server.go:371-382 | as written: save, the run whose provider found `d` checks, save again, the newer run (the same provider, now reporting nothing) checks and publishes an empty list under generation 2, then the older run publishes `[d]` under generation 1 while 2 is current, leaving the client with the stale `[d]` |
| Server.HandleSched | internal/server/server.go:174-257 | what each message does to the scheduler: document messages schedule, didSave with priority, formatting schedules formatting, watched files go through the watched-file loop, the rest leave it alone |
| Server.HandleValid | internal/server/server.go:65-97 | every message keeps the scheduler valid |
| Server.Handle | internal/server/server.go:65-97 | the dispatcher has no contract of its own; `Server.HandleDocuments`, `Server.HandleSchedules`, `Server.HandleSched`, `Server.InitializeOnce`, `Server.ExecuteCommandOutputs`, `Server.HandlePublishesNoRun` and `Server.HandleValid` state each message's effect |
| Server.StepValid | internal/server/server.go:336-351 | every event keeps the scheduler valid |
| Server.Step | internal/server/server.go:336-410 | has no contract of its own; `Server.StepValid`, `Server.StepGensGrow`, `Server.StepKeepsFence` and `Server.StepPublishesCurrent` state what every event does |
| Server.RunValid | internal/server/server.go:323-462 | every run of events keeps the scheduler valid |
| Server.TwoArmedTimers | internal/server/server.go:336-339 | open, timer fires, change, old callback clears, change: two armed timers wait for the same document |

## Left out

- I/O and the transport: JSON decoding, jsonrpc2 and the `window/logMessage` logging are left out. Client messages arrive decoded, and outputs are a list per step.
- `os.Exit` when no configuration is found and the project-root choice in `initialize` are left out. `initialize` takes the provider entries and raw configuration text as inputs.
- Timer durations (300 ms and 100 ms): any armed timer may fire at any time.
- The diagnostics providers are not built or called. Each finished run receives the providers' results as a parameter (`Collect.ProviderRun`), in the order they finished.
- Provider caching in `loadDiagnosticsProviders`/`loadFormattingProviders`: formatting providers are loaded once, at the first `initialize`.
- The container runs of php-cs-fixer, PHPStan and php -l are abstract command results.
- PHPStan's JSON decoding is left out: the report arrives parsed, or as `None` when it does not parse.
- The php -l regular expression is left out: its match arrives as an optional message and line-digits pair.
- `explainRule`, the `Analyze` orchestration of php-cs-fixer, `FindProjectRoot` and `CopyFile` are file system and process work.
- `uri.Filename()` is modelled by `URIToPath`, which only drops `file://`.
- The `uint64` generation counters are unbounded.
- Strings are sequences of characters. Lengths that Go counts in bytes are counted in characters, which agree for ASCII text.
- A failed file read keeps its error text only. The reply is `failed to read file: <text>`.
- `initialized` replies to a notification in the source. The model sends nothing for it.
- `Server.Handle`: the `Unhandled` message is always a request with an id, and it gets a null reply. An unhandled notification also reaches the default branch of server.go:93-95, but the transport sends nothing for it; the model has no unhandled notification.
- The cancellation of an in-flight request by `$/cancelRequest` is handled by the transport and is left out. The message is a notification, so the handler's null reply sends nothing, as for `initialized`; the model sends nothing.
- Text.Atoi: takes a string of ASCII digits. Signs are omitted because the pattern captures digits only.
- Text.ToUpper: upper-cases the ASCII letters only; Go's `unicode.ToUpper` also maps the other cased letters (`é` to `É`), which the model returns unchanged. Unicode case tables are out of scope.
- Utils.SnakeCaseToHumanReadableChars: "the first character is upper-cased" is with the ASCII-only `ToUpper`, so a name starting with a non-ASCII letter keeps it as it is, where Go would upper-case it.
- DiffScript.ApplyRendered: covers the whole-file single hunk only; diffs with several hunks, hunks starting after line 1 and unchanged lines between hunks are covered by `DiffScript.ApplyRenderedHunks`.
- DiffScript.ApplyUnifiedDiffRendered: the same single-hunk limit; `DiffScript.ApplyUnifiedDiffHunks` covers several hunks on texts.
- DiffScript.ApplyRenderedHunks: every hunk header is numbered as php-cs-fixer numbers it; diffs whose headers name other lines are covered only by the walk lemmas (`ApplyDiff.WalkTraced`, `ApplyDiff.ApplyLinesLength`).
- DiffDiagnostics.RenderedDiagnostics: covers the whole-file single hunk only; several hunks, hunks starting after line 1 and unchanged lines between hunks are covered by `DiffDiagnostics.RenderedHunksDiagnostics`, and the documented two-hunk case by `DiffDiagnostics.MultipleHunks`.
- DiffDiagnostics.RenderedHunksDiagnostics: every hunk header is numbered as php-cs-fixer numbers it; `DiffDiagnostics.ScanHunks` covers any headers that enter their hunks at the hunk-level line and column, and for the rest only `DiffDiagnostics.ParseDiffCount` and `DiffDiagnostics.ParseDiffSingleLine` apply.
- PhpCsFixer.FormatRendered: the same single-hunk limit; `PhpCsFixer.FormatRenderedHunks` covers several hunks.

## Findings

| source | as written | input that shows it | evidently intended | confidence | as-written member | corrected member |
|---|---|---|---|---|---|---|
| internal/utils/utils.go:87-90 | every line starting with `---` or `+++` is skipped as a file header, also inside a hunk | php-cs-fixer rewriting `$i++;` to `++$i;` prints the body line `+++$i;`, which is skipped, so the formatted text loses that line | `---`/`+++` are file headers only before the first hunk header | medium, not executed | DiffScript.IncrementLineDropped | DiffScript.ApplyUnifiedDiffRendered |
| internal/diagnostics/phpcsfixer.go:163-172 | an added line advances the old-side line counter | the rendered diff of the "mixed add and remove" script (keep, delete, insert, delete, keep; header `@@ -1,4 +1,3 @@`, where the case writes the new-side count 4, which the walker does not read) reports lines 1 and 3; its description expects lines 1 and 2 | only context and removed lines advance the old-side line | medium, not executed | DiffDiagnostics.MixedAddRemove | DiffDiagnostics.RenderedDiagnostics |
| internal/server/server.go:344-351 | a diagnostics run reads the counter under `diagMu`, releases the lock, and only then publishes (the priority path does the same at lines 375-382) | two saves of one document: both runs pass their check before either publishes, the newer one publishes generation 2, then the older one publishes its diagnostic `d` under generation 1, and the client is left showing the stale `[d]` | the check and the publish happen under one hold of the lock (or the publish re-checks), so no run publishes once a newer change has been scheduled | medium, not executed | Server.StaleRunPublishesLast | Server.StaleNeverPublishes |
| internal/diagnostics/phpcsfixer.go:143-145 | the range's start column is the header's old-side count minus one | under `@@ -1,3 +1,3 @@` a removed line's range starts at character 2; the documented example expects character 0; on the "multiple hunks" case both ranges start at character 2 | ranges start at character 0 | medium, not executed | DiffDiagnostics.MultipleHunks | DiffDiagnostics.RenderedHunksDiagnostics |

The corrected definitions are `ApplyDiff.ApplyUnifiedDiffCorrected` (with
`PhpCsFixer.Format` under `HeadersBeforeFirstHunk`) and
`DiffDiagnostics.ParseDiffCorrected`. `DiffScript.ApplyUnifiedDiffRendered`
and `DiffScript.ApplyUnifiedDiffHunks` prove that the corrected applier
takes the old side of any edit script to its new side. For the publish
race, the corrected fence is `Server.Fence.PublishUnderLock`: a finishing
run publishes in the same step that reads the counter, and
`Server.StaleNeverPublishes` holds for it. `DiffDiagnostics.RenderedDiagnostics`
and `DiffDiagnostics.RenderedHunksDiagnostics` state the ranges the corrected
walker reports for any rendered diff, with one hunk or several: removals at
their old-side line, column 0, and added lines not moving the line.
