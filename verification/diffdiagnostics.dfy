/** php-cs-fixer's diff-to-diagnostics walker (`parseDiffForDiagnostics` in
    internal/diagnostics/phpcsfixer.go). It reads the diff php-cs-fixer
    prints and reports one range per removed line, spanning the trimmed text
    of that line, and one empty range per added line as long as no line has
    been removed yet. Its state is a line counter, a column taken from each
    hunk header, and a "some line was removed" flag. The casts to `uint32`
    are modelled by `ToUint32`, so negative counters wrap around.

    `AsWritten` is the walker of the server. `Corrected` reads `---`/`+++`
    as file headers only before the first hunk, starts every range at
    column 0, and does not advance the old-side line counter on added lines. */
module DiffDiagnostics {
  import opened Wrappers
  import opened Text
  import opened Protocol
  import opened HunkHeader
  import opened DiffLines
  import opened ApplyDiff
  import opened DiffScript

  datatype Reading = AsWritten | Corrected

  datatype ScanState = ScanState(ranges: seq<Range>, line: int, col: int, changed: bool, inHunk: bool)

  const Initial: ScanState := ScanState([], 0, 0, false, false)

  /** The range reported for a removed line: from the current position to the
      length of the line's text without surrounding white space. */
  function RemovalRange(line: int, col: int, text: string): (r: Range)
    ensures r.SingleLine()
    ensures r.start == Position(ToUint32(line), ToUint32(col))
    ensures r.end.character == ToUint32(|TrimSpace(text)|)
  {
    Range(Position(ToUint32(line), ToUint32(col)), Position(ToUint32(line), ToUint32(|TrimSpace(text)|)))
  }

  /** The empty range reported for an added line. */
  function InsertionRange(line: int, col: int): (r: Range)
    ensures r.SingleLine() && r.start == r.end
    ensures r.start == Position(ToUint32(line), ToUint32(col))
  {
    Range(Position(ToUint32(line), ToUint32(col)), Position(ToUint32(line), ToUint32(col)))
  }

  /** A hunk header moves the line counter to the old-side start minus one
      and, as written, the column to the old-side count minus one; a capture
      that does not parse leaves the value as it was. */
  function AtHunk(rd: Reading, s: ScanState, f: HunkFields): (r: ScanState)
    ensures r.ranges == s.ranges && r.changed == s.changed && r.inHunk
    ensures Atoi(f.oldStart).Some? ==> r.line == Atoi(f.oldStart).value - 1
    ensures Atoi(f.oldStart).None? ==> r.line == s.line
    ensures rd == Corrected ==> r.col == 0
    ensures rd == AsWritten && Atoi(f.oldCount).Some? ==> r.col == Atoi(f.oldCount).value - 1
    ensures rd == AsWritten && Atoi(f.oldCount).None? ==> r.col == s.col
  {
    var line := if Atoi(f.oldStart).Some? then Atoi(f.oldStart).value - 1 else s.line;
    var col :=
      if rd == Corrected then 0
      else if Atoi(f.oldCount).Some? then Atoi(f.oldCount).value - 1
      else s.col;
    ScanState(s.ranges, line, col, s.changed, true)
  }

  /** One diff line. */
  function ScanStep(rd: Reading, s: ScanState, l: string): (r: ScanState)
    ensures |s.ranges| <= |r.ranges| <= |s.ranges| + 1 && r.ranges[..|s.ranges|] == s.ranges
  {
    ScanAct(rd, s, Classify(l, rd == AsWritten || !s.inHunk))
  }

  /** What a line of kind `k` does to the walker. */
  function ScanAct(rd: Reading, s: ScanState, k: LineKind): (r: ScanState)
    ensures |s.ranges| <= |r.ranges| <= |s.ranges| + 1 && r.ranges[..|s.ranges|] == s.ranges
  {
    match k
    case HunkLine(fields) =>
      if fields.Some? then AtHunk(rd, s, fields.value) else s.(inHunk := true)
    case Removal(text) =>
      s.(ranges := s.ranges + [RemovalRange(s.line, s.col, text)], changed := true, line := s.line + 1)
    case Addition(_) =>
      s.(ranges := if s.changed then s.ranges else s.ranges + [InsertionRange(s.line, s.col)],
         line := if rd == AsWritten then s.line + 1 else s.line)
    case Context(_) => s.(line := s.line + 1)
    case _ => s
  }

  function Scan(rd: Reading, s: ScanState, lines: seq<string>): (r: ScanState)
    ensures |s.ranges| <= |r.ranges| && r.ranges[..|s.ranges|] == s.ranges
    decreases |lines|
  {
    if |lines| == 0 then s else Scan(rd, ScanStep(rd, s, lines[0]), lines[1..])
  }

  /** `parseDiffForDiagnostics(diff)`: the ranges for a diff text. */
  function ParseDiffForDiagnostics(diff: string): seq<Range> {
    Scan(AsWritten, Initial, Split(diff, '\n')).ranges
  }

  /** The corrected walker on a diff text. */
  function ParseDiffCorrected(diff: string): seq<Range> {
    Scan(Corrected, Initial, Split(diff, '\n')).ranges
  }

  // ---------------------------------------------------------------------------
  // Properties of the walker on any diff

  /** Additions the walker meets before its first removal. */
  function AdditionsBeforeRemoval(lines: seq<string>): nat {
    if |lines| == 0 then 0
    else
      var k := Classify(lines[0], true);
      if k.Removal? then 0
      else (if k.Addition? then 1 else 0) + AdditionsBeforeRemoval(lines[1..])
  }

  lemma {:induction false} ScanCount(s: ScanState, lines: seq<string>)
    ensures |Scan(AsWritten, s, lines).ranges|
      == |s.ranges| + Removals(lines) + (if s.changed then 0 else AdditionsBeforeRemoval(lines))
    decreases |lines|
  {
    if |lines| > 0 {
      ScanCount(ScanStep(AsWritten, s, lines[0]), lines[1..]);
    }
  }

  /** One range per removed line, plus one per added line before the first
      removed line: a diff of context lines only reports nothing. */
  lemma ParseDiffCount(diff: string)
    ensures |ParseDiffForDiagnostics(diff)|
      == Removals(Split(diff, '\n')) + AdditionsBeforeRemoval(Split(diff, '\n'))
  {
    ScanCount(Initial, Split(diff, '\n'));
  }

  /** Every range lies on one line, and so does every range either reading
      reports. */
  lemma {:induction false} ScanSingleLine(rd: Reading, s: ScanState, lines: seq<string>)
    requires forall i :: 0 <= i < |s.ranges| ==> s.ranges[i].SingleLine()
    ensures forall i :: 0 <= i < |Scan(rd, s, lines).ranges| ==> Scan(rd, s, lines).ranges[i].SingleLine()
    decreases |lines|
  {
    if |lines| > 0 {
      var s' := ScanStep(rd, s, lines[0]);
      assert forall i :: 0 <= i < |s.ranges| ==> s'.ranges[i] == s.ranges[i];
      ScanSingleLine(rd, s', lines[1..]);
    }
  }

  lemma ParseDiffSingleLine(diff: string)
    ensures forall r :: r in ParseDiffForDiagnostics(diff) ==> r.SingleLine()
    ensures forall r :: r in ParseDiffCorrected(diff) ==> r.SingleLine()
  {
    ScanSingleLine(AsWritten, Initial, Split(diff, '\n'));
    ScanSingleLine(Corrected, Initial, Split(diff, '\n'));
  }

  // ---------------------------------------------------------------------------
  // The walker on a rendered edit script

  /** What one edit of a script reports, at counter `line` and column `col`. */
  function EditRanges(e: Edit, line: int, col: int, changed: bool): seq<Range> {
    match e
    case Keep(_) => []
    case Delete(l) => [RemovalRange(line, col, l)]
    case Insert(_) => if changed then [] else [InsertionRange(line, col)]
  }

  /** The counter after one edit: added lines advance it only as written. */
  function LineAfter(rd: Reading, e: Edit, line: int): int {
    if e.Insert? && rd == Corrected then line else line + 1
  }

  /** What each reading reports for an edit script, walking the script
      itself: `line` is the counter, `col` the column of the hunk. */
  function ScriptRanges(rd: Reading, es: seq<Edit>, line: int, col: int, changed: bool): seq<Range>
    decreases |es|
  {
    if |es| == 0 then []
    else
      EditRanges(es[0], line, col, changed)
      + ScriptRanges(rd, es[1..], LineAfter(rd, es[0], line), col, changed || es[0].Delete?)
  }

  /** The column the rendered hunk header sets. */
  function HunkColumn(rd: Reading, oldCount: nat): int {
    if rd == AsWritten then oldCount - 1 else 0
  }

  lemma ScanKeep(rd: Reading, s: ScanState, l: string)
    ensures ScanStep(rd, s, " " + l) == ScanState(s.ranges, s.line + 1, s.col, s.changed, s.inHunk)
  {
    ClassifyContext(l, rd == AsWritten || !s.inHunk);
  }

  lemma ScanDelete(rd: Reading, s: ScanState, l: string)
    requires s.inHunk
    requires rd == AsWritten ==> !HasPrefix(l, "--")
    ensures ScanStep(rd, s, "-" + l) == ScanState(s.ranges + [RemovalRange(s.line, s.col, l)], s.line + 1, s.col, true, true)
  {
    ClassifyRemoval(l, rd == AsWritten);
  }

  lemma ScanInsert(rd: Reading, s: ScanState, l: string)
    requires s.inHunk
    requires rd == AsWritten ==> !HasPrefix(l, "++")
    ensures ScanStep(rd, s, "+" + l)
      == ScanState(if s.changed then s.ranges else s.ranges + [InsertionRange(s.line, s.col)],
                   if rd == AsWritten then s.line + 1 else s.line, s.col, s.changed, true)
  {
    ClassifyAddition(l, rd == AsWritten);
  }

  /** One body line inside the hunk. */
  lemma ScanEdit(rd: Reading, s: ScanState, e: Edit)
    requires s.inHunk
    requires rd == AsWritten ==> (e.Delete? ==> !HasPrefix(e.line, "--")) && (e.Insert? ==> !HasPrefix(e.line, "++"))
    ensures ScanStep(rd, s, BodyLine(e))
      == ScanState(s.ranges + EditRanges(e, s.line, s.col, s.changed), LineAfter(rd, e, s.line), s.col, s.changed || e.Delete?, true)
  {
    var r := s.ranges + EditRanges(e, s.line, s.col, s.changed);
    match e
    case Keep(l) =>
      assert BodyLine(e) == " " + l && r == s.ranges;
      ScanKeep(rd, s, l);
    case Delete(l) =>
      assert BodyLine(e) == "-" + l;
      ScanDelete(rd, s, l);
    case Insert(l) =>
      assert BodyLine(e) == "+" + l;
      ScanInsert(rd, s, l);
      assert s.ranges + [] == s.ranges;
  }

  lemma ScanBodyUnfold(rd: Reading, s: ScanState, es: seq<Edit>)
    requires |es| > 0
    ensures Scan(rd, s, Body(es)) == Scan(rd, ScanStep(rd, s, BodyLine(es[0])), Body(es[1..]))
  {
    assert Body(es)[1..] == Body(es[1..]);
  }

  lemma AssocRanges(a: seq<Range>, b: seq<Range>, c: seq<Range>)
    ensures a + (b + c) == (a + b) + c
  {
  }

  lemma {:induction false} ScanBody(rd: Reading, s: ScanState, es: seq<Edit>)
    requires s.inHunk
    requires rd == AsWritten ==> HeaderSafe(es)
    ensures Scan(rd, s, Body(es)).ranges == s.ranges + ScriptRanges(rd, es, s.line, s.col, s.changed)
    decreases |es|
  {
    if |es| == 0 {
      assert s.ranges + [] == s.ranges;
    } else {
      var e := es[0];
      if rd == AsWritten {
        HeaderSafeHead(es);
        HeaderSafeTail(es);
      }
      ScanBodyUnfold(rd, s, es);
      ScanEdit(rd, s, e);
      var s' := ScanStep(rd, s, BodyLine(e));
      ScanBody(rd, s', es[1..]);
      AssocRanges(s.ranges, EditRanges(e, s.line, s.col, s.changed),
        ScriptRanges(rd, es[1..], s'.line, s'.col, s'.changed));
    }
  }

  /** Before the hunk, the two file labels change nothing. */
  lemma ScanLabels(rd: Reading, rest: seq<string>)
    ensures Scan(rd, Initial, [OldLabel, NewLabel] + rest) == Scan(rd, Initial, rest)
  {
    assert OldLabel[..3] == "---" && NewLabel[..3] == "+++";
    var d := [OldLabel, NewLabel] + rest;
    assert d[0] == OldLabel && d[1..][0] == NewLabel && d[1..][1..] == rest;
  }

  /** The rendered hunk header puts the counter on line 0 and sets the
      column. */
  lemma ScanHeader(rd: Reading, m: nat, n: nat)
    requires m <= MaxInt64
    ensures ScanStep(rd, Initial, HunkHeaderLine(m, n)) == ScanState([], 0, HunkColumn(rd, m), false, true)
  {
    ClassifyHunkHeaderLine(m, n, true);
    ClassifyHunkHeaderLine(m, n, false);
    AtoiNatToString(m);
    assert DigitsValue("1") == 1;
  }

  /** Scanning a rendered diff is scanning its body from the state the hunk
      header leaves. */
  lemma ScanRendered(rd: Reading, es: seq<Edit>)
    requires |OldSide(es)| <= MaxInt64
    ensures Scan(rd, Initial, Render(es))
      == Scan(rd, ScanState([], 0, HunkColumn(rd, |OldSide(es)|), false, true), Body(es))
  {
    var hdr := HunkHeaderLine(|OldSide(es)|, |NewSide(es)|);
    assert Render(es) == [OldLabel, NewLabel] + ([hdr] + Body(es));
    ScanLabels(rd, [hdr] + Body(es));
    ScanHeader(rd, |OldSide(es)|, |NewSide(es)|);
    assert ([hdr] + Body(es))[0] == hdr && ([hdr] + Body(es))[1..] == Body(es);
  }

  /** On the diff rendered from an edit script, each reading reports what the
      script-level definition says, starting at line 0 with the hunk's
      column. */
  lemma RenderedDiagnostics(rd: Reading, es: seq<Edit>)
    requires rd == AsWritten ==> HeaderSafe(es)
    requires |OldSide(es)| <= MaxInt64
    ensures Scan(rd, Initial, Render(es)).ranges == ScriptRanges(rd, es, 0, HunkColumn(rd, |OldSide(es)|), false)
  {
    ScanRendered(rd, es);
    ScanBody(rd, ScanState([], 0, HunkColumn(rd, |OldSide(es)|), false, true), es);
    assert [] + ScriptRanges(rd, es, 0, HunkColumn(rd, |OldSide(es)|), false)
      == ScriptRanges(rd, es, 0, HunkColumn(rd, |OldSide(es)|), false);
  }

  /** The documented "mixed add and remove" case: a hunk at line 1 keeping
      line `a`, replacing line `b` by `x`, removing line `c` and keeping line
      `d`. */
  function MixedScript(a: string, b: string, x: string, c: string, d: string): seq<Edit> {
    [Keep(a)] + ([Delete(b)] + ([Insert(x)] + ([Delete(c)] + [Keep(d)])))
  }

  lemma ScriptRangesCons(rd: Reading, e: Edit, rest: seq<Edit>, line: int, col: int, changed: bool)
    ensures ScriptRanges(rd, [e] + rest, line, col, changed)
      == EditRanges(e, line, col, changed) + ScriptRanges(rd, rest, LineAfter(rd, e, line), col, changed || e.Delete?)
  {
    assert ([e] + rest)[0] == e && ([e] + rest)[1..] == rest;
  }

  lemma OldSideCons(e: Edit, rest: seq<Edit>)
    ensures OldSide([e] + rest) == Reads(e) + OldSide(rest)
  {
    assert ([e] + rest)[0] == e && ([e] + rest)[1..] == rest;
  }

  lemma HeaderSafeCons(e: Edit, rest: seq<Edit>)
    requires e.Delete? ==> !HasPrefix(e.line, "--")
    requires e.Insert? ==> !HasPrefix(e.line, "++")
    requires HeaderSafe(rest)
    ensures HeaderSafe([e] + rest)
  {
    var es := [e] + rest;
    assert es[0] == e && es[1..] == rest;
    forall i | 0 <= i < |es|
      ensures es[i].Delete? ==> !HasPrefix(es[i].line, "--")
      ensures es[i].Insert? ==> !HasPrefix(es[i].line, "++")
    {
      if i > 0 {
        assert es[i] == rest[i - 1];
      }
    }
  }

  lemma MixedScriptShape(a: string, b: string, x: string, c: string, d: string)
    requires !HasPrefix(b, "--") && !HasPrefix(c, "--") && !HasPrefix(x, "++")
    ensures |OldSide(MixedScript(a, b, x, c, d))| == 4 && HeaderSafe(MixedScript(a, b, x, c, d))
  {
    OldSideCons(Keep(d), []);
    OldSideCons(Delete(c), [Keep(d)]);
    OldSideCons(Insert(x), [Delete(c)] + [Keep(d)]);
    OldSideCons(Delete(b), [Insert(x)] + ([Delete(c)] + [Keep(d)]));
    OldSideCons(Keep(a), [Delete(b)] + ([Insert(x)] + ([Delete(c)] + [Keep(d)])));
    HeaderSafeCons(Keep(d), []);
    HeaderSafeCons(Delete(c), [Keep(d)]);
    HeaderSafeCons(Insert(x), [Delete(c)] + [Keep(d)]);
    HeaderSafeCons(Delete(b), [Insert(x)] + ([Delete(c)] + [Keep(d)]));
    HeaderSafeCons(Keep(a), [Delete(b)] + ([Insert(x)] + ([Delete(c)] + [Keep(d)])));
  }

  /** The last three edits of the mixed script, after a removal. */
  lemma MixedScriptTail(rd: Reading, line: int, col: int, x: string, c: string, d: string)
    ensures ScriptRanges(rd, [Insert(x)] + ([Delete(c)] + [Keep(d)]), line, col, true)
      == [RemovalRange(LineAfter(rd, Insert(x), line), col, c)]
  {
    var l3 := LineAfter(rd, Insert(x), line);
    ScriptRangesCons(rd, Keep(d), [], l3 + 1, col, true);
    assert [Keep(d)] + [] == [Keep(d)];
    ScriptRangesCons(rd, Delete(c), [Keep(d)], l3, col, true);
    ScriptRangesCons(rd, Insert(x), [Delete(c)] + [Keep(d)], line, col, true);
  }

  lemma MixedScriptRanges(rd: Reading, col: int, a: string, b: string, x: string, c: string, d: string)
    ensures ScriptRanges(rd, MixedScript(a, b, x, c, d), 0, col, false)
      == [RemovalRange(1, col, b), RemovalRange(if rd == AsWritten then 3 else 2, col, c)]
  {
    var t1 := [Delete(b)] + ([Insert(x)] + ([Delete(c)] + [Keep(d)]));
    MixedScriptBody(rd, col, b, x, c, d);
    ScriptRangesCons(rd, Keep(a), t1, 0, col, false);
    assert [] + ScriptRanges(rd, t1, 1, col, false) == ScriptRanges(rd, t1, 1, col, false);
  }

  /** The mixed script after its first, kept line. */
  lemma MixedScriptBody(rd: Reading, col: int, b: string, x: string, c: string, d: string)
    ensures ScriptRanges(rd, [Delete(b)] + ([Insert(x)] + ([Delete(c)] + [Keep(d)])), 1, col, false)
      == [RemovalRange(1, col, b), RemovalRange(if rd == AsWritten then 3 else 2, col, c)]
  {
    var t2 := [Insert(x)] + ([Delete(c)] + [Keep(d)]);
    var r2, r3 := RemovalRange(1, col, b), RemovalRange(LineAfter(rd, Insert(x), 2), col, c);
    MixedScriptTail(rd, 2, col, x, c, d);
    ScriptRangesCons(rd, Delete(b), t2, 1, col, false);
    assert [r2] + [r3] == [r2, r3];
  }

  /** The removed lines are lines 1 and 2 of the old file, and the corrected
      walker reports them there; the server's walker reports the second one on
      line 3, because it also counted the added line, and starts both ranges
      at column 3, the old count minus one. */
  lemma MixedAddRemove(a: string, b: string, x: string, c: string, d: string)
    requires !HasPrefix(b, "--") && !HasPrefix(c, "--") && !HasPrefix(x, "++")
    ensures var asWritten := Scan(AsWritten, Initial, Render(MixedScript(a, b, x, c, d))).ranges;
      var corrected := Scan(Corrected, Initial, Render(MixedScript(a, b, x, c, d))).ranges;
      && |asWritten| == 2 && asWritten[0].start == Position(1, 3) && asWritten[1].start == Position(3, 3)
      && |corrected| == 2 && corrected[0].start == Position(1, 0) && corrected[1].start == Position(2, 0)
  {
    var es := MixedScript(a, b, x, c, d);
    MixedScriptShape(a, b, x, c, d);
    RenderedDiagnostics(AsWritten, es);
    RenderedDiagnostics(Corrected, es);
    MixedScriptRanges(AsWritten, 3, a, b, x, c, d);
    MixedScriptRanges(Corrected, 0, a, b, x, c, d);
  }

  // ---------------------------------------------------------------------------
  // The walker on a diff with several hunks

  /** Whether a script removes a line. */
  predicate Removes(es: seq<Edit>)
    decreases |es|
  {
    |es| > 0 && (es[0].Delete? || Removes(es[1..]))
  }

  /** The flag after a script: raised before, or raised by a removal. */
  predicate ChangedAfter(changed: bool, es: seq<Edit>) {
    changed || Removes(es)
  }

  /** The counter hunk `i` starts on: the old lines before it, from 0. */
  function HunkStart(hs: seq<Hunk>, i: nat): nat
    requires i < |hs|
  {
    OldBefore(hs, i) + |hs[i].gap|
  }

  /** The column hunk `i`'s header sets. */
  function HunkCol(rd: Reading, hs: seq<Hunk>, i: nat): int
    requires i < |hs|
  {
    HunkColumn(rd, |OldSide(hs[i].edits)|)
  }

  /** What each reading reports for hunks `i..` of a diff, walking the hunks
      themselves: each hunk's script from the line after its gap, at the
      column of its own header, with the "some line was removed" flag carried
      over from the hunks before it. */
  function HunksRanges(rd: Reading, hs: seq<Hunk>, i: nat, changed: bool): seq<Range>
    requires i <= |hs|
    decreases |hs| - i
  {
    if i == |hs| then []
    else
      ScriptRanges(rd, hs[i].edits, HunkStart(hs, i), HunkCol(rd, hs, i), changed)
      + HunksRanges(rd, hs, i + 1, ChangedAfter(changed, hs[i].edits))
  }

  lemma HunksRangesCons(rd: Reading, hs: seq<Hunk>, i: nat, changed: bool)
    requires i < |hs|
    ensures HunksRanges(rd, hs, i, changed)
      == ScriptRanges(rd, hs[i].edits, HunkStart(hs, i), HunkCol(rd, hs, i), changed)
         + HunksRanges(rd, hs, i + 1, ChangedAfter(changed, hs[i].edits))
  {
  }

  lemma RenderFromCons(hs: seq<Hunk>, hdrs: seq<string>, i: nat)
    requires |hdrs| == |hs| && i < |hs|
    ensures RenderFrom(hs, hdrs, i) == ([hdrs[i]] + Body(hs[i].edits)) + RenderFrom(hs, hdrs, i + 1)
  {
  }

  lemma {:induction false} ScanAppend(rd: Reading, s: ScanState, a: seq<string>, b: seq<string>)
    ensures Scan(rd, s, a + b) == Scan(rd, Scan(rd, s, a), b)
    decreases |a|
  {
    if |a| > 0 {
      assert (a + b)[0] == a[0] && (a + b)[1..] == a[1..] + b;
      ScanAppend(rd, ScanStep(rd, s, a[0]), a[1..], b);
    } else {
      assert a + b == b;
    }
  }

  /** A hunk's body leaves the walker inside the hunk, with the flag raised
      exactly when the flag was raised before or the script removes a line. */
  lemma {:induction false} ScanBodyFlags(rd: Reading, s: ScanState, es: seq<Edit>)
    requires s.inHunk
    requires rd == AsWritten ==> HeaderSafe(es)
    ensures Scan(rd, s, Body(es)).inHunk
    ensures Scan(rd, s, Body(es)).changed == ChangedAfter(s.changed, es)
    decreases |es|
  {
    if |es| > 0 {
      if rd == AsWritten {
        HeaderSafeHead(es);
        HeaderSafeTail(es);
      }
      ScanBodyUnfold(rd, s, es);
      ScanEdit(rd, s, es[0]);
      ScanBodyFlags(rd, ScanStep(rd, s, BodyLine(es[0])), es[1..]);
    }
  }

  /** Hunk `i`'s header, met in any state, moves the counter to the line
      after the hunk's gap and sets the hunk's column, keeping the reported
      ranges and the flag. */
  lemma ScanHunkHeader(rd: Reading, s: ScanState, hs: seq<Hunk>, i: nat)
    requires i < |hs| && |OldFrom(hs, 0)| < MaxInt64
    ensures ScanStep(rd, s, HunkHeaders(hs)[i])
      == ScanState(s.ranges, HunkStart(hs, i), HunkCol(rd, hs, i), s.changed, true)
  {
    OldBeforeFrom(hs, i);
    FromCons(hs, i);
    var f := FieldsOf(hs, i);
    assert HunkHeaders(hs)[i] == PrintedHeader(f);
    ClassifyPrintedHeader(f, rd == AsWritten || !s.inHunk);
    AtoiNatToString(OldBefore(hs, i) + |hs[i].gap| + 1);
    AtoiNatToString(|OldSide(hs[i].edits)|);
  }

  lemma ScanCons(rd: Reading, s: ScanState, h: string, rest: seq<string>)
    ensures Scan(rd, s, [h] + rest) == Scan(rd, ScanStep(rd, s, h), rest)
  {
    assert ([h] + rest)[0] == h && ([h] + rest)[1..] == rest;
  }

  /** A header that enters the hunk at `line` and `col`, then the hunk's
      body: the script's ranges are appended and the flag records whether it
      removed a line. */
  lemma ScanHeaderThenBody(rd: Reading, s: ScanState, h: string, es: seq<Edit>, line: int, col: int)
    requires ScanStep(rd, s, h) == ScanState(s.ranges, line, col, s.changed, true)
    requires rd == AsWritten ==> HeaderSafe(es)
    ensures Scan(rd, s, [h] + Body(es)).ranges == s.ranges + ScriptRanges(rd, es, line, col, s.changed)
    ensures Scan(rd, s, [h] + Body(es)).changed == ChangedAfter(s.changed, es)
  {
    ScanCons(rd, s, h, Body(es));
    ScanBody(rd, ScanState(s.ranges, line, col, s.changed, true), es);
    ScanBodyFlags(rd, ScanState(s.ranges, line, col, s.changed, true), es);
  }

  /** Ranges add up over two consecutive parts `a` and `b` of a diff. */
  lemma ScanThen(rd: Reading, s: ScanState, c: seq<string>, a: seq<string>, b: seq<string>, z: seq<Range>, x: seq<Range>, y: seq<Range>)
    requires c == a + b
    requires z == x + y
    requires Scan(rd, s, a).ranges == s.ranges + x
    requires Scan(rd, Scan(rd, s, a), b).ranges == Scan(rd, s, a).ranges + y
    ensures Scan(rd, s, c).ranges == s.ranges + z
  {
    ScanAppend(rd, s, a, b);
    AssocRanges(s.ranges, x, y);
  }

  /** Every header line `hdrs[j]`, met in any state, moves the counter to
      the line after hunk `j`'s gap and sets hunk `j`'s column. */
  ghost predicate HeadersEnter(rd: Reading, hs: seq<Hunk>, hdrs: seq<string>) {
    && |hdrs| == |hs|
    && forall j, s :: 0 <= j < |hs| ==>
         ScanStep(rd, s, hdrs[j]) == ScanState(s.ranges, HunkStart(hs, j), HunkCol(rd, hs, j), s.changed, true)
  }

  // The induction over hunks keeps the walk behind a counter `k >= 3`:
  // `ScanK` is `Scan` after `k` unfoldings, so the solver does not unfold the
  // walk over a hunk's lines unless `ScanKIs` is called.

  /** `Scan`, behind `k` unfoldings. */
  ghost function ScanK(rd: Reading, s: ScanState, lines: seq<string>, k: nat): ScanState
    decreases k
  {
    if k == 0 then Scan(rd, s, lines) else ScanK(rd, s, lines, k - 1)
  }

  lemma {:induction false} ScanKIs(rd: Reading, s: ScanState, lines: seq<string>, k: nat)
    ensures ScanK(rd, s, lines, k) == Scan(rd, s, lines)
    decreases k
  {
    if k > 0 {
      ScanKIs(rd, s, lines, k - 1);
    }
  }

  lemma ScanHeaderThenBodyK(rd: Reading, s: ScanState, h: string, es: seq<Edit>, line: int, col: int, k: nat)
    requires ScanStep(rd, s, h) == ScanState(s.ranges, line, col, s.changed, true)
    requires rd == AsWritten ==> HeaderSafe(es)
    ensures ScanK(rd, s, [h] + Body(es), k).ranges == s.ranges + ScriptRanges(rd, es, line, col, s.changed)
    ensures ScanK(rd, s, [h] + Body(es), k).changed == ChangedAfter(s.changed, es)
  {
    ScanKIs(rd, s, [h] + Body(es), k);
    ScanHeaderThenBody(rd, s, h, es, line, col);
  }

  lemma ScanThenK(rd: Reading, s: ScanState, c: seq<string>, a: seq<string>, b: seq<string>, z: seq<Range>, x: seq<Range>, y: seq<Range>, k: nat)
    requires c == a + b
    requires z == x + y
    requires ScanK(rd, s, a, k).ranges == s.ranges + x
    requires ScanK(rd, ScanK(rd, s, a, k), b, k).ranges == ScanK(rd, s, a, k).ranges + y
    ensures ScanK(rd, s, c, k).ranges == s.ranges + z
  {
    ScanKIs(rd, s, a, k);
    ScanKIs(rd, Scan(rd, s, a), b, k);
    ScanKIs(rd, s, c, k);
    ScanThen(rd, s, c, a, b, z, x, y);
  }

  /** Hunk `i`, then hunks `i+1..` as the induction hypothesis has them. */
  lemma ScanHunkThen(rd: Reading, s: ScanState, t: ScanState, hs: seq<Hunk>, hdrs: seq<string>, i: nat, k: nat)
    requires i < |hs| && HeadersEnter(rd, hs, hdrs) && k >= 3
    requires rd == AsWritten ==> HeaderSafe(hs[i].edits)
    requires t == ScanK(rd, s, [hdrs[i]] + Body(hs[i].edits), k)
    requires ScanK(rd, t, RenderFrom(hs, hdrs, i + 1), k).ranges == t.ranges + HunksRanges(rd, hs, i + 1, t.changed)
    ensures ScanK(rd, s, RenderFrom(hs, hdrs, i), k).ranges == s.ranges + HunksRanges(rd, hs, i, s.changed)
  {
    var a := [hdrs[i]] + Body(hs[i].edits);
    ScanHeaderThenBodyK(rd, s, hdrs[i], hs[i].edits, HunkStart(hs, i), HunkCol(rd, hs, i), k);
    HunksRangesCons(rd, hs, i, s.changed);
    RenderFromCons(hs, hdrs, i);
    ScanThenK(rd, s, RenderFrom(hs, hdrs, i), a, RenderFrom(hs, hdrs, i + 1), HunksRanges(rd, hs, i, s.changed),
      ScriptRanges(rd, hs[i].edits, HunkStart(hs, i), HunkCol(rd, hs, i), s.changed),
      HunksRanges(rd, hs, i + 1, ChangedAfter(s.changed, hs[i].edits)), k);
  }

  /** Scanning hunks `i..` of a diff whose headers enter them appends what
      the hunk-level definition says, whatever the state they are met in. */
  lemma {:induction false} ScanHunks(rd: Reading, s: ScanState, hs: seq<Hunk>, hdrs: seq<string>, i: nat, k: nat)
    requires i <= |hs| && HeadersEnter(rd, hs, hdrs) && k >= 3
    requires rd == AsWritten ==> HunksHeaderSafe(hs)
    ensures ScanK(rd, s, RenderFrom(hs, hdrs, i), k).ranges == s.ranges + HunksRanges(rd, hs, i, s.changed)
    decreases |hs| - i, 1
  {
    if i == |hs| {
      ScanNoHunks(rd, s, hs, hdrs, k);
    } else {
      ScanHunksFrom(rd, s, hs, hdrs, i, k);
    }
  }

  /** The step of `ScanHunks`: hunk `i`, then the rest by the induction. */
  lemma {:induction false} ScanHunksFrom(rd: Reading, s: ScanState, hs: seq<Hunk>, hdrs: seq<string>, i: nat, k: nat)
    requires i < |hs| && HeadersEnter(rd, hs, hdrs) && k >= 3
    requires rd == AsWritten ==> HunksHeaderSafe(hs)
    ensures ScanK(rd, s, RenderFrom(hs, hdrs, i), k).ranges == s.ranges + HunksRanges(rd, hs, i, s.changed)
    decreases |hs| - i, 0
  {
    var t := ScanK(rd, s, [hdrs[i]] + Body(hs[i].edits), k);
    ScanHunks(rd, t, hs, hdrs, i + 1, k);
    ScanHunkThen(rd, s, t, hs, hdrs, i, k);
  }

  /** Past the last hunk the walker adds nothing. */
  lemma ScanNoHunks(rd: Reading, s: ScanState, hs: seq<Hunk>, hdrs: seq<string>, k: nat)
    requires |hdrs| == |hs|
    ensures ScanK(rd, s, RenderFrom(hs, hdrs, |hs|), k).ranges == s.ranges + HunksRanges(rd, hs, |hs|, s.changed)
  {
    ScanKIs(rd, s, [], k);
    assert s.ranges + [] == s.ranges;
  }

  /** The rendered headers enter their hunks. */
  lemma RenderedHeadersEnter(rd: Reading, hs: seq<Hunk>)
    requires |OldFrom(hs, 0)| < MaxInt64
    ensures HeadersEnter(rd, hs, HunkHeaders(hs))
  {
    forall j, s | 0 <= j < |hs|
      ensures ScanStep(rd, s, HunkHeaders(hs)[j])
        == ScanState(s.ranges, HunkStart(hs, j), HunkCol(rd, hs, j), s.changed, true)
    {
      ScanHunkHeader(rd, s, hs, j);
    }
  }

  /** On the diff of a file whose changed regions are `hs`, each reading
      reports what the hunk-level definition says: every hunk from the line
      after its gap, at its own header's column, and additions only until
      the first removal of the whole diff. */
  lemma RenderedHunksDiagnostics(rd: Reading, hs: seq<Hunk>)
    requires rd == AsWritten ==> HunksHeaderSafe(hs)
    requires |OldFrom(hs, 0)| < MaxInt64
    ensures Scan(rd, Initial, RenderDiff(hs)).ranges == HunksRanges(rd, hs, 0, false)
  {
    RenderedHeadersEnter(rd, hs);
    assert OldLabel[..3] == "---" && NewLabel[..3] == "+++";
    ScanLabelledHunks(rd, hs, HunkHeaders(hs), OldLabel, NewLabel);
  }

  // ---------------------------------------------------------------------------
  // The documented "multiple hunks" case

  /** Any two file labels are skipped, not only the rendered ones. */
  lemma ScanFileLabels(rd: Reading, a: string, b: string, rest: seq<string>)
    requires HasPrefix(a, "---") && HasPrefix(b, "+++")
    ensures Scan(rd, Initial, [a, b] + rest) == Scan(rd, Initial, rest)
  {
    var d := [a, b] + rest;
    assert d[0] == a && d[1..][0] == b && d[1..][1..] == rest;
  }

  /** A diff under any file labels and any headers that enter their hunks
      reports what the hunk-level definition says. */
  lemma ScanLabelledHunks(rd: Reading, hs: seq<Hunk>, hdrs: seq<string>, l0: string, l1: string)
    requires HasPrefix(l0, "---") && HasPrefix(l1, "+++")
    requires HeadersEnter(rd, hs, hdrs)
    requires rd == AsWritten ==> HunksHeaderSafe(hs)
    ensures Scan(rd, Initial, [l0, l1] + RenderFrom(hs, hdrs, 0)).ranges == HunksRanges(rd, hs, 0, false)
  {
    ScanFileLabels(rd, l0, l1, RenderFrom(hs, hdrs, 0));
    ScanHunks(rd, Initial, hs, hdrs, 0, 3);
    ScanKIs(rd, Initial, RenderFrom(hs, hdrs, 0), 3);
    assert [] + HunksRanges(rd, hs, 0, false) == HunksRanges(rd, hs, 0, false);
  }

  /** A hunk that keeps `a`, replaces `b` by `x` and keeps `c`. */
  function SwapScript(a: string, b: string, x: string, c: string): seq<Edit> {
    [Keep(a)] + ([Delete(b)] + ([Insert(x)] + [Keep(c)]))
  }

  /** Its one range is the replaced line, the line after the counter: the
      addition follows the removal, so it is never reported. */
  lemma SwapScriptRanges(rd: Reading, a: string, b: string, x: string, c: string, line: int, col: int, changed: bool)
    ensures ScriptRanges(rd, SwapScript(a, b, x, c), line, col, changed) == [RemovalRange(line + 1, col, b)]
  {
    ScriptRangesCons(rd, Keep(c), [], LineAfter(rd, Insert(x), line + 2), col, true);
    assert [Keep(c)] + [] == [Keep(c)];
    ScriptRangesCons(rd, Insert(x), [Keep(c)], line + 2, col, true);
    ScriptRangesCons(rd, Delete(b), [Insert(x)] + [Keep(c)], line + 1, col, changed);
    ScriptRangesCons(rd, Keep(a), [Delete(b)] + ([Insert(x)] + [Keep(c)]), line, col, changed);
  }

  lemma SwapScriptShape(a: string, b: string, x: string, c: string)
    requires !HasPrefix(b, "--") && !HasPrefix(x, "++")
    ensures |OldSide(SwapScript(a, b, x, c))| == 3 && HeaderSafe(SwapScript(a, b, x, c))
    ensures Body(SwapScript(a, b, x, c)) == [" " + a, "-" + b, "+" + x, " " + c]
  {
    OldSideCons(Keep(c), []);
    OldSideCons(Insert(x), [Keep(c)]);
    OldSideCons(Delete(b), [Insert(x)] + [Keep(c)]);
    OldSideCons(Keep(a), [Delete(b)] + ([Insert(x)] + [Keep(c)]));
    HeaderSafeCons(Keep(c), []);
    HeaderSafeCons(Insert(x), [Keep(c)]);
    HeaderSafeCons(Delete(b), [Insert(x)] + [Keep(c)]);
    HeaderSafeCons(Keep(a), [Delete(b)] + ([Insert(x)] + [Keep(c)]));
  }

  /** Two such hunks, the second after the unchanged lines `gap`; `p` and
      `q` hold each hunk's four lines. */
  function TwoSwaps(gap: seq<string>, p: seq<string>, q: seq<string>): seq<Hunk>
    requires |p| == 4 && |q| == 4
  {
    [Hunk([], SwapScript(p[0], p[1], p[2], p[3])), Hunk(gap, SwapScript(q[0], q[1], q[2], q[3]))]
  }

  /** Lines the walker cannot take for file labels. */
  predicate SwapSafe(p: seq<string>) {
    |p| == 4 && !HasPrefix(p[1], "--") && !HasPrefix(p[2], "++")
  }

  lemma TwoSwapsShape(gap: seq<string>, p: seq<string>, q: seq<string>)
    requires SwapSafe(p) && SwapSafe(q)
    ensures var hs := TwoSwaps(gap, p, q);
      && HunksHeaderSafe(hs)
      && HunkStart(hs, 0) == 0 && HunkStart(hs, 1) == |gap| + 3
      && |OldSide(hs[0].edits)| == 3 && |OldSide(hs[1].edits)| == 3
  {
    SwapScriptShape(p[0], p[1], p[2], p[3]);
    SwapScriptShape(q[0], q[1], q[2], q[3]);
  }

  /** The diff lines of the two hunks under headers `h0` and `h1`. */
  lemma TwoSwapsRendered(gap: seq<string>, p: seq<string>, q: seq<string>, h0: string, h1: string)
    requires SwapSafe(p) && SwapSafe(q)
    ensures RenderFrom(TwoSwaps(gap, p, q), [h0, h1], 0)
      == [h0, " " + p[0], "-" + p[1], "+" + p[2], " " + p[3], h1, " " + q[0], "-" + q[1], "+" + q[2], " " + q[3]]
  {
    var hs, hdrs := TwoSwaps(gap, p, q), [h0, h1];
    SwapScriptShape(p[0], p[1], p[2], p[3]);
    SwapScriptShape(q[0], q[1], q[2], q[3]);
    assert RenderFrom(hs, hdrs, 2) == [];
    RenderFromCons(hs, hdrs, 1);
    RenderFromCons(hs, hdrs, 0);
  }

  /** What the hunk-level definition gives: the replaced line of each hunk,
      the second one after the gap. */
  lemma TwoSwapsRanges(rd: Reading, gap: seq<string>, p: seq<string>, q: seq<string>)
    requires SwapSafe(p) && SwapSafe(q)
    ensures HunksRanges(rd, TwoSwaps(gap, p, q), 0, false)
      == [RemovalRange(1, HunkColumn(rd, 3), p[1]), RemovalRange(|gap| + 4, HunkColumn(rd, 3), q[1])]
  {
    var hs := TwoSwaps(gap, p, q);
    var c0 := ChangedAfter(false, hs[0].edits);
    TwoSwapsShape(gap, p, q);
    HunksRangesCons(rd, hs, 0, false);
    HunksRangesCons(rd, hs, 1, c0);
    SwapScriptRanges(rd, p[0], p[1], p[2], p[3], 0, HunkCol(rd, hs, 0), false);
    SwapScriptRanges(rd, q[0], q[1], q[2], q[3], |gap| + 3, HunkCol(rd, hs, 1), c0);
    assert HunksRanges(rd, hs, 2, ChangedAfter(c0, hs[1].edits)) == [];
  }

  /** Scanning two such hunks under any labels and any headers that enter
      them gives those ranges. */
  lemma TwoSwapsScan(rd: Reading, gap: seq<string>, p: seq<string>, q: seq<string>, l0: string, l1: string, h0: string, h1: string)
    requires SwapSafe(p) && SwapSafe(q)
    requires HasPrefix(l0, "---") && HasPrefix(l1, "+++")
    requires HeadersEnter(rd, TwoSwaps(gap, p, q), [h0, h1])
    ensures Scan(rd, Initial, [l0, l1] + RenderFrom(TwoSwaps(gap, p, q), [h0, h1], 0)).ranges
      == [RemovalRange(1, HunkColumn(rd, 3), p[1]), RemovalRange(|gap| + 4, HunkColumn(rd, 3), q[1])]
  {
    TwoSwapsShape(gap, p, q);
    ScanLabelledHunks(rd, TwoSwaps(gap, p, q), [h0, h1], l0, l1);
    TwoSwapsRanges(rd, gap, p, q);
  }

  /** A printed header enters its hunk on the line before its start, at the
      column its old count gives. */
  lemma PrintedHeaderEnters(rd: Reading, s: ScanState, f: HunkFields, start: nat, count: nat)
    requires Printable(f) && Atoi(f.oldStart) == Some(start) && Atoi(f.oldCount) == Some(count)
    ensures ScanStep(rd, s, PrintedHeader(f)) == ScanState(s.ranges, start - 1, HunkColumn(rd, count), s.changed, true)
  {
    ClassifyPrintedHeader(f, rd == AsWritten || !s.inHunk);
  }

  lemma FirstCaseHeader(rd: Reading, s: ScanState)
    ensures ScanStep(rd, s, "@@ -1,3 +1,3 @@") == ScanState(s.ranges, 0, HunkColumn(rd, 3), s.changed, true)
  {
    var f := HunkFields("1", "3", "1", "3");
    assert PrintedHeader(f) == "@@ -1,3 +1,3 @@";
    assert DigitsValue("1") == 1 && DigitsValue("3") == 3;
    PrintedHeaderEnters(rd, s, f, 1, 3);
  }

  lemma SecondCaseHeader(rd: Reading, s: ScanState)
    ensures ScanStep(rd, s, "@@ -10,3 +10,3 @@") == ScanState(s.ranges, 9, HunkColumn(rd, 3), s.changed, true)
  {
    var f := HunkFields("10", "3", "10", "3");
    assert PrintedHeader(f) == "@@ -10,3 +10,3 @@";
    assert DigitsValue("10") == 10 && DigitsValue("3") == 3;
    PrintedHeaderEnters(rd, s, f, 10, 3);
  }

  /** The lines between the case's hunks. */
  const CaseGap: seq<string> := ["line 4", "line 5", "line 6", "line 7", "line 8", "line 9"]
  const CaseFirst: seq<string> := ["line 1", "old line 2", "new line 2", "line 3"]
  const CaseSecond: seq<string> := ["line 10", "old line 11", "new line 11", "line 12"]

  lemma CaseSafe()
    ensures SwapSafe(CaseFirst) && SwapSafe(CaseSecond) && |CaseGap| == 6
  {
    assert CaseFirst[1][..2] == "ol" && CaseFirst[2][..2] == "ne";
    assert CaseSecond[1][..2] == "ol" && CaseSecond[2][..2] == "ne";
  }

  lemma CaseHeadersEnter(rd: Reading)
    ensures HeadersEnter(rd, TwoSwaps(CaseGap, CaseFirst, CaseSecond), ["@@ -1,3 +1,3 @@", "@@ -10,3 +10,3 @@"])
  {
    var hs, hdrs := TwoSwaps(CaseGap, CaseFirst, CaseSecond), ["@@ -1,3 +1,3 @@", "@@ -10,3 +10,3 @@"];
    CaseSafe();
    TwoSwapsShape(CaseGap, CaseFirst, CaseSecond);
    forall j, s | 0 <= j < |hs|
      ensures ScanStep(rd, s, hdrs[j]) == ScanState(s.ranges, HunkStart(hs, j), HunkCol(rd, hs, j), s.changed, true)
    {
      if j == 0 {
        FirstCaseHeader(rd, s);
      } else {
        SecondCaseHeader(rd, s);
      }
    }
  }

  /** The case's diff text, line by line. */
  function TwoHunkCaseDiff(): seq<string> {
    ["--- a/test.php", "+++ b/test.php",
     "@@ -1,3 +1,3 @@", " line 1", "-old line 2", "+new line 2", " line 3",
     "@@ -10,3 +10,3 @@", " line 10", "-old line 11", "+new line 11", " line 12"]
  }

  lemma CaseDiffRendered()
    ensures TwoHunkCaseDiff() == ["--- a/test.php", "+++ b/test.php"]
      + RenderFrom(TwoSwaps(CaseGap, CaseFirst, CaseSecond), ["@@ -1,3 +1,3 @@", "@@ -10,3 +10,3 @@"], 0)
  {
    CaseSafe();
    TwoSwapsRendered(CaseGap, CaseFirst, CaseSecond, "@@ -1,3 +1,3 @@", "@@ -10,3 +10,3 @@");
    CaseFirstLines();
    CaseSecondLines();
  }

  lemma CaseFirstLines()
    ensures " " + CaseFirst[0] == " line 1" && "-" + CaseFirst[1] == "-old line 2"
    ensures "+" + CaseFirst[2] == "+new line 2" && " " + CaseFirst[3] == " line 3"
  {
  }

  lemma CaseSecondLines()
    ensures " " + CaseSecond[0] == " line 10" && "-" + CaseSecond[1] == "-old line 11"
    ensures "+" + CaseSecond[2] == "+new line 11" && " " + CaseSecond[3] == " line 12"
  {
  }

  lemma CaseDiffNoNewlines()
    ensures NoSep(TwoHunkCaseDiff(), '\n')
  {
  }

  /** The case's scan, in either reading. */
  lemma CaseScan(rd: Reading)
    ensures Scan(rd, Initial, TwoHunkCaseDiff()).ranges
      == [RemovalRange(1, HunkColumn(rd, 3), "old line 2"), RemovalRange(10, HunkColumn(rd, 3), "old line 11")]
  {
    CaseSafe();
    CaseHeadersEnter(rd);
    CaseDiffRendered();
    assert "--- a/test.php"[..3] == "---" && "+++ b/test.php"[..3] == "+++";
    TwoSwapsScan(rd, CaseGap, CaseFirst, CaseSecond, "--- a/test.php", "+++ b/test.php", "@@ -1,3 +1,3 @@", "@@ -10,3 +10,3 @@");
  }

  /** The "multiple hunks" case promises diagnostics on lines 1 and 10. The
      server's walker reports them there, both at column 2 (each header's old
      count 3, minus one), and the corrected walker at column 0. */
  lemma MultipleHunks()
    ensures ParseDiffForDiagnostics(Join(TwoHunkCaseDiff(), '\n'))
      == [RemovalRange(1, 2, "old line 2"), RemovalRange(10, 2, "old line 11")]
    ensures ParseDiffCorrected(Join(TwoHunkCaseDiff(), '\n'))
      == [RemovalRange(1, 0, "old line 2"), RemovalRange(10, 0, "old line 11")]
  {
    CaseDiffNoNewlines();
    ParseJoined(TwoHunkCaseDiff());
    CaseScan(AsWritten);
    CaseScan(Corrected);
  }

  /** Both readings of a diff text joined from lines without newlines scan
      exactly those lines. */
  lemma ParseJoined(d: seq<string>)
    requires |d| >= 1 && NoSep(d, '\n')
    ensures ParseDiffForDiagnostics(Join(d, '\n')) == Scan(AsWritten, Initial, d).ranges
    ensures ParseDiffCorrected(Join(d, '\n')) == Scan(Corrected, Initial, d).ranges
  {
    SplitJoin(d, '\n');
  }
}
