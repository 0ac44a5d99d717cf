/** The formatter's unified-diff applier (`ApplyUnifiedDiff` in
    internal/utils/utils.go): it walks the diff once with a cursor into the
    original lines, copying untouched lines up to each hunk, copying context
    lines, skipping removed lines, inserting added lines, and finally copying
    whatever is left of the original. It never fails: malformed lines are
    ignored.

    The walk is parameterised by when `---`/`+++` lines count as file
    headers. The server's applier treats them as headers everywhere, so a
    removed line whose text starts with `--` or an added line starting with
    `++` is skipped; `HeadersBeforeFirstHunk` is the corrected reading, in
    which they are file headers only before the first hunk. */
module ApplyDiff {
  import opened Wrappers
  import opened Text
  import opened HunkHeader
  import opened DiffLines

  datatype HeaderRule = HeadersAnywhere | HeadersBeforeFirstHunk

  /** The walk's state: the lines produced so far, the index of the next
      original line, and whether a hunk header has been seen. */
  datatype Cursor = Cursor(out: seq<string>, next: nat, inHunk: bool)

  const Start: Cursor := Cursor([], 0, false)

  predicate HeadersAllowed(rule: HeaderRule, c: Cursor) {
    rule == HeadersAnywhere || !c.inHunk
  }

  /** Copies original lines while the cursor is before `stop` and before the
      end of the original. */
  function CopyUpTo(orig: seq<string>, c: Cursor, stop: int): (r: Cursor)
    requires c.next <= |orig|
    ensures r.inHunk == c.inHunk
    ensures c.next <= r.next <= |orig|
    ensures r.next == c.next || r.next == stop || r.next == |orig|
    ensures r.next >= stop || r.next == |orig|
    ensures r.out == c.out + orig[c.next..r.next]
    decreases |orig| - c.next
  {
    if c.next < stop && c.next < |orig| then
      var r := CopyUpTo(orig, Cursor(c.out + [orig[c.next]], c.next + 1, c.inHunk), stop);
      assert orig[c.next..r.next] == [orig[c.next]] + orig[c.next + 1..r.next];
      r
    else c
  }

  /** What a line of each kind does. A hunk header copies the original up to
      the line before its old-side start, when that start parses as an int. */
  function Act(orig: seq<string>, c: Cursor, k: LineKind): (r: Cursor)
    requires c.next <= |orig|
    ensures c.next <= r.next <= |orig|
  {
    match k
    case FileHeader => c
    case HunkLine(fields) =>
      var h := Cursor(c.out, c.next, true);
      if fields.Some? && Atoi(fields.value.oldStart).Some? then
        CopyUpTo(orig, h, Atoi(fields.value.oldStart).value - 1)
      else h
    case Blank => c
    case Context(_) =>
      if c.next < |orig| then Cursor(c.out + [orig[c.next]], c.next + 1, c.inHunk) else c
    case Removal(_) =>
      if c.next < |orig| then Cursor(c.out, c.next + 1, c.inHunk) else c
    case Addition(text) => Cursor(c.out + [text], c.next, c.inHunk)
    case Unknown => c
  }

  /** One diff line: read it, then act on it. */
  function Step(rule: HeaderRule, orig: seq<string>, c: Cursor, line: string): (r: Cursor)
    requires c.next <= |orig|
    ensures c.next <= r.next <= |orig|
  {
    Act(orig, c, Classify(line, HeadersAllowed(rule, c)))
  }

  /** The walk over the diff lines. */
  function WalkFrom(rule: HeaderRule, orig: seq<string>, c: Cursor, diff: seq<string>): (r: Cursor)
    requires c.next <= |orig|
    ensures c.next <= r.next <= |orig|
    decreases |diff|
  {
    if |diff| == 0 then c else WalkFrom(rule, orig, Step(rule, orig, c, diff[0]), diff[1..])
  }

  /** The lines the walk produces, then the rest of the original. */
  function ApplyLines(rule: HeaderRule, orig: seq<string>, diff: seq<string>): seq<string> {
    var c := WalkFrom(rule, orig, Start, diff);
    c.out + orig[c.next..]
  }

  /** `ApplyUnifiedDiff(originalContent, diff)`: splits both texts on `\n`,
      walks, and joins the result with `\n`. Its error result is always nil,
      so it is modelled as returning the text alone. */
  function ApplyUnifiedDiff(original: string, diff: string): string {
    Join(ApplyLines(HeadersAnywhere, Split(original, '\n'), Split(diff, '\n')), '\n')
  }

  /** The applier with `---`/`+++` read as file headers only before the first
      hunk header. */
  function ApplyUnifiedDiffCorrected(original: string, diff: string): string {
    Join(ApplyLines(HeadersBeforeFirstHunk, Split(original, '\n'), Split(diff, '\n')), '\n')
  }

  // ---------------------------------------------------------------------------
  // Properties

  /** Walking two pieces of a diff is walking the first, then the second. */
  lemma {:induction false} WalkFromAppend(rule: HeaderRule, orig: seq<string>, c: Cursor, a: seq<string>, b: seq<string>)
    requires c.next <= |orig|
    ensures WalkFrom(rule, orig, c, a + b) == WalkFrom(rule, orig, WalkFrom(rule, orig, c, a), b)
    decreases |a|
  {
    if |a| == 0 {
      assert a + b == b;
    } else {
      assert (a + b)[0] == a[0];
      assert (a + b)[1..] == a[1..] + b;
      WalkFromAppend(rule, orig, Step(rule, orig, c, a[0]), a[1..], b);
    }
  }

  /** A diff line that neither removes nor adds. */
  predicate NoEdit(line: string) {
    |line| == 0 || IsFileHeader(line) || (line[0] != '-' && line[0] != '+')
  }

  /** Copying keeps the produced lines equal to the original lines passed. */
  lemma CopyUpToPrefix(orig: seq<string>, c: Cursor, stop: int)
    requires c.next <= |orig| && c.out == orig[..c.next]
    ensures CopyUpTo(orig, c, stop).out == orig[..CopyUpTo(orig, c, stop).next]
  {
    var r := CopyUpTo(orig, c, stop);
    assert orig[..c.next] + orig[c.next..r.next] == orig[..r.next];
  }

  /** Copying towards a stop line inside the original reaches it exactly. */
  lemma {:induction false} CopyUpToExact(orig: seq<string>, c: Cursor, stop: nat)
    requires c.next <= stop <= |orig|
    ensures CopyUpTo(orig, c, stop) == Cursor(c.out + orig[c.next..stop], stop, c.inHunk)
    decreases stop - c.next
  {
    if c.next < stop {
      var c1 := Cursor(c.out + [orig[c.next]], c.next + 1, c.inHunk);
      CopyUpToExact(orig, c1, stop);
      assert orig[c.next..stop] == [orig[c.next]] + orig[c.next + 1..stop];
      assert c.out + orig[c.next..stop] == c1.out + orig[c.next + 1..stop];
    } else {
      assert c.out + orig[c.next..stop] == c.out;
    }
  }

  /** A hunk header only copies original lines. */
  lemma HunkNoEdit(orig: seq<string>, c: Cursor, fields: Option<HunkFields>)
    requires c.next <= |orig| && c.out == orig[..c.next]
    ensures Act(orig, c, HunkLine(fields)).out == orig[..Act(orig, c, HunkLine(fields)).next]
  {
    var h := Cursor(c.out, c.next, true);
    if fields.Some? && Atoi(fields.value.oldStart).Some? {
      CopyUpToPrefix(orig, h, Atoi(fields.value.oldStart).value - 1);
    }
  }

  /** A context line copies the next original line. */
  lemma ContextNoEdit(orig: seq<string>, c: Cursor, text: string)
    requires c.next <= |orig| && c.out == orig[..c.next]
    ensures Act(orig, c, Context(text)).out == orig[..Act(orig, c, Context(text)).next]
  {
    if c.next < |orig| {
      assert orig[..c.next] + [orig[c.next]] == orig[..c.next + 1];
    }
  }

  /** A line the server's walker treats as neither a removal nor an addition
      keeps the produced lines equal to the original lines passed so far. */
  lemma StepNoEdit(orig: seq<string>, c: Cursor, line: string)
    requires c.next <= |orig| && c.out == orig[..c.next]
    requires NoEdit(line)
    ensures Step(HeadersAnywhere, orig, c, line).out == orig[..Step(HeadersAnywhere, orig, c, line).next]
  {
    var k := Classify(line, true);
    assert !k.Removal? && !k.Addition?;
    match k {
      case HunkLine(fields) => HunkNoEdit(orig, c, fields);
      case Context(text) => ContextNoEdit(orig, c, text);
      case _ =>
    }
  }

  lemma {:induction false} WalkNoEdit(orig: seq<string>, c: Cursor, diff: seq<string>)
    requires c.next <= |orig| && c.out == orig[..c.next]
    requires forall i :: 0 <= i < |diff| ==> NoEdit(diff[i])
    ensures WalkFrom(HeadersAnywhere, orig, c, diff).out == orig[..WalkFrom(HeadersAnywhere, orig, c, diff).next]
    decreases |diff|
  {
    if |diff| > 0 {
      StepNoEdit(orig, c, diff[0]);
      WalkNoEdit(orig, Step(HeadersAnywhere, orig, c, diff[0]), diff[1..]);
    }
  }

  /** A diff without removed or added lines (only headers, context, blank or
      unrecognised lines) gives back the original lines. */
  lemma ApplyLinesNoEdit(orig: seq<string>, diff: seq<string>)
    requires forall i :: 0 <= i < |diff| ==> NoEdit(diff[i])
    ensures ApplyLines(HeadersAnywhere, orig, diff) == orig
  {
    WalkNoEdit(orig, Start, diff);
    var c := WalkFrom(HeadersAnywhere, orig, Start, diff);
    assert orig[..c.next] + orig[c.next..] == orig;
  }

  /** The same at the level of texts: the empty diff, a whitespace-only diff, a
      diff of headers only or of context only returns the original content. */
  lemma ApplyUnifiedDiffNoEdit(original: string, diff: string)
    requires forall i :: 0 <= i < |Split(diff, '\n')| ==> NoEdit(Split(diff, '\n')[i])
    ensures ApplyUnifiedDiff(original, diff) == original
  {
    ApplyLinesNoEdit(Split(original, '\n'), Split(diff, '\n'));
    JoinSplit(original, '\n');
  }

  /** File-header lines are ignored wherever they appear: dropping one from
      the diff changes nothing. */
  lemma DropFileHeader(orig: seq<string>, a: seq<string>, h: string, b: seq<string>)
    requires IsFileHeader(h)
    ensures ApplyLines(HeadersAnywhere, orig, a + [h] + b) == ApplyLines(HeadersAnywhere, orig, a + b)
  {
    WalkFromAppend(HeadersAnywhere, orig, Start, a, [h] + b);
    WalkFromAppend(HeadersAnywhere, orig, Start, a, b);
    assert a + [h] + b == a + ([h] + b);
    var c := WalkFrom(HeadersAnywhere, orig, Start, a);
    assert ([h] + b)[1..] == b;
  }

  // Line counts

  /** Lines the server's walker reads as removals or additions. */
  function Removals(diff: seq<string>): nat {
    if |diff| == 0 then 0
    else (if Classify(diff[0], true).Removal? then 1 else 0) + Removals(diff[1..])
  }

  function Additions(diff: seq<string>): nat {
    if |diff| == 0 then 0
    else (if Classify(diff[0], true).Addition? then 1 else 0) + Additions(diff[1..])
  }

  /** Removals that consumed an original line: a removal past the end of the
      original moves nothing. */
  function ConsumedRemovals(orig: seq<string>, c: Cursor, diff: seq<string>): nat
    requires c.next <= |orig|
    decreases |diff|
  {
    if |diff| == 0 then 0
    else
      (if Classify(diff[0], true).Removal? && c.next < |orig| then 1 else 0)
      + ConsumedRemovals(orig, Step(HeadersAnywhere, orig, c, diff[0]), diff[1..])
  }

  /** One line changes the balance of produced over passed lines by one for an
      addition, minus one for a removal that consumed a line, and not
      otherwise. */
  lemma StepBalance(orig: seq<string>, c: Cursor, line: string)
    requires c.next <= |orig|
    ensures var r := Step(HeadersAnywhere, orig, c, line);
      var k := Classify(line, true);
      |r.out| - r.next
        == |c.out| - c.next + (if k.Addition? then 1 else 0) - (if k.Removal? && c.next < |orig| then 1 else 0)
  {
    var k := Classify(line, true);
    if k.HunkLine? {
      var h := Cursor(c.out, c.next, true);
      if k.fields.Some? && Atoi(k.fields.value.oldStart).Some? {
        var r := CopyUpTo(orig, h, Atoi(k.fields.value.oldStart).value - 1);
        assert |r.out| == |c.out| + (r.next - c.next);
      }
    }
  }

  lemma {:induction false} WalkBalance(orig: seq<string>, c: Cursor, diff: seq<string>)
    requires c.next <= |orig|
    ensures var r := WalkFrom(HeadersAnywhere, orig, c, diff);
      |r.out| - r.next == |c.out| - c.next + Additions(diff) - ConsumedRemovals(orig, c, diff)
    ensures ConsumedRemovals(orig, c, diff) <= Removals(diff)
    decreases |diff|
  {
    if |diff| > 0 {
      StepBalance(orig, c, diff[0]);
      WalkBalance(orig, Step(HeadersAnywhere, orig, c, diff[0]), diff[1..]);
    }
  }

  /** The result has exactly one line more than the original per added line
      and one line fewer per removed line that met an original line; so at
      most one fewer per removed line. */
  lemma ApplyLinesLength(orig: seq<string>, diff: seq<string>)
    ensures |ApplyLines(HeadersAnywhere, orig, diff)| == |orig| + Additions(diff) - ConsumedRemovals(orig, Start, diff)
    ensures |orig| - Removals(diff) <= |ApplyLines(HeadersAnywhere, orig, diff)| <= |orig| + Additions(diff)
  {
    WalkBalance(orig, Start, diff);
  }

  // Where each result line comes from

  /** A result line is either the original line at `index` or an added line. */
  datatype Source = Original(index: nat) | Added

  /** The original lines `a` up to `b`, as sources. */
  function Copied(a: nat, b: nat): (r: seq<Source>)
    requires a <= b
    ensures |r| == b - a
    ensures forall k :: 0 <= k < |r| ==> r[k] == Original(a + k)
  {
    seq(b - a, k requires 0 <= k < b - a => Original(a + k))
  }

  /** The sources of the lines one diff line appends. */
  function ActSources(orig: seq<string>, c: Cursor, k: LineKind): seq<Source>
    requires c.next <= |orig|
  {
    if k.Addition? then [Added]
    else if k.Removal? then []
    else Copied(c.next, Act(orig, c, k).next)
  }

  /** The sources of the lines the walk appends, in order. */
  function Sources(rule: HeaderRule, orig: seq<string>, c: Cursor, diff: seq<string>): seq<Source>
    requires c.next <= |orig|
    decreases |diff|
  {
    if |diff| == 0 then []
    else
      ActSources(orig, c, Classify(diff[0], HeadersAllowed(rule, c)))
      + Sources(rule, orig, Step(rule, orig, c, diff[0]), diff[1..])
  }

  /** The sources of the whole result: the walk's, then the rest of the
      original. */
  function ResultSources(rule: HeaderRule, orig: seq<string>, diff: seq<string>): seq<Source> {
    var c := WalkFrom(rule, orig, Start, diff);
    Sources(rule, orig, Start, diff) + Copied(c.next, |orig|)
  }

  /** `src` names a source for each line of `out`: every line taken from the
      original is the original line at its index, which lies in `lo..hi`, and
      the indices increase along `out`. */
  predicate Traced(orig: seq<string>, lo: nat, hi: nat, out: seq<string>, src: seq<Source>) {
    && |src| == |out|
    && (forall i :: 0 <= i < |src| && src[i].Original? ==>
          lo <= src[i].index < hi && src[i].index < |orig| && out[i] == orig[src[i].index])
    && (forall i, j :: 0 <= i < j < |src| && src[i].Original? && src[j].Original? ==>
          src[i].index < src[j].index)
  }

  lemma TracedAppend(orig: seq<string>, lo: nat, mid: nat, hi: nat,
                     o1: seq<string>, s1: seq<Source>, o2: seq<string>, s2: seq<Source>)
    requires lo <= mid <= hi
    requires Traced(orig, lo, mid, o1, s1) && Traced(orig, mid, hi, o2, s2)
    ensures Traced(orig, lo, hi, o1 + o2, s1 + s2)
  {
    var o, s := o1 + o2, s1 + s2;
    forall i | 0 <= i < |s| && s[i].Original?
      ensures lo <= s[i].index < hi && s[i].index < |orig| && o[i] == orig[s[i].index]
    {
      if i >= |s1| {
        assert s[i] == s2[i - |s1|] && o[i] == o2[i - |s1|];
      }
    }
    forall i, j | 0 <= i < j < |s| && s[i].Original? && s[j].Original?
      ensures s[i].index < s[j].index
    {
      if j < |s1| {
      } else if i < |s1| {
        assert s[j] == s2[j - |s1|];
      } else {
        assert s[i] == s2[i - |s1|] && s[j] == s2[j - |s1|];
      }
    }
  }

  /** One diff line only appends, and what it appends is traced to the
      original lines it passed, or is the one added line. */
  lemma ActTraced(orig: seq<string>, c: Cursor, k: LineKind)
    requires c.next <= |orig|
    ensures var r := Act(orig, c, k);
      && |c.out| <= |r.out| && r.out[..|c.out|] == c.out
      && Traced(orig, c.next, r.next, r.out[|c.out|..], ActSources(orig, c, k))
  {
    var r := Act(orig, c, k);
    match k
    case HunkLine(fields) =>
      assert r.out == c.out + orig[c.next..r.next];
      assert r.out[|c.out|..] == orig[c.next..r.next];
    case Context(_) =>
      if c.next < |orig| {
        assert r.out[|c.out|..] == [orig[c.next]];
      }
    case Addition(text) =>
      assert r.out[|c.out|..] == [text];
    case _ =>
  }

  /** Walking `diff` from `c` only appends to `c.out`, and what it appends
      is traced to the original lines it passed. */
  predicate WalkIsTraced(rule: HeaderRule, orig: seq<string>, c: Cursor, diff: seq<string>)
    requires c.next <= |orig|
  {
    var r := WalkFrom(rule, orig, c, diff);
    && |c.out| <= |r.out| && r.out[..|c.out|] == c.out
    && Traced(orig, c.next, r.next, r.out[|c.out|..], Sources(rule, orig, c, diff))
  }

  /** Two traced extensions of the output, one after the other, are one
      traced extension. */
  lemma TracedCompose(orig: seq<string>, c: Cursor, c1: Cursor, r: Cursor, s1: seq<Source>, s2: seq<Source>)
    requires c.next <= c1.next <= r.next
    requires |c.out| <= |c1.out| && c1.out[..|c.out|] == c.out
    requires Traced(orig, c.next, c1.next, c1.out[|c.out|..], s1)
    requires |c1.out| <= |r.out| && r.out[..|c1.out|] == c1.out
    requires Traced(orig, c1.next, r.next, r.out[|c1.out|..], s2)
    ensures |c.out| <= |r.out| && r.out[..|c.out|] == c.out
    ensures Traced(orig, c.next, r.next, r.out[|c.out|..], s1 + s2)
  {
    assert r.out[..|c.out|] == c1.out[..|c.out|];
    assert r.out[|c.out|..] == c1.out[|c.out|..] + r.out[|c1.out|..];
    TracedAppend(orig, c.next, c1.next, r.next, c1.out[|c.out|..], s1, r.out[|c1.out|..], s2);
  }

  /** The first step, then the rest of the walk. */
  lemma TracedStep(rule: HeaderRule, orig: seq<string>, c: Cursor, diff: seq<string>)
    requires |diff| > 0 && c.next <= |orig|
    requires WalkIsTraced(rule, orig, Step(rule, orig, c, diff[0]), diff[1..])
    ensures WalkIsTraced(rule, orig, c, diff)
  {
    ActTraced(orig, c, Classify(diff[0], HeadersAllowed(rule, c)));
    TracedCompose(orig, c, Step(rule, orig, c, diff[0]), WalkFrom(rule, orig, Step(rule, orig, c, diff[0]), diff[1..]),
      ActSources(orig, c, Classify(diff[0], HeadersAllowed(rule, c))), Sources(rule, orig, Step(rule, orig, c, diff[0]), diff[1..]));
  }

  lemma {:induction false} WalkTraced(rule: HeaderRule, orig: seq<string>, c: Cursor, diff: seq<string>)
    requires c.next <= |orig|
    ensures WalkIsTraced(rule, orig, c, diff)
    decreases |diff|
  {
    if |diff| > 0 {
      WalkTraced(rule, orig, Step(rule, orig, c, diff[0]), diff[1..]);
      TracedStep(rule, orig, c, diff);
    } else {
      assert c.out[|c.out|..] == [];
    }
  }

  /** The applier keeps the original's order: every result line that is not
      an added line is an original line, and these come in the original's
      order, each original line at most once. */
  lemma ApplyLinesOrder(rule: HeaderRule, orig: seq<string>, diff: seq<string>)
    ensures Traced(orig, 0, |orig|, ApplyLines(rule, orig, diff), ResultSources(rule, orig, diff))
  {
    var c := WalkFrom(rule, orig, Start, diff);
    WalkTraced(rule, orig, Start, diff);
    assert c.out[0..] == c.out;
    var tail := Copied(c.next, |orig|);
    assert Traced(orig, c.next, |orig|, orig[c.next..], tail);
    TracedAppend(orig, 0, c.next, |orig|, c.out, Sources(rule, orig, Start, diff), orig[c.next..], tail);
  }

  function AddedCount(src: seq<Source>): nat {
    if |src| == 0 then 0 else (if src[0].Added? then 1 else 0) + AddedCount(src[1..])
  }

  lemma {:induction false} AddedCountAppend(a: seq<Source>, b: seq<Source>)
    ensures AddedCount(a + b) == AddedCount(a) + AddedCount(b)
    decreases |a|
  {
    if |a| == 0 {
      assert a + b == b;
    } else {
      assert (a + b)[1..] == a[1..] + b;
      AddedCountAppend(a[1..], b);
    }
  }

  lemma {:induction false} CopiedNoneAdded(a: nat, b: nat)
    requires a <= b
    ensures AddedCount(Copied(a, b)) == 0
    decreases b - a
  {
    if a < b {
      assert Copied(a, b)[1..] == Copied(a + 1, b);
      CopiedNoneAdded(a + 1, b);
    }
  }

  lemma {:induction false} SourcesAdded(orig: seq<string>, c: Cursor, diff: seq<string>)
    requires c.next <= |orig|
    ensures AddedCount(Sources(HeadersAnywhere, orig, c, diff)) == Additions(diff)
    decreases |diff|
  {
    if |diff| > 0 {
      var k := Classify(diff[0], true);
      var c1 := Step(HeadersAnywhere, orig, c, diff[0]);
      SourcesAdded(orig, c1, diff[1..]);
      AddedCountAppend(ActSources(orig, c, k), Sources(HeadersAnywhere, orig, c1, diff[1..]));
      if !k.Addition? && !k.Removal? {
        CopiedNoneAdded(c.next, c1.next);
      }
    }
  }

  /** The result lines the server's applier marks as added are exactly as
      many as the diff's added lines; the others are original lines, one per
      original line a removal did not consume. */
  lemma ResultSourcesCount(orig: seq<string>, diff: seq<string>)
    ensures AddedCount(ResultSources(HeadersAnywhere, orig, diff)) == Additions(diff)
    ensures |ResultSources(HeadersAnywhere, orig, diff)| - Additions(diff) == |orig| - ConsumedRemovals(orig, Start, diff)
  {
    var c := WalkFrom(HeadersAnywhere, orig, Start, diff);
    SourcesAdded(orig, Start, diff);
    CopiedNoneAdded(c.next, |orig|);
    AddedCountAppend(Sources(HeadersAnywhere, orig, Start, diff), Copied(c.next, |orig|));
    ApplyLinesOrder(HeadersAnywhere, orig, diff);
    ApplyLinesLength(orig, diff);
  }
}
