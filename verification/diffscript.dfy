/** Edit scripts between an old and a new list of lines, rendered as the
    unified diffs php-cs-fixer prints with `--diff`: `--- Original`,
    `+++ New`, then hunks. The simplest shape is one `@@ -1,m +1,n @@` hunk
    covering the whole file; the general one is a sequence of hunks, each
    after a gap of unchanged lines the diff leaves out, with headers that
    number both sides from line 1. This is the independent reference against
    which the diff applier is checked: applying the rendered diff to the old
    lines must give the new lines. */
module DiffScript {
  import opened Wrappers
  import opened Text
  import opened HunkHeader
  import opened DiffLines
  import opened ApplyDiff

  datatype Edit = Keep(line: string) | Delete(line: string) | Insert(line: string)

  /** The old line an edit reads: none for an insertion. */
  function Reads(e: Edit): seq<string> {
    if e.Insert? then [] else [e.line]
  }

  /** The new line an edit writes: none for a deletion. */
  function Writes(e: Edit): seq<string> {
    if e.Delete? then [] else [e.line]
  }

  /** The lines the script reads: kept and deleted ones, in order. */
  function OldSide(es: seq<Edit>): seq<string> {
    if |es| == 0 then [] else Reads(es[0]) + OldSide(es[1..])
  }

  /** The lines the script writes: kept and inserted ones, in order. */
  function NewSide(es: seq<Edit>): seq<string> {
    if |es| == 0 then [] else Writes(es[0]) + NewSide(es[1..])
  }

  function BodyLine(e: Edit): string {
    match e
    case Keep(l) => " " + l
    case Delete(l) => "-" + l
    case Insert(l) => "+" + l
  }

  /** One body line per edit, in order. */
  function Body(es: seq<Edit>): (b: seq<string>)
    ensures |b| == |es|
    ensures forall i :: 0 <= i < |es| ==> b[i] == BodyLine(es[i])
  {
    if |es| == 0 then [] else [BodyLine(es[0])] + Body(es[1..])
  }

  const OldLabel: string := "--- Original"
  const NewLabel: string := "+++ New"

  /** The header of the single hunk: both sides start at line 1. */
  function HunkHeaderLine(oldCount: nat, newCount: nat): string {
    StandardHeader("1", NatToString(oldCount), "1", NatToString(newCount))
  }

  /** The rendered diff, one string per line. */
  function Render(es: seq<Edit>): (d: seq<string>)
    ensures |d| == 3 + |es|
  {
    [OldLabel, NewLabel, HunkHeaderLine(|OldSide(es)|, |NewSide(es)|)] + Body(es)
  }

  /** Swapping deletions and insertions: the script from the new lines back
      to the old ones. */
  function Invert(es: seq<Edit>): (r: seq<Edit>)
    ensures |r| == |es|
  {
    if |es| == 0 then []
    else
      [match es[0] case Keep(l) => Keep(l) case Delete(l) => Insert(l) case Insert(l) => Delete(l)]
      + Invert(es[1..])
  }

  /** No deleted line starts with `--` and no inserted line with `++`: the
      lines the server's applier would take for file headers. */
  predicate HeaderSafe(es: seq<Edit>) {
    forall i :: 0 <= i < |es| ==>
      && (es[i].Delete? ==> !HasPrefix(es[i].line, "--"))
      && (es[i].Insert? ==> !HasPrefix(es[i].line, "++"))
  }

  predicate NoNewlines(es: seq<Edit>) {
    forall i :: 0 <= i < |es| ==> '\n' !in es[i].line
  }

  // ---------------------------------------------------------------------------
  // Round trip

  lemma StepKeep(rule: HeaderRule, orig: seq<string>, c: Cursor, l: string)
    requires c.inHunk && c.next < |orig| && orig[c.next] == l
    ensures Step(rule, orig, c, " " + l) == Cursor(c.out + [l], c.next + 1, true)
  {
    ClassifyContext(l, HeadersAllowed(rule, c));
  }

  lemma StepDelete(rule: HeaderRule, orig: seq<string>, c: Cursor, l: string)
    requires c.inHunk && c.next < |orig|
    requires rule == HeadersAnywhere ==> !HasPrefix(l, "--")
    ensures Step(rule, orig, c, "-" + l) == Cursor(c.out, c.next + 1, true)
  {
    ClassifyRemoval(l, HeadersAllowed(rule, c));
  }

  lemma StepInsert(rule: HeaderRule, orig: seq<string>, c: Cursor, l: string)
    requires c.inHunk && c.next <= |orig|
    requires rule == HeadersAnywhere ==> !HasPrefix(l, "++")
    ensures Step(rule, orig, c, "+" + l) == Cursor(c.out + [l], c.next, true)
  {
    ClassifyAddition(l, HeadersAllowed(rule, c));
  }

  /** One edit, from a cursor inside the hunk whose next original line is
      the edit's line when the edit reads one. */
  lemma StepEdit(rule: HeaderRule, orig: seq<string>, c: Cursor, e: Edit)
    requires c.inHunk && c.next + |Reads(e)| <= |orig|
    requires orig[c.next..c.next + |Reads(e)|] == Reads(e)
    requires rule == HeadersAnywhere ==> (e.Delete? ==> !HasPrefix(e.line, "--")) && (e.Insert? ==> !HasPrefix(e.line, "++"))
    ensures Step(rule, orig, c, BodyLine(e)) == Cursor(c.out + Writes(e), c.next + |Reads(e)|, true)
  {
    if !e.Insert? {
      assert orig[c.next] == orig[c.next..c.next + 1][0];
    }
    match e
    case Keep(l) => StepKeep(rule, orig, c, l);
    case Delete(l) =>
      StepDelete(rule, orig, c, l);
      assert c.out + [] == c.out;
    case Insert(l) => StepInsert(rule, orig, c, l);
  }

  lemma SidesUnfold(es: seq<Edit>)
    requires |es| > 0
    ensures OldSide(es) == Reads(es[0]) + OldSide(es[1..])
    ensures NewSide(es) == Writes(es[0]) + NewSide(es[1..])
  {
  }

  /** Reading `r` off the front of `r + rest`, after `pre`. */
  lemma Regroup(orig: seq<string>, pre: seq<string>, r: seq<string>, rest: seq<string>)
    requires orig == pre + (r + rest)
    ensures orig == (pre + r) + rest
    ensures |pre| + |r| <= |orig| && orig[|pre|..|pre| + |r|] == r
  {
    assert orig[|pre|..|pre| + |r|] == (pre + r + rest)[|pre|..|pre| + |r|];
  }

  lemma Assoc(a: seq<string>, b: seq<string>, c: seq<string>)
    ensures a + (b + c) == (a + b) + c
  {
  }

  lemma HeaderSafeHead(es: seq<Edit>)
    requires |es| > 0 && HeaderSafe(es)
    ensures es[0].Delete? ==> !HasPrefix(es[0].line, "--")
    ensures es[0].Insert? ==> !HasPrefix(es[0].line, "++")
  {
  }

  /** The first body line, from a cursor whose next original lines are the
      ones the edit reads. */
  lemma WalkBodyCons(rule: HeaderRule, orig: seq<string>, c: Cursor, c': Cursor, es: seq<Edit>)
    requires |es| > 0 && c.inHunk
    requires c.next + |Reads(es[0])| <= |orig|
    requires orig[c.next..c.next + |Reads(es[0])|] == Reads(es[0])
    requires rule == HeadersAnywhere ==> (es[0].Delete? ==> !HasPrefix(es[0].line, "--")) && (es[0].Insert? ==> !HasPrefix(es[0].line, "++"))
    requires c' == Cursor(c.out + Writes(es[0]), c.next + |Reads(es[0])|, true)
    ensures WalkFrom(rule, orig, c, Body(es)) == WalkFrom(rule, orig, c', Body(es[1..]))
  {
    BodyCons(es);
    StepEdit(rule, orig, c, es[0]);
    WalkFromStepped(rule, orig, c, c', Body(es));
  }

  lemma BodyCons(es: seq<Edit>)
    requires |es| > 0
    ensures Body(es) == [BodyLine(es[0])] + Body(es[1..])
  {
  }

  /** A walk over one line and then `rest` is that line's step, then the
      walk of `rest`. */
  lemma WalkFirst(rule: HeaderRule, orig: seq<string>, c: Cursor, c': Cursor, line: string, rest: seq<string>)
    requires c.next <= |orig| && Step(rule, orig, c, line) == c'
    ensures WalkFrom(rule, orig, c, [line] + rest) == WalkFrom(rule, orig, c', rest)
  {
    assert ([line] + rest)[1..] == rest;
  }

  /** The walk is the first step, then the walk of the rest. */
  lemma WalkFromStepped(rule: HeaderRule, orig: seq<string>, c: Cursor, c': Cursor, d: seq<string>)
    requires |d| > 0 && c.next <= |orig| && Step(rule, orig, c, d[0]) == c'
    ensures WalkFrom(rule, orig, c, d) == WalkFrom(rule, orig, c', d[1..])
  {
  }

  /** `s` sits in `orig` from line `i` on. */
  predicate At(orig: seq<string>, i: nat, s: seq<string>) {
    i + |s| <= |orig| && orig[i..i + |s|] == s
  }

  /** What sits at `i` splits into its two parts. */
  lemma AtSplit(orig: seq<string>, i: nat, a: seq<string>, b: seq<string>)
    requires At(orig, i, a + b)
    ensures At(orig, i, a) && At(orig, i + |a|, b)
  {
    assert orig[i..i + |a|] == orig[i..i + |a + b|][..|a|];
    assert orig[i + |a|..i + |a| + |b|] == orig[i..i + |a + b|][|a|..];
  }

  /** After the first edit, the rest of the old side sits where the cursor
      has moved to, and the rest of the script is still safe. */
  lemma BodyRestAt(rule: HeaderRule, orig: seq<string>, c: Cursor, es: seq<Edit>)
    requires |es| > 0 && At(orig, c.next, OldSide(es))
    requires rule == HeadersAnywhere ==> HeaderSafe(es)
    ensures At(orig, c.next + |Reads(es[0])|, OldSide(es[1..]))
    ensures rule == HeadersAnywhere ==> HeaderSafe(es[1..])
  {
    SidesUnfold(es);
    AtSplit(orig, c.next, Reads(es[0]), OldSide(es[1..]));
    if rule == HeadersAnywhere {
      HeaderSafeTail(es);
    }
  }

  /** The first edit, then the rest of the body: if the rest appends its new
      side and passes its old side, so does the whole body. */
  lemma BodyAdvance(rule: HeaderRule, orig: seq<string>, c: Cursor, c': Cursor, es: seq<Edit>)
    requires |es| > 0 && c.inHunk && At(orig, c.next, OldSide(es))
    requires rule == HeadersAnywhere ==> HeaderSafe(es)
    requires c' == Cursor(c.out + Writes(es[0]), c.next + |Reads(es[0])|, true)
    requires WalkFrom(rule, orig, c', Body(es[1..])) == Cursor(c'.out + NewSide(es[1..]), c'.next + |OldSide(es[1..])|, true)
    ensures WalkFrom(rule, orig, c, Body(es)) == Cursor(c.out + NewSide(es), c.next + |OldSide(es)|, true)
  {
    SidesUnfold(es);
    AtSplit(orig, c.next, Reads(es[0]), OldSide(es[1..]));
    Assoc(c.out, Writes(es[0]), NewSide(es[1..]));
    if rule == HeadersAnywhere {
      HeaderSafeHead(es);
    }
    WalkBodyCons(rule, orig, c, c', es);
  }

  /** The body walked from a cursor inside the hunk whose next original
      lines are the old side appends the new side and passes the old side. */
  lemma {:induction false} WalkBodyAt(rule: HeaderRule, orig: seq<string>, c: Cursor, es: seq<Edit>)
    requires c.inHunk && At(orig, c.next, OldSide(es))
    requires rule == HeadersAnywhere ==> HeaderSafe(es)
    ensures WalkFrom(rule, orig, c, Body(es)) == Cursor(c.out + NewSide(es), c.next + |OldSide(es)|, true)
    decreases |es|
  {
    if |es| == 0 {
      assert Body(es) == [] && NewSide(es) == [] && OldSide(es) == [];
      assert c.out + [] == c.out;
    } else {
      BodyRestAt(rule, orig, c, es);
      WalkBodyAt(rule, orig, Cursor(c.out + Writes(es[0]), c.next + |Reads(es[0])|, true), es[1..]);
      BodyAdvance(rule, orig, c, Cursor(c.out + Writes(es[0]), c.next + |Reads(es[0])|, true), es);
    }
  }

  /** The body walked on an original that ends with the old side appends the
      new side and ends at the end of the original. */
  lemma WalkBody(rule: HeaderRule, orig: seq<string>, c: Cursor, pre: seq<string>, es: seq<Edit>)
    requires c.inHunk && c.next == |pre| && orig == pre + OldSide(es)
    requires rule == HeadersAnywhere ==> HeaderSafe(es)
    ensures WalkFrom(rule, orig, c, Body(es)) == Cursor(c.out + NewSide(es), |orig|, true)
  {
    assert orig[|pre|..|pre| + |OldSide(es)|] == OldSide(es);
    WalkBodyAt(rule, orig, c, es);
  }

  /** The hunk header the renderer prints is read with old-side start 1. */
  lemma ClassifyHunkHeaderLine(m: nat, n: nat, allowed: bool)
    ensures Classify(HunkHeaderLine(m, n), allowed)
      == HunkLine(Some(HunkFields("1", NatToString(m), "1", NatToString(n))))
  {
    var h := HunkHeaderLine(m, n);
    StandardHeaderMatches("1", NatToString(m), "1", NatToString(n));
    PrefixHead(h, "---");
    PrefixHead(h, "+++");
    assert h[..2] == "@@";
  }

  /** ... so it copies nothing and enters the hunk. */
  lemma HeaderStep(rule: HeaderRule, orig: seq<string>, m: nat, n: nat)
    ensures Step(rule, orig, Start, HunkHeaderLine(m, n)) == Cursor([], 0, true)
  {
    ClassifyHunkHeaderLine(m, n, HeadersAllowed(rule, Start));
    assert DigitsValue("1") == 1;
  }

  lemma HeaderSafeTail(es: seq<Edit>)
    requires |es| > 0 && HeaderSafe(es)
    ensures HeaderSafe(es[1..])
  {
    assert forall i :: 0 <= i < |es| - 1 ==> es[1..][i] == es[i + 1];
  }

  /** Before the hunk, the two file labels change nothing. */
  lemma WalkLabels(rule: HeaderRule, orig: seq<string>, rest: seq<string>)
    ensures WalkFrom(rule, orig, Start, [OldLabel, NewLabel] + rest) == WalkFrom(rule, orig, Start, rest)
  {
    assert OldLabel[..3] == "---" && NewLabel[..3] == "+++";
    var d := [OldLabel, NewLabel] + rest;
    assert d[0] == OldLabel && d[1..][0] == NewLabel && d[1..][1..] == rest;
  }

  /** Walking a rendered diff is walking its body from inside the hunk. */
  lemma RenderWalk(rule: HeaderRule, orig: seq<string>, es: seq<Edit>)
    ensures WalkFrom(rule, orig, Start, Render(es)) == WalkFrom(rule, orig, Cursor([], 0, true), Body(es))
  {
    var hdr := HunkHeaderLine(|OldSide(es)|, |NewSide(es)|);
    assert Render(es) == [OldLabel, NewLabel] + ([hdr] + Body(es));
    WalkLabels(rule, orig, [hdr] + Body(es));
    HeaderStep(rule, orig, |OldSide(es)|, |NewSide(es)|);
    assert ([hdr] + Body(es))[0] == hdr && ([hdr] + Body(es))[1..] == Body(es);
  }

  /** Applying the rendered diff to the old side gives the new side, for the
      corrected applier always and for the server's applier whenever no
      deleted line starts with `--` and no inserted line with `++`. */
  lemma ApplyRendered(rule: HeaderRule, es: seq<Edit>)
    requires rule == HeadersAnywhere ==> HeaderSafe(es)
    ensures ApplyLines(rule, OldSide(es), Render(es)) == NewSide(es)
  {
    var orig := OldSide(es);
    RenderWalk(rule, orig, es);
    assert orig == [] + OldSide(es);
    WalkBody(rule, orig, Cursor([], 0, true), [], es);
    assert [] + NewSide(es) == NewSide(es);
    ApplyAtEnd(rule, orig, Render(es), NewSide(es));
  }

  lemma OldSideInvert(es: seq<Edit>)
    ensures OldSide(Invert(es)) == NewSide(es) && NewSide(Invert(es)) == OldSide(es)
  {
    if |es| > 0 {
      OldSideInvert(es[1..]);
      assert Invert(es)[1..] == Invert(es[1..]);
    }
  }

  /** The inverted script's diff takes the new side back to the old side:
      always with the corrected applier, and with the server's applier when
      the inverted script is header-safe (no inserted line of `es` starts with
      `--` and no deleted line with `++`). */
  lemma ApplyRenderedInverse(es: seq<Edit>)
    ensures ApplyLines(HeadersBeforeFirstHunk, NewSide(es), Render(Invert(es))) == OldSide(es)
    ensures HeaderSafe(Invert(es)) ==>
              ApplyLines(HeadersAnywhere, NewSide(es), Render(Invert(es))) == OldSide(es)
  {
    OldSideInvert(es);
    ApplyRendered(HeadersBeforeFirstHunk, Invert(es));
    if HeaderSafe(Invert(es)) {
      ApplyRendered(HeadersAnywhere, Invert(es));
    }
  }

  // ---------------------------------------------------------------------------
  // Diffs with several hunks

  /** A hunk of a diff with several hunks: the unchanged lines the diff leaves
      out before it, then its edits, whose `Keep`s are its context lines. */
  datatype Hunk = Hunk(gap: seq<string>, edits: seq<Edit>)

  /** The header line `@@ -s,c +s',c' @@` with the four numbers of `f`. */
  function PrintedHeader(f: HunkFields): string {
    StandardHeader(f.oldStart, f.oldCount, f.newStart, f.newCount)
  }

  /** Numbers the header pattern captures back: the starts are non-empty. */
  predicate Printable(f: HunkFields) {
    |f.oldStart| > 0 && AllDigits(f.oldStart) && AllDigits(f.oldCount)
    && |f.newStart| > 0 && AllDigits(f.newStart) && AllDigits(f.newCount)
  }

  /** A printed header is read back as a hunk header carrying its numbers. */
  lemma ClassifyPrintedHeader(f: HunkFields, allowed: bool)
    requires Printable(f)
    ensures Classify(PrintedHeader(f), allowed) == HunkLine(Some(f))
  {
    var h := PrintedHeader(f);
    StandardHeaderMatches(f.oldStart, f.oldCount, f.newStart, f.newCount);
    PrefixHead(h, "---");
    PrefixHead(h, "+++");
    assert h[..2] == "@@";
  }

  /** The line is read as a hunk header whose old side starts on `start`,
      with or without file headers allowed. */
  predicate StartsOn(line: string, start: nat) {
    && Classify(line, true).HunkLine? && Classify(line, true).fields.Some?
    && Atoi(Classify(line, true).fields.value.oldStart) == Some(start)
    && Classify(line, false).HunkLine? && Classify(line, false).fields.Some?
    && Atoi(Classify(line, false).fields.value.oldStart) == Some(start)
  }

  lemma PrintedHeaderStarts(f: HunkFields, start: nat)
    requires Printable(f) && Atoi(f.oldStart) == Some(start)
    ensures StartsOn(PrintedHeader(f), start)
  {
    ClassifyPrintedHeader(f, true);
    ClassifyPrintedHeader(f, false);
  }

  /** The old lines hunks `i..` cover: each gap, then each hunk's old side. */
  function OldFrom(hs: seq<Hunk>, i: nat): seq<string>
    requires i <= |hs|
    decreases |hs| - i
  {
    if i == |hs| then [] else hs[i].gap + (OldSide(hs[i].edits) + OldFrom(hs, i + 1))
  }

  /** The new lines hunks `i..` cover: each gap, then each hunk's new side. */
  function NewFrom(hs: seq<Hunk>, i: nat): seq<string>
    requires i <= |hs|
    decreases |hs| - i
  {
    if i == |hs| then [] else hs[i].gap + (NewSide(hs[i].edits) + NewFrom(hs, i + 1))
  }

  /** Hunks `i..` as diff lines: each header line `hdrs[j]`, then its body. */
  function RenderFrom(hs: seq<Hunk>, hdrs: seq<string>, i: nat): seq<string>
    requires |hdrs| == |hs| && i <= |hs|
    decreases |hs| - i
  {
    if i == |hs| then [] else ([hdrs[i]] + Body(hs[i].edits)) + RenderFrom(hs, hdrs, i + 1)
  }

  // The inductive proof below keeps `At`, `StartsOn`, the walk and its own
  // invariant behind a counter `k >= 3`: each `...K` predicate is the plain
  // one after `k` unfoldings, so the solver does not expand it unless a
  // `...KIs` lemma is called, and each step of the proof sees only the
  // facts it needs.

  /** `At`, behind `k` unfoldings. */
  predicate AtK(orig: seq<string>, i: nat, s: seq<string>, k: nat)
    decreases k
  {
    if k == 0 then At(orig, i, s) else AtK(orig, i, s, k - 1)
  }

  lemma {:induction false} AtKIs(orig: seq<string>, i: nat, s: seq<string>, k: nat)
    ensures AtK(orig, i, s, k) == At(orig, i, s)
    decreases k
  {
    if k > 0 {
      AtKIs(orig, i, s, k - 1);
    }
  }

  /** `StartsOn`, behind `k` unfoldings. */
  predicate StartsOnK(line: string, start: nat, k: nat)
    decreases k
  {
    if k == 0 then StartsOn(line, start) else StartsOnK(line, start, k - 1)
  }

  lemma {:induction false} StartsOnKIs(line: string, start: nat, k: nat)
    ensures StartsOnK(line, start, k) == StartsOn(line, start)
    decreases k
  {
    if k > 0 {
      StartsOnKIs(line, start, k - 1);
    }
  }

  /** No hunk deletes a line starting with `--` or inserts one starting
      with `++`. */
  predicate HunksHeaderSafe(hs: seq<Hunk>) {
    forall i :: 0 <= i < |hs| ==> HeaderSafe(hs[i].edits)
  }

  /** How many old lines come before hunk `i`'s gap. */
  function OldBefore(hs: seq<Hunk>, i: nat): nat
    requires i <= |hs|
  {
    if i == 0 then 0 else OldBefore(hs, i - 1) + |hs[i - 1].gap| + |OldSide(hs[i - 1].edits)|
  }

  lemma OldBeforeNext(hs: seq<Hunk>, i: nat)
    requires i < |hs|
    ensures OldBefore(hs, i + 1) == OldBefore(hs, i) + |hs[i].gap| + |OldSide(hs[i].edits)|
  {
  }

  /** Hunk `j` lies in `orig` after the hunks before it, and its header names
      the line its old side starts on. */
  predicate HunkLaid(rule: HeaderRule, orig: seq<string>, hdrs: seq<string>, hs: seq<Hunk>, j: nat, k: nat)
    requires |hdrs| == |hs| && j < |hs|
  {
    && (rule == HeadersAnywhere ==> HeaderSafe(hs[j].edits))
    && OldBefore(hs, j) + |hs[j].gap| + |OldSide(hs[j].edits)| <= |orig|
    && AtK(orig, OldBefore(hs, j), hs[j].gap, k)
    && AtK(orig, OldBefore(hs, j) + |hs[j].gap|, OldSide(hs[j].edits), k)
    && StartsOnK(hdrs[j], OldBefore(hs, j) + |hs[j].gap| + 1, k)
  }

  /** Every hunk lies in `orig` where its header says. */
  predicate Laid(rule: HeaderRule, orig: seq<string>, hdrs: seq<string>, hs: seq<Hunk>, k: nat) {
    |hdrs| == |hs| && forall j :: 0 <= j < |hs| ==> HunkLaid(rule, orig, hdrs, hs, j, k)
  }

  /** `Laid`, behind `b` unfoldings. */
  predicate LaidK(rule: HeaderRule, orig: seq<string>, hdrs: seq<string>, hs: seq<Hunk>, k: nat, b: nat)
    decreases b
  {
    if b == 0 then Laid(rule, orig, hdrs, hs, k) else LaidK(rule, orig, hdrs, hs, k, b - 1)
  }

  lemma {:induction false} LaidKIs(rule: HeaderRule, orig: seq<string>, hdrs: seq<string>, hs: seq<Hunk>, k: nat, b: nat)
    ensures LaidK(rule, orig, hdrs, hs, k, b) == Laid(rule, orig, hdrs, hs, k)
    decreases b
  {
    if b > 0 {
      LaidKIs(rule, orig, hdrs, hs, k, b - 1);
    }
  }

  /** `WalkFrom`, behind `k` unfoldings. */
  ghost function WalkK(rule: HeaderRule, orig: seq<string>, c: Cursor, diff: seq<string>, k: nat): Cursor
    requires c.next <= |orig|
    decreases k
  {
    if k == 0 then WalkFrom(rule, orig, c, diff) else WalkK(rule, orig, c, diff, k - 1)
  }

  lemma {:induction false} WalkKIs(rule: HeaderRule, orig: seq<string>, c: Cursor, diff: seq<string>, k: nat)
    requires c.next <= |orig|
    ensures WalkK(rule, orig, c, diff, k) == WalkFrom(rule, orig, c, diff)
    decreases k
  {
    if k > 0 {
      WalkKIs(rule, orig, c, diff, k - 1);
    }
  }

  lemma WalkKEmpty(rule: HeaderRule, orig: seq<string>, c: Cursor, k: nat)
    requires c.next <= |orig|
    ensures WalkK(rule, orig, c, [], k) == c
  {
    WalkKIs(rule, orig, c, [], k);
  }

  lemma WalkKSplit(rule: HeaderRule, orig: seq<string>, c: Cursor, a: seq<string>, b: seq<string>, mid: Cursor, k: nat)
    requires c.next <= |orig| && mid.next <= |orig| && WalkK(rule, orig, c, a, k) == mid
    ensures WalkK(rule, orig, c, a + b, k) == WalkK(rule, orig, mid, b, k)
  {
    WalkKIs(rule, orig, c, a, k);
    WalkKIs(rule, orig, c, a + b, k);
    WalkKIs(rule, orig, mid, b, k);
    WalkFromAppend(rule, orig, c, a, b);
  }

  /** A header whose old start parses to `stop + 1` copies up to `stop` and
      enters the hunk (the branch of `applyUnifiedDiff` that copies
      unchanged lines before a hunk). */
  lemma ActHunkStop(orig: seq<string>, out: seq<string>, pos: nat, inHunk: bool, kind: LineKind, stop: nat)
    requires pos <= |orig| && kind.HunkLine? && kind.fields.Some? && Atoi(kind.fields.value.oldStart) == Some(stop + 1)
    ensures Act(orig, Cursor(out, pos, inHunk), kind) == CopyUpTo(orig, Cursor(out, pos, true), stop)
  {
  }

  /** A line that starts a hunk on `start` does so whether or not file
      headers are allowed at this point. */
  lemma ClassifyStart(line: string, allowed: bool, start: nat)
    requires StartsOn(line, start)
    ensures Classify(line, allowed).HunkLine? && Classify(line, allowed).fields.Some?
    ensures Atoi(Classify(line, allowed).fields.value.oldStart) == Some(start)
  {
    if allowed {
      assert Classify(line, allowed) == Classify(line, true);
    } else {
      assert Classify(line, allowed) == Classify(line, false);
    }
  }

  /** A header line that names line `stop + 1` copies up to `stop`. */
  lemma StepHeader(rule: HeaderRule, orig: seq<string>, out: seq<string>, pos: nat, inHunk: bool, line: string, stop: nat)
    requires pos <= |orig| && StartsOn(line, stop + 1)
    ensures Step(rule, orig, Cursor(out, pos, inHunk), line) == CopyUpTo(orig, Cursor(out, pos, true), stop)
  {
    var kind := Classify(line, HeadersAllowed(rule, Cursor(out, pos, inHunk)));
    ClassifyStart(line, HeadersAllowed(rule, Cursor(out, pos, inHunk)), stop + 1);
    ActHunkStop(orig, out, pos, inHunk, kind, stop);
  }

  /** Copying up to the end of the gap appends the gap. */
  lemma CopyGap(orig: seq<string>, out: seq<string>, pos: nat, gap: seq<string>)
    requires At(orig, pos, gap)
    ensures CopyUpTo(orig, Cursor(out, pos, true), pos + |gap|) == Cursor(out + gap, pos + |gap|, true)
  {
    CopyUpToExact(orig, Cursor(out, pos, true), pos + |gap|);
  }

  /** A header line after the gap copies the gap. */
  lemma HeaderWalkK(rule: HeaderRule, orig: seq<string>, out: seq<string>, pos: nat, inHunk: bool, gap: seq<string>, line: string, rest: seq<string>, k: nat)
    requires pos + |gap| <= |orig| && AtK(orig, pos, gap, k) && StartsOnK(line, pos + |gap| + 1, k)
    ensures WalkK(rule, orig, Cursor(out, pos, inHunk), [line] + rest, k) == WalkK(rule, orig, Cursor(out + gap, pos + |gap|, true), rest, k)
  {
    var c, mid := Cursor(out, pos, inHunk), Cursor(out + gap, pos + |gap|, true);
    AtKIs(orig, pos, gap, k);
    StartsOnKIs(line, pos + |gap| + 1, k);
    StepHeader(rule, orig, out, pos, inHunk, line, pos + |gap|);
    CopyGap(orig, out, pos, gap);
    WalkKIs(rule, orig, c, [line], k);
    assert [line][1..] == [];
    WalkKSplit(rule, orig, c, [line], rest, mid, k);
  }

  /** A hunk body edits the old side into the new side. */
  lemma BodyWalkK(rule: HeaderRule, orig: seq<string>, out: seq<string>, pos: nat, es: seq<Edit>, k: nat)
    requires pos + |OldSide(es)| <= |orig| && AtK(orig, pos, OldSide(es), k)
    requires rule == HeadersAnywhere ==> HeaderSafe(es)
    ensures WalkK(rule, orig, Cursor(out, pos, true), Body(es), k) == Cursor(out + NewSide(es), pos + |OldSide(es)|, true)
  {
    AtKIs(orig, pos, OldSide(es), k);
    WalkBodyAt(rule, orig, Cursor(out, pos, true), es);
    WalkKIs(rule, orig, Cursor(out, pos, true), Body(es), k);
  }

  /** A whole hunk: its header copies the gap, its body edits. */
  lemma WalkOneHunk(rule: HeaderRule, orig: seq<string>, out: seq<string>, pos: nat, inHunk: bool, h: Hunk, line: string, k: nat)
    requires pos + |h.gap| + |OldSide(h.edits)| <= |orig|
    requires AtK(orig, pos, h.gap, k) && AtK(orig, pos + |h.gap|, OldSide(h.edits), k)
    requires StartsOnK(line, pos + |h.gap| + 1, k)
    requires rule == HeadersAnywhere ==> HeaderSafe(h.edits)
    requires k >= 3
    ensures WalkK(rule, orig, Cursor(out, pos, inHunk), [line] + Body(h.edits), k)
      == Cursor((out + h.gap) + NewSide(h.edits), pos + |h.gap| + |OldSide(h.edits)|, true)
  {
    HeaderWalkK(rule, orig, out, pos, inHunk, h.gap, line, Body(h.edits), k);
    BodyWalkK(rule, orig, out + h.gap, pos + |h.gap|, h.edits, k);
  }

  /** Walking hunks `i..` is walking hunks `i+1..` from after hunk `i`. */
  lemma HunkStepFrom(rule: HeaderRule, orig: seq<string>, out: seq<string>, inHunk: bool, hs: seq<Hunk>, hdrs: seq<string>, i: nat, k: nat)
    requires |hdrs| == |hs| && LaidK(rule, orig, hdrs, hs, k, k) && i < |hs| && k >= 3
    ensures OldBefore(hs, i + 1) <= |orig|
    ensures WalkK(rule, orig, Cursor(out, OldBefore(hs, i), inHunk), RenderFrom(hs, hdrs, i), k)
      == WalkK(rule, orig, Cursor((out + hs[i].gap) + NewSide(hs[i].edits), OldBefore(hs, i + 1), true), RenderFrom(hs, hdrs, i + 1), k)
  {
    OldBeforeNext(hs, i);
    LaidKIs(rule, orig, hdrs, hs, k, k);
    assert HunkLaid(rule, orig, hdrs, hs, i, k);
    WalkOneHunk(rule, orig, out, OldBefore(hs, i), inHunk, hs[i], hdrs[i], k);
    WalkKSplit(rule, orig, Cursor(out, OldBefore(hs, i), inHunk), [hdrs[i]] + Body(hs[i].edits), RenderFrom(hs, hdrs, i + 1),
      Cursor((out + hs[i].gap) + NewSide(hs[i].edits), OldBefore(hs, i) + |hs[i].gap| + |OldSide(hs[i].edits)|, true), k);
  }

  lemma Assoc4(a: seq<string>, b: seq<string>, c: seq<string>, d: seq<string>)
    ensures ((a + b) + c) + d == a + (b + (c + d))
  {
  }

  /** One unfolding of `OldFrom` and `NewFrom`. */
  lemma FromCons(hs: seq<Hunk>, i: nat)
    requires i < |hs|
    ensures |OldFrom(hs, i)| == |hs[i].gap| + |OldSide(hs[i].edits)| + |OldFrom(hs, i + 1)|
    ensures NewFrom(hs, i) == hs[i].gap + (NewSide(hs[i].edits) + NewFrom(hs, i + 1))
  {
  }

  /** The hunk after hunk `i` still starts inside `orig`. */
  lemma NextInside(rule: HeaderRule, orig: seq<string>, hs: seq<Hunk>, hdrs: seq<string>, i: nat, k: nat)
    requires |hdrs| == |hs| && LaidK(rule, orig, hdrs, hs, k, k) && i < |hs| && k >= 3
    ensures OldBefore(hs, i + 1) <= |orig|
  {
    OldBeforeNext(hs, i);
    LaidKIs(rule, orig, hdrs, hs, k, k);
    assert HunkLaid(rule, orig, hdrs, hs, i, k);
  }

  /** One hunk further, the output grows by the hunk's gap and new side. */
  lemma OutAdvance(rule: HeaderRule, orig: seq<string>, out: seq<string>, inHunk: bool, hs: seq<Hunk>, hdrs: seq<string>, i: nat, k: nat)
    requires |hdrs| == |hs| && LaidK(rule, orig, hdrs, hs, k, k) && i < |hs| && k >= 3
    requires OldBefore(hs, i + 1) <= |orig|
    requires WalkK(rule, orig, Cursor((out + hs[i].gap) + NewSide(hs[i].edits), OldBefore(hs, i + 1), true), RenderFrom(hs, hdrs, i + 1), k).out
      == ((out + hs[i].gap) + NewSide(hs[i].edits)) + NewFrom(hs, i + 1)
    ensures WalkK(rule, orig, Cursor(out, OldBefore(hs, i), inHunk), RenderFrom(hs, hdrs, i), k).out == out + NewFrom(hs, i)
  {
    HunkStepFrom(rule, orig, out, inHunk, hs, hdrs, i, k);
    FromCons(hs, i);
    Assoc4(out, hs[i].gap, NewSide(hs[i].edits), NewFrom(hs, i + 1));
  }

  /** One hunk further, the position moves past the hunk's gap and old side. */
  lemma NextAdvance(rule: HeaderRule, orig: seq<string>, out: seq<string>, inHunk: bool, hs: seq<Hunk>, hdrs: seq<string>, i: nat, k: nat)
    requires |hdrs| == |hs| && LaidK(rule, orig, hdrs, hs, k, k) && i < |hs| && k >= 3
    requires OldBefore(hs, i + 1) <= |orig|
    requires WalkK(rule, orig, Cursor((out + hs[i].gap) + NewSide(hs[i].edits), OldBefore(hs, i + 1), true), RenderFrom(hs, hdrs, i + 1), k).next
      == OldBefore(hs, i + 1) + |OldFrom(hs, i + 1)|
    ensures WalkK(rule, orig, Cursor(out, OldBefore(hs, i), inHunk), RenderFrom(hs, hdrs, i), k).next == OldBefore(hs, i) + |OldFrom(hs, i)|
  {
    HunkStepFrom(rule, orig, out, inHunk, hs, hdrs, i, k);
    OldBeforeNext(hs, i);
    FromCons(hs, i);
  }

  /** Walking hunks `i..` from where hunk `i`'s gap starts appends their
      new lines, whatever their headers' counts. */
  lemma {:induction false} WalkHunksOut(rule: HeaderRule, orig: seq<string>, out: seq<string>, inHunk: bool, hs: seq<Hunk>, hdrs: seq<string>, i: nat, k: nat)
    requires |hdrs| == |hs| && LaidK(rule, orig, hdrs, hs, k, k) && i <= |hs| && OldBefore(hs, i) <= |orig| && k >= 3
    ensures WalkK(rule, orig, Cursor(out, OldBefore(hs, i), inHunk), RenderFrom(hs, hdrs, i), k).out == out + NewFrom(hs, i)
    decreases |hs| - i
  {
    if i == |hs| {
      WalkKEmpty(rule, orig, Cursor(out, OldBefore(hs, i), inHunk), k);
      assert out + [] == out;
    } else {
      NextInside(rule, orig, hs, hdrs, i, k);
      WalkHunksOut(rule, orig, (out + hs[i].gap) + NewSide(hs[i].edits), true, hs, hdrs, i + 1, k);
      OutAdvance(rule, orig, out, inHunk, hs, hdrs, i, k);
    }
  }

  /** Walking hunks `i..` from where hunk `i`'s gap starts passes exactly
      their old lines. */
  lemma {:induction false} WalkHunksNext(rule: HeaderRule, orig: seq<string>, out: seq<string>, inHunk: bool, hs: seq<Hunk>, hdrs: seq<string>, i: nat, k: nat)
    requires |hdrs| == |hs| && LaidK(rule, orig, hdrs, hs, k, k) && i <= |hs| && OldBefore(hs, i) <= |orig| && k >= 3
    ensures WalkK(rule, orig, Cursor(out, OldBefore(hs, i), inHunk), RenderFrom(hs, hdrs, i), k).next == OldBefore(hs, i) + |OldFrom(hs, i)|
    decreases |hs| - i
  {
    if i == |hs| {
      WalkKEmpty(rule, orig, Cursor(out, OldBefore(hs, i), inHunk), k);
    } else {
      NextInside(rule, orig, hs, hdrs, i, k);
      WalkHunksNext(rule, orig, (out + hs[i].gap) + NewSide(hs[i].edits), true, hs, hdrs, i + 1, k);
      NextAdvance(rule, orig, out, inHunk, hs, hdrs, i, k);
    }
  }

  // The rendered diff lays its hunks out as the walk needs

  /** How many new lines come before hunk `i`'s gap. */
  function NewBefore(hs: seq<Hunk>, i: nat): nat
    requires i <= |hs|
  {
    if i == 0 then 0 else NewBefore(hs, i - 1) + |hs[i - 1].gap| + |NewSide(hs[i - 1].edits)|
  }

  /** The numbers of hunk `i`'s header: its old and new sides start after
      its gap, counted from line 1, and it counts the lines of each side. */
  function FieldsOf(hs: seq<Hunk>, i: nat): HunkFields
    requires i < |hs|
  {
    HunkFields(
      NatToString(OldBefore(hs, i) + |hs[i].gap| + 1), NatToString(|OldSide(hs[i].edits)|),
      NatToString(NewBefore(hs, i) + |hs[i].gap| + 1), NatToString(|NewSide(hs[i].edits)|))
  }

  /** The header line of every hunk. */
  function HunkHeaders(hs: seq<Hunk>): (r: seq<string>)
    ensures |r| == |hs|
  {
    seq(|hs|, i requires 0 <= i < |hs| => PrintedHeader(FieldsOf(hs, i)))
  }

  /** The diff of a file whose changed regions are `hs`: the file headers,
      then each hunk with its header, leaving out unchanged lines between
      hunks and after the last one. */
  function RenderDiff(hs: seq<Hunk>): seq<string> {
    [OldLabel, NewLabel] + RenderFrom(hs, HunkHeaders(hs), 0)
  }

  lemma {:induction false} OldBeforeFrom(hs: seq<Hunk>, i: nat)
    requires i <= |hs|
    ensures OldBefore(hs, i) + |OldFrom(hs, i)| == |OldFrom(hs, 0)|
    decreases i
  {
    if i > 0 {
      OldBeforeFrom(hs, i - 1);
    }
  }

  /** Every hunk starts on a line `strconv.Atoi` can return. */
  lemma StartBound(hs: seq<Hunk>, i: nat)
    requires i < |hs| && |OldFrom(hs, 0)| < MaxInt64
    ensures OldBefore(hs, i) + |hs[i].gap| + 1 <= MaxInt64
  {
    OldBeforeFrom(hs, i);
    FromCons(hs, i);
  }

  /** A printed header starts its hunk on the line its old start names. */
  lemma HeaderLineStartsK(line: string, a: nat, b: nat, c: nat, d: nat, k: nat)
    requires a <= MaxInt64
    requires line == PrintedHeader(HunkFields(NatToString(a), NatToString(b), NatToString(c), NatToString(d)))
    ensures StartsOnK(line, a, k)
  {
    AtoiNatToString(a);
    PrintedHeaderStarts(HunkFields(NatToString(a), NatToString(b), NatToString(c), NatToString(d)), a);
    StartsOnKIs(line, a, k);
  }

  /** Hunk `i`'s header starts it on the line after its gap. */
  lemma HeaderStartsAt(hs: seq<Hunk>, i: nat, k: nat)
    requires i < |hs| && |OldFrom(hs, 0)| < MaxInt64
    ensures StartsOnK(HunkHeaders(hs)[i], OldBefore(hs, i) + |hs[i].gap| + 1, k)
  {
    StartBound(hs, i);
    assert HunkHeaders(hs)[i] == PrintedHeader(FieldsOf(hs, i));
    HeaderLineStartsK(HunkHeaders(hs)[i], OldBefore(hs, i) + |hs[i].gap| + 1, |OldSide(hs[i].edits)|, NewBefore(hs, i) + |hs[i].gap| + 1, |NewSide(hs[i].edits)|, k);
  }

  /** Where hunk `i`'s old lines start, its gap, its old side and the old
      lines of the hunks after it follow. */
  lemma AtStep(orig: seq<string>, hs: seq<Hunk>, i: nat)
    requires i < |hs| && At(orig, OldBefore(hs, i), OldFrom(hs, i))
    ensures OldBefore(hs, i) + |hs[i].gap| + |OldSide(hs[i].edits)| <= |orig|
    ensures At(orig, OldBefore(hs, i), hs[i].gap)
    ensures At(orig, OldBefore(hs, i) + |hs[i].gap|, OldSide(hs[i].edits))
    ensures At(orig, OldBefore(hs, i + 1), OldFrom(hs, i + 1))
  {
    OldFromCons(hs, i);
    AtSame(orig, OldBefore(hs, i), OldFrom(hs, i), hs[i].gap + (OldSide(hs[i].edits) + OldFrom(hs, i + 1)));
    AtSplit3(orig, OldBefore(hs, i), hs[i].gap, OldSide(hs[i].edits), OldFrom(hs, i + 1));
    OldBeforeNext(hs, i);
    AtMove(orig, OldBefore(hs, i) + |hs[i].gap| + |OldSide(hs[i].edits)|, OldBefore(hs, i + 1), OldFrom(hs, i + 1));
  }

  lemma OldFromCons(hs: seq<Hunk>, i: nat)
    requires i < |hs|
    ensures OldFrom(hs, i) == hs[i].gap + (OldSide(hs[i].edits) + OldFrom(hs, i + 1))
  {
  }

  lemma AtSplit3(orig: seq<string>, p: nat, a: seq<string>, b: seq<string>, c: seq<string>)
    requires At(orig, p, a + (b + c))
    ensures At(orig, p, a) && At(orig, p + |a|, b) && At(orig, p + |a| + |b|, c)
  {
    AtSplit(orig, p, a, b + c);
    AtSplit(orig, p + |a|, b, c);
  }

  lemma AtSame(orig: seq<string>, p: nat, s: seq<string>, t: seq<string>)
    requires s == t && At(orig, p, s)
    ensures At(orig, p, t)
  {
  }

  lemma AtMove(orig: seq<string>, p: nat, q: nat, s: seq<string>)
    requires p == q && At(orig, p, s)
    ensures At(orig, q, s)
  {
  }

  /** The old lines of every later hunk follow where they start. */
  lemma {:induction false} AtFrom(orig: seq<string>, hs: seq<Hunk>, i: nat, j: nat)
    requires i <= j <= |hs| && At(orig, OldBefore(hs, i), OldFrom(hs, i))
    ensures At(orig, OldBefore(hs, j), OldFrom(hs, j))
    decreases j - i
  {
    if i < j {
      AtStep(orig, hs, i);
      AtFrom(orig, hs, i + 1, j);
    }
  }

  /** Each hunk's gap and old side sit where the hunk starts. */
  lemma HunkPlaced(orig: seq<string>, hs: seq<Hunk>, j: nat, k: nat)
    requires j < |hs| && At(orig, OldBefore(hs, 0), OldFrom(hs, 0))
    ensures OldBefore(hs, j) + |hs[j].gap| + |OldSide(hs[j].edits)| <= |orig|
    ensures AtK(orig, OldBefore(hs, j), hs[j].gap, k)
    ensures AtK(orig, OldBefore(hs, j) + |hs[j].gap|, OldSide(hs[j].edits), k)
  {
    AtFrom(orig, hs, 0, j);
    AtStep(orig, hs, j);
    AtKIs(orig, OldBefore(hs, j), hs[j].gap, k);
    AtKIs(orig, OldBefore(hs, j) + |hs[j].gap|, OldSide(hs[j].edits), k);
  }

  /** In the hunks' old lines followed by anything, every rendered hunk lies
      where its header says. */
  lemma LaidRendered(rule: HeaderRule, hs: seq<Hunk>, tail: seq<string>, k: nat)
    requires |OldFrom(hs, 0)| < MaxInt64
    requires rule == HeadersAnywhere ==> HunksHeaderSafe(hs)
    ensures LaidK(rule, OldFrom(hs, 0) + tail, HunkHeaders(hs), hs, k, k)
  {
    var orig := OldFrom(hs, 0) + tail;
    LaidKIs(rule, orig, HunkHeaders(hs), hs, k, k);
    assert At(orig, OldBefore(hs, 0), OldFrom(hs, 0)) by {
      assert orig[0..|OldFrom(hs, 0)|] == OldFrom(hs, 0);
    }
    forall j | 0 <= j < |hs|
      ensures HunkLaid(rule, orig, HunkHeaders(hs), hs, j, k)
    {
      HunkPlaced(orig, hs, j, k);
      HeaderStartsAt(hs, j, k);
    }
  }

  /** The file headers of a rendered diff are skipped. */
  lemma RenderedWalkK(rule: HeaderRule, orig: seq<string>, hs: seq<Hunk>, k: nat)
    ensures WalkFrom(rule, orig, Start, RenderDiff(hs))
         == WalkK(rule, orig, Cursor([], OldBefore(hs, 0), false), RenderFrom(hs, HunkHeaders(hs), 0), k)
  {
    WalkLabels(rule, orig, RenderFrom(hs, HunkHeaders(hs), 0));
    WalkKIs(rule, orig, Cursor([], OldBefore(hs, 0), false), RenderFrom(hs, HunkHeaders(hs), 0), k);
  }

  /** Applying a diff is the walk's output followed by the untouched rest. */
  lemma ApplyFromWalk(rule: HeaderRule, orig: seq<string>, diff: seq<string>, w: Cursor, lines: seq<string>, used: nat, tail: seq<string>)
    requires WalkFrom(rule, orig, Start, diff) == w
    requires w.out == lines && w.next == used && used <= |orig| && orig[used..] == tail
    ensures ApplyLines(rule, orig, diff) == lines + tail
  {
  }

  lemma ApplyRenderedHunksK(rule: HeaderRule, hs: seq<Hunk>, tail: seq<string>, k: nat)
    requires |OldFrom(hs, 0)| < MaxInt64 && k >= 3
    requires rule == HeadersAnywhere ==> HunksHeaderSafe(hs)
    ensures ApplyLines(rule, OldFrom(hs, 0) + tail, RenderDiff(hs)) == NewFrom(hs, 0) + tail
  {
    LaidRendered(rule, hs, tail, k);
    WalkHunksOut(rule, OldFrom(hs, 0) + tail, [], false, hs, HunkHeaders(hs), 0, k);
    WalkHunksNext(rule, OldFrom(hs, 0) + tail, [], false, hs, HunkHeaders(hs), 0, k);
    RenderedWalkK(rule, OldFrom(hs, 0) + tail, hs, k);
    assert [] + NewFrom(hs, 0) == NewFrom(hs, 0);
    assert (OldFrom(hs, 0) + tail)[|OldFrom(hs, 0)|..] == tail;
    ApplyFromWalk(rule, OldFrom(hs, 0) + tail, RenderDiff(hs),
      WalkK(rule, OldFrom(hs, 0) + tail, Cursor([], OldBefore(hs, 0), false), RenderFrom(hs, HunkHeaders(hs), 0), k),
      NewFrom(hs, 0), |OldFrom(hs, 0)|, tail);
  }

  /** Applying the diff of several hunks to the old lines (the hunks' old
      lines, then an unchanged rest) gives the new lines: each header copies
      the unchanged lines before its hunk, the body edits, and the rest is
      copied at the end. This holds for the corrected applier always, and for
      the server's when no deleted line starts with `--` and no inserted line
      with `++`. */
  lemma ApplyRenderedHunks(rule: HeaderRule, hs: seq<Hunk>, tail: seq<string>)
    requires |OldFrom(hs, 0)| < MaxInt64
    requires rule == HeadersAnywhere ==> HunksHeaderSafe(hs)
    ensures ApplyLines(rule, OldFrom(hs, 0) + tail, RenderDiff(hs)) == NewFrom(hs, 0) + tail
  {
    ApplyRenderedHunksK(rule, hs, tail, 3);
  }

  /** The single-hunk diff is the diff of one hunk with an empty gap. */
  lemma RenderIsOneHunk(es: seq<Edit>)
    ensures Render(es) == RenderDiff([Hunk([], es)])
    ensures OldFrom([Hunk([], es)], 0) == OldSide(es) && NewFrom([Hunk([], es)], 0) == NewSide(es)
  {
    OneHunkLines(es);
    OneHunkSides(es);
  }

  lemma OneHunkLines(es: seq<Edit>)
    ensures Render(es) == RenderDiff([Hunk([], es)])
  {
    var hs := [Hunk([], es)];
    var h := HunkHeaderLine(|OldSide(es)|, |NewSide(es)|);
    OneHunkHeader(es);
    assert RenderFrom(hs, [h], 1) == [];
    assert RenderFrom(hs, [h], 0) == ([h] + Body(es)) + [];
    assert [OldLabel, NewLabel] + (([h] + Body(es)) + []) == [OldLabel, NewLabel, h] + Body(es);
  }

  lemma OneHunkSides(es: seq<Edit>)
    ensures OldFrom([Hunk([], es)], 0) == OldSide(es) && NewFrom([Hunk([], es)], 0) == NewSide(es)
  {
    var hs := [Hunk([], es)];
    assert OldFrom(hs, 1) == [] && NewFrom(hs, 1) == [];
    assert OldSide(es) + [] == OldSide(es) && NewSide(es) + [] == NewSide(es);
  }

  lemma OneHunkHeader(es: seq<Edit>)
    ensures HunkHeaders([Hunk([], es)]) == [HunkHeaderLine(|OldSide(es)|, |NewSide(es)|)]
  {
    var hs := [Hunk([], es)];
    assert NatToString(1) == "1";
    assert FieldsOf(hs, 0) == HunkFields("1", NatToString(|OldSide(es)|), "1", NatToString(|NewSide(es)|));
    assert HunkHeaders(hs)[0] == HunkHeaderLine(|OldSide(es)|, |NewSide(es)|);
  }

  // ---------------------------------------------------------------------------
  // At the level of texts

  lemma NatToStringNoNewline(n: nat)
    ensures '\n' !in NatToString(n)
  {
    var s := NatToString(n);
    assert forall i :: 0 <= i < |s| ==> IsDigit(s[i]);
  }

  lemma OldSideNoNewlines(es: seq<Edit>)
    requires NoNewlines(es)
    ensures NoSep(OldSide(es), '\n') && NoSep(NewSide(es), '\n')
  {
    if |es| > 0 {
      assert NoNewlines(es[1..]) by {
        assert forall i :: 0 <= i < |es| - 1 ==> es[1..][i] == es[i + 1];
      }
      OldSideNoNewlines(es[1..]);
    }
  }

  lemma BodyNoNewlines(es: seq<Edit>)
    requires NoNewlines(es)
    ensures NoSep(Body(es), '\n')
  {
    if |es| > 0 {
      assert NoNewlines(es[1..]) by {
        assert forall i :: 0 <= i < |es| - 1 ==> es[1..][i] == es[i + 1];
      }
      BodyNoNewlines(es[1..]);
      var b := BodyLine(es[0]);
      assert b == [b[0]] + es[0].line;
      assert '\n' !in b;
    }
  }

  lemma RenderNoNewlines(es: seq<Edit>)
    requires NoNewlines(es)
    ensures NoSep(Render(es), '\n')
  {
    BodyNoNewlines(es);
    NatToStringNoNewline(|OldSide(es)|);
    NatToStringNoNewline(|NewSide(es)|);
    var h := HunkHeaderLine(|OldSide(es)|, |NewSide(es)|);
    assert '\n' !in h;
    assert NoSep([OldLabel, NewLabel, h], '\n');
    NoSepAppend([OldLabel, NewLabel, h], Body(es));
  }

  /** Formatting round trip on texts: for a non-empty old side, applying the
      joined rendered diff to the joined old lines gives the joined new
      lines. */
  lemma ApplyUnifiedDiffRendered(es: seq<Edit>)
    requires NoNewlines(es) && |OldSide(es)| >= 1
    ensures ApplyUnifiedDiffCorrected(Join(OldSide(es), '\n'), Join(Render(es), '\n')) == Join(NewSide(es), '\n')
    ensures HeaderSafe(es) ==> ApplyUnifiedDiff(Join(OldSide(es), '\n'), Join(Render(es), '\n')) == Join(NewSide(es), '\n')
  {
    OldSideNoNewlines(es);
    RenderNoNewlines(es);
    SplitJoin(OldSide(es), '\n');
    SplitJoin(Render(es), '\n');
    ApplyRendered(HeadersBeforeFirstHunk, es);
    if HeaderSafe(es) {
      ApplyRendered(HeadersAnywhere, es);
    }
  }
  /** No gap and no edit holds a newline. */
  predicate HunksNoNewlines(hs: seq<Hunk>) {
    forall i :: 0 <= i < |hs| ==> NoSep(hs[i].gap, '\n') && NoNewlines(hs[i].edits)
  }

  lemma NoSepAppend(a: seq<string>, b: seq<string>)
    requires NoSep(a, '\n') && NoSep(b, '\n')
    ensures NoSep(a + b, '\n')
  {
    assert forall i :: |a| <= i < |a + b| ==> (a + b)[i] == b[i - |a|];
  }

  lemma {:induction false} OldFromNoNewlines(hs: seq<Hunk>, i: nat)
    requires i <= |hs| && HunksNoNewlines(hs)
    ensures NoSep(OldFrom(hs, i), '\n')
    decreases |hs| - i
  {
    if i < |hs| {
      OldSideNoNewlines(hs[i].edits);
      OldFromNoNewlines(hs, i + 1);
      NoSepAppend(OldSide(hs[i].edits), OldFrom(hs, i + 1));
      NoSepAppend(hs[i].gap, OldSide(hs[i].edits) + OldFrom(hs, i + 1));
    }
  }

  lemma HunkHeaderNoNewline(hs: seq<Hunk>, i: nat)
    requires i < |hs|
    ensures '\n' !in HunkHeaders(hs)[i]
  {
    var f := FieldsOf(hs, i);
    NatToStringNoNewline(OldBefore(hs, i) + |hs[i].gap| + 1);
    NatToStringNoNewline(|OldSide(hs[i].edits)|);
    NatToStringNoNewline(NewBefore(hs, i) + |hs[i].gap| + 1);
    NatToStringNoNewline(|NewSide(hs[i].edits)|);
    assert HunkHeaders(hs)[i] == PrintedHeader(f);
    assert '\n' !in PrintedHeader(f);
  }

  lemma NoSepHunk(h: string, b: seq<string>, r: seq<string>)
    requires '\n' !in h && NoSep(b, '\n') && NoSep(r, '\n')
    ensures NoSep(([h] + b) + r, '\n')
  {
    NoSepAppend([h], b);
    NoSepAppend([h] + b, r);
  }

  lemma RenderFromStep(hs: seq<Hunk>, hdrs: seq<string>, i: nat)
    requires |hdrs| == |hs| && i < |hs| && HunksNoNewlines(hs) && NoSep(hdrs, '\n')
    requires NoSep(RenderFrom(hs, hdrs, i + 1), '\n')
    ensures NoSep(RenderFrom(hs, hdrs, i), '\n')
  {
    BodyNoNewlines(hs[i].edits);
    NoSepHunk(hdrs[i], Body(hs[i].edits), RenderFrom(hs, hdrs, i + 1));
  }

  lemma {:induction false} RenderFromNoNewlines(hs: seq<Hunk>, hdrs: seq<string>, i: nat)
    requires |hdrs| == |hs| && i <= |hs| && HunksNoNewlines(hs) && NoSep(hdrs, '\n')
    ensures NoSep(RenderFrom(hs, hdrs, i), '\n')
    decreases |hs| - i
  {
    if i < |hs| {
      RenderFromNoNewlines(hs, hdrs, i + 1);
      RenderFromStep(hs, hdrs, i);
    }
  }

  lemma HunkHeadersNoNewlines(hs: seq<Hunk>)
    ensures NoSep(HunkHeaders(hs), '\n')
  {
    forall i | 0 <= i < |hs|
      ensures '\n' !in HunkHeaders(hs)[i]
    {
      HunkHeaderNoNewline(hs, i);
    }
  }

  /** Splitting the joined old lines and the joined diff gives back their
      lines. */
  lemma SplitRendered(hs: seq<Hunk>, tail: seq<string>)
    requires HunksNoNewlines(hs) && NoSep(tail, '\n') && |OldFrom(hs, 0) + tail| >= 1
    ensures Split(Join(OldFrom(hs, 0) + tail, '\n'), '\n') == OldFrom(hs, 0) + tail
    ensures Split(Join(RenderDiff(hs), '\n'), '\n') == RenderDiff(hs)
  {
    SplitOldLines(hs, tail);
    SplitDiffLines(hs);
  }

  lemma SplitOldLines(hs: seq<Hunk>, tail: seq<string>)
    requires HunksNoNewlines(hs) && NoSep(tail, '\n') && |OldFrom(hs, 0) + tail| >= 1
    ensures Split(Join(OldFrom(hs, 0) + tail, '\n'), '\n') == OldFrom(hs, 0) + tail
  {
    OldFromNoNewlines(hs, 0);
    NoSepAppend(OldFrom(hs, 0), tail);
    SplitJoin(OldFrom(hs, 0) + tail, '\n');
  }

  lemma SplitDiffLines(hs: seq<Hunk>)
    requires HunksNoNewlines(hs)
    ensures Split(Join(RenderDiff(hs), '\n'), '\n') == RenderDiff(hs)
  {
    DiffNoNewlines(hs);
    SplitJoin(RenderDiff(hs), '\n');
  }

  lemma DiffNoNewlines(hs: seq<Hunk>)
    requires HunksNoNewlines(hs)
    ensures NoSep(RenderDiff(hs), '\n') && |RenderDiff(hs)| >= 2
  {
    var hdrs := HunkHeaders(hs);
    HunkHeadersNoNewlines(hs);
    RenderFromNoNewlines(hs, hdrs, 0);
    LabelsNoNewlines();
    NoSepAppend([OldLabel, NewLabel], RenderFrom(hs, hdrs, 0));
  }

  lemma LabelsNoNewlines()
    ensures NoSep([OldLabel, NewLabel], '\n')
  {
    assert '\n' !in OldLabel && '\n' !in NewLabel;
  }

  /** The round trip of several hunks on joined texts, as the server applies
      a diff to a document: for newline-free lines and a non-empty original,
      applying the joined diff to the joined old lines gives the joined new
      lines. */
  lemma ApplyUnifiedDiffHunks(hs: seq<Hunk>, tail: seq<string>)
    requires HunksNoNewlines(hs) && NoSep(tail, '\n')
    requires |OldFrom(hs, 0) + tail| >= 1 && |OldFrom(hs, 0)| < MaxInt64
    ensures ApplyUnifiedDiffCorrected(Join(OldFrom(hs, 0) + tail, '\n'), Join(RenderDiff(hs), '\n'))
      == Join(NewFrom(hs, 0) + tail, '\n')
    ensures HunksHeaderSafe(hs) ==>
      ApplyUnifiedDiff(Join(OldFrom(hs, 0) + tail, '\n'), Join(RenderDiff(hs), '\n')) == Join(NewFrom(hs, 0) + tail, '\n')
  {
    SplitRendered(hs, tail);
    ApplyRenderedHunks(HeadersBeforeFirstHunk, hs, tail);
    if HunksHeaderSafe(hs) {
      ApplyRenderedHunks(HeadersAnywhere, hs, tail);
    }
  }


  // ---------------------------------------------------------------------------
  // The header quirk of the server's applier

  /** php-cs-fixer's `increment_style` rule rewrites `$i++;` to `++$i;`. At
      column 0 the added line `+++$i;` is taken for a file header, so the
      server's applier drops it, while the corrected applier keeps it. */
  lemma IncrementLineDropped()
    ensures var es := [Keep("<?php"), Delete("$i++;"), Insert("++$i;")];
      && OldSide(es) == ["<?php", "$i++;"]
      && NewSide(es) == ["<?php", "++$i;"]
      && ApplyLines(HeadersAnywhere, OldSide(es), Render(es)) == ["<?php"]
      && ApplyLines(HeadersBeforeFirstHunk, OldSide(es), Render(es)) == NewSide(es)
  {
    var es := [Keep("<?php"), Delete("$i++;"), Insert("++$i;")];
    assert OldSide(es) == ["<?php", "$i++;"];
    assert NewSide(es) == ["<?php", "++$i;"];
    ApplyRendered(HeadersBeforeFirstHunk, es);
    IncrementWalk();
  }

  lemma {:induction false} OldSideAppend(a: seq<Edit>, b: seq<Edit>)
    ensures OldSide(a + b) == OldSide(a) + OldSide(b)
    decreases |a|
  {
    if |a| > 0 {
      assert (a + b)[0] == a[0] && (a + b)[1..] == a[1..] + b;
      OldSideAppend(a[1..], b);
      Assoc(Reads(a[0]), OldSide(a[1..]), OldSide(b));
    } else {
      assert a + b == b;
    }
  }

  lemma BodyAppend(es: seq<Edit>, e: Edit)
    ensures Body(es + [e]) == Body(es) + [BodyLine(e)]
  {
  }

  /** A walk that ends past the last original line leaves nothing to copy. */
  lemma ApplyAtEnd(rule: HeaderRule, orig: seq<string>, d: seq<string>, out: seq<string>)
    requires WalkFrom(rule, orig, Start, d) == Cursor(out, |orig|, true)
    ensures ApplyLines(rule, orig, d) == out
  {
    assert orig[|orig|..] == [];
  }

  /** The server's applier loses an inserted line that starts with `++`
      when it comes last: the rest of the script still applies, but that line
      is missing from the result. */
  lemma TrailingIncrementLost(es: seq<Edit>, x: string)
    requires HeaderSafe(es) && HasPrefix(x, "++")
    ensures ApplyLines(HeadersAnywhere, OldSide(es), Render(es + [Insert(x)])) == NewSide(es)
  {
    var es' := es + [Insert(x)];
    var orig := OldSide(es);
    var c0 := Cursor([], 0, true);
    OldSideAppend(es, [Insert(x)]);
    assert OldSide([Insert(x)]) == [];
    assert OldSide(es') == orig;
    var last := BodyLine(Insert(x));
    BodyAppend(es, Insert(x));
    RenderWalk(HeadersAnywhere, orig, es');
    assert WalkFrom(HeadersAnywhere, orig, Start, Render(es')) == WalkFrom(HeadersAnywhere, orig, c0, Body(es) + [last]);
    WalkFromAppend(HeadersAnywhere, orig, c0, Body(es), [last]);
    assert orig == [] + OldSide(es);
    WalkBody(HeadersAnywhere, orig, c0, [], es);
    assert [] + NewSide(es) == NewSide(es);
    var c := Cursor(NewSide(es), |orig|, true);
    assert WalkFrom(HeadersAnywhere, orig, c0, Body(es)) == c;
    ClassifyAddition(x, true);
    assert WalkFrom(HeadersAnywhere, orig, c, [last]) == c;
    ApplyAtEnd(HeadersAnywhere, orig, Render(es'), NewSide(es));
  }

  lemma IncrementWalk()
    ensures ApplyLines(HeadersAnywhere, ["<?php", "$i++;"], Render([Keep("<?php"), Delete("$i++;"), Insert("++$i;")])) == ["<?php"]
  {
    var safe := [Keep("<?php"), Delete("$i++;")];
    PrefixHead("$i++;", "--");
    assert HeaderSafe(safe);
    assert ("++$i;")[..2] == "++";
    TrailingIncrementLost(safe, "++$i;");
    assert safe + [Insert("++$i;")] == [Keep("<?php"), Delete("$i++;"), Insert("++$i;")];
    assert OldSide(safe) == ["<?php", "$i++;"] && NewSide(safe) == ["<?php"];
  }

  // ---------------------------------------------------------------------------
  // The applier's multi-hunk test case

  /** The two hunks of the "complex multi-hunk diff" case: lines 2 and 6 of
      eight are rewritten, and line 4 lies between the hunks. */
  function TestHunks(): seq<Hunk> {
    [Hunk([], [Keep("line 1"), Delete("line 2"), Insert("line TWO"), Keep("line 3")]),
     Hunk(["line 4"], [Keep("line 5"), Delete("line 6"), Insert("line SIX"), Keep("line 7"), Keep("line 8")])]
  }

  /** The sides of each of the two hunks. */
  lemma TestSides()
    ensures OldSide(TestHunks()[0].edits) == ["line 1", "line 2", "line 3"]
    ensures NewSide(TestHunks()[0].edits) == ["line 1", "line TWO", "line 3"]
    ensures OldSide(TestHunks()[1].edits) == ["line 5", "line 6", "line 7", "line 8"]
    ensures NewSide(TestHunks()[1].edits) == ["line 5", "line SIX", "line 7", "line 8"]
  {
    FirstTestSides();
    SecondTestSides();
  }

  lemma FirstTestSides()
    ensures OldSide(TestHunks()[0].edits) == ["line 1", "line 2", "line 3"]
    ensures NewSide(TestHunks()[0].edits) == ["line 1", "line TWO", "line 3"]
  {
    SidesCons(Keep("line 3"), []);
    SidesCons(Insert("line TWO"), [Keep("line 3")]);
    SidesCons(Delete("line 2"), [Insert("line TWO"), Keep("line 3")]);
    SidesCons(Keep("line 1"), [Delete("line 2"), Insert("line TWO"), Keep("line 3")]);
  }

  lemma SecondTestSides()
    ensures OldSide(TestHunks()[1].edits) == ["line 5", "line 6", "line 7", "line 8"]
    ensures NewSide(TestHunks()[1].edits) == ["line 5", "line SIX", "line 7", "line 8"]
  {
    SidesCons(Keep("line 8"), []);
    SidesCons(Keep("line 7"), [Keep("line 8")]);
    SidesCons(Insert("line SIX"), [Keep("line 7"), Keep("line 8")]);
    SidesCons(Delete("line 6"), [Insert("line SIX"), Keep("line 7"), Keep("line 8")]);
    SidesCons(Keep("line 5"), [Delete("line 6"), Insert("line SIX"), Keep("line 7"), Keep("line 8")]);
  }

  /** Both sides of a script grow by what its first edit reads and writes. */
  lemma SidesCons(e: Edit, es: seq<Edit>)
    ensures OldSide([e] + es) == Reads(e) + OldSide(es)
    ensures NewSide([e] + es) == Writes(e) + NewSide(es)
  {
    assert ([e] + es)[1..] == es;
  }

  /** The numbers of the two headers. */
  lemma TestFields()
    ensures FieldsOf(TestHunks(), 0) == HunkFields("1", "3", "1", "3")
    ensures FieldsOf(TestHunks(), 1) == HunkFields("5", "4", "5", "4")
  {
    var hs := TestHunks();
    TestSides();
    assert NatToString(1) == "1" && NatToString(3) == "3" && NatToString(4) == "4" && NatToString(5) == "5";
    assert OldBefore(hs, 1) == 3 && NewBefore(hs, 1) == 3;
  }

  /** Their headers are the ones the case prints. */
  lemma TestHeaders()
    ensures HunkHeaders(TestHunks()) == ["@@ -1,3 +1,3 @@", "@@ -5,4 +5,4 @@"]
  {
    TestFields();
    FirstTestHeader();
    SecondTestHeader();
    var r := HunkHeaders(TestHunks());
    assert r[0] == "@@ -1,3 +1,3 @@" && r[1] == "@@ -5,4 +5,4 @@";
  }

  lemma FirstTestHeader()
    ensures PrintedHeader(HunkFields("1", "3", "1", "3")) == "@@ -1,3 +1,3 @@"
  {
  }

  lemma SecondTestHeader()
    ensures PrintedHeader(HunkFields("5", "4", "5", "4")) == "@@ -5,4 +5,4 @@"
  {
  }

  lemma TestBodies()
    ensures Body(TestHunks()[0].edits) == [" line 1", "-line 2", "+line TWO", " line 3"]
    ensures Body(TestHunks()[1].edits) == [" line 5", "-line 6", "+line SIX", " line 7", " line 8"]
  {
    FirstTestBody();
    SecondTestBody();
  }

  lemma FirstTestBody()
    ensures Body(TestHunks()[0].edits) == [" line 1", "-line 2", "+line TWO", " line 3"]
  {
    var es := TestHunks()[0].edits;
    var b := Body(es);
    FirstTestLines();
    assert b == [BodyLine(Keep("line 1")), BodyLine(Delete("line 2")), BodyLine(Insert("line TWO")), BodyLine(Keep("line 3"))];
  }

  lemma FirstTestLines()
    ensures BodyLine(Keep("line 1")) == " line 1"
    ensures BodyLine(Delete("line 2")) == "-line 2"
    ensures BodyLine(Insert("line TWO")) == "+line TWO"
    ensures BodyLine(Keep("line 3")) == " line 3"
  {
  }

  lemma SecondTestBody()
    ensures Body(TestHunks()[1].edits) == [" line 5", "-line 6", "+line SIX", " line 7", " line 8"]
  {
    var es := TestHunks()[1].edits;
    var b := Body(es);
    SecondTestLines();
    assert b == [BodyLine(Keep("line 5")), BodyLine(Delete("line 6")), BodyLine(Insert("line SIX")), BodyLine(Keep("line 7")), BodyLine(Keep("line 8"))];
  }

  lemma SecondTestLines()
    ensures BodyLine(Keep("line 5")) == " line 5"
    ensures BodyLine(Delete("line 6")) == "-line 6"
    ensures BodyLine(Insert("line SIX")) == "+line SIX"
    ensures BodyLine(Keep("line 7")) == " line 7"
    ensures BodyLine(Keep("line 8")) == " line 8"
  {
  }

  /** The rendered diff is the case's diff, up to the file labels. */
  lemma TwoHunksRendered()
    ensures RenderDiff(TestHunks()) ==
      [OldLabel, NewLabel]
      + (["@@ -1,3 +1,3 @@"] + [" line 1", "-line 2", "+line TWO", " line 3"])
      + (["@@ -5,4 +5,4 @@"] + [" line 5", "-line 6", "+line SIX", " line 7", " line 8"])
  {
    var hs := TestHunks();
    var hdrs := HunkHeaders(hs);
    FirstHunkRendered();
    SecondHunkRendered();
    Assoc([OldLabel, NewLabel], ["@@ -1,3 +1,3 @@"] + [" line 1", "-line 2", "+line TWO", " line 3"], RenderFrom(hs, hdrs, 1));
  }

  lemma FirstHunkRendered()
    ensures RenderFrom(TestHunks(), HunkHeaders(TestHunks()), 0) ==
      (["@@ -1,3 +1,3 @@"] + [" line 1", "-line 2", "+line TWO", " line 3"]) + RenderFrom(TestHunks(), HunkHeaders(TestHunks()), 1)
  {
    var hs := TestHunks();
    var hdrs := HunkHeaders(hs);
    TestHeaders();
    FirstTestBody();
    assert RenderFrom(hs, hdrs, 0) == ([hdrs[0]] + Body(hs[0].edits)) + RenderFrom(hs, hdrs, 1);
  }

  lemma SecondHunkRendered()
    ensures RenderFrom(TestHunks(), HunkHeaders(TestHunks()), 1) ==
      ["@@ -5,4 +5,4 @@"] + [" line 5", "-line 6", "+line SIX", " line 7", " line 8"]
  {
    var hs := TestHunks();
    var hdrs := HunkHeaders(hs);
    TestHeaders();
    SecondTestBody();
    assert RenderFrom(hs, hdrs, 2) == [];
    assert RenderFrom(hs, hdrs, 1) == ([hdrs[1]] + Body(hs[1].edits)) + [];
  }

  lemma TwoHunksSides()
    ensures OldFrom(TestHunks(), 0) == ["line 1", "line 2", "line 3", "line 4", "line 5", "line 6", "line 7", "line 8"]
    ensures NewFrom(TestHunks(), 0) == ["line 1", "line TWO", "line 3", "line 4", "line 5", "line SIX", "line 7", "line 8"]
  {
    var hs := TestHunks();
    TestSides();
    assert OldFrom(hs, 2) == [] && NewFrom(hs, 2) == [];
    assert OldFrom(hs, 1) == ["line 4", "line 5", "line 6", "line 7", "line 8"];
    assert NewFrom(hs, 1) == ["line 4", "line 5", "line SIX", "line 7", "line 8"];
  }

  lemma TwoHunksSafe()
    ensures HunksNoNewlines(TestHunks()) && HunksHeaderSafe(TestHunks())
  {
    FirstHunkSafe();
    SecondHunkSafe();
    var hs := TestHunks();
    forall i | 0 <= i < |hs|
      ensures NoSep(hs[i].gap, '\n') && NoNewlines(hs[i].edits) && HeaderSafe(hs[i].edits)
    {
      assert i == 0 || i == 1;
    }
  }

  lemma FirstHunkSafe()
    ensures NoNewlines(TestHunks()[0].edits) && HeaderSafe(TestHunks()[0].edits)
  {
    PrefixHead("line 2", "--");
    PrefixHead("line TWO", "++");
  }

  lemma SecondHunkSafe()
    ensures NoSep(TestHunks()[1].gap, '\n')
    ensures NoNewlines(TestHunks()[1].edits) && HeaderSafe(TestHunks()[1].edits)
  {
    PrefixHead("line 6", "--");
    PrefixHead("line SIX", "++");
  }

  /** The case's hunk lines, after the file labels. */
  function TestHunkLines(): seq<string> {
    (["@@ -1,3 +1,3 @@"] + [" line 1", "-line 2", "+line TWO", " line 3"])
    + (["@@ -5,4 +5,4 @@"] + [" line 5", "-line 6", "+line SIX", " line 7", " line 8"])
  }

  /** The case's diff text, line by line, under its own file labels. */
  function TestDiff(): seq<string> {
    ["--- a/test.php", "+++ b/test.php"] + TestHunkLines()
  }

  /** The server's applier skips any pair of file labels in front of a diff. */
  lemma DropFileLabels(orig: seq<string>, a: string, b: string, rest: seq<string>)
    requires IsFileHeader(a) && IsFileHeader(b)
    ensures ApplyLines(HeadersAnywhere, orig, [a, b] + rest) == ApplyLines(HeadersAnywhere, orig, rest)
  {
    assert [a, b] + rest == [] + [a] + ([b] + rest);
    DropFileHeader(orig, [], a, [b] + rest);
    assert [] + ([b] + rest) == [] + [b] + rest;
    DropFileHeader(orig, [], b, rest);
    assert [] + rest == rest;
  }

  /** So two diff texts that differ only in their file labels apply alike. */
  lemma RelabelledDiff(original: string, a: string, b: string, c: string, d: string, rest: seq<string>)
    requires IsFileHeader(a) && IsFileHeader(b) && IsFileHeader(c) && IsFileHeader(d)
    requires NoSep([a, b] + rest, '\n') && NoSep([c, d] + rest, '\n')
    ensures ApplyUnifiedDiff(original, Join([a, b] + rest, '\n'))
      == ApplyUnifiedDiff(original, Join([c, d] + rest, '\n'))
  {
    SplitJoin([a, b] + rest, '\n');
    SplitJoin([c, d] + rest, '\n');
    DropFileLabels(Split(original, '\n'), a, b, rest);
    DropFileLabels(Split(original, '\n'), c, d, rest);
  }

  lemma TestDiffNoNewlines()
    ensures NoSep(TestDiff(), '\n') && NoSep([OldLabel, NewLabel] + TestHunkLines(), '\n')
  {
  }

  lemma TestLabels()
    ensures IsFileHeader(OldLabel) && IsFileHeader(NewLabel)
    ensures IsFileHeader("--- a/test.php") && IsFileHeader("+++ b/test.php")
  {
    assert OldLabel[..3] == "---" && NewLabel[..3] == "+++";
    assert "--- a/test.php"[..3] == "---" && "+++ b/test.php"[..3] == "+++";
  }

  /** The server's applier turns the eight lines into the expected ones, both
      on php-cs-fixer's rendering of the two hunks and on the case's literal
      diff text, whose labels are `--- a/test.php` and `+++ b/test.php`. */
  lemma TwoHunksApply()
    ensures ApplyUnifiedDiff(
      Join(["line 1", "line 2", "line 3", "line 4", "line 5", "line 6", "line 7", "line 8"], '\n'),
      Join(RenderDiff(TestHunks()), '\n'))
      == Join(["line 1", "line TWO", "line 3", "line 4", "line 5", "line SIX", "line 7", "line 8"], '\n')
    ensures ApplyUnifiedDiff(
      Join(["line 1", "line 2", "line 3", "line 4", "line 5", "line 6", "line 7", "line 8"], '\n'),
      Join(TestDiff(), '\n'))
      == Join(["line 1", "line TWO", "line 3", "line 4", "line 5", "line SIX", "line 7", "line 8"], '\n')
  {
    var hs := TestHunks();
    TwoHunksSides();
    TwoHunksSafe();
    assert OldFrom(hs, 0) + [] == OldFrom(hs, 0) && NewFrom(hs, 0) + [] == NewFrom(hs, 0);
    ApplyUnifiedDiffHunks(hs, []);
    TestDiffRendered();
    TestDiffNoNewlines();
    TestLabels();
    RelabelledDiff(Join(OldFrom(hs, 0), '\n'), OldLabel, NewLabel, "--- a/test.php", "+++ b/test.php", TestHunkLines());
  }

  lemma TestDiffRendered()
    ensures RenderDiff(TestHunks()) == [OldLabel, NewLabel] + TestHunkLines()
  {
    TwoHunksRendered();
    Assoc([OldLabel, NewLabel], ["@@ -1,3 +1,3 @@"] + [" line 1", "-line 2", "+line TWO", " line 3"],
      ["@@ -5,4 +5,4 @@"] + [" line 5", "-line 6", "+line SIX", " line 7", " line 8"]);
  }
}
