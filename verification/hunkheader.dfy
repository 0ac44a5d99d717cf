/** The hunk-header regular expression both diff walkers compile,
        @@\s+-(\d+),(\d+)?\s+\+(\d+),(\d+)?\s+@@
    matched the way Go's `FindStringSubmatch` does: the leftmost position
    where the pattern matches, with its four capture groups. An optional group
    that does not participate is captured as the empty string. In Go's RE2
    syntax `\s` is `[\t\n\f\r ]` and `\d` is `[0-9]`.

    At a fixed start position the pattern matches in at most one way: every
    repeated class is followed by a character outside it, so each run must be
    maximal. `MatchAt` therefore scans maximal runs. */
module HunkHeader {
  import opened Wrappers
  import opened Text

  /** The four captures, as text: old start, old count, new start, new count. */
  datatype HunkFields = HunkFields(oldStart: string, oldCount: string, newStart: string, newCount: string)

  /** The regular expression class `\s`. */
  predicate IsRegexSpace(c: char) {
    c == '\t' || c == '\n' || c == '\U{000C}' || c == '\r' || c == ' '
  }

  predicate AllRegexSpace(w: string) {
    forall i :: 0 <= i < |w| ==> IsRegexSpace(w[i])
  }

  /** Length of the leading run of `\s` in `t`. */
  function LeadSpaces(t: string): (n: nat)
    ensures n <= |t|
    ensures AllRegexSpace(t[..n])
    ensures n == |t| || !IsRegexSpace(t[n])
    decreases |t|
  {
    if |t| > 0 && IsRegexSpace(t[0]) then
      var n := 1 + LeadSpaces(t[1..]);
      assert t[..n] == [t[0]] + t[1..][..n - 1];
      n
    else 0
  }

  /** Length of the leading run of `\d` in `t`. */
  function LeadDigits(t: string): (n: nat)
    ensures n <= |t|
    ensures AllDigits(t[..n])
    ensures n == |t| || !IsDigit(t[n])
    decreases |t|
  {
    if |t| > 0 && IsDigit(t[0]) then
      var n := 1 + LeadDigits(t[1..]);
      assert t[..n] == [t[0]] + t[1..][..n - 1];
      n
    else 0
  }

  /** The pieces `(\d+),(\d+)?` at the start of a text and what follows them. */
  datatype Numbers = Numbers(first: string, second: string, rest: string)

  /** `\s+` followed by the character `ch`: what follows the character. */
  function SpaceThen(t: string, ch: char): (r: Option<string>)
    ensures r.Some? ==> var n := LeadSpaces(t); 0 < n < |t| && t == t[..n] + [ch] + r.value
  {
    var n := LeadSpaces(t);
    if n == 0 || n == |t| || t[n] != ch then None
    else
      assert t == t[..n] + [ch] + t[n + 1..];
      Some(t[n + 1..])
  }

  /** `(\d+),(\d+)?` at the start of `t`. */
  function ScanNumbers(t: string): (r: Option<Numbers>)
    ensures r.Some? ==> && |r.value.first| > 0 && AllDigits(r.value.first) && AllDigits(r.value.second)
                        && t == r.value.first + "," + r.value.second + r.value.rest
  {
    var n := LeadDigits(t);
    if n == 0 || n == |t| || t[n] != ',' then None
    else
      var u := t[n + 1..];
      var m := LeadDigits(u);
      assert t == t[..n] + "," + u[..m] + u[m..];
      Some(Numbers(t[..n], u[..m], u[m..]))
  }

  /** `\s+@@` at the start of `t`. */
  predicate ScanClose(t: string) {
    var r := SpaceThen(t, '@');
    r.Some? && |r.value| > 0 && r.value[0] == '@'
  }

  /** `\s+\+(\d+),(\d+)?\s+@@` at the start of `t`: the new-side numbers. */
  function ScanNewSide(t: string): (r: Option<Numbers>)
    ensures r.Some? ==> |r.value.first| > 0 && AllDigits(r.value.first) && AllDigits(r.value.second)
  {
    var r :- SpaceThen(t, '+');
    var news :- ScanNumbers(r);
    if ScanClose(news.rest) then Some(news) else None
  }

  /** `\s+-(\d+),(\d+)?` and the new side, at the start of `t`. */
  function ScanBothSides(t: string): Option<HunkFields> {
    var r :- SpaceThen(t, '-');
    var olds :- ScanNumbers(r);
    var news :- ScanNewSide(olds.rest);
    Some(HunkFields(olds.first, olds.second, news.first, news.second))
  }

  /** The pattern anchored at the start of `t`. */
  function MatchPrefix(t: string): Option<HunkFields>
  {
    if HasPrefix(t, "@@") then ScanBothSides(t[2..]) else None
  }

  /** The pattern anchored at position `i` of `s`. */
  function MatchAt(s: string, i: nat): Option<HunkFields>
    requires i <= |s|
  {
    MatchPrefix(s[i..])
  }

  /** The leftmost match at or after position `i`. */
  function FindFrom(s: string, i: nat): Option<HunkFields>
    requires i <= |s|
    decreases |s| - i
  {
    if MatchAt(s, i).Some? then MatchAt(s, i)
    else if i == |s| then None
    else FindFrom(s, i + 1)
  }

  /** `re.FindStringSubmatch(line)` for the hunk-header pattern. */
  function FindHeader(line: string): Option<HunkFields> {
    FindFrom(line, 0)
  }

  // ---------------------------------------------------------------------------
  // The declarative reading of the pattern

  /** The text the pattern matches for captures `f`, given the three runs of
      whitespace it contains. */
  function HeaderText(w1: string, f: HunkFields, w2: string, w3: string): string {
    "@@" + w1 + "-" + f.oldStart + "," + f.oldCount + w2 + "+" + f.newStart + "," + f.newCount + w3 + "@@"
  }

  /** The constraints the pattern puts on its pieces. */
  predicate WellFormedPieces(w1: string, f: HunkFields, w2: string, w3: string) {
    && |w1| > 0 && AllRegexSpace(w1)
    && |w2| > 0 && AllRegexSpace(w2)
    && |w3| > 0 && AllRegexSpace(w3)
    && |f.oldStart| > 0 && AllDigits(f.oldStart) && AllDigits(f.oldCount)
    && |f.newStart| > 0 && AllDigits(f.newStart) && AllDigits(f.newCount)
  }

  lemma {:induction false} LeadDigitsOf(a: string, y: string)
    requires AllDigits(a)
    requires |y| == 0 || !IsDigit(y[0])
    ensures LeadDigits(a + y) == |a|
    decreases |a|
  {
    if |a| > 0 {
      assert (a + y)[1..] == a[1..] + y;
      LeadDigitsOf(a[1..], y);
    }
  }

  lemma {:induction false} LeadSpacesOf(w: string, y: string)
    requires AllRegexSpace(w)
    requires |y| == 0 || !IsRegexSpace(y[0])
    ensures LeadSpaces(w + y) == |w|
    decreases |w|
  {
    if |w| > 0 {
      assert (w + y)[1..] == w[1..] + y;
      LeadSpacesOf(w[1..], y);
    }
  }

  lemma SpaceThenOf(w: string, ch: char, y: string)
    requires |w| > 0 && AllRegexSpace(w) && !IsRegexSpace(ch)
    ensures SpaceThen(w + [ch] + y, ch) == Some(y)
  {
    var t := w + [ch] + y;
    LeadSpacesOf(w, [ch] + y);
    assert t == w + ([ch] + y);
    assert t[|w| + 1..] == y;
  }

  lemma ScanNumbersOf(a: string, b: string, y: string)
    requires |a| > 0 && AllDigits(a) && AllDigits(b)
    requires |y| == 0 || !IsDigit(y[0])
    ensures ScanNumbers(a + "," + b + y) == Some(Numbers(a, b, y))
  {
    var t := a + "," + b + y;
    LeadDigitsOf(a, "," + b + y);
    assert t == a + ("," + b + y);
    assert t[..|a|] == a;
    var u := t[|a| + 1..];
    assert u == b + y;
    LeadDigitsOf(b, y);
    assert u[..|b|] == b && u[|b|..] == y;
  }

  /** The header text with its pieces grouped the way the matcher consumes them. */
  lemma HeaderTextShape(w1: string, f: HunkFields, w2: string, w3: string, rest: string)
    ensures HeaderText(w1, f, w2, w3) + rest
      == "@@" + (w1 + ['-'] + (f.oldStart + "," + f.oldCount + (w2 + ['+'] + (f.newStart + "," + f.newCount + (w3 + ['@'] + ("@" + rest))))))
  {
  }

  lemma ScanNewSideOf(w2: string, c: string, d: string, w3: string, rest: string)
    requires |w2| > 0 && AllRegexSpace(w2) && |w3| > 0 && AllRegexSpace(w3)
    requires |c| > 0 && AllDigits(c) && AllDigits(d)
    ensures ScanNewSide(w2 + ['+'] + (c + "," + d + (w3 + ['@'] + ("@" + rest)))) == Some(Numbers(c, d, w3 + ['@'] + ("@" + rest)))
  {
    var t4 := w3 + ['@'] + ("@" + rest);
    SpaceThenOf(w2, '+', c + "," + d + t4);
    assert c + "," + d + t4 == c + "," + d + t4;
    ScanNumbersOf(c, d, t4);
    SpaceThenOf(w3, '@', "@" + rest);
  }

  /** Completeness: a text that starts with the header text of well-formed
      pieces is matched, with exactly those captures. */
  lemma MatchPrefixComplete(w1: string, f: HunkFields, w2: string, w3: string, rest: string)
    requires WellFormedPieces(w1, f, w2, w3)
    ensures MatchPrefix(HeaderText(w1, f, w2, w3) + rest) == Some(f)
  {
    var t4 := w3 + ['@'] + ("@" + rest);
    var t2 := w2 + ['+'] + (f.newStart + "," + f.newCount + t4);
    var t1 := f.oldStart + "," + f.oldCount + t2;
    var t0 := w1 + ['-'] + t1;
    var t := "@@" + t0;
    HeaderTextShape(w1, f, w2, w3, rest);
    assert t[2..] == t0;
    SpaceThenOf(w1, '-', t1);
    ScanNumbersOf(f.oldStart, f.oldCount, t2);
    ScanNewSideOf(w2, f.newStart, f.newCount, w3, rest);
  }

  /** The pieces a successful new-side scan consumed. */
  lemma ScanNewSideParts(t: string) returns (w2: string, w3: string, rest: string)
    requires ScanNewSide(t).Some?
    ensures var news := ScanNewSide(t).value;
      && |w2| > 0 && AllRegexSpace(w2) && |w3| > 0 && AllRegexSpace(w3)
      && t == w2 + ['+'] + (news.first + "," + news.second + (w3 + ['@'] + ("@" + rest)))
  {
    var r2 := SpaceThen(t, '+').value;
    var news := ScanNumbers(r2).value;
    assert ScanNewSide(t) == Some(news);
    assert ScanClose(news.rest);
    var r3 := SpaceThen(news.rest, '@').value;
    w2 := t[..LeadSpaces(t)];
    w3 := news.rest[..LeadSpaces(news.rest)];
    rest := r3[1..];
    HeadTail(r3);
    Regroup(t, w2, r2, news.first, news.second, news.rest, w3, rest);
  }

  lemma HeadTail(s: string)
    requires |s| > 0
    ensures s == [s[0]] + s[1..]
  {
  }

  lemma PrefixRest(s: string, p: string)
    requires HasPrefix(s, p)
    ensures s == p + s[|p|..]
  {
  }

  lemma Regroup(t: string, w2: string, r2: string, c: string, d: string, r4: string, w3: string, rest: string)
    requires t == w2 + ['+'] + r2
    requires r2 == c + "," + d + r4
    requires r4 == w3 + ['@'] + ("@" + rest)
    ensures t == w2 + ['+'] + (c + "," + d + (w3 + ['@'] + ("@" + rest)))
  {
  }

  lemma RegroupOld(t: string, t0: string, w1: string, r1: string, a: string, b: string, r2: string,
                   w2: string, c: string, d: string, w3: string, rest: string)
    requires t == "@@" + t0
    requires t0 == w1 + ['-'] + r1
    requires r1 == a + "," + b + r2
    requires r2 == w2 + ['+'] + (c + "," + d + (w3 + ['@'] + ("@" + rest)))
    ensures t == "@@" + (w1 + ['-'] + (a + "," + b + (w2 + ['+'] + (c + "," + d + (w3 + ['@'] + ("@" + rest))))))
  {
  }

  /** Soundness: a match means the text starts with the header text of
      well-formed pieces whose captures are the ones returned. */
  lemma MatchPrefixSound(t: string)
    requires MatchPrefix(t).Some?
    ensures exists w1, w2, w3 {:trigger HeaderText(w1, MatchPrefix(t).value, w2, w3)} ::
      && WellFormedPieces(w1, MatchPrefix(t).value, w2, w3)
      && HasPrefix(t, HeaderText(w1, MatchPrefix(t).value, w2, w3))
  {
    var f := MatchPrefix(t).value;
    var t0 := t[2..];
    var r1 := SpaceThen(t0, '-').value;
    var olds := ScanNumbers(r1).value;
    var news := ScanNewSide(olds.rest).value;
    assert f == HunkFields(olds.first, olds.second, news.first, news.second);
    var w1 := t0[..LeadSpaces(t0)];
    var w2, w3, rest := ScanNewSideParts(olds.rest);
    assert |news.first| > 0 && AllDigits(news.first) && AllDigits(news.second);
    assert WellFormedPieces(w1, f, w2, w3);
    PrefixRest(t, "@@");
    HeaderTextShape(w1, f, w2, w3, rest);
    RegroupOld(t, t0, w1, r1, f.oldStart, f.oldCount, olds.rest, w2, f.newStart, f.newCount, w3, rest);
    assert t == HeaderText(w1, f, w2, w3) + rest;
  }

  /** The matcher finds a match exactly when there is one at or after `i`. */
  lemma {:induction false} FindFromExists(s: string, i: nat)
    requires i <= |s|
    ensures FindFrom(s, i).Some? <==> exists k :: i <= k <= |s| && MatchAt(s, k).Some?
    decreases |s| - i
  {
    if MatchAt(s, i).Some? {
      assert i <= i <= |s| && MatchAt(s, i).Some?;
    } else if i < |s| {
      FindFromExists(s, i + 1);
      if k :| i <= k <= |s| && MatchAt(s, k).Some? {
        assert k != i;
      }
    }
  }

  /** What it finds is the match at the leftmost such position. */
  lemma {:induction false} FindFromFirst(s: string, i: nat)
    requires i <= |s| && FindFrom(s, i).Some?
    ensures exists k :: (i <= k <= |s| && MatchAt(s, k) == FindFrom(s, i)
        && forall k' :: i <= k' < k ==> MatchAt(s, k').None?)
    decreases |s| - i
  {
    if MatchAt(s, i).Some? {
      assert MatchAt(s, i) == FindFrom(s, i);
    } else {
      FindFromFirst(s, i + 1);
      var k :| i + 1 <= k <= |s| && MatchAt(s, k) == FindFrom(s, i + 1)
        && forall k' :: i + 1 <= k' < k ==> MatchAt(s, k').None?;
      assert forall k' :: i <= k' < k ==> MatchAt(s, k').None?;
    }
  }

  /** The matcher returns the match at the leftmost position where one exists. */
  lemma FindFromLeftmost(s: string, i: nat)
    requires i <= |s|
    ensures FindFrom(s, i).Some? <==> exists k :: i <= k <= |s| && MatchAt(s, k).Some?
    ensures FindFrom(s, i).Some? ==>
      exists k :: (i <= k <= |s| && MatchAt(s, k) == FindFrom(s, i)
        && forall k' :: i <= k' < k ==> MatchAt(s, k').None?)
  {
    FindFromExists(s, i);
    if FindFrom(s, i).Some? {
      FindFromFirst(s, i);
    }
  }

  /** Every match contains a comma. */
  lemma MatchNeedsComma(t: string)
    ensures MatchPrefix(t).Some? ==> ',' in t
  {
    if MatchPrefix(t).Some? {
      MatchPrefixSound(t);
      var f := MatchPrefix(t).value;
      var w1, w2, w3 :| WellFormedPieces(w1, f, w2, w3) && HasPrefix(t, HeaderText(w1, f, w2, w3));
      var k := 2 + |w1| + 1 + |f.oldStart|;
      assert HeaderText(w1, f, w2, w3)[k] == ',';
      assert t[k] == ',';
    }
  }

  /** A line with no comma never matches: headers such as `@@ -3 +3 @@`, which
      leave out the counts, are not recognised. */
  lemma NoCommaNoHeader(line: string)
    requires ',' !in line
    ensures FindHeader(line) == None
  {
    forall k | 0 <= k <= |line|
      ensures MatchAt(line, k).None?
    {
      MatchNeedsComma(line[k..]);
      assert forall c :: c in line[k..] ==> c in line;
    }
    FindFromLeftmost(line, 0);
  }

  /** The header as diff tools print it, `@@ -s,c +s',c' @@`. */
  function StandardHeader(a: string, b: string, c: string, d: string): string {
    "@@ -" + a + "," + b + " +" + c + "," + d + " @@"
  }

  /** The header the diff tools print is recognised with its four numbers. */
  lemma StandardHeaderMatches(a: string, b: string, c: string, d: string)
    requires |a| > 0 && AllDigits(a) && AllDigits(b) && |c| > 0 && AllDigits(c) && AllDigits(d)
    ensures FindHeader(StandardHeader(a, b, c, d)) == Some(HunkFields(a, b, c, d))
  {
    var f := HunkFields(a, b, c, d);
    var h := StandardHeader(a, b, c, d);
    assert h == HeaderText(" ", f, " ", " ") + "";
    MatchPrefixComplete(" ", f, " ", " ", "");
    assert h[0..] == h;
  }
}
