/** How the two unified-diff walkers of the server (the formatter's diff
    applier and php-cs-fixer's diagnostic extractor) read one line of a diff.
    Both test the same things in the same order: a file header (`---`/`+++`),
    then a hunk header (`@@`), then an empty line, then the first character. */
module DiffLines {
  import opened Wrappers
  import opened Text
  import opened HunkHeader

  predicate IsFileHeader(line: string) {
    HasPrefix(line, "---") || HasPrefix(line, "+++")
  }

  /** What a diff line is taken for. A hunk header carries the captures of the
      header pattern, or `None` when the line starts with `@@` but does not
      match. The text of a body line is the line without its first character. */
  datatype LineKind =
    | FileHeader
    | HunkLine(fields: Option<HunkFields>)
    | Blank
    | Context(text: string)
    | Removal(text: string)
    | Addition(text: string)
    | Unknown

  /** Reads one line. `headersAllowed` says whether `---`/`+++` lines are
      file headers at this point of the diff: the server's walkers allow them
      everywhere. */
  function Classify(line: string, headersAllowed: bool): (k: LineKind)
    ensures k.FileHeader? <==> headersAllowed && IsFileHeader(line)
    ensures k.HunkLine? <==> !(headersAllowed && IsFileHeader(line)) && HasPrefix(line, "@@")
    ensures k.HunkLine? ==> k.fields == FindHeader(line)
    ensures k.Blank? <==> line == ""
    ensures k.Context? ==> line == " " + k.text
    ensures k.Removal? ==> line == "-" + k.text
    ensures k.Addition? ==> line == "+" + k.text
    ensures k.Unknown? ==> |line| > 0 && line[0] != ' ' && line[0] != '-' && line[0] != '+'
  {
    if headersAllowed && IsFileHeader(line) then FileHeader
    else if HasPrefix(line, "@@") then HunkLine(FindHeader(line))
    else if |line| == 0 then Blank
    else if line[0] == ' ' then Context(line[1..])
    else if line[0] == '-' then Removal(line[1..])
    else if line[0] == '+' then Addition(line[1..])
    else Unknown
  }

  /** A prefix fixes the first character. */
  lemma PrefixHead(s: string, p: string)
    ensures HasPrefix(s, p) && |p| > 0 ==> |s| > 0 && s[0] == p[0]
  {
  }

  /** A prefix fixes the first three characters. */
  lemma PrefixThree(s: string, p: string)
    ensures HasPrefix(s, p) && |p| == 3 ==> |s| >= 3 && s[0] == p[0] && s[1] == p[1] && s[2] == p[2]
  {
  }

  /** A context line is always read back as context. */
  lemma ClassifyContext(x: string, headersAllowed: bool)
    ensures Classify(" " + x, headersAllowed) == Context(x)
  {
    var line := " " + x;
    PrefixHead(line, "---");
    PrefixHead(line, "+++");
    PrefixHead(line, "@@");
    assert line[1..] == x;
  }

  /** A removal line is read back as a removal unless its text starts with
      `--` while file headers are allowed: then it is taken for a `---` header. */
  lemma ClassifyRemoval(x: string, headersAllowed: bool)
    ensures Classify("-" + x, headersAllowed)
      == if headersAllowed && HasPrefix(x, "--") then FileHeader else Removal(x)
  {
    var line := "-" + x;
    PrefixHead(line, "+++");
    PrefixHead(line, "@@");
    PrefixThree(line, "---");
    assert line[1..] == x;
    if |x| >= 2 {
      assert line[..3] == "-" + x[..2];
    }
  }

  /** An addition line is read back as an addition unless its text starts
      with `++` while file headers are allowed. */
  lemma ClassifyAddition(x: string, headersAllowed: bool)
    ensures Classify("+" + x, headersAllowed)
      == if headersAllowed && HasPrefix(x, "++") then FileHeader else Addition(x)
  {
    var line := "+" + x;
    PrefixHead(line, "---");
    PrefixHead(line, "@@");
    PrefixThree(line, "+++");
    assert line[1..] == x;
    if |x| >= 2 {
      assert line[..3] == "+" + x[..2];
    }
  }
}
