/** The text edit a formatting reply carries (internal/server/server.go): one
    edit replacing the whole document, from its first position to the end of
    its last line. Positions count characters of the last line, and the
    line count comes from splitting on `\n`, both cast to `uint32`. */
module WholeDocument {
  import opened Wrappers
  import opened Text
  import opened Protocol

  /** The edit replacing all of `content` by `formatted`. */
  function WholeDocumentEdit(content: string, formatted: string): (e: TextEdit)
    ensures e.newText == formatted
    ensures e.range.start == Position(0, 0)
    ensures var lines := Split(content, '\n');
      e.range.end == Position(ToUint32(|lines| - 1), ToUint32(|lines[|lines| - 1]|))
  {
    var lines := Split(content, '\n');
    var endLine := ToUint32(|lines| - 1);
    var endCharacter := if |lines| > 0 then ToUint32(|lines[|lines| - 1]|) else 0;
    TextEdit(Range(Position(0, 0), Position(endLine, endCharacter)), formatted)
  }

  /** Where a position falls in a text, when it is inside it: the characters
      of the lines before it, their line breaks, and its character. */
  function Offset(text: string, p: Position): (r: Option<nat>)
    ensures r.Some? ==> r.value <= |text|
  {
    var lines := Split(text, '\n');
    if p.line < |lines| && p.character <= |lines[p.line]| then
      OffsetInside(lines, p.line);
      JoinSplit(text, '\n');
      Some(LinesLength(lines[..p.line]) + p.character)
    else None
  }

  lemma {:induction false} OffsetInside(lines: seq<string>, k: nat)
    requires k < |lines|
    ensures LinesLength(lines[..k]) + |lines[k]| <= |Join(lines, '\n')|
    decreases k
  {
    if k > 0 {
      OffsetInside(lines[1..], k - 1);
      assert lines[..k] == [lines[0]] + lines[1..][..k - 1];
      assert lines[1..][k - 1] == lines[k];
    }
  }

  /** The text after applying an edit, when both ends are inside the text and
      in order. */
  function ApplyEdit(text: string, e: TextEdit): Option<string> {
    var start := Offset(text, e.range.start);
    var end := Offset(text, e.range.end);
    if start.Some? && end.Some? && start.value <= end.value then
      Some(text[..start.value] + e.newText + text[end.value..])
    else None
  }

  /** For any document shorter than 2^32 characters, applying the reply's edit
      yields exactly the formatted text. */
  lemma WholeEditReplaces(content: string, formatted: string)
    requires |content| < TwoTo32
    ensures ApplyEdit(content, WholeDocumentEdit(content, formatted)) == Some(formatted)
  {
    var lines := Split(content, '\n');
    var n := |lines|;
    SplitCount(content, '\n');
    JoinSplit(content, '\n');
    JoinLength(lines, '\n');
    assert |lines[n - 1]| <= |content|;
    var e := WholeDocumentEdit(content, formatted);
    assert e.range.end == Position(n - 1, |lines[n - 1]|);
    assert lines[..0] == [];
    assert Offset(content, e.range.start) == Some(0);
    assert Offset(content, e.range.end) == Some(|content|);
    assert content[..0] + formatted + content[|content|..] == formatted;
  }
}
