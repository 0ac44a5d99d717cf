/** The pure helpers of internal/utils/utils.go: URI to path, the nil-slice
    guard used before publishing, and rule-name prettifying. */
module Utils {
  import opened Wrappers
  import opened Text
  import opened Protocol

  const FileScheme: string := "file://"

  /** Removes one leading `file://`; anything else is returned unchanged. */
  function URIToPath(uri: string): (r: string)
    ensures HasPrefix(uri, FileScheme) ==> FileScheme + r == uri
    ensures !HasPrefix(uri, FileScheme) ==> r == uri
  {
    TrimPrefix(uri, FileScheme)
  }

  /** Never yields the nil slice; a non-nil slice is returned as it is. */
  function EnsureDiagnosticsArray(diagnostics: DiagnosticSlice): (r: DiagnosticSlice)
    ensures r.Some?
    ensures diagnostics.Some? ==> r == diagnostics
    ensures Items(r) == Items(diagnostics)
  {
    if diagnostics.None? then Some([]) else diagnostics
  }

  /** `s` with every occurrence of `a` replaced by `b`. */
  function ReplaceChar(s: string, a: char, b: char): (r: string)
    ensures |r| == |s|
    ensures forall i :: 0 <= i < |s| ==> r[i] == (if s[i] == a then b else s[i])
  {
    seq(|s|, i requires 0 <= i < |s| => if s[i] == a then b else s[i])
  }

  /** Trims `_` at both ends, turns every inner `_` into a space and upper-cases
      the first character, leaving the others as they are. */
  function SnakeCaseToHumanReadable(s: string): (r: string)
  {
    var t := TrimChar(s, '_');
    if t == "" then ""
    else
      var parts := Split(t, '_');
      var first := parts[0];
      Join([[ToUpper(first[0])] + first[1..]] + parts[1..], ' ')
  }

  /** Splitting on `a` and joining with `b` replaces each `a` by `b`. */
  lemma {:induction false} JoinSplitReplaces(s: string, a: char, b: char)
    ensures Join(Split(s, a), b) == ReplaceChar(s, a, b)
    decreases |s|
  {
    if |s| > 0 {
      var rest := Split(s[1..], a);
      JoinSplitReplaces(s[1..], a, b);
      var tail := ReplaceChar(s[1..], a, b);
      assert ReplaceChar(s, a, b) == [if s[0] == a then b else s[0]] + tail;
      if s[0] == a {
        assert Split(s, a) == [""] + rest;
        assert ([""] + rest)[1..] == rest;
      } else if |rest| > 1 {
        var r := Split(s, a);
        assert r[1..] == rest[1..];
        assert Join(rest, b) == rest[0] + [b] + Join(rest[1..], b);
      }
    }
  }

  /** Replacing the first character of the first piece replaces the first
      character of the joined text. */
  lemma JoinReplaceHead(parts: seq<string>, c: char, sep: char)
    requires |parts| > 0 && |parts[0]| > 0
    ensures Join([[c] + parts[0][1..]] + parts[1..], sep) == [c] + Join(parts, sep)[1..]
  {
    var p := [[c] + parts[0][1..]] + parts[1..];
    assert p[1..] == parts[1..];
    if |parts| > 1 {
      assert Join(parts, sep) == parts[0] + [sep] + Join(parts[1..], sep);
      assert Join(p, sep) == p[0] + [sep] + Join(p[1..], sep);
    }
  }

  /** The character-level meaning of SnakeCaseToHumanReadable: with `t` the
      input trimmed of `_`, the result is as long as `t`, starts with `t`'s
      first character upper-cased, and elsewhere has a space where `t` has `_`
      and `t`'s own character otherwise. */
  lemma SnakeCaseToHumanReadableChars(s: string)
    ensures var t := TrimChar(s, '_');
      var r := SnakeCaseToHumanReadable(s);
      && |r| == |t|
      && (|t| > 0 ==> r[0] == ToUpper(t[0]))
      && (forall i :: 0 < i < |t| ==> r[i] == (if t[i] == '_' then ' ' else t[i]))
  {
    var t := TrimChar(s, '_');
    if t != "" {
      var parts := Split(t, '_');
      JoinSplitReplaces(t, '_', ' ');
      assert |parts[0]| > 0 by {
        assert t[0] != '_';
        if |t| == 1 {
          assert parts == [[t[0]] + Split(t[1..], '_')[0]] + Split(t[1..], '_')[1..];
        }
      }
      JoinReplaceHead(parts, ToUpper(parts[0][0]), ' ');
      assert parts[0][0] == t[0] by {
        assert t == [t[0]] + t[1..];
      }
    }
  }

  /** The result never contains `_`, and is empty exactly when the input
      consists of `_` only. */
  lemma SnakeCaseToHumanReadableNoUnderscore(s: string)
    ensures '_' !in SnakeCaseToHumanReadable(s)
    ensures SnakeCaseToHumanReadable(s) == "" <==> (forall i :: 0 <= i < |s| ==> s[i] == '_')
  {
    SnakeCaseToHumanReadableChars(s);
    var t := TrimChar(s, '_');
    var r := SnakeCaseToHumanReadable(s);
    if |t| > 0 {
      assert t[0] != '_';
      assert r[0] != '_';
    }
    var l := TrimLeftChar(s, '_');
    if forall i :: 0 <= i < |s| ==> s[i] == '_' {
      assert forall k :: |s| - |l| <= k < |s| ==> s[k] == '_';
    }
  }
}
