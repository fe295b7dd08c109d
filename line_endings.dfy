/**
 * The line-ending transform that `save()` applies to the editor text before
 * writing it: the preference `prefsEOL` selects one of three conventions.
 */
module LineEndings {

  /** Keep `\n` as it is. */
  const EolN: int := 0
  /** Write every `\n` as `\r`. */
  const EolR: int := 1
  /** Write every `\n` as `\r\n`. */
  const EolRN: int := 2

  /** Number of newline characters in `s`. */
  function LfCount(s: seq<char>): nat {
    multiset(s)['\n']
  }

  /**
   * `s.replaceAll("\n", rep)` for a replacement that holds neither `$` nor
   * `\`, so that Java takes it literally: every newline becomes `rep`.
   */
  function ReplaceLf(s: seq<char>, rep: seq<char>): (r: seq<char>)
    ensures '\n' !in s ==> r == s
  {
    if s == [] then []
    else (if s[0] == '\n' then rep else [s[0]]) + ReplaceLf(s[1..], rep)
  }

  /** With a two-character replacement the text grows by one character per newline. */
  lemma {:induction false} ReplaceLfByPair(s: seq<char>, rep: seq<char>)
    requires |rep| == 2
    ensures |ReplaceLf(s, rep)| == |s| + LfCount(s)
  {
    if s != [] {
      assert s == [s[0]] + s[1..];
      ReplaceLfByPair(s[1..], rep);
    }
  }

  /** Replacing newlines commutes with concatenation. */
  lemma {:induction false} ReplaceLfAppend(a: seq<char>, b: seq<char>, rep: seq<char>)
    ensures ReplaceLf(a + b, rep) == ReplaceLf(a, rep) + ReplaceLf(b, rep)
  {
    if a == [] {
      assert a + b == b;
    } else {
      assert (a + b)[1..] == a[1..] + b;
      ReplaceLfAppend(a[1..], b, rep);
    }
  }

  /** With a one-character replacement the text keeps its length and only newlines change. */
  lemma {:induction false} ReplaceLfByChar(s: seq<char>, c: char)
    ensures |ReplaceLf(s, [c])| == |s|
    ensures forall i :: 0 <= i < |s| ==> ReplaceLf(s, [c])[i] == if s[i] == '\n' then c else s[i]
  {
    if s != [] {
      ReplaceLfByChar(s[1..], c);
      var r := ReplaceLf(s, [c]);
      forall i | 0 <= i < |s|
        ensures r[i] == if s[i] == '\n' then c else s[i]
      {
        if i > 0 {
          assert r[i] == ReplaceLf(s[1..], [c])[i - 1];
        }
      }
    }
  }

  /**
   * The text `save()` writes for EOL mode `mode`. Modes 0, 1, 2 are the three
   * cases of the switch; the switch has no default, so any other value leaves
   * the text as it is, like mode 0.
   */
  function Transform(text: seq<char>, mode: int): (r: seq<char>)
    ensures mode != EolR && mode != EolRN ==> r == text
    ensures mode == EolR ==> |r| == |text|
    ensures mode == EolR ==> forall i :: 0 <= i < |text| ==> r[i] == if text[i] == '\n' then '\r' else text[i]
    ensures mode == EolR ==> '\n' !in r
    ensures mode == EolRN ==> |r| == |text| + LfCount(text)
  {
    if mode == EolR then
      ReplaceLfByChar(text, '\r');
      ReplaceLf(text, "\r")
    else if mode == EolRN then
      ReplaceLfByPair(text, "\r\n");
      ReplaceLf(text, "\r\n")
    else
      text
  }

  /** Reading `\r` back as a newline: the inverse of mode 1 on text without `\r`. */
  function CrAsLf(s: seq<char>): (r: seq<char>)
    ensures |r| == |s|
  {
    seq(|s|, i requires 0 <= i < |s| => if s[i] == '\r' then '\n' else s[i])
  }

  /** Reading `\r\n` back as one newline, scanning left to right: the inverse of mode 2. */
  function CrLfAsLf(s: seq<char>): (r: seq<char>)
    ensures |r| <= |s|
  {
    if |s| >= 2 && s[0] == '\r' && s[1] == '\n' then ['\n'] + CrLfAsLf(s[2..])
    else if s == [] then []
    else [s[0]] + CrLfAsLf(s[1..])
  }

  /** Mode 1 changes nothing but newlines: on text with no `\r` it can be undone. */
  lemma CrModeIsReversible(text: seq<char>)
    requires '\r' !in text
    ensures CrAsLf(Transform(text, EolR)) == text
  {
    var r := Transform(text, EolR);
    assert forall i :: 0 <= i < |text| ==> CrAsLf(r)[i] == text[i];
  }

  /** Reading `\r\n` back as `\n` undoes replacing every `\n` by `\r\n`. */
  lemma {:induction false} CrLfAsLfUndoesReplace(s: seq<char>)
    ensures CrLfAsLf(ReplaceLf(s, "\r\n")) == s
  {
    if s != [] {
      var rest := ReplaceLf(s[1..], "\r\n");
      CrLfAsLfUndoesReplace(s[1..]);
      if s[0] == '\n' {
        var w := "\r\n" + rest;
        assert ReplaceLf(s, "\r\n") == w;
        assert w[2..] == rest;
        assert CrLfAsLf(w) == ['\n'] + CrLfAsLf(rest);
      } else {
        var w := [s[0]] + rest;
        assert ReplaceLf(s, "\r\n") == w;
        assert w[1..] == rest;
        // the replaced remainder never starts with a lone newline
        assert rest != [] ==> rest[0] != '\n';
        assert CrLfAsLf(w) == [s[0]] + CrLfAsLf(rest);
      }
      assert s == [s[0]] + s[1..];
    }
  }

  /**
   * Mode 2 changes nothing but newlines: every text, even one that already
   * holds `\r`, is recovered by reading `\r\n` back as `\n`.
   */
  lemma CrLfModeIsReversible(text: seq<char>)
    ensures CrLfAsLf(Transform(text, EolRN)) == text
  {
    CrLfAsLfUndoesReplace(text);
  }
}
