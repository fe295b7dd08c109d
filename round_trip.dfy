/**
 * Saving and loading again. Text without `\r` survives every EOL mode, up to
 * the `\n` that loading puts after the last line; a `\r` already in the text
 * does not survive.
 */
module RoundTrip {
  import opened Wrappers
  import opened LineEndings
  import opened LineReader

  /** `s` with a final `\n` added when it is non-empty and does not end in one. */
  function Terminated(s: seq<char>): (r: seq<char>)
    ensures s <= r && |r| <= |s| + 1
  {
    if s == [] || s[|s| - 1] == '\n' then s else s + "\n"
  }

  /** `s` split at its first newline, for text in which every line ends in `\n` or at the end. */
  lemma SplitAtFirstLf(s: seq<char>) returns (line: seq<char>, rest: seq<char>)
    requires '\r' !in s && '\n' in s
    ensures s == line + "\n" + rest && NoTerminator(line) && '\r' !in rest
    ensures Lines(s) == [line] + Lines(rest)
  {
    var i := LineEnd(s);
    assert i < |s| by {
      var j :| 0 <= j < |s| && s[j] == '\n';
      assert j >= i;
    }
    line, rest := s[..i], s[i + 1..];
    assert s == line + "\n" + rest;
    LinesOfRead(s, Read(line, Lf, rest));
  }

  /** The terminator mode 1 or mode 2 writes for a newline. */
  function WrittenEnding(mode: int): Ending {
    if mode == EolR then Cr else CrLf
  }

  /** Transforming a text whose first line ends in a newline writes that line, then the mode's terminator. */
  lemma TransformAfterLine(line: seq<char>, rest: seq<char>, mode: int)
    requires '\n' !in line && (mode == EolR || mode == EolRN)
    ensures Transform(line + "\n" + rest, mode) == line + EndingChars(WrittenEnding(mode)) + Transform(rest, mode)
  {
    var rep := EndingChars(WrittenEnding(mode));
    assert rep == if mode == EolR then "\r" else "\r\n";
    var s := line + "\n" + rest;
    assert s == line + ("\n" + rest);
    ReplaceLfAppend(line, "\n" + rest, rep);
    assert ("\n" + rest)[1..] == rest;
  }

  /** On text with no `\r`, the transformed text splits into the same lines as the original. */
  lemma {:induction false} LinesOfTransform(s: seq<char>, mode: int)
    requires '\r' !in s
    ensures Lines(Transform(s, mode)) == Lines(s)
    decreases |s|
  {
    if (mode != EolR && mode != EolRN) || '\n' !in s {
      return;
    }
    var line, rest := SplitAtFirstLf(s);
    TransformAfterLine(line, rest, mode);
    var t := Transform(rest, mode);
    assert mode == EolR ==> t == [] || t[0] != '\n';
    LinesOfRead(Transform(s, mode), Read(line, WrittenEnding(mode), t));
    LinesOfTransform(rest, mode);
  }

  /** A terminator-free text is read as one line. */
  lemma LinesOfOneLine(s: seq<char>)
    requires s != [] && NoTerminator(s)
    ensures Lines(s) == [s]
  {
    LinesOfRead(s, Read(s, Eof, []));
  }

  lemma JoinOne(a: seq<char>)
    ensures Join([a]) == a + "\n"
  {
    assert [a][..0] == [];
  }

  /** Terminating the text after a first full line only touches the remainder. */
  lemma TerminatedAfterLine(line: seq<char>, rest: seq<char>)
    ensures Terminated(line + "\n" + rest) == line + "\n" + Terminated(rest)
  {
    var s := line + "\n" + rest;
    if rest != [] {
      assert s[|s| - 1] == rest[|rest| - 1];
      assert s + "\n" == line + "\n" + (rest + "\n");
    } else {
      assert s == line + "\n";
    }
  }

  /** On text with no `\r`, loading returns the text with its last line terminated. */
  lemma {:induction false} JoinLinesOfLfText(s: seq<char>)
    requires '\r' !in s
    ensures Join(Lines(s)) == Terminated(s)
    decreases |s|
  {
    if s == [] {
      assert Lines(s) == [];
    } else if '\n' !in s {
      LinesOfOneLine(s);
      JoinOne(s);
    } else {
      var line, rest := SplitAtFirstLf(s);
      JoinCons(line, Lines(rest));
      JoinLinesOfLfText(rest);
      TerminatedAfterLine(line, rest);
    }
  }

  /**
   * The round trip: text with no `\r`, saved in any EOL mode and loaded back
   * without a fault, comes back unchanged except for a final `\n`.
   */
  lemma SaveThenLoad(text: seq<char>, mode: int)
    requires '\r' !in text
    ensures Accumulated(Transform(text, mode), NoFault) == Terminated(text)
    ensures text != [] && text[|text| - 1] == '\n' ==> Accumulated(Transform(text, mode), NoFault) == text
  {
    LinesOfTransform(text, mode);
    JoinLinesOfLfText(text);
  }

  /** The text of the lines `a` and `b`. */
  lemma JoinTwo(a: seq<char>, b: seq<char>)
    ensures Join([a, b]) == a + "\n" + b + "\n"
  {
    assert [a, b][..1] == [a];
    JoinOne(a);
  }

  /** Two lines `a` and `b` read back from a file holding `a`, then `ending`, then `b`. */
  lemma ReadTwoLines(a: seq<char>, ending: Ending, b: seq<char>)
    requires NoTerminator(a) && NoTerminator(b) && b != [] && ending != Eof
    ensures Accumulated(a + EndingChars(ending) + b, NoFault) == a + "\n" + b + "\n"
  {
    LinesOfRead(a + EndingChars(ending) + b, Read(a, ending, b));
    LinesOfOneLine(b);
    assert Lines(a + EndingChars(ending) + b) == [a, b];
    JoinTwo(a, b);
  }

  /**
   * Two lines saved with `\r\n` are written with a `\r\n` between them and
   * load back with a `\n` after each: `"a\nb"` is written as `"a\r\nb"` and
   * loads back as `"a\nb\n"`.
   */
  lemma CrLfTwoLines(a: seq<char>, b: seq<char>)
    requires NoTerminator(a) && NoTerminator(b) && b != []
    ensures Transform(a + "\n" + b, EolRN) == a + "\r\n" + b
    ensures Accumulated(a + "\r\n" + b, NoFault) == a + "\n" + b + "\n"
  {
    TransformAfterLine(a, b, EolRN);
    ReadTwoLines(a, CrLf, b);
  }

  /** The empty line that a doubled `\r\r\n` terminator leaves between `a` and `b`. */
  lemma ReadDoubledTerminator(a: seq<char>, b: seq<char>)
    requires NoTerminator(a) && NoTerminator(b) && b != []
    ensures Accumulated(a + "\r" + "\r\n" + b, NoFault) == a + "\n" + "\n" + b + "\n"
  {
    var tail := "\r\n" + b;
    assert a + "\r" + "\r\n" + b == a + "\r" + tail;
    LinesOfRead(a + "\r" + tail, Read(a, Cr, tail));
    LinesOfRead(tail, Read([], CrLf, b));
    LinesOfOneLine(b);
    var x := a + "\r" + tail;
    assert Lines(x) == [a] + [[], b];
    JoinCons(a, [[], b]);
    JoinTwo([], b);
    Regroup(a, b);
  }

  /** Concatenation facts kept out of `ReadDoubledTerminator`'s proof context. */
  lemma Regroup(a: seq<char>, b: seq<char>)
    ensures [] + "\n" + b + "\n" == "\n" + b + "\n"
    ensures a + "\n" + ("\n" + b + "\n") == a + "\n" + "\n" + b + "\n"
  {
  }

  /**
   * A `\r` already in the text is not kept. Saved in mode 0, `a\rb` loads
   * back as two lines `a\nb\n`. Saved in mode 2, `a\r\nb` is written as
   * `a\r\r\nb` and loads back with an empty line between `a` and `b`
   * (`a\n\nb\n`).
   */
  lemma CarriageReturnIsMangled(a: seq<char>, b: seq<char>)
    requires NoTerminator(a) && NoTerminator(b) && b != []
    ensures Accumulated(Transform(a + "\r" + b, EolN), NoFault) == a + "\n" + b + "\n"
    ensures Transform(a + "\r\n" + b, EolRN) == a + "\r" + "\r\n" + b
    ensures Accumulated(a + "\r" + "\r\n" + b, NoFault) == a + "\n" + "\n" + b + "\n"
  {
    ReadTwoLines(a, Cr, b);
    assert a + "\r\n" + b == (a + "\r") + "\n" + b;
    TransformAfterLine(a + "\r", b, EolRN);
    ReadDoubledTerminator(a, b);
  }
}
