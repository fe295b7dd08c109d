/**
 * The load side: `java.io.BufferedReader.readLine` splits the file into
 * lines, and `load()` (and `showLicense()`) rebuild the text with
 * `content += line + "\n"`, so every line read, the last included, ends
 * in `\n`.
 */
module LineReader {
  import opened Wrappers

  /** `readLine` ends a line at `\n`, at `\r`, or at `\r\n` taken together. */
  predicate IsTerminator(c: char) {
    c == '\n' || c == '\r'
  }

  predicate NoTerminator(s: seq<char>) {
    '\n' !in s && '\r' !in s
  }

  /** Index of the first line terminator in `s`, or `|s|` when there is none. */
  function LineEnd(s: seq<char>): (i: nat)
    ensures i <= |s|
    ensures forall k :: 0 <= k < i ==> !IsTerminator(s[k])
    ensures i < |s| ==> IsTerminator(s[i])
  {
    if s == [] || IsTerminator(s[0]) then 0 else 1 + LineEnd(s[1..])
  }

  /** The terminator a `readLine` call skips; `Eof` when the line runs to the end of the stream. */
  datatype Ending = Lf | Cr | CrLf | Eof

  function EndingChars(e: Ending): seq<char> {
    match e
    case Lf => "\n"
    case Cr => "\r"
    case CrLf => "\r\n"
    case Eof => ""
  }

  /** What one successful `readLine` call consumes: the line it returns, the terminator it skips, the input left. */
  datatype Read = Read(line: seq<char>, ending: Ending, rest: seq<char>)

  /**
   * `rd` is what `readLine` does on the unread input `s`: the line holds no
   * terminator, a `\r` followed by `\n` is one `\r\n` terminator, and a line
   * without a terminator is only read at the end of the stream.
   */
  predicate IsReadOf(s: seq<char>, rd: Read) {
    && NoTerminator(rd.line)
    && (rd.ending == Eof ==> rd.rest == [] && rd.line != [])
    && (rd.ending == Cr ==> rd.rest == [] || rd.rest[0] != '\n')
    && s == rd.line + EndingChars(rd.ending) + rd.rest
  }

  /** One call of `readLine` on the unread input `s`; `None` is its `null` at end of stream. */
  function NextLine(s: seq<char>): (r: Option<Read>)
    ensures r.None? <==> s == []
    ensures r.Some? ==> IsReadOf(s, r.value) && |r.value.rest| < |s|
  {
    if s == [] then None
    else
      var i := LineEnd(s);
      if i == |s| then
        Some(Read(s, Eof, []))
      else if s[i] == '\r' && i + 1 < |s| && s[i + 1] == '\n' then
        assert s == s[..i] + "\r\n" + s[i + 2..];
        Some(Read(s[..i], CrLf, s[i + 2..]))
      else if s[i] == '\r' then
        assert s == s[..i] + "\r" + s[i + 1..];
        Some(Read(s[..i], Cr, s[i + 1..]))
      else
        assert s == s[..i] + "\n" + s[i + 1..];
        Some(Read(s[..i], Lf, s[i + 1..]))
  }

  /** The first terminator of `line + tail` is the first character of `tail`. */
  lemma LineEndAfter(line: seq<char>, tail: seq<char>)
    requires NoTerminator(line)
    requires tail == [] || IsTerminator(tail[0])
    ensures LineEnd(line + tail) == |line|
  {
    var s := line + tail;
    assert forall k :: 0 <= k < |line| ==> s[k] == line[k];
    assert tail != [] ==> s[|line|] == tail[0];
  }

  /** The converse of `NextLine`'s contract: `IsReadOf` pins down the one read `readLine` makes. */
  lemma ReadLineIsUnique(s: seq<char>, rd: Read)
    requires IsReadOf(s, rd)
    ensures NextLine(s) == Some(rd)
  {
    var tail := EndingChars(rd.ending) + rd.rest;
    assert s == rd.line + tail;
    LineEndAfter(rd.line, tail);
    var i := |rd.line|;
    assert s[..i] == rd.line;
    match rd.ending {
      case Eof =>
        assert s == rd.line;
      case Lf =>
        assert s[i] == '\n';
        assert s[i + 1..] == rd.rest;
      case Cr =>
        assert s[i] == '\r';
        assert s[i + 1..] == rd.rest;
        assert i + 1 < |s| ==> s[i + 1] == rd.rest[0];
      case CrLf =>
        assert s[i] == '\r' && s[i + 1] == '\n';
        assert s[i + 2..] == rd.rest;
    }
  }

  /** The lines `readLine` returns, in order, until it returns `null`. */
  function Lines(s: seq<char>): (lines: seq<seq<char>>)
    ensures forall k :: 0 <= k < |lines| ==> NoTerminator(lines[k])
    ensures lines == [] <==> s == []
    decreases |s|
  {
    match NextLine(s)
    case None => []
    case Some(rd) => [rd.line] + Lines(rd.rest)
  }

  /** A read that `IsReadOf` describes is the first of the lines. */
  lemma LinesOfRead(s: seq<char>, rd: Read)
    requires IsReadOf(s, rd)
    ensures Lines(s) == [rd.line] + Lines(rd.rest)
  {
    ReadLineIsUnique(s, rd);
  }

  /** `content += line + "\n"` over `lines`, starting from `""`. */
  function Join(lines: seq<seq<char>>): (r: seq<char>)
    ensures (forall k :: 0 <= k < |lines| ==> NoTerminator(lines[k])) ==> '\r' !in r && multiset(r)['\n'] == |lines|
  {
    if lines == [] then []
    else Join(lines[..|lines| - 1]) + lines[|lines| - 1] + "\n"
  }

  /** Adding a line in front of the others adds it, and its `\n`, in front of the text. */
  lemma {:induction false} JoinCons(line: seq<char>, lines: seq<seq<char>>)
    ensures Join([line] + lines) == line + "\n" + Join(lines)
    decreases |lines|
  {
    if lines == [] {
      assert [line][..0] == [];
    } else {
      var n := |lines|;
      assert ([line] + lines)[..n] == [line] + lines[..n - 1];
      JoinCons(line, lines[..n - 1]);
    }
  }

  /** The text of the first `k` lines is a prefix of the text of all of them. */
  lemma {:induction false} JoinPrefix(lines: seq<seq<char>>, k: nat)
    requires k <= |lines|
    ensures Join(lines[..k]) <= Join(lines)
    decreases |lines| - k
  {
    if k < |lines| {
      var n := |lines|;
      assert lines[..n - 1][..k] == lines[..k];
      JoinPrefix(lines[..n - 1], k);
      assert Join(lines[..n - 1]) <= Join(lines);
    } else {
      assert lines[..k] == lines;
    }
  }

  /**
   * How a read of the file can fail: `NoFault`; opening it throws
   * (`FileInputStream` on a directory or an unreadable file); or the
   * `readLine` call that follows `calls` calls that returned normally throws
   * an `IOException`.
   */
  datatype ReadFault = NoFault | OpenFails | FailsAfter(calls: nat)

  function Min(a: nat, b: nat): nat {
    if a <= b then a else b
  }

  /** The text the read loop has built when it ends, normally or by an exception. */
  function Accumulated(file: seq<char>, fault: ReadFault): (r: seq<char>)
    ensures '\r' !in r
    ensures r != [] ==> r[|r| - 1] == '\n'
  {
    match fault
    case NoFault => Join(Lines(file))
    case OpenFails => []
    case FailsAfter(k) => Join(Lines(file)[..Min(k, |Lines(file)|)])
  }

  /**
   * Whatever a failed read leaves is the text of the first few lines of a
   * full read: a prefix of it, ending at a line boundary.
   */
  lemma PartialReadIsPrefix(file: seq<char>, fault: ReadFault)
    ensures Accumulated(file, fault) <= Accumulated(file, NoFault)
    ensures exists k :: 0 <= k <= |Lines(file)| && Accumulated(file, fault) == Join(Lines(file)[..k])
    ensures fault.OpenFails? ==> Accumulated(file, fault) == []
  {
    var lines := Lines(file);
    var k := match fault
      case NoFault => |lines|
      case OpenFails => 0
      case FailsAfter(n) => Min(n, |lines|);
    assert lines[..|lines|] == lines;
    JoinPrefix(lines, k);
  }

  /** One turn of the read loop: the line read is the next of all the lines, and the text grows by it. */
  lemma ReadStep(all: seq<seq<char>>, calls: nat, rest: seq<char>, rd: Read)
    requires calls <= |all| && Lines(rest) == all[calls..] && IsReadOf(rest, rd)
    ensures calls < |all| && Lines(rd.rest) == all[calls + 1..]
    ensures Join(all[..calls + 1]) == Join(all[..calls]) + rd.line + "\n"
  {
    LinesOfRead(rest, rd);
    var tail := all[calls..];
    assert tail == [rd.line] + Lines(rd.rest);
    assert all[calls] == tail[0] == rd.line;
    assert all[calls + 1..] == tail[1..];
    var done := all[..calls + 1];
    assert |done| == calls + 1 && done[calls] == rd.line;
    assert done[..calls] == all[..calls];
  }

  /**
   * The loop of `load()` and `showLicense()`: call `readLine` until it
   * returns `null`, appending each line and a `\n`. `complete` tells whether
   * the end of the stream was reached without an exception.
   */
  method ReadAll(file: seq<char>, fault: ReadFault) returns (content: seq<char>, complete: bool)
    ensures content == Accumulated(file, fault)
    ensures complete <==> fault.NoFault? || (fault.FailsAfter? && fault.calls > |Lines(file)|)
  {
    content := "";
    complete := false;
    if fault.OpenFails? {
      return;
    }
    ghost var all := Lines(file);
    var rest := file;
    var calls := 0;
    while true
      invariant calls <= |all|
      invariant Lines(rest) == all[calls..]
      invariant content == Join(all[..calls])
      invariant fault.FailsAfter? ==> calls <= fault.calls
      decreases |rest|
    {
      if fault == FailsAfter(calls) {
        // this readLine call throws; the catch keeps what was built
        return;
      }
      var next := NextLine(rest);
      if next.None? {
        assert all[..calls] == all;
        complete := true;
        return;
      }
      var rd := next.value;
      ReadStep(all, calls, rest, rd);
      content := content + rd.line + "\n";
      rest := rd.rest;
      calls := calls + 1;
    }
  }
}
