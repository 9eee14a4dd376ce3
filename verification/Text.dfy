/** Text as lists of lines: Python's `str.splitlines(keepends=True)` and `"".join`. */
module Text {
  import opened Seqs

  /** The characters at which `str.splitlines` ends a line. */
  predicate IsBreak(c: char) {
    c == '\n' || c == '\r' || c == '\U{000B}' || c == '\U{000C}'
    || c == '\U{001C}' || c == '\U{001D}' || c == '\U{001E}'
    || c == '\U{0085}' || c == '\U{2028}' || c == '\U{2029}'
  }

  /** Length of the first line, its terminator included; "\r\n" is one terminator. */
  function FirstLineLength(s: string): (n: nat)
    ensures n <= |s|
    ensures s != [] ==> 0 < n
  {
    if s == [] then 0
    else if s[0] == '\r' && |s| > 1 && s[1] == '\n' then 2
    else if IsBreak(s[0]) then 1
    else 1 + FirstLineLength(s[1..])
  }

  function SplitLines(s: string): seq<string> {
    if s == [] then []
    else
      var n := FirstLineLength(s);
      [s[..n]] + SplitLines(s[n..])
  }

  /** Nothing follows the first terminator inside `line`. */
  predicate OneLine(line: string) {
    FirstLineLength(line) == |line|
  }

  predicate Terminated(line: string) {
    line != [] && IsBreak(line[|line| - 1])
  }

  /** No "\r" at the end of one line meets a "\n" at the start of the next. */
  predicate Separate(line: string, rest: string) {
    line != [] && rest != [] ==> !(line[|line| - 1] == '\r' && rest[0] == '\n')
  }

  lemma {:induction false} FirstLineLengthAppend(line: string, rest: string)
    requires OneLine(line) && Terminated(line) && Separate(line, rest)
    ensures FirstLineLength(line + rest) == |line|
  {
    var s := line + rest;
    if |line| == 1 {
    } else if line[0] == '\r' && line[1] == '\n' {
    } else {
      assert s[1..] == line[1..] + rest;
      FirstLineLengthAppend(line[1..], rest);
    }
  }

  /** A list of lines that splitting its own concatenation gives back. */
  predicate LineList(lines: seq<string>) {
    lines != [] ==>
      && lines[0] != [] && OneLine(lines[0])
      && (|lines| > 1 ==> Terminated(lines[0]) && Separate(lines[0], lines[1]))
      && LineList(lines[1..])
  }

  lemma {:induction false} SplitJoin(lines: seq<string>)
    requires LineList(lines)
    ensures SplitLines(Concat(lines)) == lines
  {
    if lines != [] {
      SplitJoin(lines[1..]);
      var rest := Concat(lines[1..]);
      if |lines| > 1 {
        assert rest[0] == lines[1][0];
        FirstLineLengthAppend(lines[0], rest);
      } else {
        assert lines[0] + rest == lines[0];
      }
      assert Concat(lines)[|lines[0]|..] == rest;
      assert lines == [lines[0]] + lines[1..];
    }
  }

  lemma {:induction false} JoinSplit(s: string)
    ensures Concat(SplitLines(s)) == s
  {
    if s != [] {
      JoinSplit(s[FirstLineLength(s)..]);
    }
  }

  lemma {:induction false} FirstLineIsOneLine(s: string)
    requires s != []
    ensures OneLine(s[..FirstLineLength(s)])
  {
    var n := FirstLineLength(s);
    if !(s[0] == '\r' && |s| > 1 && s[1] == '\n') && !IsBreak(s[0]) && n > 1 {
      FirstLineIsOneLine(s[1..]);
      assert s[..n][1..] == s[1..][..n - 1];
    }
  }

  /** Every line of a split text is a single nonempty line. */
  lemma {:induction false} SplitGivesLines(s: string)
    ensures forall line :: line in SplitLines(s) ==> line != [] && OneLine(line)
  {
    if s != [] {
      FirstLineIsOneLine(s);
      SplitGivesLines(s[FirstLineLength(s)..]);
    }
  }
}
