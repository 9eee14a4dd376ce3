/** From an edit script to a unified diff and back: parsing and applying what was rendered is the edit. */
module PatchRoundTrip {
  import opened Results
  import opened Seqs
  import opened Text
  import opened PatchGrammar
  import opened PatchApply

  datatype Op = Keep(line: string) | Delete(line: string) | Insert(line: string)

  /** Choices that a diff tool has in a hunk header: to leave out a count of one on either side, and what
      to say behind the ranges. */
  datatype Style = Style(bareOld: bool, bareNew: bool, heading: string)

  /** `skip` is left alone, then the operations follow. */
  datatype Chunk = Chunk(skip: seq<string>, ops: seq<Op>, style: Style)

  /** The file a diff names, with whatever it says behind a tab in each of the two name lines. */
  datatype Names = Names(target: string, oldStamp: Option<string>, newStamp: Option<string>)

  function OldOf(ops: seq<Op>): seq<string> {
    if ops == [] then []
    else (if ops[0].Insert? then [] else [ops[0].line]) + OldOf(ops[1..])
  }

  function NewOf(ops: seq<Op>): seq<string> {
    if ops == [] then []
    else (if ops[0].Delete? then [] else [ops[0].line]) + NewOf(ops[1..])
  }

  function CountInserts(ops: seq<Op>): nat {
    if ops == [] then 0 else (if ops[0].Insert? then 1 else 0) + CountInserts(ops[1..])
  }

  function CountDeletes(ops: seq<Op>): nat {
    if ops == [] then 0 else (if ops[0].Delete? then 1 else 0) + CountDeletes(ops[1..])
  }

  function OldLines(chunks: seq<Chunk>): seq<string> {
    if chunks == [] then [] else chunks[0].skip + OldOf(chunks[0].ops) + OldLines(chunks[1..])
  }

  function NewLines(chunks: seq<Chunk>): seq<string> {
    if chunks == [] then [] else chunks[0].skip + NewOf(chunks[0].ops) + NewLines(chunks[1..])
  }

  function Insertions(chunks: seq<Chunk>): nat {
    if chunks == [] then 0 else CountInserts(chunks[0].ops) + Insertions(chunks[1..])
  }

  function Deletions(chunks: seq<Chunk>): nat {
    if chunks == [] then 0 else CountDeletes(chunks[0].ops) + Deletions(chunks[1..])
  }

  // ---- rendering ----

  const NO_NEWLINE_TEXT := "\\ No newline at end of file"
  const NO_NEWLINE := NO_NEWLINE_TEXT + "\n"

  function RenderOp(op: Op): seq<string> {
    var prefix := match op case Keep(_) => " " case Delete(_) => "-" case Insert(_) => "+";
    if Terminated(op.line) then [prefix + op.line] else [prefix + op.line + "\n", NO_NEWLINE]
  }

  function RenderOps(ops: seq<Op>): seq<string> {
    if ops == [] then [] else RenderOp(ops[0]) + RenderOps(ops[1..])
  }

  function CountText(count: nat, bare: bool): string {
    if bare && count == 1 then "" else "," + Decimal(count)
  }

  function HeaderText(h: Header, style: Style): string {
    "@@ -" + Decimal(h.oldStart) + CountText(h.oldCount, style.bareOld)
    + " +" + Decimal(h.newStart) + CountText(h.newCount, style.bareNew) + " @@" + style.heading
  }

  function StampText(stamp: Option<string>): string {
    if stamp.Some? then "\t" + stamp.value else ""
  }

  function NameText(mark: string, side: string, target: string, stamp: Option<string>): string {
    mark + side + target + StampText(stamp) + "\n"
  }

  /** The header of a chunk whose skipped lines begin at these (0-based) line indices. */
  function HeaderOf(c: Chunk, oldAt: nat, newAt: nat): Header {
    Header(oldAt + |c.skip| + 1, |OldOf(c.ops)|, newAt + |c.skip| + 1, |NewOf(c.ops)|)
  }

  function RenderChunks(chunks: seq<Chunk>, oldAt: nat, newAt: nat): seq<string> {
    if chunks == [] then []
    else
      var c := chunks[0];
      [HeaderText(HeaderOf(c, oldAt, newAt), c.style) + "\n"] + RenderOps(c.ops)
      + RenderChunks(chunks[1..], oldAt + |c.skip| + |OldOf(c.ops)|, newAt + |c.skip| + |NewOf(c.ops)|)
  }

  function RenderLines(chunks: seq<Chunk>, names: Names): seq<string> {
    [NameText(OLD_MARK, "a/", names.target, names.oldStamp), NameText(NEW_MARK, "b/", names.target, names.newStamp)]
    + RenderChunks(chunks, 0, 0)
  }

  function RenderPatch(chunks: seq<Chunk>, names: Names): string {
    Concat(RenderLines(chunks, names))
  }

  function HunkOf(c: Chunk, oldAt: nat, newAt: nat): Hunk {
    var h := HeaderOf(c, oldAt, newAt);
    Hunk(h.oldStart, h.oldCount, h.newStart, h.newCount, OldOf(c.ops), NewOf(c.ops),
         CountInserts(c.ops), CountDeletes(c.ops))
  }

  function HunksOf(chunks: seq<Chunk>, oldAt: nat, newAt: nat): seq<Hunk> {
    if chunks == [] then []
    else
      var c := chunks[0];
      [HunkOf(c, oldAt, newAt)]
      + HunksOf(chunks[1..], oldAt + |c.skip| + |OldOf(c.ops)|, newAt + |c.skip| + |NewOf(c.ops)|)
  }

  predicate LinesOk(ops: seq<Op>) {
    forall op :: op in ops ==> OneLine(op.line)
  }

  predicate ChunksOk(chunks: seq<Chunk>) {
    forall c :: c in chunks ==> LinesOk(c.ops) && NoBreaks(c.style.heading)
  }

  predicate NamesOk(names: Names) {
    && NoBreaks(names.target)
    && (names.oldStamp.Some? ==> NoBreaks(names.oldStamp.value))
    && (names.newStamp.Some? ==> NoBreaks(names.newStamp.value))
  }

  // ---- numbers and hunk headers ----

  lemma ReadDecimal(n: nat, rest: string)
    requires rest == [] || !IsDigit(rest[0])
    ensures ReadNumber(Decimal(n) + rest) == Some((n, rest))
  {
    var s := Decimal(n) + rest;
    var d := |Decimal(n)|;
    LeadingRunIs(s, IsDigit, d);
    assert s[..d] == Decimal(n) && s[d..] == rest;
  }

  /** A range without a count is one line long; otherwise the count is read back. */
  lemma ReadCountText(n: nat, bare: bool, rest: string)
    requires rest == [] || (!IsDigit(rest[0]) && rest[0] != ',')
    ensures ReadCount(CountText(n, bare) + rest) == (n, rest)
  {
    if bare && n == 1 {
      assert CountText(n, bare) + rest == rest;
    } else {
      var s := "," + Decimal(n) + rest;
      assert s[1..] == Decimal(n) + rest;
      ReadDecimal(n, rest);
    }
  }

  lemma AfterPrefix(prefix: string, rest: string)
    ensures After(prefix + rest, prefix) == Some(rest)
  {
    assert (prefix + rest)[|prefix|..] == rest;
  }

  /** A printed header is read back, whether or not a count of one is printed, and whatever follows. */
  lemma MatchRenderedHeader(h: Header, style: Style)
    ensures MatchHunkHeader(HeaderText(h, style)) == Some(h)
  {
    hide Decimal, ReadNumber, ReadCount, After, CountText;
    var s6 := " @@" + style.heading;
    var s5 := CountText(h.newCount, style.bareNew) + s6;
    var s4 := Decimal(h.newStart) + s5;
    var s3 := " +" + s4;
    var s2 := CountText(h.oldCount, style.bareOld) + s3;
    var s1 := Decimal(h.oldStart) + s2;
    HeaderParts(h, style, s1);
    CountTextStarts(h.oldCount, style.bareOld, s3);
    CountTextStarts(h.newCount, style.bareNew, s6);
    AfterPrefix("@@ -", s1);
    ReadDecimal(h.oldStart, s2);
    ReadCountText(h.oldCount, style.bareOld, s3);
    AfterPrefix(" +", s4);
    ReadDecimal(h.newStart, s5);
    ReadCountText(h.newCount, style.bareNew, s6);
  }

  lemma HeaderParts(h: Header, style: Style, s1: string)
    requires s1 == Decimal(h.oldStart) + (CountText(h.oldCount, style.bareOld)
                   + (" +" + (Decimal(h.newStart) + (CountText(h.newCount, style.bareNew) + (" @@" + style.heading)))))
    ensures HeaderText(h, style) == "@@ -" + s1
  {
    hide Decimal, CountText;
  }

  lemma CountTextStarts(n: nat, bare: bool, rest: string)
    requires rest != [] && !IsDigit(rest[0])
    ensures var s := CountText(n, bare) + rest; s != [] && !IsDigit(s[0])
  {
  }

  predicate NoBreaks(s: string) {
    forall i :: 0 <= i < |s| ==> !IsBreak(s[i])
  }

  lemma StripNewline(s: string)
    requires NoBreaks(s)
    ensures StripEol(s + "\n") == s
  {
    var t := s + "\n";
    assert t[..|t| - 1] == s;
    if |s| > 0 {
      assert t[|t| - 2] == s[|s| - 1] && !IsBreak(s[|s| - 1]);
    }
  }

  lemma JoinHasNoBreaks(a: string, b: string)
    requires NoBreaks(a) && NoBreaks(b)
    ensures NoBreaks(a + b)
  {
  }

  lemma CountTextHasNoBreaks(n: nat, bare: bool)
    ensures NoBreaks(CountText(n, bare))
  {
    DecimalHasNoBreaks(n);
    hide Decimal;
    JoinHasNoBreaks(",", Decimal(n));
  }

  lemma HeaderTextHasNoBreaks(h: Header, style: Style)
    requires NoBreaks(style.heading)
    ensures NoBreaks(HeaderText(h, style))
  {
    assert NoBreaks("@@ -") && NoBreaks(" +") && NoBreaks(" @@");
    CountTextHasNoBreaks(h.oldCount, style.bareOld);
    CountTextHasNoBreaks(h.newCount, style.bareNew);
    DecimalHasNoBreaks(h.oldStart);
    DecimalHasNoBreaks(h.newStart);
    hide NoBreaks, Decimal, CountText;
    JoinHasNoBreaks("@@ -", Decimal(h.oldStart));
    var s := "@@ -" + Decimal(h.oldStart) + CountText(h.oldCount, style.bareOld);
    JoinHasNoBreaks("@@ -" + Decimal(h.oldStart), CountText(h.oldCount, style.bareOld));
    JoinHasNoBreaks(s, " +");
    JoinHasNoBreaks(s + " +", Decimal(h.newStart));
    JoinHasNoBreaks(s + " +" + Decimal(h.newStart), CountText(h.newCount, style.bareNew));
    var t := s + " +" + Decimal(h.newStart) + CountText(h.newCount, style.bareNew);
    JoinHasNoBreaks(t, " @@");
    JoinHasNoBreaks(t + " @@", style.heading);
  }

  lemma DecimalHasNoBreaks(n: nat)
    ensures NoBreaks(Decimal(n))
  {
    forall i | 0 <= i < |Decimal(n)| ensures !IsBreak(Decimal(n)[i]) {
      assert IsDigit(Decimal(n)[i]);
    }
  }

  // ---- lines ----

  lemma {:induction false} NoBreaksOneLine(s: string)
    requires NoBreaks(s)
    ensures OneLine(s) && OneLine(s + "\n") && Terminated(s + "\n")
  {
    if s != [] {
      assert !IsBreak(s[0]);
      assert (s + "\n")[1..] == s[1..] + "\n";
      NoBreaksOneLine(s[1..]);
    }
  }

  lemma {:induction false} UnterminatedHasNoBreaks(line: string)
    requires OneLine(line) && !Terminated(line)
    ensures NoBreaks(line)
  {
    if line != [] {
      assert !IsBreak(line[0]);
      UnterminatedHasNoBreaks(line[1..]);
      assert forall i :: 1 <= i < |line| ==> line[i] == line[1..][i - 1];
    }
  }

  /** A raw line that survives splitting wherever it stands. */
  predicate RawLine(line: string) {
    line != [] && OneLine(line) && Terminated(line) && line[0] != '\n'
  }

  lemma {:induction false} RawLinesSplit(lines: seq<string>)
    requires forall line :: line in lines ==> RawLine(line)
    ensures LineList(lines)
  {
    if lines != [] {
      assert RawLine(lines[0]);
      if |lines| > 1 {
        assert RawLine(lines[1]);
      }
      RawLinesSplit(lines[1..]);
    }
  }

  function Prefix(op: Op): char {
    match op case Keep(_) => ' ' case Delete(_) => '-' case Insert(_) => '+'
  }

  lemma PrefixedLine(c: char, line: string)
    requires OneLine(line) && line != [] && !IsBreak(c)
    ensures OneLine([c] + line)
  {
    assert ([c] + line)[1..] == line;
  }

  lemma MarkerLine()
    ensures RawLine(NO_NEWLINE) && NO_NEWLINE[0] != '@' && IsMarker(NO_NEWLINE)
  {
    hide OneLine;
    assert NoBreaks(NO_NEWLINE_TEXT);
    NoBreaksOneLine(NO_NEWLINE_TEXT);
    assert NO_NEWLINE[0] == '\\';
  }

  lemma RenderOpLines(op: Op)
    requires OneLine(op.line)
    ensures forall line :: line in RenderOp(op) ==> RawLine(line) && line[0] != '@'
    ensures 1 <= |RenderOp(op)| <= 2 && RenderOp(op)[0] != [] && RenderOp(op)[0][0] == Prefix(op)
    ensures StripTimes(RenderOp(op)[0][1..], |RenderOp(op)| - 1) == op.line
    ensures |RenderOp(op)| == 2 ==> IsMarker(RenderOp(op)[1])
  {
    hide OneLine, IsMarker, StripEol;
    var first := RenderOp(op)[0];
    if Terminated(op.line) {
      assert first == [Prefix(op)] + op.line;
      PrefixedLine(Prefix(op), op.line);
    } else {
      UnterminatedHasNoBreaks(op.line);
      NoBreaksOneLine(op.line);
      assert first == [Prefix(op)] + (op.line + "\n");
      PrefixedLine(Prefix(op), op.line + "\n");
      StripNewline(op.line);
      assert StripTimes(op.line + "\n", 1) == StripEol(StripTimes(op.line + "\n", 0));
      MarkerLine();
    }
  }

  lemma {:induction false} RenderOpsLines(ops: seq<Op>)
    requires LinesOk(ops)
    ensures forall line :: line in RenderOps(ops) ==> RawLine(line) && line[0] != '@'
    ensures RenderOps(ops) != [] ==> !IsMarker(RenderOps(ops)[0])
  {
    hide RawLine, OneLine;
    if ops != [] {
      assert OneLine(ops[0].line);
      RenderOpLines(ops[0]);
      RenderOpsLines(ops[1..]);
    }
  }

  lemma NotAHeader(line: string)
    requires line != [] && line[0] != '@'
    ensures IsBodyLine(line)
  {
  }

  predicate OpOn(op: Op, side: Side) {
    op.Keep? || if side == OldSide then op.Delete? else op.Insert?
  }

  lemma KindOfPrefix(op: Op, line: string)
    requires line != [] && line[0] == Prefix(op)
    ensures KindOf(line) == match op case Keep(_) => Context case Delete(_) => Deletion case Insert(_) => Addition
  {
  }

  /** A rendered operation in front of other body lines adds its line to the sides it is on. */
  lemma RenderOpsStep(op: Op, rest: seq<string>, side: Side)
    requires OneLine(op.line)
    requires rest == [] || !IsMarker(rest[0])
    ensures var body := RenderOp(op) + rest;
            && SideLines(body, side) == (if OpOn(op, side) then [op.line] else []) + SideLines(rest, side)
            && CountKind(body, Addition) == (if op.Insert? then 1 else 0) + CountKind(rest, Addition)
            && CountKind(body, Deletion) == (if op.Delete? then 1 else 0) + CountKind(rest, Deletion)
            && (UnknownLine(rest).None? ==> UnknownLine(body).None?)
            && KindOf(body[0]) != Marker
  {
    hide OneLine, StripEol, StripTimes, RenderOp, KindOf, SideLines, CountKind, UnknownLine, LeadingRun;
    RenderOpLines(op);
    var body := RenderOp(op) + rest;
    KindOfPrefix(op, RenderOp(op)[0]);
    assert body[0] == RenderOp(op)[0];
    FirstLine(body, side);
    if |RenderOp(op)| == 1 {
      assert body[1..] == rest;
      LeadingRunIs(rest, IsMarker, 0);
    } else {
      assert body[1..] == [RenderOp(op)[1]] + rest;
      assert body[1..][1..] == rest;
      LeadingRunIs(body[1..], IsMarker, 1);
      FirstLine(body[1..], side);
    }
  }

  /** The sides and counts the parser gathers from a rendered body are those of the operations. */
  lemma {:induction false} RenderOpsSides(ops: seq<Op>)
    requires LinesOk(ops)
    ensures SideLines(RenderOps(ops), OldSide) == OldOf(ops)
    ensures SideLines(RenderOps(ops), NewSide) == NewOf(ops)
    ensures CountKind(RenderOps(ops), Addition) == CountInserts(ops)
    ensures CountKind(RenderOps(ops), Deletion) == CountDeletes(ops)
    ensures UnknownLine(RenderOps(ops)).None?
    ensures BodyError(RenderOps(ops)).None?
  {
    if ops != [] {
      RenderOpsSides(ops[1..]);
      RenderOpsLines(ops);
      RenderOpsLines(ops[1..]);
      assert OneLine(ops[0].line);
      RenderOpsStep(ops[0], RenderOps(ops[1..]), OldSide);
      RenderOpsStep(ops[0], RenderOps(ops[1..]), NewSide);
    }
  }

  /** Parsing the rendered chunks gives their hunks. */
  lemma {:induction false} HunksOfRendered(chunks: seq<Chunk>, oldAt: nat, newAt: nat)
    requires ChunksOk(chunks)
    ensures Hunks(RenderChunks(chunks, oldAt, newAt)) == Ok(HunksOf(chunks, oldAt, newAt))
    ensures RenderChunks(chunks, oldAt, newAt) != [] ==> !IsBodyLine(RenderChunks(chunks, oldAt, newAt)[0])
  {
    hide MatchHunkHeader, StripEol, HeaderText, IsBodyLine, CheckHunk, Hunks, HunkOf, OldOf, NewOf, RenderOps, LinesOk, HeaderOf;
    if chunks == [] {
      assert Hunks([]) == Ok([]) by { NoRawLines(); }
    } else {
      var c := chunks[0];
      var oldNext, newNext := oldAt + |c.skip| + |OldOf(c.ops)|, newAt + |c.skip| + |NewOf(c.ops)|;
      assert c in chunks && forall k :: k in chunks[1..] ==> k in chunks;
      HunksOfRendered(chunks[1..], oldNext, newNext);
      HunkOfRendered(c, HeaderOf(c, oldAt, newAt), RenderChunks(chunks[1..], oldNext, newNext));
      CheckRendered(c, oldAt, newAt);
    }
  }

  lemma NoRawLines()
    ensures Hunks([]) == Ok([])
  {
  }

  lemma CheckRendered(c: Chunk, oldAt: nat, newAt: nat)
    requires LinesOk(c.ops)
    ensures CheckHunk(HeaderOf(c, oldAt, newAt), RenderOps(c.ops)) == Ok(HunkOf(c, oldAt, newAt))
  {
    hide RenderOps, SideLines;
    RenderOpsSides(c.ops);
  }

  lemma HunkOfRendered(c: Chunk, h: Header, rest: seq<string>)
    requires LinesOk(c.ops) && NoBreaks(c.style.heading)
    requires rest != [] ==> !IsBodyLine(rest[0])
    ensures var first, body := HeaderText(h, c.style) + "\n", RenderOps(c.ops);
            && !IsBodyLine(first)
            && (CheckHunk(h, body).Ok? ==>
                  Hunks([first] + body + rest) == Prepend([CheckHunk(h, body).value], Hunks(rest)))
  {
    hide MatchHunkHeader, HeaderText, CheckHunk, RenderOps, Hunks, OneLine, StripEol;
    var first, body := HeaderText(h, c.style) + "\n", RenderOps(c.ops);
    var raw := [first] + body + rest;
    HeaderTextHasNoBreaks(h, c.style);
    StripNewline(HeaderText(h, c.style));
    MatchRenderedHeader(h, c.style);
    assert raw[1..] == body + rest;
    RenderOpsLines(c.ops);
    forall i | 0 <= i < |body| ensures IsBodyLine((body + rest)[i]) {
      assert body[i] in body;
      NotAHeader(body[i]);
    }
    LeadingRunIs(body + rest, IsBodyLine, |body|);
    assert raw[1..1 + |body|] == body && raw[1 + |body|..] == rest;
    HunksCons(raw);
  }

  lemma HunksCons(raw: seq<string>)
    requires raw != [] && MatchHunkHeader(StripEol(raw[0])).Some?
    ensures var h, n := MatchHunkHeader(StripEol(raw[0])).value, LeadingRun(raw[1..], IsBodyLine);
            CheckHunk(h, raw[1..1 + n]).Ok? ==>
              Hunks(raw) == Prepend([CheckHunk(h, raw[1..1 + n]).value], Hunks(raw[1 + n..]))
  {
    hide MatchHunkHeader, StripEol, CheckHunk, LeadingRun;
  }

  /** Every rendered line survives joining and splitting. */
  lemma {:induction false} RenderChunksLines(chunks: seq<Chunk>, oldAt: nat, newAt: nat)
    requires ChunksOk(chunks)
    ensures forall line :: line in RenderChunks(chunks, oldAt, newAt) ==> RawLine(line)
  {
    hide RawLine, HeaderText;
    if chunks != [] {
      var c := chunks[0];
      assert c in chunks && forall k :: k in chunks[1..] ==> k in chunks;
      HeaderLine(HeaderOf(c, oldAt, newAt), c.style);
      RenderOpsLines(c.ops);
      RenderChunksLines(chunks[1..], oldAt + |c.skip| + |OldOf(c.ops)|, newAt + |c.skip| + |NewOf(c.ops)|);
    }
  }

  lemma HeaderLine(h: Header, style: Style)
    requires NoBreaks(style.heading)
    ensures RawLine(HeaderText(h, style) + "\n")
  {
    HeaderTextHasNoBreaks(h, style);
    NoBreaksOneLine(HeaderText(h, style));
  }

  // ---- names ----

  /** A target the rendered names lead back to. */
  predicate CleanTarget(target: string) {
    '\t' !in target && !("a/" <= Slashes(target)) && !("b/" <= Slashes(target))
  }

  lemma {:induction false} BeforeAll(s: string, c: char)
    ensures c !in Before(s, c)
    ensures c !in s ==> Before(s, c) == s
  {
    if s != [] {
      BeforeAll(s[1..], c);
    }
  }

  lemma SlashesKeepTab(s: string)
    ensures '\t' in Slashes(s) <==> '\t' in s
  {
    if '\t' in s {
      var i :| 0 <= i < |s| && s[i] == '\t';
      assert Slashes(s)[i] == '\t';
    }
  }

  /** Nothing behind a tab belongs to the name. */
  lemma {:induction false} StampIsCut(s: string, stamp: Option<string>)
    ensures Before(s + StampText(stamp), '\t') == Before(s, '\t')
  {
    if s == [] {
      assert s + StampText(stamp) == StampText(stamp);
    } else {
      assert (s + StampText(stamp))[1..] == s[1..] + StampText(stamp);
      StampIsCut(s[1..], stamp);
    }
  }

  lemma RenderedName(mark: string, side: string, target: string, stamp: Option<string>)
    requires NoBreaks(target) && (side == "a/" || side == "b/")
    requires stamp.Some? ==> NoBreaks(stamp.value)
    ensures mark <= NameText(mark, side, target, stamp)
    ensures HeaderName(NameText(mark, side, target, stamp), mark) == Before(side + target, '\t')
  {
    var name := side + target + StampText(stamp);
    NameBehindMark(mark, side, target, stamp);
    assert NoBreaks(name);
    StampIsCut(side + target, stamp);
    hide NameText, StampText, Before;
    StripNewline(name);
    hide StripEol;
  }

  lemma NameBehindMark(mark: string, side: string, target: string, stamp: Option<string>)
    ensures mark <= NameText(mark, side, target, stamp)
    ensures NameText(mark, side, target, stamp)[|mark|..] == side + target + StampText(stamp) + "\n"
  {
    hide StampText;
    assert NameText(mark, side, target, stamp) == mark + (side + target + StampText(stamp) + "\n");
  }

  lemma TabInName(target: string)
    requires '\t' in target
    ensures '\t' in NormalizeName(target)
  {
    SlashesKeepTab(target);
    var s := Slashes(target);
    var i :| 0 <= i < |s| && s[i] == '\t';
    if "a/" <= s || "b/" <= s {
      assert s[0] != '\t' && s[1] != '\t';
      assert s[2..][i - 2] == '\t';
    }
  }

  lemma NoTabInName(name: string)
    requires '\t' !in name
    ensures '\t' !in NormalizeName(name)
  {
    SlashesKeepTab(name);
  }

  lemma SlashesBehind(side: string, target: string)
    requires side == "a/" || side == "b/"
    ensures NormalizeName(side + target) == Slashes(target)
  {
    var s := Slashes(side + target);
    assert s[0] == side[0] && s[1] == '/';
    assert s[2..] == Slashes(target);
  }

  /** The rendered names are accepted exactly for a clean target. */
  lemma NameAccepted(side: string, target: string)
    requires side == "a/" || side == "b/"
    ensures NormalizeName(Before(side + target, '\t')) == NormalizeName(target) <==> CleanTarget(target)
  {
    BeforeAll(side + target, '\t');
    if '\t' in target {
      TabInName(target);
      NoTabInName(Before(side + target, '\t'));
    } else {
      hide Slashes;
      assert '\t' !in side + target;
      SlashesBehind(side, target);
    }
  }

  // ---- the theorem ----

  lemma {:induction false} OpCounts(ops: seq<Op>)
    ensures |NewOf(ops)| + CountDeletes(ops) == |OldOf(ops)| + CountInserts(ops)
  {
    if ops != [] {
      OpCounts(ops[1..]);
    }
  }

  lemma {:induction false} ScriptHunks(chunks: seq<Chunk>, oldAt: nat, newAt: nat)
    ensures var hunks := HunksOf(chunks, oldAt, newAt);
            && InOrder(hunks, oldAt + 1)
            && (forall h :: h in hunks ==> Counted(h))
            && Added(hunks) == Insertions(chunks)
            && Removed(hunks) == Deletions(chunks)
            && (hunks == [] <==> chunks == [])
  {
    if chunks != [] {
      hide OldOf, NewOf, CountInserts, CountDeletes;
      var c := chunks[0];
      OpCounts(c.ops);
      ScriptHunks(chunks[1..], oldAt + |c.skip| + |OldOf(c.ops)|, newAt + |c.skip| + |NewOf(c.ops)|);
      assert HunksOf(chunks, oldAt, newAt)[1..]
          == HunksOf(chunks[1..], oldAt + |c.skip| + |OldOf(c.ops)|, newAt + |c.skip| + |NewOf(c.ops)|);
    }
  }

  /** The hunks of a script fit its old text, wherever it stands, and splice it into its new text. */
  lemma {:induction false} ScriptSplices(
    lines: seq<string>, chunks: seq<Chunk>, at: nat, tail: seq<string>, newAt: nat)
    requires at <= |lines| && lines[at..] == OldLines(chunks) + tail
    ensures Leaves(lines, HunksOf(chunks, at, newAt), at, NewLines(chunks) + tail)
  {
    hide *;
    if chunks == [] {
      NoChunks(lines, at, tail, newAt);
    } else {
      var c, hunks := chunks[0], HunksOf(chunks, at, newAt);
      var was := OldOf(c.ops);
      HunksOfCons(chunks, at, newAt);
      ChunkText(chunks, tail);
      Parts(lines, at, c.skip, was, OldLines(chunks[1..]) + tail);
      HunkFits(lines, hunks[0]);
      ScriptSplices(lines, chunks[1..], at + |c.skip| + |was|, tail, newAt + |c.skip| + |NewOf(c.ops)|);
      LeavesCons(lines, hunks, at, c.skip, NewLines(chunks[1..]) + tail);
    }
  }

  lemma NoChunks(lines: seq<string>, at: nat, tail: seq<string>, newAt: nat)
    requires at <= |lines| && lines[at..] == OldLines([]) + tail
    ensures Leaves(lines, HunksOf([], at, newAt), at, NewLines([]) + tail)
  {
    assert OldLines([]) + tail == NewLines([]) + tail;
  }

  lemma HunkFits(lines: seq<string>, h: Hunk)
    requires 0 <= Position(h) && Position(h) + |h.oldLines| <= |lines|
    requires lines[Position(h)..Position(h) + |h.oldLines|] == h.oldLines
    ensures Fits(lines, h)
  {
  }

  lemma HunksOfCons(chunks: seq<Chunk>, oldAt: nat, newAt: nat)
    requires chunks != []
    ensures var hunks, c := HunksOf(chunks, oldAt, newAt), chunks[0];
            && hunks != []
            && Position(hunks[0]) == oldAt + |c.skip|
            && hunks[0].oldLines == OldOf(c.ops) && hunks[0].newLines == NewOf(c.ops)
            && hunks[1..] == HunksOf(chunks[1..], oldAt + |c.skip| + |OldOf(c.ops)|, newAt + |c.skip| + |NewOf(c.ops)|)
  {
    hide OldOf, NewOf;
  }

  lemma ChunkText(chunks: seq<Chunk>, tail: seq<string>)
    requires chunks != []
    ensures OldLines(chunks) + tail == chunks[0].skip + OldOf(chunks[0].ops) + (OldLines(chunks[1..]) + tail)
    ensures NewLines(chunks) + tail == chunks[0].skip + NewOf(chunks[0].ops) + (NewLines(chunks[1..]) + tail)
  {
    hide OldOf, NewOf;
    var c := chunks[0];
    Regroup(c.skip, OldOf(c.ops), OldLines(chunks[1..]), tail);
    Regroup(c.skip, NewOf(c.ops), NewLines(chunks[1..]), tail);
  }

  lemma RenderedSplits(chunks: seq<Chunk>, names: Names)
    requires ChunksOk(chunks) && NamesOk(names)
    ensures SplitLines(RenderPatch(chunks, names)) == RenderLines(chunks, names)
  {
    hide RawLine, OneLine, NameText;
    RenderChunksLines(chunks, 0, 0);
    NameLine(OLD_MARK, "a/", names.target, names.oldStamp);
    NameLine(NEW_MARK, "b/", names.target, names.newStamp);
    RawLinesSplit(RenderLines(chunks, names));
    SplitJoin(RenderLines(chunks, names));
  }

  lemma NameLine(mark: string, side: string, target: string, stamp: Option<string>)
    requires mark != [] && NoBreaks(mark) && NoBreaks(side) && NoBreaks(target)
    requires stamp.Some? ==> NoBreaks(stamp.value)
    ensures RawLine(NameText(mark, side, target, stamp))
  {
    var text := mark + side + target + StampText(stamp);
    assert NoBreaks(text);
    NoBreaksOneLine(text);
    assert (text + "\n")[0] == mark[0];
  }

  lemma RenderedNames(chunks: seq<Chunk>, names: Names)
    requires NamesOk(names)
    ensures NameError(RenderLines(chunks, names), names.target)
            == if CleanTarget(names.target) then None else Some(WrongTarget)
  {
    hide HeaderName, NormalizeName, CleanTarget, NameText;
    RenderedName(OLD_MARK, "a/", names.target, names.oldStamp);
    RenderedName(NEW_MARK, "b/", names.target, names.newStamp);
    NameAccepted("a/", names.target);
    NameAccepted("b/", names.target);
  }

  /** Every edit script, rendered as a unified diff in any style, parses and applies to exactly its edit,
      with its own counts; the one condition is that the file names in the diff lead back to the target, and
      where they do not the patch is refused. */
  lemma RoundTrip(original: string, chunks: seq<Chunk>, tail: seq<string>, names: Names)
    requires SplitLines(original) == OldLines(chunks) + tail
    requires chunks != []
    requires ChunksOk(chunks)
    requires NamesOk(names)
    ensures Apply(original, RenderPatch(chunks, names), names.target)
            == if CleanTarget(names.target)
               then Ok((Concat(NewLines(chunks) + tail), Insertions(chunks), Deletions(chunks)))
               else Err(WrongTarget)
  {
    hide SplitLines, Concat, NameError, Hunks, RenderChunks, CleanTarget, Placed, Splice, InOrder, Counted, FirstError, Fits;
    var hunks := HunksOf(chunks, 0, 0);
    RenderedSplits(chunks, names);
    RenderedNames(chunks, names);
    HunksOfRendered(chunks, 0, 0);
    assert RenderLines(chunks, names)[2..] == RenderChunks(chunks, 0, 0);
    ScriptHunks(chunks, 0, 0);
    InOrderFromZero(hunks);
    var lines := OldLines(chunks) + tail;
    assert lines[0..] == lines;
    ScriptSplices(lines, chunks, 0, tail, 0);
    FitsIffPlaced(OldLines(chunks) + tail, hunks);
  }

  lemma InOrderFromZero(hunks: seq<Hunk>)
    requires InOrder(hunks, 1)
    ensures InOrder(hunks, 0)
  {
  }

  /** The shortest diff there is: one line for one line, without counts. */
  lemma BareCounts()
    ensures MatchHunkHeader("@@ -1 +1 @@") == Some(Header(1, 1, 1, 1))
  {
    var h, style := Header(1, 1, 1, 1), Style(true, true, "");
    MatchRenderedHeader(h, style);
    assert Decimal(1) == "1";
    assert HeaderText(h, style) == "@@ -1 +1 @@";
  }
}
