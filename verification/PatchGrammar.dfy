/** The pieces of a strict single-file unified diff: names, hunk headers, body lines. */
module PatchGrammar {
  import opened Results
  import opened Seqs

  datatype Hunk = Hunk(
    oldStart: nat, oldCount: nat, newStart: nat, newCount: nat,
    oldLines: seq<string>, newLines: seq<string>, added: nat, removed: nat)

  datatype Header = Header(oldStart: nat, oldCount: nat, newStart: nat, newCount: nat)

  datatype PatchError =
    | EmptyPatch
    | MissingOldName
    | MissingNewName
    | WrongTarget
    | ExpectedHunkHeader
    | MarkerWithoutLine
    | UnexpectedLine
    | OldCountMismatch
    | NewCountMismatch
    | OldLinesInEmptyRange
    | NewLinesInEmptyRange
    | NoHunks
    | OutOfOrder
    | OutOfRange
    | DoesNotMatch

  // ---- end of line and names ----

  function StripEol(line: string): (r: string)
    ensures r <= line
  {
    var n := |line|;
    if n >= 2 && line[n - 2] == '\r' && line[n - 1] == '\n' then line[..n - 2]
    else if n >= 1 && line[n - 1] == '\n' then line[..n - 1]
    else line
  }

  /** Exactly one end of line goes, "\r\n" as a whole, and only at the end; a lone "\r" stays. */
  lemma StripEolExact(line: string)
    ensures line == StripEol(line) || line == StripEol(line) + "\n" || line == StripEol(line) + "\r\n"
    ensures line == StripEol(line) <==> line == [] || line[|line| - 1] != '\n'
    ensures line == StripEol(line) + "\r\n" <==> |line| >= 2 && line[|line| - 2] == '\r' && line[|line| - 1] == '\n'
  {
    if |line| >= 2 && line[|line| - 2] == '\r' && line[|line| - 1] == '\n' {
      assert line == line[..|line| - 2] + "\r\n";
    } else if line != [] && line[|line| - 1] == '\n' {
      assert line == line[..|line| - 1] + "\n";
    }
  }

  /** The part of `s` before its first `c`, or all of it. */
  function Before(s: string, c: char): string {
    if s == [] || s[0] == c then [] else [s[0]] + Before(s[1..], c)
  }

  function Slashes(s: string): (r: string)
    ensures |r| == |s|
    ensures forall i :: 0 <= i < |s| ==> r[i] == if s[i] == '\\' then '/' else s[i]
  {
    seq(|s|, i requires 0 <= i < |s| => if s[i] == '\\' then '/' else s[i])
  }

  const OLD_MARK := "--- "
  const NEW_MARK := "+++ "

  function HeaderName(line: string, mark: string): string
    requires mark <= line
  {
    Before(StripEol(line[|mark|..]), '\t')
  }

  function NormalizeName(name: string): string {
    var s := Slashes(name);
    if "a/" <= s || "b/" <= s then s[2..] else s
  }

  // ---- numbers ----

  predicate IsDigit(c: char) { '0' <= c <= '9' }

  function Number(s: string): nat
    requires forall i :: 0 <= i < |s| ==> IsDigit(s[i])
  {
    if s == [] then 0
    else
      assert IsDigit(s[|s| - 1]);
      Number(s[..|s| - 1]) * 10 + (s[|s| - 1] as int - '0' as int)
  }

  function Decimal(n: nat): (s: string)
    ensures s != [] && forall i :: 0 <= i < |s| ==> IsDigit(s[i])
    ensures Number(s) == n
  {
    var last := [('0' as int + n % 10) as char];
    if n < 10 then last
    else
      var s := Decimal(n / 10) + last;
      assert s[..|s| - 1] == Decimal(n / 10);
      s
  }

  /** What remains of `s` behind the literal `prefix`. */
  function After(s: string, prefix: string): (r: Option<string>) {
    if prefix <= s then Some(s[|prefix|..]) else None
  }

  function ReadNumber(s: string): Option<(nat, string)> {
    var n := LeadingRun(s, IsDigit);
    if n == 0 then None else Some((Number(s[..n]), s[n..]))
  }

  /** An optional ",count"; a range without one counts a single line. */
  function ReadCount(s: string): (nat, string) {
    if s != [] && s[0] == ',' && LeadingRun(s[1..], IsDigit) > 0 then
      ReadNumber(s[1..]).value
    else
      (1, s)
  }

  /** `^@@ -(\d+)(?:,(\d+))? \+(\d+)(?:,(\d+))? @@` matched at the start of `s`. */
  function MatchHunkHeader(s: string): Option<Header> {
    match After(s, "@@ -")
    case None => None
    case Some(s1) =>
    match ReadNumber(s1)
    case None => None
    case Some((oldStart, s2)) =>
    var (oldCount, s3) := ReadCount(s2);
    match After(s3, " +")
    case None => None
    case Some(s4) =>
    match ReadNumber(s4)
    case None => None
    case Some((newStart, s5)) =>
    var (newCount, s6) := ReadCount(s5);
    if " @@" <= s6 then Some(Header(oldStart, oldCount, newStart, newCount)) else None
  }

  predicate IsBodyLine(line: string) {
    MatchHunkHeader(StripEol(line)).None?
  }

  // ---- body lines ----

  datatype Kind = Context | Deletion | Addition | Marker | Unknown

  function KindOf(line: string): Kind {
    if " " <= line then Context
    else if "-" <= line then Deletion
    else if "+" <= line then Addition
    else if "\\" <= line then Marker
    else Unknown
  }

  predicate IsMarker(line: string) { KindOf(line) == Marker }

  datatype Side = OldSide | NewSide

  /** Does a body line of this kind belong to this side of the hunk? */
  predicate On(k: Kind, side: Side) {
    k == Context || k == if side == OldSide then Deletion else Addition
  }

  function StripTimes(line: string, n: nat): string {
    if n == 0 then line else StripEol(StripTimes(line, n - 1))
  }

  /** One side of a hunk body: each line of that side without its prefix, and without one end of
      line for every marker that directly follows it. */
  function SideLines(body: seq<string>, side: Side): seq<string> {
    if body == [] then []
    else if On(KindOf(body[0]), side) then
      [StripTimes(body[0][1..], LeadingRun(body[1..], IsMarker))] + SideLines(body[1..], side)
    else SideLines(body[1..], side)
  }

  function CountKind(body: seq<string>, k: Kind): nat {
    if body == [] then 0 else (if KindOf(body[0]) == k then 1 else 0) + CountKind(body[1..], k)
  }

  /** The first line a hunk body must not contain: an unknown one, or a marker before any line. */
  function BodyError(body: seq<string>): Option<PatchError> {
    if body == [] then None
    else if KindOf(body[0]) == Marker then Some(MarkerWithoutLine)
    else UnknownLine(body)
  }

  function UnknownLine(body: seq<string>): Option<PatchError> {
    if body == [] then None
    else if KindOf(body[0]) == Unknown then Some(UnexpectedLine)
    else UnknownLine(body[1..])
  }

  // ---- the whole patch ----

  function CheckHunk(h: Header, body: seq<string>): Result<Hunk, PatchError> {
    match BodyError(body)
    case Some(e) => Err(e)
    case None =>
      var oldLines, newLines := SideLines(body, OldSide), SideLines(body, NewSide);
      if h.oldCount > 0 && |oldLines| != h.oldCount then Err(OldCountMismatch)
      else if h.newCount > 0 && |newLines| != h.newCount then Err(NewCountMismatch)
      else if h.oldCount == 0 && oldLines != [] then Err(OldLinesInEmptyRange)
      else if h.newCount == 0 && newLines != [] then Err(NewLinesInEmptyRange)
      else Ok(Hunk(h.oldStart, h.oldCount, h.newStart, h.newCount, oldLines, newLines,
                   CountKind(body, Addition), CountKind(body, Deletion)))
  }

  function Prepend(hunks: seq<Hunk>, r: Result<seq<Hunk>, PatchError>): Result<seq<Hunk>, PatchError> {
    match r case Ok(more) => Ok(hunks + more) case Err(e) => Err(e)
  }

  /** The hunks of the raw lines behind the two file names. */
  function Hunks(raw: seq<string>): Result<seq<Hunk>, PatchError>
    decreases |raw|
  {
    if raw == [] then Ok([])
    else
      match MatchHunkHeader(StripEol(raw[0]))
      case None => Err(ExpectedHunkHeader)
      case Some(h) =>
        var n := LeadingRun(raw[1..], IsBodyLine);
        match CheckHunk(h, raw[1..1 + n])
        case Err(e) => Err(e)
        case Ok(hunk) => Prepend([hunk], Hunks(raw[1 + n..]))
  }

  /** Each hunk starts at or behind the end of the hunk before it. */
  predicate InOrder(hunks: seq<Hunk>, previousEnd: nat) {
    hunks != [] ==>
      && previousEnd <= hunks[0].oldStart
      && InOrder(hunks[1..], hunks[0].oldStart + hunks[0].oldCount)
  }

  function NameError(raw: seq<string>, target: string): Option<PatchError> {
    if raw == [] then Some(EmptyPatch)
    else if !(OLD_MARK <= raw[0]) then Some(MissingOldName)
    else if |raw| == 1 || !(NEW_MARK <= raw[1]) then Some(MissingNewName)
    else if NormalizeName(HeaderName(raw[0], OLD_MARK)) != NormalizeName(target)
         || NormalizeName(HeaderName(raw[1], NEW_MARK)) != NormalizeName(target) then Some(WrongTarget)
    else None
  }

  function Parse(raw: seq<string>, target: string): Result<seq<Hunk>, PatchError> {
    match NameError(raw, target)
    case Some(e) => Err(e)
    case None =>
      match Hunks(raw[2..])
      case Err(e) => Err(e)
      case Ok(hunks) =>
        if hunks == [] then Err(NoHunks)
        else if !InOrder(hunks, 0) then Err(OutOfOrder)
        else Ok(hunks)
  }

  /** What the parser guarantees of every hunk it returns. */
  predicate Counted(h: Hunk) {
    && |h.oldLines| == h.oldCount
    && |h.newLines| == h.newCount
    && h.newCount + h.removed == h.oldCount + h.added
  }

  /** One step of every definition over body lines. */
  lemma FirstLine(body: seq<string>, side: Side)
    requires body != []
    ensures SideLines(body, side)
            == (if On(KindOf(body[0]), side) then [StripTimes(body[0][1..], LeadingRun(body[1..], IsMarker))] else [])
               + SideLines(body[1..], side)
    ensures forall k :: CountKind(body, k) == (if KindOf(body[0]) == k then 1 else 0) + CountKind(body[1..], k)
    ensures KindOf(body[0]) != Unknown ==> UnknownLine(body) == UnknownLine(body[1..])
  {
    hide KindOf, StripTimes, LeadingRun;
  }

  lemma {:induction false} SideLengths(body: seq<string>)
    ensures |SideLines(body, OldSide)| == CountKind(body, Context) + CountKind(body, Deletion)
    ensures |SideLines(body, NewSide)| == CountKind(body, Context) + CountKind(body, Addition)
  {
    if body != [] {
      SideLengths(body[1..]);
    }
  }

  lemma {:induction false} HunksCounted(raw: seq<string>)
    requires Hunks(raw).Ok?
    ensures forall h :: h in Hunks(raw).value ==> Counted(h)
    decreases |raw|
  {
    hide MatchHunkHeader, StripEol, SideLines, BodyError;
    if raw != [] {
      var n := LeadingRun(raw[1..], IsBodyLine);
      SideLengths(raw[1..1 + n]);
      HunksCounted(raw[1 + n..]);
    }
  }

  /** Every accepted patch has at least one hunk, hunks in order, and counts that tell the truth. */
  lemma ParseCounted(raw: seq<string>, target: string)
    requires Parse(raw, target).Ok?
    ensures Parse(raw, target).value != []
    ensures InOrder(Parse(raw, target).value, 0)
    ensures forall h :: h in Parse(raw, target).value ==> Counted(h)
  {
    HunksCounted(raw[2..]);
  }
}
