/** The parser loop of `parse_unified_patch`, proved against `PatchGrammar.Parse`. */
module PatchParser {
  import opened Results
  import opened Seqs
  import opened PatchGrammar
  import Text

  /** The kind of the last body line that is not a marker. */
  function LastKind(body: seq<string>): Option<Kind> {
    if body == [] then None
    else
      var k := KindOf(body[|body| - 1]);
      if k == Marker then LastKind(body[..|body| - 1]) else Some(k)
  }

  function StripLast(lines: seq<string>): seq<string>
    requires lines != []
  {
    lines[..|lines| - 1] + [StripEol(lines[|lines| - 1])]
  }

  lemma {:induction false} MarkerRunSnoc(body: seq<string>, line: string)
    ensures var all := LeadingRun(body, IsMarker) == |body|;
            LeadingRun(body + [line], IsMarker)
            == LeadingRun(body, IsMarker) + if all && IsMarker(line) then 1 else 0
  {
    if body != [] {
      assert (body + [line])[1..] == body[1..] + [line];
      MarkerRunSnoc(body[1..], line);
    }
  }

  lemma {:induction false} LastKindCons(body: seq<string>)
    requires body != []
    ensures LastKind(body[1..]).Some? ==> LastKind(body) == LastKind(body[1..])
    ensures LastKind(body[1..]).None? ==>
              LeadingRun(body[1..], IsMarker) == |body| - 1
              && LastKind(body) == if IsMarker(body[0]) then None else Some(KindOf(body[0]))
    ensures LeadingRun(body[1..], IsMarker) == |body| - 1 ==> LastKind(body[1..]).None?
    decreases |body|
  {
    if |body| > 1 {
      var front := body[..|body| - 1];
      assert front[1..] == body[1..][..|body| - 2];
      LastKindCons(front);
      assert body[1..] == front[1..] + [body[|body| - 1]];
      MarkerRunSnoc(front[1..], body[|body| - 1]);
    }
  }

  /** A marker strips one end of line from the last line of each side that owns the last line. */
  ghost predicate MarkerStrips(body: seq<string>, marker: string, side: Side) {
    var kind := LastKind(body);
    if kind.Some? && On(kind.value, side)
    then SideLines(body, side) != []
         && SideLines(body + [marker], side) == StripLast(SideLines(body, side))
    else SideLines(body + [marker], side) == SideLines(body, side)
  }

  lemma {:induction false} SideLinesMarker(body: seq<string>, marker: string, side: Side)
    requires KindOf(marker) == Marker
    ensures MarkerStrips(body, marker, side)
    decreases |body|
  {
    if body == [] {
      assert body + [marker] == [marker];
    } else {
      hide StripEol, StripTimes, SideLines, LastKind, LeadingRun, KindOf;
      var rest, run := body[1..], LeadingRun(body[1..], IsMarker);
      assert (body + [marker])[1..] == rest + [marker];
      SideLinesMarker(rest, marker, side);
      LastKindCons(body);
      MarkerRunSnoc(rest, marker);
      OnlyMarkersLeft(rest, side);
      FirstLine(body, side);
      FirstLine(body + [marker], side);
      var text := if body[0] != [] then body[0][1..] else [];
      StripOnceMore(text, run);
      if SideLines(rest, side) != [] {
        StripLastCons(if On(KindOf(body[0]), side) then [StripTimes(text, run)] else [], SideLines(rest, side));
      }
    }
  }

  lemma StripOnceMore(text: string, n: nat)
    ensures StripTimes(text, n + 1) == StripEol(StripTimes(text, n))
  {
    hide StripEol;
  }

  lemma StripLastCons(first: seq<string>, rest: seq<string>)
    requires rest != []
    ensures StripLast(first + rest) == first + StripLast(rest)
  {
    hide StripEol;
  }

  lemma {:induction false} OnlyMarkersLeft(body: seq<string>, side: Side)
    ensures LeadingRun(body, IsMarker) == |body| ==> SideLines(body, side) == []
  {
    if body != [] {
      assert LeadingRun(body, IsMarker) == |body| ==> IsMarker(body[0]);
      OnlyMarkersLeft(body[1..], side);
    }
  }

  /** Any other line adds itself to the sides it belongs to. */
  lemma {:induction false} SideLinesLine(body: seq<string>, line: string, side: Side)
    requires KindOf(line) != Marker
    ensures SideLines(body + [line], side)
            == SideLines(body, side) + if On(KindOf(line), side) then [line[1..]] else []
  {
    hide StripEol;
    if body == [] {
      assert body + [line] == [line];
      assert [line][1..] == [];
    } else {
      assert (body + [line])[1..] == body[1..] + [line];
      SideLinesLine(body[1..], line, side);
      MarkerRunSnoc(body[1..], line);
    }
  }

  lemma {:induction false} CountSnoc(body: seq<string>, line: string, k: Kind)
    ensures CountKind(body + [line], k) == CountKind(body, k) + if KindOf(line) == k then 1 else 0
  {
    if body == [] {
      assert body + [line] == [line];
    } else {
      assert (body + [line])[1..] == body[1..] + [line];
      CountSnoc(body[1..], line, k);
    }
  }

  lemma {:induction false} UnknownSnoc(body: seq<string>, line: string)
    requires UnknownLine(body).None?
    ensures UnknownLine(body + [line]) == if KindOf(line) == Unknown then Some(UnexpectedLine) else None
  {
    if body == [] {
      assert body + [line] == [line];
    } else {
      assert (body + [line])[1..] == body[1..] + [line];
      UnknownSnoc(body[1..], line);
    }
  }

  lemma {:induction false} UnknownPrefix(body: seq<string>, n: nat)
    requires n <= |body| && UnknownLine(body[..n]).Some?
    ensures UnknownLine(body) == Some(UnexpectedLine)
  {
    if n > 0 && KindOf(body[0]) != Unknown {
      assert body[..n][1..] == body[1..][..n - 1];
      UnknownPrefix(body[1..], n - 1);
    }
  }

  /** The first bad line decides, whatever follows it. */
  lemma BodyErrorPrefix(body: seq<string>, n: nat)
    requires n <= |body| && BodyError(body[..n]).Some?
    ensures BodyError(body) == BodyError(body[..n])
  {
    if KindOf(body[0]) != Marker {
      UnknownPrefix(body, n);
      assert body[..n][..n] == body[..n];
      UnknownPrefix(body[..n], n);
    }
  }

  lemma BodyErrorSnoc(body: seq<string>, line: string)
    requires BodyError(body).None?
    ensures BodyError(body + [line]) ==
            if KindOf(line) == Marker && LastKind(body).None? then Some(MarkerWithoutLine)
            else if KindOf(line) == Unknown then Some(UnexpectedLine)
            else None
  {
    UnknownSnoc(body, line);
    if body == [] {
      assert body + [line] == [line];
    } else {
      LastKindCons(body);
    }
  }

  /** What the body loop has gathered from the lines it has read. */
  ghost predicate Gathered(body: seq<string>, oldLines: seq<string>, newLines: seq<string>,
                           added: nat, removed: nat, lastKind: Option<Kind>) {
    && BodyError(body).None?
    && oldLines == SideLines(body, OldSide)
    && newLines == SideLines(body, NewSide)
    && added == CountKind(body, Addition)
    && removed == CountKind(body, Deletion)
    && lastKind == LastKind(body)
  }

  /** Reads one hunk body from `raw[start]` on and checks it against its header. */
  method ReadHunk(raw: seq<string>, start: nat, header: Header) returns (index: nat, r: Result<Hunk, PatchError>)
    requires start <= |raw|
    ensures var n := LeadingRun(raw[start..], IsBodyLine);
            r == CheckHunk(header, raw[start..start + n]) && (r.Ok? ==> index == start + n)
  {
    hide MatchHunkHeader, StripEol, SideLines, CountKind, LastKind, BodyError;
    index := start;
    var oldLines: seq<string>, newLines: seq<string> := [], [];
    var added, removed := 0, 0;
    var lastKind: Option<Kind> := None;
    ghost var n := LeadingRun(raw[start..], IsBodyLine);
    ghost var body := raw[start..start + n];
    GatheredNothing();
    assert raw[start..index] == [];
    while index < |raw| && MatchHunkHeader(StripEol(raw[index])).None?
      invariant start <= index <= start + n
      invariant Gathered(raw[start..index], oldLines, newLines, added, removed, lastKind)
      decreases |raw| - index
    {
      assert IsBodyLine(raw[start..][index - start]);
      var line := raw[index];
      var kind := KindOf(line);
      ghost var before := raw[start..index];
      assert raw[start..index + 1] == before + [line] == body[..index + 1 - start];
      BodyErrorSnoc(before, line);
      CountSnoc(before, line, Addition);
      CountSnoc(before, line, Deletion);
      match kind {
        case Context =>
          oldLines, newLines := oldLines + [line[1..]], newLines + [line[1..]];
          lastKind := Some(Context);
        case Deletion =>
          oldLines, removed, lastKind := oldLines + [line[1..]], removed + 1, Some(Deletion);
        case Addition =>
          newLines, added, lastKind := newLines + [line[1..]], added + 1, Some(Addition);
        case Marker =>
          SideLinesMarker(before, line, OldSide);
          SideLinesMarker(before, line, NewSide);
          if lastKind.None? {
            BodyErrorPrefix(body, index + 1 - start);
            return index, Err(MarkerWithoutLine);
          }
          if (lastKind == Some(Context) || lastKind == Some(Deletion)) && oldLines != [] {
            oldLines := StripLast(oldLines);
          }
          if (lastKind == Some(Context) || lastKind == Some(Addition)) && newLines != [] {
            newLines := StripLast(newLines);
          }
        case Unknown =>
          BodyErrorPrefix(body, index + 1 - start);
          return index, Err(UnexpectedLine);
      }
      LastKindSnoc(before, line);
      if kind != Marker {
        SideLinesLine(before, line, OldSide);
        SideLinesLine(before, line, NewSide);
      }
      index := index + 1;
    }
    assert index == start + n;
    if header.oldCount > 0 && |oldLines| != header.oldCount {
      return index, Err(OldCountMismatch);
    }
    if header.newCount > 0 && |newLines| != header.newCount {
      return index, Err(NewCountMismatch);
    }
    if header.oldCount == 0 && oldLines != [] {
      return index, Err(OldLinesInEmptyRange);
    }
    if header.newCount == 0 && newLines != [] {
      return index, Err(NewLinesInEmptyRange);
    }
    return index, Ok(Hunk(header.oldStart, header.oldCount, header.newStart, header.newCount,
                          oldLines, newLines, added, removed));
  }

  lemma GatheredNothing()
    ensures Gathered([], [], [], 0, 0, None)
  {
  }

  lemma LastKindSnoc(body: seq<string>, line: string)
    ensures LastKind(body + [line]) == if KindOf(line) == Marker then LastKind(body) else Some(KindOf(line))
  {
    assert (body + [line])[..|body|] == body;
  }

  lemma PrependTwice(a: seq<Hunk>, b: seq<Hunk>, r: Result<seq<Hunk>, PatchError>)
    ensures Prepend(a, Prepend(b, r)) == Prepend(a + b, r)
  {
    if r.Ok? {
      assert a + (b + r.value) == a + b + r.value;
    }
  }

  lemma PrependNone(r: Result<seq<Hunk>, PatchError>)
    ensures Prepend([], r) == r
  {
    if r.Ok? {
      assert [] + r.value == r.value;
    }
  }

  /** The ordering pass: fails at the first hunk that starts before the end of its predecessor. */
  method CheckOrder(hunks: seq<Hunk>) returns (ok: bool)
    ensures ok <==> InOrder(hunks, 0)
  {
    var previousEnd: nat := 0;
    for i := 0 to |hunks|
      invariant InOrder(hunks, 0) == InOrder(hunks[i..], previousEnd)
    {
      assert hunks[i..][1..] == hunks[i + 1..];
      if hunks[i].oldStart < previousEnd {
        return false;
      }
      previousEnd := hunks[i].oldStart + hunks[i].oldCount;
    }
    return true;
  }

  lemma NoHunksLeft(hunks: seq<Hunk>)
    ensures Prepend(hunks, Hunks([])) == Ok(hunks)
  {
    assert hunks + [] == hunks;
  }

  lemma HunksFrom(raw: seq<string>, i: nat)
    requires i < |raw|
    ensures Hunks(raw[i..]) ==
            match MatchHunkHeader(StripEol(raw[i]))
            case None => Err(ExpectedHunkHeader)
            case Some(h) =>
              var end := i + 1 + LeadingRun(raw[i + 1..], IsBodyLine);
              match CheckHunk(h, raw[i + 1..end])
              case Err(e) => Err(e)
              case Ok(hunk) => Prepend([hunk], Hunks(raw[end..]))
  {
    hide MatchHunkHeader, StripEol, CheckHunk, Prepend, LeadingRun;
    var rest := raw[i..];
    var n := LeadingRun(rest[1..], IsBodyLine);
    assert rest[1..] == raw[i + 1..];
    assert rest[1..1 + n] == raw[i + 1..i + 1 + n];
    assert rest[1 + n..] == raw[i + 1 + n..];
  }

  /** The outer loop: hunk after hunk until the raw lines are used up. */
  method ReadHunks(raw: seq<string>, start: nat) returns (r: Result<seq<Hunk>, PatchError>)
    requires start <= |raw|
    ensures r == Hunks(raw[start..])
  {
    hide MatchHunkHeader, StripEol, CheckHunk, Hunks, LeadingRun;
    var index := start;
    var hunks: seq<Hunk> := [];
    PrependNone(Hunks(raw[start..]));
    while index < |raw|
      invariant start <= index <= |raw|
      invariant Hunks(raw[start..]) == Prepend(hunks, Hunks(raw[index..]))
      decreases |raw| - index
    {
      HunksFrom(raw, index);
      var header := MatchHunkHeader(StripEol(raw[index]));
      if header.None? {
        return Err(ExpectedHunkHeader);
      }
      index := index + 1;
      var hunk: Result<Hunk, PatchError>;
      index, hunk := ReadHunk(raw, index, header.value);
      if hunk.Err? {
        return Err(hunk.error);
      }
      PrependTwice(hunks, [hunk.value], Hunks(raw[index..]));
      hunks := hunks + [hunk.value];
    }
    NoHunksLeft(hunks);
    assert raw[index..] == [];
    return Ok(hunks);
  }

  method ParseUnifiedPatch(patch: string, target: string) returns (r: Result<seq<Hunk>, PatchError>)
    ensures r == Parse(Text.SplitLines(patch), target)
  {
    hide Hunks, InOrder, HeaderName, NormalizeName, Text.SplitLines;
    var raw := Text.SplitLines(patch);
    if raw == [] {
      return Err(EmptyPatch);
    }
    var index := 0;
    if !(OLD_MARK <= raw[index]) {
      return Err(MissingOldName);
    }
    var oldName := HeaderName(raw[index], OLD_MARK);
    index := index + 1;
    if index >= |raw| || !(NEW_MARK <= raw[index]) {
      return Err(MissingNewName);
    }
    var newName := HeaderName(raw[index], NEW_MARK);
    index := index + 1;
    var expected := NormalizeName(target);
    if NormalizeName(oldName) != expected || NormalizeName(newName) != expected {
      return Err(WrongTarget);
    }
    var hunks := ReadHunks(raw, index);
    if hunks.Err? {
      return Err(hunks.error);
    }
    if hunks.value == [] {
      return Err(NoHunks);
    }
    var ok := CheckOrder(hunks.value);
    if !ok {
      return Err(OutOfOrder);
    }
    return hunks;
  }
}
