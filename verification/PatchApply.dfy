/** Applying the hunks of a patch to a list of lines: the shifting loop of `apply_patch_text`
    equals one simultaneous splice of the original. */
module PatchApply {
  import opened Results
  import opened PatchGrammar
  import opened PatchParser
  import opened Text
  import opened Seqs

  /** Index of the line a hunk starts at; -1 for a range that starts at line 0. */
  function Position(h: Hunk): int { h.oldStart - 1 }

  function HunkError(lines: seq<string>, h: Hunk): Option<PatchError> {
    if Position(h) < 0 || Position(h) + |h.oldLines| > |lines| then Some(OutOfRange)
    else if lines[Position(h)..Position(h) + |h.oldLines|] != h.oldLines then Some(DoesNotMatch)
    else None
  }

  /** The old lines of the hunk stand in the original, at the position the hunk names. */
  predicate Fits(lines: seq<string>, h: Hunk) {
    HunkError(lines, h).None?
  }

  function FirstError(lines: seq<string>, hunks: seq<Hunk>): (e: Option<PatchError>)
    ensures e.None? <==> forall h :: h in hunks ==> Fits(lines, h)
  {
    if hunks == [] then None
    else
      assert Fits(lines, hunks[0]) <==> HunkError(lines, hunks[0]).None?;
      match HunkError(lines, hunks[0])
      case Some(e) => Some(e)
      case None => FirstError(lines, hunks[1..])
  }

  /** Hunks that fit, one behind the other, from line index `start` on. */
  predicate Placed(lines: seq<string>, hunks: seq<Hunk>, start: nat) {
    if hunks == [] then start <= |lines|
    else
      && start <= Position(hunks[0])
      && Fits(lines, hunks[0])
      && Placed(lines, hunks[1..], Position(hunks[0]) + |hunks[0].oldLines|)
  }

  /** The simultaneous replacement: `lines` from `start` on, with each hunk's old lines exchanged
      for its new ones; every position refers to the original. */
  function Splice(lines: seq<string>, hunks: seq<Hunk>, start: nat): seq<string>
    requires Placed(lines, hunks, start)
  {
    if hunks == [] then lines[start..]
    else
      lines[start..Position(hunks[0])] + hunks[0].newLines
      + Splice(lines, hunks[1..], Position(hunks[0]) + |hunks[0].oldLines|)
  }

  /** One step of both definitions. */
  lemma SpliceCons(lines: seq<string>, hunks: seq<Hunk>, start: nat)
    requires hunks != []
    ensures var h := hunks[0];
            && (Placed(lines, hunks, start) <==>
                  start <= Position(h) && Fits(lines, h) && Placed(lines, hunks[1..], Position(h) + |h.oldLines|))
            && (Placed(lines, hunks, start) ==>
                  Position(h) <= |lines|
                  && Splice(lines, hunks, start)
                     == lines[start..Position(h)] + h.newLines
                        + Splice(lines, hunks[1..], Position(h) + |h.oldLines|))
  {
    assert Fits(lines, hunks[0]) ==> Position(hunks[0]) <= |lines|;
    hide Fits;
  }

  /** The hunks fit behind the first `start` lines, and make `tail` of what follows them. */
  ghost predicate Leaves(lines: seq<string>, hunks: seq<Hunk>, start: nat, tail: seq<string>) {
    Placed(lines, hunks, start) && Splice(lines, hunks, start) == tail
  }

  lemma LeavesCons(lines: seq<string>, hunks: seq<Hunk>, start: nat, keep: seq<string>, tail: seq<string>)
    requires hunks != [] && start <= Position(hunks[0]) && Fits(lines, hunks[0])
    requires Position(hunks[0]) <= |lines| && lines[start..Position(hunks[0])] == keep
    requires Leaves(lines, hunks[1..], Position(hunks[0]) + |hunks[0].oldLines|, tail)
    ensures Leaves(lines, hunks, start, keep + hunks[0].newLines + tail)
  {
    hide Fits;
    SpliceCons(lines, hunks, start);
  }

  function Added(hunks: seq<Hunk>): nat {
    if hunks == [] then 0 else hunks[0].added + Added(hunks[1..])
  }

  function Removed(hunks: seq<Hunk>): nat {
    if hunks == [] then 0 else hunks[0].removed + Removed(hunks[1..])
  }

  lemma {:induction false} InOrderPlaced(lines: seq<string>, hunks: seq<Hunk>, start: nat)
    requires InOrder(hunks, start + 1)
    requires start <= |lines|
    requires forall h :: h in hunks ==> Counted(h) && Fits(lines, h)
    ensures Placed(lines, hunks, start)
  {
    if hunks != [] {
      assert Counted(hunks[0]) && Fits(lines, hunks[0]);
      InOrderPlaced(lines, hunks[1..], Position(hunks[0]) + |hunks[0].oldLines|);
    }
  }

  /** For hunks in order, fitting one by one is the same as fitting together. */
  lemma FitsIffPlaced(lines: seq<string>, hunks: seq<Hunk>)
    requires InOrder(hunks, 0)
    requires forall h :: h in hunks ==> Counted(h)
    ensures (forall h :: h in hunks ==> Fits(lines, h)) <==> Placed(lines, hunks, 0)
  {
    if forall h :: h in hunks ==> Fits(lines, h) {
      if hunks != [] {
        assert Fits(lines, hunks[0]);
      }
      InOrderPlaced(lines, hunks, 0);
    }
    if Placed(lines, hunks, 0) {
      PlacedFits(lines, hunks, 0);
    }
  }

  lemma {:induction false} PlacedFits(lines: seq<string>, hunks: seq<Hunk>, start: nat)
    requires Placed(lines, hunks, start)
    ensures start <= |lines|
    ensures forall h :: h in hunks ==> Fits(lines, h)
  {
    if hunks != [] {
      PlacedFits(lines, hunks[1..], Position(hunks[0]) + |hunks[0].oldLines|);
    }
  }

  /** What applying parsed hunks means: everything at once, or the error of the first misfit. */
  function ApplyHunks(lines: seq<string>, hunks: seq<Hunk>): Result<(seq<string>, nat, nat), PatchError>
    requires InOrder(hunks, 0)
    requires forall h :: h in hunks ==> Counted(h)
  {
    match FirstError(lines, hunks)
    case Some(e) => Err(e)
    case None =>
      FitsIffPlaced(lines, hunks);
      Ok((Splice(lines, hunks, 0), Added(hunks), Removed(hunks)))
  }

  function Apply(original: string, patch: string, target: string): Result<(string, nat, nat), PatchError> {
    match Parse(SplitLines(patch), target)
    case Err(e) => Err(e)
    case Ok(hunks) =>
      ParseCounted(SplitLines(patch), target);
      match ApplyHunks(SplitLines(original), hunks)
      case Err(e) => Err(e)
      case Ok((lines, added, removed)) => Ok((Concat(lines), added, removed))
  }

  /** The invariant of the shifting loop. `done` is what the hunks before `i` made of the first
      `from` lines; every later hunk still finds the original behind it, `offset` lines further. */
  ghost predicate Shifted(original: seq<string>, hunks: seq<Hunk>, i: nat,
                          done: seq<string>, from: nat, offset: int, lines: seq<string>) {
    && i <= |hunks|
    && from <= |original|
    && |done| == from + offset
    && lines == done + original[from..]
    && (i == 0 ==> offset == 0 && from == 0)
    && InOrder(hunks[i..], if i == 0 then 0 else from + 1)
    && FirstError(original, hunks) == FirstError(original, hunks[i..])
    && SplicedUpTo(original, hunks, i, done, from)
  }

  ghost predicate SplicedUpTo(original: seq<string>, hunks: seq<Hunk>, i: nat, done: seq<string>, from: nat)
    requires i <= |hunks|
  {
    && (Placed(original, hunks, 0) <==> Placed(original, hunks[i..], from))
    && (Placed(original, hunks, 0) ==> Splice(original, hunks, 0) == done + Splice(original, hunks[i..], from))
  }

  lemma ShiftedStart(original: seq<string>, hunks: seq<Hunk>)
    requires InOrder(hunks, 0)
    ensures Shifted(original, hunks, 0, [], 0, 0, original)
  {
    assert hunks[0..] == hunks;
    assert original[0..] == original;
    if Placed(original, hunks, 0) {
      assert [] + Splice(original, hunks, 0) == Splice(original, hunks, 0);
    }
  }

  /** Looking at the shifted position in the shifting list tells the same as looking at the
      hunk's own position in the original. */
  lemma ShiftedLook(original: seq<string>, hunks: seq<Hunk>, i: nat,
                    done: seq<string>, from: nat, offset: int, lines: seq<string>)
    requires Shifted(original, hunks, i, done, from, offset, lines) && i < |hunks|
    ensures var h, start := hunks[i], Position(hunks[i]) + offset;
            && |lines| == |original| + offset
            && (start < 0 <==> Position(h) < 0)
            && (0 <= start && start + |h.oldLines| <= |lines| ==>
                  lines[start..start + |h.oldLines|]
                  == original[Position(h)..Position(h) + |h.oldLines|])
  {
    hide Splice, Placed, FirstError;
    assert hunks[i..][0] == hunks[i];
  }

  lemma ShiftedMisfit(original: seq<string>, hunks: seq<Hunk>, i: nat,
                      done: seq<string>, from: nat, offset: int, lines: seq<string>)
    requires Shifted(original, hunks, i, done, from, offset, lines) && i < |hunks|
    requires HunkError(original, hunks[i]).Some?
    ensures FirstError(original, hunks) == HunkError(original, hunks[i])
  {
    assert hunks[i..][0] == hunks[i];
  }

  lemma SplicedStep(original: seq<string>, hunks: seq<Hunk>, i: nat, done: seq<string>, from: nat)
    requires i < |hunks| && SplicedUpTo(original, hunks, i, done, from)
    requires from <= Position(hunks[i]) && Fits(original, hunks[i])
    ensures SplicedUpTo(original, hunks, i + 1, done + original[from..Position(hunks[i])] + hunks[i].newLines,
                        Position(hunks[i]) + |hunks[i].oldLines|)
  {
    var h := hunks[i];
    assert hunks[i..][0] == h && hunks[i..][1..] == hunks[i + 1..];
    if Placed(original, hunks, 0) {
      var before := original[from..Position(h)];
      var rest := Splice(original, hunks[i + 1..], Position(h) + |h.oldLines|);
      assert done + (before + h.newLines + rest) == done + before + h.newLines + rest;
    }
  }

  lemma ShiftedStep(original: seq<string>, hunks: seq<Hunk>, i: nat,
                    done: seq<string>, from: nat, offset: int, lines: seq<string>)
    requires Shifted(original, hunks, i, done, from, offset, lines) && i < |hunks|
    requires Fits(original, hunks[i]) && Counted(hunks[i])
    ensures var h, start := hunks[i], Position(hunks[i]) + offset;
            && from <= Position(h) <= |original|
            && 0 <= start && start + |h.oldLines| <= |lines|
            && Shifted(original, hunks, i + 1,
                       done + original[from..Position(h)] + h.newLines, Position(h) + |h.oldLines|,
                       offset + |h.newLines| - |h.oldLines|,
                       lines[..start] + h.newLines + lines[start + |h.oldLines|..])
  {
    hide Placed, Splice, SplicedUpTo;
    var h, start := hunks[i], Position(hunks[i]) + offset;
    assert hunks[i..][0] == h && hunks[i..][1..] == hunks[i + 1..];
    SplicedStep(original, hunks, i, done, from);
    var next := Position(h) + |h.oldLines|;
    assert lines[..start] == done + original[from..Position(h)];
    assert lines[start + |h.oldLines|..] == original[next..];
  }

  lemma ShiftedEnd(original: seq<string>, hunks: seq<Hunk>,
                   done: seq<string>, from: nat, offset: int, lines: seq<string>)
    requires Shifted(original, hunks, |hunks|, done, from, offset, lines)
    ensures FirstError(original, hunks).None?
    ensures Placed(original, hunks, 0) && Splice(original, hunks, 0) == lines
  {
    assert hunks[|hunks|..] == [];
  }

  lemma HunkErrorIs(lines: seq<string>, h: Hunk)
    requires Counted(h)
    ensures var start := Position(h);
            HunkError(lines, h) ==
            if start < 0 || start + |h.oldLines| > |lines| then Some(OutOfRange)
            else if lines[start..start + |h.oldLines|] != h.oldLines then Some(DoesNotMatch)
            else None
    ensures Fits(lines, h) <==> HunkError(lines, h).None?
    ensures h.oldCount == 0 ==> HunkError(lines, h) != Some(DoesNotMatch)
  {
    if h.oldCount == 0 && 0 <= Position(h) <= |lines| {
      assert lines[Position(h)..Position(h)] == h.oldLines;
    }
  }

  /** The loop of `apply_patch_text`: a running offset over a list that changes hunk by hunk. */
  method ApplyInPlace(original: seq<string>, hunks: seq<Hunk>)
    returns (r: Result<(seq<string>, nat, nat), PatchError>)
    requires InOrder(hunks, 0)
    requires forall h :: h in hunks ==> Counted(h)
    ensures r == ApplyHunks(original, hunks)
    ensures r.Ok? <==> forall h :: h in hunks ==> Fits(original, h)
  {
    hide Shifted, Splice, Fits, HunkError, FirstError, Placed, InOrder;
    var lines := original;
    var offset := 0;
    var addedTotal: nat, removedTotal: nat := 0, 0;
    ghost var done: seq<string>, from: nat := [], 0;
    ShiftedStart(original, hunks);
    assert hunks[0..] == hunks;
    for i := 0 to |hunks|
      invariant Shifted(original, hunks, i, done, from, offset, lines)
      invariant addedTotal + Added(hunks[i..]) == Added(hunks)
      invariant removedTotal + Removed(hunks[i..]) == Removed(hunks)
    {
      var hunk := hunks[i];
      var start := hunk.oldStart - 1 + offset;
      assert Counted(hunk) && hunks[i..][0] == hunk && hunks[i..][1..] == hunks[i + 1..];
      ShiftedLook(original, hunks, i, done, from, offset, lines);
      HunkErrorIs(original, hunk);
      if HunkError(original, hunk).Some? {
        ShiftedMisfit(original, hunks, i, done, from, offset, lines);
      }
      if hunk.oldCount == 0 {
        if start < 0 || start > |lines| {
          return Err(OutOfRange);
        }
      } else {
        var end := start + |hunk.oldLines|;
        if start < 0 || end > |lines| {
          return Err(OutOfRange);
        }
        if lines[start..end] != hunk.oldLines {
          return Err(DoesNotMatch);
        }
      }
      ShiftedStep(original, hunks, i, done, from, offset, lines);
      done := done + original[from..Position(hunk)] + hunk.newLines;
      from := Position(hunk) + |hunk.oldLines|;
      lines := lines[..start] + hunk.newLines + lines[start + |hunk.oldLines|..];
      offset := offset + |hunk.newLines| - |hunk.oldLines|;
      addedTotal := addedTotal + hunk.added;
      removedTotal := removedTotal + hunk.removed;
    }
    assert hunks[|hunks|..] == [];
    ShiftedEnd(original, hunks, done, from, offset, lines);
    return Ok((lines, addedTotal, removedTotal));
  }

  method ApplyPatchText(original: string, patch: string, target: string)
    returns (r: Result<(string, nat, nat), PatchError>)
    ensures r == Apply(original, patch, target)
  {
    hide Parse, SplitLines, Concat, ApplyHunks;
    var parsed := ParseUnifiedPatch(patch, target);
    if parsed.Err? {
      return Err(parsed.error);
    }
    ParseCounted(SplitLines(patch), target);
    var applied := ApplyInPlace(SplitLines(original), parsed.value);
    if applied.Err? {
      return Err(applied.error);
    }
    return Ok((Concat(applied.value.0), applied.value.1, applied.value.2));
  }
}
