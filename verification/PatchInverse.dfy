/** Undoing a patch by swapping its sides, and what an empty old range means to the program. */
module PatchInverse {
  import opened Results
  import opened PatchGrammar
  import opened PatchApply

  /** The same hunks read from the new text back to the old one. Line index `from` of the old text
      has become line index `at` of the new one, so a hunk starts `at - from` lines further down. */
  function Inverse(hunks: seq<Hunk>, from: nat, at: nat): (r: seq<Hunk>)
    requires InOrder(hunks, from + 1)
  {
    if hunks == [] then []
    else
      var h := hunks[0];
      var start := h.oldStart - from + at;
      [Hunk(start, h.newCount, h.oldStart, h.oldCount, h.newLines, h.oldLines, h.removed, h.added)]
      + Inverse(hunks[1..], h.oldStart - 1 + h.oldCount, start - 1 + h.newCount)
  }

  /** How many lines longer the hunks make a text. */
  function Growth(hunks: seq<Hunk>): int {
    if hunks == [] then 0 else |hunks[0].newLines| - |hunks[0].oldLines| + Growth(hunks[1..])
  }

  lemma {:induction false} InverseInOrder(hunks: seq<Hunk>, from: nat, at: nat)
    requires InOrder(hunks, from + 1)
    requires forall h :: h in hunks ==> Counted(h)
    ensures InOrder(Inverse(hunks, from, at), at + 1)
    ensures forall h :: h in Inverse(hunks, from, at) ==> Counted(h)
  {
    if hunks != [] {
      var h := hunks[0];
      var start := h.oldStart - from + at;
      assert Counted(h);
      InverseInOrder(hunks[1..], h.oldStart - 1 + h.oldCount, start - 1 + h.newCount);
      assert Inverse(hunks, from, at)[1..]
          == Inverse(hunks[1..], h.oldStart - 1 + h.oldCount, start - 1 + h.newCount);
    }
  }

  lemma InverseHunkFits(lines: seq<string>, h: Hunk, from: nat, before: seq<string>, rest: seq<string>, back: Hunk)
    requires from <= Position(h) && Fits(lines, h)
    requires Position(back) == |before| + Position(h) - from && back.oldLines == h.newLines && back.newLines == h.oldLines
    ensures var keep := lines[from..Position(h)];
            var result := before + (keep + h.newLines + rest);
            && Fits(result, back)
            && result == before + keep + h.newLines + rest
            && Position(back) <= |result| && result[|before|..Position(back)] == keep
            && lines[from..] == keep + back.newLines + lines[Position(h) + |h.oldLines|..]
  {
    var keep := lines[from..Position(h)];
    var result := before + (keep + h.newLines + rest);
    assert result[Position(back)..Position(back) + |back.oldLines|] == h.newLines;
  }

  lemma InverseCons(hunks: seq<Hunk>, from: nat, at: nat)
    requires hunks != [] && InOrder(hunks, from + 1) && Counted(hunks[0])
    ensures var h, back := hunks[0], Inverse(hunks, from, at);
            var start, next := at + Position(h) - from, Position(h) + |h.oldLines|;
            && from <= Position(h)
            && InOrder(hunks[1..], next + 1)
            && back != []
            && Position(back[0]) == start && back[0].oldLines == h.newLines && back[0].newLines == h.oldLines
            && back[1..] == Inverse(hunks[1..], next, start + |h.newLines|)
  {
  }

  lemma {:induction false} InverseFits(
    lines: seq<string>, hunks: seq<Hunk>, from: nat, before: seq<string>)
    requires forall h :: h in hunks ==> Counted(h)
    requires InOrder(hunks, from + 1)
    requires Placed(lines, hunks, from)
    ensures from <= |lines|
    ensures Leaves(before + Splice(lines, hunks, from), Inverse(hunks, from, |before|), |before|, lines[from..])
  {
    PlacedFits(lines, hunks, from);
    if hunks == [] {
      assert (before + lines[from..])[|before|..] == lines[from..];
    } else {
      hide *;
      var h, back := hunks[0], Inverse(hunks, from, |before|);
      InverseCons(hunks, from, |before|);
      SpliceCons(lines, hunks, from);
      var keep, next := lines[from..Position(h)], Position(h) + |h.oldLines|;
      var rest := Splice(lines, hunks[1..], next);
      InverseFits(lines, hunks[1..], next, before + keep + h.newLines);
      InverseHunkFits(lines, h, from, before, rest, back[0]);
      LeavesCons(before + (keep + h.newLines + rest), back, |before|, keep, lines[next..]);
    }
  }

  lemma {:induction false} GrowthIs(lines: seq<string>, hunks: seq<Hunk>, from: nat)
    requires forall h :: h in hunks ==> Counted(h)
    requires Placed(lines, hunks, from)
    ensures Growth(hunks) == Added(hunks) - Removed(hunks)
    ensures |Splice(lines, hunks, from)| == |lines| - from + Growth(hunks)
  {
    if hunks != [] {
      assert Counted(hunks[0]);
      GrowthIs(lines, hunks[1..], Position(hunks[0]) + |hunks[0].oldLines|);
    }
  }

  lemma {:induction false} InverseTotals(hunks: seq<Hunk>, from: nat, at: nat)
    requires InOrder(hunks, from + 1)
    ensures Added(Inverse(hunks, from, at)) == Removed(hunks)
    ensures Removed(Inverse(hunks, from, at)) == Added(hunks)
  {
    if hunks != [] {
      var h := hunks[0];
      InverseTotals(hunks[1..], h.oldStart - 1 + h.oldCount, h.oldStart - from + at - 1 + h.newCount);
      assert Inverse(hunks, from, at)[1..]
          == Inverse(hunks[1..], h.oldStart - 1 + h.oldCount, h.oldStart - from + at - 1 + h.newCount);
    }
  }

  /** Applying a patch and then its inverse gives back the original list of lines; the counts
      change places, and their difference is the change in length. */
  lemma PatchUndone(lines: seq<string>, hunks: seq<Hunk>)
    requires InOrder(hunks, 0)
    requires forall h :: h in hunks ==> Counted(h)
    requires ApplyHunks(lines, hunks).Ok?
    ensures InOrder(hunks, 1)
    ensures InOrder(Inverse(hunks, 0, 0), 0)
    ensures forall h :: h in Inverse(hunks, 0, 0) ==> Counted(h)
    ensures var (result, added, removed) := ApplyHunks(lines, hunks).value;
            && ApplyHunks(result, Inverse(hunks, 0, 0)) == Ok((lines, removed, added))
            && |result| - |lines| == added - removed
  {
    hide Fits, HunkError;
    FitsIffPlaced(lines, hunks);
    var back := Inverse(hunks, 0, 0);
    var result := Splice(lines, hunks, 0);
    InverseInOrder(hunks, 0, 0);
    InverseFits(lines, hunks, 0, []);
    assert [] + result == result && lines[0..] == lines;
    FitsIffPlaced(result, back);
    InverseTotals(hunks, 0, 0);
    GrowthIs(lines, hunks, 0);
  }

  // ---- empty old ranges ----

  /** What the POSIX format means by "-after,0": the lines go in behind line number `after`. */
  function InsertedBehind(lines: seq<string>, after: nat, newLines: seq<string>): seq<string>
    requires after <= |lines|
  {
    lines[..after] + newLines + lines[after..]
  }

  function Insertion(start: nat, newStart: nat, newLines: seq<string>): Hunk {
    Hunk(start, 0, newStart, |newLines|, [], newLines, |newLines|, 0)
  }

  /** The program reads "-after,0" as the place in front of line `after`, which may be the end, and
      refuses "-0,0". So it does what the POSIX format says exactly when there is a line `after` and
      every inserted line equals it. */
  lemma EmptyOldRange(lines: seq<string>, after: nat, newStart: nat, newLines: seq<string>)
    ensures var h := Insertion(after, newStart, newLines);
            && (ApplyHunks(lines, [h]).Ok? <==> 1 <= after <= |lines| + 1)
            && (1 <= after <= |lines| + 1 ==>
                  ApplyHunks(lines, [h]) == Ok((InsertedBehind(lines, after - 1, newLines), |newLines|, 0)))
            && (after <= |lines| ==>
                  (ApplyHunks(lines, [h]) == Ok((InsertedBehind(lines, after, newLines), |newLines|, 0))
                   <==> after >= 1 && forall line :: line in newLines ==> line == lines[after - 1]))
  {
    var h := Insertion(after, newStart, newLines);
    HunkErrorIs(lines, h);
    if 1 <= after <= |lines| + 1 {
      assert [h][1..] == [] && Added([]) == 0 && Removed([]) == 0;
      assert Added([h]) == |newLines| && Removed([h]) == 0;
      assert Splice(lines, [h], 0) == InsertedBehind(lines, after - 1, newLines);
      assert FirstError(lines, [h]) == None;
    }
    if 1 <= after <= |lines| {
      var rest := lines[after..];
      assert InsertedBehind(lines, after - 1, newLines) == lines[..after - 1] + (newLines + [lines[after - 1]] + rest);
      assert InsertedBehind(lines, after, newLines) == lines[..after - 1] + ([lines[after - 1]] + newLines + rest);
      Rotates(lines[..after - 1], newLines, lines[after - 1], rest);
    }
  }

  /** In a patch of any number of hunks, too, what an empty old range inserts stands between what the
      hunks before it make of the lines in front of the named one and what the hunks behind it make of
      the rest, the named line first. */
  lemma {:induction false} InsertedInFront(lines: seq<string>, a: seq<Hunk>, h: Hunk, b: seq<Hunk>, start: nat)
    requires Placed(lines, a + [h] + b, start) && h.oldLines == []
    ensures start <= Position(h) <= |lines| && Placed(lines[..Position(h)], a, start) && Placed(lines, b, Position(h))
    ensures Splice(lines, a + [h] + b, start)
            == Splice(lines[..Position(h)], a, start) + h.newLines + Splice(lines, b, Position(h))
    decreases |a|
  {
    var hunks := a + [h] + b;
    hide Fits, Placed, Splice;
    SpliceCons(lines, hunks, start);
    if a == [] {
      assert hunks[1..] == b && hunks[0] == h;
      NothingSpliced(lines[..Position(h)], start);
      PlacedFits(lines, b, Position(h));
    } else {
      var first := a[0];
      var next := Position(first) + |first.oldLines|;
      assert hunks[0] == first && hunks[1..] == a[1..] + [h] + b;
      InsertedInFront(lines, a[1..], h, b, next);
      FitsInFront(lines, Position(h), first);
      SpliceCons(lines[..Position(h)], a, start);
      assert lines[..Position(h)][start..Position(first)] == lines[start..Position(first)];
    }
  }

  lemma NothingSpliced(lines: seq<string>, start: nat)
    requires start <= |lines|
    ensures Placed(lines, [], start) && Splice(lines, [], start) == lines[start..]
  {
  }

  lemma FitsInFront(lines: seq<string>, end: nat, h: Hunk)
    requires Fits(lines, h) && 0 <= Position(h) && Position(h) + |h.oldLines| <= end <= |lines|
    ensures Fits(lines[..end], h)
  {
    assert lines[..end][Position(h)..Position(h) + |h.oldLines|] == lines[Position(h)..Position(h) + |h.oldLines|];
  }

  lemma Rotates(before: seq<string>, newLines: seq<string>, line: string, rest: seq<string>)
    ensures before + (newLines + [line] + rest) == before + ([line] + newLines + rest)
            <==> forall l :: l in newLines ==> l == line
  {
    var a, b := before + (newLines + [line] + rest), before + ([line] + newLines + rest);
    if a == b {
      AllEqual(before, newLines, line, rest, |newLines|);
    }
    if forall l :: l in newLines ==> l == line {
      assert forall i :: 0 <= i < |newLines| ==> newLines[i] in newLines;
      assert newLines + [line] == [line] + newLines;
    }
  }

  lemma {:induction false} AllEqual(before: seq<string>, newLines: seq<string>, line: string, rest: seq<string>, n: nat)
    requires n <= |newLines|
    requires before + (newLines + [line] + rest) == before + ([line] + newLines + rest)
    ensures forall i :: 0 <= i < n ==> newLines[i] == line
  {
    if n > 0 {
      AllEqual(before, newLines, line, rest, n - 1);
      var k := |before| + n - 1;
      assert (before + (newLines + [line] + rest))[k] == newLines[n - 1];
      assert (before + ([line] + newLines + rest))[k] == if n == 1 then line else newLines[n - 2];
    }
  }

  /** The concrete case: "-1,0" on a two-line file puts the new line first. */
  lemma EmptyOldRangeExample()
    ensures ApplyHunks(["a\n", "b\n"], [Insertion(1, 2, ["x\n"])]) == Ok((["x\n", "a\n", "b\n"], 1, 0))
    ensures InsertedBehind(["a\n", "b\n"], 1, ["x\n"]) == ["a\n", "x\n", "b\n"]
  {
    EmptyOldRange(["a\n", "b\n"], 1, 2, ["x\n"]);
    assert InsertedBehind(["a\n", "b\n"], 0, ["x\n"]) == ["x\n", "a\n", "b\n"];
  }
}
