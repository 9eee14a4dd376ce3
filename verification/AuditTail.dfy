/** The backward chunked reader of the newest log lines. */
module AuditTail {
  import opened FileSystem
  import opened AuditLines
  import opened Seqs

  const MAX_READ_BYTES := 1_000_000
  const CHUNK := 8192

  function NonBlank(parts: seq<Bytes>): seq<Bytes> {
    if parts == [] then []
    else (if Blank(parts[0]) then [] else [parts[0]]) + NonBlank(parts[1..])
  }

  function LastOf<T>(s: seq<T>, n: nat): seq<T> {
    if |s| <= n then s else s[|s| - n..]
  }

  lemma {:induction false} NonBlankAppend(a: seq<Bytes>, b: seq<Bytes>)
    ensures NonBlank(a + b) == NonBlank(a) + NonBlank(b)
  {
    if a == [] {
      assert a + b == b;
    } else {
      assert (a + b)[1..] == a[1..] + b;
      NonBlankAppend(a[1..], b);
    }
  }

  /** The newest `limit` non-blank lines of what lies behind `position`. */
  function Tail(data: Bytes, position: nat, limit: nat): seq<Bytes>
    requires position <= |data|
  {
    LastOf(NonBlank(Split(data[position..])), limit)
  }

  /** The lines already behind the reader: all of them, or as many as were asked for. */
  ghost predicate Collected(lines: seq<Bytes>, parts: seq<Bytes>, limit: nat) {
    Reverse(lines) == LastOf(NonBlank(parts), limit)
  }

  lemma LastOfAppend(a: seq<Bytes>, b: seq<Bytes>, n: nat)
    ensures |b| >= n ==> LastOf(a + b, n) == LastOf(b, n)
    ensures |b| < n ==> LastOf(a + b, n) == LastOf(a, n - |b|) + b
  {
  }

  lemma CollectOne(lines: seq<Bytes>, part: Bytes, parts: seq<Bytes>, limit: nat)
    requires Collected(lines, parts, limit)
    ensures |lines| <= limit
    ensures |lines| < limit && !Blank(part) ==> Collected(lines + [part], [part] + parts, limit)
    ensures |lines| == limit || Blank(part) ==> Collected(lines, [part] + parts, limit)
  {
    hide Blank;
    ReverseLength(lines);
    assert (lines + [part])[..|lines|] == lines;
    assert ([part] + parts)[1..] == parts;
    LastOfAppend(if Blank(part) then [] else [part], NonBlank(parts), limit);
  }

  lemma {:induction false} CollectNone(lines: seq<Bytes>, more: seq<Bytes>, parts: seq<Bytes>, limit: nat)
    requires Collected(lines, parts, limit) && |lines| == limit
    ensures Collected(lines, more + parts, limit)
  {
    hide Blank;
    ReverseLength(lines);
    NonBlankAppend(more, parts);
    LastOfAppend(NonBlank(more), NonBlank(parts), limit);
  }

  lemma CollectedLength(lines: seq<Bytes>, parts: seq<Bytes>, limit: nat)
    requires Collected(lines, parts, limit)
    ensures |lines| <= limit
  {
    ReverseLength(lines);
  }

  /** The inner loop: the complete lines of one buffer, newest first, until there are enough. */
  method Collect(lines: seq<Bytes>, parts: seq<Bytes>, limit: nat, ghost behind: seq<Bytes>) returns (r: seq<Bytes>)
    requires parts != [] && Collected(lines, behind, limit) && |lines| < limit
    ensures Collected(r, parts[1..] + behind, limit) && |r| <= limit
  {
    hide Collected, Blank;
    r := lines;
    var i := |parts|;
    assert parts[i..] + behind == behind;
    while i > 1
      invariant 1 <= i <= |parts|
      invariant Collected(r, parts[i..] + behind, limit) && |r| < limit
    {
      i := i - 1;
      assert parts[i..] == [parts[i]] + parts[i + 1..];
      Assoc([parts[i]], parts[i + 1..], behind);
      CollectOne(r, parts[i], parts[i + 1..] + behind, limit);
      if !Blank(parts[i]) {
        r := r + [parts[i]];
        if |r| >= limit {
          CollectedLength(r, parts[i..] + behind, limit);
          CollectNone(r, parts[1..i], parts[i..] + behind, limit);
          assert parts[1..i] + parts[i..] == parts[1..];
          Assoc(parts[1..i], parts[i..], behind);
          return;
        }
      }
    }
  }

  /** Where a reader that has come back to `at` stops. */
  function StopsAt(data: Bytes, at: nat, limit: nat, chunk: nat, cap: nat): (position: nat)
    requires at <= |data| && chunk > 0
    ensures position <= at
    decreases at
  {
    if at == 0 || |NonBlank(Split(data[at..])[1..])| >= limit || |data| - at >= cap then at
    else StopsAt(data, if chunk < at then at - chunk else 0, limit, chunk, cap)
  }

  /** `_read_last_lines` over a file of these bytes; decoding of each line is left out. `position` is
      where it stopped reading: for lack of data, with enough lines, or at the cap. For every file,
      limit, chunk size and cap it returns the newest non-blank lines of what it read. */
  method ReadLastLines(data: Bytes, limit: nat, chunk: nat, cap: nat)
    returns (result: seq<Bytes>, ghost position: nat)
    requires chunk > 0
    ensures position == StopsAt(data, |data|, limit, chunk, cap) && result == Tail(data, position, limit)
    ensures position == 0 || |data| - position >= cap
            || |NonBlank(Split(data[position..])[1..])| >= limit
    ensures |data| - position < cap + chunk
    ensures |data| <= cap ==> result == LastOf(NonBlank(Split(data)), limit)
  {
    hide Split, NonBlank, LastOf, Reverse, Collected;
    var lines: seq<Bytes> := [];
    var buffer: Bytes := [];
    var at, readTotal := |data|, 0;
    NothingRead(data, limit);
    while at > 0 && |lines| < limit && readTotal < cap
      invariant 0 <= at <= |data| && readTotal == |data| - at < cap + chunk
      invariant buffer == Split(data[at..])[0]
      invariant Collected(lines, Split(data[at..])[1..], limit) && |lines| <= limit
      invariant StopsAt(data, |data|, limit, chunk, cap) == StopsAt(data, at, limit, chunk, cap)
      decreases at
    {
      Enough(lines, Split(data[at..])[1..], limit);
      var step := if chunk < at then chunk else at;
      ghost var read := data[at..];
      at := at - step;
      assert data[at..] == data[at..at + step] + read;
      SplitInFront(data[at..at + step], read);
      buffer := data[at..at + step] + buffer;
      readTotal := readTotal + step;
      var parts := Split(buffer);
      buffer := parts[0];
      lines := Collect(lines, parts, limit, Split(read)[1..]);
      assert (parts + Split(read)[1..])[1..] == parts[1..] + Split(read)[1..];
    }
    position := at;
    Enough(lines, Split(data[at..])[1..], limit);
    CollectOne(lines, buffer, Split(data[at..])[1..], limit);
    assert [buffer] + Split(data[at..])[1..] == Split(data[at..]);
    if !Blank(buffer) && |lines| < limit {
      lines := lines + [buffer];
    }
    assert Collected(lines, Split(data[at..]), limit);
    Unfolded(lines, Split(data[at..]), limit);
    result := Reverse(lines);
    if position == 0 || |NonBlank(Split(data[position..])[1..])| >= limit {
      TailIsExact(data, position, limit);
    }
  }

  /** The reader with the program's own chunk size and cap. */
  method ReadRecentLines(data: Bytes, limit: nat) returns (result: seq<Bytes>, ghost position: nat)
    ensures position == StopsAt(data, |data|, limit, CHUNK, MAX_READ_BYTES) && result == Tail(data, position, limit)
    ensures |data| - position <= 1_008_191
    ensures |data| <= 1_000_000 ==> result == LastOf(NonBlank(Split(data)), limit)
  {
    result, position := ReadLastLines(data, limit, CHUNK, MAX_READ_BYTES);
  }

  lemma NothingRead(data: Bytes, limit: nat)
    ensures Split(data[|data|..]) == [[]] && Collected([], Split(data[|data|..])[1..], limit)
  {
    assert data[|data|..] == [];
  }

  lemma Enough(lines: seq<Bytes>, parts: seq<Bytes>, limit: nat)
    requires Collected(lines, parts, limit)
    ensures |lines| == if |NonBlank(parts)| < limit then |NonBlank(parts)| else limit
  {
    hide NonBlank;
    ReverseLength(lines);
  }

  lemma Unfolded(lines: seq<Bytes>, parts: seq<Bytes>, limit: nat)
    requires Collected(lines, parts, limit)
    ensures Reverse(lines) == LastOf(NonBlank(parts), limit)
  {
  }

  // ---- what the tail says about the whole file ----

  /** The lines of the file around the cut at `position`. */
  lemma CutFile(data: Bytes, position: nat)
    requires position <= |data|
    ensures var before, behind := Split(data[..position]), Split(data[position..]);
            NonBlank(Split(data))
            == NonBlank(Front(before)) + NonBlank([Last(before) + behind[0]]) + NonBlank(behind[1..])
  {
    hide Split, NonBlank, Front, Last;
    assert data == data[..position] + data[position..];
    var before, behind := Split(data[..position]), Split(data[position..]);
    SplitCut(data[..position], data[position..]);
    var middle := [Last(before) + behind[0]];
    NonBlankAppend(Front(before) + middle, behind[1..]);
    NonBlankAppend(Front(before), middle);
  }

  lemma LastOfWhole<T>(whole: seq<T>, part: seq<T>, n: nat)
    requires |part| <= |whole| && part == whole[|whole| - |part|..] && |part| >= n
    ensures LastOf(whole, n) == LastOf(part, n)
  {
  }

  /** Unless the byte cap stops it, the reader returns exactly the newest `limit` non-blank lines of
      the file, in order, whatever the chunk size; so it does for every file no larger than the cap. */
  lemma TailIsExact(data: Bytes, position: nat, limit: nat)
    requires position <= |data|
    requires position == 0 || |NonBlank(Split(data[position..])[1..])| >= limit
    ensures Tail(data, position, limit) == LastOf(NonBlank(Split(data)), limit)
  {
    hide Split, NonBlank, Front, Last;
    if position == 0 {
      assert data[0..] == data;
    } else {
      CutFile(data, position);
      var behind := Split(data[position..]);
      assert behind == [behind[0]] + behind[1..];
      NonBlankAppend([behind[0]], behind[1..]);
      var complete := NonBlank(behind[1..]);
      LastOfWhole(NonBlank(behind), complete, limit);
      LastOfWhole(NonBlank(Split(data)), complete, limit);
    }
  }

  ghost predicate EndOf(fragment: Bytes, line: Bytes) {
    |fragment| <= |line| && line[|line| - |fragment|..] == fragment
  }

  lemma BlankPart(a: Bytes, b: Bytes)
    ensures Blank(a + b) ==> Blank(b)
  {
    assert forall i :: 0 <= i < |b| ==> b[i] == (a + b)[|a| + i];
  }

  /** The reader stopped inside a line, and returns what it has of it. */
  predicate Cuts(data: Bytes, position: nat, limit: nat)
    requires position <= |data|
  {
    var behind := Split(data[position..]);
    && position > 0 && data[position - 1] != NEWLINE
    && !Blank(behind[0]) && |NonBlank(behind[1..])| < limit
  }

  /** Wherever the cap stops it, all returned lines but the oldest are the newest non-blank lines of
      the file, and the oldest is the next one or the end of it. It is a fragment, exactly, if the
      reader stopped inside a line, has read something of it that is not blank, and still wants lines. */
  lemma TailMayCutOneLine(data: Bytes, position: nat, limit: nat)
    requires position <= |data|
    ensures var tail, whole := Tail(data, position, limit), NonBlank(Split(data));
            && |tail| <= |whole|
            && (tail == LastOf(whole, |tail|) <==> !Cuts(data, position, limit))
            && (tail != [] ==> tail[1..] == LastOf(whole, |tail| - 1) && EndOf(tail[0], LastOf(whole, |tail|)[0]))
  {
    var a, line, fragment, complete := CutParts(data, position);
    hide Split, NonBlank, Blank, EndOf, LastOf;
    TailParts(a, line, fragment, complete, limit);
  }

  /** The whole file's lines around the cut, and what the reader has of the one that is cut. */
  lemma CutParts(data: Bytes, position: nat)
    returns (a: seq<Bytes>, line: seq<Bytes>, fragment: seq<Bytes>, complete: seq<Bytes>)
    requires position <= |data|
    ensures var behind := Split(data[position..]);
            && NonBlank(Split(data)) == a + line + complete
            && NonBlank(behind) == fragment + complete && complete == NonBlank(behind[1..])
            && |fragment| <= |line| <= 1 && (fragment == [] <==> Blank(behind[0]))
            && (fragment != [] ==>
                  EndOf(fragment[0], line[0])
                  && (fragment == line <==> position == 0 || data[position - 1] == NEWLINE))
  {
    hide Split, Front, Last, Blank;
    var before, behind := Split(data[..position]), Split(data[position..]);
    var cut := Last(before) + behind[0];
    CutFile(data, position);
    BlankPart(Last(before), behind[0]);
    EndsTerminated(data, position);
    OneLine(cut);
    a, complete := NonBlank(Front(before)), NonBlank(behind[1..]);
    line := if Blank(cut) then [] else [cut];
    fragment := if Blank(behind[0]) then [] else [behind[0]];
    assert behind[0] == cut <==> Last(before) == [];
    assert EndOf(behind[0], cut);
  }

  lemma EndsTerminated(data: Bytes, position: nat)
    requires position <= |data|
    ensures Last(Split(data[..position])) == [] <==> position == 0 || data[position - 1] == NEWLINE
  {
    LastPartEmpty(data[..position]);
    hide Split;
  }

  /** Where the reader would stop if it never had enough lines: this depends on sizes only. */
  function CapStop(size: nat, at: nat, chunk: nat, cap: nat): (position: nat)
    requires at <= size && chunk > 0
    ensures position <= at
    decreases at
  {
    if at == 0 || size - at >= cap then at
    else CapStop(size, if chunk < at then at - chunk else 0, chunk, cap)
  }

  /** What lies behind a cut stays behind an earlier one. */
  lemma EnoughStays(data: Bytes, q: nat, p: nat, limit: nat)
    requires q <= p <= |data| && |NonBlank(Split(data[p..])[1..])| >= limit
    ensures |NonBlank(Split(data[q..])[1..])| >= limit
  {
    assert data[q..] == data[q..p] + data[p..];
    SplitInFront(data[q..p], data[p..]);
    var front, behind := Split(data[q..p] + Split(data[p..])[0]), Split(data[p..])[1..];
    assert (front + behind)[1..] == front[1..] + behind;
    NonBlankAppend(front[1..], behind);
  }

  lemma {:induction false} StopsWithoutCut(data: Bytes, at: nat, limit: nat, chunk: nat, cap: nat)
    requires at <= |data| && chunk > 0
    ensures Cuts(data, StopsAt(data, at, limit, chunk, cap), limit)
            <==> Cuts(data, CapStop(|data|, at, chunk, cap), limit)
    decreases at
  {
    hide Split, NonBlank, Blank;
    if |NonBlank(Split(data[at..])[1..])| >= limit {
      EnoughStays(data, CapStop(|data|, at, chunk, cap), at, limit);
    } else if at > 0 && |data| - at < cap {
      StopsWithoutCut(data, if chunk < at then at - chunk else 0, limit, chunk, cap);
    }
  }

  /** Whether the oldest line returned is a fragment can be told from the file and its size alone: exactly
      if the place where the cap stops reading cuts a line of which something not blank lies behind it,
      with fewer than `limit` non-blank lines behind that. */
  lemma FragmentReturned(data: Bytes, limit: nat, chunk: nat, cap: nat)
    requires chunk > 0
    ensures var tail := Tail(data, StopsAt(data, |data|, limit, chunk, cap), limit);
            tail == LastOf(NonBlank(Split(data)), |tail|) <==> !Cuts(data, CapStop(|data|, |data|, chunk, cap), limit)
  {
    StopsWithoutCut(data, |data|, limit, chunk, cap);
    TailMayCutOneLine(data, StopsAt(data, |data|, limit, chunk, cap), limit);
    hide Split, NonBlank, Cuts, Tail;
  }

  lemma OneLine(line: Bytes)
    ensures NonBlank([line]) == if Blank(line) then [] else [line]
  {
    hide Blank;
    assert [line][1..] == [];
  }

  lemma TailParts(a: seq<Bytes>, line: seq<Bytes>, fragment: seq<Bytes>, complete: seq<Bytes>, limit: nat)
    requires |line| <= 1 && |fragment| <= |line|
    requires fragment != [] ==> EndOf(fragment[0], line[0])
    ensures var tail, whole := LastOf(fragment + complete, limit), a + line + complete;
            && |tail| <= |whole|
            && (tail == LastOf(whole, |tail|) <==> fragment == [] || limit <= |complete| || fragment == line)
            && (tail != [] ==> tail[1..] == LastOf(whole, |tail| - 1) && EndOf(tail[0], LastOf(whole, |tail|)[0]))
  {
    var tail := LastOf(fragment + complete, limit);
    if fragment == [] || limit <= |complete| {
      LastOfAppend(fragment, complete, limit);
      assert fragment == [] ==> fragment + complete == complete;
      TailOfComplete(a + line, complete, |tail|);
      assert tail == LastOf(complete, |tail|);
    } else {
      assert tail == fragment + complete;
      LastOfAppend(a + line, complete, |tail|);
      LastOfAppend(a + line, complete, |tail| - 1);
      LastOfAppend(a, line, 1);
      assert LastOf(line, 1) == line;
      assert tail[0] == fragment[0] && (line + complete)[0] == line[0];
    }
  }

  lemma TailOfComplete(front: seq<Bytes>, complete: seq<Bytes>, n: nat)
    requires n <= |complete|
    ensures LastOf(front + complete, n) == LastOf(complete, n)
    ensures n > 0 ==> LastOf(complete, n)[1..] == LastOf(front + complete, n - 1)
  {
    LastOfAppend(front, complete, n);
    if n > 0 {
      LastOfAppend(front, complete, n - 1);
    }
  }

  // ---- beyond the cap ----

  /** 123 chunks of 8192 bytes: the first number of chunks that reaches the cap. */
  const OVER_CAP := 1_007_616

  /** A file that is one line longer than that: the reader stops behind exactly so many bytes. */
  lemma {:induction false} LongLine(data: Bytes, limit: nat, chunks: nat)
    requires NEWLINE !in data && |data| >= OVER_CAP && limit > 0 && chunks <= 123
    ensures StopsAt(data, |data| - chunks * CHUNK, limit, CHUNK, MAX_READ_BYTES) == |data| - OVER_CAP
    decreases 123 - chunks
  {
    var at := |data| - chunks * CHUNK;
    SplitNoNewline(data[at..]);
    hide Split;
    assert NonBlank([]) == [] && Split(data[at..])[1..] == [];
    if chunks < 123 && at > 0 {
      LongLine(data, limit, chunks + 1);
    }
  }

  /** A file that the reader reads beyond its cap, and of which it returns a fragment: a single line one
      byte longer than what it reads. */
  lemma FragmentBeyondCap(limit: nat) returns (data: Bytes)
    requires limit > 0
    ensures |data| == OVER_CAP + 1 && NEWLINE !in data
    ensures var position := StopsAt(data, |data|, limit, CHUNK, MAX_READ_BYTES);
            && |data| - position == OVER_CAP > MAX_READ_BYTES
            && Cuts(data, position, limit)
            && Tail(data, position, limit) == [data[1..]] && NonBlank(Split(data)) == [data]
  {
    var a: Byte := 97;
    data := seq(OVER_CAP + 1, _ => a);
    LongLine(data, limit, 0);
    SplitNoNewline(data);
    SplitNoNewline(data[1..]);
    hide Split;
    OneLine(data);
    OneLine(data[1..]);
    assert data[1] == a && data[1..][0] == a;
    assert Split(data[1..])[1..] == [];
  }
}
