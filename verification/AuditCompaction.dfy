/** Compaction: the chunked validating scan with its bounded deque of offsets, and the rewrite. */
module AuditCompaction {
  import opened Results
  import opened FileSystem
  import opened AuditLines
  import opened Seqs

  const MAX_LINE := 1_000_000
  const MAX_READ := 64 * 1024 * 1024
  const CHUNK := 64 * 1024

  /** `isEvent` stands for "is the JSON text of an object". */
  predicate GoodLine(line: Bytes, isEvent: Bytes -> bool) {
    |line| <= MAX_LINE && line != [] && Last(line) == NEWLINE && !Blank(line) && isEvent(line)
  }

  /** Every line is terminated, within the bound, not blank, and an event. */
  predicate Acceptable(data: Bytes, isEvent: Bytes -> bool) {
    forall line :: line in Lines(data) ==> GoodLine(line, isEvent)
  }

  datatype Scan = Scan(total: nat, retained: nat, offset: nat)

  function Min(a: nat, b: nat): nat { if a < b then a else b }

  /** The newest `keep` lines of a log. */
  function Newest(data: Bytes, keep: nat): Bytes {
    Concat(Lines(data)[|Lines(data)| - Min(|Lines(data)|, keep)..])
  }

  // ---- the scan ----

  /** The lines the splitter has handed out so far, and how far into the file they reach. */
  ghost predicate Scanned(lines: seq<Bytes>, isEvent: Bytes -> bool, position: nat, total: nat) {
    && (forall line :: line in lines ==> GoodLine(line, isEvent))
    && position == |Concat(lines)|
    && total == |lines|
  }

  /** `offsets` are where the newest `bound` of the lines begin. */
  ghost predicate Offsets(offsets: seq<nat>, lines: seq<Bytes>, bound: nat) {
    && |offsets| == Min(|lines|, bound)
    && forall i :: 0 <= i < |offsets| ==> offsets[i] == |Concat(lines[..|lines| - |offsets| + i])|
  }

  /** `deque(maxlen=...)`: a full deque drops its oldest entry. */
  function Push(offsets: seq<nat>, x: nat, bound: nat): seq<nat>
    requires bound > 0
  {
    if |offsets| == bound then offsets[1..] + [x] else offsets + [x]
  }

  lemma PushOffset(offsets: seq<nat>, lines: seq<Bytes>, line: Bytes, bound: nat)
    requires bound > 0 && Offsets(offsets, lines, bound)
    ensures Offsets(Push(offsets, |Concat(lines)|, bound), lines + [line], bound)
  {
    var all, next := lines + [line], Push(offsets, |Concat(lines)|, bound);
    forall i | 0 <= i < |next| ensures next[i] == |Concat(all[..|all| - |next| + i])| {
      var k := |all| - |next| + i;
      assert all[..k] == lines[..k];
      assert i == |next| - 1 ==> lines[..k] == lines;
    }
  }

  lemma ConcatSnoc(lines: seq<Bytes>, line: Bytes)
    ensures Concat(lines + [line]) == Concat(lines) + line
  {
    ConcatAppend(lines, [line]);
    assert Concat([line]) == line + Concat([]) == line + [] == line;
  }

  /** The checks of the scan on one line. */
  method Visit(line: Bytes, isEvent: Bytes -> bool, keep: nat, offsets: seq<nat>, position: nat, total: nat,
               ghost lines: seq<Bytes>)
    returns (ok: bool, offsets': seq<nat>, position': nat, total': nat)
    requires Scanned(lines, isEvent, position, total)
    requires keep > 0 ==> Offsets(offsets, lines, keep)
    requires keep == 0 ==> offsets == []
    ensures ok <==> GoodLine(line, isEvent)
    ensures ok ==> Scanned(lines + [line], isEvent, position', total')
    ensures ok && keep > 0 ==> Offsets(offsets', lines + [line], keep)
    ensures ok && keep == 0 ==> offsets' == []
  {
    offsets', position', total' := offsets, position, total;
    if |line| > MAX_LINE {
      return false, offsets', position', total';
    }
    if line == [] || line[|line| - 1] != NEWLINE || Blank(line) {
      return false, offsets', position', total';
    }
    if !isEvent(line) {
      return false, offsets', position', total';
    }
    hide Concat, Blank;
    ConcatSnoc(lines, line);
    if keep > 0 {
      PushOffset(offsets, lines, line, keep);
      offsets' := Push(offsets, position, keep);
    }
    position' := position + |line|;
    total' := total + 1;
    return true, offsets', position', total';
  }

  /** What the splitter has done with the bytes read so far: complete lines handed out, the rest kept
      back. */
  ghost predicate SplitSoFar(data: Bytes, lines: seq<Bytes>, pending: Bytes) {
    lines == Terminate(Front(Split(data))) && pending == Last(Split(data))
  }

  lemma MoreSplit(data: Bytes, chunk: Bytes, lines: seq<Bytes>, pending: Bytes)
    requires SplitSoFar(data, lines, pending)
    ensures SplitSoFar(data + chunk, lines + Terminate(Front(Split(pending + chunk))), Last(Split(pending + chunk)))
  {
    hide Split;
    SplitBehind(data, chunk);
    var a, b := Front(Split(data)), Split(pending + chunk);
    assert Front(a + b) == a + Front(b);
    assert Terminate(a + Front(b)) == Terminate(a) + Terminate(Front(b));
  }

  /** Lines handed out stay lines of every longer file, and an overlong rest stays overlong. */
  lemma BadStaysBad(data: Bytes, more: Bytes, isEvent: Bytes -> bool)
    ensures forall line :: line in Terminate(Front(Split(data))) ==> line in Lines(data + more)
    ensures |Last(Split(data))| > MAX_LINE ==> !Acceptable(data + more, isEvent)
  {
    hide Split, Front;
    SplitBehind(data, more);
    var a, b := Front(Split(data)), Split(Last(Split(data)) + more);
    FrontOfSum(a, b);
    if |Last(Split(data))| > MAX_LINE {
      FirstPartGrows(data, more);
      LongFirstLine(a, b, data + more);
    }
  }

  lemma FrontOfSum(a: seq<Bytes>, b: seq<Bytes>)
    requires b != []
    ensures Front(a + b) == a + Front(b) && Last(a + b) == Last(b)
    ensures Terminate(a + Front(b)) == Terminate(a) + Terminate(Front(b))
  {
    assert Terminate(a + Front(b)) == Terminate(a) + Terminate(Front(b));
  }

  lemma FirstPartGrows(data: Bytes, more: Bytes)
    ensures |Split(Last(Split(data)) + more)[0]| >= |Last(Split(data))|
  {
    hide Split, Front;
    var last := Last(Split(data));
    PartAlone(data, last);
    SplitCut(last, more);
    assert Front([last]) == [] by { EmptyFront(last); }
  }

  lemma EmptyFront(part: Bytes)
    ensures Front([part]) == []
  {
  }

  lemma LongFirstLine(a: seq<Bytes>, b: seq<Bytes>, data: Bytes)
    requires b != [] && Split(data) == a + b && |b[0]| > MAX_LINE
    ensures exists line :: line in Lines(data) && |line| > MAX_LINE
  {
    hide Split;
    FrontOfSum(a, b);
    if |b| > 1 {
      assert Terminate(Front(b))[0] == b[0] + [NEWLINE];
      assert Terminate(Front(b))[0] in Lines(data);
    } else {
      assert Last(b) in Lines(data);
    }
  }

  /** The loop over the lines of one chunk. */
  method VisitAll(more: seq<Bytes>, isEvent: Bytes -> bool, keep: nat, offsets: seq<nat>, position: nat, total: nat,
                  ghost lines: seq<Bytes>)
    returns (ok: bool, offsets': seq<nat>, position': nat, total': nat)
    requires Scanned(lines, isEvent, position, total)
    requires if keep > 0 then Offsets(offsets, lines, keep) else offsets == []
    ensures !ok ==> exists line :: line in more && !GoodLine(line, isEvent)
    ensures ok ==> Scanned(lines + more, isEvent, position', total')
    ensures ok ==> if keep > 0 then Offsets(offsets', lines + more, keep) else offsets' == []
  {
    hide GoodLine, Scanned, Offsets;
    ok, offsets', position', total' := true, offsets, position, total;
    assert lines + more[..0] == lines;
    for i := 0 to |more|
      invariant Scanned(lines + more[..i], isEvent, position', total')
      invariant if keep > 0 then Offsets(offsets', lines + more[..i], keep) else offsets' == []
    {
      ok, offsets', position', total' :=
        Visit(more[i], isEvent, keep, offsets', position', total', lines + more[..i]);
      if !ok {
        assert more[i] in more;
        return;
      }
      assert lines + more[..i] + [more[i]] == lines + more[..i + 1];
    }
    ok := true;
    assert more[..|more|] == more;
  }

  lemma NothingScanned(data: Bytes, isEvent: Bytes -> bool, keep: nat)
    ensures Scanned([], isEvent, 0, 0) && (keep > 0 ==> Offsets([], [], keep))
    ensures SplitSoFar(data[..0], [], [])
  {
    assert data[..0] == [];
  }

  /** A line found bad anywhere makes the whole file unacceptable. */
  lemma BadLine(data: Bytes, at: nat, lines: seq<Bytes>, line: Bytes, isEvent: Bytes -> bool)
    requires at <= |data| && lines == Terminate(Front(Split(data[..at]))) && line in lines && !GoodLine(line, isEvent)
    ensures !Acceptable(data, isEvent)
  {
    hide GoodLine, Split;
    BadStaysBad(data[..at], data[at..], isEvent);
    assert data[..at] + data[at..] == data;
  }

  lemma LongRest(data: Bytes, at: nat, pending: Bytes, isEvent: Bytes -> bool)
    requires at <= |data| && pending == Last(Split(data[..at])) && |pending| > MAX_LINE
    ensures !Acceptable(data, isEvent)
  {
    hide GoodLine, Split, Acceptable;
    BadStaysBad(data[..at], data[at..], isEvent);
    assert data[..at] + data[at..] == data;
  }

  /** `_scan_for_compaction` with `_compaction_lines` and `_compaction_chunks` inlined. `content` is what
      reading yields up to its end; each read returns some nonempty part of what was asked for, as
      `cuts` decides. The file's size is looked at before and after, and may be anything. The scan
      accepts exactly if nothing is too large, the file ends where reading did, and it consists of good
      lines, however it was cut; and the offset cuts off exactly the newest of them. */
  method ScanForCompaction(content: Bytes, initialSize: nat, finalSize: nat, cuts: nat -> nat, keep: nat,
                           isEvent: Bytes -> bool)
    returns (r: Option<Scan>)
    ensures var data := content[..Min(|content|, MAX_READ)];
            && (r.Some? <==> initialSize <= MAX_READ && finalSize == |data| && Acceptable(data, isEvent))
            && (r.Some? ==>
                  && r.value.total == |Lines(data)|
                  && r.value.retained == Min(|Lines(data)|, keep)
                  && r.value.offset <= |data|
                  && data[r.value.offset..] == Newest(data, keep))
  {
    hide Acceptable, Split, Scanned, Offsets, Lines, Newest, GoodLine;
    if initialSize > MAX_READ {
      return None;
    }
    ghost var data := content[..Min(|content|, MAX_READ)];
    var offsets: seq<nat>, position: nat, total: nat := [], 0, 0;
    var pending: Bytes, at, calls := [], 0, 0;
    ghost var lines: seq<Bytes> := [];
    NothingScanned(data, isEvent, keep);
    while at < MAX_READ
      invariant at <= |data|
      invariant SplitSoFar(data[..at], lines, pending)
      invariant Scanned(lines, isEvent, position, total)
      invariant if keep > 0 then Offsets(offsets, lines, keep) else offsets == []
      decreases MAX_READ - at
    {
      var size := Min(Min(CHUNK, MAX_READ - at), Min(|content| - at, if cuts(calls) == 0 then 1 else cuts(calls)));
      if size == 0 {
        break;
      }
      var chunk := content[at..at + size];
      assert chunk == data[at..at + size];
      var parts := Split(pending + chunk);
      var more := Terminate(Front(parts));
      MoreSplit(data[..at], chunk, lines, pending);
      assert data[..at] + chunk == data[..at + size];
      at, calls := at + size, calls + 1;
      var ok;
      ok, offsets, position, total := VisitAll(more, isEvent, keep, offsets, position, total, lines);
      lines, pending := lines + more, Last(parts);
      if !ok {
        var bad :| bad in more && !GoodLine(bad, isEvent);
        BadLine(data, at, lines, bad, isEvent);
        return None;
      }
      if |pending| > MAX_LINE {
        LongRest(data, at, pending, isEvent);
        return None;
      }
    }
    if finalSize > MAX_READ || finalSize != at {
      return None;
    }
    assert at == |data| && data[..at] == data;
    var complete := CheckRest(data, lines, pending, isEvent);
    if !complete {
      return None;
    }
    Accepted(data, lines, isEvent, position, total);
    OffsetCuts(data, offsets, keep, position);
    return Some(Scan(total, Min(total, keep), if offsets != [] then offsets[0] else position));
  }

  /** The unterminated rest is handed out as a last line, which is never good. */
  method CheckRest(ghost data: Bytes, ghost lines: seq<Bytes>, pending: Bytes, isEvent: Bytes -> bool) returns (ok: bool)
    requires SplitSoFar(data, lines, pending)
    ensures ok <==> pending == []
    ensures ok ==> lines == Lines(data)
    ensures !ok ==> !Acceptable(data, isEvent)
  {
    ok := pending == [];
    PartsHaveNoNewline(data);
    assert Last(Split(data)) in Split(data);
    hide Split;
    if !ok {
      assert pending in Lines(data);
      assert pending[|pending| - 1] in pending;
    }
  }

  lemma Accepted(data: Bytes, lines: seq<Bytes>, isEvent: Bytes -> bool, position: nat, total: nat)
    requires lines == Lines(data) && Scanned(lines, isEvent, position, total)
    ensures Acceptable(data, isEvent) && total == |Lines(data)| && position == |data|
  {
    hide GoodLine, Lines;
    ConcatLines(data);
  }

  lemma OffsetCuts(data: Bytes, offsets: seq<nat>, keep: nat, position: nat)
    requires if keep > 0 then Offsets(offsets, Lines(data), keep) else offsets == []
    requires position == |data|
    ensures var offset := if offsets != [] then offsets[0] else position;
            offset <= |data| && data[offset..] == Newest(data, keep)
  {
    hide Lines;
    var lines := Lines(data);
    var k := |lines| - Min(|lines|, keep);
    ConcatLines(data);
    ConcatAppend(lines[..k], lines[k..]);
    assert lines[..k] + lines[k..] == lines;
    if offsets == [] {
      assert lines[k..] == [];
    }
  }
}
