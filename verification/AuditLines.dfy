/** A log as bytes and as lines: `bytes.split(b"\n")` and what cutting a log in pieces does to it. */
module AuditLines {
  import opened FileSystem
  import opened Seqs

  type Bytes = seq<Byte>

  const NEWLINE: Byte := 10

  /** `data.split(b"\n")`: never empty, and its last part is what no newline follows. */
  function Split(data: Bytes): (parts: seq<Bytes>)
    ensures parts != []
  {
    if data == [] then [[]]
    else
      var rest := Split(data[1..]);
      if data[0] == NEWLINE then [[]] + rest else [[data[0]] + rest[0]] + rest[1..]
  }

  function Front<T>(s: seq<T>): seq<T>
    requires s != []
  {
    s[..|s| - 1]
  }

  function Last<T>(s: seq<T>): T
    requires s != []
  {
    s[|s| - 1]
  }

  /** Cutting the data anywhere cuts exactly one part in two. */
  lemma {:induction false} SplitCut(a: Bytes, b: Bytes)
    ensures Split(a + b) == Front(Split(a)) + [Last(Split(a)) + Split(b)[0]] + Split(b)[1..]
  {
    if a == [] {
      assert a + b == b && [] + Split(b)[0] == Split(b)[0];
    } else {
      SplitCut(a[1..], b);
      assert (a + b)[1..] == a[1..] + b;
      SplitCutStep(a[0], Split(a[1..]), Split(b));
    }
  }

  function Consed(x: Byte, parts: seq<Bytes>): seq<Bytes>
    requires parts != []
  {
    if x == NEWLINE then [[]] + parts else [[x] + parts[0]] + parts[1..]
  }

  lemma SplitCutStep(x: Byte, p: seq<Bytes>, q: seq<Bytes>)
    requires p != [] && q != []
    ensures Consed(x, Front(p) + [Last(p) + q[0]] + q[1..])
            == Front(Consed(x, p)) + [Last(Consed(x, p)) + q[0]] + q[1..]
  {
    var all := Front(p) + [Last(p) + q[0]] + q[1..];
    if x != NEWLINE && |p| == 1 {
      assert all[1..] == q[1..];
      assert [x] + (p[0] + q[0]) == ([x] + p[0]) + q[0];
    }
  }

  lemma {:induction false} SplitNoNewline(data: Bytes)
    requires NEWLINE !in data
    ensures Split(data) == [data]
  {
    if data != [] {
      SplitNoNewline(data[1..]);
      assert [data[0]] + data[1..] == data;
    }
  }

  lemma {:induction false} PartsHaveNoNewline(data: Bytes)
    ensures forall part :: part in Split(data) ==> NEWLINE !in part
  {
    if data != [] {
      PartsHaveNoNewline(data[1..]);
      assert Split(data[1..])[0] in Split(data[1..]);
    }
  }

  /** Nothing follows the last newline exactly if the data ends with it. */
  lemma {:induction false} LastPartEmpty(data: Bytes)
    ensures Last(Split(data)) == [] <==> data == [] || Last(data) == NEWLINE
    ensures |Split(data)| == 1 ==> NEWLINE !in data
  {
    if data != [] {
      LastPartEmpty(data[1..]);
      assert data == [data[0]] + data[1..];
    }
  }

  lemma PartAlone(data: Bytes, part: Bytes)
    requires part in Split(data)
    ensures Split(part) == [part]
  {
    PartsHaveNoNewline(data);
    SplitNoNewline(part);
  }

  /** Reading more in front: the new bytes split together with the first part, the rest stays. */
  lemma SplitInFront(chunk: Bytes, data: Bytes)
    ensures Split(chunk + data) == Split(chunk + Split(data)[0]) + Split(data)[1..]
  {
    hide Split, Front, Last;
    PartAlone(data, Split(data)[0]);
    SplitCut(chunk, data);
    SplitCut(chunk, Split(data)[0]);
  }

  /** Reading more behind: the new bytes split together with the last part. */
  lemma SplitBehind(data: Bytes, chunk: Bytes)
    ensures Split(data + chunk) == Front(Split(data)) + Split(Last(Split(data)) + chunk)
  {
    hide Split;
    var last := Last(Split(data));
    PartAlone(data, last);
    SplitCut(data, chunk);
    SplitCut(last, chunk);
    assert Front([last]) == [];
  }

  // ---- whole lines ----

  function Terminate(parts: seq<Bytes>): (lines: seq<Bytes>)
    ensures |lines| == |parts|
    ensures forall i :: 0 <= i < |parts| ==> lines[i] == parts[i] + [NEWLINE]
  {
    seq(|parts|, i requires 0 <= i < |parts| => parts[i] + [NEWLINE])
  }

  /** The lines of a log with their newlines; a last line may lack its own. */
  function Lines(data: Bytes): seq<Bytes> {
    var parts := Split(data);
    Terminate(Front(parts)) + if Last(parts) == [] then [] else [Last(parts)]
  }

  predicate Whitespace(b: Byte) {
    b == 32 || 9 <= b <= 13
  }

  /** Nothing is left of it after `strip()`. */
  predicate Blank(line: Bytes) {
    forall i :: 0 <= i < |line| ==> Whitespace(line[i])
  }

  /** One event as `record_event` writes it. */
  predicate EventLine(line: Bytes) {
    line != [] && Last(line) == NEWLINE && NEWLINE !in Front(line)
  }

  lemma {:induction false} ConcatLines(data: Bytes)
    ensures Concat(Lines(data)) == data
  {
    if data != [] {
      ConcatLines(data[1..]);
      LinesStep(data);
      hide Lines;
    }
  }

  lemma LinesStep(data: Bytes)
    requires data != []
    ensures var rest := Lines(data[1..]);
            Lines(data) == if data[0] == NEWLINE then [[NEWLINE]] + rest
                           else if rest == [] then [[data[0]]]
                           else [[data[0]] + rest[0]] + rest[1..]
  {
    var parts := Split(data[1..]);
    if data[0] == NEWLINE {
      LineInFront([], parts);
      var empty: Bytes := [];
      assert empty + [NEWLINE] == [NEWLINE];
    } else if |parts| > 1 {
      ByteInFront(data[0], parts);
    } else {
      assert Split(data) == [[data[0]] + parts[0]];
      assert Terminate(Front(parts)) == [] && Terminate(Front(Split(data))) == [];
      assert parts[0] == [] ==> [data[0]] + parts[0] == [data[0]];
    }
  }

  lemma LineInFront(part: Bytes, parts: seq<Bytes>)
    requires parts != []
    ensures Last([part] + parts) == Last(parts)
    ensures Terminate(Front([part] + parts)) == [part + [NEWLINE]] + Terminate(Front(parts))
  {
    assert Front([part] + parts) == [part] + Front(parts);
  }

  lemma ByteInFront(x: Byte, parts: seq<Bytes>)
    requires |parts| > 1
    ensures var all := [[x] + parts[0]] + parts[1..];
            && Last(all) == Last(parts)
            && Terminate(Front(all)) == [[x] + (parts[0] + [NEWLINE])] + Terminate(Front(parts))[1..]
  {
    var all := [[x] + parts[0]] + parts[1..];
    assert Front(all) == [[x] + parts[0]] + Front(parts)[1..];
    assert ([x] + parts[0]) + [NEWLINE] == [x] + (parts[0] + [NEWLINE]);
  }

  lemma LinesOfEvents(line: Bytes, data: Bytes)
    requires EventLine(line)
    ensures Lines(line + data) == [line] + Lines(data)
  {
    var text := Front(line);
    assert line == text + [NEWLINE];
    SplitNoNewline(text);
    SplitCut(text, [NEWLINE] + data);
    assert line + data == text + ([NEWLINE] + data);
    assert ([NEWLINE] + data)[1..] == data;
    assert Split([NEWLINE] + data) == [[]] + Split(data);
    assert text + [] == text;
    assert Split(line + data) == [text] + Split(data);
    LineInFront(text, Split(data));
  }

  /** A log of events has exactly those events as its lines. */
  lemma {:induction false} EventsAreLines(events: seq<Bytes>)
    requires forall e :: e in events ==> EventLine(e)
    ensures Lines(Concat(events)) == events
  {
    if events != [] {
      EventsAreLines(events[1..]);
      LinesOfEvents(events[0], Concat(events[1..]));
    }
  }
}
