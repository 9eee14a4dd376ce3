/** The log file itself: appends that roll back in place, compactions, and whole runs of both. */
module AuditLog {
  import opened Results
  import opened FileSystem
  import opened AuditLines
  import opened Seqs
  import opened AuditCompaction

  /** One `write`: it reports `n` bytes, or raises although `n` bytes have reached the file. */
  datatype WriteResult = Wrote(n: nat) | Raised(n: nat)

  /** What these writes have taken together. */
  function Total(writes: seq<WriteResult>): nat {
    if writes == [] then 0 else Total(writes[..|writes| - 1]) + writes[|writes| - 1].n
  }

  /** Every write asked for before `size` bytes are taken makes progress and reports it. After the last
      result listed one write takes all the rest. */
  ghost predicate TakesAll(size: nat, writes: seq<WriteResult>) {
    forall i :: 0 <= i < |writes| && Total(writes[..i]) < size ==> writes[i].Wrote? && writes[i].n > 0
  }

  lemma {:induction false} TotalGrows(writes: seq<WriteResult>, i: nat, j: nat)
    requires i <= j <= |writes|
    ensures Total(writes[..i]) <= Total(writes[..j])
  {
    if i < j {
      TotalGrows(writes, i, j - 1);
      TotalNext(writes, j - 1);
    }
  }

  lemma TotalNext(writes: seq<WriteResult>, i: nat)
    requires i < |writes|
    ensures Total(writes[..i + 1]) == Total(writes[..i]) + writes[i].n
  {
    assert writes[..i + 1][..i] == writes[..i];
  }

  datatype Compaction = Compaction(changed: bool, total: nat, retained: nat, removed: nat)

  /** What is left of `size` bytes once `taken` are taken. */
  function Left(size: nat, taken: nat): nat {
    if taken >= size then 0 else size - taken
  }

  lemma NothingTaken()
    ensures Total([]) == 0
  {
  }

  lemma AllTaken(size: nat, writes: seq<WriteResult>, i: nat)
    requires forall j :: 0 <= j < i && j < |writes| ==> writes[j].Wrote? && writes[j].n > 0
    requires i <= |writes| ==> Total(writes[..i]) >= size
    ensures TakesAll(size, writes)
  {
    hide Total;
    forall j | 0 <= j < |writes| && Total(writes[..j]) < size ensures writes[j].Wrote? && writes[j].n > 0 {
      if j >= i {
        TotalGrows(writes, i, j);
      }
    }
  }

  class Log {
    var bytes: Bytes

    /** `_append_audit_line` under the lock. */
    method Append(line: Bytes, writes: seq<WriteResult>, syncFails: bool, truncateFails: bool) returns (ok: bool)
      modifies this
      ensures ok <==> !syncFails && TakesAll(|line|, writes)
      ensures ok ==> bytes == old(bytes) + line
      ensures !ok && !truncateFails ==> bytes == old(bytes)
      ensures !ok && truncateFails ==> old(bytes) <= bytes <= old(bytes) + line
      ensures forall isEvent ::
                bytes == After(old(bytes), HowEnded(ok, truncateFails, line, bytes[Min(|old(bytes)|, |bytes|)..]), isEvent)
    {
      hide Total;
      var originalSize := |bytes|;
      var remaining := line;
      var i := 0;
      ok := true;
      assert writes[..0] == [];
      NothingTaken();
      while remaining != [] && ok
        invariant old(bytes) <= bytes && |old(bytes)| == originalSize
        invariant bytes <= old(bytes) + line
        invariant ok ==> bytes + remaining == old(bytes) + line
        invariant i <= |writes| || remaining == []
        invariant ok && i <= |writes| ==> |remaining| == Left(|line|, Total(writes[..i]))
        invariant ok ==> forall j :: 0 <= j < i && j < |writes| ==> writes[j].Wrote? && writes[j].n > 0
        invariant !ok ==> !TakesAll(|line|, writes)
        decreases if ok then 1 else 0, |remaining|
      {
        var result := if i < |writes| then writes[i] else Wrote(|remaining|);
        if i < |writes| {
          TotalNext(writes, i);
        }
        i := i + 1;
        var n := Min(result.n, |remaining|);
        bytes := bytes + remaining[..n];
        if result.Raised? || n == 0 {
          ok := false;
        } else {
          remaining := remaining[n..];
        }
      }
      if ok {
        AllTaken(|line|, writes, i);
      }
      if syncFails {
        ok := false;
      }
      if !ok && !truncateFails {
        bytes := bytes[..originalSize];
      }
    }

    /** `_write_compacted_audit` up to its rename: the copied suffix, in whatever pieces it is read. */
    method CopySuffix(offset: nat, cuts: nat -> nat) returns (r: Option<Bytes>)
      requires offset <= |bytes|
      ensures |bytes| <= MAX_READ ==> r == Some(bytes[offset..])
      ensures |bytes| > MAX_READ ==> r.None?
    {
      if |bytes| > MAX_READ {
        return None;
      }
      var copy: Bytes, position, calls := [], offset, 0;
      while position < MAX_READ
        invariant offset <= position <= |bytes|
        invariant copy == bytes[offset..position]
        decreases MAX_READ - position
      {
        var asked := Min(CHUNK, MAX_READ - position);
        var size := Min(Min(asked, |bytes| - position), if cuts(calls) == 0 then 1 else cuts(calls));
        if size == 0 {
          break;
        }
        copy := copy + bytes[position..position + size];
        position, calls := position + size, calls + 1;
      }
      assert position == |bytes| && bytes[offset..position] == bytes[offset..];
      return Some(copy);
    }

    /** `compact_audit` under the lock; `replaced` says whether the rename succeeded. */
    method Compact(keep: nat, apply: bool, cuts: nat -> nat, isEvent: Bytes -> bool, replaced: bool)
      returns (r: Option<Compaction>)
      modifies this
      ensures var total := |Lines(old(bytes))|;
              var removed := total - Min(total, keep);
              var changed := apply && removed > 0;
              if |old(bytes)| > MAX_READ || !Acceptable(old(bytes), isEvent) || (changed && !replaced)
              then r.None? && bytes == old(bytes)
              else r == Some(Compaction(changed, total, total - removed, removed))
                   && bytes == if changed then Newest(old(bytes), keep) else old(bytes)
      ensures r.Some? && apply ==> bytes == After(old(bytes), Compacted(keep), isEvent)
    {
      hide Acceptable, Lines, Newest;
      assert |bytes| <= MAX_READ ==> bytes[..Min(|bytes|, MAX_READ)] == bytes;
      var scan := ScanForCompaction(bytes, |bytes|, |bytes|, cuts, keep, isEvent);
      if scan.None? {
        return None;
      }
      var removed := scan.value.total - scan.value.retained;
      if removed == 0 {
        NewestIsAll(bytes, keep);
      }
      var changed := apply && removed > 0;
      if changed {
        var copy := CopySuffix(scan.value.offset, cuts);
        if copy.None? || !replaced {
          return None;
        }
        bytes := copy.value;
      }
      return Some(Compaction(changed, scan.value.total, scan.value.retained, removed));
    }
  }

  // ---- runs ----

  /** One locked operation on the log, and how it ended. A torn append could not be rolled back, or its
      process was killed, and has left a part of its line. */
  datatype Op =
    | Appended(line: Bytes) | AppendFailed | AppendTorn(part: Bytes) | Compacted(keep: nat) | CompactionFailed

  /** How an append ended of which `part` is in the file. */
  function HowEnded(ok: bool, truncateFails: bool, line: Bytes, part: Bytes): Op {
    if ok then Appended(line) else if truncateFails then AppendTorn(part) else AppendFailed
  }

  function After(data: Bytes, op: Op, isEvent: Bytes -> bool): Bytes {
    match op
    case Appended(line) => data + line
    case AppendTorn(part) => data + part
    case Compacted(keep) => if |data| <= MAX_READ && Acceptable(data, isEvent) then Newest(data, keep) else data
    case _ => data
  }

  function RunLog(ops: seq<Op>, isEvent: Bytes -> bool): Bytes {
    if ops == [] then [] else After(RunLog(ops[..|ops| - 1], isEvent), ops[|ops| - 1], isEvent)
  }

  /** The events whose append reported success, in order. */
  function Recorded(ops: seq<Op>): seq<Bytes> {
    if ops == [] then []
    else
      var last := ops[|ops| - 1];
      Recorded(ops[..|ops| - 1]) + if last.Appended? then [last.line] else []
  }

  lemma NewestIsAll(data: Bytes, keep: nat)
    requires |Lines(data)| <= keep
    ensures Newest(data, keep) == data
  {
    hide Lines;
    ConcatLines(data);
    assert Lines(data)[0..] == Lines(data);
  }

  lemma NewestOfEvents(events: seq<Bytes>, keep: nat)
    requires forall e :: e in events ==> EventLine(e)
    ensures Newest(Concat(events), keep) == Concat(events[|events| - Min(|events|, keep)..])
  {
    hide EventLine, Lines, Concat;
    EventsAreLines(events);
  }

  /** The log after some run: the recorded events from `dropped` on. */
  ghost predicate IsSuffix(log: Bytes, recorded: seq<Bytes>, dropped: nat) {
    && dropped <= |recorded|
    && log == Concat(recorded[dropped..])
    && forall e :: e in recorded ==> EventLine(e)
  }

  lemma SuffixGrows(log: Bytes, recorded: seq<Bytes>, dropped: nat, line: Bytes)
    requires IsSuffix(log, recorded, dropped) && EventLine(line)
    ensures IsSuffix(log + line, recorded + [line], dropped)
  {
    hide EventLine, Concat;
    ConcatSnoc(recorded[dropped..], line);
    assert (recorded + [line])[dropped..] == recorded[dropped..] + [line];
  }

  lemma SuffixShrinks(log: Bytes, recorded: seq<Bytes>, dropped: nat, keep: nat)
    requires IsSuffix(log, recorded, dropped)
    ensures IsSuffix(Newest(log, keep), recorded,
                     dropped + (|recorded| - dropped - Min(|recorded| - dropped, keep)))
  {
    hide EventLine, Newest, Concat;
    var events := recorded[dropped..];
    NewestOfEvents(events, keep);
    var more := |events| - Min(|events|, keep);
    assert recorded[dropped + more..] == events[more..];
  }

  /** Every byte that stayed in the file: of events recorded, and of appends torn. */
  function Written(ops: seq<Op>): Bytes {
    if ops == [] then []
    else
      var last := ops[|ops| - 1];
      Written(ops[..|ops| - 1])
      + if last.Appended? then last.line else if last.AppendTorn? then last.part else []
  }

  lemma WrittenStep(ops: seq<Op>)
    requires ops != []
    ensures var last, before := ops[|ops| - 1], Written(ops[..|ops| - 1]);
            Written(ops) == if last.Appended? then before + last.line
                            else if last.AppendTorn? then before + last.part else before
  {
  }

  lemma NewestIsSuffix(data: Bytes, keep: nat) returns (dropped: nat)
    ensures dropped <= |data| && Newest(data, keep) == data[dropped..]
  {
    hide Lines;
    var lines := Lines(data);
    var k := |lines| - Min(|lines|, keep);
    ConcatLines(data);
    assert lines[..k] + lines[k..] == lines;
    ConcatAppend(lines[..k], lines[k..]);
    dropped := |Concat(lines[..k])|;
  }

  ghost predicate IsByteSuffix(log: Bytes, written: Bytes, dropped: nat) {
    dropped <= |written| && log == written[dropped..]
  }

  lemma ByteSuffixGrows(log: Bytes, written: Bytes, dropped: nat, more: Bytes)
    requires IsByteSuffix(log, written, dropped)
    ensures IsByteSuffix(log + more, written + more, dropped)
  {
  }

  lemma ByteSuffixShrinks(log: Bytes, written: Bytes, dropped: nat, keep: nat) returns (more: nat)
    requires IsByteSuffix(log, written, dropped)
    ensures IsByteSuffix(Newest(log, keep), written, dropped + more)
  {
    more := NewestIsSuffix(log, keep);
    hide Newest;
  }

  /** Over every run whatever, the log is what was written less some bytes at its beginning. */
  lemma {:induction false} LogIsByteSuffix(ops: seq<Op>, isEvent: Bytes -> bool) returns (dropped: nat)
    ensures IsByteSuffix(RunLog(ops, isEvent), Written(ops), dropped)
    decreases |ops|
  {
    hide Acceptable, Newest, IsByteSuffix;
    if ops == [] {
      dropped := 0;
      NothingWritten();
    } else {
      var before, last := ops[..|ops| - 1], ops[|ops| - 1];
      dropped := LogIsByteSuffix(before, isEvent);
      var log := RunLog(before, isEvent);
      WrittenStep(ops);
      if last.Appended? || last.AppendTorn? {
        ByteSuffixGrows(log, Written(before), dropped, if last.Appended? then last.line else last.part);
      } else if last.Compacted? && |log| <= MAX_READ && Acceptable(log, isEvent) {
        var more := ByteSuffixShrinks(log, Written(before), dropped, last.keep);
        dropped := dropped + more;
      }
    }
  }

  lemma NothingWritten()
    ensures IsByteSuffix([], Written([]), 0)
  {
  }

  /** A torn append that has left a part of its line leaves no sequence of recorded events, unless it
      has left the whole line (its `fsync` failed, and then the truncation): then an event stands in the
      log whose append reported failure. */
  lemma TornIsNoSuffix(log: Bytes, line: Bytes, part: Bytes, recorded: seq<Bytes>, dropped: nat)
    requires EventLine(line) && part != [] && part <= line
    ensures IsSuffix(log + part, recorded, dropped) ==> part == line
    ensures part == line && IsSuffix(log, recorded, dropped) ==> IsSuffix(log + part, recorded + [line], dropped)
  {
    assert Last(log + part) == Last(part);
    if part != line {
      assert Last(part) == Front(line)[|part| - 1];
      if IsSuffix(log + part, recorded, dropped) {
        EventsEnd(recorded[dropped..]);
      }
    } else if IsSuffix(log, recorded, dropped) {
      SuffixGrows(log, recorded, dropped, line);
    }
  }

  lemma {:induction false} EventsEnd(events: seq<Bytes>)
    requires forall e :: e in events ==> EventLine(e)
    ensures Concat(events) != [] ==> Last(Concat(events)) == NEWLINE
  {
    if events != [] {
      EventsEnd(events[1..]);
      assert events[0] in events;
    }
  }

  /** Over every run in which no append was torn, the log is a contiguous suffix, in order, of the
      recorded events. */
  lemma {:induction false} LogIsSuffix(ops: seq<Op>, isEvent: Bytes -> bool) returns (dropped: nat)
    requires forall op :: op in ops && op.Appended? ==> EventLine(op.line)
    requires forall op :: op in ops && op.AppendTorn? ==> op.part == []
    ensures IsSuffix(RunLog(ops, isEvent), Recorded(ops), dropped)
    decreases |ops|
  {
    hide EventLine, Acceptable, Newest, Concat, IsSuffix;
    if ops == [] {
      dropped := 0;
      NoLines();
    } else {
      var before, last := ops[..|ops| - 1], ops[|ops| - 1];
      dropped := LogIsSuffix(before, isEvent);
      var log, recorded := RunLog(before, isEvent), Recorded(before);
      assert last in ops;
      if last.Appended? {
        SuffixGrows(log, recorded, dropped, last.line);
      } else {
        assert Recorded(ops) == recorded + [] == recorded;
        assert last.AppendTorn? ==> log + last.part == log;
        if last.Compacted? && |log| <= MAX_READ && Acceptable(log, isEvent) {
          SuffixShrinks(log, recorded, dropped, last.keep);
          dropped := dropped + (|recorded| - dropped - Min(|recorded| - dropped, last.keep));
        }
      }
    }
  }

  lemma NoLines()
    ensures IsSuffix([], [], 0)
  {
  }

  lemma AcceptedToTheEnd(data: Bytes, isEvent: Bytes -> bool)
    requires Acceptable(data, isEvent)
    ensures Last(Split(data)) == []
  {
    PartsHaveNoNewline(data);
    hide Split;
    var rest := Last(Split(data));
    assert rest in Split(data);
    assert rest != [] ==> rest in Lines(data);
    LastIsIn(rest);
  }

  lemma LastIsIn(line: Bytes)
    ensures line != [] ==> Last(line) in line
  {
  }

  lemma AcceptableIsEvents(data: Bytes, isEvent: Bytes -> bool)
    requires Acceptable(data, isEvent)
    ensures forall line :: line in Lines(data) ==> EventLine(line)
  {
    PartsHaveNoNewline(data);
    AcceptedToTheEnd(data, isEvent);
    hide Split, Acceptable;
    var parts := Split(data);
    forall line | line in Lines(data) ensures EventLine(line) {
      var i :| 0 <= i < |Front(parts)| && Terminate(Front(parts))[i] == line;
      assert parts[i] in parts && Front(line) == parts[i];
    }
  }

  /** Compacting to `n` and then to `m` is compacting to the smaller of the two. */
  lemma CompactTwice(data: Bytes, n: nat, m: nat, isEvent: Bytes -> bool)
    ensures After(After(data, Compacted(n), isEvent), Compacted(m), isEvent)
            == After(data, Compacted(Min(m, n)), isEvent)
  {
    hide EventLine, Newest, Lines, Acceptable, Concat;
    if |data| <= MAX_READ && Acceptable(data, isEvent) {
      AcceptedTwice(data, n, m, isEvent);
    }
  }

  lemma AcceptedTwice(data: Bytes, n: nat, m: nat, isEvent: Bytes -> bool)
    requires |data| <= MAX_READ && Acceptable(data, isEvent)
    ensures After(After(data, Compacted(n), isEvent), Compacted(m), isEvent)
            == After(data, Compacted(Min(m, n)), isEvent)
  {
    hide EventLine, Newest, Lines, Acceptable, Concat;
    var lines := Lines(data);
    AcceptableIsEvents(data, isEvent);
    ConcatLines(data);
    NewestOfEvents(lines, n);
    NewestOfEvents(lines, Min(m, n));
    var kept := lines[|lines| - Min(|lines|, n)..];
    NewestOfEvents(kept, m);
    KeptAcceptable(lines, n, data, isEvent);
    assert kept[|kept| - Min(|kept|, m)..] == lines[|lines| - Min(|lines|, Min(m, n))..];
  }

  lemma KeptAcceptable(lines: seq<Bytes>, n: nat, data: Bytes, isEvent: Bytes -> bool)
    requires lines == Lines(data) && Acceptable(data, isEvent) && data == Concat(lines)
    requires forall line :: line in lines ==> EventLine(line)
    ensures var kept := lines[|lines| - Min(|lines|, n)..];
            Acceptable(Concat(kept), isEvent) && |Concat(kept)| <= |data|
  {
    hide EventLine, GoodLine, Lines, Concat;
    var k := |lines| - Min(|lines|, n);
    EventsAreLines(lines[k..]);
    assert lines[..k] + lines[k..] == lines;
    ConcatAppend(lines[..k], lines[k..]);
  }
}
