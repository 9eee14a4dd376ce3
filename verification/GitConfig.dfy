/** NUL-separated Git output, and which filter drivers a Git configuration makes executable. */
module GitConfig {
  import opened Results
  import Seqs

  datatype GitError =
    | Unavailable           // Git failed, timed out or was cut short
    | MetadataLimit
    | ConfigUnreadable
    | PathsTooLong
    | Incomplete
    | Invalid
    | FilterSelected
    | OptionsTooLong
    | NotInspectable        // the index, the head commit or a path listing cannot be inspected safely

  const GIT_MAX_FILTER_CONFIG_ENTRIES := 256

  // ---- records ----

  const NUL := '\0'

  predicate NulFree(records: seq<string>) {
    forall r :: r in records ==> NUL !in r
  }

  /** Every record with its terminator. */
  function Encoded(records: seq<string>): string {
    if records == [] then [] else records[0] + [NUL] + Encoded(records[1..])
  }

  function Count(s: string): nat {
    if s == [] then 0 else (if s[0] == NUL then 1 else 0) + Count(s[1..])
  }

  /** `s.split("\0")`. */
  function Split(s: string): (r: seq<string>)
    ensures |r| > 0
  {
    if s == [] then [[]]
    else
      var rest := Split(s[1..]);
      if s[0] == NUL then [[]] + rest else [[s[0]] + rest[0]] + rest[1..]
  }

  function NulRecords(raw: string, limit: nat): Option<seq<string>> {
    if raw == [] then Some([])
    else if raw[|raw| - 1] != NUL || Count(raw) > limit then None
    else Some(Split(raw[..|raw| - 1]))
  }

  lemma EncodedCons(record: string, rest: seq<string>)
    ensures Encoded([record] + rest) == record + [NUL] + Encoded(rest)
  {
    assert ([record] + rest)[1..] == rest;
  }

  lemma SplitCons(s: string)
    requires s != []
    ensures var rest := Split(s[1..]);
            Split(s) == if s[0] == NUL then [[]] + rest else [[s[0]] + rest[0]] + rest[1..]
  {
  }

  lemma {:induction false} SplitEncodes(s: string)
    ensures Encoded(Split(s)) == s + [NUL]
  {
    if s == [] {
      SplitEmpty();
    } else {
      SplitEncodes(s[1..]);
      SplitCons(s);
      hide *;
      var rest := Split(s[1..]);
      var first, others := rest[0], rest[1..];
      assert rest == [first] + others && s == [s[0]] + s[1..];
      if s[0] == NUL {
        EncodedCons([], rest);
      } else {
        EncodedCons(first, others);
        EncodedCons([s[0]] + first, others);
        Seqs.Assoc([s[0]], first, [NUL]);
        Seqs.Assoc([s[0]], first + [NUL], Encoded(others));
      }
    }
  }

  lemma SplitEmpty()
    ensures Encoded(Split([])) == [NUL]
  {
    assert Split([]) == [[]];
    assert Encoded([[]]) == [NUL];
  }

  lemma {:induction false} SplitPieces(s: string)
    ensures NulFree(Split(s)) && |Split(s)| == Count(s) + 1
  {
    if s != [] {
      SplitPieces(s[1..]);
      assert Split(s[1..])[0] in Split(s[1..]);
    }
  }

  lemma {:induction false} CountSnoc(s: string, c: char)
    ensures Count(s + [c]) == Count(s) + if c == NUL then 1 else 0
  {
    if s != [] {
      assert (s + [c])[1..] == s[1..] + [c];
      CountSnoc(s[1..], c);
    }
  }

  lemma {:induction false} EncodedEnds(records: seq<string>)
    requires records != []
    ensures Encoded(records) != [] && Encoded(records)[|Encoded(records)| - 1] == NUL
  {
    if |records| > 1 {
      EncodedEnds(records[1..]);
    }
  }

  function Upto(s: string, c: char): (n: nat)
    ensures n <= |s|
    ensures forall i :: 0 <= i < n ==> s[i] != c
    ensures n < |s| ==> s[n] == c
  {
    if s == [] || s[0] == c then 0 else 1 + Upto(s[1..], c)
  }

  lemma FirstRecord(records: seq<string>)
    requires records != [] && NulFree(records)
    ensures Upto(Encoded(records), NUL) == |records[0]|
    ensures Encoded(records)[..|records[0]|] == records[0]
    ensures Encoded(records)[|records[0]| + 1..] == Encoded(records[1..])
  {
    var s, n := Encoded(records), |records[0]|;
    assert records[0] in records;
    assert s == records[0] + [NUL] + Encoded(records[1..]);
    assert s[n] == NUL && forall i :: 0 <= i < n ==> s[i] == records[0][i];
  }

  /** NUL-free records can be told apart. */
  lemma {:induction false} EncodedInjective(a: seq<string>, b: seq<string>)
    requires NulFree(a) && NulFree(b) && Encoded(a) == Encoded(b)
    ensures a == b
  {
    if a != [] && b != [] {
      FirstRecord(a);
      FirstRecord(b);
      EncodedInjective(a[1..], b[1..]);
      assert a == [a[0]] + a[1..] && b == [b[0]] + b[1..];
    } else if a != [] {
      EncodedEnds(a);
    } else if b != [] {
      EncodedEnds(b);
    }
  }

  lemma SplitCounted(raw: string)
    requires raw != [] && raw[|raw| - 1] == NUL
    ensures var records := Split(raw[..|raw| - 1]);
            Encoded(records) == raw && NulFree(records) && |records| == Count(raw)
  {
    var front := raw[..|raw| - 1];
    SplitEncodes(front);
    SplitPieces(front);
    assert raw == front + [NUL];
    CountSnoc(front, NUL);
  }

  lemma NotRecords(raw: string, limit: nat)
    requires raw != [] && (raw[|raw| - 1] != NUL || Count(raw) > limit)
    ensures forall records :: raw == Encoded(records) && NulFree(records) ==> |records| > limit
  {
    forall records | raw == Encoded(records) && NulFree(records) ensures |records| > limit {
      assert records != [];
      EncodedEnds(records);
      SplitCounted(raw);
      EncodedInjective(records, Split(raw[..|raw| - 1]));
    }
  }

  /** Reading records undoes writing them, and reads nothing else. */
  lemma NulRecordsExact(raw: string, limit: nat, records: seq<string>)
    ensures NulRecords(raw, limit) == Some(records)
            <==> raw == Encoded(records) && NulFree(records) && |records| <= limit
  {
    if raw == [] {
      if records != [] {
        EncodedEnds(records);
      }
    } else if raw[|raw| - 1] != NUL || Count(raw) > limit {
      NotRecords(raw, limit);
    } else {
      SplitCounted(raw);
      hide Split, Count, Encoded, NulFree;
      if raw == Encoded(records) && NulFree(records) {
        EncodedInjective(records, Split(raw[..|raw| - 1]));
      }
    }
  }

  // ---- configuration entries ----

  datatype Entry = Entry(key: string, value: string)

  const CLEAN := "clean"
  const PROCESS := "process"
  const REQUIRED := "required"

  function DriverKey(name: string, operation: string): string {
    "filter." + name + "." + operation
  }

  /** The text split at the first `c`. */
  function Partition(s: string, c: char): Option<Entry> {
    var n := Upto(s, c);
    if n == |s| then None else Some(Entry(s[..n], s[n + 1..]))
  }

  /** What `.+` matches. */
  predicate DriverName(name: string) {
    name != [] && '\n' !in name
  }

  /** The driver name in `filter.<name>.<operation>`. */
  function NameIn(key: string, operation: string): Option<string> {
    var front, back := "filter.", "." + operation;
    if |key| > |front| + |back| && front <= key && key[|key| - |back|..] == back
       && '\n' !in key[|front|..|key| - |back|]
    then Some(key[|front|..|key| - |back|]) else None
  }

  function DriverIn(key: string): Option<(string, string)> {
    if NameIn(key, CLEAN).Some? then Some((NameIn(key, CLEAN).value, CLEAN))
    else if NameIn(key, PROCESS).Some? then Some((NameIn(key, PROCESS).value, PROCESS))
    else None
  }

  lemma NameInExact(key: string, operation: string, name: string)
    ensures NameIn(key, operation) == Some(name) <==> key == DriverKey(name, operation) && DriverName(name)
  {
    var front, back := "filter.", "." + operation;
    if NameIn(key, operation) == Some(name) {
      assert key == key[..|front|] + key[|front|..|key| - |back|] + key[|key| - |back|..];
      assert key[..|front|] == front;
      assert key == DriverKey(name, operation);
    } else if key == DriverKey(name, operation) {
      assert key == front + name + back;
      assert key[|front|..|key| - |back|] == name;
    }
  }

  lemma KeyParts(key: string, name: string, operation: string)
    requires key == DriverKey(name, operation)
    ensures |key| == |name| + |operation| + 8
    ensures key[7..7 + |name|] == name
    ensures operation != [] ==> key[|key| - 1] == operation[|operation| - 1]
  {
  }

  /** Keys determine their driver and operation. */
  lemma DriverKeyInjective(a: string, p: string, b: string, q: string)
    requires p in {CLEAN, PROCESS, REQUIRED} && q in {CLEAN, PROCESS, REQUIRED}
    ensures DriverKey(a, p) == DriverKey(b, q) ==> a == b && p == q
  {
    var k := DriverKey(a, p);
    if k == DriverKey(b, q) {
      KeyParts(k, a, p);
      KeyParts(k, b, q);
      assert p == q;
    }
  }

  lemma DriverInExact(key: string, name: string, operation: string)
    ensures DriverIn(key) == Some((name, operation))
            <==> key == DriverKey(name, operation) && DriverName(name) && operation in {CLEAN, PROCESS}
  {
    NameInExact(key, operation, name);
    if NameIn(key, CLEAN).Some? {
      NameInExact(key, CLEAN, NameIn(key, CLEAN).value);
      if operation in {CLEAN, PROCESS} {
        DriverKeyInjective(NameIn(key, CLEAN).value, CLEAN, name, operation);
      }
    }
    if NameIn(key, PROCESS).Some? {
      NameInExact(key, PROCESS, NameIn(key, PROCESS).value);
    }
  }

  predicate SafeName(name: string) {
    |name| <= 128 && '=' !in name && '\U{FFFD}' !in name && forall c :: c in name ==> ' ' <= c
  }

  predicate Readable(entry: Entry) {
    DriverIn(entry.key).Some? && SafeName(DriverIn(entry.key).value.0)
  }

  // ---- which drivers are executable ----

  /** The value a later entry has not replaced. */
  function Last(config: seq<Entry>, key: string): Option<string> {
    if config == [] then None
    else
      var e := config[|config| - 1];
      if e.key == key then Some(e.value) else Last(config[..|config| - 1], key)
  }

  /** Entry `i` is the last with this key. */
  ghost predicate LastAt(config: seq<Entry>, key: string, i: nat) {
    i < |config| && config[i].key == key && forall j :: i < j < |config| ==> config[j].key != key
  }

  lemma {:induction false} LastIsLast(config: seq<Entry>, key: string)
    ensures Last(config, key).None? <==> forall i :: 0 <= i < |config| ==> config[i].key != key
    ensures forall i: nat :: LastAt(config, key, i) ==> Last(config, key) == Some(config[i].value)
  {
    if config != [] {
      var n := |config| - 1;
      LastIsLast(config[..n], key);
      forall i: nat | LastAt(config, key, i) ensures Last(config, key) == Some(config[i].value) {
        if i < n {
          assert LastAt(config[..n], key, i);
        }
      }
      assert forall i :: 0 <= i < n ==> config[i] == config[..n][i];
    }
  }

  /** The command Git runs for a driver: `process` replaces `clean`. */
  function Command(config: seq<Entry>, name: string): string {
    var process, clean := Last(config, DriverKey(name, PROCESS)), Last(config, DriverKey(name, CLEAN));
    if process.Some? then process.value else if clean.Some? then clean.value else []
  }

  predicate Executable(config: seq<Entry>, name: string) {
    DriverName(name) && Command(config, name) != []
  }

  /** The drivers a configuration names and makes executable. */
  function Drivers(config: seq<Entry>): set<string> {
    set e | e in config && DriverIn(e.key).Some? && Executable(config, DriverIn(e.key).value.0)
      :: DriverIn(e.key).value.0
  }

  lemma {:induction false} LastIsThere(config: seq<Entry>, key: string)
    requires Last(config, key).Some?
    ensures Entry(key, Last(config, key).value) in config
  {
    var n := |config| - 1;
    if config[n].key != key {
      LastIsThere(config[..n], key);
    }
  }

  lemma DriversExact(config: seq<Entry>, name: string)
    ensures name in Drivers(config) <==> Executable(config, name)
  {
    if Executable(config, name) {
      var operation := if Last(config, DriverKey(name, PROCESS)).Some? then PROCESS else CLEAN;
      LastIsThere(config, DriverKey(name, operation));
      DriverInExact(DriverKey(name, operation), name, operation);
    }
  }

  /** The rule on entries: a driver is executable if its last process setting is not empty or, without
      any process setting, its last clean setting is not. */
  lemma DriverRule(config: seq<Entry>, name: string)
    ensures name in Drivers(config) <==>
            var process, clean := "filter." + name + ".process", "filter." + name + ".clean";
            && name != "" && '\n' !in name
            && ((exists i: nat :: LastAt(config, process, i) && config[i].value != "")
                || ((forall i :: 0 <= i < |config| ==> config[i].key != process)
                    && exists i: nat :: LastAt(config, clean, i) && config[i].value != ""))
  {
    DriversExact(config, name);
    SomeLast(config, DriverKey(name, PROCESS));
    SomeLast(config, DriverKey(name, CLEAN));
    hide Last, Drivers;
  }

  lemma SomeLast(config: seq<Entry>, key: string)
    ensures Last(config, key).None? <==> forall i :: 0 <= i < |config| ==> config[i].key != key
    ensures forall i: nat :: LastAt(config, key, i) ==> Last(config, key) == Some(config[i].value)
    ensures Last(config, key).Some? ==> exists i: nat :: LastAt(config, key, i)
  {
    LastIsLast(config, key);
    if Last(config, key).Some? {
      var i := FindLast(config, key);
    }
  }

  lemma {:induction false} FindLast(config: seq<Entry>, key: string) returns (i: nat)
    requires exists i :: 0 <= i < |config| && config[i].key == key
    ensures LastAt(config, key, i)
  {
    var n := |config| - 1;
    if config[n].key == key {
      i := n;
    } else {
      var k :| 0 <= k < |config| && config[k].key == key;
      assert config[..n][k] == config[k];
      i := FindLast(config[..n], key);
    }
  }

  /** The entries in Git's NUL-separated output. */
  function Entries(records: seq<string>): Option<seq<Entry>> {
    if records == [] then Some([])
    else
      var last := Partition(records[|records| - 1], '\n');
      var front := Entries(records[..|records| - 1]);
      if last.None? || front.None? || !Readable(last.value) then None else Some(front.value + [last.value])
  }

  function Configuration(raw: string): Option<seq<Entry>> {
    var records := NulRecords(raw, GIT_MAX_FILTER_CONFIG_ENTRIES);
    if records.None? then None else Entries(records.value)
  }

  // ---- what a configuration is read from ----

  function LineOf(e: Entry): string {
    e.key + "\n" + e.value
  }

  function LinesOf(entries: seq<Entry>): (lines: seq<string>)
    ensures |lines| == |entries|
  {
    if entries == [] then []
    else LinesOf(entries[..|entries| - 1]) + [LineOf(entries[|entries| - 1])]
  }

  /** A setting that is accepted: of the clean or the process command of a driver whose name is not empty,
      not long, and free of equals signs, replacement characters and control characters. */
  ghost predicate Acceptable(e: Entry) {
    && NUL !in e.value
    && exists name, operation ::
         && e.key == DriverKey(name, operation) && (operation == "clean" || operation == "process")
         && 1 <= |name| <= 128 && '=' !in name && '\U{FFFD}' !in name && (forall c :: c in name ==> c as int >= 32)
  }

  lemma ReadableExact(e: Entry)
    ensures Acceptable(e) <==> Readable(e) && NUL !in e.value
  {
    if Acceptable(e) {
      var name, operation :| e.key == DriverKey(name, operation) && (operation == "clean" || operation == "process")
        && 1 <= |name| <= 128 && '=' !in name && '\U{FFFD}' !in name && (forall c :: c in name ==> c as int >= 32);
      DriverInExact(e.key, name, operation);
    }
    if Readable(e) {
      var (name, operation) := DriverIn(e.key).value;
      DriverInExact(e.key, name, operation);
    }
  }

  /** A readable key holds neither a line feed nor a NUL. */
  lemma KeyIsPlain(e: Entry)
    requires Readable(e)
    ensures '\n' !in e.key && NUL !in e.key
  {
    var (name, operation) := DriverIn(e.key).value;
    DriverInExact(e.key, name, operation);
    assert '\n' !in "filter." && NUL !in "filter." && '\n' !in "." && NUL !in ".";
    assert '\n' !in CLEAN && NUL !in CLEAN && '\n' !in PROCESS && NUL !in PROCESS;
  }

  /** The first line feed ends the key; the value may hold others. */
  lemma PartitionExact(s: string, e: Entry)
    requires '\n' !in e.key
    ensures Partition(s, '\n') == Some(e) <==> s == LineOf(e)
  {
    if s == LineOf(e) {
      assert s[|e.key|] == '\n' && forall i :: 0 <= i < |e.key| ==> s[i] == e.key[i];
      assert Upto(s, '\n') == |e.key|;
      assert s[..|e.key|] == e.key && s[|e.key| + 1..] == e.value;
    }
    var n := Upto(s, '\n');
    if n < |s| {
      assert [s[n]] == "\n";
      assert s == s[..n] + "\n" + s[n + 1..];
    }
  }

  lemma PartitionKey(s: string)
    ensures Partition(s, '\n').Some? ==> '\n' !in Partition(s, '\n').value.key
  {
  }

  ghost predicate AllReadable(entries: seq<Entry>) {
    forall i :: 0 <= i < |entries| ==> Readable(entries[i])
  }

  lemma {:induction false} EntriesExact(records: seq<string>, entries: seq<Entry>)
    ensures Entries(records) == Some(entries) <==> records == LinesOf(entries) && AllReadable(entries)
    decreases |records| + |entries|
  {
    hide Readable, Partition, LineOf, Entries, LinesOf, AllReadable;
    if records == [] || entries == [] {
      EntriesEmpty(records, entries);
    } else {
      var n, e := |records| - 1, entries[|entries| - 1];
      EntriesExact(records[..n], entries[..|entries| - 1]);
      EntriesLast(records, entries);
      LinesLast(records, entries);
      if Readable(e) {
        KeyIsPlain(e);
        PartitionExact(records[n], e);
      }
    }
  }

  lemma EntriesEmpty(records: seq<string>, entries: seq<Entry>)
    requires records == [] || entries == []
    ensures Entries(records) == Some(entries) <==> records == [] && entries == []
    ensures records == LinesOf(entries) && AllReadable(entries) <==> records == [] && entries == []
  {
  }

  lemma LinesLast(records: seq<string>, entries: seq<Entry>)
    requires records != [] && entries != []
    ensures var n, front, e := |records| - 1, entries[..|entries| - 1], entries[|entries| - 1];
            records == LinesOf(entries) && AllReadable(entries)
            <==> records[..n] == LinesOf(front) && AllReadable(front) && records[n] == LineOf(e) && Readable(e)
  {
    hide Readable, LineOf;
    var n, front, e := |records| - 1, entries[..|entries| - 1], entries[|entries| - 1];
    assert entries == front + [e] && records == records[..n] + [records[n]];
    assert LinesOf(entries) == LinesOf(front) + [LineOf(e)];
    assert LinesOf(entries)[..|front|] == LinesOf(front);
  }

  lemma EntriesLast(records: seq<string>, entries: seq<Entry>)
    requires records != [] && entries != []
    ensures var e := entries[|entries| - 1];
            Entries(records) == Some(entries)
            <==> && Entries(records[..|records| - 1]) == Some(entries[..|entries| - 1])
                 && Partition(records[|records| - 1], '\n') == Some(e) && Readable(e)
  {
    hide Readable, Partition;
    var front, last := Entries(records[..|records| - 1]), Partition(records[|records| - 1], '\n');
    if front.Some? && last.Some? {
      LastOfTwo(front.value, last.value, entries);
    }
  }

  lemma LastOfTwo(front: seq<Entry>, last: Entry, entries: seq<Entry>)
    requires entries != []
    ensures front + [last] == entries <==> front == entries[..|entries| - 1] && last == entries[|entries| - 1]
  {
    assert (front + [last])[..|front|] == front;
    assert entries == entries[..|entries| - 1] + [entries[|entries| - 1]];
  }

  lemma {:induction false} LinesAreNulFree(entries: seq<Entry>)
    requires forall i :: 0 <= i < |entries| ==> Readable(entries[i])
    ensures NulFree(LinesOf(entries)) <==> forall i :: 0 <= i < |entries| ==> NUL !in entries[i].value
  {
    hide Readable;
    if entries != [] {
      var n := |entries| - 1;
      LinesAreNulFree(entries[..n]);
      KeyIsPlain(entries[n]);
      assert NUL in LineOf(entries[n]) <==> NUL in entries[n].value by {
        LineNul(entries[n]);
      }
      hide LineOf;
      assert LineOf(entries[n]) in LinesOf(entries);
      assert forall i :: 0 <= i < n ==> entries[..n][i] == entries[i];
    }
  }

  lemma LineNul(e: Entry)
    requires NUL !in e.key
    ensures NUL in LineOf(e) <==> NUL in e.value
  {
    if NUL in e.value {
      var i :| 0 <= i < |e.value| && e.value[i] == NUL;
      assert LineOf(e)[|e.key| + 1 + i] == NUL;
    }
  }

  /** Exactly the texts that list at most 256 acceptable settings, each with its key, a line feed, its
      value and a NUL, are accepted; and they are read as just these settings. */
  lemma ConfigurationExact(raw: string, entries: seq<Entry>)
    ensures Configuration(raw) == Some(entries)
            <==> && raw == Encoded(LinesOf(entries)) && |entries| <= 256
                 && forall i :: 0 <= i < |entries| ==> Acceptable(entries[i])
  {
    forall i | 0 <= i < |entries|
      ensures Acceptable(entries[i]) <==> Readable(entries[i]) && NUL !in entries[i].value
    {
      ReadableExact(entries[i]);
    }
    hide Acceptable, Readable, Encoded, NulRecords, Entries, NulFree;
    NulRecordsExact(raw, GIT_MAX_FILTER_CONFIG_ENTRIES, LinesOf(entries));
    EntriesExact(LinesOf(entries), entries);
    if forall i :: 0 <= i < |entries| ==> Readable(entries[i]) {
      LinesAreNulFree(entries);
    }
    if Configuration(raw) == Some(entries) {
      var records := NulRecords(raw, GIT_MAX_FILTER_CONFIG_ENTRIES).value;
      EntriesExact(records, entries);
    }
  }

  /** What the loop's two-level dictionary holds. */
  ghost predicate Tabulates(drivers: map<string, map<string, string>>, config: seq<Entry>) {
    && (forall name :: name in drivers ==> DriverName(name))
    && forall name, operation :: DriverName(name) && operation in {CLEAN, PROCESS} ==>
         Last(config, DriverKey(name, operation))
         == if name in drivers && operation in drivers[name] then Some(drivers[name][operation]) else None
  }

  function Run(operations: map<string, string>): string {
    if PROCESS in operations then operations[PROCESS]
    else if CLEAN in operations then operations[CLEAN] else []
  }

  function Put(drivers: map<string, map<string, string>>, name: string, operation: string, value: string)
    : map<string, map<string, string>>
  {
    drivers[name := (if name in drivers then drivers[name] else map[])[operation := value]]
  }

  lemma PutTabulates(drivers: map<string, map<string, string>>, config: seq<Entry>, e: Entry)
    requires Tabulates(drivers, config) && DriverIn(e.key).Some?
    ensures Tabulates(Put(drivers, DriverIn(e.key).value.0, DriverIn(e.key).value.1, e.value), config + [e])
  {
    var (name, operation) := DriverIn(e.key).value;
    DriverInExact(e.key, name, operation);
    assert (config + [e])[..|config|] == config;
    var next := Put(drivers, name, operation, e.value);
    hide DriverIn;
    forall n, o | DriverName(n) && o in {CLEAN, PROCESS}
      ensures Last(config + [e], DriverKey(n, o))
              == if n in next && o in next[n] then Some(next[n][o]) else None
    {
      DriverKeyInjective(n, o, name, operation);
    }
  }

  lemma Tabulated(drivers: map<string, map<string, string>>, config: seq<Entry>)
    requires Tabulates(drivers, config)
    ensures (set name | name in drivers && Run(drivers[name]) != []) == Drivers(config)
  {
    hide Last, DriverKey;
    forall name ensures name in Drivers(config) <==> name in drivers && Run(drivers[name]) != [] {
      DriversExact(config, name);
      hide Drivers;
    }
  }

  /** Accepts exactly the readable configurations, and resolves them as Git does: the last value
      counts, and `process` goes before `clean`. */
  method ExecutableFilterDrivers(raw: string) returns (r: Result<set<string>, GitError>)
    ensures r.Ok? <==> Configuration(raw).Some?
    ensures r.Ok? ==> r.value == Drivers(Configuration(raw).value)
    ensures r.Err? ==> r.error == if NulRecords(raw, GIT_MAX_FILTER_CONFIG_ENTRIES).None? then MetadataLimit else ConfigUnreadable
  {
    hide NulRecords, NameIn, Drivers;
    var records := NulRecords(raw, GIT_MAX_FILTER_CONFIG_ENTRIES);
    if records.None? {
      return Err(MetadataLimit);
    }
    var drivers: map<string, map<string, string>> := map[];
    var i := 0;
    ghost var config: seq<Entry> := [];
    while i < |records.value|
      invariant i <= |records.value|
      invariant Entries(records.value[..i]) == Some(config)
      invariant Tabulates(drivers, config)
    {
      var entry := Partition(records.value[i], '\n');
      assert records.value[..i + 1][..i] == records.value[..i];
      if entry.None? || !Readable(entry.value) {
        EntriesStop(records.value, i + 1);
        return Err(ConfigUnreadable);
      }
      var (name, operation) := DriverIn(entry.value.key).value;
      PutTabulates(drivers, config, entry.value);
      drivers := Put(drivers, name, operation, entry.value.value);
      config := config + [entry.value];
      i := i + 1;
    }
    assert records.value[..i] == records.value;
    Tabulated(drivers, config);
    r := Ok(set name | name in drivers && Run(drivers[name]) != []);
  }

  lemma {:induction false} EntriesStop(records: seq<string>, n: nat)
    requires n <= |records| && Entries(records[..n]).None?
    ensures Entries(records).None?
    decreases |records|
  {
    if n == |records| {
      assert records[..n] == records;
    } else {
      assert records[..|records| - 1][..n] == records[..n];
      EntriesStop(records[..|records| - 1], n);
    }
  }
}
