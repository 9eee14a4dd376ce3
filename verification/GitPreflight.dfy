/** The inspection before a read-only Git command: every tracked path is asked for its filter, in
    bounded batches, and every executable filter driver is overridden for the command. */
module GitPreflight {
  import opened Results
  import opened GitConfig
  import opened Seqs
  import Order

  const GIT_MAX_ATTRIBUTE_BATCH_CHARS := 8_192
  const GIT_MAX_FILTER_OPTION_CHARS := 8_192

  // ---- batches ----

  function Utf8Length(s: string): nat {
    if s == [] then 0
    else
      (if s[0] < '\U{0080}' then 1 else if s[0] < '\U{0800}' then 2 else if s[0] < '\U{10000}' then 3 else 4)
      + Utf8Length(s[1..])
  }

  /** What a path adds to the size of its batch. */
  function Cost(path: string): nat {
    Utf8Length(path) + 1
  }

  function Weight(batch: seq<string>): nat {
    if batch == [] then 0 else Weight(batch[..|batch| - 1]) + Cost(batch[|batch| - 1])
  }

  function CountFrom(s: string, least: char): nat {
    if s == [] then 0 else (if s[0] >= least then 1 else 0) + CountFrom(s[1..], least)
  }

  /** One byte for every character, and one more from U+0080, U+0800 and U+10000 on. */
  lemma {:induction false} Utf8Exact(s: string)
    ensures Utf8Length(s)
            == |s| + CountFrom(s, '\U{0080}') + CountFrom(s, '\U{0800}') + CountFrom(s, '\U{10000}')
  {
    if s != [] {
      Utf8Exact(s[1..]);
    }
  }

  lemma {:induction false} Utf8Append(a: string, b: string)
    ensures Utf8Length(a + b) == Utf8Length(a) + Utf8Length(b)
  {
    if a == [] {
      assert a + b == b;
    } else {
      assert (a + b)[1..] == a[1..] + b;
      Utf8Append(a[1..], b);
    }
  }

  /** A batch weighs the bytes of its paths and one for each. */
  lemma {:induction false} WeightExact(batch: seq<string>)
    ensures Weight(batch) == Utf8Length(Concat(batch)) + |batch|
  {
    if batch != [] {
      var front, last := batch[..|batch| - 1], batch[|batch| - 1];
      WeightExact(front);
      assert batch == front + [last];
      ConcatAppend(front, [last]);
      assert Concat([last]) == last + [] == last;
      Utf8Append(Concat(front), last);
      hide Utf8Length, Concat;
    }
  }

  predicate Fits(path: string) {
    Cost(path) <= GIT_MAX_ATTRIBUTE_BATCH_CHARS
  }

  /** How many paths at the end fit into a batch that already weighs `size`. */
  function Room(paths: seq<string>, size: nat): (n: nat)
    ensures n <= |paths|
  {
    if paths == [] then 0
    else
      var cost := Cost(paths[|paths| - 1]);
      if size + cost > GIT_MAX_ATTRIBUTE_BATCH_CHARS then 0 else 1 + Room(paths[..|paths| - 1], size + cost)
  }

  /** The questions to Git, up to a path that is too long for any. */
  function Batches(paths: seq<string>): seq<seq<string>>
    decreases |paths|
  {
    var n := |paths| - Room(paths, 0);
    if n == |paths| then [] else [Reverse(paths[n..])] + Batches(paths[..n])
  }

  lemma {:induction false} WeightCons(path: string, batch: seq<string>)
    ensures Weight([path] + batch) == Cost(path) + Weight(batch)
  {
    if batch == [] {
      assert [path] + batch == [path];
      assert Weight([path]) == Weight([]) + Cost(path);
    } else {
      assert ([path] + batch)[..|batch|] == [path] + batch[..|batch| - 1];
      WeightCons(path, batch[..|batch| - 1]);
    }
  }

  lemma RoomStep(paths: seq<string>, size: nat)
    requires paths != []
    ensures var next := size + Cost(paths[|paths| - 1]);
            Room(paths, size)
            == if next > GIT_MAX_ATTRIBUTE_BATCH_CHARS then 0 else 1 + Room(paths[..|paths| - 1], next)
  {
    hide Cost;
  }

  lemma WeightEmpty()
    ensures Weight(Reverse([])) == 0
  {
  }

  /** The batch taken keeps the bound, and one more path would break it. */
  lemma {:induction false} RoomIsExact(paths: seq<string>, size: nat)
    requires size <= GIT_MAX_ATTRIBUTE_BATCH_CHARS
    ensures var n := |paths| - Room(paths, size);
            && size + Weight(Reverse(paths[n..])) <= GIT_MAX_ATTRIBUTE_BATCH_CHARS
            && (n > 0 ==> size + Weight(Reverse(paths[n..])) + Cost(paths[n - 1]) > GIT_MAX_ATTRIBUTE_BATCH_CHARS)
  {
    hide Room, Cost, Reverse, Weight;
    var n := |paths| - Room(paths, size);
    if paths != [] {
      RoomStep(paths, size);
    }
    if n == |paths| {
      WeightEmpty();
      assert paths[n..] == [];
    } else {
      var last, front := paths[|paths| - 1], paths[..|paths| - 1];
      LastTaken(paths, n);
      WeightCons(last, Reverse(front[n..]));
      RoomIsExact(front, size + Cost(last));
    }
  }

  lemma LastTaken(paths: seq<string>, n: nat)
    requires n < |paths|
    ensures Reverse(paths[n..]) == [paths[|paths| - 1]] + Reverse(paths[..|paths| - 1][n..])
  {
    assert paths[n..][..|paths| - n - 1] == paths[..|paths| - 1][n..];
  }

  lemma BatchesStep(paths: seq<string>)
    requires Room(paths, 0) > 0
    ensures var n := |paths| - Room(paths, 0);
            Batches(paths) == [Reverse(paths[n..])] + Batches(paths[..n])
  {
    hide Room, Reverse;
  }

  lemma {:induction false} TakenFit(paths: seq<string>, size: nat, n: nat)
    requires n == |paths| - Room(paths, size)
    ensures forall i :: n <= i < |paths| ==> Fits(paths[i])
    ensures n < |paths| ==> Reverse(paths[n..]) != [] && Reverse(paths[n..])[0] == paths[|paths| - 1]
    decreases |paths|
  {
    if n < |paths| {
      TakenFit(paths[..|paths| - 1], size + Cost(paths[|paths| - 1]), n);
    }
  }

  ghost predicate AllFit(paths: seq<string>) {
    forall i :: 0 <= i < |paths| ==> Fits(paths[i])
  }

  /** Batches ask about each path once, from the last to the first: about all of them exactly when
      none is too long by itself. */
  lemma {:induction false} BatchesCover(paths: seq<string>)
    ensures Concat(Batches(paths)) <= Reverse(paths)
    ensures Concat(Batches(paths)) == Reverse(paths) <==> AllFit(paths)
    decreases |paths|
  {
    var n := |paths| - Room(paths, 0);
    if n < |paths| {
      BatchesStep(paths);
      BatchesCover(paths[..n]);
      assert paths == paths[..n] + paths[n..];
      ReverseAppend(paths[..n], paths[n..]);
      TakenFit(paths, 0, n);
      hide Cost, Room, Reverse, Batches, Fits;
      var first, others := Reverse(paths[n..]), Batches(paths[..n]);
      assert ([first] + others)[1..] == others;
      assert forall i :: 0 <= i < n ==> paths[i] == paths[..n][i];
    }
  }

  predicate Full(batches: seq<seq<string>>) {
    && (forall k :: 0 <= k < |batches| ==>
          batches[k] != [] && Weight(batches[k]) <= GIT_MAX_ATTRIBUTE_BATCH_CHARS)
    && (forall k :: 1 <= k < |batches| ==>
          Weight(batches[k - 1]) + Cost(batches[k][0]) > GIT_MAX_ATTRIBUTE_BATCH_CHARS)
  }

  lemma FullCons(first: seq<string>, others: seq<seq<string>>)
    requires Full(others) && first != [] && Weight(first) <= GIT_MAX_ATTRIBUTE_BATCH_CHARS
    requires others != [] ==> others[0] != [] && Weight(first) + Cost(others[0][0]) > GIT_MAX_ATTRIBUTE_BATCH_CHARS
    ensures Full([first] + others)
  {
    hide Weight, Cost;
    var batches := [first] + others;
    assert batches[0] == first;
    forall k | 1 <= k < |batches|
      ensures Weight(batches[k - 1]) + Cost(batches[k][0]) > GIT_MAX_ATTRIBUTE_BATCH_CHARS
    {
      assert batches[k] == others[k - 1];
      if k > 1 {
        assert batches[k - 1] == others[k - 2];
      }
    }
  }

  /** Each batch keeps the bound, and is as large as the order of the paths allows. */
  lemma {:induction false} BatchesAreFull(paths: seq<string>)
    ensures Full(Batches(paths))
    ensures Batches(paths) != [] ==>
              paths != [] && Batches(paths)[0] != [] && Batches(paths)[0][0] == paths[|paths| - 1]
    decreases |paths|
  {
    var n := |paths| - Room(paths, 0);
    if n < |paths| {
      BatchesStep(paths);
      BatchesAreFull(paths[..n]);
      RoomIsExact(paths, 0);
      TakenFit(paths, 0, n);
      hide Cost, Room, Reverse, Batches, Weight, Fits, Full;
      var first, others := Reverse(paths[n..]), Batches(paths[..n]);
      assert others != [] ==> others[0][0] == paths[n - 1];
      FullCons(first, others);
    }
  }

  // ---- Git's answers ----

  const FILTER := "filter"

  /** For every path asked: the path, the attribute, and the attribute's value. */
  function Triples(batch: seq<string>, values: seq<string>): seq<string>
    requires |batch| == |values|
  {
    if batch == [] then [] else [batch[0], FILTER, values[0]] + Triples(batch[1..], values[1..])
  }

  /** A complete answer about exactly the paths asked, none of which selects one of the drivers. */
  ghost predicate Clear(answer: Option<string>, batch: seq<string>, drivers: set<string>) {
    exists values: seq<string> ::
      && |values| == |batch|
      && NulFree(Triples(batch, values))
      && answer == Some(Encoded(Triples(batch, values)))
      && forall value :: value in values ==> value !in drivers
  }

  lemma {:induction false} TriplesAt(batch: seq<string>, values: seq<string>, i: nat)
    requires |batch| == |values|
    ensures var records := Triples(batch, values);
            && |records| == 3 * |batch|
            && (i < |batch| ==>
                  records[3 * i] == batch[i] && records[3 * i + 1] == FILTER && records[3 * i + 2] == values[i])
  {
    if batch != [] {
      TriplesAt(batch[1..], values[1..], if i > 0 then i - 1 else 0);
    }
  }

  lemma {:induction false} TriplesSnoc(batch: seq<string>, values: seq<string>, path: string, value: string)
    requires |batch| == |values|
    ensures Triples(batch + [path], values + [value]) == Triples(batch, values) + [path, FILTER, value]
  {
    if batch != [] {
      assert (batch + [path])[1..] == batch[1..] + [path] && (values + [value])[1..] == values[1..] + [value];
      TriplesSnoc(batch[1..], values[1..], path, value);
    }
  }

  /** A clear answer is read back as its triples. */
  lemma ClearIsRead(raw: string, batch: seq<string>, drivers: set<string>) returns (values: seq<string>)
    requires Clear(Some(raw), batch, drivers)
    ensures |values| == |batch|
    ensures NulRecords(raw, 3 * |batch|) == Some(Triples(batch, values)) && |Triples(batch, values)| == 3 * |batch|
    ensures forall value :: value in values ==> value !in drivers
  {
    values :| && |values| == |batch|
              && NulFree(Triples(batch, values))
              && Some(raw) == Some(Encoded(Triples(batch, values)))
              && forall value :: value in values ==> value !in drivers;
    TriplesAt(batch, values, 0);
    NulRecordsExact(raw, 3 * |batch|, Triples(batch, values));
  }

  lemma NotClear(raw: string, batch: seq<string>, drivers: set<string>, records: seq<string>, i: nat)
    requires NulRecords(raw, 3 * |batch|) == Some(records)
    requires |records| == 3 * |batch| ==>
               i < |batch|
               && (records[3 * i] != batch[i] || records[3 * i + 1] != FILTER || records[3 * i + 2] in drivers)
    ensures !Clear(Some(raw), batch, drivers)
  {
    if Clear(Some(raw), batch, drivers) {
      var values := ClearIsRead(raw, batch, drivers);
      TriplesAt(batch, values, i);
      assert false;
    }
  }

  /** Finds an answer good exactly when it is clear. */
  method CheckAnswer(answer: Option<string>, batch: seq<string>, drivers: set<string>) returns (error: Option<GitError>)
    ensures error.None? <==> Clear(answer, batch, drivers)
    ensures error == Some(FilterSelected) ==>
              exists records, i: nat :: i < |batch| && answer.Some?
                && NulRecords(answer.value, 3 * |batch|) == Some(records) && |records| == 3 * |batch|
                && records[3 * i] == batch[i] && records[3 * i + 1] == FILTER && records[3 * i + 2] in drivers
  {
    hide Encoded, NulFree, NulRecords, Triples;
    if answer.None? {
      return Some(Unavailable);
    }
    var read := NulRecords(answer.value, 3 * |batch|);
    if read.None? {
      if Clear(answer, batch, drivers) {
        var _ := ClearIsRead(answer.value, batch, drivers);
        assert false;
      }
      return Some(MetadataLimit);
    }
    var records := read.value;
    if |records| != 3 * |batch| {
      NotClear(answer.value, batch, drivers, records, 0);
      return Some(Incomplete);
    }
    var i := 0;
    ghost var values := [];
    EmptyTriples();
    while i < |batch|
      invariant i <= |batch| && |values| == i
      invariant records[..3 * i] == Triples(batch[..i], values)
      invariant forall value :: value in values ==> value !in drivers
    {
      var path, attribute, value := records[3 * i], records[3 * i + 1], records[3 * i + 2];
      if path != batch[i] || attribute != FILTER {
        NotClear(answer.value, batch, drivers, records, i);
        return Some(Invalid);
      }
      if value in drivers {
        NotClear(answer.value, batch, drivers, records, i);
        return Some(FilterSelected);
      }
      TriplesSnoc(batch[..i], values, path, value);
      assert batch[..i + 1] == batch[..i] + [path];
      assert records[..3 * (i + 1)] == records[..3 * i] + [path, attribute, value];
      values := values + [value];
      i := i + 1;
    }
    assert batch[..i] == batch && records[..3 * i] == records;
    NulRecordsExact(answer.value, 3 * |batch|, records);
    error := None;
  }

  lemma EmptyTriples()
    ensures Triples([], []) == []
  {
  }

  // ---- the inspection ----

  /** Git's answer to the k-th question. */
  type Git = (nat, seq<string>) -> Option<string>

  ghost predicate AllClear(git: Git, batches: seq<seq<string>>, drivers: set<string>) {
    forall k: nat :: k < |batches| ==> Clear(git(k, batches[k]), batches[k], drivers)
  }

  lemma ReverseMore(paths: seq<string>, n: nat)
    requires 0 < n <= |paths|
    ensures Reverse(paths[n - 1..]) == Reverse(paths[n..]) + [paths[n - 1]]
  {
    var path := paths[n - 1];
    ReverseAppend([path], paths[n..]);
    assert paths[n - 1..] == [path] + paths[n..];
    assert Reverse([path]) == [path] + Reverse([]);
  }

  /** The next question: what fits is taken from the end of the remaining paths. */
  method TakeBatch(remaining: seq<string>) returns (paths: seq<string>, batch: seq<string>)
    ensures paths == remaining[..|remaining| - Room(remaining, 0)]
    ensures batch == Reverse(remaining[|paths|..])
    ensures batch == [] <==> remaining == [] || !Fits(remaining[|remaining| - 1])
  {
    paths, batch := remaining, [];
    var size: nat := 0;
    assert remaining[|remaining|..] == [] && Reverse(remaining[|remaining|..]) == [];
    hide Room, Cost, Reverse;
    while paths != [] && size + Cost(paths[|paths| - 1]) <= GIT_MAX_ATTRIBUTE_BATCH_CHARS
      invariant paths == remaining[..|paths|] && |paths| <= |remaining|
      invariant Room(remaining, 0) == |remaining| - |paths| + Room(paths, size)
      invariant batch == Reverse(remaining[|paths|..])
      invariant |batch| == |remaining| - |paths| && (batch == [] ==> size == 0)
      invariant batch != [] ==> Fits(remaining[|remaining| - 1])
      decreases |paths|
    {
      var path := paths[|paths| - 1];
      RoomStep(paths, size);
      ReverseMore(remaining, |paths|);
      paths, batch, size := paths[..|paths| - 1], batch + [path], size + Cost(path);
    }
    if paths != [] {
      RoomStep(paths, size);
    }
  }

  /** Either every path is asked about exactly once, in the batches of `Batches`, and every answer is
      clear, or the inspection refuses. */
  method InspectPaths(all: seq<string>, drivers: set<string>, git: Git)
    returns (error: Option<GitError>, asked: seq<seq<string>>)
    ensures error.None? <==> AllFit(all) && AllClear(git, Batches(all), drivers)
    ensures error.None? ==> asked == Batches(all)
    ensures asked <= Batches(all)
    ensures error.Some? && asked != [] ==> AllClear(git, asked[..|asked| - 1], drivers)
  {
    hide Cost, Room, Reverse, Clear, Fits, Batches, AllFit, AllClear;
    asked := [];
    NothingAsked(git, drivers);
    var paths := all;
    while paths != []
      invariant Batches(all) == asked + Batches(paths)
      invariant AllClear(git, asked, drivers)
      invariant AllFit(all) <==> AllFit(paths)
      decreases |paths|
    {
      ghost var before := paths;
      var batch;
      paths, batch := TakeBatch(paths);
      if batch == [] {
        LastDoesNotFit(before);
        ClearBefore(git, asked, drivers);
        return Some(PathsTooLong), asked;
      }
      NextBatch(before, |paths|);
      var answer := git(|asked|, batch);
      AskedToo(git, asked, batch, Batches(paths), drivers);
      ghost var earlier := asked;
      asked := asked + [batch];
      error := CheckAnswer(answer, batch, drivers);
      if error.Some? {
        assert asked[..|asked| - 1] == earlier;
        return;
      }
    }
    assert asked + [] == asked;
    error := None;
  }

  lemma ClearBefore(git: Git, asked: seq<seq<string>>, drivers: set<string>)
    requires AllClear(git, asked, drivers)
    ensures asked != [] ==> AllClear(git, asked[..|asked| - 1], drivers)
  {
    hide Clear;
  }

  lemma NothingAsked(git: Git, drivers: set<string>)
    ensures Batches([]) == [] && AllFit([]) && AllClear(git, [], drivers)
  {
  }

  lemma LastDoesNotFit(paths: seq<string>)
    requires paths != [] && !Fits(paths[|paths| - 1])
    ensures !AllFit(paths)
  {
    hide Fits;
  }

  lemma AskedToo(git: Git, asked: seq<seq<string>>, batch: seq<string>, rest: seq<seq<string>>, drivers: set<string>)
    requires AllClear(git, asked, drivers)
    ensures asked + ([batch] + rest) == asked + [batch] + rest
    ensures AllClear(git, asked + [batch], drivers) <==> Clear(git(|asked|, batch), batch, drivers)
    ensures AllClear(git, asked + [batch] + rest, drivers) ==> Clear(git(|asked|, batch), batch, drivers)
  {
    hide Clear;
    var k, all, more := |asked|, asked + [batch] + rest, asked + [batch];
    assert all[k] == batch && more[k] == batch;
  }

  lemma NextBatch(paths: seq<string>, n: nat)
    requires n == |paths| - Room(paths, 0) && paths != [] && Fits(paths[|paths| - 1])
    ensures n < |paths| && Batches(paths) == [Reverse(paths[n..])] + Batches(paths[..n])
    ensures AllFit(paths) <==> AllFit(paths[..n])
  {
    hide Room, Cost, Reverse, Batches;
    RoomStep(paths, 0);
    assert n < |paths|;
    hide Fits;
    BatchesStep(paths);
    TakenFit(paths, 0, n);
    RestFits(paths, n);
    hide AllFit;
  }

  lemma RestFits(paths: seq<string>, n: nat)
    requires n <= |paths| && forall i :: n <= i < |paths| ==> Fits(paths[i])
    ensures AllFit(paths) <==> AllFit(paths[..n])
  {
    hide Fits;
    var front := paths[..n];
    assert AllFit(paths) ==> AllFit(front);
    if AllFit(front) {
      forall i | 0 <= i < |paths| ensures Fits(paths[i]) {
        if i < n {
          assert paths[i] == front[i];
        }
      }
    }
  }

  // ---- the options ----

  function Setting(name: string, operation: string, value: string): seq<string> {
    ["-c", DriverKey(name, operation) + "=" + value]
  }

  function OptionsFor(names: seq<string>): seq<string> {
    if names == [] then []
    else
      Setting(names[0], CLEAN, "")
      + (Setting(names[0], PROCESS, "") + (Setting(names[0], REQUIRED, "true") + OptionsFor(names[1..])))
  }

  function OptionChars(options: seq<string>): nat {
    if options == [] then 0 else Utf8Length(options[0]) + 3 + OptionChars(options[1..])
  }

  /** The options are as long as their bytes and three for each. */
  lemma {:induction false} OptionCharsExact(options: seq<string>)
    ensures OptionChars(options) == Utf8Length(Concat(options)) + 3 * |options|
  {
    if options != [] {
      OptionCharsExact(options[1..]);
      Utf8Append(options[0], Concat(options[1..]));
      hide Utf8Length;
    }
  }

  /** How Git reads its command line: `-c key=value` ends the key at the first "=". */
  function CommandLine(options: seq<string>): seq<Entry> {
    if |options| < 2 then []
    else
      var entry := Partition(options[1], '=');
      (if options[0] == "-c" && entry.Some? then [entry.value] else []) + CommandLine(options[2..])
  }

  function Overrides(names: seq<string>): seq<Entry> {
    if names == [] then []
    else
      [Entry(DriverKey(names[0], CLEAN), ""),
       Entry(DriverKey(names[0], PROCESS), ""),
       Entry(DriverKey(names[0], REQUIRED), "true")]
      + Overrides(names[1..])
  }

  lemma SettingIsRead(name: string, operation: string, value: string, rest: seq<string>)
    requires '=' !in name && '=' !in operation
    ensures CommandLine(Setting(name, operation, value) + rest)
            == [Entry(DriverKey(name, operation), value)] + CommandLine(rest)
  {
    var key := DriverKey(name, operation);
    var option := key + "=" + value;
    KeyHasNoEquals(name, operation);
    assert option[|key|] == '=' && forall i :: 0 <= i < |key| ==> option[i] == key[i];
    assert Upto(option, '=') == |key|;
    assert option[..|key|] == key && option[|key| + 1..] == value;
    assert (Setting(name, operation, value) + rest)[2..] == rest;
  }

  lemma KeyHasNoEquals(name: string, operation: string)
    requires '=' !in name && '=' !in operation
    ensures '=' !in DriverKey(name, operation)
  {
    assert '=' !in "filter." && '=' !in ".";
  }

  lemma Regroup3(x: Entry, y: Entry, z: Entry, rest: seq<Entry>)
    ensures [x] + ([y] + ([z] + rest)) == [x, y, z] + rest
  {
  }

  lemma LastOfThree(x: Entry, y: Entry, z: Entry, key: string)
    ensures Last([x, y, z], key)
            == if z.key == key then Some(z.value) else if y.key == key then Some(y.value)
               else if x.key == key then Some(x.value) else None
  {
    LastAppend([x, y], [z], key);
    LastAppend([x], [y], key);
    LastOfOne(x, key);
    LastOfOne(y, key);
    LastOfOne(z, key);
    hide Last;
    assert [x, y, z] == [x, y] + [z] && [x, y] == [x] + [y];
  }

  lemma LastOfOne(x: Entry, key: string)
    ensures Last([x], key) == if x.key == key then Some(x.value) else None
  {
    assert [x][..0] == [];
  }

  /** Git reads the options as the overrides they are meant to be: no name carries an "=". */
  lemma {:induction false} OptionsAreRead(names: seq<string>)
    requires forall name :: name in names ==> '=' !in name
    ensures CommandLine(OptionsFor(names)) == Overrides(names)
  {
    if names != [] {
      var name, rest := names[0], OptionsFor(names[1..]);
      OptionsAreRead(names[1..]);
      var a, b, c := Setting(name, CLEAN, ""), Setting(name, PROCESS, ""), Setting(name, REQUIRED, "true");
      SettingIsRead(name, REQUIRED, "true", rest);
      SettingIsRead(name, PROCESS, "", c + rest);
      SettingIsRead(name, CLEAN, "", b + (c + rest));
      hide CommandLine, Setting;
      Regroup3(Entry(DriverKey(name, CLEAN), ""), Entry(DriverKey(name, PROCESS), ""),
               Entry(DriverKey(name, REQUIRED), "true"), Overrides(names[1..]));
    }
  }

  lemma {:induction false} LastAppend(config: seq<Entry>, more: seq<Entry>, key: string)
    ensures Last(config + more, key) == if Last(more, key).Some? then Last(more, key) else Last(config, key)
  {
    if more == [] {
      assert config + more == config;
    } else {
      assert (config + more)[..|config + more| - 1] == config + more[..|more| - 1];
      LastAppend(config, more[..|more| - 1], key);
    }
  }

  function Override(operation: string): string {
    if operation == REQUIRED then "true" else ""
  }

  lemma {:induction false} OverridesLast(names: seq<string>, name: string, operation: string)
    requires operation in {CLEAN, PROCESS, REQUIRED}
    ensures Last(Overrides(names), DriverKey(name, operation))
            == if name in names then Some(Override(operation)) else None
  {
    if names != [] {
      var first, rest := names[0], Overrides(names[1..]);
      OverridesLast(names[1..], name, operation);
      var three := [Entry(DriverKey(first, CLEAN), ""), Entry(DriverKey(first, PROCESS), ""),
                    Entry(DriverKey(first, REQUIRED), "true")];
      LastAppend(three, rest, DriverKey(name, operation));
      LastOfThree(three[0], three[1], three[2], DriverKey(name, operation));
      DriverKeyInjective(first, CLEAN, name, operation);
      DriverKeyInjective(first, PROCESS, name, operation);
      DriverKeyInjective(first, REQUIRED, name, operation);
      hide DriverKey, Last;
    }
  }

  /** With the options on its command line Git runs no command for a driver the inspection knew,
      whatever its configuration says by then, and requires each of them; other drivers are as
      configured. */
  lemma Neutralised(drivers: set<string>, config: seq<Entry>, name: string)
    requires forall driver :: driver in drivers ==> '=' !in driver
    ensures var options := CommandLine(OptionsFor(Order.Sorted(drivers)));
            && Command(config + options, name) == (if name in drivers then "" else Command(config, name))
            && (name in drivers ==> Last(config + options, DriverKey(name, REQUIRED)) == Some("true"))
  {
    var names := Order.Sorted(drivers);
    OptionsAreRead(names);
    forall operation | operation in {CLEAN, PROCESS, REQUIRED}
      ensures Last(config + Overrides(names), DriverKey(name, operation))
              == if name in drivers then Some(Override(operation)) else Last(config, DriverKey(name, operation))
    {
      LastAppend(config, Overrides(names), DriverKey(name, operation));
      OverridesLast(names, name, operation);
    }
    hide Last, Overrides, OptionsFor, CommandLine, DriverKey;
  }

  lemma DriversAreSafe(raw: string)
    requires Configuration(raw).Some?
    ensures forall driver :: driver in Drivers(Configuration(raw).value) ==> '=' !in driver
  {
    hide NulRecords;
    EntriesAreReadable(NulRecords(raw, GIT_MAX_FILTER_CONFIG_ENTRIES).value);
  }

  lemma {:induction false} EntriesAreReadable(records: seq<string>)
    requires Entries(records).Some?
    ensures forall entry :: entry in Entries(records).value ==> Readable(entry)
  {
    hide Readable, Partition;
    if records != [] {
      EntriesAreReadable(records[..|records| - 1]);
    }
  }

  method BuildOptions(drivers: set<string>) returns (r: Result<seq<string>, GitError>)
    ensures var options := OptionsFor(Order.Sorted(drivers));
            r == if OptionChars(options) > GIT_MAX_FILTER_OPTION_CHARS then Err(OptionsTooLong) else Ok(options)
  {
    hide Order.Sorted, Setting, OptionChars;
    var names, options := Order.Sorted(drivers), [];
    var i := 0;
    while i < |names|
      invariant i <= |names|
      invariant OptionsFor(names) == options + OptionsFor(names[i..])
    {
      var a, b, c := Setting(names[i], CLEAN, ""), Setting(names[i], PROCESS, ""), Setting(names[i], REQUIRED, "true");
      OptionsOnward(names, i, options, a, b, c);
      options := options + a + b + c;
      i := i + 1;
    }
    assert options + [] == options;
    r := if OptionChars(options) > GIT_MAX_FILTER_OPTION_CHARS then Err(OptionsTooLong) else Ok(options);
  }

  lemma OptionsOnward(names: seq<string>, i: nat, options: seq<string>, a: seq<string>, b: seq<string>, c: seq<string>)
    requires i < |names|
    requires a == Setting(names[i], CLEAN, "") && b == Setting(names[i], PROCESS, "")
    requires c == Setting(names[i], REQUIRED, "true")
    ensures options + OptionsFor(names[i..]) == options + a + b + c + OptionsFor(names[i + 1..])
  {
    var rest := OptionsFor(names[i + 1..]);
    assert names[i..][1..] == names[i + 1..];
    assert OptionsFor(names[i..]) == a + (b + (c + rest));
    hide *;
    assert options + (a + (b + (c + rest))) == options + a + b + c + rest;
  }

  /** Which paths the command will touch: all tracked ones, none in the working tree (it compares stored
      objects), or those of a path specification, listed again. */
  datatype Scope = Everything | Staged | Narrowed(listing: Result<seq<string>, GitError>)

  /** The paths to ask about, or a refusal of their listing. */
  function Selected(tracked: seq<string>, scope: Scope): Result<seq<string>, GitError> {
    match scope
    case Everything => Ok(tracked)
    case Staged => Ok([])
    case Narrowed(listing) => listing
  }

  /** When the preflight accepts. `configured` is Git's configuration output if it is complete, `tracked`
      the outcome of listing the index and the head commit. */
  ghost predicate Accepts(configured: Option<string>, tracked: Result<seq<string>, GitError>, scope: Scope, git: Git) {
    && configured.Some?
    && Configuration(configured.value).Some?
    && tracked.Ok?
    && var drivers := Drivers(Configuration(configured.value).value);
       drivers == {} ||
       (&& Selected(tracked.value, scope).Ok?
        && AllFit(Selected(tracked.value, scope).value)
        && AllClear(git, Batches(Selected(tracked.value, scope).value), drivers)
        && OptionChars(OptionsFor(Order.Sorted(drivers))) <= GIT_MAX_FILTER_OPTION_CHARS)
  }

  /** `_filter_safety_options`: the options for the command, or a refusal. Without an executable driver
      nothing is asked. With the options no driver is executable in the configuration inspected, and none
      of those found executable in any later one. */
  method FilterSafetyOptions(configured: Option<string>, tracked: Result<seq<string>, GitError>, scope: Scope, git: Git)
    returns (r: Result<seq<string>, GitError>, asked: seq<seq<string>>)
    ensures r.Ok? <==> Accepts(configured, tracked, scope, git)
    ensures r.Ok? ==>
              var config := Configuration(configured.value).value;
              var drivers := Drivers(config);
              && asked == (if drivers == {} then [] else Batches(Selected(tracked.value, scope).value))
              && (forall name :: !Executable(config + CommandLine(r.value), name))
              && (forall later: seq<Entry>, name :: name in drivers ==>
                    Command(later + CommandLine(r.value), name) == ""
                    && Last(later + CommandLine(r.value), DriverKey(name, REQUIRED)) == Some("true"))
  {
    hide Configuration, Batches, AllFit, AllClear, OptionChars, OptionsFor, Order.Sorted, Drivers, CommandLine, Command, Last;
    asked := [];
    if configured.None? {
      return Err(Unavailable), asked;
    }
    var found := ExecutableFilterDrivers(configured.value);
    if found.Err? {
      return Err(found.error), asked;
    }
    if tracked.Err? {
      return Err(tracked.error), asked;
    }
    var drivers := found.value;
    ghost var config := Configuration(configured.value).value;
    DriversAreSafe(configured.value);
    if drivers == {} {
      r := Ok([]);
      NoOverrides();
    } else {
      var paths := Selected(tracked.value, scope);
      if paths.Err? {
        return Err(paths.error), asked;
      }
      var error;
      error, asked := InspectPaths(paths.value, drivers, git);
      if error.Some? {
        return Err(error.value), asked;
      }
      r := BuildOptions(drivers);
    }
    if r.Ok? {
      NothingExecutable(config, drivers, r.value);
      forall later: seq<Entry>, name | name in drivers
        ensures Command(later + CommandLine(r.value), name) == ""
        ensures Last(later + CommandLine(r.value), DriverKey(name, REQUIRED)) == Some("true")
      {
        Neutralised(drivers, later, name);
      }
    }
  }

  lemma NoOverrides()
    ensures OptionsFor(Order.Sorted({})) == []
  {
  }

  lemma NothingExecutable(config: seq<Entry>, drivers: set<string>, options: seq<string>)
    requires drivers == Drivers(config) && options == OptionsFor(Order.Sorted(drivers))
    requires forall driver :: driver in drivers ==> '=' !in driver
    ensures forall name :: !Executable(config + CommandLine(options), name)
  {
    hide Drivers, CommandLine, OptionsFor, Order.Sorted, Command;
    forall name ensures !Executable(config + CommandLine(options), name) {
      DriversExact(config, name);
      Neutralised(drivers, config, name);
    }
  }
}
