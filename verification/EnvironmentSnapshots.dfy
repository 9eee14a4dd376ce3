/** Building an environment snapshot, and reading one back from an approval request. */
module EnvironmentSnapshots {
  import opened Results
  import opened ExecutionEnvironment

  datatype Snapshot = Snapshot(policyVersion: int, platform: string, variables: seq<Item>, sha256: string)

  function Strings(items: seq<Item>): Mapping {
    seq(|items|, i requires 0 <= i < |items| => (Text(items[i].name), Text(items[i].value)))
  }

  /** The snapshot of these items: in canonical order, with the digest of what it says. */
  function SnapshotOf(items: seq<Item>, h: Host, p: Platform): Snapshot {
    var variables := Canonical(items, h, p);
    Snapshot(EXECUTION_ENVIRONMENT_POLICY_VERSION, PlatformName(p), variables,
             h.sha256(EXECUTION_ENVIRONMENT_POLICY_VERSION, PlatformName(p), variables))
  }

  // ---- building ----

  function ParentError(m: Mapping, seen: set<string>, h: Host, p: Platform): Option<EnvError> {
    if m == [] then None
    else if !m[0].0.Text? || !m[0].1.Text? then Some(NotText)
    else if h.Key(m[0].0.s, p) in seen then Some(Duplicate)
    else ParentError(m[1..], seen + {h.Key(m[0].0.s, p)}, h, p)
  }

  ghost predicate Unambiguous(m: Mapping, seen: set<string>, h: Host, p: Platform) {
    AllText(m) && Keys(Items(m), h, p) !! seen && Distinct(Items(m), h, p)
  }

  lemma {:induction false} ParentErrorExact(m: Mapping, seen: set<string>, h: Host, p: Platform)
    ensures ParentError(m, seen, h, p).None? <==> Unambiguous(m, seen, h, p)
  {
    if m != [] && m[0].0.Text? && m[0].1.Text? {
      var key := h.Key(m[0].0.s, p);
      ParentErrorExact(m[1..], seen + {key}, h, p);
      TextCons(m);
      if AllText(m) {
        var first, rest := Item(m[0].0.s, m[0].1.s), Items(m[1..]);
        DistinctCons(first, rest, h, p);
        KeysCons(first, rest, h, p);
        assert key in Keys(rest, h, p) <==> exists i :: 0 <= i < |rest| && h.Key(rest[i].name, p) == key;
        hide Distinct, Keys, Items, AllText;
      }
    }
  }

  lemma TextCons(m: Mapping)
    requires m != [] && m[0].0.Text? && m[0].1.Text?
    ensures AllText(m) <==> AllText(m[1..])
    ensures AllText(m) ==> Items(m) == [Item(m[0].0.s, m[0].1.s)] + Items(m[1..])
  {
    assert forall i :: 1 <= i < |m| ==> m[i] == m[1..][i - 1];
  }

  /** The parent's value of the variable with this key. */
  function Found(items: seq<Item>, key: string, h: Host, p: Platform): Option<string> {
    if items == [] then None
    else if h.Key(items[0].name, p) == key then Some(items[0].value)
    else Found(items[1..], key, h, p)
  }

  predicate Inherits(items: seq<Item>, i: nat, h: Host)
    requires i < |INHERITED|
  {
    var value := Found(items, INHERITED[i].value, h, Windows);
    value.Some? && h.ValidWindowsPath(value.value)
  }

  /** What the first `n` inherited names contribute. */
  function Inherited(items: seq<Item>, n: nat, h: Host): seq<Item>
    requires n <= |INHERITED|
  {
    if n == 0 then []
    else
      Inherited(items, n - 1, h)
      + if Inherits(items, n - 1, h)
        then [Item(INHERITED[n - 1].name, Found(items, INHERITED[n - 1].value, h, Windows).value)] else []
  }

  function Baseline(items: seq<Item>, h: Host, p: Platform): seq<Item> {
    if p.Windows? then Inherited(items, |INHERITED|, h) else []
  }

  function Extra(additional: Option<Mapping>, h: Host, p: Platform): Result<seq<Item>, EnvError> {
    match additional
    case None => Ok([])
    case Some(m) => Validated(m, h, p)
  }

  function Seal(selected: seq<Item>, h: Host, p: Platform): Result<Snapshot, EnvError> {
    var items := Validated(Strings(selected), h, p);
    if items.Err? then Err(items.error) else Ok(SnapshotOf(items.value, h, p))
  }

  function Build(parent: Mapping, additional: Option<Mapping>, h: Host, p: Platform): Result<Snapshot, EnvError> {
    var e := ParentError(parent, {}, h, p);
    if e.Some? then Err(e.value)
    else
      assert AllText(parent) by { ParentErrorExact(parent, {}, h, p); }
      var inherited, extra := Baseline(Items(parent), h, p), Extra(additional, h, p);
      if extra.Err? then Err(extra.error)
      else if Keys(extra.value, h, p) !! Keys(inherited, h, p) then Seal(inherited + extra.value, h, p)
      else Err(Duplicate)
  }

  ghost predicate Indexes(lookup: map<string, Item>, items: seq<Item>, h: Host, p: Platform) {
    forall key :: Found(items, key, h, p) == if key in lookup then Some(lookup[key].value) else None
  }

  /** Indexes the parent by key. */
  method ParentLookup(m: Mapping, h: Host, p: Platform) returns (r: Result<map<string, Item>, EnvError>)
    ensures r.Err? <==> ParentError(m, {}, h, p).Some?
    ensures r.Err? ==> r.error == ParentError(m, {}, h, p).value
    ensures r.Ok? ==> AllText(m) && Indexes(r.value, Items(m), h, p)
  {
    hide Indexes;
    var lookup: map<string, Item> := map[];
    var i := 0;
    ghost var seen: set<string>, items: seq<Item> := {}, [];
    IndexesNone(h, p);
    while i < |m|
      invariant i <= |m| && seen == lookup.Keys
      invariant ParentError(m, {}, h, p) == ParentError(m[i..], seen, h, p)
      invariant AllText(m[..i]) && items == Items(m[..i])
      invariant Indexes(lookup, items, h, p)
    {
      var (key, value) := m[i];
      if !key.Text? || !value.Text? {
        return Err(NotText);
      }
      var normalized := h.Key(key.s, p);
      if normalized in lookup {
        return Err(Duplicate);
      }
      assert m[i..][1..] == m[i + 1..] && m[..i + 1] == m[..i] + [m[i]];
      IndexesSnoc(lookup, items, Item(key.s, value.s), h, p);
      lookup := lookup[normalized := Item(key.s, value.s)];
      seen := seen + {normalized};
      items := items + [Item(key.s, value.s)];
      i := i + 1;
    }
    assert m[..i] == m && m[i..] == [];
    r := Ok(lookup);
  }

  lemma IndexesNone(h: Host, p: Platform)
    ensures Indexes(map[], [], h, p)
  {
  }

  lemma IndexesSnoc(lookup: map<string, Item>, items: seq<Item>, item: Item, h: Host, p: Platform)
    requires Indexes(lookup, items, h, p) && h.Key(item.name, p) !in lookup
    ensures Indexes(lookup[h.Key(item.name, p) := item], items + [item], h, p)
  {
    FoundSnoc(items, item, h, p);
    hide Found;
  }

  lemma {:induction false} FoundSnoc(items: seq<Item>, item: Item, h: Host, p: Platform)
    ensures forall key :: Found(items + [item], key, h, p)
              == if Found(items, key, h, p).Some? then Found(items, key, h, p)
                 else if h.Key(item.name, p) == key then Some(item.value) else None
  {
    if items != [] {
      FoundSnoc(items[1..], item, h, p);
      assert (items + [item])[1..] == items[1..] + [item];
    }
  }

  method BuildExecutionEnvironment(parent: Mapping, additional: Option<Mapping>, h: Host, p: Platform)
    returns (r: Result<Snapshot, EnvError>)
    ensures r == Build(parent, additional, h, p)
  {
    hide ParentError, Found, Validated, Canonical, Distinct, Keys;
    var indexed := ParentLookup(parent, h, p);
    if indexed.Err? {
      return Err(indexed.error);
    }
    ghost var known := Items(parent);
    var lookup, selected := indexed.value, [];
    if p.Windows? {
      var i := 0;
      while i < |INHERITED|
        invariant i <= |INHERITED|
        invariant selected == Inherited(known, i, h)
      {
        var entry := INHERITED[i];
        assert Found(known, entry.value, h, p) == if entry.value in lookup then Some(lookup[entry.value].value) else None;
        if entry.value in lookup && h.ValidWindowsPath(lookup[entry.value].value) {
          selected := selected + [Item(entry.name, lookup[entry.value].value)];
        }
        i := i + 1;
      }
    }
    ghost var inherited := selected;
    assert inherited == Baseline(known, h, p);
    if additional.Some? {
      var extra := ValidatedItems(additional.value, h, p);
      if extra.Err? {
        return Err(extra.error);
      }
      var i := 0;
      ValidatedDistinct(additional.value, h, p);
      NoKeys(h, p);
      assert inherited + [] == inherited;
      while i < |extra.value|
        invariant i <= |extra.value|
        invariant selected == inherited + extra.value[..i]
        invariant Keys(extra.value[..i], h, p) !! Keys(inherited, h, p)
      {
        var item := extra.value[i];
        assert extra.value[..i + 1] == extra.value[..i] + [item];
        KeysSnoc(extra.value[..i], item, h, p);
        KeysJoin(inherited, extra.value[..i], h, p);
        NewKey(extra.value, i, h, p);
        if h.Key(item.name, p) in Keys(selected, h, p) {
          KeysOfFront(extra.value, i + 1, h, p);
          return Err(Duplicate);
        }
        selected := selected + [item];
        i := i + 1;
      }
      assert extra.value[..i] == extra.value;
    } else {
      NoKeys(h, p);
      assert inherited + [] == inherited;
    }
    var items := ValidatedItems(Strings(selected), h, p);
    r := if items.Err? then Err(items.error) else Ok(SnapshotOf(items.value, h, p));
  }

  lemma ValidatedDistinct(m: Mapping, h: Host, p: Platform)
    ensures Validated(m, h, p).Ok? ==> Distinct(Validated(m, h, p).value, h, p)
  {
    ValidatedExact(m, h, p);
  }

  lemma NoKeys(h: Host, p: Platform)
    ensures Keys([], h, p) == {}
  {
  }

  lemma KeysJoin(a: seq<Item>, b: seq<Item>, h: Host, p: Platform)
    ensures Keys(a + b, h, p) == Keys(a, h, p) + Keys(b, h, p)
  {
    assert forall i :: 0 <= i < |a| ==> (a + b)[i] == a[i];
    assert forall i :: 0 <= i < |b| ==> (a + b)[|a| + i] == b[i];
  }

  lemma KeysSnoc(items: seq<Item>, item: Item, h: Host, p: Platform)
    ensures Keys(items + [item], h, p) == Keys(items, h, p) + {h.Key(item.name, p)}
  {
    KeysJoin(items, [item], h, p);
    KeysCons(item, [], h, p);
    NoKeys(h, p);
    assert [item] + [] == [item];
  }

  lemma KeysOfFront(items: seq<Item>, n: nat, h: Host, p: Platform)
    requires n <= |items|
    ensures Keys(items[..n], h, p) <= Keys(items, h, p)
  {
  }

  lemma NewKey(items: seq<Item>, i: nat, h: Host, p: Platform)
    requires i < |items| && Distinct(items, h, p)
    ensures h.Key(items[i].name, p) !in Keys(items[..i], h, p)
  {
  }

  // ---- what a snapshot holds ----

  lemma AcceptableStrings(items: seq<Item>)
    ensures AllText(Strings(items)) && Items(Strings(items)) == items
  {
  }

  /** A snapshot holds the inherited and the additional variables and nothing else, in strict order
      of their keys, and its digest is that of what it holds. */
  lemma BuildMeans(parent: Mapping, additional: Option<Mapping>, h: Host, p: Platform)
    requires Build(parent, additional, h, p).Ok?
    ensures var s := Build(parent, additional, h, p).value;
            && AllText(parent) && Extra(additional, h, p).Ok?
            && multiset(s.variables) == multiset(Baseline(Items(parent), h, p)) + multiset(Extra(additional, h, p).value)
            && Ascending(s.variables, h, p) && Distinct(s.variables, h, p)
            && s == SnapshotOf(s.variables, h, p)
            && Acceptable(Strings(s.variables), h, p)
  {
    ParentErrorExact(parent, {}, h, p);
    var selected := Baseline(Items(parent), h, p) + Extra(additional, h, p).value;
    SealMeans(selected, h, p);
  }

  lemma SealMeans(selected: seq<Item>, h: Host, p: Platform)
    requires Seal(selected, h, p).Ok?
    ensures var s := Seal(selected, h, p).value;
            && multiset(s.variables) == multiset(selected)
            && Ascending(s.variables, h, p) && Distinct(s.variables, h, p)
            && s == SnapshotOf(s.variables, h, p)
            && Acceptable(Strings(s.variables), h, p)
  {
    var sorted := Canonical(selected, h, p);
    AcceptableStrings(selected);
    ValidatedExact(Strings(selected), h, p);
    CanonicalPermutes(selected, h, p);
    CanonicalAscends(selected, h, p);
    SameKeys(selected, sorted, h, p);
    CanonicalIsOne(selected, sorted, h, p);
    SameStrings(selected, sorted, h, p);
  }

  /** Acceptance does not depend on the order of a mapping. */
  lemma SameStrings(a: seq<Item>, b: seq<Item>, h: Host, p: Platform)
    requires multiset(a) == multiset(b)
    ensures Acceptable(Strings(a), h, p) ==> Acceptable(Strings(b), h, p)
  {
    hide EntryOk, Distinct;
    SameKeys(a, b, h, p);
    AcceptableStrings(a);
    AcceptableStrings(b);
    if Acceptable(Strings(a), h, p) {
      forall i | 0 <= i < |b| ensures EntryOk(Strings(b)[i].0, Strings(b)[i].1, h) {
        assert b[i] in multiset(a);
        var j :| 0 <= j < |a| && a[j] == b[i];
        assert Strings(a)[j] == Strings(b)[i];
      }
    }
  }

  // ---- reading back ----

  const FIELDS: set<Value> := {Text("policy_version"), Text("platform"), Text("variables"), Text("sha256")}

  /** `dict.get(name)`, where `Other` stands for a missing entry. */
  function Field(m: Mapping, name: string): Value {
    if m == [] then Other else if m[0].0 == Text(name) then m[0].1 else Field(m[1..], name)
  }

  /** `to_payload`, with the variables listed in any order. */
  function Payload(s: Snapshot, variables: Mapping): Value {
    Dict([(Text("policy_version"), Int(s.policyVersion)), (Text("platform"), Text(s.platform)),
          (Text("variables"), Dict(variables)), (Text("sha256"), Text(s.sha256))])
  }

  function ToPayload(s: Snapshot): Value {
    Payload(s, Strings(s.variables))
  }

  predicate AllowedName(name: string, p: Platform) {
    p.Windows? && exists i :: 0 <= i < |INHERITED| && INHERITED[i].name == name
  }

  /** The first variable that approved execution may not carry. */
  function NotInherited(items: seq<Item>, h: Host, p: Platform): Option<EnvError> {
    if items == [] then None
    else if !AllowedName(items[0].name, p) then Some(NotAllowed)
    else if p.Windows? && !h.ValidWindowsPath(items[0].value) then Some(BadPath)
    else NotInherited(items[1..], h, p)
  }

  predicate WellFormed(m: Mapping, p: Platform) {
    && Field(m, "policy_version") == Int(EXECUTION_ENVIRONMENT_POLICY_VERSION)
    && Field(m, "platform") == Text(PlatformName(p))
    && Field(m, "variables").Dict?
    && Field(m, "sha256").Text? && IsDigest(Field(m, "sha256").s)
  }

  function Parse(payload: Value, h: Host, p: Platform): Result<Snapshot, EnvError> {
    if !payload.Dict? then Err(NoSnapshot)
    else
      var m := payload.items;
      if (set i | 0 <= i < |m| :: m[i].0) != FIELDS || !WellFormed(m, p) then Err(Malformed)
      else
        var read := Validated(Field(m, "variables").items, h, p);
        if read.Err? then Err(read.error)
        else
          var refused := NotInherited(read.value, h, p);
          if refused.Some? then Err(refused.value)
          else
            var s := SnapshotOf(read.value, h, p);
            if s.sha256 == Field(m, "sha256").s then Ok(s) else Err(DigestMismatch)
  }

  predicate MayCarry(x: Item, h: Host, p: Platform) {
    AllowedName(x.name, p) && h.ValidWindowsPath(x.value)
  }

  lemma {:induction false} NotInheritedExact(items: seq<Item>, h: Host, p: Platform)
    ensures NotInherited(items, h, p).None? <==> forall x :: x in items ==> MayCarry(x, h, p)
  {
    if items != [] {
      NotInheritedExact(items[1..], h, p);
      hide AllowedName;
      assert items == [items[0]] + items[1..];
      assert items[0] in items;
    }
  }

  /** Reading a snapshot's payload: what becomes of its fields. */
  lemma PayloadParses(s: Snapshot, variables: Mapping, h: Host, p: Platform)
    requires s.policyVersion == EXECUTION_ENVIRONMENT_POLICY_VERSION && s.platform == PlatformName(p)
    requires IsDigest(s.sha256)
    ensures var read := Validated(variables, h, p);
            read.Ok? && NotInherited(read.value, h, p).None? && SnapshotOf(read.value, h, p) == s ==>
              Parse(Payload(s, variables), h, p) == Ok(s)
    ensures var read := Validated(variables, h, p);
            read.Ok? && NotInherited(read.value, h, p).Some? ==> Parse(Payload(s, variables), h, p).Err?
  {
    var m := Payload(s, variables).items;
    FieldsOf(m, m[0].1, m[1].1, m[2].1, m[3].1);
    hide Validated, NotInherited, SnapshotOf, IsDigest, Field;
  }

  lemma FieldsOf(m: Mapping, version: Value, platform: Value, variables: Value, sha256: Value)
    requires m == [(Text("policy_version"), version), (Text("platform"), platform),
                   (Text("variables"), variables), (Text("sha256"), sha256)]
    ensures (set i | 0 <= i < |m| :: m[i].0) == FIELDS
    ensures Field(m, "policy_version") == version && Field(m, "platform") == platform
    ensures Field(m, "variables") == variables && Field(m, "sha256") == sha256
  {
    FieldAt(m, 0, "policy_version");
    FieldAt(m, 1, "platform");
    FieldAt(m, 2, "variables");
    FieldAt(m, 3, "sha256");
    hide Field;
    var keys := set i | 0 <= i < |m| :: m[i].0;
    assert m[0].0 in keys && m[1].0 in keys && m[2].0 in keys && m[3].0 in keys;
  }

  lemma {:induction false} FieldAt(m: Mapping, i: nat, name: string)
    requires i < |m| && m[i].0 == Text(name) && forall j :: 0 <= j < i ==> m[j].0 != Text(name)
    ensures Field(m, name) == m[i].1
  {
    if i > 0 {
      FieldAt(m[1..], i - 1, name);
    }
  }

  // ---- mappings in another order ----

  lemma {:induction false} CountItems(m: Mapping, x: Item)
    requires AllText(m)
    ensures multiset(Items(m))[x] == multiset(m)[(Text(x.name), Text(x.value))]
  {
    if m != [] {
      CountItems(m[1..], x);
      TextCons(m);
      hide Items, AllText;
      assert m == [m[0]] + m[1..];
      assert m[0] == (Text(m[0].0.s), Text(m[0].1.s));
    }
  }

  lemma SameItems(a: Mapping, b: Mapping)
    requires multiset(a) == multiset(b)
    ensures |a| == |b| && (AllText(a) <==> AllText(b))
    ensures AllText(a) ==> multiset(Items(a)) == multiset(Items(b))
  {
    assert |multiset(a)| == |a| && |multiset(b)| == |b|;
    if AllText(b) {
      TextOfPart(a, b);
    }
    if AllText(a) {
      TextOfPart(b, a);
      forall x ensures multiset(Items(a))[x] == multiset(Items(b))[x] {
        CountItems(a, x);
        CountItems(b, x);
      }
    }
  }

  lemma TextOfPart(a: Mapping, b: Mapping)
    requires multiset(a) == multiset(b) && AllText(b)
    ensures AllText(a)
  {
    forall i | 0 <= i < |a| ensures a[i].0.Text? && a[i].1.Text? {
      assert a[i] in multiset(b);
    }
  }

  lemma StringsOfItems(m: Mapping)
    requires AllText(m)
    ensures Strings(Items(m)) == m
  {
  }

  /** Validation does not depend on the order of a mapping. */
  lemma SameValidated(a: Mapping, b: Mapping, h: Host, p: Platform)
    requires multiset(a) == multiset(b)
    ensures Validated(a, h, p).Ok? ==>
              Validated(b, h, p).Ok?
              && multiset(Validated(a, h, p).value) == multiset(Validated(b, h, p).value)
              && Distinct(Validated(a, h, p).value, h, p)
  {
    ValidatedExact(a, h, p);
    ValidatedExact(b, h, p);
    if Validated(a, h, p).Ok? {
      SameItems(a, b);
      StringsOfItems(a);
      StringsOfItems(b);
      SameStrings(Items(a), Items(b), h, p);
    }
  }

  lemma {:induction false} FoundExact(items: seq<Item>, key: string, h: Host, p: Platform)
    requires Distinct(items, h, p)
    ensures Found(items, key, h, p).None? <==> key !in Keys(items, h, p)
    ensures forall x :: x in items && h.Key(x.name, p) == key ==> Found(items, key, h, p) == Some(x.value)
  {
    if items != [] {
      var first, rest := items[0], items[1..];
      assert items == [first] + rest;
      DistinctCons(first, rest, h, p);
      KeysCons(first, rest, h, p);
      FoundExact(rest, key, h, p);
      assert forall x :: x in rest ==> h.Key(x.name, p) != h.Key(first.name, p);
      hide Distinct, Keys;
    }
  }

  lemma SameFound(a: seq<Item>, b: seq<Item>, key: string, h: Host, p: Platform)
    requires multiset(a) == multiset(b) && Distinct(a, h, p)
    ensures Found(a, key, h, p) == Found(b, key, h, p)
  {
    SameKeys(a, b, h, p);
    FoundExact(a, key, h, p);
    FoundExact(b, key, h, p);
    hide Distinct, Found;
    if key in Keys(a, h, p) {
      var i :| 0 <= i < |a| && h.Key(a[i].name, p) == key;
      assert a[i] in multiset(b);
    }
  }

  lemma {:induction false} SameInherited(a: seq<Item>, b: seq<Item>, n: nat, h: Host)
    requires multiset(a) == multiset(b) && Distinct(a, h, Windows) && n <= |INHERITED|
    ensures Inherited(a, n, h) == Inherited(b, n, h)
  {
    if n > 0 {
      SameInherited(a, b, n - 1, h);
      SameFound(a, b, INHERITED[n - 1].value, h, Windows);
    }
  }

  lemma SameSeal(a: seq<Item>, b: seq<Item>, h: Host, p: Platform)
    requires multiset(a) == multiset(b) && Seal(a, h, p).Ok?
    ensures Seal(b, h, p) == Seal(a, h, p)
  {
    ValidatedExact(Strings(a), h, p);
    ValidatedExact(Strings(b), h, p);
    SameStrings(a, b, h, p);
    AcceptableStrings(a);
    AcceptableStrings(b);
    CanonicalIsOne(a, b, h, p);
  }

  ghost predicate SameOption(a: Option<Mapping>, b: Option<Mapping>) {
    if a.Some? && b.Some? then multiset(a.value) == multiset(b.value) else a == b
  }

  /** A snapshot, its digest included, does not depend on the order in which a mapping lists its
      variables. */
  lemma OrderIndependent(
    parent: Mapping, parent': Mapping, additional: Option<Mapping>, additional': Option<Mapping>, h: Host, p: Platform)
    requires multiset(parent) == multiset(parent') && SameOption(additional, additional')
    ensures Build(parent, additional, h, p).Ok? ==>
              Build(parent', additional', h, p) == Build(parent, additional, h, p)
    ensures Build(parent', additional', h, p).Ok? ==>
              Build(parent, additional, h, p) == Build(parent', additional', h, p)
  {
    if Build(parent, additional, h, p).Ok? {
      OrderIndependentOneWay(parent, parent', additional, additional', h, p);
    }
    if Build(parent', additional', h, p).Ok? {
      OrderIndependentOneWay(parent', parent, additional', additional, h, p);
    }
  }

  lemma OrderIndependentOneWay(
    parent: Mapping, parent': Mapping, additional: Option<Mapping>, additional': Option<Mapping>, h: Host, p: Platform)
    requires multiset(parent) == multiset(parent') && SameOption(additional, additional')
    requires Build(parent, additional, h, p).Ok?
    ensures Build(parent', additional', h, p) == Build(parent, additional, h, p)
  {
    ParentErrorExact(parent, {}, h, p);
    ParentErrorExact(parent', {}, h, p);
    SameItems(parent, parent');
    SameKeys(Items(parent), Items(parent'), h, p);
    if p.Windows? {
      SameInherited(Items(parent), Items(parent'), |INHERITED|, h);
    }
    if additional.Some? {
      SameValidated(additional.value, additional'.value, h, p);
    }
    hide Validated, Seal, ParentError, Keys, Distinct, Inherited;
    var inherited := Baseline(Items(parent), h, p);
    var extra, extra' := Extra(additional, h, p).value, Extra(additional', h, p).value;
    SameKeys(extra, extra', h, p);
    SameSeal(inherited + extra, inherited + extra', h, p);
  }

  // ---- round trip ----

  lemma {:induction false} InheritedMayBeCarried(items: seq<Item>, n: nat, h: Host)
    requires n <= |INHERITED|
    ensures forall x :: x in Inherited(items, n, h) ==> MayCarry(x, h, Windows)
  {
    if n > 0 {
      InheritedMayBeCarried(items, n - 1, h);
    }
  }

  /** Reading back what was built, its variables listed in any order, gives the same snapshot exactly
      when every variable is one that approved execution may carry; without additional variables
      that is always so. */
  lemma RoundTrip(
    parent: Mapping, additional: Option<Mapping>, variables: Mapping, h: Host, p: Platform)
    requires h.Lawful() && Build(parent, additional, h, p).Ok?
    requires multiset(variables) == multiset(Strings(Build(parent, additional, h, p).value.variables))
    ensures var s := Build(parent, additional, h, p).value;
            && (Parse(Payload(s, variables), h, p) == Ok(s) <==> forall x :: x in s.variables ==> MayCarry(x, h, p))
            && (additional.None? ==> Parse(Payload(s, variables), h, p) == Ok(s))
  {
    BuildMeans(parent, additional, h, p);
    var s := Build(parent, additional, h, p).value;
    ReadBack(s, variables, h, p);
    if additional.None? {
      var inherited := Baseline(Items(parent), h, p);
      if p.Windows? {
        InheritedMayBeCarried(Items(parent), |INHERITED|, h);
      }
      hide Build, MayCarry, Inherited;
      forall x | x in s.variables ensures MayCarry(x, h, p) {
        assert x in multiset(s.variables);
        assert x in multiset(inherited);
      }
    }
  }

  lemma ReadBack(s: Snapshot, variables: Mapping, h: Host, p: Platform)
    requires h.Lawful() && s == SnapshotOf(s.variables, h, p)
    requires Acceptable(Strings(s.variables), h, p) && multiset(variables) == multiset(Strings(s.variables))
    ensures Parse(Payload(s, variables), h, p) == Ok(s) <==> forall x :: x in s.variables ==> MayCarry(x, h, p)
  {
    hide Canonical, MayCarry, Parse, Distinct, Validated, Strings, Acceptable, NotInherited;
    ValidatedExact(Strings(s.variables), h, p);
    AcceptableStrings(s.variables);
    SameValidated(Strings(s.variables), variables, h, p);
    var read := Validated(variables, h, p).value;
    CanonicalIsOne(s.variables, read, h, p);
    NotInheritedExact(read, h, p);
    CarryTogether(s.variables, read, h, p);
    PayloadParses(s, variables, h, p);
  }

  lemma CarryTogether(a: seq<Item>, b: seq<Item>, h: Host, p: Platform)
    requires multiset(a) == multiset(b)
    ensures (forall x :: x in a ==> MayCarry(x, h, p)) <==> (forall x :: x in b ==> MayCarry(x, h, p))
  {
    hide MayCarry;
    forall x ensures x in a <==> x in b {
      assert x in a <==> x in multiset(a);
    }
  }

  /** Whatever is read from a request, by whatever means it got there, is a snapshot in canonical form
      that carries only inherited names with valid paths, and reads back as itself. */
  lemma ParsedIsCanonical(payload: Value, h: Host, p: Platform)
    requires h.Lawful() && Parse(payload, h, p).Ok?
    ensures var s := Parse(payload, h, p).value;
            && (forall x :: x in s.variables ==> MayCarry(x, h, p))
            && Ascending(s.variables, h, p) && Distinct(s.variables, h, p)
            && Parse(ToPayload(s), h, p) == Ok(s)
  {
    var s := Parse(payload, h, p).value;
    var read := Validated(Field(payload.items, "variables").items, h, p).value;
    ValidatedExact(Field(payload.items, "variables").items, h, p);
    StringsOfItems(Field(payload.items, "variables").items);
    assert s == SnapshotOf(read, h, p);
    hide Parse;
    NotInheritedExact(read, h, p);
    assert Seal(read, h, p) == Ok(s);
    SealMeans(read, h, p);
    CarryTogether(s.variables, read, h, p);
    ReadBack(s, Strings(s.variables), h, p);
  }

  lemma NameOk(i: nat, value: string, h: Host)
    requires h.Lawful() && i < |INHERITED| && h.ValidWindowsPath(value)
    ensures EntryOk(Text(INHERITED[i].name), Text(value), h)
  {
    var name := INHERITED[i].name;
    assert name in ["SystemRoot", "WINDIR", "TEMP", "TMP"];
    assert '=' !in "SystemRoot" && '=' !in "WINDIR" && '=' !in "TEMP" && '=' !in "TMP";
    assert '\0' !in "SystemRoot" && '\0' !in "WINDIR" && '\0' !in "TEMP" && '\0' !in "TMP";
  }

  lemma {:induction false} InheritedAcceptable(items: seq<Item>, n: nat, h: Host)
    requires h.Lawful() && n <= |INHERITED|
    ensures var inherited := Inherited(items, n, h);
            && |inherited| <= n && (forall x :: x in inherited ==> EntryOk(Text(x.name), Text(x.value), h))
  {
    if n > 0 {
      InheritedAcceptable(items, n - 1, h);
      if Inherits(items, n - 1, h) {
        NameOk(n - 1, Found(items, INHERITED[n - 1].value, h, Windows).value, h);
      }
      hide EntryOk, Inherits, Found;
    }
  }

  lemma {:induction false} InheritedDistinct(items: seq<Item>, n: nat, h: Host)
    requires h.Lawful() && n <= |INHERITED|
    ensures Distinct(Inherited(items, n, h), h, Windows)
    ensures forall key :: key in Keys(Inherited(items, n, h), h, Windows) ==>
              exists j :: 0 <= j < n && INHERITED[j].value == key
  {
    if n > 0 {
      var i, front := n - 1, Inherited(items, n - 1, h);
      InheritedDistinct(items, i, h);
      assert forall j :: 0 <= j < i ==> INHERITED[j].value != INHERITED[i].value;
      assert h.Key(INHERITED[i].name, Windows) == INHERITED[i].value;
      if Inherits(items, i, h) {
        var item := Item(INHERITED[i].name, Found(items, INHERITED[i].value, h, Windows).value);
        assert Inherited(items, n, h) == front + [item];
        hide Inherited, Inherits, Found;
        KeysSnoc(front, item, h, Windows);
        DistinctSnoc(front, item, h, Windows);
      } else {
        assert Inherited(items, n, h) == front;
      }
    }
  }

  lemma DistinctSnoc(items: seq<Item>, item: Item, h: Host, p: Platform)
    requires Distinct(items, h, p) && h.Key(item.name, p) !in Keys(items, h, p)
    ensures Distinct(items + [item], h, p)
  {
  }

  /** Without additional variables a snapshot is built from exactly the parents that name no variable
      twice. */
  lemma BuildAccepts(parent: Mapping, h: Host, p: Platform)
    requires h.Lawful()
    ensures Build(parent, None, h, p).Ok? <==> AllText(parent) && Distinct(Items(parent), h, p)
  {
    ParentErrorExact(parent, {}, h, p);
    if AllText(parent) && Distinct(Items(parent), h, p) {
      var inherited := Baseline(Items(parent), h, p);
      if p.Windows? {
        InheritedAcceptable(Items(parent), |INHERITED|, h);
        InheritedDistinct(Items(parent), |INHERITED|, h);
      }
      AcceptableStrings(inherited);
      assert Acceptable(Strings(inherited), h, p) by {
        forall i | 0 <= i < |inherited|
          ensures EntryOk(Strings(inherited)[i].0, Strings(inherited)[i].1, h)
        {
          assert inherited[i] in inherited;
        }
      }
      ValidatedExact(Strings(inherited), h, p);
      NoKeys(h, p);
      assert inherited + [] == inherited;
    }
  }

  // ---- which values ----

  /** The names a child inherits on Windows, each with the key it has in any spelling. */
  predicate InheritedAs(name: string, key: string) {
    || (name == "SystemRoot" && key == "systemroot")
    || (name == "WINDIR" && key == "windir")
    || (name == "TEMP" && key == "temp")
    || (name == "TMP" && key == "tmp")
  }

  /** A usable Windows path. */
  predicate UsablePath(value: string, h: Host) {
    value != "" && h.trimmed(value) && '\0' !in value && |value| <= 4096 && h.absolute(value)
  }

  /** Some entry of the parent gives the variable this value. */
  ghost predicate GivenByParent(parent: Mapping, name: string, value: string, h: Host) {
    exists k, raw :: 0 <= k < |parent| && parent[k] == (Text(raw), Text(value)) && InheritedAs(name, h.casefold(raw))
  }

  lemma TableIs(name: string, key: string)
    ensures InheritedAs(name, key) <==> exists i :: 0 <= i < |INHERITED| && INHERITED[i] == Item(name, key)
  {
    assert INHERITED[0] == Item("SystemRoot", "systemroot") && INHERITED[1] == Item("WINDIR", "windir");
    assert INHERITED[2] == Item("TEMP", "temp") && INHERITED[3] == Item("TMP", "tmp");
  }

  lemma {:induction false} InheritedIs(items: seq<Item>, n: nat, h: Host, x: Item)
    requires n <= |INHERITED|
    ensures x in Inherited(items, n, h) <==>
            exists i :: 0 <= i < n && INHERITED[i].name == x.name
                        && Found(items, INHERITED[i].value, h, Windows) == Some(x.value) && h.ValidWindowsPath(x.value)
  {
    if n > 0 {
      InheritedIs(items, n - 1, h, x);
    }
  }

  lemma FoundIs(items: seq<Item>, key: string, value: string, h: Host)
    requires Distinct(items, h, Windows)
    ensures Found(items, key, h, Windows) == Some(value)
            <==> exists y :: y in items && h.casefold(y.name) == key && y.value == value
  {
    FoundExact(items, key, h, Windows);
    if Found(items, key, h, Windows).Some? {
      var i :| 0 <= i < |items| && h.Key(items[i].name, Windows) == key;
      assert items[i] in items;
    }
    hide Found, Distinct;
  }

  /** On Windows a variable is inherited exactly if the parent gives one of the four names, in any
      spelling, this value, and it is a usable path. */
  lemma BaselineIs(parent: Mapping, h: Host, x: Item)
    requires AllText(parent) && Distinct(Items(parent), h, Windows)
    ensures x in Baseline(Items(parent), h, Windows)
            <==> GivenByParent(parent, x.name, x.value, h) && UsablePath(x.value, h)
  {
    var items := Items(parent);
    InheritedIs(items, |INHERITED|, h, x);
    hide Inherited, Distinct, Found;
    if x in Baseline(items, h, Windows) {
      var i :| 0 <= i < |INHERITED| && INHERITED[i].name == x.name
               && Found(items, INHERITED[i].value, h, Windows) == Some(x.value);
      FoundIs(items, INHERITED[i].value, x.value, h);
      var y :| y in items && h.casefold(y.name) == INHERITED[i].value && y.value == x.value;
      var k :| 0 <= k < |items| && items[k] == y;
      TableIs(x.name, INHERITED[i].value);
      assert parent[k] == (Text(y.name), Text(x.value));
    }
    if GivenByParent(parent, x.name, x.value, h) {
      var k, raw :| 0 <= k < |parent| && parent[k] == (Text(raw), Text(x.value)) && InheritedAs(x.name, h.casefold(raw));
      TableIs(x.name, h.casefold(raw));
      var i :| 0 <= i < |INHERITED| && INHERITED[i] == Item(x.name, h.casefold(raw));
      assert items[k] == Item(raw, x.value);
      FoundIs(items, INHERITED[i].value, x.value, h);
    }
  }

  /** Which variables a snapshot holds, and with which values: on Windows those the parent gives, and
      on either platform the additional ones as they are. */
  lemma BuildVariables(parent: Mapping, additional: Option<Mapping>, h: Host, p: Platform, name: string, value: string)
    requires Build(parent, additional, h, p).Ok?
    ensures Item(name, value) in Build(parent, additional, h, p).value.variables
            <==> || (p == Windows && GivenByParent(parent, name, value, h) && UsablePath(value, h))
                 || (additional.Some? && (Text(name), Text(value)) in additional.value)
  {
    BuildMeans(parent, additional, h, p);
    ParentErrorExact(parent, {}, h, p);
    var s, x := Build(parent, additional, h, p).value, Item(name, value);
    var inherited, extra := Baseline(Items(parent), h, p), Extra(additional, h, p).value;
    assert x in s.variables <==> x in multiset(s.variables);
    assert x in inherited <==> x in multiset(inherited);
    assert x in extra <==> x in multiset(extra);
    if p == Windows {
      BaselineIs(parent, h, x);
    }
    if additional.Some? {
      ExtraIs(additional.value, h, p, x);
    }
    hide Build, GivenByParent, UsablePath, Inherited;
  }

  lemma ExtraIs(m: Mapping, h: Host, p: Platform, x: Item)
    requires Validated(m, h, p).Ok?
    ensures x in Validated(m, h, p).value <==> (Text(x.name), Text(x.value)) in m
  {
    ValidatedExact(m, h, p);
    hide Validated, Acceptable;
    if (Text(x.name), Text(x.value)) in m {
      var k :| 0 <= k < |m| && m[k] == (Text(x.name), Text(x.value));
      assert Items(m)[k] == x;
    }
    if x in Items(m) {
      var k :| 0 <= k < |m| && Items(m)[k] == x;
      assert m[k] == (Text(x.name), Text(x.value));
    }
  }

  /** Elsewhere nothing is inherited. */
  lemma PosixInheritsNothing(parent: Mapping, h: Host)
    requires Build(parent, None, h, Posix).Ok?
    ensures Build(parent, None, h, Posix).value.variables == []
  {
    BuildMeans(parent, None, h, Posix);
    var s := Build(parent, None, h, Posix).value;
    assert |s.variables| == |multiset(s.variables)| == 0;
  }

  // ---- what is read from a request ----

  /** The four fields and no other, of the right version and platform, with acceptable variables all of
      which may be carried, and the digest of just these variables in canonical order. */
  ghost predicate Genuine(m: Mapping, h: Host, p: Platform) {
    && (set k | 0 <= k < |m| :: m[k].0) == {Text("policy_version"), Text("platform"), Text("variables"), Text("sha256")}
    && Field(m, "policy_version") == Int(1)
    && Field(m, "platform") == Text(if p == Windows then "windows" else "posix")
    && Field(m, "variables").Dict?
    && GenuineVariables(Field(m, "variables").items, Field(m, "sha256"), h, p)
  }

  ghost predicate GenuineVariables(m: Mapping, digest: Value, h: Host, p: Platform) {
    && Acceptable(m, h, p) && AllText(m)
    && (forall x :: x in Items(m) ==>
          p == Windows && x.name in {"SystemRoot", "WINDIR", "TEMP", "TMP"} && UsablePath(x.value, h))
    && digest == Text(h.sha256(1, if p == Windows then "windows" else "posix", Canonical(Items(m), h, p)))
  }

  /** A payload is accepted exactly if it is genuine, and then every variable it lists is read. */
  lemma ParseExact(payload: Value, h: Host, p: Platform)
    requires h.Lawful()
    ensures Parse(payload, h, p).Ok? <==> payload.Dict? && Genuine(payload.items, h, p)
    ensures Parse(payload, h, p).Ok? ==>
              && AllText(Field(payload.items, "variables").items)
              && multiset(Parse(payload, h, p).value.variables) == multiset(Items(Field(payload.items, "variables").items))
              && Text(Parse(payload, h, p).value.sha256) == Field(payload.items, "sha256")
  {
    hide Acceptable, Validated, NotInherited, Canonical, Field, MayCarry, UsablePath, IsDigest, Items, AllText;
    if payload.Dict? && Field(payload.items, "variables").Dict? {
      var m := Field(payload.items, "variables").items;
      ValidatedExact(m, h, p);
      if Acceptable(m, h, p) {
        CarryExact(Items(m), h, p);
        CanonicalPermutes(Items(m), h, p);
        DigestIsOne(h, p, Canonical(Items(m), h, p));
      }
    }
  }

  lemma CarryExact(items: seq<Item>, h: Host, p: Platform)
    ensures NotInherited(items, h, p).None?
            <==> forall x :: x in items ==>
                   p == Windows && x.name in {"SystemRoot", "WINDIR", "TEMP", "TMP"} && UsablePath(x.value, h)
  {
    NotInheritedExact(items, h, p);
    hide NotInherited, MayCarry, UsablePath;
    forall x ensures MayCarry(x, h, p)
                     <==> p == Windows && x.name in {"SystemRoot", "WINDIR", "TEMP", "TMP"} && UsablePath(x.value, h)
    {
      MayCarryIs(x, h, p);
    }
  }

  lemma MayCarryIs(x: Item, h: Host, p: Platform)
    ensures MayCarry(x, h, p)
            <==> p == Windows && x.name in {"SystemRoot", "WINDIR", "TEMP", "TMP"} && UsablePath(x.value, h)
  {
    assert INHERITED[0].name == "SystemRoot" && INHERITED[1].name == "WINDIR";
    assert INHERITED[2].name == "TEMP" && INHERITED[3].name == "TMP";
  }

  lemma DigestIsOne(h: Host, p: Platform, variables: seq<Item>)
    requires h.Lawful()
    ensures IsDigest(h.sha256(1, if p == Windows then "windows" else "posix", variables))
  {
    hide IsDigest;
  }
}
