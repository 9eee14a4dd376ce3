/** The variables of a minimal child environment: which mappings are acceptable, and the one order in
    which their items are written down. */
module ExecutionEnvironment {
  import opened Results
  import Order

  /** Python values as far as the checks tell them apart. A dictionary is listed in its own order. */
  datatype Value = Int(n: int) | Bool(b: bool) | Text(s: string) | Dict(items: Mapping) | Other

  type Mapping = seq<(Value, Value)>

  datatype Item = Item(name: string, value: string)

  datatype Platform = Windows | Posix

  datatype EnvError =
    | NotText | TooMany | BadName | BadValue | Duplicate | Forbidden
    | NoSnapshot | Malformed | NotAllowed | BadPath | DigestMismatch

  /** What the libraries and tables below decide. */
  datatype Host = Host(
    casefold: string -> string,
    forbidden: string -> bool,
    trimmed: string -> bool,
    absolute: string -> bool,
    sha256: (int, string, seq<Item>) -> string)
  {
    function Key(name: string, platform: Platform): string {
      if platform.Windows? then casefold(name) else name
    }

    predicate ValidWindowsPath(value: string) {
      value != [] && trimmed(value) && '\0' !in value && |value| <= MAX_ENVIRONMENT_VALUE_CHARS && absolute(value)
    }

    /** The four inherited names are what the table says they are, and a digest is 64 hex digits. */
    ghost predicate Lawful() {
      && (forall i :: 0 <= i < |INHERITED| ==>
            casefold(INHERITED[i].name) == INHERITED[i].value && !forbidden(INHERITED[i].name))
      && (forall version, platform, variables :: IsDigest(sha256(version, platform, variables)))
    }
  }

  const EXECUTION_ENVIRONMENT_POLICY_VERSION := 1
  const MAX_ENVIRONMENT_VARIABLES := 16
  const MAX_ENVIRONMENT_KEY_CHARS := 128
  const MAX_ENVIRONMENT_VALUE_CHARS := 4096

  /** The inherited names with their keys. */
  const INHERITED := [
    Item("SystemRoot", "systemroot"), Item("WINDIR", "windir"), Item("TEMP", "temp"), Item("TMP", "tmp")]

  predicate IsDigest(s: string) {
    |s| == 64 && forall c :: c in s ==> '0' <= c <= '9' || 'a' <= c <= 'f'
  }

  function PlatformName(platform: Platform): string {
    if platform.Windows? then "windows" else "posix"
  }

  // ---- validation ----

  function EntryError(key: Value, value: Value): Option<EnvError> {
    if !key.Text? || !value.Text? then Some(NotText)
    else if key.s == [] || |key.s| > MAX_ENVIRONMENT_KEY_CHARS || '=' in key.s || '\0' in key.s then Some(BadName)
    else if |value.s| > MAX_ENVIRONMENT_VALUE_CHARS || '\0' in value.s then Some(BadValue)
    else None
  }

  predicate AllText(m: Mapping) {
    forall i :: 0 <= i < |m| ==> m[i].0.Text? && m[i].1.Text?
  }

  function Items(m: Mapping): seq<Item>
    requires AllText(m)
  {
    seq(|m|, i requires 0 <= i < |m| => Item(m[i].0.s, m[i].1.s))
  }

  function Keys(items: seq<Item>, h: Host, p: Platform): set<string> {
    set i | 0 <= i < |items| :: h.Key(items[i].name, p)
  }

  ghost predicate Distinct(items: seq<Item>, h: Host, p: Platform) {
    forall i, j :: 0 <= i < j < |items| ==> h.Key(items[i].name, p) != h.Key(items[j].name, p)
  }

  predicate EntryOk(key: Value, value: Value, h: Host) {
    EntryError(key, value).None? && !h.forbidden(key.s)
  }

  /** An entry is all text, its name 1 to 128 characters long and free of equals signs and NULs, its value
      no longer than 4096 and free of NULs, and its name not forbidden. */
  lemma EntryOkExact(key: Value, value: Value, h: Host)
    ensures EntryOk(key, value, h) <==>
            && key.Text? && value.Text?
            && 1 <= |key.s| <= 128 && '=' !in key.s && '\0' !in key.s
            && |value.s| <= 4096 && '\0' !in value.s
            && !h.forbidden(key.s)
  {
  }

  ghost predicate Acceptable(m: Mapping, h: Host, p: Platform) {
    && |m| <= MAX_ENVIRONMENT_VARIABLES
    && (forall i :: 0 <= i < |m| ==> EntryOk(m[i].0, m[i].1, h))
    && Distinct(Items(m), h, p)
  }

  /** The error of the first entry that has one. */
  function FirstError(m: Mapping, seen: set<string>, h: Host, p: Platform): Option<EnvError> {
    if m == [] then None
    else
      var e := EntryError(m[0].0, m[0].1);
      if e.Some? then e
      else
        var key := h.Key(m[0].0.s, p);
        if key in seen then Some(Duplicate)
        else if h.forbidden(m[0].0.s) then Some(Forbidden)
        else FirstError(m[1..], seen + {key}, h, p)
  }

  function Validated(m: Mapping, h: Host, p: Platform): Result<seq<Item>, EnvError> {
    if |m| > MAX_ENVIRONMENT_VARIABLES then Err(TooMany)
    else
      var e := FirstError(m, {}, h, p);
      if e.Some? then Err(e.value) else assert AllText(m) by { NoErrorIsText(m, {}, h, p); } Ok(Items(m))
  }

  lemma {:induction false} NoErrorIsText(m: Mapping, seen: set<string>, h: Host, p: Platform)
    requires FirstError(m, seen, h, p).None?
    ensures AllText(m)
  {
    if m != [] {
      NoErrorIsText(m[1..], seen + {h.Key(m[0].0.s, p)}, h, p);
      assert forall i :: 1 <= i < |m| ==> m[i] == m[1..][i - 1];
    }
  }

  lemma DistinctCons(first: Item, rest: seq<Item>, h: Host, p: Platform)
    ensures Distinct([first] + rest, h, p) <==>
            Distinct(rest, h, p) && forall i :: 0 <= i < |rest| ==> h.Key(rest[i].name, p) != h.Key(first.name, p)
  {
    var items := [first] + rest;
    assert forall i :: 0 <= i < |rest| ==> items[i + 1] == rest[i];
    assert forall i :: 0 < i < |items| ==> items[i] == rest[i - 1];
    assert items[0] == first;
  }

  ghost predicate Fresh(m: Mapping, seen: set<string>, h: Host, p: Platform) {
    && (forall i :: 0 <= i < |m| ==> EntryOk(m[i].0, m[i].1, h))
    && AllText(m)
    && Keys(Items(m), h, p) !! seen
    && Distinct(Items(m), h, p)
  }

  lemma KeysCons(first: Item, rest: seq<Item>, h: Host, p: Platform)
    ensures Keys([first] + rest, h, p) == Keys(rest, h, p) + {h.Key(first.name, p)}
  {
    var items := [first] + rest;
    assert items[0] == first && forall i :: 0 <= i < |rest| ==> items[i + 1] == rest[i];
  }

  lemma MappingCons(m: Mapping, h: Host)
    requires m != [] && EntryError(m[0].0, m[0].1).None?
    ensures AllText(m) <==> AllText(m[1..])
    ensures AllText(m) ==> Items(m) == [Item(m[0].0.s, m[0].1.s)] + Items(m[1..])
    ensures (forall i :: 0 <= i < |m| ==> EntryOk(m[i].0, m[i].1, h))
            <==> EntryOk(m[0].0, m[0].1, h) && forall i :: 0 <= i < |m[1..]| ==> EntryOk(m[1..][i].0, m[1..][i].1, h)
  {
    assert m[0].0.Text? && m[0].1.Text?;
    hide EntryError, EntryOk;
    assert m == [m[0]] + m[1..];
    assert forall i :: 1 <= i < |m| ==> m[i] == m[1..][i - 1];
  }

  lemma FreshCons(m: Mapping, seen: set<string>, h: Host, p: Platform)
    requires m != [] && EntryError(m[0].0, m[0].1).None?
    ensures Fresh(m, seen, h, p) <==>
            !h.forbidden(m[0].0.s) && h.Key(m[0].0.s, p) !in seen
            && Fresh(m[1..], seen + {h.Key(m[0].0.s, p)}, h, p)
  {
    MappingCons(m, h);
    assert EntryOk(m[0].0, m[0].1, h) <==> !h.forbidden(m[0].0.s);
    hide EntryError, EntryOk;
    if AllText(m) {
      var rest, first := Items(m[1..]), Item(m[0].0.s, m[0].1.s);
      DistinctCons(first, rest, h, p);
      KeysCons(first, rest, h, p);
      var key := h.Key(first.name, p);
      assert key in Keys(rest, h, p) <==> exists i :: 0 <= i < |rest| && h.Key(rest[i].name, p) == key;
      hide Distinct, Keys, Items;
    }
  }

  lemma {:induction false} NoErrorExact(m: Mapping, seen: set<string>, h: Host, p: Platform)
    ensures FirstError(m, seen, h, p).None? <==> Fresh(m, seen, h, p)
  {
    if m != [] && EntryError(m[0].0, m[0].1).None? {
      NoErrorExact(m[1..], seen + {h.Key(m[0].0.s, p)}, h, p);
      FreshCons(m, seen, h, p);
      hide Fresh;
    }
  }

  /** Validation accepts exactly the acceptable mappings, and passes their entries on in order. */
  lemma ValidatedExact(m: Mapping, h: Host, p: Platform)
    ensures Validated(m, h, p).Ok? <==> Acceptable(m, h, p)
    ensures Acceptable(m, h, p) ==> AllText(m) && Validated(m, h, p) == Ok(Items(m))
  {
    NoErrorExact(m, {}, h, p);
  }

  method ValidatedItems(m: Mapping, h: Host, p: Platform) returns (r: Result<seq<Item>, EnvError>)
    ensures r == Validated(m, h, p)
  {
    if |m| > MAX_ENVIRONMENT_VARIABLES {
      return Err(TooMany);
    }
    var seen: set<string>, validated: seq<Item> := {}, [];
    var i := 0;
    while i < |m|
      invariant i <= |m|
      invariant FirstError(m, {}, h, p) == FirstError(m[i..], seen, h, p)
      invariant |validated| == i && AllText(m[..i]) && validated == Items(m[..i])
    {
      var (key, value) := m[i];
      var e := EntryError(key, value);
      if e.Some? {
        return Err(e.value);
      }
      var normalized := h.Key(key.s, p);
      if normalized in seen {
        return Err(Duplicate);
      }
      seen := seen + {normalized};
      if h.forbidden(key.s) {
        return Err(Forbidden);
      }
      assert m[i..][1..] == m[i + 1..] && m[..i + 1] == m[..i] + [m[i]];
      validated := validated + [Item(key.s, value.s)];
      i := i + 1;
    }
    assert m[..i] == m;
    r := Ok(validated);
  }

  // ---- canonical order ----

  function Insert(x: Item, items: seq<Item>, h: Host, p: Platform): seq<Item> {
    if items == [] || Order.Leq(h.Key(x.name, p), h.Key(items[0].name, p)) then [x] + items
    else [items[0]] + Insert(x, items[1..], h, p)
  }

  /** The items in order of their keys. */
  function Canonical(items: seq<Item>, h: Host, p: Platform): seq<Item> {
    if items == [] then [] else Insert(items[0], Canonical(items[1..], h, p), h, p)
  }

  ghost predicate Ascending(items: seq<Item>, h: Host, p: Platform) {
    forall i, j :: 0 <= i < j < |items| ==> Order.Leq(h.Key(items[i].name, p), h.Key(items[j].name, p))
  }

  lemma {:induction false} InsertPermutes(x: Item, items: seq<Item>, h: Host, p: Platform)
    ensures multiset(Insert(x, items, h, p)) == multiset(items) + multiset{x}
  {
    hide Order.Leq;
    if items != [] {
      assert items == [items[0]] + items[1..];
      if !Order.Leq(h.Key(x.name, p), h.Key(items[0].name, p)) {
        InsertPermutes(x, items[1..], h, p);
      }
    }
  }

  lemma {:induction false} CanonicalPermutes(items: seq<Item>, h: Host, p: Platform)
    ensures multiset(Canonical(items, h, p)) == multiset(items)
  {
    if items != [] {
      CanonicalPermutes(items[1..], h, p);
      InsertPermutes(items[0], Canonical(items[1..], h, p), h, p);
      assert items == [items[0]] + items[1..];
    }
  }

  lemma AscendingCons(x: Item, items: seq<Item>, h: Host, p: Platform)
    ensures Ascending([x] + items, h, p) <==>
            Ascending(items, h, p)
            && forall y :: y in items ==> Order.Leq(h.Key(x.name, p), h.Key(y.name, p))
  {
    hide Order.Leq;
    var all := [x] + items;
    if Ascending(all, h, p) {
      forall i, j | 0 <= i < j < |items|
        ensures Order.Leq(h.Key(items[i].name, p), h.Key(items[j].name, p))
      {
        assert items[i] == all[i + 1] && items[j] == all[j + 1];
      }
      forall y | y in items ensures Order.Leq(h.Key(x.name, p), h.Key(y.name, p)) {
        var j :| 0 <= j < |items| && items[j] == y;
        assert all[0] == x && all[j + 1] == y;
      }
    }
  }

  lemma {:induction false} InsertAscends(x: Item, items: seq<Item>, h: Host, p: Platform)
    requires Ascending(items, h, p)
    ensures Ascending(Insert(x, items, h, p), h, p)
  {
    if items != [] {
      var first, rest := items[0], items[1..];
      assert items == [first] + rest;
      AscendingCons(first, rest, h, p);
      Order.LeqTotal(h.Key(x.name, p), h.Key(first.name, p));
      hide Order.Leq;
      if Order.Leq(h.Key(x.name, p), h.Key(first.name, p)) {
        forall y | y in items ensures Order.Leq(h.Key(x.name, p), h.Key(y.name, p)) {
          if y != first {
            Order.LeqTransitive(h.Key(x.name, p), h.Key(first.name, p), h.Key(y.name, p));
          }
        }
        AscendingCons(x, items, h, p);
      } else {
        InsertAscends(x, rest, h, p);
        InsertPermutes(x, rest, h, p);
        assert forall y :: y in Insert(x, rest, h, p) ==> y in multiset(rest) + multiset{x};
        AscendingCons(first, Insert(x, rest, h, p), h, p);
      }
    }
  }

  lemma {:induction false} CanonicalAscends(items: seq<Item>, h: Host, p: Platform)
    ensures Ascending(Canonical(items, h, p), h, p)
  {
    if items != [] {
      CanonicalAscends(items[1..], h, p);
      InsertAscends(items[0], Canonical(items[1..], h, p), h, p);
    }
  }

  /** Distinctness does not depend on order: it says that there are as many keys as items. */
  lemma {:induction false} DistinctByCount(items: seq<Item>, h: Host, p: Platform)
    ensures |Keys(items, h, p)| <= |items|
    ensures Distinct(items, h, p) <==> |Keys(items, h, p)| == |items|
  {
    if items != [] {
      var first, rest := items[0], items[1..];
      DistinctByCount(rest, h, p);
      assert items == [first] + rest;
      DistinctCons(first, rest, h, p);
      KeysCons(first, rest, h, p);
      var key := h.Key(first.name, p);
      assert key in Keys(rest, h, p) <==> exists i :: 0 <= i < |rest| && h.Key(rest[i].name, p) == key;
      hide Distinct, Keys;
      assert key in Keys(rest, h, p) ==> Keys(rest, h, p) + {key} == Keys(rest, h, p);
    } else {
      assert Keys(items, h, p) == {};
    }
  }

  lemma SameKeys(a: seq<Item>, b: seq<Item>, h: Host, p: Platform)
    requires multiset(a) == multiset(b)
    ensures |a| == |b| && Keys(a, h, p) == Keys(b, h, p)
    ensures Distinct(a, h, p) <==> Distinct(b, h, p)
  {
    assert |multiset(a)| == |a| && |multiset(b)| == |b|;
    KeysOfPart(a, b, h, p);
    KeysOfPart(b, a, h, p);
    DistinctByCount(a, h, p);
    DistinctByCount(b, h, p);
  }

  lemma KeysOfPart(a: seq<Item>, b: seq<Item>, h: Host, p: Platform)
    requires multiset(a) == multiset(b)
    ensures Keys(a, h, p) <= Keys(b, h, p)
  {
    forall i | 0 <= i < |a| ensures h.Key(a[i].name, p) in Keys(b, h, p) {
      assert a[i] in multiset(b);
      var j :| 0 <= j < |b| && b[j] == a[i];
    }
  }

  lemma FirstIsLeast(items: seq<Item>, x: Item, h: Host, p: Platform)
    requires Ascending(items, h, p) && x in items
    ensures Order.Leq(h.Key(items[0].name, p), h.Key(x.name, p))
  {
    Order.LeqTotal(h.Key(x.name, p), h.Key(x.name, p));
    hide Order.Leq;
  }

  lemma KeyTellsItem(items: seq<Item>, x: Item, y: Item, h: Host, p: Platform)
    requires Distinct(items, h, p) && x in items && y in items && h.Key(x.name, p) == h.Key(y.name, p)
    ensures x == y
  {
  }

  lemma TailsAgree(a: seq<Item>, b: seq<Item>)
    requires a != [] && b != [] && a[0] == b[0] && multiset(a) == multiset(b)
    ensures multiset(a[1..]) == multiset(b[1..])
  {
    assert a == [a[0]] + a[1..] && b == [b[0]] + b[1..];
    assert multiset(a[1..]) == multiset(a) - multiset{a[0]};
    assert multiset(b[1..]) == multiset(b) - multiset{b[0]};
  }

  lemma TailOf(a: seq<Item>, h: Host, p: Platform)
    requires a != []
    ensures Ascending(a, h, p) ==> Ascending(a[1..], h, p)
    ensures Distinct(a, h, p) ==> Distinct(a[1..], h, p)
  {
    hide Order.Leq;
  }

  /** Only one arrangement of items with distinct keys is in order. */
  lemma {:induction false} OneOrder(a: seq<Item>, b: seq<Item>, h: Host, p: Platform)
    requires multiset(a) == multiset(b) && Ascending(a, h, p) && Ascending(b, h, p) && Distinct(a, h, p)
    ensures a == b
  {
    hide Ascending, Distinct, Order.Leq, Keys;
    SameKeys(a, b, h, p);
    if a != [] {
      var x, y := a[0], b[0];
      assert x in multiset(b) && y in multiset(a);
      FirstIsLeast(a, y, h, p);
      FirstIsLeast(b, x, h, p);
      Order.LeqAntisymmetric(h.Key(x.name, p), h.Key(y.name, p));
      KeyTellsItem(a, x, y, h, p);
      TailsAgree(a, b);
      TailOf(a, h, p);
      TailOf(b, h, p);
      OneOrder(a[1..], b[1..], h, p);
      assert a == [x] + a[1..] && b == [y] + b[1..];
    }
  }

  lemma CanonicalIsOne(a: seq<Item>, b: seq<Item>, h: Host, p: Platform)
    requires multiset(a) == multiset(b) && Distinct(a, h, p)
    ensures Canonical(a, h, p) == Canonical(b, h, p)
  {
    CanonicalPermutes(a, h, p);
    CanonicalPermutes(b, h, p);
    CanonicalAscends(a, h, p);
    CanonicalAscends(b, h, p);
    SameKeys(a, Canonical(a, h, p), h, p);
    OneOrder(Canonical(a, h, p), Canonical(b, h, p), h, p);
  }
}
