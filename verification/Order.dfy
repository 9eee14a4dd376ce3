/** Strings in code point order, as Python's `sorted` puts them, and sums over string-keyed maps. */
module Order {

  predicate Leq(a: string, b: string) {
    a == [] || (b != [] && (a[0] < b[0] || (a[0] == b[0] && Leq(a[1..], b[1..]))))
  }

  lemma {:induction false} LeqTotal(a: string, b: string)
    ensures Leq(a, b) || Leq(b, a)
  {
    if a != [] && b != [] {
      LeqTotal(a[1..], b[1..]);
    }
  }

  lemma {:induction false} LeqAntisymmetric(a: string, b: string)
    requires Leq(a, b) && Leq(b, a)
    ensures a == b
  {
    if a != [] && b != [] {
      LeqAntisymmetric(a[1..], b[1..]);
      assert a == [a[0]] + a[1..] && b == [b[0]] + b[1..];
    }
  }

  lemma {:induction false} LeqTransitive(a: string, b: string, c: string)
    requires Leq(a, b) && Leq(b, c)
    ensures Leq(a, c)
  {
    if a != [] && b != [] && c != [] && a[0] == b[0] == c[0] {
      LeqTransitive(a[1..], b[1..], c[1..]);
    }
  }

  predicate IsLeast(s: set<string>, least: string) {
    least in s && forall k :: k in s ==> Leq(least, k)
  }

  lemma {:induction false} LeastExists(s: set<string>)
    requires s != {}
    ensures exists least :: IsLeast(s, least)
    decreases |s|
  {
    var k :| k in s;
    var rest := s - {k};
    LeqTotal(k, k);
    if rest == {} {
      assert s == {k};
      assert IsLeast(s, k);
    } else {
      LeastExists(rest);
      var least :| IsLeast(rest, least);
      LeqTotal(k, least);
      if Leq(k, least) {
        forall j | j in s ensures Leq(k, j) {
          if j != k { LeqTransitive(k, least, j); }
        }
        assert IsLeast(s, k);
      } else {
        assert IsLeast(s, least);
      }
    }
  }

  function Least(s: set<string>): (least: string)
    requires s != {}
    ensures least in s && forall k :: k in s ==> Leq(least, k)
  {
    LeastExists(s);
    assert forall a, b :: IsLeast(s, a) && IsLeast(s, b) ==> a == b by {
      forall a, b | IsLeast(s, a) && IsLeast(s, b) ensures a == b { LeqAntisymmetric(a, b); }
    }
    var least :| least in s && IsLeast(s, least);
    least
  }

  predicate Ascending(names: seq<string>) {
    forall i, j :: 0 <= i < j < |names| ==> Leq(names[i], names[j])
  }

  function Sorted(s: set<string>): (names: seq<string>)
    ensures forall k :: k in names <==> k in s
    ensures Ascending(names)
    ensures |names| == |s|
  {
    if s == {} then []
    else [Least(s)] + Sorted(s - {Least(s)})
  }

  function Sum(m: map<string, nat>): nat
    decreases |m|
  {
    if m == map[] then 0
    else
      assert m.Keys != {};
      var k := Least(m.Keys);
      assert (m - {k}).Keys == m.Keys - {k};
      m[k] + Sum(m - {k})
  }

  lemma {:induction false} SumRemove(m: map<string, nat>, k: string)
    requires k in m
    ensures Sum(m) == m[k] + Sum(m - {k})
    decreases |m|
  {
    var first := Least(m.Keys);
    assert (m - {first}).Keys == m.Keys - {first};
    if k != first {
      SumRemove(m - {first}, k);
      var rest := m - {k};
      assert (m - {first}) - {k} == rest - {first};
      assert rest.Keys == m.Keys - {k};
      LeqAntisymmetric(Least(rest.Keys), first);
    }
  }

  lemma SumEmpty()
    ensures Sum(map[]) == 0
  {
  }

  /** Where no entry of `a` exceeds the entry of `b` by more than `slack`, neither does the sum. */
  lemma {:induction false} SumBound(a: map<string, nat>, b: map<string, nat>, slack: nat)
    requires a.Keys == b.Keys
    requires forall k :: k in a ==> a[k] <= b[k] + slack
    ensures Sum(a) <= Sum(b) + slack * |a|
    decreases |a|
  {
    hide Sum, Leq;
    if a.Keys == {} {
      assert a == map[] && b == map[];
      SumEmpty();
    } else {
      var k :| k in a;
      var a', b' := a - {k}, b - {k};
      assert a'.Keys == a.Keys - {k} == b'.Keys;
      assert |a'| == |a| - 1;
      SumBound(a', b', slack);
      SumRemove(a, k);
      SumRemove(b, k);
      assert slack * |a| == slack * |a'| + slack;
    }
  }
}
