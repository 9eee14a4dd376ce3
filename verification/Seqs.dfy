/** Small facts about sequences that several modules share. */
module Seqs {

  /** How many leading elements satisfy `p`. */
  function LeadingRun<T>(s: seq<T>, p: T -> bool): (n: nat)
    ensures n <= |s|
    ensures forall i :: 0 <= i < n ==> p(s[i])
    ensures n < |s| ==> !p(s[n])
  {
    if s == [] || !p(s[0]) then 0 else 1 + LeadingRun(s[1..], p)
  }

  lemma LeadingRunIs<T>(s: seq<T>, p: T -> bool, n: nat)
    requires n <= |s|
    requires forall i :: 0 <= i < n ==> p(s[i])
    requires n < |s| ==> !p(s[n])
    ensures LeadingRun(s, p) == n
  {
    var m := LeadingRun(s, p);
    assert m < |s| ==> !p(s[m]);
  }

  lemma Assoc<T>(a: seq<T>, b: seq<T>, c: seq<T>)
    ensures a + b + c == a + (b + c)
  {
  }

  lemma Regroup<T>(b: seq<T>, c: seq<T>, d: seq<T>, e: seq<T>)
    ensures b + c + d + e == b + c + (d + e)
  {
  }

  /** Where the parts of a concatenation lie. */
  lemma Parts<T>(s: seq<T>, at: nat, b: seq<T>, c: seq<T>, d: seq<T>)
    requires at <= |s| && s[at..] == b + c + d
    ensures var i, j := at + |b|, at + |b| + |c|;
            j <= |s| && s[at..i] == b && s[i..j] == c && s[j..] == d
  {
    var i, j := at + |b|, at + |b| + |c|;
    assert s[at..i] == s[at..][..|b|] && s[i..j] == s[at..][|b|..|b| + |c|] && s[j..] == s[at..][|b| + |c|..];
  }

  /** What has been added since `a` is what was added up to `b` and then up to `c`. */
  lemma Growing<T>(a: seq<T>, b: seq<T>, c: seq<T>)
    requires a <= b <= c
    ensures c[|a|..] == b[|a|..] + c[|b|..]
  {
  }

  function Concat<T>(parts: seq<seq<T>>): seq<T> {
    if parts == [] then [] else parts[0] + Concat(parts[1..])
  }

  lemma {:induction false} ConcatAppend<T>(a: seq<seq<T>>, b: seq<seq<T>>)
    ensures Concat(a + b) == Concat(a) + Concat(b)
  {
    if a == [] {
      assert a + b == b;
    } else {
      assert (a + b)[1..] == a[1..] + b;
      ConcatAppend(a[1..], b);
    }
  }

  function Reverse<T>(s: seq<T>): seq<T> {
    if s == [] then [] else [s[|s| - 1]] + Reverse(s[..|s| - 1])
  }

  lemma {:induction false} ReverseAppend<T>(a: seq<T>, b: seq<T>)
    ensures Reverse(a + b) == Reverse(b) + Reverse(a)
  {
    if b == [] {
      assert a + b == a;
    } else {
      assert (a + b)[..|a + b| - 1] == a + b[..|b| - 1];
      ReverseAppend(a, b[..|b| - 1]);
    }
  }

  lemma {:induction false} ReverseLength<T>(s: seq<T>)
    ensures |Reverse(s)| == |s|
  {
    if s != [] {
      ReverseLength(s[..|s| - 1]);
    }
  }
}
