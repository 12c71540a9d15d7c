/** Python's ordering of `str` values (by code point, lexicographically) and `sorted`. */
module Sorting {

  /** `a <= b` on Python strings */
  predicate Below(a: string, b: string)
    decreases |a|
  {
    |a| == 0 || (|b| > 0 && (a[0] < b[0] || (a[0] == b[0] && Below(a[1..], b[1..]))))
  }

  lemma BelowReflexive(a: string)
    ensures Below(a, a)
  {
  }

  lemma BelowTotal(a: string, b: string)
    ensures Below(a, b) || Below(b, a)
  {
  }

  lemma BelowAntisymmetric(a: string, b: string)
    requires Below(a, b) && Below(b, a)
    ensures a == b
  {
    if |a| > 0 && |b| > 0 {
      BelowAntisymmetric(a[1..], b[1..]);
      assert a == [a[0]] + a[1..] && b == [b[0]] + b[1..];
    }
  }

  lemma BelowTransitive(a: string, b: string, c: string)
    requires Below(a, b) && Below(b, c)
    ensures Below(a, c)
  {
  }

  lemma AllBelowAntisymmetric()
    ensures forall a, b :: Below(a, b) && Below(b, a) ==> a == b
  {
    forall a, b | Below(a, b) && Below(b, a) ensures a == b { BelowAntisymmetric(a, b); }
  }

  /** A prefix common to two strings does not change their order. */
  lemma {:induction false} BelowPrefix(p: string, a: string, b: string)
    ensures Below(p + a, p + b) <==> Below(a, b)
  {
    if |p| > 0 {
      assert (p + a)[1..] == p[1..] + a && (p + b)[1..] == p[1..] + b;
      BelowPrefix(p[1..], a, b);
    } else {
      assert p + a == a && p + b == b;
    }
  }

  predicate Sorted(xs: seq<string>)
  {
    forall i, j :: 0 <= i < j < |xs| ==> Below(xs[i], xs[j])
  }

  function Insert(x: string, xs: seq<string>): (r: seq<string>)
    requires Sorted(xs)
    ensures Sorted(r)
    ensures multiset(r) == multiset(xs) + multiset{x}
  {
    if |xs| == 0 then [x]
    else if Below(x, xs[0]) then
      SortedCons(x, xs);
      [x] + xs
    else
      var t := Insert(x, xs[1..]);
      BelowTotal(x, xs[0]);
      SortedConsInserted(x, xs, t);
      assert xs == [xs[0]] + xs[1..];
      [xs[0]] + t
  }

  /** A string below the head of a sorted list can go in front of it. */
  lemma SortedCons(x: string, xs: seq<string>)
    requires Sorted(xs) && |xs| > 0 && Below(x, xs[0])
    ensures Sorted([x] + xs)
  {
    forall j | 0 < j < |xs| ensures Below(x, xs[j]) { BelowTransitive(x, xs[0], xs[j]); }
  }

  /** The head of a sorted list stays in front of its tail with one more string above the head. */
  lemma SortedConsInserted(x: string, xs: seq<string>, t: seq<string>)
    requires Sorted(xs) && |xs| > 0 && Below(xs[0], x)
    requires Sorted(t) && multiset(t) == multiset(xs[1..]) + multiset{x}
    ensures Sorted([xs[0]] + t)
  {
    forall j | 0 <= j < |t| ensures Below(xs[0], t[j]) {
      assert t[j] in multiset(t);
      if t[j] != x {
        assert t[j] in multiset(xs[1..]);
        var k :| 0 <= k < |xs[1..]| && xs[1..][k] == t[j];
        assert xs[k + 1] == t[j];
      }
    }
  }

  /** `sorted(xs)` for a list of strings */
  function SortSeq(xs: seq<string>): (r: seq<string>)
    ensures Sorted(r)
    ensures multiset(r) == multiset(xs)
  {
    if |xs| == 0 then []
    else
      assert xs == [xs[0]] + xs[1..];
      Insert(xs[0], SortSeq(xs[1..]))
  }

  lemma {:induction false} MinExists(s: set<string>)
    requires s != {}
    ensures exists m :: m in s && forall y :: y in s ==> Below(m, y)
    decreases |s|
  {
    var x :| x in s;
    if s == {x} {
      BelowReflexive(x);
      assert forall y :: y in s ==> Below(x, y);
    } else {
      var rest := s - {x};
      assert |rest| < |s|;
      MinExists(rest);
      var m :| m in rest && forall y :: y in rest ==> Below(m, y);
      BelowTotal(m, x);
      if Below(m, x) {
        forall y | y in s ensures Below(m, y) {
          if y == x { } else { assert y in rest; }
        }
        assert m in s;
      } else {
        forall y | y in s ensures Below(x, y) {
          if y == x { BelowReflexive(x); } else { assert y in rest; BelowTransitive(x, m, y); }
        }
      }
    }
  }

  /** The least string of a non-empty set */
  function Least(s: set<string>): (m: string)
    requires s != {}
    ensures m in s && forall y :: y in s ==> Below(m, y)
  {
    MinExists(s);
    AllBelowAntisymmetric();
    var m :| m in s && forall y :: y in s ==> Below(m, y);
    m
  }

  /** `sorted(s)` for a set of strings: the least element first */
  function SortSet(s: set<string>): (r: seq<string>)
    ensures Sorted(r)
    ensures multiset(r) == multiset(s)
    decreases |s|
  {
    if s == {} then []
    else
      var m := Least(s);
      var rest := s - {m};
      assert |rest| < |s|;
      var t := SortSet(rest);
      LeastBelowAll(m, rest, t);
      assert multiset(s) == multiset{m} + multiset(rest);
      [m] + t
  }

  lemma LeastBelowAll(m: string, rest: set<string>, t: seq<string>)
    requires forall y :: y in rest ==> Below(m, y)
    requires Sorted(t) && multiset(t) == multiset(rest)
    ensures Sorted([m] + t)
  {
    forall j | 0 <= j < |t| ensures Below(m, t[j]) {
      assert t[j] in multiset(t);
    }
  }

  /** Two sorted lists holding the same strings are the same list. */
  lemma {:induction false} SortedUnique(a: seq<string>, b: seq<string>)
    requires Sorted(a) && Sorted(b)
    requires multiset(a) == multiset(b)
    ensures a == b
  {
    if |a| > 0 {
      assert |b| > 0 by { assert |multiset(b)| == |a|; }
      SortedHeadsEqual(a, b);
      SortedTails(a, b);
      SortedUnique(a[1..], b[1..]);
      assert a == [a[0]] + a[1..] && b == [b[0]] + b[1..];
    } else {
      assert |multiset(b)| == 0;
    }
  }

  lemma SortedHeadsEqual(a: seq<string>, b: seq<string>)
    requires Sorted(a) && Sorted(b) && |a| > 0 && |b| > 0
    requires multiset(a) == multiset(b)
    ensures a[0] == b[0]
  {
    assert a[0] in multiset(b) && b[0] in multiset(a);
    var i :| 0 <= i < |b| && b[i] == a[0];
    var j :| 0 <= j < |a| && a[j] == b[0];
    if i > 0 { assert Below(b[0], b[i]); } else { BelowReflexive(b[0]); }
    if j > 0 { assert Below(a[0], a[j]); } else { BelowReflexive(a[0]); }
    BelowAntisymmetric(a[0], b[0]);
  }

  lemma SortedTails(a: seq<string>, b: seq<string>)
    requires |a| > 0 && |b| > 0 && a[0] == b[0]
    requires Sorted(a) && Sorted(b) && multiset(a) == multiset(b)
    ensures Sorted(a[1..]) && Sorted(b[1..]) && multiset(a[1..]) == multiset(b[1..])
  {
    assert a == [a[0]] + a[1..];
    assert b == [b[0]] + b[1..];
    assert multiset(a) == multiset([a[0]]) + multiset(a[1..]);
    assert multiset(b) == multiset([a[0]]) + multiset(b[1..]);
    forall x ensures multiset(a[1..])[x] == multiset(b[1..])[x] {
      assert multiset(a)[x] == multiset([a[0]])[x] + multiset(a[1..])[x];
      assert multiset(b)[x] == multiset([a[0]])[x] + multiset(b[1..])[x];
    }
  }

  /** A set is listed without repetition. */
  lemma SortSetDistinct(s: set<string>)
    ensures forall i, j :: 0 <= i < j < |SortSet(s)| ==> SortSet(s)[i] != SortSet(s)[j]
  {
    var r := SortSet(s);
    forall i, j | 0 <= i < j < |r| ensures r[i] != r[j] {
      assert r == r[..i] + [r[i]] + r[i + 1..j] + [r[j]] + r[j + 1..];
      assert multiset(s)[r[i]] <= 1;
    }
  }

  lemma SortSetMembers(s: set<string>)
    ensures forall x :: x in SortSet(s) <==> x in s
  {
    forall x ensures x in SortSet(s) <==> x in s {
      assert x in SortSet(s) <==> x in multiset(SortSet(s));
    }
  }

  /** Sorting a list keeps its length and its elements. */
  lemma SortSeqMembers(xs: seq<string>)
    ensures |SortSeq(xs)| == |xs|
    ensures forall x :: x in SortSeq(xs) <==> x in xs
  {
    var r := SortSeq(xs);
    forall x ensures x in r <==> x in xs {
      assert x in r <==> x in multiset(r);
      assert x in xs <==> x in multiset(xs);
    }
    assert |r| == |multiset(r)| == |xs|;
  }

  /** Sorting a list with no repetition gives the sorted set of its elements. */
  lemma SortSeqOfDistinct(xs: seq<string>)
    requires forall i, j :: 0 <= i < j < |xs| ==> xs[i] != xs[j]
    ensures SortSeq(xs) == SortSet(set x | x in xs)
  {
    var s := set x | x in xs;
    DistinctMultiset(xs);
    SortedUnique(SortSeq(xs), SortSet(s));
  }

  lemma {:induction false} DistinctMultiset(xs: seq<string>)
    requires forall i, j :: 0 <= i < j < |xs| ==> xs[i] != xs[j]
    ensures multiset(xs) == multiset(set x | x in xs)
  {
    if |xs| > 0 {
      DistinctMultiset(xs[1..]);
      assert xs == [xs[0]] + xs[1..];
      assert xs[0] !in xs[1..];
      assert (set x | x in xs) == {xs[0]} + (set x | x in xs[1..]);
    }
  }
}
