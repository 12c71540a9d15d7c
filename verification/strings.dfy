/** The operations on Python `str` values that the tools rely on, each with Python's semantics. */
module Strings {

  /** The elements of a list, as a set */
  function Elems(xs: seq<string>): set<string>
  {
    set x | x in xs
  }

  lemma AppendAssoc<T>(a: seq<T>, b: seq<T>, c: seq<T>)
    ensures (a + b) + c == a + (b + c)
  {
  }

  /** `s.startswith(p)` */
  predicate StartsWith(s: string, p: string)
  {
    |p| <= |s| && s[..|p|] == p
  }

  lemma PrefixTrans(a: string, b: string, c: string)
    requires StartsWith(a, b) && StartsWith(b, c)
    ensures StartsWith(a, c)
  {
    assert a[..|c|] == b[..|b|][..|c|];
  }

  /** `p` occurs in `s` at index `k` */
  predicate OccursAt(s: string, p: string, k: nat)
  {
    k + |p| <= |s| && s[k..k + |p|] == p
  }

  /** `p in s`, computed as a left-to-right scan */
  predicate Contains(s: string, p: string)
    decreases |s|
  {
    StartsWith(s, p) || (|s| > 0 && Contains(s[1..], p))
  }

  /** The scan finds `p` exactly when `p` occurs somewhere in `s`. */
  lemma {:induction false} ContainsAt(s: string, p: string)
    ensures Contains(s, p) <==> exists k: nat :: OccursAt(s, p, k)
    decreases |s|
  {
    if Contains(s, p) {
      if StartsWith(s, p) {
        assert OccursAt(s, p, 0);
      } else {
        ContainsAt(s[1..], p);
        var k: nat :| OccursAt(s[1..], p, k);
        assert s[1..][k..k + |p|] == s[k + 1..k + 1 + |p|];
        assert OccursAt(s, p, k + 1);
      }
    }
    if exists k: nat :: OccursAt(s, p, k) {
      var k: nat :| OccursAt(s, p, k);
      if k > 0 {
        assert s[1..][k - 1..k - 1 + |p|] == s[k..k + |p|];
        assert OccursAt(s[1..], p, k - 1);
        ContainsAt(s[1..], p);
      }
    }
  }

  /** `s[n:]` */
  function Drop(s: string, n: nat): (r: string)
    ensures |r| == if n <= |s| then |s| - n else 0
    ensures n <= |s| ==> s == s[..n] + r
  {
    if n <= |s| then s[n..] else ""
  }

  /** `s[:n]` */
  function Take(s: string, n: nat): (r: string)
    ensures |r| == if n <= |s| then n else |s|
    ensures StartsWith(s, r)
  {
    if n <= |s| then s[..n] else s
  }

  /** `sep.join(xs)` */
  function Join(sep: string, xs: seq<string>): string
  {
    if |xs| == 0 then "" else if |xs| == 1 then xs[0] else xs[0] + sep + Join(sep, xs[1..])
  }

  /** A character in neither the separator nor the pieces is not in the joined text. */
  lemma {:induction false} JoinAvoids(sep: string, xs: seq<string>, c: char)
    requires c !in sep && forall x :: x in xs ==> c !in x
    ensures c !in Join(sep, xs)
  {
    if |xs| > 1 {
      assert xs[0] in xs;
      assert forall x :: x in xs[1..] ==> x in xs;
      JoinAvoids(sep, xs[1..], c);
    } else if |xs| == 1 {
      assert xs[0] in xs;
    }
  }

  /** The joined text starts with the first piece. */
  lemma JoinHead(sep: string, xs: seq<string>)
    requires |xs| > 0
    ensures StartsWith(Join(sep, xs), xs[0])
  {
  }

  /** Joining one more piece adds the separator and the piece at the end. */
  lemma {:induction false} JoinSnoc(sep: string, xs: seq<string>, x: string)
    requires |xs| > 0
    ensures Join(sep, xs + [x]) == Join(sep, xs) + sep + x
  {
    if |xs| == 1 {
      assert xs + [x] == [xs[0], x];
    } else {
      assert (xs + [x])[1..] == xs[1..] + [x];
      JoinSnoc(sep, xs[1..], x);
      AppendAssoc(xs[0] + sep, Join(sep, xs[1..]) + sep, x);
      AppendAssoc(xs[0] + sep, Join(sep, xs[1..]), sep);
    }
  }

  /** `[p + x for x in xs]` */
  function Prefixed(p: string, xs: seq<string>): (r: seq<string>)
    ensures |r| == |xs|
    ensures forall k :: 0 <= k < |xs| ==> r[k] == p + xs[k]
  {
    if |xs| == 0 then [] else [p + xs[0]] + Prefixed(p, xs[1..])
  }

  /** `s.split(sep)` for a one-character separator: never empty, one more piece than separators */
  function Split(s: string, sep: char): (r: seq<string>)
    ensures |r| >= 1
    ensures forall k :: 0 <= k < |r| ==> sep !in r[k]
  {
    if |s| == 0 then [""]
    else if s[0] == sep then [""] + Split(s[1..], sep)
    else
      var t := Split(s[1..], sep);
      [[s[0]] + t[0]] + t[1..]
  }

  lemma {:induction false} SplitNoSep(s: string, sep: char)
    requires sep !in s
    ensures Split(s, sep) == [s]
  {
    if |s| > 0 {
      assert sep !in s[1..] by {
        forall k | 0 <= k < |s[1..]| ensures s[1..][k] != sep { assert s[1..][k] == s[k + 1]; }
      }
      SplitNoSep(s[1..], sep);
      assert [s[0]] + s[1..] == s;
    }
  }

  /** Splitting at one separator splits the two sides independently. */
  lemma {:induction false} SplitConcat(a: string, b: string, sep: char)
    ensures Split(a + [sep] + b, sep) == Split(a, sep) + Split(b, sep)
  {
    var s := a + [sep] + b;
    if |a| == 0 {
      assert s == [sep] + b;
      assert s[1..] == b;
    } else {
      assert s[0] == a[0];
      assert s[1..] == a[1..] + [sep] + b;
      SplitConcat(a[1..], b, sep);
    }
  }

  /** `sep.join(s.split(sep))` gives `s` back. */
  lemma {:induction false} JoinSplit(s: string, sep: char)
    ensures Join([sep], Split(s, sep)) == s
    decreases |s|
  {
    if |s| > 0 {
      var t := Split(s[1..], sep);
      JoinSplit(s[1..], sep);
      if s[0] == sep {
        assert Join([sep], [""] + t) == "" + [sep] + Join([sep], t) by {
          assert ([""] + t)[1..] == t;
        }
        assert [s[0]] + s[1..] == s;
      } else if |t| == 1 {
        assert Join([sep], t) == t[0];
        assert [s[0]] + s[1..] == s;
      } else {
        var u := [[s[0]] + t[0]] + t[1..];
        assert u[1..] == t[1..];
        assert Join([sep], t) == t[0] + [sep] + Join([sep], t[1..]);
        AppendAssoc([s[0]], t[0], [sep]);
        AppendAssoc([s[0]], t[0] + [sep], Join([sep], t[1..]));
        assert [s[0]] + s[1..] == s;
      }
    }
  }

  /** A first piece free of the separator comes off whole. */
  lemma SplitFirst(a: string, b: string, sep: char)
    requires sep !in a
    ensures Split(a + [sep] + b, sep) == [a] + Split(b, sep)
  {
    SplitConcat(a, b, sep);
    SplitNoSep(a, sep);
  }

  /** `Split` applied piecewise to every element. */
  function SplitEach(xs: seq<string>, sep: char): seq<string>
  {
    if |xs| == 0 then [] else Split(xs[0], sep) + SplitEach(xs[1..], sep)
  }

  lemma {:induction false} SplitJoinEach(xs: seq<string>, sep: char)
    requires |xs| > 0
    ensures Split(Join([sep], xs), sep) == SplitEach(xs, sep)
  {
    if |xs| > 1 {
      SplitJoinEach(xs[1..], sep);
      SplitConcat(xs[0], Join([sep], xs[1..]), sep);
      assert Join([sep], xs) == xs[0] + [sep] + Join([sep], xs[1..]);
    }
  }

  /** `sep.join` then `split(sep)` gives the pieces back when none contains the separator. */
  lemma {:induction false} SplitJoin(xs: seq<string>, sep: char)
    requires |xs| > 0
    requires forall k :: 0 <= k < |xs| ==> sep !in xs[k]
    ensures Split(Join([sep], xs), sep) == xs
  {
    SplitJoinEach(xs, sep);
    SplitEachNoSep(xs, sep);
  }

  lemma {:induction false} SplitEachNoSep(xs: seq<string>, sep: char)
    requires forall k :: 0 <= k < |xs| ==> sep !in xs[k]
    ensures SplitEach(xs, sep) == xs
  {
    if |xs| > 0 {
      SplitNoSep(xs[0], sep);
      SplitEachNoSep(xs[1..], sep);
    }
  }

  lemma {:induction false} SplitEachConcat(xs: seq<string>, ys: seq<string>, sep: char)
    ensures SplitEach(xs + ys, sep) == SplitEach(xs, sep) + SplitEach(ys, sep)
  {
    if |xs| > 0 {
      assert (xs + ys)[1..] == xs[1..] + ys;
      SplitEachConcat(xs[1..], ys, sep);
    } else {
      assert xs + ys == ys;
    }
  }

  /** `s.split(' ')[0]`: the text before the first space */
  function FirstToken(s: string): (r: string)
    ensures ' ' !in r
    ensures StartsWith(s, r)
    ensures |r| < |s| ==> s[|r|] == ' '
  {
    if |s| == 0 || s[0] == ' ' then "" else [s[0]] + FirstToken(s[1..])
  }

  /** `s.replace(c, by)` for a one-character pattern */
  function ReplaceChar(s: string, c: char, repl: string): (r: string)
    ensures c !in repl ==> c !in r
  {
    if |s| == 0 then ""
    else (if s[0] == c then repl else [s[0]]) + ReplaceChar(s[1..], c, repl)
  }

  /** The decimal digit for `d` */
  function Digit(d: nat): (c: char)
    requires d < 10
    ensures DigitValue(c) == d
  {
    "0123456789"[d]
  }

  /** What a decimal digit stands for (any other character reads as 0) */
  function DigitValue(c: char): nat
  {
    if '0' <= c <= '9' then c as int - '0' as int else 0
  }

  /** `int(s)` for a string of decimal digits: the number it writes, most significant digit first */
  function DigitsValue(s: string): nat
  {
    if |s| == 0 then 0 else DigitsValue(s[..|s| - 1]) * 10 + DigitValue(s[|s| - 1])
  }

  /** `str(n)` for a natural number: decimal digits, with no leading zero unless `n` is 0 */
  function NatToString(n: nat): (r: string)
    ensures |r| > 0
    ensures forall k :: 0 <= k < |r| ==> '0' <= r[k] <= '9'
    ensures (r[0] == '0') == (n == 0)
  {
    if n < 10 then [Digit(n)] else NatToString(n / 10) + [Digit(n % 10)]
  }

  /** Reading back the digits `str(n)` writes gives `n`. */
  lemma {:induction false} NatToStringValue(n: nat)
    ensures DigitsValue(NatToString(n)) == n
  {
    var r := NatToString(n);
    if n >= 10 {
      NatToStringValue(n / 10);
      assert r[..|r| - 1] == NatToString(n / 10);
    }
  }

  /** Different numbers are written differently. */
  lemma NatToStringInjective(m: nat, n: nat)
    requires NatToString(m) == NatToString(n)
    ensures m == n
  {
    NatToStringValue(m);
    NatToStringValue(n);
  }

  /** The characters Python's `str.isspace()` and the regular expression class `\s` accept */
  predicate IsSpace(c: char)
  {
    c == ' ' || ('\t' <= c <= '\r') || ('\U{1C}' <= c <= '\U{1F}') || c == '\U{85}' || c == '\U{A0}'
    || c == '\U{1680}' || ('\U{2000}' <= c <= '\U{200A}') || c == '\U{2028}' || c == '\U{2029}'
    || c == '\U{202F}' || c == '\U{205F}' || c == '\U{3000}'
  }

  /** The end of the run of non-space characters of `s` that starts at `k` (the greedy `\S*`) */
  function RunEnd(s: string, k: nat): (e: nat)
    requires k <= |s|
    ensures k <= e <= |s|
    ensures forall j :: k <= j < e ==> !IsSpace(s[j])
    ensures e < |s| ==> IsSpace(s[e])
    decreases |s| - k
  {
    if k == |s| || IsSpace(s[k]) then k else RunEnd(s, k + 1)
  }
}
