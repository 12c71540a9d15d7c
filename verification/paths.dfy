/** The `os.path` functions the transition DSL and the web back end rely on, for POSIX paths. */
module Paths {
  import opened Strings

  /** `os.path.isabs` */
  predicate IsAbs(p: string)
  {
    |p| > 0 && p[0] == '/'
  }

  /** `os.path.join(a, b)`: an absolute `b` replaces `a`, otherwise one slash separates them */
  function PathJoin(a: string, b: string): string
  {
    if IsAbs(b) then b else if a == "" || a[|a| - 1] == '/' then a + b else a + "/" + b
  }

  /** `s.rfind(c)`: the last index of `c` in `s`, or -1 */
  function RFind(s: string, c: char): (k: int)
    ensures -1 <= k < |s|
    ensures k >= 0 ==> s[k] == c
    ensures forall j :: k < j < |s| ==> s[j] != c
  {
    if |s| == 0 then -1 else if s[|s| - 1] == c then |s| - 1 else RFind(s[..|s| - 1], c)
  }

  /** `s.rstrip('/')` */
  function RStripSlash(s: string): (r: string)
    ensures StartsWith(s, r)
    ensures |r| > 0 ==> r[|r| - 1] != '/'
    ensures forall k :: |r| <= k < |s| ==> s[k] == '/'
  {
    if |s| > 0 && s[|s| - 1] == '/' then RStripSlash(s[..|s| - 1]) else s
  }

  predicate AllSlashes(s: string)
  {
    forall k :: 0 <= k < |s| ==> s[k] == '/'
  }

  /**
   * What POSIX `dirname` promises: a prefix of the path, empty when the path has no slash;
   * after it come only a run of slashes and then a name without any; it ends in a slash only
   * when it is made of slashes alone, and then no slash follows it; otherwise a slash follows it.
   */
  ghost predicate DirnameRule(p: string, r: string)
  {
    StartsWith(p, r)
    && ('/' !in p <==> r == "")
    && (exists j :: |r| <= j <= |p| && AllSlashes(p[|r|..j]) && '/' !in p[j..])
    && (|r| > 0 && r[|r| - 1] == '/' ==> AllSlashes(r) && '/' !in p[|r|..])
    && (|r| > 0 && r[|r| - 1] != '/' ==> |r| < |p| && p[|r|] == '/')
  }

  /** `os.path.dirname`: up to the last slash, trailing slashes dropped unless only slashes are left */
  function Dirname(p: string): (r: string)
    ensures DirnameRule(p, r)
  {
    var i := RFind(p, '/');
    RFindIn(p, '/');
    var head := p[..i + 1];
    if head != "" && !AllSlashes(head) then
      var r := RStripSlash(head);
      assert r != "";
      assert AllSlashes(p[|r|..i + 1]) by {
        assert p[|r|..i + 1] == head[|r|..];
      }
      r
    else
      assert AllSlashes(p[|head|..|head|]);
      head
  }

  /** `rfind` finds the character exactly when it occurs, and none occurs after what it finds. */
  lemma RFindIn(s: string, c: char)
    ensures c in s <==> RFind(s, c) >= 0
    ensures c !in s[RFind(s, c) + 1..]
  {
    var i := RFind(s, c);
    if i >= 0 {
      assert s[i] in s;
    }
    var tail := s[i + 1..];
    forall x | x in tail ensures x != c {
      var k :| 0 <= k < |tail| && tail[k] == x;
      assert tail[k] == s[i + 1 + k];
    }
  }

  /** Only one string meets the `dirname` rule: the rule pins `Dirname` down completely. */
  lemma DirnameUnique(p: string, r: string)
    requires DirnameRule(p, r)
    ensures r == Dirname(p)
  {
    var s := Dirname(p);
    if |r| <= |s| {
      RuleNotShorter(p, r, s);
    } else {
      RuleNotShorter(p, s, r);
    }
    assert r == p[..|r|] == s;
  }

  /** Two strings meeting the `dirname` rule have the same length. */
  lemma RuleNotShorter(p: string, a: string, b: string)
    requires DirnameRule(p, a) && DirnameRule(p, b) && |a| <= |b|
    ensures |a| == |b|
  {
    assert b[..|a|] == a;
    if |b| > 0 && b[|b| - 1] == '/' {
      // `b` is all slashes with none after it, so `a` is too, and a slash would follow a shorter `a`.
      assert a[|a| - 1] == b[|a| - 1];
    } else if |b| > 0 {
      // A slash follows `b`, but after `a` come slashes, then none: `b` cannot end past them.
      var j :| |a| <= j <= |p| && AllSlashes(p[|a|..j]) && '/' !in p[j..];
      assert p[|b| - 1] == b[|b| - 1];
    }
  }

  /**
   * What POSIX `splitext` promises of the extension: when there is one, it is a suffix of the path
   * made of a dot and then neither dots nor slashes, and the file name before it holds a character
   * other than a dot; when there is none, every dot follows only dots within its file name or lies
   * in a directory part.
   */
  ghost predicate ExtensionRule(p: string, r: string)
  {
    (r != "" ==>
       |r| <= |p| && p[|p| - |r|..] == r && r[0] == '.' && '/' !in r && '.' !in r[1..]
       && exists k :: 0 <= k < |p| - |r| && p[k] != '.' && '/' !in p[k..])
    && (r == "" ==>
       forall k, i :: 0 <= k < i < |p| && p[k] != '.' && p[i] == '.' ==> '/' in p[k..])
  }

  /** `os.path.splitext(p)[1]`: from the last dot of the file name on, unless the name is only leading dots */
  function Extension(p: string): (r: string)
    ensures ExtensionRule(p, r)
  {
    var sep := RFind(p, '/');
    var dot := RFind(p, '.');
    if dot > sep && exists k :: sep + 1 <= k < dot && p[k] != '.' then
      var r := p[dot..];
      assert '/' !in r && '.' !in r[1..] by {
        forall m | 0 <= m < |r| ensures r[m] != '/' && (m > 0 ==> r[m] != '.') {
          assert r[m] == p[dot + m];
        }
      }
      var k :| sep + 1 <= k < dot && p[k] != '.';
      assert '/' !in p[k..] by {
        forall m | 0 <= m < |p| - k ensures p[k..][m] != '/' {
          assert p[k..][m] == p[k + m];
        }
      }
      r
    else
      forall k, i | 0 <= k < i < |p| && p[k] != '.' && p[i] == '.' ensures '/' in p[k..] {
        if sep >= k {
          assert p[k..][sep - k] == '/';
        }
      }
      ""
  }

  /** Only one string meets the `splitext` rule: the rule pins `Extension` down completely. */
  lemma ExtensionUnique(p: string, r: string)
    requires ExtensionRule(p, r)
    ensures r == Extension(p)
  {
    var s := Extension(p);
    if r != "" {
      var k :| 0 <= k < |p| - |r| && p[k] != '.' && '/' !in p[k..];
      assert p[|p| - |r|] == r[0];
      LastDot(p, r);
      LastDot(p, s);
      assert p[|p| - |s|..] == s;
    } else {
      var sep := RFind(p, '/');
      forall k, i | sep < k < i < |p| && p[k] != '.' ensures p[i] != '.' {
        assert '/' !in p[k..] by {
          forall m | 0 <= m < |p| - k ensures p[k..][m] != '/' {
            assert p[k..][m] == p[k + m];
          }
        }
      }
      NoExtension(p);
    }
  }

  /** A nonempty extension meeting the rule starts at the last dot of the path. */
  lemma LastDot(p: string, r: string)
    requires ExtensionRule(p, r) && r != ""
    ensures |p| - |r| == RFind(p, '.')
  {
    var i := |p| - |r|;
    assert p[i] == r[0];
    forall m | i < m < |p| ensures p[m] != '.' {
      assert p[m] == r[1..][m - i - 1];
    }
  }

  /** A path whose file name has no dot after a character other than a dot has no extension. */
  lemma NoExtension(p: string)
    requires forall k, i :: RFind(p, '/') < k < i < |p| && p[k] != '.' ==> p[i] != '.'
    ensures Extension(p) == ""
  {
    var sep := RFind(p, '/');
    var dot := RFind(p, '.');
    if dot > sep {
      forall k | sep + 1 <= k < dot ensures p[k] == '.' {
        assert p[dot] == '.';
      }
    }
  }

  /** Joining a file name onto a directory and taking the directory back gives the directory. */
  lemma DirnameOfJoin(d: string, f: string)
    requires d != "" && d[|d| - 1] != '/' && '/' !in f
    ensures Dirname(PathJoin(d, f)) == d
  {
    var p := PathJoin(d, f);
    assert p == d + "/" + f;
    assert RFind(p, '/') == |d| by {
      assert p[|d|] == '/';
      forall j | |d| < j < |p| ensures p[j] != '/' {
        assert p[j] == f[j - |d| - 1];
      }
    }
    var head := p[..|d| + 1];
    assert head == d + "/";
    assert head[|d| - 1] != '/';
    assert RStripSlash(head) == d by {
      assert head[..|head| - 1] == d;
    }
  }

  /** A relative path joined onto an absolute root is absolute; joined onto no root it is unchanged. */
  lemma JoinRoot(root: string, p: string)
    ensures root == "" ==> PathJoin(root, p) == p
    ensures IsAbs(root) ==> IsAbs(PathJoin(root, p))
  {
  }

  /** The extension of `stem.e` is `.e` when the stem has a non-dot character and `e` has no dot. */
  lemma ExtensionOf(stem: string, e: string)
    requires '/' !in stem && '/' !in e && '.' !in e
    requires exists k :: 0 <= k < |stem| && stem[k] != '.'
    ensures Extension(stem + "." + e) == "." + e
  {
    var p := stem + "." + e;
    var k :| 0 <= k < |stem| && stem[k] != '.';
    assert RFind(p, '/') == -1 by {
      forall j | -1 < j < |p| ensures p[j] != '/' {
        if j < |stem| { assert p[j] == stem[j]; assert stem[j] in stem; }
        else if j > |stem| { assert p[j] == e[j - |stem| - 1]; assert e[j - |stem| - 1] in e; }
      }
    }
    assert RFind(p, '.') == |stem| by {
      assert p[|stem|] == '.';
      forall j | |stem| < j < |p| ensures p[j] != '.' {
        assert p[j] == e[j - |stem| - 1];
        assert e[j - |stem| - 1] in e;
      }
    }
    assert p[k] == stem[k];
    assert p[|stem|..] == "." + e;
  }
}
