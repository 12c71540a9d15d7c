/**
 * The round trip of pmjqtools/tools.py: the Petri net `pmjq_viz` draws from the text of setup.sh
 * is the network of invocations that text was generated from.
 */
module RoundTrip {
  import opened Wrappers
  import opened Strings
  import opened Sorting
  import opened Templates
  import opened Tools
  import opened ScriptLines
  import opened Viz

  // ----- Reading one line back -----

  lemma LastAtIs(s: string, p: string, lo: nat, hi: nat, k: nat)
    requires lo <= k <= hi && OccursAt(s, p, k)
    requires forall j :: k < j <= hi ==> !OccursAt(s, p, j)
    ensures LastAt(s, p, lo, hi) == Some(k)
  {
  }

  lemma LastGroupFieldIs(l: string, lo: nat, hi: nat, k: nat)
    requires lo <= k <= hi && GroupFieldAt(l, k)
    requires forall j :: k < j <= hi ==> !GroupFieldAt(l, j)
    ensures LastGroupField(l, lo, hi) == Some(k)
  {
  }

  /** After the owner, the group field of a chown line is the last place `:pg_\S* ` fits. */
  lemma GroupFieldOfChown(l: string, a: nat, group: string, d: string)
    requires a + 1 + |group| + 1 + |d| == |l| && l[a] == ':'
    requires l[a + 1..a + 1 + |group|] == group && l[a + 1 + |group|] == ' ' && l[a + 2 + |group|..] == d
    requires StartsWith(group, "pg_") && forall c :: c in group ==> !IsSpace(c) && c != ':'
    requires forall c :: c in d ==> c != ':'
    ensures GroupFieldAt(l, a) && RunEnd(l, a + 4) == a + 1 + |group|
    ensures forall j :: a < j < |l| ==> !GroupFieldAt(l, j)
  {
    assert l[a..a + 4] == [l[a]] + l[a + 1..a + 4];
    assert l[a + 1..a + 4] == group[..3];
    forall j | a + 4 <= j < a + 1 + |group| ensures !IsSpace(l[j]) {
      assert l[j] == group[j - a - 1];
      assert group[j - a - 1] in group;
    }
    var e := RunEnd(l, a + 4);
    assert e == a + 1 + |group|;
    forall j | a < j < |l| ensures !GroupFieldAt(l, j) {
      if j < a + 1 + |group| {
        assert l[j] == group[j - a - 1];
        assert group[j - a - 1] in group;
      } else if j > a + 1 + |group| {
        assert l[j] == d[j - a - 2 - |group|];
        assert d[j - a - 2 - |group|] in d;
      }
      assert l[j] != ':';
      if j + 4 <= |l| {
        assert l[j..j + 4][0] == l[j];
      }
    }
  }

  /** The pieces of a chown line */
  lemma ChownPieces(owner: string, group: string, d: string)
    ensures ChownLine("chown " + owner + ":" + group + " " + d, owner, group, d)
  {
    var p1 := "chown " + owner;
    var p2 := p1 + ":";
    var p3 := p2 + group;
    var p4 := p3 + " ";
    var l := p4 + d;
    assert l[..|p4|] == p4;
    assert p4[..|p3|] == p3;
    assert p3[..|p2|] == p2;
    assert p2[..|p1|] == p1;
    assert l[..6] == p1[..6];
  }

  /** A line cut into the pieces of a chown line */
  predicate ChownLine(l: string, owner: string, group: string, d: string)
  {
    var a := 6 + |owner|;
    |l| == a + 1 + |group| + 1 + |d| && l[..6] == "chown " && l[6..a] == owner && l[a] == ':'
    && l[a + 1..a + 1 + |group|] == group && l[a + 1 + |group|] == ' ' && l[a + 2 + |group|..] == d
  }

  lemma ChownLineAt(l: string, owner: string, group: string, d: string)
    requires ChownLine(l, owner, group, d)
    requires StartsWith(group, "pg_") && forall c :: c in group ==> !IsSpace(c) && c != ':'
    requires forall c :: c in d ==> c != ':'
    ensures MatchChown(l) == Some((owner, group[3..], d))
  {
    var a := 6 + |owner|;
    GroupFieldOfChown(l, a, group, d);
    MatchChownAt(l, a);
    assert l[a + 4..a + 1 + |group|] == group[3..];
  }

  /** The chown pattern matches at the last group field. */
  lemma MatchChownAt(l: string, a: nat)
    requires StartsWith(l, "chown ") && 6 <= a && a + 5 <= |l| && GroupFieldAt(l, a)
    requires forall j :: a < j < |l| ==> !GroupFieldAt(l, j)
    ensures var e := RunEnd(l, a + 4); MatchChown(l) == Some((l[6..a], l[a + 4..e], l[e + 1..]))
  {
    LastGroupFieldIs(l, 6, |l| - 5, a);
    ChownFound(l, a);
  }

  lemma ChownFound(l: string, a: nat)
    requires StartsWith(l, "chown ") && |l| >= 11 && LastGroupField(l, 6, |l| - 5) == Some(a)
    ensures var e := RunEnd(l, a + 4); MatchChown(l) == Some((l[6..a], l[a + 4..e], l[e + 1..]))
  {
    var e := RunEnd(l, a + 4);
    var r := MatchChown(l);
    assert r.Some? && r.value == (l[6..a], l[a + 4..e], l[e + 1..]);
  }

  lemma OwnerChownLineAt(l: string, name: string, group: string, d: string)
    requires ChownLine(l, "pu_" + name, group, d)
    requires StartsWith(group, "pg_") && forall c :: c in group ==> !IsSpace(c) && c != ':'
    requires forall c :: c in d ==> c != ':'
    ensures MatchOwnerChown(l) == Some((name, d))
  {
    var owner := "pu_" + name;
    var a := 6 + |owner|;
    assert l[..9] == l[..6] + l[6..9];
    GroupFieldOfChown(l, a, group, d);
    MatchOwnerChownAt(l, a);
    assert l[9..a] == owner[3..];
  }

  lemma MatchOwnerChownAt(l: string, a: nat)
    requires StartsWith(l, "chown pu_") && 9 <= a && a + 5 <= |l| && GroupFieldAt(l, a)
    requires forall j :: a < j < |l| ==> !GroupFieldAt(l, j)
    ensures MatchOwnerChown(l) == Some((l[9..a], l[RunEnd(l, a + 4) + 1..]))
  {
    LastGroupFieldIs(l, 9, |l| - 5, a);
  }

  /** `re.match('^chown (.*):pg_(\S*) (.*)$')` reads the owner, the group and the directory back. */
  lemma ChownRead(owner: string, group: string, d: string)
    requires StartsWith(group, "pg_") && forall c :: c in group ==> !IsSpace(c) && c != ':'
    requires forall c :: c in d ==> c != ':'
    ensures MatchChown("chown " + owner + ":" + group + " " + d) == Some((owner, group[3..], d))
  {
    ChownPieces(owner, group, d);
    ChownLineAt("chown " + owner + ":" + group + " " + d, owner, group, d);
  }

  /**
   * `re.match('^chown pu_(.*):pg_\S* (.*)$')` reads an invocation's name and the directory back
   * from the chown line of a directory the invocation reads.
   */
  lemma OwnerChownRead(name: string, group: string, d: string)
    requires StartsWith(group, "pg_") && forall c :: c in group ==> !IsSpace(c) && c != ':'
    requires forall c :: c in d ==> c != ':'
    ensures MatchOwnerChown("chown " + ("pu_" + name) + ":" + group + " " + d) == Some((name, d))
  {
    ChownPieces("pu_" + name, group, d);
    OwnerChownLineAt("chown " + ("pu_" + name) + ":" + group + " " + d, name, group, d);
  }

  /** The chown line of a directory nobody reads names no invocation. */
  lemma WhoamiChownRead(group: string, d: string)
    ensures MatchOwnerChown("chown " + "`whoami`" + ":" + group + " " + d).None?
  {
    var l := "chown " + "`whoami`" + ":" + group + " " + d;
    assert l[6] == '`';
  }

  /** A line cut into the pieces of a useradd line: primary group, other groups, user name */
  predicate UserAddShape(l: string, g0: string, others: string, name: string)
  {
    var a := 17 + |g0|;
    var b := a + 4 + |others|;
    |l| == b + 4 + |name| && l[..17] == "useradd -M -N -g " && l[17..a] == g0 && l[a..a + 4] == " -G "
    && l[a + 4..b] == others && l[b..b + 4] == " pu_" && l[b + 4..] == name
  }

  lemma UserAddPieces(g0: string, others: string, name: string)
    ensures UserAddShape("useradd -M -N -g " + g0 + " -G " + others + " " + ("pu_" + name), g0, others, name)
  {
    var p1 := "useradd -M -N -g " + g0;
    var p2 := p1 + " -G ";
    var p3 := p2 + others;
    var p4 := p3 + " ";
    var l := p4 + ("pu_" + name);
    assert l[..|p4|] == p4;
    assert p4[..|p3|] == p3;
    assert p3[..|p2|] == p2;
    assert p2[..|p1|] == p1;
    assert l[..17] == p1[..17];
    assert l[|p3|..|p3| + 4] == " pu_";
  }

  /** No " pu_" starts inside the user name at the end of a useradd line. */
  lemma LastUserField(l: string, b: nat, name: string)
    requires b + 4 + |name| == |l| && l[b..b + 4] == " pu_" && l[b + 4..] == name
    requires ' ' !in name
    ensures OccursAt(l, " pu_", b)
    ensures forall j :: b < j <= |l| - 4 ==> !OccursAt(l, " pu_", j)
  {
    forall j | b < j <= |l| - 4 ensures !OccursAt(l, " pu_", j) {
      if j < b + 4 {
        assert l[j] == l[b..b + 4][j - b];
      } else {
        assert l[j] == name[j - b - 4];
      }
      assert l[j..j + 4][0] == l[j];
    }
  }

  /** `re.match('^useradd .* pu_(.*)$')` reads the invocation name back. */
  lemma UserAddRead(l: string, g0: string, others: string, name: string)
    requires UserAddShape(l, g0, others, name) && ' ' !in name
    ensures MatchUserAdd(l) == Some(name)
  {
    var b := 17 + |g0| + 4 + |others|;
    assert l[..8] == l[..17][..8];
    LastUserField(l, b, name);
    LastAtIs(l, " pu_", 8, |l| - 4, b);
  }

  /** `re.match('^useradd -M -N -g (.*) -G (.*) pu_(.*)$')` reads the groups and the name back. */
  lemma UserGroupsRead(l: string, g0: string, others: string, name: string)
    requires UserAddShape(l, g0, others, name) && ' ' !in name
    requires ' ' !in others && (|others| == 0 || others[0] != '-')
    ensures MatchUserGroups(l) == Some((g0, others, name))
  {
    var a := 17 + |g0|;
    var b := a + 4 + |others|;
    LastUserField(l, b, name);
    LastOthersField(l, a, b, others);
    MatchUserGroupsAt(l, a, b);
  }

  /** No " -G " starts inside the supplementary groups of a useradd line. */
  lemma LastOthersField(l: string, a: nat, b: nat, others: string)
    requires a + 4 + |others| == b && b + 4 <= |l| && l[a..a + 4] == " -G " && l[a + 4..b] == others
    requires l[b..b + 4] == " pu_"
    requires ' ' !in others && (|others| == 0 || others[0] != '-')
    ensures OccursAt(l, " -G ", a)
    ensures forall j :: a < j <= b - 4 ==> !OccursAt(l, " -G ", j)
  {
    forall j | a < j <= b - 4 ensures !OccursAt(l, " -G ", j) {
      if j < a + 3 {
        assert l[j] == l[a..a + 4][j - a];
      } else if j == a + 3 {
        assert l[j + 1] == others[0];
        assert l[j..j + 4][1] == l[j + 1];
      } else {
        assert l[j] == others[j - a - 4];
      }
      assert l[j..j + 4][0] == l[j];
    }
  }

  lemma MatchUserGroupsAt(l: string, a: nat, b: nat)
    requires 17 <= a && a + 4 <= b && b + 4 <= |l| && 25 <= |l| && l[..17] == "useradd -M -N -g "
    requires OccursAt(l, " pu_", b) && forall j :: b < j <= |l| - 4 ==> !OccursAt(l, " pu_", j)
    requires OccursAt(l, " -G ", a) && forall j :: a < j <= b - 4 ==> !OccursAt(l, " -G ", j)
    ensures MatchUserGroups(l) == Some((l[17..a], l[a + 4..b], l[b + 4..]))
  {
    LastAtIs(l, " pu_", 21, |l| - 4, b);
    LastAtIs(l, " -G ", 17, b - 4, a);
    UserGroupsFound(l, a, b);
  }

  lemma UserGroupsFound(l: string, a: nat, b: nat)
    requires StartsWith(l, "useradd -M -N -g ") && |l| >= 25
    requires LastAt(l, " pu_", 21, |l| - 4) == Some(b) && LastAt(l, " -G ", 17, b - 4) == Some(a)
    ensures MatchUserGroups(l) == Some((l[17..a], l[a + 4..b], l[b + 4..]))
  {
    var r := MatchUserGroups(l);
    assert r.Some? && r.value == (l[17..a], l[a + 4..b], l[b + 4..]);
  }

  // ----- Which lines each pattern skips -----

  /** A line none of the patterns of pmjq_viz can match: it starts no mkdir, useradd or chown */
  predicate Inert(l: string)
  {
    !StartsWith(l, "mkdir ") && !StartsWith(l, "useradd ") && !StartsWith(l, "chown ")
  }

  lemma InertMatchesNothing(l: string)
    requires Inert(l)
    ensures MatchMkdir(l).None? && MatchUserAdd(l).None? && PlaceTransEdge(l).None?
    ensures UserGroupsOf(l).None? && MatchChown(l).None?
  {
    LongerPrefixes(l);
  }

  lemma LongerPrefixes(l: string)
    ensures StartsWith(l, "useradd -M -N -g ") ==> StartsWith(l, "useradd ")
    ensures StartsWith(l, "chown pu_") ==> StartsWith(l, "chown ")
  {
    if StartsWith(l, "useradd -M -N -g ") {
      assert l[..8] == l[..17][..8];
    }
    if StartsWith(l, "chown pu_") {
      assert l[..6] == l[..9][..6];
    }
  }

  /** A line that starts with a word other than mkdir, useradd and chown is inert. */
  lemma InertLine(l: string, p: string)
    requires StartsWith(l, p) && |p| >= 6
    requires p[0] != 'm' || p[1] != 'k'
    requires p[0] != 'u' || p[4] != 'a'
    requires p[0] != 'c' || p[3] != 'w'
    ensures Inert(l)
  {
    assert l[0] == p[0] && l[1] == p[1] && l[3] == p[3] && l[4] == p[4];
  }

  /** A line that does not start with `u` is no useradd line. */
  lemma NoUserAdd(l: string)
    requires |l| > 0 && l[0] != 'u'
    ensures MatchUserAdd(l).None? && UserGroupsOf(l).None?
  {
  }

  /** A useradd line holds no place and no chown. */
  lemma UserAddOnly(l: string)
    requires StartsWith(l, "useradd ")
    ensures MatchMkdir(l).None? && PlaceTransEdge(l).None? && MatchChown(l).None?
  {
    assert l[0] == 'u';
  }

  // ----- Collecting matches section by section -----

  /** The match of one line, as the list comprehension keeps it */
  function Found<T>(o: Option<T>): (r: seq<T>)
    ensures |r| <= 1 && (o.Some? ==> r == [o.value]) && (o.None? ==> r == [])
  {
    if o.Some? then [o.value] else []
  }

  lemma {:induction false} CollectAppend<T>(f: string -> Option<T>, a: seq<string>, b: seq<string>)
    ensures Collect(f, a + b) == Collect(f, a) + Collect(f, b)
  {
    if |a| == 0 {
      assert a + b == b;
    } else {
      assert (a + b)[1..] == a[1..] + b;
      assert (a + b)[0] == a[0];
      CollectAppend(f, a[1..], b);
    }
  }

  lemma {:induction false} CollectNone<T>(f: string -> Option<T>, a: seq<string>)
    requires forall l :: l in a ==> f(l).None?
    ensures Collect(f, a) == []
  {
    if |a| > 0 {
      assert a[0] in a;
      assert forall l :: l in a[1..] ==> l in a;
      CollectNone(f, a[1..]);
    }
  }

  lemma CollectFour<T>(f: string -> Option<T>, a: string, b: string, c: string, e: string)
    ensures Collect(f, [a, b, c, e]) == Found(f(a)) + (Found(f(b)) + (Found(f(c)) + Found(f(e))))
  {
    assert Collect(f, [e]) == Found(f(e)) by {
      assert [e][1..] == [];
    }
    assert Collect(f, [c, e]) == Found(f(c)) + Collect(f, [e]) by {
      assert [c, e][1..] == [e];
    }
    assert Collect(f, [b, c, e]) == Found(f(b)) + Collect(f, [c, e]) by {
      assert [b, c, e][1..] == [c, e];
    }
    assert [a, b, c, e][1..] == [b, c, e];
  }

  // ----- The mkdir section -----

  /** The edge from each directory some invocation reads to that invocation, in directory order */
  function ReadEdges(invs: set<Invocation>, digest: Digest, dirs: seq<string>): seq<string>
    requires ReadsOnce(invs)
  {
    if |dirs| == 0 then []
    else
      var d := dirs[0];
      (if d in InputDirs(invs) then [Edge(d, InvocationName(invs, Reader(invs, d), digest))] else [])
      + ReadEdges(invs, digest, dirs[1..])
  }

  /** The owner, the group without `pg_` and the directory of each chown line, in directory order */
  function ChownTriples(invs: set<Invocation>, digest: Digest, dirs: seq<string>): (r: seq<(string, string, string)>)
    requires ReadsOnce(invs) && forall d :: d in dirs ==> d in Dirs(invs)
    ensures |r| == |dirs| && forall k :: 0 <= k < |dirs| ==>
              r[k] == (Owner(invs, dirs[k], digest), Drop(DirGroups(invs, digest)[dirs[k]], 3), dirs[k])
  {
    if |dirs| == 0 then []
    else
      var d := dirs[0];
      [(Owner(invs, d, digest), Drop(DirGroups(invs, digest)[d], 3), d)] + ChownTriples(invs, digest, dirs[1..])
  }

  /** The lines a directory block adds to setup.sh are read back one by one. */
  lemma BlockRead(invs: set<Invocation>, digest: Digest, d: string)
    requires ReadsOnce(invs) && PlainNet(invs, digest) && d in Dirs(invs)
    ensures var ls := MkdirLines(invs, digest, [d]);
            && Collect(MatchMkdir, ls) == [d]
            && Collect(PlaceTransEdge, ls) == ReadEdges(invs, digest, [d])
            && Collect(MatchChown, ls) == ChownTriples(invs, digest, [d])
            && Collect(MatchUserAdd, ls) == [] && Collect(UserGroupsOf, ls) == []
  {
    var owner := Owner(invs, d, digest);
    var group := DirGroups(invs, digest)[d];
    var o := "chown " + owner + ":" + group + " " + d;
    OneBlock(invs, digest, d);
    GroupPlain(invs, digest, d);
    assert PlainName(d);
    DirBlockRead(d, owner, group);
    if d in InputDirs(invs) {
      OwnerChownRead(InvocationName(invs, Reader(invs, d), digest), group, d);
    } else {
      WhoamiChownRead(group, d);
    }
  }

  lemma OneBlock(invs: set<Invocation>, digest: Digest, d: string)
    requires ReadsOnce(invs) && d in Dirs(invs)
    ensures var owner := Owner(invs, d, digest);
            var group := DirGroups(invs, digest)[d];
            && MkdirLines(invs, digest, [d]) == ["mkdir " + d, "chmod 510 " + d, "chown " + owner + ":" + group + " " + d, ""]
            && ChownTriples(invs, digest, [d]) == [(owner, Drop(group, 3), d)]
            && ReadEdges(invs, digest, [d])
               == if d in InputDirs(invs) then [Edge(d, InvocationName(invs, Reader(invs, d), digest))] else []
  {
    assert [d][1..] == [];
  }

  /** A directory block, line by line, as the patterns of pmjq_viz read it */
  lemma DirBlockRead(d: string, owner: string, group: string)
    requires StartsWith(group, "pg_") && forall c :: c in group ==> !IsSpace(c) && c != ':'
    requires forall c :: c in d ==> c != ':'
    ensures var ls := ["mkdir " + d, "chmod 510 " + d, "chown " + owner + ":" + group + " " + d, ""];
            && Collect(MatchMkdir, ls) == [d]
            && Collect(PlaceTransEdge, ls) == Found(PlaceTransEdge("chown " + owner + ":" + group + " " + d))
            && Collect(MatchChown, ls) == [(owner, group[3..], d)]
            && Collect(MatchUserAdd, ls) == [] && Collect(UserGroupsOf, ls) == []
  {
    var m := "mkdir " + d;
    var c := "chmod 510 " + d;
    var o := "chown " + owner + ":" + group + " " + d;
    MkdirLineRead(d);
    ChmodLineRead(d);
    ChownLineRead(owner, group, d);
    assert Inert("");
    InertMatchesNothing("");
    CollectFour(MatchMkdir, m, c, o, "");
    CollectFour(PlaceTransEdge, m, c, o, "");
    CollectFour(MatchChown, m, c, o, "");
    CollectFour(MatchUserAdd, m, c, o, "");
    CollectFour(UserGroupsOf, m, c, o, "");
  }

  lemma MkdirLineRead(d: string)
    ensures var m := "mkdir " + d;
            MatchMkdir(m) == Some(d) && PlaceTransEdge(m).None? && MatchChown(m).None?
            && MatchUserAdd(m).None? && UserGroupsOf(m).None?
  {
    var m := "mkdir " + d;
    assert m[6..] == d;
    assert m[0] == 'm';
    NoUserAdd(m);
  }

  lemma ChmodLineRead(d: string)
    ensures var c := "chmod 510 " + d;
            MatchMkdir(c).None? && PlaceTransEdge(c).None? && MatchChown(c).None?
            && MatchUserAdd(c).None? && UserGroupsOf(c).None?
  {
    var c := "chmod 510 " + d;
    assert c[..10] == "chmod 510 ";
    InertLine(c, "chmod 510 ");
    InertMatchesNothing(c);
  }

  lemma ChownLineRead(owner: string, group: string, d: string)
    requires StartsWith(group, "pg_") && forall c :: c in group ==> !IsSpace(c) && c != ':'
    requires forall c :: c in d ==> c != ':'
    ensures var o := "chown " + owner + ":" + group + " " + d;
            MatchMkdir(o).None? && MatchChown(o) == Some((owner, group[3..], d))
            && MatchUserAdd(o).None? && UserGroupsOf(o).None?
  {
    var o := "chown " + owner + ":" + group + " " + d;
    assert o[0] == 'c';
    NoUserAdd(o);
    ChownRead(owner, group, d);
  }

  lemma MkdirLinesCons(invs: set<Invocation>, digest: Digest, dirs: seq<string>)
    requires ReadsOnce(invs) && |dirs| > 0 && forall d :: d in dirs ==> d in Dirs(invs)
    ensures MkdirLines(invs, digest, dirs) == MkdirLines(invs, digest, [dirs[0]]) + MkdirLines(invs, digest, dirs[1..])
    ensures ReadEdges(invs, digest, dirs) == ReadEdges(invs, digest, [dirs[0]]) + ReadEdges(invs, digest, dirs[1..])
    ensures ChownTriples(invs, digest, dirs) == ChownTriples(invs, digest, [dirs[0]]) + ChownTriples(invs, digest, dirs[1..])
  {
    OneBlock(invs, digest, dirs[0]);
  }

  /** The places read back from the mkdir section are its directories, in order. */
  lemma {:induction false} MkdirSectionPlaces(invs: set<Invocation>, digest: Digest, dirs: seq<string>)
    requires ReadsOnce(invs) && PlainNet(invs, digest) && forall d :: d in dirs ==> d in Dirs(invs)
    ensures Collect(MatchMkdir, MkdirLines(invs, digest, dirs)) == dirs
  {
    if |dirs| > 0 {
      MkdirLinesCons(invs, digest, dirs);
      BlockRead(invs, digest, dirs[0]);
      MkdirSectionPlaces(invs, digest, dirs[1..]);
      CollectAppend(MatchMkdir, MkdirLines(invs, digest, [dirs[0]]), MkdirLines(invs, digest, dirs[1..]));
    }
  }

  /** The place-to-transition edges read back from the mkdir section are those of the read directories. */
  lemma {:induction false} MkdirSectionReadEdges(invs: set<Invocation>, digest: Digest, dirs: seq<string>)
    requires ReadsOnce(invs) && PlainNet(invs, digest) && forall d :: d in dirs ==> d in Dirs(invs)
    ensures Collect(PlaceTransEdge, MkdirLines(invs, digest, dirs)) == ReadEdges(invs, digest, dirs)
  {
    if |dirs| > 0 {
      MkdirLinesCons(invs, digest, dirs);
      BlockRead(invs, digest, dirs[0]);
      MkdirSectionReadEdges(invs, digest, dirs[1..]);
      CollectAppend(PlaceTransEdge, MkdirLines(invs, digest, [dirs[0]]), MkdirLines(invs, digest, dirs[1..]));
    }
  }

  /** Every chown line of the mkdir section is read back with its owner, group and directory. */
  lemma {:induction false} MkdirSectionChowns(invs: set<Invocation>, digest: Digest, dirs: seq<string>)
    requires ReadsOnce(invs) && PlainNet(invs, digest) && forall d :: d in dirs ==> d in Dirs(invs)
    ensures Collect(MatchChown, MkdirLines(invs, digest, dirs)) == ChownTriples(invs, digest, dirs)
  {
    if |dirs| > 0 {
      MkdirLinesCons(invs, digest, dirs);
      BlockRead(invs, digest, dirs[0]);
      MkdirSectionChowns(invs, digest, dirs[1..]);
      CollectAppend(MatchChown, MkdirLines(invs, digest, [dirs[0]]), MkdirLines(invs, digest, dirs[1..]));
    }
  }

  /** The mkdir section holds no useradd line. */
  lemma {:induction false} MkdirSectionNoUsers(invs: set<Invocation>, digest: Digest, dirs: seq<string>)
    requires ReadsOnce(invs) && PlainNet(invs, digest) && forall d :: d in dirs ==> d in Dirs(invs)
    ensures Collect(MatchUserAdd, MkdirLines(invs, digest, dirs)) == []
    ensures Collect(UserGroupsOf, MkdirLines(invs, digest, dirs)) == []
  {
    if |dirs| > 0 {
      MkdirLinesCons(invs, digest, dirs);
      BlockRead(invs, digest, dirs[0]);
      MkdirSectionNoUsers(invs, digest, dirs[1..]);
      CollectAppend(MatchUserAdd, MkdirLines(invs, digest, [dirs[0]]), MkdirLines(invs, digest, dirs[1..]));
      CollectAppend(UserGroupsOf, MkdirLines(invs, digest, [dirs[0]]), MkdirLines(invs, digest, dirs[1..]));
    }
  }

  // ----- The useradd section -----

  /** The names of the invocations */
  function Names(invs: set<Invocation>, digest: Digest): set<string>
  {
    set i | i in invs :: InvocationName(invs, i, digest)
  }

  /** A user's groups as pmjq_viz reads them back: each without `pg_`, the primary one first */
  function StripGroups(gs: seq<string>): seq<string>
    requires |gs| > 0
  {
    [Drop(gs[0], 3)] + DropEach(Split(Join(",", gs[1..]), ','))
  }

  /** A list of groups as setup.sh writes them: not empty, each `pg_` and a plain name */
  predicate PlainGroups(gs: seq<string>)
  {
    |gs| > 0 && forall g :: g in gs ==> PlainName(g) && StartsWith(g, "pg_")
  }

  /** The user of each name, with the groups read back from its useradd line */
  function ParsedUsers(u2g: map<string, seq<string>>, ns: seq<string>): (r: seq<(string, seq<string>)>)
    requires forall n :: n in ns ==> "pu_" + n in u2g && |u2g["pu_" + n]| > 0
    ensures |r| == |ns| && forall k :: 0 <= k < |ns| ==> r[k] == (ns[k], StripGroups(u2g["pu_" + ns[k]]))
  {
    if |ns| == 0 then [] else [(ns[0], StripGroups(u2g["pu_" + ns[0]]))] + ParsedUsers(u2g, ns[1..])
  }

  lemma PlainNoSpace(s: string)
    requires PlainName(s)
    ensures ' ' !in s && ',' !in s && ':' !in s
    ensures forall c :: c in s ==> !IsSpace(c) && c != ':'
  {
  }

  /** A useradd line as the patterns of pmjq_viz read it */
  lemma UserAddLineRead(n: string, gs: seq<string>)
    requires PlainName(n) && PlainGroups(gs)
    ensures var l := UserAddLine("pu_" + n, gs);
            && MatchUserAdd(l) == Some(n) && UserGroupsOf(l) == Some((n, StripGroups(gs)))
            && MatchMkdir(l).None? && PlaceTransEdge(l).None? && MatchChown(l).None?
  {
    var others := Join(",", gs[1..]);
    var l := UserAddLine("pu_" + n, gs);
    UserAddPieces(gs[0], others, n);
    PlainNoSpace(n);
    forall g | g in gs[1..] ensures ' ' !in g {
      PlainNoSpace(g);
    }
    JoinAvoids(",", gs[1..], ' ');
    if |gs[1..]| > 0 {
      assert gs[1..][0] in gs;
      JoinHead(",", gs[1..]);
      assert others[0] == gs[1..][0][0] == 'p';
    }
    UserAddRead(l, gs[0], others, n);
    UserGroupsRead(l, gs[0], others, n);
    LongerPrefixes(l);
    UserAddOnly(l);
  }

  /** Every name is a plain name whose user has its groups written the way setup.sh writes them */
  predicate KnownUsers(u2g: map<string, seq<string>>, ns: seq<string>)
  {
    forall n :: n in ns ==> PlainName(n) && "pu_" + n in u2g && PlainGroups(u2g["pu_" + n])
  }

  lemma PrefixedKnown(u2g: map<string, seq<string>>, ns: seq<string>)
    requires KnownUsers(u2g, ns)
    ensures forall u :: u in Prefixed("pu_", ns) ==> u in u2g && |u2g[u]| > 0
  {
    forall u | u in Prefixed("pu_", ns) ensures u in u2g && |u2g[u]| > 0 {
      var k :| 0 <= k < |ns| && Prefixed("pu_", ns)[k] == u;
      assert ns[k] in ns;
    }
  }

  lemma UserAddLinesCons(u2g: map<string, seq<string>>, ns: seq<string>)
    requires KnownUsers(u2g, ns) && |ns| > 0
    ensures PlainName(ns[0]) && "pu_" + ns[0] in u2g && PlainGroups(u2g["pu_" + ns[0]])
    ensures KnownUsers(u2g, ns[1..])
    ensures forall u :: u in Prefixed("pu_", ns) ==> u in u2g && |u2g[u]| > 0
    ensures forall u :: u in Prefixed("pu_", ns[1..]) ==> u in u2g && |u2g[u]| > 0
    ensures UserAddLines(u2g, Prefixed("pu_", ns))
         == [UserAddLine("pu_" + ns[0], u2g["pu_" + ns[0]])] + UserAddLines(u2g, Prefixed("pu_", ns[1..]))
  {
    assert ns[0] in ns;
    assert forall n :: n in ns[1..] ==> n in ns;
    PrefixedKnown(u2g, ns);
    PrefixedKnown(u2g, ns[1..]);
    assert Prefixed("pu_", ns)[1..] == Prefixed("pu_", ns[1..]);
  }

  /** The transitions read back from the useradd section are the users' names, in order. */
  lemma {:induction false} UserAddSectionNames(u2g: map<string, seq<string>>, ns: seq<string>)
    requires KnownUsers(u2g, ns)
    ensures forall u :: u in Prefixed("pu_", ns) ==> u in u2g && |u2g[u]| > 0
    ensures Collect(MatchUserAdd, UserAddLines(u2g, Prefixed("pu_", ns))) == ns
  {
    PrefixedKnown(u2g, ns);
    if |ns| > 0 {
      UserAddLinesCons(u2g, ns);
      UserAddLineRead(ns[0], u2g["pu_" + ns[0]]);
      UserAddSectionNames(u2g, ns[1..]);
    }
  }

  /** The useradd section is read back as each user's name and groups, in order. */
  lemma {:induction false} UserAddSectionGroups(u2g: map<string, seq<string>>, ns: seq<string>)
    requires KnownUsers(u2g, ns)
    ensures forall u :: u in Prefixed("pu_", ns) ==> u in u2g && |u2g[u]| > 0
    ensures Collect(UserGroupsOf, UserAddLines(u2g, Prefixed("pu_", ns))) == ParsedUsers(u2g, ns)
  {
    PrefixedKnown(u2g, ns);
    if |ns| > 0 {
      UserAddLinesCons(u2g, ns);
      UserAddLineRead(ns[0], u2g["pu_" + ns[0]]);
      UserAddSectionGroups(u2g, ns[1..]);
    }
  }

  /** The useradd section holds no place and no chown. */
  lemma {:induction false} UserAddSectionNoDirs(u2g: map<string, seq<string>>, ns: seq<string>)
    requires KnownUsers(u2g, ns)
    ensures forall u :: u in Prefixed("pu_", ns) ==> u in u2g && |u2g[u]| > 0
    ensures var ls := UserAddLines(u2g, Prefixed("pu_", ns));
            Collect(MatchMkdir, ls) == [] && Collect(PlaceTransEdge, ls) == [] && Collect(MatchChown, ls) == []
  {
    PrefixedKnown(u2g, ns);
    if |ns| > 0 {
      UserAddLinesCons(u2g, ns);
      UserAddLineRead(ns[0], u2g["pu_" + ns[0]]);
      UserAddSectionNoDirs(u2g, ns[1..]);
    }
  }

  /** setup.sh creates the users in the order of their invocations' names. */
  lemma UsersInOrder(invs: set<Invocation>, digest: Digest)
    requires ReadsOnce(invs) && DistinctNames(invs, digest)
    ensures SetupUsers(invs, digest) == Prefixed("pu_", SortSet(Names(invs, digest)))
  {
    var ns := SortSet(Names(invs, digest));
    var p := Prefixed("pu_", ns);
    var keys := User2Groups(invs, digest).Keys;
    SortSetDistinct(Names(invs, digest));
    PrefixedSortedDistinct("pu_", ns);
    UserKeys(invs, digest);
    DistinctMultiset(p);
    SortedUnique(p, SortSet(keys));
  }

  /** A common prefix keeps a sorted list without repetition sorted and without repetition. */
  lemma PrefixedSortedDistinct(pre: string, ns: seq<string>)
    requires Sorted(ns) && forall j, k :: 0 <= j < k < |ns| ==> ns[j] != ns[k]
    ensures Sorted(Prefixed(pre, ns))
    ensures forall j, k :: 0 <= j < k < |ns| ==> Prefixed(pre, ns)[j] != Prefixed(pre, ns)[k]
  {
    var p := Prefixed(pre, ns);
    forall j, k | 0 <= j < k < |p| ensures Below(p[j], p[k]) {
      BelowPrefix(pre, ns[j], ns[k]);
    }
    forall j, k | 0 <= j < k < |p| ensures p[j] != p[k] {
      assert p[j][|pre|..] == ns[j] && p[k][|pre|..] == ns[k];
    }
  }

  /** The users are the names with `pu_` in front. */
  lemma UserKeys(invs: set<Invocation>, digest: Digest)
    requires ReadsOnce(invs) && DistinctNames(invs, digest)
    ensures (set x | x in Prefixed("pu_", SortSet(Names(invs, digest)))) == User2Groups(invs, digest).Keys
  {
    SortSetMembers(Names(invs, digest));
    PrefixedSet("pu_", SortSet(Names(invs, digest)), Names(invs, digest));
    NamesOfUsers(invs, digest);
  }

  /** Prefixing every element of a list that holds exactly the set `s` prefixes every element of `s`. */
  lemma PrefixedSet(p: string, ns: seq<string>, s: set<string>)
    requires forall x :: x in ns <==> x in s
    ensures (set x | x in Prefixed(p, ns)) == set n | n in s :: p + n
  {
    var l := Prefixed(p, ns);
    forall x ensures x in l <==> x in set n | n in s :: p + n {
      if x in l {
        var k :| 0 <= k < |l| && l[k] == x;
        assert ns[k] in s;
      }
      if x in set n | n in s :: p + n {
        var n :| n in s && x == p + n;
        var k :| 0 <= k < |ns| && ns[k] == n;
        assert l[k] == x;
      }
    }
  }

  /** The users are the invocation names with `pu_` in front. */
  lemma NamesOfUsers(invs: set<Invocation>, digest: Digest)
    ensures (set n | n in Names(invs, digest) :: "pu_" + n) == set i | i in invs :: UserName(invs, i, digest)
  {
    var users := set i | i in invs :: UserName(invs, i, digest);
    forall x | x in set n | n in Names(invs, digest) :: "pu_" + n ensures x in users {
      var n :| n in Names(invs, digest) && x == "pu_" + n;
      var i :| i in invs && InvocationName(invs, i, digest) == n;
      assert UserName(invs, i, digest) == x;
    }
  }

  /** Every invocation name is plain and its user's groups are written the way setup.sh writes them. */
  lemma NamesKnown(invs: set<Invocation>, digest: Digest)
    requires HasInputs(invs) && ReadsOnce(invs) && DistinctNames(invs, digest) && PlainNet(invs, digest)
    ensures KnownUsers(User2Groups(invs, digest), SortSet(Names(invs, digest)))
  {
    var u2g := User2Groups(invs, digest);
    var d2g := DirGroups(invs, digest);
    SortSetMembers(Names(invs, digest));
    UserGroupsNonEmpty(invs, digest);
    forall n | n in SortSet(Names(invs, digest))
      ensures PlainName(n) && "pu_" + n in u2g && PlainGroups(u2g["pu_" + n])
    {
      var i :| i in invs && InvocationName(invs, i, digest) == n;
      UserGroupsExact(invs, digest, i);
      assert UserName(invs, i, digest) == "pu_" + n;
      forall g | g in u2g["pu_" + n] ensures PlainName(g) && StartsWith(g, "pg_") {
        var d :| d in i.inputs + i.outputs && d in d2g && g == d2g[d];
        GroupPlain(invs, digest, d);
      }
    }
  }

  // ----- The whole script -----

  /** A pattern that matches no inert line finds in setup.sh only what its useradd and mkdir sections hold. */
  lemma CollectSetupLines<T>(f: string -> Option<T>, invs: set<Invocation>, digest: Digest)
    requires HasInputs(invs) && ReadsOnce(invs) && DistinctNames(invs, digest)
    requires forall l :: Inert(l) ==> f(l).None?
    ensures Collect(f, SetupLines(invs, digest))
         == Collect(f, UserAddSection(invs, digest)) + Collect(f, MkdirSection(invs, digest))
  {
    var ga := GroupAddSection(invs, digest);
    SetupInert(invs, digest);
    assert forall l :: l in ga ==> f(l).None?;
    CollectSkeleton(f, ga, UserMod(invs, digest), UserAddSection(invs, digest), MkdirSection(invs, digest));
  }

  lemma CollectSkeleton<T>(f: string -> Option<T>, ga: seq<string>, um: string, ua: seq<string>, mk: seq<string>)
    requires f(Shebang).None? && f("").None? && f(um).None? && forall l :: l in ga ==> f(l).None?
    ensures Collect(f, [Shebang] + (ga + ([""] + ([um] + ([""] + (ua + ([""] + (mk + [""]))))))))
         == Collect(f, ua) + Collect(f, mk)
  {
    var t7 := mk + [""];
    var t6 := [""] + t7;
    var t5 := ua + t6;
    var t4 := [""] + t5;
    var t3 := [um] + t4;
    var t2 := [""] + t3;
    var t1 := ga + t2;
    CollectNone(f, [Shebang]);
    CollectNone(f, [""]);
    CollectNone(f, [um]);
    CollectNone(f, ga);
    CollectAppend(f, [Shebang], t1);
    CollectAppend(f, ga, t2);
    CollectAppend(f, [""], t3);
    CollectAppend(f, [um], t4);
    CollectAppend(f, [""], t5);
    CollectAppend(f, ua, t6);
    CollectAppend(f, [""], t7);
    CollectAppend(f, mk, [""]);
  }

  /** The shebang, the groupadd lines, the usermod line and the blank lines are inert. */
  lemma SetupInert(invs: set<Invocation>, digest: Digest)
    requires ReadsOnce(invs)
    ensures Inert(Shebang) && Inert("") && Inert(UserMod(invs, digest))
    ensures forall l :: l in GroupAddSection(invs, digest) ==> Inert(l)
  {
    ShebangInert();
    UserModInert(Join(",", SortSeq(GroupList(invs, digest))));
    var ga := GroupAddSection(invs, digest);
    forall l | l in ga ensures Inert(l) {
      var k :| 0 <= k < |ga| && ga[k] == l;
      GroupAddInert(SetupGroups(invs, digest)[k]);
    }
  }

  lemma ShebangInert()
    ensures Inert(Shebang)
  {
    InertLine(Shebang, Shebang);
  }

  lemma UserModInert(groups: string)
    ensures Inert("usermod -a -G " + groups + " `whoami`")
  {
    var l := "usermod -a -G " + groups + " `whoami`";
    assert l[..14] == "usermod -a -G ";
    InertLine(l, "usermod -a -G ");
  }

  lemma GroupAddInert(g: string)
    ensures Inert("groupadd " + g)
  {
    var l := "groupadd " + g;
    assert l[..9] == "groupadd ";
    InertLine(l, "groupadd ");
  }

  /** The useradd section, one line per invocation name in sorted order */
  lemma UserAddSectionIs(invs: set<Invocation>, digest: Digest)
    requires HasInputs(invs) && ReadsOnce(invs) && DistinctNames(invs, digest) && PlainNet(invs, digest)
    ensures KnownUsers(User2Groups(invs, digest), SortSet(Names(invs, digest)))
    ensures forall u :: u in Prefixed("pu_", SortSet(Names(invs, digest))) ==>
              u in User2Groups(invs, digest) && |User2Groups(invs, digest)[u]| > 0
    ensures UserAddSection(invs, digest)
         == UserAddLines(User2Groups(invs, digest), Prefixed("pu_", SortSet(Names(invs, digest))))
  {
    UsersInOrder(invs, digest);
    NamesKnown(invs, digest);
    PrefixedKnown(User2Groups(invs, digest), SortSet(Names(invs, digest)));
  }

  /** `extract_places` of setup.sh: every directory of the network, sorted */
  lemma PlacesOfSetup(invs: set<Invocation>, digest: Digest)
    requires HasInputs(invs) && ReadsOnce(invs) && DistinctNames(invs, digest) && PlainNet(invs, digest)
    ensures ExtractPlaces(SetupLines(invs, digest)) == SetupDirs(invs)
  {
    forall l | Inert(l) ensures MatchMkdir(l).None? {
      InertMatchesNothing(l);
    }
    CollectSetupLines(MatchMkdir, invs, digest);
    UserAddSectionIs(invs, digest);
    UserAddSectionNoDirs(User2Groups(invs, digest), SortSet(Names(invs, digest)));
    MkdirSectionPlaces(invs, digest, SetupDirs(invs));
  }

  /** `extract_transitions` of setup.sh: the name of every invocation, sorted */
  lemma TransitionsOfSetup(invs: set<Invocation>, digest: Digest)
    requires HasInputs(invs) && ReadsOnce(invs) && DistinctNames(invs, digest) && PlainNet(invs, digest)
    ensures ExtractTransitions(SetupLines(invs, digest)) == SortSet(Names(invs, digest))
  {
    forall l | Inert(l) ensures MatchUserAdd(l).None? {
      InertMatchesNothing(l);
    }
    CollectSetupLines(MatchUserAdd, invs, digest);
    UserAddSectionIs(invs, digest);
    UserAddSectionNames(User2Groups(invs, digest), SortSet(Names(invs, digest)));
    MkdirSectionNoUsers(invs, digest, SetupDirs(invs));
  }

  /**
   * `extract_place_trans_edges` of setup.sh: an edge from every directory some invocation reads
   * to that invocation, in directory order; a directory nobody reads has none.
   */
  lemma PlaceTransEdgesOfSetup(invs: set<Invocation>, digest: Digest)
    requires HasInputs(invs) && ReadsOnce(invs) && DistinctNames(invs, digest) && PlainNet(invs, digest)
    ensures ExtractPlaceTransEdges(SetupLines(invs, digest)) == ReadEdges(invs, digest, SetupDirs(invs))
  {
    forall l | Inert(l) ensures PlaceTransEdge(l).None? {
      InertMatchesNothing(l);
    }
    CollectSetupLines(PlaceTransEdge, invs, digest);
    UserAddSectionIs(invs, digest);
    UserAddSectionNoDirs(User2Groups(invs, digest), SortSet(Names(invs, digest)));
    MkdirSectionReadEdges(invs, digest, SetupDirs(invs));
  }

  // ----- Who writes where -----

  /** The names of the invocations that write into `d` without reading it */
  function Writers(invs: set<Invocation>, digest: Digest, d: string): set<string>
  {
    set i | i in invs && d in i.outputs && d !in i.inputs :: InvocationName(invs, i, digest)
  }

  /** Every directory with the invocations that write into it */
  function WriterMap(invs: set<Invocation>, digest: Digest): map<string, set<string>>
  {
    map d | d in Dirs(invs) :: Writers(invs, digest, d)
  }

  /** No two directories share a group. */
  predicate GroupsDistinct(invs: set<Invocation>, digest: Digest)
    requires ReadsOnce(invs)
  {
    forall d, e :: d in Dirs(invs) && e in Dirs(invs) && DirGroups(invs, digest)[d] == DirGroups(invs, digest)[e] ==> d == e
  }

  lemma DropPrefix(g: string, x: string)
    requires StartsWith(g, "pg_")
    ensures Drop(g, 3) == x <==> g == "pg_" + x
  {
    assert g == g[..3] + g[3..];
    assert ("pg_" + x)[3..] == x;
  }

  /** A group is read back from a useradd line exactly when the user belongs to it. */
  lemma StripGroupsMembers(gs: seq<string>, x: string)
    requires PlainGroups(gs) && x != ""
    ensures x in StripGroups(gs) <==> "pg_" + x in gs
  {
    var pieces := Split(Join(",", gs[1..]), ',');
    OtherGroupsRead(gs);
    assert gs[0] in gs;
    DropPrefix(gs[0], x);
    DropEachMembers(pieces, x);
    assert "pg_" + x in gs <==> "pg_" + x == gs[0] || "pg_" + x in gs[1..] by {
      assert gs == [gs[0]] + gs[1..];
    }
  }

  /** `','.join(others).split(',')` gives the other groups back, or one empty string when there are none. */
  lemma OtherGroupsRead(gs: seq<string>)
    requires PlainGroups(gs)
    ensures var pieces := Split(Join(",", gs[1..]), ',');
            (|gs| > 1 ==> pieces == gs[1..]) && (|gs| == 1 ==> pieces == [""])
            && forall p :: p in pieces ==> p == "" || StartsWith(p, "pg_")
  {
    var rest := gs[1..];
    if |rest| > 0 {
      forall k | 0 <= k < |rest| ensures ',' !in rest[k] {
        assert rest[k] in gs;
        PlainNoSpace(rest[k]);
      }
      SplitJoin(rest, ',');
      assert forall p :: p in rest ==> p in gs;
    } else {
      assert Split(Join(",", rest), ',') == [""];
    }
  }

  lemma DropEachMembers(pieces: seq<string>, x: string)
    requires forall p :: p in pieces ==> p == "" || StartsWith(p, "pg_")
    requires x != ""
    ensures x in DropEach(pieces) <==> "pg_" + x in pieces
  {
    var stripped := DropEach(pieces);
    if x in stripped {
      var k :| 0 <= k < |stripped| && stripped[k] == x;
      assert pieces[k] in pieces;
      DropPrefix(pieces[k], x);
    }
    if "pg_" + x in pieces {
      var k :| 0 <= k < |pieces| && pieces[k] == "pg_" + x;
      DropPrefix(pieces[k], x);
      assert stripped[k] == x;
    }
  }

  /** The names of the invocations that read or write `d` */
  function Touching(invs: set<Invocation>, digest: Digest, d: string): set<string>
  {
    set i | i in invs && d in i.inputs + i.outputs :: InvocationName(invs, i, digest)
  }

  /** Each key of `keys`, in order, with its value in `m` */
  function PairsOf<V>(keys: seq<string>, m: map<string, V>): seq<(string, V)>
    requires forall d :: d in keys ==> d in m
  {
    seq(|keys|, k requires 0 <= k < |keys| => (keys[k], m[keys[k]]))
  }

  /** Every group of an invocation's user is a plain `pg_` name. */
  lemma OwnGroupsPlain(invs: set<Invocation>, digest: Digest, i: Invocation)
    requires HasInputs(invs) && ReadsOnce(invs) && PlainNet(invs, digest) && i in invs
    ensures PlainGroups(OwnGroups(invs, i, digest))
  {
    var d2g := DirGroups(invs, digest);
    var dirs := i.inputs + i.outputs;
    DirsOf(invs, i);
    GroupsOfExact(d2g, dirs);
    forall g | g in OwnGroups(invs, i, digest) ensures PlainName(g) && StartsWith(g, "pg_") {
      var d :| d in dirs && d in d2g && g == d2g[d];
      GroupPlain(invs, digest, d);
    }
  }

  /** The users and their groups read back from setup.sh: every invocation's name, sorted, with its groups */
  lemma UserGroupsOfSetup(invs: set<Invocation>, digest: Digest)
    requires HasInputs(invs) && ReadsOnce(invs) && DistinctNames(invs, digest) && PlainNet(invs, digest)
    ensures KnownUsers(User2Groups(invs, digest), SortSet(Names(invs, digest)))
    ensures Collect(UserGroupsOf, SetupLines(invs, digest))
         == ParsedUsers(User2Groups(invs, digest), SortSet(Names(invs, digest)))
  {
    forall l | Inert(l) ensures UserGroupsOf(l).None? {
      InertMatchesNothing(l);
    }
    CollectSetupLines(UserGroupsOf, invs, digest);
    UserAddSectionIs(invs, digest);
    UserAddSectionGroups(User2Groups(invs, digest), SortSet(Names(invs, digest)));
    MkdirSectionNoUsers(invs, digest, SetupDirs(invs));
  }

  /** The chown lines read back from setup.sh: owner, group and directory of every directory, sorted */
  lemma ChownsOfSetup(invs: set<Invocation>, digest: Digest)
    requires HasInputs(invs) && ReadsOnce(invs) && DistinctNames(invs, digest) && PlainNet(invs, digest)
    ensures Collect(MatchChown, SetupLines(invs, digest)) == ChownTriples(invs, digest, SetupDirs(invs))
  {
    forall l | Inert(l) ensures MatchChown(l).None? {
      InertMatchesNothing(l);
    }
    CollectSetupLines(MatchChown, invs, digest);
    UserAddSectionIs(invs, digest);
    UserAddSectionNoDirs(User2Groups(invs, digest), SortSet(Names(invs, digest)));
    MkdirSectionChowns(invs, digest, SetupDirs(invs));
  }

  /** `dict` of pairs whose keys differ keeps every pair. */
  lemma DictOfDistinct<V>(pairs: seq<(string, V)>)
    requires forall j, q :: 0 <= j < q < |pairs| ==> pairs[j].0 != pairs[q].0
    ensures forall j :: 0 <= j < |pairs| ==> pairs[j].0 in DictOf(pairs) && DictOf(pairs)[pairs[j].0] == pairs[j].1
  {
  }

  /** The map of parsed users has one entry per name, holding the groups read back for it. */
  lemma ParsedDict(u2g: map<string, seq<string>>, ns: seq<string>)
    requires KnownUsers(u2g, ns) && forall j, q :: 0 <= j < q < |ns| ==> ns[j] != ns[q]
    ensures var pu2g := DictOf(ParsedUsers(u2g, ns));
            && pu2g.Keys == Elems(ns)
            && forall k :: 0 <= k < |ns| ==> pu2g[ns[k]] == StripGroups(u2g["pu_" + ns[k]])
  {
    var parsed := ParsedUsers(u2g, ns);
    DictOfDistinct(parsed);
    KeysOfPairs(parsed, ns);
  }

  /** The keys of `dict(pairs)` are the first components of the pairs. */
  lemma KeysOfPairs<V>(pairs: seq<(string, V)>, ns: seq<string>)
    requires |pairs| == |ns| && forall k :: 0 <= k < |ns| ==> pairs[k].0 == ns[k]
    ensures DictOf(pairs).Keys == Elems(ns)
  {
    forall n ensures n in DictOf(pairs) <==> n in Elems(ns) {
      if n in ns {
        var j :| 0 <= j < |ns| && ns[j] == n;
        assert pairs[j].0 == n;
      }
    }
  }

  /**
   * `user2groups` as pmjq_viz rebuilds it: one entry per invocation name, holding the groups of
   * that invocation's user with `pg_` dropped.
   */
  lemma ParsedMap(invs: set<Invocation>, digest: Digest)
    requires HasInputs(invs) && ReadsOnce(invs) && DistinctNames(invs, digest) && PlainNet(invs, digest)
    ensures KnownUsers(User2Groups(invs, digest), SortSet(Names(invs, digest)))
    ensures var pu2g := DictOf(ParsedUsers(User2Groups(invs, digest), SortSet(Names(invs, digest))));
            && pu2g.Keys == Names(invs, digest)
            && forall i :: i in invs ==> (PlainGroups(OwnGroups(invs, i, digest))
                 && pu2g[InvocationName(invs, i, digest)] == StripGroups(OwnGroups(invs, i, digest)))
  {
    ParsedKeys(invs, digest);
    forall i | i in invs
      ensures PlainGroups(OwnGroups(invs, i, digest))
      ensures DictOf(ParsedUsers(User2Groups(invs, digest), SortSet(Names(invs, digest))))[InvocationName(invs, i, digest)]
           == StripGroups(OwnGroups(invs, i, digest))
    {
      ParsedEntry(invs, digest, i);
    }
  }

  lemma ParsedKeys(invs: set<Invocation>, digest: Digest)
    requires HasInputs(invs) && ReadsOnce(invs) && DistinctNames(invs, digest) && PlainNet(invs, digest)
    ensures KnownUsers(User2Groups(invs, digest), SortSet(Names(invs, digest)))
    ensures DictOf(ParsedUsers(User2Groups(invs, digest), SortSet(Names(invs, digest)))).Keys == Names(invs, digest)
  {
    NamesKnown(invs, digest);
    SortSetDistinct(Names(invs, digest));
    ParsedDict(User2Groups(invs, digest), SortSet(Names(invs, digest)));
    ElemsOfSortSet(Names(invs, digest));
  }

  lemma ElemsOfSortSet(s: set<string>)
    ensures Elems(SortSet(s)) == s
  {
    SortSetMembers(s);
  }

  lemma ParsedEntry(invs: set<Invocation>, digest: Digest, i: Invocation)
    requires HasInputs(invs) && ReadsOnce(invs) && DistinctNames(invs, digest) && PlainNet(invs, digest)
    requires i in invs
    ensures KnownUsers(User2Groups(invs, digest), SortSet(Names(invs, digest)))
    ensures PlainGroups(OwnGroups(invs, i, digest))
    ensures var pu2g := DictOf(ParsedUsers(User2Groups(invs, digest), SortSet(Names(invs, digest))));
            InvocationName(invs, i, digest) in pu2g && pu2g[InvocationName(invs, i, digest)] == StripGroups(OwnGroups(invs, i, digest))
  {
    var ns := SortSet(Names(invs, digest));
    var u2g := User2Groups(invs, digest);
    NamesKnown(invs, digest);
    SortSetMembers(Names(invs, digest));
    SortSetDistinct(Names(invs, digest));
    ParsedDict(u2g, ns);
    OwnGroupsPlain(invs, digest, i);
    var n := InvocationName(invs, i, digest);
    assert n in ns;
    var k :| 0 <= k < |ns| && ns[k] == n;
    UserGroupsAt(invs, digest, i);
    assert UserName(invs, i, digest) == "pu_" + n;
  }

  /**
   * With groups told apart, the group of `d` is read back among an invocation's groups exactly
   * when the invocation reads or writes `d`.
   */
  lemma DirGroupRead(invs: set<Invocation>, digest: Digest, i: Invocation, d: string)
    requires HasInputs(invs) && ReadsOnce(invs) && PlainNet(invs, digest) && GroupsDistinct(invs, digest)
    requires i in invs && d in Dirs(invs)
    ensures PlainGroups(OwnGroups(invs, i, digest))
    ensures Drop(DirGroups(invs, digest)[d], 3) in StripGroups(OwnGroups(invs, i, digest)) <==> d in i.inputs + i.outputs
  {
    var d2g := DirGroups(invs, digest);
    var g := d2g[d];
    var gs := OwnGroups(invs, i, digest);
    OwnGroupsPlain(invs, digest, i);
    GroupPlain(invs, digest, d);
    var x := Drop(g, 3);
    DropPrefix(g, x);
    StripGroupsMembers(gs, x);
    DirsOf(invs, i);
    GroupsOfExact(d2g, i.inputs + i.outputs);
  }

  /** A group's users in `group2users` are the users whose group lists hold it. */
  lemma GroupUsersOf(pu2g: map<string, seq<string>>, x: string, users: set<string>)
    requires users != {} && forall u :: u in pu2g ==> (x in pu2g[u] <==> u in users)
    requires forall u :: u in users ==> u in pu2g
    ensures x in GroupUsers(pu2g) && GroupUsers(pu2g)[x] == users
  {
    var u :| u in users;
    assert u in pu2g && x in pu2g[u];
  }

  /** `group2users` as pmjq_viz rebuilds it: the group of `d` holds the invocations that touch `d`. */
  lemma GroupMembers(invs: set<Invocation>, digest: Digest, pu2g: map<string, seq<string>>, d: string)
    requires HasInputs(invs) && ReadsOnce(invs) && DistinctNames(invs, digest) && PlainNet(invs, digest)
    requires GroupsDistinct(invs, digest)
    requires d in Dirs(invs) && pu2g.Keys == Names(invs, digest)
    requires forall i :: i in invs ==> (PlainGroups(OwnGroups(invs, i, digest))
               && pu2g[InvocationName(invs, i, digest)] == StripGroups(OwnGroups(invs, i, digest)))
    ensures var x := Drop(DirGroups(invs, digest)[d], 3);
            x in GroupUsers(pu2g) && GroupUsers(pu2g)[x] == Touching(invs, digest, d)
  {
    var x := Drop(DirGroups(invs, digest)[d], 3);
    var touching := Touching(invs, digest, d);
    forall u | u in pu2g ensures x in pu2g[u] <==> u in touching {
      var j :| j in invs && InvocationName(invs, j, digest) == u;
      DirGroupRead(invs, digest, j, d);
    }
    var i :| i in invs && d in i.inputs + i.outputs;
    assert InvocationName(invs, i, digest) in touching;
    GroupUsersOf(pu2g, x, touching);
  }

  /**
   * The users pmjq_viz keeps for a directory are those of its group other than the owner and
   * `whoami`: the invocations that write into it without reading it.
   */
  lemma WritersRead(invs: set<Invocation>, digest: Digest, d: string)
    requires ReadsOnce(invs) && DistinctNames(invs, digest) && PlainNet(invs, digest) && d in Dirs(invs)
    ensures (set u | u in Touching(invs, digest, d) && u != Drop(Owner(invs, d, digest), 3) && u != "`whoami`")
         == Writers(invs, digest, d)
  {
    var owner := Drop(Owner(invs, d, digest), 3);
    WhoamiNotPlain();
    if d in InputDirs(invs) {
      var r := Reader(invs, d);
      assert owner == InvocationName(invs, r, digest) by {
        assert ("pu_" + InvocationName(invs, r, digest))[3..] == InvocationName(invs, r, digest);
      }
    }
    forall u ensures u in Touching(invs, digest, d) && u != owner && u != "`whoami`" <==> u in Writers(invs, digest, d) {
      if u in Touching(invs, digest, d) && u != owner && u != "`whoami`" {
        var i :| i in invs && d in i.inputs + i.outputs && InvocationName(invs, i, digest) == u;
        if d in i.inputs {
          assert d in InputDirs(invs);
          assert Reader(invs, d) == i;
        }
      }
      if u in Writers(invs, digest, d) {
        var i :| i in invs && d in i.outputs && d !in i.inputs && InvocationName(invs, i, digest) == u;
        assert d in i.inputs + i.outputs;
        assert PlainName(u);
      }
    }
  }

  /** Neither `whoami` in backquotes nor what is left of it without three characters is a plain name. */
  lemma WhoamiNotPlain()
    ensures !PlainName("`whoami`") && !PlainName(Drop("`whoami`", 3))
  {
    assert "`whoami`"[0] in "`whoami`";
    var rest := Drop("`whoami`", 3);
    assert rest[4] == '`' && rest[4] in rest;
  }

  /** `dict` of the pairs of a map, keys without repetition, is that map. */
  lemma DictOfPairs<V>(keys: seq<string>, m: map<string, V>)
    requires Elems(keys) == m.Keys && forall j, q :: 0 <= j < q < |keys| ==> keys[j] != keys[q]
    ensures DictOf(PairsOf(keys, m)) == m
  {
    var pairs := PairsOf(keys, m);
    assert forall k :: 0 <= k < |keys| ==> pairs[k].0 == keys[k] && pairs[k].1 == m[keys[k]];
    DictOfDistinct(pairs);
    KeysOfPairs(pairs, keys);
    var dm := DictOf(pairs);
    assert dm.Keys == m.Keys;
    forall d | d in m ensures dm[d] == m[d] {
      var k :| 0 <= k < |keys| && keys[k] == d;
      assert pairs[k].0 == d;
    }
    SameMap(dm, m);
  }

  lemma SameMap<V>(a: map<string, V>, b: map<string, V>)
    requires a.Keys == b.Keys && forall k :: k in b ==> a[k] == b[k]
    ensures a == b
  {
  }

  /** `dir2users` is computed entry by entry: no group is missing, each entry the expected set. */
  lemma DirUsersPairs(g2u: map<string, set<string>>, chowns: seq<(string, string, string)>,
                      keys: seq<string>, m: map<string, set<string>>)
    requires |chowns| == |keys| && forall d :: d in keys ==> d in m
    requires forall k :: 0 <= k < |keys| ==> (chowns[k].2 == keys[k] && chowns[k].1 in g2u
               && (set u | u in g2u[chowns[k].1] && u != Drop(chowns[k].0, 3) && u != "`whoami`") == m[keys[k]])
    ensures DirUsers(g2u, chowns) == Ok(PairsOf(keys, m))
  {
    var r := DirUsers(g2u, chowns);
    assert r.Ok?;
    assert r.value == PairsOf(keys, m);
  }

  /** `dir2users` before it becomes a dict: every directory of setup.sh, sorted, with its writers */
  lemma DirUsersOfSetup(invs: set<Invocation>, digest: Digest, g2u: map<string, set<string>>)
    requires ReadsOnce(invs) && DistinctNames(invs, digest) && PlainNet(invs, digest)
    requires forall d :: d in Dirs(invs) ==> (Drop(DirGroups(invs, digest)[d], 3) in g2u
               && g2u[Drop(DirGroups(invs, digest)[d], 3)] == Touching(invs, digest, d))
    ensures forall d :: d in SetupDirs(invs) ==> d in WriterMap(invs, digest)
    ensures DirUsers(g2u, ChownTriples(invs, digest, SetupDirs(invs)))
         == Ok(PairsOf(SetupDirs(invs), WriterMap(invs, digest)))
  {
    var dirs := SetupDirs(invs);
    var chowns := ChownTriples(invs, digest, dirs);
    var m := WriterMap(invs, digest);
    forall k | 0 <= k < |dirs|
      ensures chowns[k].2 == dirs[k] && chowns[k].1 in g2u
      ensures (set u | u in g2u[chowns[k].1] && u != Drop(chowns[k].0, 3) && u != "`whoami`") == m[dirs[k]]
    {
      assert dirs[k] in dirs;
      WritersRead(invs, digest, dirs[k]);
    }
    DirUsersPairs(g2u, chowns, dirs, m);
  }

  /** `dir2users` maps every directory to the invocations that write into it. */
  lemma WriterDict(invs: set<Invocation>, digest: Digest)
    ensures forall d :: d in SetupDirs(invs) ==> d in WriterMap(invs, digest)
    ensures DictOf(PairsOf(SetupDirs(invs), WriterMap(invs, digest))) == WriterMap(invs, digest)
  {
    SortSetDistinct(Dirs(invs));
    assert Elems(SetupDirs(invs)) == WriterMap(invs, digest).Keys;
    DictOfPairs(SetupDirs(invs), WriterMap(invs, digest));
  }

  /**
   * `extract_trans_place_edges` of setup.sh, when no two directories share a group: an edge into
   * every directory from each invocation that writes into it without reading it, directory by
   * directory, writers sorted.
   */
  lemma TransPlaceEdgesOfSetup(invs: set<Invocation>, digest: Digest)
    requires HasInputs(invs) && ReadsOnce(invs) && DistinctNames(invs, digest) && PlainNet(invs, digest)
    requires GroupsDistinct(invs, digest)
    ensures forall d :: d in SetupDirs(invs) ==> d in WriterMap(invs, digest)
    ensures ExtractTransPlaceEdges(SetupLines(invs, digest)) == Ok(EdgesInto(WriterMap(invs, digest), SetupDirs(invs)))
  {
    var lines := SetupLines(invs, digest);
    ParsedMap(invs, digest);
    UserGroupsOfSetup(invs, digest);
    var pu2g := DictOf(ParsedUsers(User2Groups(invs, digest), SortSet(Names(invs, digest))));
    assert DictOf(Collect(UserGroupsOf, lines)) == pu2g;
    var g2u := GroupUsers(pu2g);
    forall d | d in Dirs(invs)
      ensures Drop(DirGroups(invs, digest)[d], 3) in g2u && g2u[Drop(DirGroups(invs, digest)[d], 3)] == Touching(invs, digest, d)
    {
      GroupMembers(invs, digest, pu2g, d);
    }
    ChownsOfSetup(invs, digest);
    DirUsersOfSetup(invs, digest, g2u);
    WriterDict(invs, digest);
    assert WriterMap(invs, digest).Keys == Dirs(invs);
  }

  /**
   * `pmjq_viz` reads back from setup.sh the Petri net it was generated from: every directory a
   * place, every invocation a transition, an edge from each directory to its reader and from each
   * writer to the directory.
   */
  lemma VizOfSetup(invs: set<Invocation>, digest: Digest)
    requires invs != {} && HasInputs(invs) && ReadsOnce(invs) && DistinctNames(invs, digest) && PlainNet(invs, digest)
    requires GroupsDistinct(invs, digest)
    ensures forall d :: d in SetupDirs(invs) ==> d in WriterMap(invs, digest)
    ensures PmjqViz(Split(Setup(invs, digest), '\n'))
         == Ok(DotGraph(Join("\n", Nodes(SetupDirs(invs))), Join("\n", Nodes(SortSet(Names(invs, digest)))),
                        Join("\n", ReadEdges(invs, digest, SetupDirs(invs))),
                        Join("\n", EdgesInto(WriterMap(invs, digest), SetupDirs(invs)))))
  {
    SetupText(invs, digest);
    PlacesOfSetup(invs, digest);
    TransitionsOfSetup(invs, digest);
    PlaceTransEdgesOfSetup(invs, digest);
    TransPlaceEdgesOfSetup(invs, digest);
  }
}
