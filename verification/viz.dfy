/**
 * `pmjq_viz` of pmjqtools/tools.py: read a setup script and draw, in the dot language, the
 * Petri net it sets up, its directories as places and its invocations as transitions.
 *
 * Every pattern is applied to one line with its newline removed, which is what `.` and `$` see
 * of a line from `readlines()`. A greedy group takes the longest text that still lets the rest
 * of the pattern match, so each match below looks for the LAST place where a separator fits.
 */
module Viz {
  import opened Wrappers
  import opened Strings
  import opened Sorting
  import opened Templates

  /** The greatest position in [lo, hi] where `p` occurs in `s` */
  function LastAt(s: string, p: string, lo: nat, hi: nat): (r: Option<nat>)
    ensures r.Some? ==> lo <= r.value <= hi && OccursAt(s, p, r.value)
    ensures r.Some? ==> forall j :: r.value < j <= hi ==> !OccursAt(s, p, j)
    ensures r.None? ==> forall j :: lo <= j <= hi ==> !OccursAt(s, p, j)
    decreases hi
  {
    if hi < lo then None
    else if OccursAt(s, p, hi) then Some(hi)
    else if hi == lo then None
    else LastAt(s, p, lo, hi - 1)
  }

  /** At `a` the line reads `:pg_`, then a run of non-space characters ended by a space. */
  predicate GroupFieldAt(l: string, a: nat)
  {
    OccursAt(l, ":pg_", a) && RunEnd(l, a + 4) < |l| && l[RunEnd(l, a + 4)] == ' '
  }

  /** The greatest position in [lo, hi] where `:pg_\S* ` fits */
  function LastGroupField(l: string, lo: nat, hi: nat): (r: Option<nat>)
    ensures r.Some? ==> lo <= r.value <= hi && GroupFieldAt(l, r.value)
    ensures r.Some? ==> forall j :: r.value < j <= hi ==> !GroupFieldAt(l, j)
    ensures r.None? ==> forall j :: lo <= j <= hi ==> !GroupFieldAt(l, j)
    decreases hi
  {
    if hi < lo then None
    else if GroupFieldAt(l, hi) then Some(hi)
    else if hi == lo then None
    else LastGroupField(l, lo, hi - 1)
  }

  /** `re.match('^mkdir (.*)$', l).group(1)` */
  function MatchMkdir(l: string): (r: Option<string>)
    ensures r.Some? <==> StartsWith(l, "mkdir ")
    ensures r.Some? ==> l == "mkdir " + r.value
  {
    if StartsWith(l, "mkdir ") then Some(l[6..]) else None
  }

  /** `re.match('^useradd .* pu_(.*)$', l).group(1)`: what follows the last ` pu_` */
  function MatchUserAdd(l: string): (r: Option<string>)
    ensures r.Some? ==> StartsWith(l, "useradd ")
    ensures r.Some? ==> exists mid :: l == "useradd " + mid + " pu_" + r.value
  {
    if StartsWith(l, "useradd ") && |l| >= 12 then
      match LastAt(l, " pu_", 8, |l| - 4)
      case Some(b) =>
        Cut(l, "useradd ", b, " pu_");
        Some(l[b + 4..])
      case None => None
    else None
  }

  /**
   * `re.match('^useradd -M -N -g (.*) -G (.*) pu_(.*)$', l)`: its primary group, its other
   * groups and its user name without `pu_`
   */
  function MatchUserGroups(l: string): (r: Option<(string, string, string)>)
    ensures r.Some? ==> l == "useradd -M -N -g " + r.value.0 + " -G " + r.value.1 + " pu_" + r.value.2
  {
    if StartsWith(l, "useradd -M -N -g ") && |l| >= 25 then
      match LastAt(l, " pu_", 21, |l| - 4)
      case None => None
      case Some(b) =>
        match LastAt(l, " -G ", 17, b - 4)
        case None => None
        case Some(a) =>
          Cut2(l, "useradd -M -N -g ", a, " -G ", b, " pu_");
          Some((l[17..a], l[a + 4..b], l[b + 4..]))
    else None
  }

  /** `re.match('^chown pu_(.*):pg_\S* (.*)$', l)`: the owner without `pu_`, and the directory */
  function MatchOwnerChown(l: string): (r: Option<(string, string)>)
    ensures r.Some? ==> StartsWith(l, "chown pu_")
    ensures r.Some? ==> exists g :: l == "chown pu_" + r.value.0 + ":pg_" + g + " " + r.value.1
  {
    if StartsWith(l, "chown pu_") && |l| >= 14 then
      match LastGroupField(l, 9, |l| - 5)
      case Some(a) =>
        var e := RunEnd(l, a + 4);
        Cut2(l, "chown pu_", a, ":pg_", e, " ");
        Some((l[9..a], l[e + 1..]))
      case None => None
    else None
  }

  /** `re.match('^chown (.*):pg_(\S*) (.*)$', l)`: owner, group without `pg_`, directory */
  function MatchChown(l: string): (r: Option<(string, string, string)>)
    ensures r.Some? ==> l == "chown " + r.value.0 + ":pg_" + r.value.1 + " " + r.value.2
    ensures r.Some? ==> forall c :: c in r.value.1 ==> !IsSpace(c)
  {
    if StartsWith(l, "chown ") && |l| >= 11 then
      match LastGroupField(l, 6, |l| - 5)
      case Some(a) =>
        var e := RunEnd(l, a + 4);
        ChownFields(l, a);
        Some((l[6..a], l[a + 4..e], l[e + 1..]))
      case None => None
    else None
  }

  /** A chown line cut around its group field: the owner, the group and the directory */
  lemma ChownFields(l: string, a: nat)
    requires StartsWith(l, "chown ") && 6 <= a && GroupFieldAt(l, a)
    ensures var e := RunEnd(l, a + 4);
      && l == "chown " + l[6..a] + ":pg_" + l[a + 4..e] + " " + l[e + 1..]
      && forall c :: c in l[a + 4..e] ==> !IsSpace(c)
  {
    Cut2(l, "chown ", a, ":pg_", RunEnd(l, a + 4), " ");
    RunHasNoSpace(l, a + 4);
  }

  /** The run of non-space characters starting at `k` holds no space. */
  lemma RunHasNoSpace(l: string, k: nat)
    requires k <= |l|
    ensures forall c :: c in l[k..RunEnd(l, k)] ==> !IsSpace(c)
  {
    var e := RunEnd(l, k);
    forall c | c in l[k..e] ensures !IsSpace(c) {
      var j :| 0 <= j < |l[k..e]| && l[k..e][j] == c;
      assert l[k + j] == c;
    }
  }

  /** A line cut at a separator found after its prefix */
  lemma Cut(l: string, pre: string, a: nat, sep: string)
    requires StartsWith(l, pre) && |pre| <= a && OccursAt(l, sep, a)
    ensures l == pre + l[|pre|..a] + sep + l[a + |sep|..]
  {
    assert l == l[..|pre|] + l[|pre|..a] + l[a..a + |sep|] + l[a + |sep|..];
  }

  /** A line cut at two separators found in turn after its prefix */
  lemma Cut2(l: string, pre: string, a: nat, sep1: string, b: nat, sep2: string)
    requires StartsWith(l, pre) && |pre| <= a && OccursAt(l, sep1, a)
    requires a + |sep1| <= b && OccursAt(l, sep2, b)
    ensures l == pre + l[|pre|..a] + sep1 + l[a + |sep1|..b] + sep2 + l[b + |sep2|..]
  {
    Cut(l, pre, a, sep1);
    var w := pre + l[|pre|..a] + sep1;
    var t := l[a + |sep1|..];
    var y, z := l[a + |sep1|..b], l[b + |sep2|..];
    assert t == y + sep2 + z by {
      Cut(t, y, b - a - |sep1|, sep2);
    }
    AppendAssoc(w, y + sep2, z);
    AppendAssoc(w, y, sep2);
  }

  /** `[f(l) for l in lines if f(l)]` */
  function Collect<T>(f: string -> Option<T>, lines: seq<string>): (r: seq<T>)
    ensures |r| <= |lines|
  {
    if |lines| == 0 then []
    else
      match f(lines[0])
      case Some(x) => [x] + Collect(f, lines[1..])
      case None => Collect(f, lines[1..])
  }

  /** A name between double quotes, as a dot node: `'"' + x + '";'` */
  function Node(x: string): string
  {
    "\"" + x + "\";"
  }

  /** An edge of the dot graph: `'"' + a + '"->"' + b + '";'` */
  function Edge(a: string, b: string): string
  {
    "\"" + a + "\"->\"" + b + "\";"
  }

  function Nodes(xs: seq<string>): (r: seq<string>)
    ensures |r| == |xs| && forall k :: 0 <= k < |xs| ==> r[k] == Node(xs[k])
  {
    if |xs| == 0 then [] else [Node(xs[0])] + Nodes(xs[1..])
  }

  /** `extract_places`: the directories the mkdir lines create, in order */
  function ExtractPlaces(lines: seq<string>): seq<string>
  {
    Collect(MatchMkdir, lines)
  }

  /** `extract_transitions`: the invocation names the useradd lines create, in order */
  function ExtractTransitions(lines: seq<string>): seq<string>
  {
    Collect(MatchUserAdd, lines)
  }

  function PlaceTransEdge(l: string): Option<string>
  {
    match MatchOwnerChown(l)
    case Some(m) => Some(Edge(m.1, m.0))
    case None => None
  }

  /** `extract_place_trans_edges`: a directory owned by an invocation's user feeds that invocation. */
  function ExtractPlaceTransEdges(lines: seq<string>): seq<string>
  {
    Collect(PlaceTransEdge, lines)
  }

  /** `s[3:]` for every string */
  function DropEach(xs: seq<string>): (r: seq<string>)
    ensures |r| == |xs| && forall k :: 0 <= k < |xs| ==> r[k] == Drop(xs[k], 3)
  {
    if |xs| == 0 then [] else [Drop(xs[0], 3)] + DropEach(xs[1..])
  }

  /** The user and its groups, each without its three-letter prefix, of a useradd line */
  function UserGroupsOf(l: string): Option<(string, seq<string>)>
  {
    match MatchUserGroups(l)
    case Some(m) => Some((m.2, [Drop(m.0, 3)] + DropEach(Split(m.1, ','))))
    case None => None
  }

  /** `dict(pairs)`: a later pair overrides an earlier one with the same key */
  function DictOf<V>(pairs: seq<(string, V)>): (m: map<string, V>)
    ensures forall k :: k in m <==> exists j :: 0 <= j < |pairs| && pairs[j].0 == k
    ensures forall j :: 0 <= j < |pairs| && (forall q :: j < q < |pairs| ==> pairs[q].0 != pairs[j].0) ==>
              pairs[j].0 in m && m[pairs[j].0] == pairs[j].1
  {
    if |pairs| == 0 then map[]
    else
      var init := pairs[..|pairs| - 1];
      var last := pairs[|pairs| - 1];
      var m := DictOf(init);
      assert forall j :: 0 <= j < |init| ==> init[j] == pairs[j];
      m[last.0 := last.1]
  }

  /** Every group named in a list of users' groups */
  function AllGroups(u2g: map<string, seq<string>>): set<string>
  {
    set u, g | u in u2g && g in u2g[u] :: g
  }

  /** `group2users`: the users that belong to each group */
  function GroupUsers(u2g: map<string, seq<string>>): (g2u: map<string, set<string>>)
    ensures g2u.Keys == AllGroups(u2g)
    ensures forall g, u :: g in g2u ==> (u in g2u[g] <==> u in u2g && g in u2g[u])
  {
    map g | g in AllGroups(u2g) :: set u | u in u2g && g in u2g[u]
  }

  /** A key missing from `group2users` raises `KeyError`. */
  datatype VizError = KeyError(key: string)

  /**
   * The entries of `dir2users`, one per chown line in order: the users of the directory's
   * group other than its owner and `whoami`; the first group that is no user's is an error.
   */
  function DirUsers(g2u: map<string, set<string>>, chowns: seq<(string, string, string)>)
    : (r: Result<seq<(string, set<string>)>, VizError>)
    ensures r.Ok? ==> |r.value| == |chowns| && forall k :: 0 <= k < |chowns| ==>
              chowns[k].1 in g2u && r.value[k].0 == chowns[k].2
              && r.value[k].1 == (set u | u in g2u[chowns[k].1] && u != Drop(chowns[k].0, 3) && u != "`whoami`")
    ensures r.Err? <==> exists k :: 0 <= k < |chowns| && chowns[k].1 !in g2u
  {
    if |chowns| == 0 then Ok([])
    else
      var c := chowns[0];
      if c.1 !in g2u then Err(KeyError(c.1))
      else
        match DirUsers(g2u, chowns[1..])
        case Err(e) => Err(e)
        case Ok(rest) =>
          Ok([(c.2, set u | u in g2u[c.1] && u != Drop(c.0, 3) && u != "`whoami`")] + rest)
  }

  /** The edges into `dirs[k]` from every user of `d2u[dirs[k]]`, directory by directory, users sorted */
  function EdgesInto(d2u: map<string, set<string>>, dirs: seq<string>): seq<string>
    requires forall d :: d in dirs ==> d in d2u
  {
    if |dirs| == 0 then []
    else
      var d := dirs[0];
      EdgesFrom(SortSet(d2u[d]), d) + EdgesInto(d2u, dirs[1..])
  }

  function EdgesFrom(users: seq<string>, d: string): (r: seq<string>)
    ensures |r| == |users| && forall k :: 0 <= k < |users| ==> r[k] == Edge(users[k], d)
  {
    if |users| == 0 then [] else [Edge(users[0], d)] + EdgesFrom(users[1..], d)
  }

  /**
   * `extract_trans_place_edges`: an invocation whose user shares the group of a directory, and
   * which is neither its owner nor `whoami`, writes into it.
   */
  function ExtractTransPlaceEdges(lines: seq<string>): Result<seq<string>, VizError>
  {
    var g2u := GroupUsers(DictOf(Collect(UserGroupsOf, lines)));
    match DirUsers(g2u, Collect(MatchChown, lines))
    case Err(e) => Err(e)
    case Ok(pairs) =>
      var d2u := DictOf(pairs);
      SortSetMembers(d2u.Keys);
      Ok(EdgesInto(d2u, SortSet(d2u.Keys)))
  }

  /** `pmjq_viz`: the dot text it prints for the lines of a setup script */
  function PmjqViz(lines: seq<string>): Result<string, VizError>
  {
    match ExtractTransPlaceEdges(lines)
    case Err(e) => Err(e)
    case Ok(transPlace) =>
      Ok(DotGraph(Join("\n", Nodes(ExtractPlaces(lines))), Join("\n", Nodes(ExtractTransitions(lines))),
                  Join("\n", ExtractPlaceTransEdges(lines)), Join("\n", transPlace)))
  }
}
