/**
 * The compiler of pmjqtools/tools.py: from a set of pmjq invocations to the names, groups and
 * users they need, and to the setup, launch and cleanup shell scripts.
 *
 * A Python `set` of invocations is a Dafny `set`; where tools.py iterates over it and the result
 * depends on the order, the model either iterates in an arbitrary order (`Dir2Group`) or takes the
 * order as a parameter (`Launch`). The MD5 digest is a parameter too.
 */
module Tools {
  import opened Wrappers
  import opened Strings
  import opened Sorting
  import opened Templates

  /** One run of pmjq: the directories it reads, its command, the directories it writes, and
   *  the pattern that pairs up jobs across several inputs. */
  datatype Invocation = Invocation(inputs: seq<string>, command: string, outputs: seq<string>, pattern: string)

  /** The hexadecimal MD5 digest of a text (hashlib is outside the model). */
  type Digest = string -> string

  /** The text whose digest tells apart invocations whose commands share a first word */
  function Fingerprint(inv: Invocation): string
  {
    Join(" ", SortSeq(inv.inputs)) + inv.command + Join(" ", SortSeq(inv.outputs))
  }

  /** How many invocations have a command that starts with `token` */
  function PrefixCount(invs: set<Invocation>, token: string): nat
  {
    |set j | j in invs && StartsWith(j.command, token)|
  }

  /** `invocation_name`: the first word of the command, disambiguated by three digest characters */
  function InvocationName(invs: set<Invocation>, inv: Invocation, digest: Digest): (r: string)
    ensures StartsWith(r, FirstToken(inv.command))
  {
    var short := FirstToken(inv.command);
    if PrefixCount(invs, short) < 2 then short
    else short + "_" + Take(digest(Fingerprint(inv)), 3)
  }

  /** The name of the Unix user that runs an invocation */
  function UserName(invs: set<Invocation>, inv: Invocation, digest: Digest): string
  {
    "pu_" + InvocationName(invs, inv, digest)
  }

  /** A command whose first word no other command starts with keeps that word as its name. */
  lemma NameWhenTokenUnique(invs: set<Invocation>, inv: Invocation, digest: Digest)
    requires inv in invs
    requires forall j :: j in invs && StartsWith(j.command, FirstToken(inv.command)) ==> j == inv
    ensures InvocationName(invs, inv, digest) == FirstToken(inv.command)
  {
    var short := FirstToken(inv.command);
    assert (set j | j in invs && StartsWith(j.command, short)) == {inv};
  }

  /** When another command starts with the same first word, the name carries the digest. */
  lemma NameWhenTokenShared(invs: set<Invocation>, inv: Invocation, other: Invocation, digest: Digest)
    requires inv in invs && other in invs && inv != other
    requires StartsWith(other.command, FirstToken(inv.command))
    ensures InvocationName(invs, inv, digest)
         == FirstToken(inv.command) + "_" + Take(digest(Fingerprint(inv)), 3)
  {
    var short := FirstToken(inv.command);
    var s := set j | j in invs && StartsWith(j.command, short);
    assert {inv, other} <= s;
    assert |{inv, other}| == 2;
    SubsetCardinality({inv, other}, s);
  }

  lemma SubsetCardinality<T>(a: set<T>, b: set<T>)
    requires a <= b
    ensures |a| <= |b|
  {
    assert b == a + (b - a);
  }

  /**
   * The count is by prefix, not by first word: a command `cat` is renamed because `cat2 -v`
   * starts with `cat`, although the two first words differ and `cat2` keeps its name.
   */
  lemma NamePrefixCounting(digest: Digest)
    ensures var cat := Invocation(["a"], "cat", ["b"], "(.*)");
            var cat2 := Invocation(["b"], "cat2 -v", ["c"], "(.*)");
            InvocationName({cat, cat2}, cat, digest) == "cat_" + Take(digest(Fingerprint(cat)), 3)
            && InvocationName({cat, cat2}, cat2, digest) == "cat2"
  {
    var cat := Invocation(["a"], "cat", ["b"], "(.*)");
    var cat2 := Invocation(["b"], "cat2 -v", ["c"], "(.*)");
    CatTokens();
    NameWhenTokenShared({cat, cat2}, cat, cat2, digest);
    NameWhenTokenUnique({cat, cat2}, cat2, digest);
  }

  lemma CatTokens()
    ensures FirstToken("cat") == "cat" && FirstToken("cat2 -v") == "cat2"
    ensures StartsWith("cat2 -v", "cat") && !StartsWith("cat", "cat2")
  {
  }

  /** The digest input depends on the directories as sets, not on the order they were given in. */
  lemma FingerprintIgnoresOrder(a: Invocation, b: Invocation)
    requires a.command == b.command
    requires multiset(a.inputs) == multiset(b.inputs) && multiset(a.outputs) == multiset(b.outputs)
    ensures Fingerprint(a) == Fingerprint(b)
  {
    SortedUnique(SortSeq(a.inputs), SortSeq(b.inputs));
    SortedUnique(SortSeq(a.outputs), SortSeq(b.outputs));
  }

  function InputDirs(invs: set<Invocation>): set<string>
  {
    set i, d | i in invs && d in i.inputs :: d
  }

  function OutputDirs(invs: set<Invocation>): set<string>
  {
    set i, d | i in invs && d in i.outputs :: d
  }

  /** Every directory some invocation reads or writes */
  function Dirs(invs: set<Invocation>): set<string>
  {
    InputDirs(invs) + OutputDirs(invs)
  }

  /** Every invocation reads at least one directory (tools.py indexes `inputs[0]`). */
  predicate HasInputs(invs: set<Invocation>)
  {
    forall i :: i in invs ==> |i.inputs| > 0
  }

  /** No directory is read by two invocations: each directory has one consumer. */
  predicate ReadsOnce(invs: set<Invocation>)
  {
    forall i, j, d :: i in invs && j in invs && d in i.inputs && d in j.inputs ==> i == j
  }

  /** No two invocations get the same name, so each gets its own user. */
  predicate DistinctNames(invs: set<Invocation>, digest: Digest)
  {
    forall i, j :: i in invs && j in invs && InvocationName(invs, i, digest) == InvocationName(invs, j, digest) ==> i == j
  }

  lemma DirsOf(invs: set<Invocation>, inv: Invocation)
    requires inv in invs
    ensures forall d :: d in inv.inputs ==> d in InputDirs(invs) && d in Dirs(invs)
    ensures forall d :: d in inv.outputs ==> d in OutputDirs(invs) && d in Dirs(invs)
  {
    forall d | d in inv.inputs ensures d in InputDirs(invs) {
      assert inv in invs && d in inv.inputs;
    }
    forall d | d in inv.outputs ensures d in OutputDirs(invs) {
      assert inv in invs && d in inv.outputs;
    }
  }

  /** The one invocation that reads directory `d` */
  function Reader(invs: set<Invocation>, d: string): (i: Invocation)
    requires ReadsOnce(invs) && d in InputDirs(invs)
    ensures i in invs && d in i.inputs
  {
    var i :| i in invs && d in i.inputs;
    i
  }

  /** The last position of `x` in `xs` (`enumerate` overwrites, so the last one wins) */
  function LastIndex(xs: seq<string>, x: string): (k: nat)
    requires x in xs
    ensures k < |xs| && xs[k] == x
    ensures forall m :: k < m < |xs| ==> xs[m] != x
  {
    if xs[|xs| - 1] == x then |xs| - 1 else LastIndex(xs[..|xs| - 1], x)
  }

  /** The group of input `d` of an invocation named `name` with these inputs */
  function GroupFor(name: string, inputs: seq<string>, d: string): (g: string)
    requires d in inputs
    ensures StartsWith(g, "pg_")
  {
    if |inputs| > 1 then "pg_" + name + "_" + NatToString(LastIndex(inputs, d)) else "pg_" + name
  }

  /** The group `dir2group` gives to input `d` of `inv` */
  function InputGroup(invs: set<Invocation>, inv: Invocation, d: string, digest: Digest): string
    requires d in inv.inputs
  {
    GroupFor(InvocationName(invs, inv, digest), inv.inputs, d)
  }

  /**
   * `dir2group` when each directory has one reader: a directory that is read belongs to the
   * group of its reader, and a directory no invocation reads belongs to a group of its own.
   */
  function DirGroups(invs: set<Invocation>, digest: Digest): (d2g: map<string, string>)
    requires ReadsOnce(invs)
    ensures d2g.Keys == Dirs(invs)
    ensures forall d :: d in d2g ==> StartsWith(d2g[d], "pg_")
  {
    map d | d in Dirs(invs) :: DirGroup(invs, d, digest)
  }

  /** The group of one directory: that of its reader, or its own when nothing reads it */
  function DirGroup(invs: set<Invocation>, d: string, digest: Digest): (g: string)
    requires ReadsOnce(invs)
    ensures StartsWith(g, "pg_")
  {
    if d in InputDirs(invs) then InputGroup(invs, Reader(invs, d), d, digest) else "pg_" + d
  }

  /**
   * `dir2group` as tools.py runs it: output directories first, then every invocation in the
   * set's iteration order, each writing the groups of its inputs. Whatever the order, every
   * directory gets a group, an unread one its own, a read one the group one of its readers
   * gives it; when each directory has one reader, the result is `DirGroups`.
   */
  method Dir2Group(invs: set<Invocation>, digest: Digest) returns (groups: map<string, string>)
    requires HasInputs(invs)
    ensures groups.Keys == Dirs(invs)
    ensures forall d :: d in groups && d !in InputDirs(invs) ==> groups[d] == "pg_" + d
    ensures forall d :: d in groups && d in InputDirs(invs) ==>
              exists i :: i in invs && d in i.inputs && groups[d] == InputGroup(invs, i, d, digest)
    ensures ReadsOnce(invs) ==> groups == DirGroups(invs, digest)
  {
    var sinks := Dirs(invs) - InputDirs(invs);
    groups := map d | d in sinks :: "pg_" + d;
    var todo := invs;
    ghost var done: set<Invocation> := {};
    assert InputDirs(done) == {};
    while todo != {}
      invariant done + todo == invs
      invariant Written(invs, digest, sinks, done, groups)
      decreases |todo|
    {
      var i :| i in todo;
      ghost var before := groups;
      groups := AssignInputGroups(groups, InvocationName(invs, i, digest), i.inputs);
      AssignKeeps(invs, digest, i, sinks, done, before, groups);
      MoveOne(done, todo, i);
      done := done + {i};
      todo := todo - {i};
    }
    WrittenGroups(invs, digest, sinks, groups);
  }

  lemma MoveOne<T>(done: set<T>, todo: set<T>, x: T)
    requires x in todo
    ensures (done + {x}) + (todo - {x}) == done + todo
  {
  }

  /**
   * The invariant of the loop of `Dir2Group`: the invocations `done` so far have written the
   * groups of their inputs, each such directory holding the group one of its readers gave it,
   * and unread directories keep their own group.
   */
  ghost predicate Written(invs: set<Invocation>, digest: Digest, sinks: set<string>, done: set<Invocation>,
                          groups: map<string, string>)
  {
    && groups.Keys == sinks + InputDirs(done)
    && (forall d :: d in sinks ==> groups[d] == "pg_" + d)
    && (forall d :: d in InputDirs(done) ==>
          exists i :: i in done && d in i.inputs && groups[d] == InputGroup(invs, i, d, digest))
  }

  /** One pass of the loop of `Dir2Group` keeps its invariant. */
  lemma AssignKeeps(invs: set<Invocation>, digest: Digest, i: Invocation, sinks: set<string>, done: set<Invocation>,
                    g0: map<string, string>, g1: map<string, string>)
    requires i in invs && sinks == Dirs(invs) - InputDirs(invs)
    requires Written(invs, digest, sinks, done, g0)
    requires g1.Keys == g0.Keys + Elems(i.inputs)
    requires forall d :: d in i.inputs ==> g1[d] == GroupFor(InvocationName(invs, i, digest), i.inputs, d)
    requires forall d :: d in g0 && d !in i.inputs ==> g1[d] == g0[d]
    ensures Written(invs, digest, sinks, done + {i}, g1)
  {
    DirsOf(invs, i);
    InputDirsAdd(done, i);
    assert g1.Keys == sinks + InputDirs(done + {i});
    forall d | d in sinks ensures g1[d] == "pg_" + d {
      assert d !in i.inputs;
    }
    forall d | d in InputDirs(done + {i})
      ensures exists k :: k in done + {i} && d in k.inputs && g1[d] == InputGroup(invs, k, d, digest)
    {
      if d in i.inputs {
        assert g1[d] == InputGroup(invs, i, d, digest);
      } else {
        assert d in InputDirs(done);
        var k :| k in done && d in k.inputs && g0[d] == InputGroup(invs, k, d, digest);
        assert g1[d] == InputGroup(invs, k, d, digest);
      }
    }
  }

  /** What the loop of `Dir2Group` leaves behind is what its postcondition promises. */
  lemma WrittenGroups(invs: set<Invocation>, digest: Digest, sinks: set<string>, groups: map<string, string>)
    requires sinks == Dirs(invs) - InputDirs(invs)
    requires Written(invs, digest, sinks, invs, groups)
    ensures groups.Keys == Dirs(invs)
    ensures forall d :: d in groups && d !in InputDirs(invs) ==> groups[d] == "pg_" + d
    ensures forall d :: d in groups && d in InputDirs(invs) ==>
              exists i :: i in invs && d in i.inputs && groups[d] == InputGroup(invs, i, d, digest)
    ensures ReadsOnce(invs) ==> groups == DirGroups(invs, digest)
  {
    assert sinks + InputDirs(invs) == Dirs(invs);
    if ReadsOnce(invs) {
      var spec := DirGroups(invs, digest);
      assert groups.Keys == spec.Keys;
      forall d | d in groups ensures groups[d] == spec[d] {
        if d in InputDirs(invs) {
          var i :| i in invs && d in i.inputs && groups[d] == InputGroup(invs, i, d, digest);
          assert i == Reader(invs, d);
        }
      }
      MapsEqual(groups, spec);
    }
  }

  lemma MapsEqual(a: map<string, string>, b: map<string, string>)
    requires a.Keys == b.Keys
    requires forall k :: k in a ==> a[k] == b[k]
    ensures a == b
  {
  }

  lemma InputDirsAdd(done: set<Invocation>, i: Invocation)
    ensures InputDirs(done + {i}) == InputDirs(done) + Elems(i.inputs)
  {
    DirsOf(done + {i}, i);
  }

  /** One pass of the loop of `dir2group`: write the groups of one invocation's inputs */
  method AssignInputGroups(groups: map<string, string>, name: string, inputs: seq<string>)
    returns (r: map<string, string>)
    requires |inputs| > 0
    ensures r.Keys == groups.Keys + Elems(inputs)
    ensures forall d :: d in inputs ==> r[d] == GroupFor(name, inputs, d)
    ensures forall d :: d in groups && d !in inputs ==> r[d] == groups[d]
  {
    r := groups;
    if |inputs| > 1 {
      var j := 0;
      while j < |inputs|
        invariant 0 <= j <= |inputs|
        invariant r.Keys == groups.Keys + Elems(inputs[..j])
        invariant forall d :: d in groups && d !in inputs[..j] ==> r[d] == groups[d]
        invariant forall d :: d in inputs[..j] ==> r[d] == "pg_" + name + "_" + NatToString(LastIndex(inputs[..j], d))
      {
        assert inputs[..j + 1][..j] == inputs[..j];
        assert forall d :: d in inputs[..j + 1] <==> d in inputs[..j] || d == inputs[j];
        r := r[inputs[j] := "pg_" + name + "_" + NatToString(j)];
        j := j + 1;
      }
      assert inputs[..j] == inputs;
    } else {
      r := r[inputs[0] := "pg_" + name];
    }
  }

  /** A directory some invocation reads belongs to its reader even when another one writes it. */
  lemma ReaderGroupWins(invs: set<Invocation>, digest: Digest, writer: Invocation, reader: Invocation, d: string)
    requires ReadsOnce(invs)
    requires writer in invs && reader in invs && d in writer.outputs && d in reader.inputs
    ensures DirGroups(invs, digest)[d] == InputGroup(invs, reader, d, digest)
  {
    assert d in InputDirs(invs);
    assert Reader(invs, d) == reader;
  }

  /** The j-th input of an invocation with several distinct inputs gets group `pg_<name>_<j>`. */
  lemma InputGroupAtPosition(invs: set<Invocation>, digest: Digest, inv: Invocation, j: nat)
    requires ReadsOnce(invs) && inv in invs
    requires |inv.inputs| > 1 && j < |inv.inputs|
    requires forall a, b :: 0 <= a < b < |inv.inputs| ==> inv.inputs[a] != inv.inputs[b]
    ensures inv.inputs[j] in DirGroups(invs, digest)
    ensures DirGroups(invs, digest)[inv.inputs[j]]
         == "pg_" + InvocationName(invs, inv, digest) + "_" + NatToString(j)
  {
    var d := inv.inputs[j];
    DirsOf(invs, inv);
    assert Reader(invs, d) == inv;
    var k := LastIndex(inv.inputs, d);
    assert k == j;
  }

  /** The groups of a list of directories, in order */
  function GroupsOf(d2g: map<string, string>, dirs: seq<string>): (gs: seq<string>)
    requires forall d :: d in dirs ==> d in d2g
    ensures |gs| == |dirs|
    ensures forall k :: 0 <= k < |dirs| ==> gs[k] == d2g[dirs[k]]
  {
    if |dirs| == 0 then [] else [d2g[dirs[0]]] + GroupsOf(d2g, dirs[1..])
  }

  /** The groups of an invocation's own directories: its inputs' groups, then its outputs' */
  function OwnGroups(invs: set<Invocation>, inv: Invocation, digest: Digest): seq<string>
    requires ReadsOnce(invs) && inv in invs
  {
    var d2g := DirGroups(invs, digest);
    assert forall d :: d in inv.inputs + inv.outputs ==> d in Dirs(invs);
    GroupsOf(d2g, inv.inputs + inv.outputs)
  }

  /** Different names give different users. */
  lemma UserNameInjective(invs: set<Invocation>, digest: Digest)
    requires DistinctNames(invs, digest)
    ensures forall i, j :: i in invs && j in invs && UserName(invs, i, digest) == UserName(invs, j, digest) ==> i == j
  {
    forall i, j | i in invs && j in invs && UserName(invs, i, digest) == UserName(invs, j, digest) ensures i == j {
      var a := InvocationName(invs, i, digest);
      var b := InvocationName(invs, j, digest);
      assert ("pu_" + a)[3..] == a && ("pu_" + b)[3..] == b;
    }
  }

  /** `user2groups`: one user per invocation */
  function User2Groups(invs: set<Invocation>, digest: Digest): (u2g: map<string, seq<string>>)
    requires ReadsOnce(invs) && DistinctNames(invs, digest)
    ensures u2g.Keys == set i | i in invs :: UserName(invs, i, digest)
  {
    UserNameInjective(invs, digest);
    map i | i in invs :: UserName(invs, i, digest) := OwnGroups(invs, i, digest)
  }

  /**
   * Least privilege: an invocation's user belongs to exactly the groups of the directories it
   * reads or writes, one entry per directory, the group of its first input first.
   */
  lemma UserGroupsExact(invs: set<Invocation>, digest: Digest, inv: Invocation)
    requires ReadsOnce(invs) && DistinctNames(invs, digest) && inv in invs
    ensures var gs := User2Groups(invs, digest)[UserName(invs, inv, digest)];
            var d2g := DirGroups(invs, digest);
            |gs| == |inv.inputs| + |inv.outputs|
            && (forall g :: g in gs <==> exists d :: d in inv.inputs + inv.outputs && d in d2g && g == d2g[d])
            && (|inv.inputs| > 0 ==> inv.inputs[0] in d2g && gs[0] == d2g[inv.inputs[0]])
  {
    UserGroupsAt(invs, digest, inv);
    var d2g := DirGroups(invs, digest);
    assert forall d :: d in inv.inputs + inv.outputs ==> d in Dirs(invs);
    GroupsOfExact(d2g, inv.inputs + inv.outputs);
  }

  lemma UserGroupsAt(invs: set<Invocation>, digest: Digest, inv: Invocation)
    requires ReadsOnce(invs) && DistinctNames(invs, digest) && inv in invs
    ensures UserName(invs, inv, digest) in User2Groups(invs, digest)
    ensures User2Groups(invs, digest)[UserName(invs, inv, digest)] == OwnGroups(invs, inv, digest)
  {
    UserNameInjective(invs, digest);
  }

  lemma GroupsOfExact(d2g: map<string, string>, dirs: seq<string>)
    requires forall d :: d in dirs ==> d in d2g
    ensures forall g :: g in GroupsOf(d2g, dirs) <==> exists d :: d in dirs && d in d2g && g == d2g[d]
  {
    var gs := GroupsOf(d2g, dirs);
    forall g ensures g in gs <==> exists d :: d in dirs && d in d2g && g == d2g[d] {
      if g in gs {
        var k :| 0 <= k < |gs| && gs[k] == g;
        assert dirs[k] in dirs;
      }
      if exists d :: d in dirs && d in d2g && g == d2g[d] {
        var d :| d in dirs && d in d2g && g == d2g[d];
        var k :| 0 <= k < |dirs| && dirs[k] == d;
        assert gs[k] == g;
      }
    }
  }

  /** `dir2group(...).values()`, listed by directory (every use of it sorts it afterwards) */
  function GroupList(invs: set<Invocation>, digest: Digest): seq<string>
    requires ReadsOnce(invs)
  {
    var d2g := DirGroups(invs, digest);
    SortSetMembers(d2g.Keys);
    GroupsOf(d2g, SortSet(d2g.Keys))
  }

  /** Sorting after adding a common prefix is adding it after sorting. */
  lemma {:induction false} SortPrefixed(p: string, xs: seq<string>)
    ensures SortSeq(Prefixed(p, xs)) == Prefixed(p, SortSeq(xs))
  {
    if |xs| > 0 {
      SortPrefixed(p, xs[1..]);
      assert Prefixed(p, xs)[1..] == Prefixed(p, xs[1..]);
      InsertPrefixed(p, xs[0], SortSeq(xs[1..]));
    }
  }

  lemma {:induction false} InsertPrefixed(p: string, x: string, ys: seq<string>)
    requires Sorted(ys)
    ensures Sorted(Prefixed(p, ys))
    ensures Insert(p + x, Prefixed(p, ys)) == Prefixed(p, Insert(x, ys))
  {
    forall j, k | 0 <= j < k < |ys| ensures Below(Prefixed(p, ys)[j], Prefixed(p, ys)[k]) {
      BelowPrefix(p, ys[j], ys[k]);
    }
    if |ys| > 0 {
      BelowPrefix(p, x, ys[0]);
      assert Prefixed(p, ys)[1..] == Prefixed(p, ys[1..]);
      InsertPrefixed(p, x, ys[1..]);
    }
  }

  /** `groupadd`: one line per directory group, sorted */
  function GroupAdd(invs: set<Invocation>, digest: Digest): string
    requires ReadsOnce(invs)
  {
    Join("\n", SortSeq(Prefixed("groupadd ", GroupList(invs, digest))))
  }

  /** `usermod`: the user running the scripts joins every group */
  function UserMod(invs: set<Invocation>, digest: Digest): string
    requires ReadsOnce(invs)
  {
    "usermod -a -G " + Join(",", SortSeq(GroupList(invs, digest))) + " `whoami`"
  }

  /** One useradd line: no home, no own group, the first group primary, the rest supplementary */
  function UserAddLine(user: string, groups: seq<string>): string
    requires |groups| > 0
  {
    "useradd -M -N -g " + groups[0] + " -G " + Join(",", groups[1..]) + " " + user
  }

  function UserAddLines(u2g: map<string, seq<string>>, users: seq<string>): (r: seq<string>)
    requires forall u :: u in users ==> u in u2g && |u2g[u]| > 0
    ensures |r| == |users|
    ensures forall k :: 0 <= k < |users| ==> r[k] == UserAddLine(users[k], u2g[users[k]])
  {
    if |users| == 0 then [] else [UserAddLine(users[0], u2g[users[0]])] + UserAddLines(u2g, users[1..])
  }

  /** `useradd`: one line per user, sorted by user name, and a final newline */
  function UserAdd(invs: set<Invocation>, digest: Digest): string
    requires HasInputs(invs) && ReadsOnce(invs) && DistinctNames(invs, digest)
  {
    var u2g := User2Groups(invs, digest);
    SortSetMembers(u2g.Keys);
    UserGroupsNonEmpty(invs, digest);
    Join("\n", UserAddLines(u2g, SortSet(u2g.Keys))) + "\n"
  }

  /** Every user belongs to at least one group, the group of its first input. */
  lemma UserGroupsNonEmpty(invs: set<Invocation>, digest: Digest)
    requires HasInputs(invs) && ReadsOnce(invs) && DistinctNames(invs, digest)
    ensures forall u :: u in User2Groups(invs, digest) ==> |User2Groups(invs, digest)[u]| > 0
  {
    var u2g := User2Groups(invs, digest);
    forall u | u in u2g ensures |u2g[u]| > 0 {
      var i :| i in invs && UserName(invs, i, digest) == u;
      UserGroupsExact(invs, digest, i);
    }
  }

  /** The owner of a directory: the user of its reader, or whoever runs the setup script */
  function Owner(invs: set<Invocation>, d: string, digest: Digest): string
    requires ReadsOnce(invs)
  {
    if d in InputDirs(invs) then UserName(invs, Reader(invs, d), digest) else "`whoami`"
  }

  function MkdirBlocks(invs: set<Invocation>, digest: Digest, dirs: seq<string>): (r: seq<string>)
    requires ReadsOnce(invs)
    requires forall d :: d in dirs ==> d in Dirs(invs)
    ensures |r| == |dirs|
    ensures forall k :: 0 <= k < |dirs| ==>
              r[k] == MkdirBlock(dirs[k], Owner(invs, dirs[k], digest), DirGroups(invs, digest)[dirs[k]])
  {
    if |dirs| == 0 then []
    else [MkdirBlock(dirs[0], Owner(invs, dirs[0], digest), DirGroups(invs, digest)[dirs[0]])]
         + MkdirBlocks(invs, digest, dirs[1..])
  }

  /** `mkdir`: one block per directory, sorted by directory */
  function Mkdir(invs: set<Invocation>, digest: Digest): string
    requires ReadsOnce(invs)
  {
    SortSetMembers(Dirs(invs));
    Join("\n", MkdirBlocks(invs, digest, SortSet(Dirs(invs))))
  }

  /** `setup`: the whole setup script */
  function Setup(invs: set<Invocation>, digest: Digest): string
    requires HasInputs(invs) && ReadsOnce(invs) && DistinctNames(invs, digest)
  {
    SetupScript(GroupAdd(invs, digest), UserMod(invs, digest), UserAdd(invs, digest), Mkdir(invs, digest))
  }

  /** `cleanup`: delete the groups, the users and the directories */
  function Cleanup(invs: set<Invocation>, digest: Digest): string
    requires ReadsOnce(invs) && DistinctNames(invs, digest)
  {
    var groupdel := Join("\n", Prefixed("groupdel ", SortSeq(GroupList(invs, digest))));
    var userdel := Join("\n", Prefixed("userdel ", SortSet(User2Groups(invs, digest).Keys)));
    var rm := Join("\n", Prefixed("rm -r ", SortSet(DirGroups(invs, digest).Keys)));
    CleanupScript(groupdel, userdel, rm)
  }

  /** `PMJQ_BRANCH_MERGE_TEMPLATE` filled in with a user, a pattern, the inputs and the command */
  type BranchMergeTemplate = (string, string, string, string) -> string

  /**
   * The command as launch.sh writes it: verbatim when it has no space, otherwise between double
   * quotes with `$` and backquotes escaped. The replacement of `"` by `"` leaves the text as it is.
   */
  function QuoteCommand(command: string): (r: string)
    ensures ' ' in command ==> |r| >= 2 && r[0] == '"' && r[|r| - 1] == '"'
  {
    if ' ' !in command then command
    else "\"" + ReplaceChar(ReplaceChar(ReplaceChar(command, '$', "\\$"), '"', "\""), '`', "\\`") + "\""
  }

  /**
   * How a POSIX shell reads the inside of a double-quoted word (section 2.2.3 of the Shell
   * Command Language, POSIX.1-2017): a backslash quotes a following `$`, backquote, `"`, backslash
   * or newline (a quoted newline disappears); the first unquoted `"` ends the word. The result
   * is the word and the text after the closing quote.
   */
  function ReadDoubleQuoted(s: string): Option<(string, string)>
    decreases |s|
  {
    if |s| == 0 then None
    else if s[0] == '"' then Some(("", s[1..]))
    else if s[0] == '\\' && |s| > 1 && s[1] in "$`\"\\\n" then
      match ReadDoubleQuoted(s[2..])
      case None => None
      case Some(p) => Some((if s[1] == '\n' then p.0 else [s[1]] + p.0, p.1))
    else
      match ReadDoubleQuoted(s[1..])
      case None => None
      case Some(p) => Some(([s[0]] + p.0, p.1))
  }

  /** The single word a shell reads from a text that is one double-quoted word */
  function ShellUnquote(q: string): Option<string>
  {
    if |q| > 0 && q[0] == '"' then
      match ReadDoubleQuoted(q[1..])
      case None => None
      case Some(p) => if p.1 == "" then Some(p.0) else None
    else None
  }

  /** A command with a space reaches pmjq as one word, unchanged, unless it holds `"` or `\`. */
  lemma QuoteRoundTrip(command: string)
    requires ' ' in command && '"' !in command && '\\' !in command
    ensures ShellUnquote(QuoteCommand(command)) == Some(command)
  {
    ReplaceSame(ReplaceChar(command, '$', "\\$"), '"');
    EscapedRead(command);
    var q := QuoteCommand(command);
    assert q[1..] == ReplaceChar(ReplaceChar(command, '$', "\\$"), '`', "\\`") + "\"";
  }

  /** The replacement of `"` by itself, as launch writes it, is the identity. */
  lemma {:induction false} ReplaceSame(s: string, c: char)
    ensures ReplaceChar(s, c, [c]) == s
  {
    if |s| > 0 {
      ReplaceSame(s[1..], c);
      assert s == [s[0]] + s[1..];
    }
  }

  lemma {:induction false} ReplaceAbsent(s: string, c: char, repl: string)
    requires c !in s
    ensures ReplaceChar(s, c, repl) == s
  {
    if |s| > 0 {
      assert c !in s[1..];
      ReplaceAbsent(s[1..], c, repl);
      assert s == [s[0]] + s[1..];
    }
  }

  lemma {:induction false} ReplaceCharConcat(a: string, b: string, c: char, repl: string)
    ensures ReplaceChar(a + b, c, repl) == ReplaceChar(a, c, repl) + ReplaceChar(b, c, repl)
  {
    if |a| > 0 {
      assert (a + b)[1..] == a[1..] + b;
      ReplaceCharConcat(a[1..], b, c, repl);
    } else {
      assert a + b == b;
    }
  }

  /** A word with no `"` and no backslash reads back up to the closing quote. */
  lemma {:induction false} ReadPlain(w: string, rest: string)
    requires '"' !in w && '\\' !in w
    ensures ReadDoubleQuoted(w + "\"" + rest) == Some((w, rest))
  {
    var s := w + "\"" + rest;
    if |w| == 0 {
      assert s == "\"" + rest;
      assert s[1..] == rest;
    } else {
      assert s[1..] == w[1..] + "\"" + rest;
      assert '"' !in w[1..] && '\\' !in w[1..];
      ReadPlain(w[1..], rest);
      assert w == [w[0]] + w[1..];
    }
  }

  /** A backslash before `c` is dropped and `c` is kept inside double quotes. */
  lemma ReadEscapedStep(c: char, rest: string, w: string, after: string)
    requires c in "$`\"\\" && ReadDoubleQuoted(rest) == Some((w, after))
    ensures ReadDoubleQuoted(['\\', c] + rest) == Some(([c] + w, after))
  {
    assert (['\\', c] + rest)[2..] == rest;
  }

  /** A character other than a double quote or a backslash is kept as it is. */
  lemma ReadPlainStep(c: char, rest: string, w: string, after: string)
    requires c != '"' && c != '\\' && ReadDoubleQuoted(rest) == Some((w, after))
    ensures ReadDoubleQuoted([c] + rest) == Some(([c] + w, after))
  {
    assert ([c] + rest)[1..] == rest;
  }

  /** The escaped text followed by the closing quote reads back as the command. */
  lemma {:induction false} EscapedRead(command: string)
    requires '"' !in command && '\\' !in command
    ensures ReadDoubleQuoted(ReplaceChar(ReplaceChar(command, '$', "\\$"), '`', "\\`") + "\"")
         == Some((command, ""))
  {
    var e := ReplaceChar(ReplaceChar(command, '$', "\\$"), '`', "\\`");
    if |command| == 0 {
      assert e + "\"" == "\"";
      assert "\""[1..] == "";
    } else {
      var x := command[0];
      var rest := command[1..];
      assert command == [x] + rest;
      assert '"' !in rest && '\\' !in rest;
      EscapedRead(rest);
      var er := ReplaceChar(ReplaceChar(rest, '$', "\\$"), '`', "\\`");
      var d1 := if x == '$' then "\\$" else [x];
      assert ReplaceChar(command, '$', "\\$") == d1 + ReplaceChar(rest, '$', "\\$");
      ReplaceCharConcat(d1, ReplaceChar(rest, '$', "\\$"), '`', "\\`");
      var d2 := ReplaceChar(d1, '`', "\\`");
      assert e == d2 + er;
      var s := e + "\"";
      assert s == d2 + (er + "\"");
      if x == '$' || x == '`' {
        assert d2 == ['\\', x] by {
          if x == '`' {
            assert d2 == "\\`" + ReplaceChar("", '`', "\\`");
          }
        }
        ReadEscapedStep(x, er + "\"", rest, "");
      } else {
        assert d2 == [x];
        ReadPlainStep(x, er + "\"", rest, "");
      }
    }
  }

  /**
   * A double quote inside a command is not escaped, so the shell ends the word early: a
   * command such as `echo "a b"` does not reach pmjq as it was typed.
   */
  lemma QuoteKeepsDoubleQuote(a: string, b: string)
    requires ' ' in a
    requires '"' !in a && '\\' !in a && '$' !in a && '`' !in a
    ensures ShellUnquote(QuoteCommand(a + "\"" + b)) == None
  {
    var c := a + "\"" + b;
    assert c == a + ("\"" + b);
    assert ' ' in c;
    var x1 := ReplaceChar(b, '$', "\\$");
    ReplaceCharConcat(a, "\"" + b, '$', "\\$");
    ReplaceAbsent(a, '$', "\\$");
    assert ReplaceChar("\"" + b, '$', "\\$") == "\"" + x1 by {
      assert ("\"" + b)[1..] == b;
    }
    ReplaceSame(ReplaceChar(c, '$', "\\$"), '"');
    var x3 := ReplaceChar(x1, '`', "\\`");
    ReplaceCharConcat(a, "\"" + x1, '`', "\\`");
    ReplaceAbsent(a, '`', "\\`");
    assert ReplaceChar("\"" + x1, '`', "\\`") == "\"" + x3 by {
      assert ("\"" + x1)[1..] == x1;
    }
    var q := QuoteCommand(c);
    var s := a + ("\"" + x3);
    assert q == "\"" + s + "\"";
    AfterOpenQuote(s);
    AppendAssoc(a, "\"" + x3, "\"");
    AppendAssoc("\"", x3, "\"");
    AppendAssoc(a, "\"", x3 + "\"");
    ReadPlain(a, x3 + "\"");
  }

  lemma AfterOpenQuote(s: string)
    ensures ("\"" + s + "\"")[1..] == s + "\""
  {
  }

  /** A command with a space and no `$` or backquote is only wrapped in double quotes. */
  lemma QuotePlain(c: string)
    requires ' ' in c && '$' !in c && '`' !in c
    ensures QuoteCommand(c) == "\"" + c + "\""
  {
    ReplaceAbsent(c, '$', "\\$");
    ReplaceSame(c, '"');
    ReplaceAbsent(c, '`', "\\`");
  }

  /**
   * The quoting launch.sh evidently means to write: `"` escaped with a backslash like `$` and
   * backquotes, so that the shell reads the word up to the closing quote only.
   */
  function QuoteCommandEscaped(command: string): (r: string)
    ensures ' ' in command ==> |r| >= 2 && r[0] == '"' && r[|r| - 1] == '"'
  {
    if ' ' !in command then command else "\"" + Escaped(command) + "\""
  }

  /** `$`, `"` and backquotes each preceded by a backslash */
  function Escaped(s: string): string
  {
    ReplaceChar(ReplaceChar(ReplaceChar(s, '$', "\\$"), '"', "\\\""), '`', "\\`")
  }

  /** With `"` escaped, every command with a space and no backslash reaches pmjq as typed. */
  lemma QuoteEscapedRoundTrip(command: string)
    requires ' ' in command && '\\' !in command
    ensures ShellUnquote(QuoteCommandEscaped(command)) == Some(command)
  {
    EscapedQuoteRead(command);
    var q := QuoteCommandEscaped(command);
    assert q[1..] == Escaped(command) + "\"";
  }

  lemma EscapedConcat(a: string, b: string)
    ensures Escaped(a + b) == Escaped(a) + Escaped(b)
  {
    ReplaceCharConcat(a, b, '$', "\\$");
    ReplaceCharConcat(ReplaceChar(a, '$', "\\$"), ReplaceChar(b, '$', "\\$"), '"', "\\\"");
    ReplaceCharConcat(ReplaceChar(ReplaceChar(a, '$', "\\$"), '"', "\\\""),
                      ReplaceChar(ReplaceChar(b, '$', "\\$"), '"', "\\\""), '`', "\\`");
  }

  lemma EscapedChar(x: char)
    ensures Escaped([x]) == if x == '$' || x == '"' || x == '`' then ['\\', x] else [x]
  {
    var d1 := if x == '$' then "\\$" else [x];
    assert ReplaceChar([x], '$', "\\$") == d1 + ReplaceChar([x][1..], '$', "\\$");
    assert [x][1..] == "";
    var d2 := if x == '"' then "\\\"" else d1;
    assert ReplaceChar(d1, '"', "\\\"") == d2 by {
      if x == '$' {
        assert d1[1..] == "$";
        assert ReplaceChar(d1[1..], '"', "\\\"") == "$" + ReplaceChar("", '"', "\\\"");
      } else {
        assert ReplaceChar(d1, '"', "\\\"") == d2 + ReplaceChar("", '"', "\\\"");
      }
    }
    if x == '$' || x == '"' {
      assert d2[1..] == [x];
      assert ReplaceChar(d2[1..], '`', "\\`") == [x] + ReplaceChar("", '`', "\\`");
    } else {
      assert ReplaceChar(d2, '`', "\\`") == (if x == '`' then "\\`" else [x]) + ReplaceChar("", '`', "\\`");
    }
  }

  /** The escaped text followed by the closing quote reads back as the text. */
  lemma {:induction false} EscapedQuoteRead(command: string)
    requires '\\' !in command
    ensures ReadDoubleQuoted(Escaped(command) + "\"") == Some((command, ""))
  {
    if |command| == 0 {
      assert Escaped(command) + "\"" == "\"";
      assert "\""[1..] == "";
    } else {
      var x, rest := command[0], command[1..];
      assert command == [x] + rest;
      EscapedQuoteRead(rest);
      EscapedConcat([x], rest);
      EscapedChar(x);
      var s := Escaped(command) + "\"";
      assert s == Escaped([x]) + (Escaped(rest) + "\"");
      if x == '$' || x == '"' || x == '`' {
        assert s[0] == '\\' && s[1] == x && s[2..] == Escaped(rest) + "\"";
      } else {
        assert s[0] == x && s[1..] == Escaped(rest) + "\"";
      }
    }
  }

  /** One line of launch.sh: a filter for one input and one output, the template otherwise */
  function PmjqLine(invs: set<Invocation>, inv: Invocation, digest: Digest, branchMerge: BranchMergeTemplate): string
  {
    var user := UserName(invs, inv, digest);
    if |inv.inputs| == 1 && |inv.outputs| == 1 then
      FilterLine(user, inv.inputs[0], QuoteCommand(inv.command), inv.outputs[0])
    else
      branchMerge(user, inv.pattern, Join(" ", inv.inputs), QuoteCommand(inv.command))
  }

  /**
   * `sorted(invocations, key=lambda i: i.command)`: every invocation once, by command; among
   * equal commands Python keeps the set's iteration order, which the caller chooses here.
   */
  predicate ByCommand(order: seq<Invocation>, invs: set<Invocation>)
  {
    && multiset(order) == multiset(invs)
    && forall j, k :: 0 <= j < k < |order| ==> Below(order[j].command, order[k].command)
  }

  function LaunchLines(invs: set<Invocation>, digest: Digest, branchMerge: BranchMergeTemplate, order: seq<Invocation>)
    : (r: seq<string>)
    ensures |r| == |order|
    ensures forall k :: 0 <= k < |order| ==> r[k] == PmjqLine(invs, order[k], digest, branchMerge)
  {
    if |order| == 0 then []
    else [PmjqLine(invs, order[0], digest, branchMerge)] + LaunchLines(invs, digest, branchMerge, order[1..])
  }

  /** `launch`: the shebang, then one pmjq line per invocation by command */
  function Launch(invs: set<Invocation>, digest: Digest, branchMerge: BranchMergeTemplate, order: seq<Invocation>)
    : string
    requires ByCommand(order, invs)
  {
    Shebang + "\n" + Join("\n", LaunchLines(invs, digest, branchMerge, order)) + "\n"
  }

  /** The order lists every invocation exactly once. */
  lemma ByCommandMembers(order: seq<Invocation>, invs: set<Invocation>)
    requires ByCommand(order, invs)
    ensures |order| == |invs| && forall i :: i in invs <==> i in order
  {
    assert |multiset(order)| == |order|;
    forall i ensures i in invs <==> i in order {
      assert i in order <==> i in multiset(order);
    }
  }

  /** launch.sh holds exactly one line per invocation, in the order of their commands. */
  lemma LaunchScriptLines(invs: set<Invocation>, digest: Digest, branchMerge: BranchMergeTemplate, order: seq<Invocation>)
    requires ByCommand(order, invs) && invs != {}
    requires forall i :: i in invs ==> '\n' !in PmjqLine(invs, i, digest, branchMerge)
    ensures |order| == |invs| && forall i :: i in invs <==> i in order
    ensures Split(Launch(invs, digest, branchMerge, order), '\n')
         == [Shebang] + (LaunchLines(invs, digest, branchMerge, order) + [""])
  {
    ByCommandMembers(order, invs);
    LaunchLinesSingle(invs, digest, branchMerge, order);
    var lines := LaunchLines(invs, digest, branchMerge, order);
    assert |lines| > 0;
    assert Launch(invs, digest, branchMerge, order) == Shebang + "\n" + Join("\n", lines) + "\n";
    ShebangOneLine();
    LinesText(Shebang, lines);
  }

  lemma LaunchLinesSingle(invs: set<Invocation>, digest: Digest, branchMerge: BranchMergeTemplate, order: seq<Invocation>)
    requires forall i :: i in invs ==> '\n' !in PmjqLine(invs, i, digest, branchMerge)
    requires forall i :: i in order ==> i in invs
    ensures forall k :: 0 <= k < |order| ==> '\n' !in LaunchLines(invs, digest, branchMerge, order)[k]
  {
    forall k | 0 <= k < |order| ensures '\n' !in LaunchLines(invs, digest, branchMerge, order)[k] {
      assert order[k] in order;
    }
  }

  lemma LinesText(head: string, lines: seq<string>)
    requires '\n' !in head
    requires |lines| > 0 && forall k :: 0 <= k < |lines| ==> '\n' !in lines[k]
    ensures Split(head + "\n" + Join("\n", lines) + "\n", '\n') == [head] + (lines + [""])
  {
    var body := Join("\n", lines);
    var e: string := "";
    var tail := body + ['\n'] + e;
    assert head + "\n" + body + "\n" == head + ['\n'] + tail;
    SplitJoin(lines, '\n');
    SplitConcat(body, e, '\n');
    assert Split(e, '\n') == [""];
    SplitFirst(head, tail, '\n');
  }

  /** `EOFError`: the answers ran out before an empty command ended them */
  datatype InputError = EndOfInput

  /**
   * One invocation read from the answers at `pos` (a non-empty command): its input
   * directories, its pattern when it has several inputs, its output directories; `None` when
   * the answers run out first. Also the position after it.
   */
  function ReadOne(answers: seq<string>, pos: nat): (r: Option<(Invocation, nat)>)
    requires pos < |answers|
    ensures r.Some? ==> pos < r.value.1 <= |answers|
  {
    if pos + 1 == |answers| then None
    else
      var inputs := DirList(answers[pos + 1]);
      var outputsAt := if |inputs| > 1 then pos + 3 else pos + 2;
      if outputsAt >= |answers| then None
      else
        var pattern := if |inputs| > 1 && answers[pos + 2] != "" then answers[pos + 2] else "(.*)";
        var outputs := DirList(answers[outputsAt]);
        Some((Invocation(inputs, answers[pos], outputs, pattern), outputsAt + 1))
  }

  /** `tuple(sorted(answer.split(' ')))`: the directories of one answer */
  function DirList(answer: string): seq<string>
  {
    SortSeq(Split(answer, ' '))
  }

  /** An answer names at least one directory, and they come sorted. */
  lemma DirListSorted(answer: string)
    ensures |DirList(answer)| > 0 && Sorted(DirList(answer))
    ensures multiset(DirList(answer)) == multiset(Split(answer, ' '))
  {
    assert |DirList(answer)| == |multiset(DirList(answer))|;
  }

  /** What the compiler expects of an invocation typed in */
  predicate WellFormedInput(i: Invocation)
  {
    && |i.inputs| > 0 && |i.outputs| > 0
    && Sorted(i.inputs) && Sorted(i.outputs)
    && i.pattern != ""
    && (|i.inputs| == 1 ==> i.pattern == "(.*)")
  }

  /** The invocations typed in from `answers[pos..]`, as `read_user_input` collects them */
  function ReadFrom(answers: seq<string>, pos: nat): Result<set<Invocation>, InputError>
    requires pos <= |answers|
    decreases |answers| - pos
  {
    if pos == |answers| then Err(EndOfInput)
    else if answers[pos] == "" then Ok({})
    else
      match ReadOne(answers, pos)
      case None => Err(EndOfInput)
      case Some(p) =>
        match ReadFrom(answers, p.1)
        case Ok(rest) => Ok({p.0} + rest)
        case Err(e) => Err(e)
  }

  function Gather(acc: set<Invocation>, r: Result<set<Invocation>, InputError>): Result<set<Invocation>, InputError>
  {
    match r
    case Ok(s) => Ok(acc + s)
    case Err(e) => Err(e)
  }

  /**
   * `read_user_input` over the lines the user types: command, input directories, a pattern
   * when there are several inputs (empty for the default), output directories; an empty
   * command ends the input.
   */
  method ReadUserInput(answers: seq<string>) returns (r: Result<set<Invocation>, InputError>)
    ensures r == ReadFrom(answers, 0)
  {
    var answer: set<Invocation> := {};
    var pos := 0;
    assert Gather({}, ReadFrom(answers, 0)) == ReadFrom(answers, 0) by {
      if ReadFrom(answers, 0).Ok? {
        assert {} + ReadFrom(answers, 0).value == ReadFrom(answers, 0).value;
      }
    }
    while true
      invariant pos <= |answers|
      invariant ReadFrom(answers, 0) == Gather(answer, ReadFrom(answers, pos))
      decreases |answers| - pos
    {
      if pos == |answers| {
        return Err(EndOfInput);
      }
      if answers[pos] == "" {
        return Ok(answer);
      }
      var next := ReadOne(answers, pos);
      if next.None? {
        return Err(EndOfInput);
      }
      var (inv, after) := next.value;
      GatherStep(answers, pos, answer, inv, after);
      answer := answer + {inv};
      pos := after;
    }
  }

  /** Reading one invocation moves it from what is left to read to what is gathered. */
  lemma GatherStep(answers: seq<string>, pos: nat, acc: set<Invocation>, inv: Invocation, next: nat)
    requires pos < |answers| && answers[pos] != ""
    requires ReadOne(answers, pos) == Some((inv, next))
    ensures Gather(acc, ReadFrom(answers, pos)) == Gather(acc + {inv}, ReadFrom(answers, next))
  {
    if ReadFrom(answers, next).Ok? {
      var rest := ReadFrom(answers, next).value;
      assert acc + ({inv} + rest) == acc + {inv} + rest;
    }
  }

  /** Every invocation the dialogue produces is well formed. */
  lemma {:induction false} ReadInvocationsWellFormed(answers: seq<string>, pos: nat)
    requires pos <= |answers|
    requires ReadFrom(answers, pos).Ok?
    ensures forall i :: i in ReadFrom(answers, pos).value ==> WellFormedInput(i) && i.command != ""
    decreases |answers| - pos
  {
    if answers[pos] != "" {
      var p := ReadOne(answers, pos).value;
      DirListSorted(answers[pos + 1]);
      DirListSorted(answers[p.1 - 1]);
      ReadInvocationsWellFormed(answers, p.1);
    }
  }
}
