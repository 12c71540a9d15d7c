/**
 * The setup and cleanup scripts of pmjqtools/tools.py read line by line, for networks whose
 * directory and invocation names are plain words: what setup.sh creates, cleanup.sh deletes.
 */
module ScriptLines {
  import opened Strings
  import opened Sorting
  import opened Templates
  import opened Tools

  /** A character of a plain name: no white space, no `,`, `:`, `"` or backquote */
  predicate PlainChar(c: char)
  {
    !IsSpace(c) && c != ',' && c != ':' && c != '"' && c != '`'
  }

  /** A name the scripts can carry through their separators unchanged */
  predicate PlainName(s: string)
  {
    |s| > 0 && forall c :: c in s ==> PlainChar(c)
  }

  /** Every invocation name and every directory of the network is a plain name. */
  predicate PlainNet(invs: set<Invocation>, digest: Digest)
  {
    && (forall i :: i in invs ==> PlainName(InvocationName(invs, i, digest)))
    && (forall d :: d in Dirs(invs) ==> PlainName(d))
  }

  /** The groups setup.sh creates, in the order it creates them */
  function SetupGroups(invs: set<Invocation>, digest: Digest): seq<string>
    requires ReadsOnce(invs)
  {
    SortSeq(GroupList(invs, digest))
  }

  /** The users setup.sh creates, in the order it creates them */
  function SetupUsers(invs: set<Invocation>, digest: Digest): seq<string>
    requires ReadsOnce(invs) && DistinctNames(invs, digest)
  {
    SortSet(User2Groups(invs, digest).Keys)
  }

  /** The directories setup.sh creates, in the order it creates them */
  function SetupDirs(invs: set<Invocation>): (r: seq<string>)
    ensures forall d :: d in r <==> d in Dirs(invs)
  {
    SortSetMembers(Dirs(invs));
    SortSet(Dirs(invs))
  }

  /** The lines of the mkdir section: four per directory, the last one blank */
  function MkdirLines(invs: set<Invocation>, digest: Digest, dirs: seq<string>): (r: seq<string>)
    requires ReadsOnce(invs) && forall d :: d in dirs ==> d in Dirs(invs)
    ensures |r| == 4 * |dirs|
  {
    if |dirs| == 0 then []
    else
      var d := dirs[0];
      ["mkdir " + d, "chmod 510 " + d, "chown " + Owner(invs, d, digest) + ":" + DirGroups(invs, digest)[d] + " " + d, ""]
      + MkdirLines(invs, digest, dirs[1..])
  }

  /** The groupadd lines of setup.sh */
  function GroupAddSection(invs: set<Invocation>, digest: Digest): seq<string>
    requires ReadsOnce(invs)
  {
    Prefixed("groupadd ", SetupGroups(invs, digest))
  }

  /** The useradd lines of setup.sh */
  function UserAddSection(invs: set<Invocation>, digest: Digest): seq<string>
    requires HasInputs(invs) && ReadsOnce(invs) && DistinctNames(invs, digest)
  {
    var u2g := User2Groups(invs, digest);
    UserGroupsNonEmpty(invs, digest);
    SortSetMembers(u2g.Keys);
    UserAddLines(u2g, SetupUsers(invs, digest))
  }

  /** The mkdir, chmod and chown lines of setup.sh */
  function MkdirSection(invs: set<Invocation>, digest: Digest): seq<string>
    requires ReadsOnce(invs)
  {
    MkdirLines(invs, digest, SetupDirs(invs))
  }

  /** setup.sh line by line */
  function SetupLines(invs: set<Invocation>, digest: Digest): seq<string>
    requires HasInputs(invs) && ReadsOnce(invs) && DistinctNames(invs, digest)
  {
    [Shebang] + (GroupAddSection(invs, digest) + ([""] + ([UserMod(invs, digest)] + ([""]
      + (UserAddSection(invs, digest) + ([""] + (MkdirSection(invs, digest) + [""])))))))
  }

  /**
   * setup.sh is, line by line: the shebang, one groupadd per group, a blank line, the usermod
   * line, a blank line, one useradd per user, a blank line, then four lines per directory.
   */
  lemma SetupText(invs: set<Invocation>, digest: Digest)
    requires invs != {} && HasInputs(invs) && ReadsOnce(invs) && DistinctNames(invs, digest)
    requires PlainNet(invs, digest)
    ensures Split(Setup(invs, digest), '\n') == SetupLines(invs, digest)
  {
    GroupAddText(invs, digest);
    UserModOneLine(invs, digest);
    UserAddText(invs, digest);
    MkdirText(invs, digest);
    SetupScriptLines(GroupAdd(invs, digest), UserMod(invs, digest), UserAdd(invs, digest), Mkdir(invs, digest));
    var uaLines := UserAddSection(invs, digest);
    var mkLines := MkdirSection(invs, digest);
    AppendAssoc(uaLines, [""], mkLines + [""]);
  }

  /**
   * cleanup.sh is, line by line: the shebang, one groupdel per group setup.sh creates, a blank
   * line, one userdel per user it creates, a blank line, one `rm -r` per directory it creates,
   * each in the same order as setup.sh.
   */
  lemma CleanupText(invs: set<Invocation>, digest: Digest)
    requires invs != {} && HasInputs(invs) && ReadsOnce(invs) && DistinctNames(invs, digest)
    requires PlainNet(invs, digest)
    ensures Split(Cleanup(invs, digest), '\n')
         == [Shebang] + (Prefixed("groupdel ", SetupGroups(invs, digest)) + ([""]
            + (Prefixed("userdel ", SetupUsers(invs, digest)) + ([""] + (Prefixed("rm -r ", SetupDirs(invs)) + [""])))))
  {
    var gs := SetupGroups(invs, digest);
    var us := SetupUsers(invs, digest);
    var ds := SetupDirs(invs);
    SetupGroupsPlain(invs, digest);
    SetupUsersPlain(invs, digest);
    SetupDirsPlain(invs);
    LiteralsOneLine();
    PrefixedText("groupdel ", gs);
    PrefixedText("userdel ", us);
    PrefixedText("rm -r ", ds);
    CleanupScriptLines(Join("\n", Prefixed("groupdel ", gs)), Join("\n", Prefixed("userdel ", us)),
                       Join("\n", Prefixed("rm -r ", ds)));
  }

  /** A list of prefixed one-line names, joined by newlines, splits back into itself. */
  lemma PrefixedText(p: string, xs: seq<string>)
    requires |xs| > 0 && '\n' !in p && forall x :: x in xs ==> '\n' !in x
    ensures Split(Join("\n", Prefixed(p, xs)), '\n') == Prefixed(p, xs)
  {
    var lines := Prefixed(p, xs);
    forall k | 0 <= k < |lines| ensures '\n' !in lines[k] {
      assert xs[k] in xs;
    }
    SplitJoin(lines, '\n');
  }

  lemma LiteralsOneLine()
    ensures '\n' !in "groupadd " && '\n' !in "groupdel " && '\n' !in "userdel " && '\n' !in "rm -r "
    ensures '\n' !in "usermod -a -G " && '\n' !in " `whoami`" && '\n' !in "`whoami`"
    ensures '\n' !in "useradd -M -N -g " && '\n' !in " -G " && '\n' !in " " && '\n' !in "," && '\n' !in "pu_"
  {
  }

  lemma PlainOneLine(s: string)
    requires PlainName(s)
    ensures '\n' !in s
  {
    assert !PlainChar('\n');
  }

  lemma DigitsPlain(n: nat)
    ensures forall c :: c in NatToString(n) ==> PlainChar(c)
  {
    forall c | c in NatToString(n) ensures PlainChar(c) {
      var k :| 0 <= k < |NatToString(n)| && NatToString(n)[k] == c;
    }
  }

  lemma PrefixPlain()
    ensures forall c :: c in "pg_" ==> PlainChar(c)
    ensures forall c :: c in "pu_" ==> PlainChar(c)
    ensures PlainChar('_')
  {
  }

  /** Every group `dir2group` gives is `pg_` and a plain name. */
  lemma GroupPlain(invs: set<Invocation>, digest: Digest, d: string)
    requires ReadsOnce(invs) && PlainNet(invs, digest) && d in Dirs(invs)
    ensures var g := DirGroups(invs, digest)[d]; PlainName(g) && |g| > 3 && StartsWith(g, "pg_")
  {
    PrefixPlain();
    if d in InputDirs(invs) {
      var r := Reader(invs, d);
      GroupForPlain(InvocationName(invs, r, digest), r.inputs, d);
    } else {
      assert PlainName(d);
    }
  }

  lemma GroupForPlain(name: string, inputs: seq<string>, d: string)
    requires PlainName(name) && d in inputs
    ensures PlainName(GroupFor(name, inputs, d)) && |GroupFor(name, inputs, d)| > 3
  {
    PrefixPlain();
    if |inputs| > 1 {
      DigitsPlain(LastIndex(inputs, d));
    }
  }

  lemma GroupListPlain(invs: set<Invocation>, digest: Digest)
    requires ReadsOnce(invs) && PlainNet(invs, digest)
    ensures forall g :: g in GroupList(invs, digest) ==> '\n' !in g
    ensures |GroupList(invs, digest)| == |Dirs(invs)|
  {
    var d2g := DirGroups(invs, digest);
    SortSetMembers(d2g.Keys);
    GroupsOfExact(d2g, SortSet(d2g.Keys));
    forall g | g in GroupList(invs, digest) ensures '\n' !in g {
      var d :| d in SortSet(d2g.Keys) && d in d2g && g == d2g[d];
      GroupPlain(invs, digest, d);
      PlainOneLine(g);
    }
    assert |SortSet(d2g.Keys)| == |multiset(SortSet(d2g.Keys))| == |d2g.Keys|;
  }

  lemma SetupGroupsPlain(invs: set<Invocation>, digest: Digest)
    requires ReadsOnce(invs) && PlainNet(invs, digest)
    ensures forall g :: g in SetupGroups(invs, digest) ==> '\n' !in g
    ensures |SetupGroups(invs, digest)| == |Dirs(invs)|
  {
    var gl := GroupList(invs, digest);
    GroupListPlain(invs, digest);
    forall g | g in SortSeq(gl) ensures '\n' !in g {
      assert g in multiset(SortSeq(gl));
    }
    assert |SortSeq(gl)| == |multiset(SortSeq(gl))| == |gl|;
  }

  lemma SetupUsersPlain(invs: set<Invocation>, digest: Digest)
    requires invs != {} && ReadsOnce(invs) && DistinctNames(invs, digest) && PlainNet(invs, digest)
    ensures forall u :: u in SetupUsers(invs, digest) ==> '\n' !in u
    ensures |SetupUsers(invs, digest)| > 0
  {
    var keys := User2Groups(invs, digest).Keys;
    SortSetMembers(keys);
    LiteralsOneLine();
    forall u | u in keys ensures '\n' !in u {
      var i :| i in invs && UserName(invs, i, digest) == u;
      PlainOneLine(InvocationName(invs, i, digest));
    }
    var i :| i in invs;
    assert UserName(invs, i, digest) in keys;
    assert |SortSet(keys)| == |multiset(SortSet(keys))| == |keys|;
  }

  lemma SetupDirsPlain(invs: set<Invocation>)
    requires invs != {} && HasInputs(invs)
    requires forall d :: d in Dirs(invs) ==> PlainName(d)
    ensures forall d :: d in SetupDirs(invs) ==> d in Dirs(invs) && '\n' !in d
    ensures |SetupDirs(invs)| > 0
  {
    SortSetMembers(Dirs(invs));
    forall d | d in Dirs(invs) ensures '\n' !in d {
      PlainOneLine(d);
    }
    var i :| i in invs;
    DirsOf(invs, i);
    assert i.inputs[0] in Dirs(invs);
    assert |SortSet(Dirs(invs))| == |multiset(SortSet(Dirs(invs)))| == |Dirs(invs)|;
  }

  lemma GroupAddText(invs: set<Invocation>, digest: Digest)
    requires invs != {} && HasInputs(invs) && ReadsOnce(invs) && PlainNet(invs, digest)
    ensures Split(GroupAdd(invs, digest), '\n') == GroupAddSection(invs, digest)
  {
    SortPrefixed("groupadd ", GroupList(invs, digest));
    SetupGroupsPlain(invs, digest);
    SetupDirsPlain(invs);
    LiteralsOneLine();
    PrefixedText("groupadd ", SetupGroups(invs, digest));
  }

  lemma JoinOneLine(sep: string, xs: seq<string>)
    requires '\n' !in sep && forall x :: x in xs ==> '\n' !in x
    ensures '\n' !in Join(sep, xs)
  {
    if |xs| > 1 {
      JoinOneLine(sep, xs[1..]);
    }
  }

  lemma UserModOneLine(invs: set<Invocation>, digest: Digest)
    requires ReadsOnce(invs) && PlainNet(invs, digest)
    ensures '\n' !in UserMod(invs, digest)
  {
    SetupGroupsPlain(invs, digest);
    LiteralsOneLine();
    JoinOneLine(",", SetupGroups(invs, digest));
  }

  /**
   * The usermod line adds the user running the script to every directory's group and to no other
   * group, one entry per directory, in sorted order.
   */
  lemma UserModGroups(invs: set<Invocation>, digest: Digest)
    requires ReadsOnce(invs)
    ensures var gs := SetupGroups(invs, digest);
            var d2g := DirGroups(invs, digest);
            UserMod(invs, digest) == "usermod -a -G " + Join(",", gs) + " `whoami`"
            && Sorted(gs) && |gs| == |Dirs(invs)|
            && forall g :: g in gs <==> exists d :: d in Dirs(invs) && g == d2g[d]
  {
    GroupListMembers(invs, digest);
    SortSeqMembers(GroupList(invs, digest));
  }

  /** `dir2group(...).values()` holds one group per directory, and the groups are those of the directories. */
  lemma GroupListMembers(invs: set<Invocation>, digest: Digest)
    requires ReadsOnce(invs)
    ensures var d2g := DirGroups(invs, digest);
            |GroupList(invs, digest)| == |Dirs(invs)|
            && forall g :: g in GroupList(invs, digest) <==> exists d :: d in Dirs(invs) && g == d2g[d]
  {
    var d2g := DirGroups(invs, digest);
    var dirs := SortSet(d2g.Keys);
    SortSetMembers(d2g.Keys);
    GroupsOfExact(d2g, dirs);
    assert |dirs| == |multiset(dirs)| == |Dirs(invs)|;
  }

  lemma UserAddText(invs: set<Invocation>, digest: Digest)
    requires invs != {} && HasInputs(invs) && ReadsOnce(invs) && DistinctNames(invs, digest) && PlainNet(invs, digest)
    ensures Split(UserAdd(invs, digest), '\n') == UserAddSection(invs, digest) + [""]
  {
    var lines := UserAddSection(invs, digest);
    assert UserAdd(invs, digest) == Join("\n", lines) + "\n";
    UserAddSectionOneLine(invs, digest);
    LastLine(Join("\n", lines));
    SplitJoin(lines, '\n');
  }

  /** Each useradd line is one line, and there is one per user. */
  lemma UserAddSectionOneLine(invs: set<Invocation>, digest: Digest)
    requires invs != {} && HasInputs(invs) && ReadsOnce(invs) && DistinctNames(invs, digest) && PlainNet(invs, digest)
    ensures var lines := UserAddSection(invs, digest);
      |lines| > 0 && forall k :: 0 <= k < |lines| ==> '\n' !in lines[k]
  {
    var u2g := User2Groups(invs, digest);
    UserGroupsNonEmpty(invs, digest);
    SortSetMembers(u2g.Keys);
    var users := SetupUsers(invs, digest);
    SetupUsersPlain(invs, digest);
    var lines := UserAddLines(u2g, users);
    forall k | 0 <= k < |lines| ensures '\n' !in lines[k] {
      UserAddLineOneLine(invs, digest, users[k]);
    }
  }

  lemma UserAddLineOneLine(invs: set<Invocation>, digest: Digest, u: string)
    requires HasInputs(invs) && ReadsOnce(invs) && DistinctNames(invs, digest) && PlainNet(invs, digest)
    requires u in User2Groups(invs, digest)
    requires '\n' !in u
    ensures |User2Groups(invs, digest)[u]| > 0
    ensures '\n' !in UserAddLine(u, User2Groups(invs, digest)[u])
  {
    var u2g := User2Groups(invs, digest);
    var i :| i in invs && UserName(invs, i, digest) == u;
    UserGroupsExact(invs, digest, i);
    var gs := u2g[u];
    var d2g := DirGroups(invs, digest);
    forall g | g in gs ensures '\n' !in g {
      var d :| d in i.inputs + i.outputs && d in d2g && g == d2g[d];
      GroupPlain(invs, digest, d);
      PlainOneLine(g);
    }
    LiteralsOneLine();
    JoinOneLine(",", gs[1..]);
  }

  lemma MkdirText(invs: set<Invocation>, digest: Digest)
    requires invs != {} && HasInputs(invs) && ReadsOnce(invs) && PlainNet(invs, digest)
    ensures Split(Mkdir(invs, digest), '\n') == MkdirSection(invs, digest)
  {
    SortSetMembers(Dirs(invs));
    SetupDirsPlain(invs);
    var dirs := SetupDirs(invs);
    SplitJoinEach(MkdirBlocks(invs, digest, dirs), '\n');
    MkdirEach(invs, digest, dirs);
  }

  lemma {:induction false} MkdirEach(invs: set<Invocation>, digest: Digest, dirs: seq<string>)
    requires ReadsOnce(invs) && PlainNet(invs, digest)
    requires forall d :: d in dirs ==> d in Dirs(invs)
    ensures SplitEach(MkdirBlocks(invs, digest, dirs), '\n') == MkdirLines(invs, digest, dirs)
  {
    if |dirs| > 0 {
      var d := dirs[0];
      var owner := Owner(invs, d, digest);
      var group := DirGroups(invs, digest)[d];
      PlainOneLine(d);
      GroupPlain(invs, digest, d);
      PlainOneLine(group);
      LiteralsOneLine();
      if d in InputDirs(invs) {
        PlainOneLine(InvocationName(invs, Reader(invs, d), digest));
      }
      MkdirBlockLines(d, owner, group);
      MkdirEach(invs, digest, dirs[1..]);
      assert MkdirBlocks(invs, digest, dirs)[1..] == MkdirBlocks(invs, digest, dirs[1..]);
    }
  }
}
