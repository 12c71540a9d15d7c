/** `pmjqtools/dsl.py`: normalising transitions, the pmjq command line, the dot picture of a dataflow. */
module Dsl {
  import opened Wrappers
  import opened Strings
  import opened Paths
  import opened Transitions

  // ----- normalize -----

  /** The first assertion of `normalize` that fails, if any */
  function CheckError(m: Dict): (r: Option<NormError>)
    ensures r.None? <==> ShorthandError(m).None? && "cmd" in m
    ensures r == Some(MissingCmd) <==> ShorthandError(m).None? && "cmd" !in m
  {
    if ShorthandError(m).Some? then ShorthandError(m) else if "cmd" !in m then Some(MissingCmd) else None
  }

  /** The shorthand `short` becomes a one-element list under `long`, and is deleted. */
  function Expand(m: Dict, short: string, long: string): (r: Dict)
    requires StrAt(m, short) && ListAt(m, long) && WellTyped(m)
    requires (short == "stdin" && long == "inputs") || (short == "stdout" && long == "outputs")
          || (short == "error" && long == "errors")
    ensures WellTyped(r)
  {
    if short in m then m[long := List([m[short].s])] - {short} else m
  }

  /** `id` defaults to `cmd`. */
  function DefaultId(m: Dict): (r: Dict)
    requires "cmd" in m && WellTyped(m)
    ensures WellTyped(r)
  {
    if "id" in m then m else m["id" := m["cmd"]]
  }

  /** A relative path is joined onto the root; an absolute one is kept. */
  function Resolve(root: string, p: string): string
  {
    if IsAbs(p) then p else PathJoin(root, p)
  }

  function ResolveAll(root: string, xs: seq<string>): seq<string>
  {
    seq(|xs|, k requires 0 <= k < |xs| => Resolve(root, xs[k]))
  }

  predicate IsListKey(key: string)
  {
    key == "inputs" || key == "outputs" || key == "errors"
  }

  predicate IsPathKey(key: string)
  {
    key == "log" || key == "stderr"
  }

  function ResolveList(m: Dict, root: string, key: string): (r: Dict)
    requires WellTyped(m) && IsListKey(key)
    ensures WellTyped(r)
  {
    if key in m then m[key := List(ResolveAll(root, m[key].items))] else m
  }

  function ResolvePath(m: Dict, root: string, key: string): (r: Dict)
    requires WellTyped(m) && IsPathKey(key)
    ensures WellTyped(r)
  {
    if key in m && !IsAbs(m[key].s) then m[key := Str(PathJoin(root, m[key].s))] else m
  }

  /** The lists under `keys`, one key after the other, resolved against the root */
  function ResolveLists(m: Dict, root: string, keys: seq<string>): (r: Dict)
    requires WellTyped(m) && forall k :: k in keys ==> IsListKey(k)
    ensures WellTyped(r)
    decreases |keys|
  {
    if |keys| == 0 then m
    else ResolveList(ResolveLists(m, root, keys[..|keys| - 1]), root, keys[|keys| - 1])
  }

  /** The paths under `keys`, one key after the other, resolved against the root */
  function ResolvePaths(m: Dict, root: string, keys: seq<string>): (r: Dict)
    requires WellTyped(m) && forall k :: k in keys ==> IsPathKey(k)
    ensures WellTyped(r)
    decreases |keys|
  {
    if |keys| == 0 then m
    else ResolvePath(ResolvePaths(m, root, keys[..|keys| - 1]), root, keys[|keys| - 1])
  }

  const ListKeys: seq<string> := ["inputs", "outputs", "errors"]
  const PathKeys: seq<string> := ["log", "stderr"]

  /** The shorthands expanded and `id` defaulted: the dictionary before its paths are resolved */
  function Named(m: Dict): (r: Dict)
    requires WellTyped(m) && CheckError(m).None?
    ensures WellTyped(r)
  {
    DefaultId(Expand(Expand(Expand(m, "stdin", "inputs"), "stdout", "outputs"), "error", "errors"))
  }

  /** The three lists resolved, in the order of `ListKeys` */
  function ListsResolved(m: Dict, root: string): (r: Dict)
    requires WellTyped(m)
    ensures WellTyped(r)
  {
    ResolveList(ResolveList(ResolveList(m, root, "inputs"), root, "outputs"), root, "errors")
  }

  /** The two paths resolved, in the order of `PathKeys` */
  function PathsResolved(m: Dict, root: string): (r: Dict)
    requires WellTyped(m)
    ensures WellTyped(r)
  {
    ResolvePath(ResolvePath(m, root, "log"), root, "stderr")
  }

  /** The dictionary `normalize` leaves behind when its assertions hold */
  function Normalized(m: Dict, root: string): (r: Dict)
    requires WellTyped(m) && CheckError(m).None?
    ensures WellTyped(r)
  {
    PathsResolved(ListsResolved(Named(m), root), root)
  }

  /**
   * `normalize(transition, root)`, with `root` already made absolute by the caller (or "" for no
   * root): an assertion that fails leaves the dictionary as it was; otherwise the dictionary is
   * rewritten in place.
   */
  method Normalize(t: TransitionDict, root: string) returns (err: Option<NormError>)
    requires WellTyped(t.entries)
    modifies t
    ensures err == CheckError(old(t.entries))
    ensures err.Some? ==> t.entries == old(t.entries)
    ensures err.None? ==> t.entries == Normalized(old(t.entries), root)
  {
    if ("stdin" in t.entries) == ("inputs" in t.entries) {
      return Some(StdinXorInputs);
    }
    if ("stdout" in t.entries) == ("outputs" in t.entries) {
      return Some(StdoutXorOutputs);
    }
    if "error" in t.entries && "errors" in t.entries {
      return Some(ErrorNandErrors);
    }
    if "cmd" !in t.entries {
      return Some(MissingCmd);
    }
    err := None;
    ExpandShorthands(t);
    ResolveListKeys(t, root);
    ResolvePathKeys(t, root);
  }

  /** The shorthands of `normalize` become lists and `id` gets its default, in place. */
  method ExpandShorthands(t: TransitionDict)
    requires WellTyped(t.entries) && CheckError(t.entries).None?
    modifies t
    ensures WellTyped(t.entries)
    ensures t.entries == Named(old(t.entries))
  {
    ExpandOne(t, "stdin", "inputs");
    ExpandOne(t, "stdout", "outputs");
    ExpandOne(t, "error", "errors");
    if "id" !in t.entries {
      t.entries := t.entries["id" := t.entries["cmd"]];
    }
  }

  method ExpandOne(t: TransitionDict, short: string, long: string)
    requires StrAt(t.entries, short) && ListAt(t.entries, long) && WellTyped(t.entries)
    requires (short == "stdin" && long == "inputs") || (short == "stdout" && long == "outputs")
          || (short == "error" && long == "errors")
    modifies t
    ensures t.entries == Expand(old(t.entries), short, long)
  {
    if short in t.entries {
      t.entries := t.entries[long := List([t.entries[short].s])];
      t.entries := t.entries - {short};
    }
  }

  /** The outer loop of `normalize` over the list keys */
  method ResolveListKeys(t: TransitionDict, root: string)
    requires WellTyped(t.entries)
    modifies t
    ensures WellTyped(t.entries)
    ensures t.entries == ListsResolved(old(t.entries), root)
  {
    var listKeys := ListKeys;
    for j := 0 to |listKeys|
      invariant WellTyped(t.entries)
      invariant t.entries == ResolveLists(old(t.entries), root, listKeys[..j])
    {
      if listKeys[j] in t.entries {
        ResolveItems(t, root, listKeys[j]);
      }
      assert listKeys[..j + 1][..j] == listKeys[..j];
    }
    assert listKeys[..|listKeys|] == ListKeys;
    ListsUnfold(old(t.entries), root);
  }

  /** The loop of `normalize` over `log` and `stderr` */
  method ResolvePathKeys(t: TransitionDict, root: string)
    requires WellTyped(t.entries)
    modifies t
    ensures t.entries == PathsResolved(old(t.entries), root)
  {
    var pathKeys := PathKeys;
    for j := 0 to |pathKeys|
      invariant WellTyped(t.entries)
      invariant t.entries == ResolvePaths(old(t.entries), root, pathKeys[..j])
    {
      var key := pathKeys[j];
      if key in t.entries && !IsAbs(t.entries[key].s) {
        t.entries := t.entries[key := Str(PathJoin(root, t.entries[key].s))];
      }
      assert pathKeys[..j + 1][..j] == pathKeys[..j];
    }
    assert pathKeys[..|pathKeys|] == PathKeys;
    PathsUnfold(old(t.entries), root);
  }

  /** The inner loop of `normalize`: each relative path of the list under `key` is joined onto the root, in place. */
  method ResolveItems(t: TransitionDict, root: string, key: string)
    requires key in t.entries && t.entries[key].List?
    modifies t
    ensures t.entries == old(t.entries)[key := List(ResolveAll(root, old(t.entries)[key].items))]
  {
    ghost var xs0 := t.entries[key].items;
    var n := |t.entries[key].items|;
    for i := 0 to n
      invariant key in t.entries && t.entries[key].List?
      invariant t.entries == old(t.entries)[key := t.entries[key]]
      invariant |t.entries[key].items| == n
      invariant forall k :: 0 <= k < i ==> t.entries[key].items[k] == Resolve(root, xs0[k])
      invariant forall k :: i <= k < n ==> t.entries[key].items[k] == xs0[k]
    {
      var xs := t.entries[key].items;
      if !IsAbs(xs[i]) {
        t.entries := t.entries[key := List(xs[i := PathJoin(root, xs[i])])];
      }
    }
    assert t.entries[key].items == ResolveAll(root, xs0);
  }

  /** The paths a transition gives under the shorthand `short` or the list key `long` */
  function Given(m: Dict, short: string, long: string): seq<string>
    requires StrAt(m, short) && ListAt(m, long)
  {
    if short in m then [m[short].s] else if long in m then m[long].items else []
  }

  /** The keys the expansion of the shorthands and the default `id` write or delete */
  predicate Renamed(k: string)
  {
    k == "stdin" || k == "stdout" || k == "error" || IsListKey(k) || k == "id"
  }

  /** The keys `normalize` writes or deletes */
  predicate Touched(k: string)
  {
    Renamed(k) || IsPathKey(k)
  }

  lemma ListsUnfold(m: Dict, root: string)
    requires WellTyped(m)
    ensures ResolveLists(m, root, ListKeys) == ListsResolved(m, root)
  {
    var k2 := ListKeys[..2];
    var k1 := k2[..1];
    assert k2 == ["inputs", "outputs"] && k1 == ["inputs"] && k1[..0] == [];
    assert ResolveLists(m, root, k1) == ResolveList(m, root, "inputs");
    assert ResolveLists(m, root, k2) == ResolveList(ResolveLists(m, root, k1), root, "outputs");
  }

  lemma PathsUnfold(m: Dict, root: string)
    requires WellTyped(m)
    ensures ResolvePaths(m, root, PathKeys) == PathsResolved(m, root)
  {
    var k1 := PathKeys[..1];
    assert k1 == ["log"] && k1[..0] == [];
    assert ResolvePaths(m, root, k1) == ResolvePath(m, root, "log");
  }

  /** One shorthand expanded: the shorthand is gone, the list holds what was given, nothing else changed */
  lemma ExpandFacts(m: Dict, short: string, long: string)
    requires StrAt(m, short) && ListAt(m, long) && WellTyped(m)
    requires (short == "stdin" && long == "inputs") || (short == "stdout" && long == "outputs")
          || (short == "error" && long == "errors")
    requires !(short in m && long in m)
    ensures var r := Expand(m, short, long);
            && short !in r && (long in r <==> short in m || long in m)
            && (long in r ==> r[long] == List(Given(m, short, long)))
            && forall k :: k != short && k != long ==> (k in r <==> k in m) && (k in m ==> r[k] == m[k])
  {
  }

  /** Before the paths: the shorthands are gone, the lists hold what was given, `id` is set. */
  lemma NamedShape(m: Dict)
    requires WellTyped(m) && CheckError(m).None?
    ensures var n := Named(m);
            && "stdin" !in n && "stdout" !in n && "error" !in n
            && "inputs" in n && n["inputs"] == List(Given(m, "stdin", "inputs"))
            && "outputs" in n && n["outputs"] == List(Given(m, "stdout", "outputs"))
            && ("errors" in n <==> "error" in m || "errors" in m)
            && ("errors" in n ==> n["errors"] == List(Given(m, "error", "errors")))
            && "id" in n && n["id"] == (if "id" in m then m["id"] else m["cmd"])
  {
    var e1 := Expand(m, "stdin", "inputs");
    var e2 := Expand(e1, "stdout", "outputs");
    var e3 := Expand(e2, "error", "errors");
    ExpandFacts(m, "stdin", "inputs");
    ExpandFacts(e1, "stdout", "outputs");
    ExpandFacts(e2, "error", "errors");
  }

  /** Before the paths, every key but the shorthands, the lists and `id` is as it was. */
  lemma NamedOthers(m: Dict)
    requires WellTyped(m) && CheckError(m).None?
    ensures forall k :: !Renamed(k) ==> (k in Named(m) <==> k in m) && (k in m ==> Named(m)[k] == m[k])
  {
    var e1 := Expand(m, "stdin", "inputs");
    var e2 := Expand(e1, "stdout", "outputs");
    var e3 := Expand(e2, "error", "errors");
    ExpandFacts(m, "stdin", "inputs");
    ExpandFacts(e1, "stdout", "outputs");
    ExpandFacts(e2, "error", "errors");
  }

  /** Each list resolved as `Resolve` says; every other key as it was */
  lemma ListsResolvedShape(m: Dict, root: string)
    requires WellTyped(m)
    ensures var r := ListsResolved(m, root);
            && (forall key :: IsListKey(key) ==> (key in r <==> key in m))
            && (forall key :: IsListKey(key) && key in m ==> r[key] == List(ResolveAll(root, m[key].items)))
            && forall k :: !IsListKey(k) ==> (k in r <==> k in m) && (k in m ==> r[k] == m[k])
  {
  }

  /** Each path resolved as `Resolve` says; every other key as it was */
  lemma PathsResolvedShape(m: Dict, root: string)
    requires WellTyped(m)
    ensures var r := PathsResolved(m, root);
            && (forall key :: IsPathKey(key) ==> (key in r <==> key in m))
            && (forall key :: IsPathKey(key) && key in m ==> r[key] == Str(Resolve(root, m[key].s)))
            && forall k :: !IsPathKey(k) ==> (k in r <==> k in m) && (k in m ==> r[k] == m[k])
  {
  }

  /**
   * `normalize` replaces `stdin`, `stdout` and `error` by one-element lists under `inputs`,
   * `outputs` and `errors`, joins their relative paths onto the root, and gives `id` the value of
   * `cmd` when it has none.
   */
  lemma NormalizedLists(m: Dict, root: string)
    requires WellTyped(m) && CheckError(m).None?
    ensures var r := Normalized(m, root);
            && "stdin" !in r && "stdout" !in r && "error" !in r
            && "inputs" in r && r["inputs"] == List(ResolveAll(root, Given(m, "stdin", "inputs")))
            && "outputs" in r && r["outputs"] == List(ResolveAll(root, Given(m, "stdout", "outputs")))
            && ("errors" in r <==> "error" in m || "errors" in m)
            && ("errors" in r ==> r["errors"] == List(ResolveAll(root, Given(m, "error", "errors"))))
            && "id" in r && r["id"] == (if "id" in m then m["id"] else m["cmd"])
  {
    NamedShape(m);
    ListsResolvedShape(Named(m), root);
    PathsResolvedShape(ListsResolved(Named(m), root), root);
  }

  /** `normalize` joins a relative `log` or `stderr` path onto the root and keeps an absolute one. */
  lemma NormalizedPath(m: Dict, root: string, key: string)
    requires WellTyped(m) && CheckError(m).None? && IsPathKey(key)
    ensures (key in Normalized(m, root) <==> key in m)
    ensures key in m ==> Normalized(m, root)[key] == Str(Resolve(root, m[key].s))
  {
    var n := Named(m);
    NamedOthers(m);
    assert !Renamed(key) && !IsListKey(key);
    ListsResolvedShape(n, root);
    PathsResolvedShape(ListsResolved(n, root), root);
  }

  /** `normalize` leaves every key it does not touch as it was. */
  lemma NormalizedOthers(m: Dict, root: string)
    requires WellTyped(m) && CheckError(m).None?
    ensures forall k :: !Touched(k) ==> (k in Normalized(m, root) <==> k in m)
                                        && (k in m ==> Normalized(m, root)[k] == m[k])
  {
    NamedOthers(m);
    ListsResolvedShape(Named(m), root);
    PathsResolvedShape(ListsResolved(Named(m), root), root);
  }

  /** A dictionary in the form `normalize` leaves: lists instead of shorthands, a command and an id */
  predicate Normal(m: Dict)
  {
    && WellTyped(m)
    && "stdin" !in m && "stdout" !in m && "error" !in m
    && "inputs" in m && "outputs" in m && "cmd" in m && "id" in m
  }

  /** Every path of the dictionary is absolute. */
  predicate AbsolutePaths(m: Dict)
    requires WellTyped(m)
  {
    && (forall key :: IsListKey(key) && key in m ==> forall k :: 0 <= k < |m[key].items| ==> IsAbs(m[key].items[k]))
    && (forall key :: IsPathKey(key) && key in m ==> IsAbs(m[key].s))
  }

  /** Resolving against no root, or resolving an absolute path, changes nothing. */
  lemma ResolveFixed(root: string, p: string)
    requires root == "" || IsAbs(p)
    ensures Resolve(root, p) == p
  {
    JoinRoot(root, p);
  }

  lemma {:induction false} ResolveAllFixed(root: string, xs: seq<string>)
    requires root == "" || forall k :: 0 <= k < |xs| ==> IsAbs(xs[k])
    ensures ResolveAll(root, xs) == xs
  {
    forall k | 0 <= k < |xs| ensures ResolveAll(root, xs)[k] == xs[k] {
      ResolveFixed(root, xs[k]);
    }
  }

  /** `normalize` succeeds exactly when its assertions hold, and leaves a normal dictionary. */
  lemma NormalizedNormal(m: Dict, root: string)
    requires WellTyped(m) && CheckError(m).None?
    ensures Normal(Normalized(m, root))
  {
    NormalizedLists(m, root);
    NormalizedCmd(m, root);
  }

  lemma NormalizedCmd(m: Dict, root: string)
    requires WellTyped(m) && CheckError(m).None?
    ensures "cmd" in Normalized(m, root)
  {
    NormalizedOthers(m, root);
    assert !Touched("cmd");
  }

  /** With an absolute root, every path `normalize` leaves is absolute. */
  lemma NormalizedAbsolute(m: Dict, root: string)
    requires WellTyped(m) && CheckError(m).None? && IsAbs(root)
    ensures AbsolutePaths(Normalized(m, root))
  {
    var r := Normalized(m, root);
    NormalizedLists(m, root);
    forall key | IsListKey(key) && key in r
      ensures forall k :: 0 <= k < |r[key].items| ==> IsAbs(r[key].items[k])
    {
      forall k | 0 <= k < |r[key].items| ensures IsAbs(r[key].items[k]) {
        var xs := if key == "inputs" then Given(m, "stdin", "inputs")
                  else if key == "outputs" then Given(m, "stdout", "outputs")
                  else Given(m, "error", "errors");
        assert r[key].items == ResolveAll(root, xs);
        JoinRoot(root, xs[k]);
      }
    }
    forall key | IsPathKey(key) && key in r ensures IsAbs(r[key].s) {
      NormalizedPath(m, root, key);
      JoinRoot(root, m[key].s);
    }
  }

  /** On a normal dictionary the expansion of the shorthands and the default `id` change nothing. */
  lemma NamedFixed(m: Dict)
    requires Normal(m)
    ensures CheckError(m).None?
    ensures Named(m) == m
  {
  }

  lemma ListsFixed(m: Dict, root: string)
    requires Normal(m) && (root == "" || AbsolutePaths(m))
    ensures ListsResolved(m, root) == m
  {
    forall key | IsListKey(key) && key in m ensures ResolveAll(root, m[key].items) == m[key].items {
      ResolveAllFixed(root, m[key].items);
    }
    ListsResolvedShape(m, root);
  }

  lemma PathsFixed(m: Dict, root: string)
    requires Normal(m) && (root == "" || AbsolutePaths(m))
    ensures PathsResolved(m, root) == m
  {
    forall key | IsPathKey(key) && key in m ensures Resolve(root, m[key].s) == m[key].s {
      ResolveFixed(root, m[key].s);
    }
    PathsResolvedShape(m, root);
  }

  /** On a normal dictionary whose paths need no root, `normalize` passes its assertions and changes nothing. */
  lemma NormalFixed(m: Dict, root: string)
    requires Normal(m) && (root == "" || AbsolutePaths(m))
    ensures CheckError(m).None?
    ensures Normalized(m, root) == m
  {
    NamedFixed(m);
    ListsFixed(m, root);
    PathsFixed(m, root);
  }

  /**
   * Normalising twice is normalising once, when the second call has no root or the first had an
   * absolute one: `transitions2dot` and `pmjq_command` can meet a dictionary normalised before.
   */
  lemma NormalizeIdempotent(m: Dict, root: string, root2: string)
    requires WellTyped(m) && CheckError(m).None?
    requires root2 == "" || IsAbs(root)
    ensures CheckError(Normalized(m, root)).None?
    ensures Normalized(Normalized(m, root), root2) == Normalized(m, root)
  {
    NormalizedNormal(m, root);
    if root2 != "" {
      NormalizedAbsolute(m, root);
    }
    NormalFixed(Normalized(m, root), root2);
  }

  // ----- pmjq_command -----

  /** The keys `pmjq_command` reads without a test are there, after `normalize` */
  predicate CommandKeys(m: Dict)
  {
    WellTyped(m) && "inputs" in m && "outputs" in m && "cmd" in m
  }

  /** `"quit_empty" in transition and transition["quit_empty"]` */
  predicate QuitEmpty(m: Dict)
  {
    "quit_empty" in m && Truthy(m["quit_empty"])
  }

  /** The options for one list of patterns, one per pattern, joined by spaces */
  function Options(flag: string, xs: seq<string>): string
  {
    Join(" ", Prefixed(flag, xs))
  }

  /** The command line `pmjq_command` builds up to the command, piece by piece in its order */
  function CommandHead(m: Dict): (r: string)
    requires CommandKeys(m)
    ensures StartsWith(r, "pmjq ")
  {
    var a0 := "pmjq ";
    var a1 := if QuitEmpty(m) then a0 + "--quit-when-empty " else a0;
    var a2 := a1 + (Options("--input=", m["inputs"].items) + " ");
    var a3 := if "invariant" in m then a2 + ("--invariant=" + m["invariant"].s + " ") else a2;
    a3 + (m["cmd"].s + " ")
  }

  /** The command line `pmjq_command` builds for a normal dictionary */
  function CommandLine(m: Dict, redirect: string): (r: string)
    requires CommandKeys(m)
    ensures StartsWith(r, "pmjq ")
  {
    var a4 := CommandHead(m);
    var a5 := a4 + (Options("--output=", m["outputs"].items) + " ");
    var a6 := if "stderr" in m then a5 + ("--stderr=" + m["stderr"].s + " ") else a5;
    var a7 := if "errors" in m then a6 + (Options("--error=", m["errors"].items) + " ") else a6;
    if "log" in m then a7 + (redirect + " " + m["log"].s) else a7
  }

  /** The fields up to the command: the program, the optional flag, the input options, the invariant */
  function HeadFields(m: Dict): (r: seq<string>)
    requires CommandKeys(m)
    ensures |r| >= 3 && r[0] == "pmjq"
  {
    var f0 := ["pmjq"];
    var f1 := if QuitEmpty(m) then f0 + ["--quit-when-empty"] else f0;
    var f2 := f1 + [Options("--input=", m["inputs"].items)];
    var f3 := if "invariant" in m then f2 + ["--invariant=" + m["invariant"].s] else f2;
    f3 + [m["cmd"].s]
  }

  /**
   * The fields of the command line, in order: those up to the command, the output options, the
   * stderr option, the error options and the redirection of the log
   */
  function Fields(m: Dict, redirect: string): (r: seq<string>)
    requires CommandKeys(m)
    ensures |r| >= 4 && r[0] == "pmjq"
  {
    var f4 := HeadFields(m);
    var f5 := f4 + [Options("--output=", m["outputs"].items)];
    var f6 := if "stderr" in m then f5 + ["--stderr=" + m["stderr"].s] else f5;
    var f7 := if "errors" in m then f6 + [Options("--error=", m["errors"].items)] else f6;
    if "log" in m then f7 + [redirect, m["log"].s] else f7
  }

  /** Appending one field and a space to a space-terminated join extends the join. */
  lemma JoinStep(fs: seq<string>, p: string)
    requires |fs| > 0
    ensures (Join(" ", fs) + " ") + (p + " ") == Join(" ", fs + [p]) + " "
  {
    JoinSnoc(" ", fs, p);
    AppendAssoc(Join(" ", fs) + " ", p, " ");
  }

  /** A maybe-appended field keeps the join in step. */
  lemma JoinMaybe(fs: seq<string>, p: string, b: bool)
    requires |fs| > 0
    ensures (if b then (Join(" ", fs) + " ") + (p + " ") else Join(" ", fs) + " ")
         == Join(" ", if b then fs + [p] else fs) + " "
  {
    if b {
      JoinStep(fs, p);
    }
  }

  /** The log redirection ends the line: two more fields and no trailing space. */
  lemma JoinLast(fs: seq<string>, redirect: string, log: string)
    requires |fs| > 0
    ensures (Join(" ", fs) + " ") + (redirect + " " + log) == Join(" ", fs + [redirect, log])
  {
    JoinSnoc(" ", fs, redirect);
    JoinSnoc(" ", fs + [redirect], log);
    assert fs + [redirect] + [log] == fs + [redirect, log];
    AppendAssoc(Join(" ", fs) + " ", redirect + " ", log);
    AppendAssoc(Join(" ", fs) + " ", redirect, " ");
  }

  /** Up to the command, the line is its fields each followed by one space. */
  lemma HeadJoin(m: Dict)
    requires CommandKeys(m)
    ensures CommandHead(m) == Join(" ", HeadFields(m)) + " "
  {
    var f0 := ["pmjq"];
    var f1 := if QuitEmpty(m) then f0 + ["--quit-when-empty"] else f0;
    var f2 := f1 + [Options("--input=", m["inputs"].items)];
    var f3 := if "invariant" in m then f2 + ["--invariant=" + m["invariant"].s] else f2;
    var a0 := "pmjq ";
    var a1 := if QuitEmpty(m) then a0 + "--quit-when-empty " else a0;
    var a2 := a1 + (Options("--input=", m["inputs"].items) + " ");
    var a3 := if "invariant" in m then a2 + ("--invariant=" + m["invariant"].s + " ") else a2;
    assert a0 == Join(" ", f0) + " ";
    JoinMaybe(f0, "--quit-when-empty", QuitEmpty(m));
    assert a1 == Join(" ", f1) + " ";
    JoinStep(f1, Options("--input=", m["inputs"].items));
    assert a2 == Join(" ", f2) + " ";
    var inv := if "invariant" in m then "--invariant=" + m["invariant"].s else "";
    JoinMaybe(f2, inv, "invariant" in m);
    assert a3 == Join(" ", f3) + " ";
    JoinStep(f3, m["cmd"].s);
  }

  /**
   * The command line is its fields separated by single spaces, with a trailing space when there is
   * no log: every option, including the first `--stderr=` and `--error=`, starts a new word.
   */
  lemma CommandFields(m: Dict, redirect: string)
    requires CommandKeys(m)
    ensures CommandLine(m, redirect) == Join(" ", Fields(m, redirect)) + (if "log" in m then "" else " ")
  {
    var f4 := HeadFields(m);
    var f5 := f4 + [Options("--output=", m["outputs"].items)];
    var f6 := if "stderr" in m then f5 + ["--stderr=" + m["stderr"].s] else f5;
    var f7 := if "errors" in m then f6 + [Options("--error=", m["errors"].items)] else f6;
    var a4 := CommandHead(m);
    var a5 := a4 + (Options("--output=", m["outputs"].items) + " ");
    var a6 := if "stderr" in m then a5 + ("--stderr=" + m["stderr"].s + " ") else a5;
    var a7 := if "errors" in m then a6 + (Options("--error=", m["errors"].items) + " ") else a6;
    HeadJoin(m);
    JoinStep(f4, Options("--output=", m["outputs"].items));
    assert a5 == Join(" ", f5) + " ";
    var err := if "stderr" in m then "--stderr=" + m["stderr"].s else "";
    JoinMaybe(f5, err, "stderr" in m);
    assert a6 == Join(" ", f6) + " ";
    var errs := if "errors" in m then Options("--error=", m["errors"].items) else "";
    JoinMaybe(f6, errs, "errors" in m);
    assert a7 == Join(" ", f7) + " ";
    if "log" in m {
      JoinLast(f7, redirect, m["log"].s);
    }
  }

  const QuitPrefix := "pmjq " + "--quit-when-empty "

  lemma QuitPrefixChars()
    ensures |QuitPrefix| == 23 && QuitPrefix[5] == '-' && QuitPrefix[7] == 'q'
  {
  }

  /** Without the flag the line goes on with the input options, or a second space when there are none. */
  lemma NoQuitChar(m: Dict)
    requires CommandKeys(m) && !QuitEmpty(m)
    ensures |CommandHead(m)| > 5
    ensures CommandHead(m)[5] == ' ' || (|CommandHead(m)| > 7 && CommandHead(m)[7] == 'i')
  {
    var ins := m["inputs"].items;
    var o := Options("--input=", ins);
    var a2 := "pmjq " + (o + " ");
    assert StartsWith(CommandHead(m), a2);
    if |ins| == 0 {
      assert a2[5] == ' ';
    } else {
      JoinHead(" ", Prefixed("--input=", ins));
      assert StartsWith(o, "--input=" + ins[0]);
      assert o[2] == 'i';
      assert a2[7] == o[2];
    }
  }

  /** A line that starts with the head starts with the flag exactly when `quit_empty` is set and true. */
  lemma HeadQuitFlag(m: Dict, line: string)
    requires CommandKeys(m) && StartsWith(line, CommandHead(m))
    ensures StartsWith(line, QuitPrefix) <==> QuitEmpty(m)
  {
    var head := CommandHead(m);
    QuitPrefixChars();
    if QuitEmpty(m) {
      var a1 := "pmjq " + "--quit-when-empty ";
      assert StartsWith(head, a1);
      PrefixTrans(line, head, QuitPrefix);
    } else {
      NoQuitChar(m);
      assert line[5] == head[5];
      if head[5] != ' ' {
        assert line[7] == head[7];
      }
    }
  }

  /** The line starts with the `--quit-when-empty` flag exactly when `quit_empty` is set and true. */
  lemma QuitFlag(m: Dict, redirect: string)
    requires CommandKeys(m)
    ensures StartsWith(CommandLine(m, redirect), QuitPrefix) <==> QuitEmpty(m)
  {
    assert StartsWith(CommandLine(m, redirect), CommandHead(m));
    HeadQuitFlag(m, CommandLine(m, redirect));
  }

  method PmjqCommand(t: TransitionDict, redirect: string) returns (r: Result<string, NormError>)
    requires WellTyped(t.entries)
    modifies t
    ensures r.Err? <==> CheckError(old(t.entries)).Some?
    ensures r.Err? ==> r.error == CheckError(old(t.entries)).value && t.entries == old(t.entries)
    ensures r.Ok? ==> t.entries == Normalized(old(t.entries), "") && Normal(t.entries)
    ensures r.Ok? ==> r.value == CommandLine(t.entries, redirect)
  {
    var err := Normalize(t, "");
    if err.Some? {
      return Err(err.value);
    }
    NormalizedNormal(old(t.entries), "");
    var m := t.entries;
    var answer := "pmjq ";
    if "quit_empty" in m && Truthy(m["quit_empty"]) {
      answer := answer + "--quit-when-empty ";
    }
    answer := answer + (Options("--input=", m["inputs"].items) + " ");
    if "invariant" in m {
      answer := answer + ("--invariant=" + m["invariant"].s + " ");
    }
    answer := answer + (m["cmd"].s + " ");
    answer := answer + (Options("--output=", m["outputs"].items) + " ");
    if "stderr" in m {
      answer := answer + ("--stderr=" + m["stderr"].s + " ");
    }
    if "errors" in m {
      answer := answer + (Options("--error=", m["errors"].items) + " ");
    }
    if "log" in m {
      answer := answer + (redirect + " " + m["log"].s);
    }
    return Ok(answer);
  }

  // ----- dot pictures -----

  /** The keyword arguments of `dot_nodes_and_edge`: two nodes and the arrow between them */
  datatype EdgeFields = EdgeFields(
    node1: string, shape1: string, color1: string, label1: string,
    node2: string, shape2: string, color2: string, label2: string,
    ahead: string, astyle: string, acolor: string, aweight: string)

  /** A keyword argument, or "" when the caller left it out (the `defaultdict` of `dot_nodes_and_edge`) */
  function Arg(kwargs: map<string, string>, key: string): string
  {
    if key in kwargs then kwargs[key] else ""
  }

  function FieldsOf(kwargs: map<string, string>): (e: EdgeFields)
    ensures e.astyle == Arg(kwargs, "astyle")
  {
    EdgeFields(
      Arg(kwargs, "node1"), Arg(kwargs, "shape1"), Arg(kwargs, "color1"), Arg(kwargs, "label1"),
      Arg(kwargs, "node2"), Arg(kwargs, "shape2"), Arg(kwargs, "color2"), Arg(kwargs, "label2"),
      Arg(kwargs, "ahead"), Arg(kwargs, "astyle"), Arg(kwargs, "acolor"), Arg(kwargs, "aweight"))
  }

  /** The first node of the edge template */
  function FirstNodeLine(e: EdgeFields): string
  {
    "{ \"" + e.node1 + "\" [shape=\"" + e.shape1 + "\", color=\"" + e.color1 + "\", label=\"" + e.label1 + "\"]}"
  }

  /** The second node of the edge template */
  function SecondNodeLine(e: EdgeFields): string
  {
    "{\"" + e.node2 + "\" [shape=\"" + e.shape2 + "\", color=\"" + e.color2 + "\", label=\"" + e.label2 + "\"]}"
  }

  /** The attributes of the arrow */
  function ArrowLine(e: EdgeFields): string
  {
    "[arrowhead=\"" + e.ahead + "\", style=\"" + e.astyle + "\",color=\"" + e.acolor + "\",weight=" + e.aweight + "];"
  }

  /** `EDGE_TEMPLATE` filled in: an empty line, the first node, the arrow, the second node, its attributes */
  function EdgeBlock(e: EdgeFields): string
  {
    Join("\n", ["", FirstNodeLine(e), "->", SecondNodeLine(e), ArrowLine(e), ""])
  }

  /** `dot_nodes_and_edge(**kwargs)` */
  function DotNodesAndEdge(kwargs: map<string, string>): string
  {
    EdgeBlock(FieldsOf(kwargs))
  }

  predicate OneLine(e: EdgeFields)
  {
    && '\n' !in e.node1 && '\n' !in e.shape1 && '\n' !in e.color1 && '\n' !in e.label1
    && '\n' !in e.node2 && '\n' !in e.shape2 && '\n' !in e.color2 && '\n' !in e.label2
    && '\n' !in e.ahead && '\n' !in e.astyle && '\n' !in e.acolor && '\n' !in e.aweight
  }

  lemma EdgeLinesOneLine(e: EdgeFields)
    requires OneLine(e)
    ensures '\n' !in FirstNodeLine(e) && '\n' !in SecondNodeLine(e) && '\n' !in ArrowLine(e)
  {
  }

  /** With one-line fields, the block is an empty line, the first node, `->`, the second node and the arrow's attributes, each on its own line. */
  lemma EdgeLines(e: EdgeFields)
    requires OneLine(e)
    ensures Split(EdgeBlock(e), '\n') == ["", FirstNodeLine(e), "->", SecondNodeLine(e), ArrowLine(e), ""]
  {
    EdgeLinesOneLine(e);
    var ls := ["", FirstNodeLine(e), "->", SecondNodeLine(e), ArrowLine(e), ""];
    forall k | 0 <= k < |ls| ensures '\n' !in ls[k] {
    }
    SplitJoin(ls, '\n');
  }

  /** What a path of a transition contributes to the picture */
  datatype EdgeKind = Input | Output | Error | SideEffect | Log

  /** The transition's node: its `id`, or Python's `None` printed when it has none */
  function TransitionNode(m: Dict): string
    requires WellTyped(m)
  {
    if "id" in m then m["id"].s else "None"
  }

  /** `os.path.dirname(smart_unquote(x))`, with the unquoting left to the caller */
  function DirOf(unquote: string -> string, x: string): string
  {
    Dirname(unquote(x))
  }

  /** The node and the edge `trans2dot` draws between the transition `tr` and the path `x` */
  function Edge(kind: EdgeKind, tr: string, unquote: string -> string, x: string): (e: EdgeFields)
    ensures kind == Input ==> e.node2 == tr && e.label2 == tr
    ensures kind != Input ==> e.node1 == tr && e.label1 == tr
  {
    match kind
    case Input =>
      var name := DirOf(unquote, x);
      EdgeFields("dir_" + name, "oval", "blue", name, tr, "box", "green", tr, "normal", "", "blue", "10")
    case Output =>
      var name := DirOf(unquote, x);
      EdgeFields(tr, "box", "green", tr, "dir_" + name, "oval", "blue", name, "normal", "", "blue", "10")
    case Error =>
      var name := DirOf(unquote, x);
      EdgeFields(tr, "box", "green", tr, "dir_" + name, "hexagon", "red", name, "none", "dotted", "red", "1")
    case SideEffect =>
      EdgeFields(tr, "box", "green", tr, "se_" + x, "diamond", "purple", x, "none", "", "purple", "1")
    case Log =>
      var name := DirOf(unquote, x);
      EdgeFields(tr, "box", "green", tr, "dir_" + name, "octagon", "darkorange", name, "none", "", "darkorange", "2")
  }

  /** One edge per path, in the order of the list */
  function EdgesOf(kind: EdgeKind, tr: string, unquote: string -> string, xs: seq<string>): (r: seq<EdgeFields>)
    ensures |r| == |xs|
  {
    seq(|xs|, k requires 0 <= k < |xs| => Edge(kind, tr, unquote, xs[k]))
  }

  /** `transition.get(key, [])` */
  function ListOr(m: Dict, key: string): seq<string>
    requires ListAt(m, key)
  {
    if key in m then m[key].items else []
  }

  /** The stderr edge is drawn when `include_logs` is set and `stderr` is a non-empty path. */
  predicate DrawsLog(m: Dict, includeLogs: bool)
    requires WellTyped(m)
  {
    "stderr" in m && m["stderr"].s != "" && includeLogs
  }

  /** The edges `trans2dot` draws, in its order: inputs, outputs, errors, side effects, stderr */
  function Edges(m: Dict, unquote: string -> string, includeLogs: bool): seq<EdgeFields>
    requires WellTyped(m)
  {
    var tr := TransitionNode(m);
    EdgesOf(Input, tr, unquote, ListOr(m, "inputs"))
    + EdgesOf(Output, tr, unquote, ListOr(m, "outputs"))
    + EdgesOf(Error, tr, unquote, ListOr(m, "errors"))
    + EdgesOf(SideEffect, tr, unquote, ListOr(m, "side_effects"))
    + (if DrawsLog(m, includeLogs) then [Edge(Log, tr, unquote, m["stderr"].s)] else [])
  }

  /** The quoted error nodes `trans2dot` returns for the error cluster, one per error path */
  function QuotedDirs(unquote: string -> string, errs: seq<string>): (r: seq<string>)
    ensures |r| == |errs|
  {
    seq(|errs|, k requires 0 <= k < |errs| => "\"dir_" + DirOf(unquote, errs[k]) + "\"")
  }

  /** The blocks of the edges, concatenated in order */
  function Blocks(es: seq<EdgeFields>): string
  {
    if |es| == 0 then "" else Blocks(es[..|es| - 1]) + EdgeBlock(es[|es| - 1])
  }

  lemma BlocksSnoc(es: seq<EdgeFields>, e: EdgeFields)
    ensures Blocks(es + [e]) == Blocks(es) + EdgeBlock(e)
  {
    assert (es + [e])[..|es|] == es;
  }

  lemma EdgesOfSnoc(kind: EdgeKind, tr: string, unquote: string -> string, xs: seq<string>, i: nat)
    requires i < |xs|
    ensures EdgesOf(kind, tr, unquote, xs[..i + 1]) == EdgesOf(kind, tr, unquote, xs[..i]) + [Edge(kind, tr, unquote, xs[i])]
  {
  }

  /** One loop of `trans2dot`: a block per path of the list, appended in order */
  method DrawEach(dot0: string, ghost drawn0: seq<EdgeFields>, kind: EdgeKind, tr: string,
                  unquote: string -> string, xs: seq<string>)
    returns (dot: string, ghost drawn: seq<EdgeFields>)
    requires dot0 == Blocks(drawn0)
    ensures drawn == drawn0 + EdgesOf(kind, tr, unquote, xs)
    ensures dot == Blocks(drawn)
  {
    dot, drawn := dot0, drawn0;
    for i := 0 to |xs|
      invariant drawn == drawn0 + EdgesOf(kind, tr, unquote, xs[..i])
      invariant dot == Blocks(drawn)
    {
      var e := Edge(kind, tr, unquote, xs[i]);
      BlocksSnoc(drawn, e);
      EdgesOfSnoc(kind, tr, unquote, xs, i);
      AppendAssoc(drawn0, EdgesOf(kind, tr, unquote, xs[..i]), [e]);
      dot := dot + EdgeBlock(e);
      drawn := drawn + [e];
    }
    assert xs[..|xs|] == xs;
  }

  lemma QuotedSnoc(unquote: string -> string, errs: seq<string>, i: nat)
    requires i < |errs|
    ensures QuotedDirs(unquote, errs)[..i + 1] == QuotedDirs(unquote, errs)[..i] + ["\"dir_" + Dirname(unquote(errs[i])) + "\""]
  {
  }

  /** The loop of `trans2dot` over the error paths: a block each, and the quoted error node collected */
  method DrawErrors(dot0: string, ghost drawn0: seq<EdgeFields>, tr: string, unquote: string -> string, errs: seq<string>)
    returns (dot: string, ghost drawn: seq<EdgeFields>, errors: seq<string>)
    requires dot0 == Blocks(drawn0)
    ensures drawn == drawn0 + EdgesOf(Error, tr, unquote, errs)
    ensures dot == Blocks(drawn)
    ensures errors == QuotedDirs(unquote, errs)
  {
    dot, drawn := dot0, drawn0;
    errors := [];
    for i := 0 to |errs|
      invariant drawn == drawn0 + EdgesOf(Error, tr, unquote, errs[..i])
      invariant dot == Blocks(drawn)
      invariant errors == QuotedDirs(unquote, errs)[..i]
    {
      var name := Dirname(unquote(errs[i]));
      var e := Edge(Error, tr, unquote, errs[i]);
      BlocksSnoc(drawn, e);
      EdgesOfSnoc(Error, tr, unquote, errs, i);
      AppendAssoc(drawn0, EdgesOf(Error, tr, unquote, errs[..i]), [e]);
      QuotedSnoc(unquote, errs, i);
      dot := dot + EdgeBlock(e);
      drawn := drawn + [e];
      errors := errors + ["\"dir_" + name + "\""];
    }
    assert errs[..|errs|] == errs;
  }

  /**
   * `trans2dot(transition, include_logs)`: a block per input, output, error and side effect, in
   * that order, then one for `stderr` when asked; with the quoted error nodes.
   */
  method Trans2Dot(m: Dict, unquote: string -> string, includeLogs: bool) returns (dot: string, errors: seq<string>)
    requires WellTyped(m)
    ensures dot == Blocks(Edges(m, unquote, includeLogs))
    ensures errors == QuotedDirs(unquote, ListOr(m, "errors"))
  {
    var tr := TransitionNode(m);
    ghost var drawn: seq<EdgeFields>;
    var ins := ListOr(m, "inputs");
    dot, drawn := DrawEach("", [], Input, tr, unquote, ins);
    assert drawn == EdgesOf(Input, tr, unquote, ins);
    dot, drawn := DrawEach(dot, drawn, Output, tr, unquote, ListOr(m, "outputs"));
    dot, drawn, errors := DrawErrors(dot, drawn, tr, unquote, ListOr(m, "errors"));
    dot, drawn := DrawEach(dot, drawn, SideEffect, tr, unquote, ListOr(m, "side_effects"));
    if "stderr" in m && m["stderr"].s != "" && includeLogs {
      var e := Edge(Log, tr, unquote, m["stderr"].s);
      BlocksSnoc(drawn, e);
      dot := dot + EdgeBlock(e);
      drawn := drawn + [e];
    } else {
      assert drawn + [] == drawn;
    }
    assert drawn == Edges(m, unquote, includeLogs);
  }

  /**
   * Every edge of a transition's picture has the transition's node at one end: the inputs point
   * into it from their directories, everything else points out of it.
   */
  lemma EdgesShape(m: Dict, unquote: string -> string, includeLogs: bool)
    requires WellTyped(m)
    ensures var es := Edges(m, unquote, includeLogs);
            var ins := ListOr(m, "inputs");
            && |es| == |ins| + |ListOr(m, "outputs")| + |ListOr(m, "errors")| + |ListOr(m, "side_effects")|
                       + (if DrawsLog(m, includeLogs) then 1 else 0)
            && (forall k :: 0 <= k < |ins| ==>
                  es[k].node1 == "dir_" + DirOf(unquote, ins[k]) && es[k].node2 == TransitionNode(m))
            && forall k :: |ins| <= k < |es| ==> es[k].node1 == TransitionNode(m)
  {
  }

  /** The error edges come after the input and output edges, one per error path, in order. */
  lemma ErrorEdgesPlace(m: Dict, unquote: string -> string, includeLogs: bool)
    requires WellTyped(m)
    ensures var es := Edges(m, unquote, includeLogs);
            var errs := ListOr(m, "errors");
            var before := |ListOr(m, "inputs")| + |ListOr(m, "outputs")|;
            && before + |errs| <= |es|
            && es[before..before + |errs|] == EdgesOf(Error, TransitionNode(m), unquote, errs)
  {
    var tr := TransitionNode(m);
    var a := EdgesOf(Input, tr, unquote, ListOr(m, "inputs")) + EdgesOf(Output, tr, unquote, ListOr(m, "outputs"));
    var c := EdgesOf(Error, tr, unquote, ListOr(m, "errors"));
    var d := EdgesOf(SideEffect, tr, unquote, ListOr(m, "side_effects"));
    var l := if DrawsLog(m, includeLogs) then [Edge(Log, tr, unquote, m["stderr"].s)] else [];
    var es := Edges(m, unquote, includeLogs);
    assert es == ((a + c) + d) + l;
    SliceMiddle(a, c, d, l);
  }

  lemma SliceMiddle<T>(a: seq<T>, c: seq<T>, d: seq<T>, l: seq<T>)
    ensures (((a + c) + d) + l)[|a|..|a| + |c|] == c
  {
    assert (((a + c) + d) + l)[..|a| + |c|] == a + c;
  }

  /** The quoted error nodes are exactly the hexagons the error edges point to, in order. */
  lemma ErrorNodesDrawn(tr: string, unquote: string -> string, errs: seq<string>)
    ensures forall k :: 0 <= k < |errs| ==>
              && QuotedDirs(unquote, errs)[k] == "\"" + EdgesOf(Error, tr, unquote, errs)[k].node2 + "\""
              && EdgesOf(Error, tr, unquote, errs)[k].shape2 == "hexagon"
  {
    forall k | 0 <= k < |errs|
      ensures QuotedDirs(unquote, errs)[k] == "\"" + EdgesOf(Error, tr, unquote, errs)[k].node2 + "\""
    {
      AppendAssoc("\"", "dir_", DirOf(unquote, errs[k]));
    }
  }

  // ----- transitions2dot -----

  const Header := "digraph transitions {\n" + "    rankdir = TB;\n" + "    splines=ortho;\n" + "    node[penwidth=2.0];\n"

  /** The invisible chain that keeps the error directories together */
  function Cluster(errors: seq<string>): string
  {
    "subgraph cluster_errors {\n" + "color=none\nedge[style=invis]\n" + Join(" -> ", errors) + "\n" + "}\n"
  }

  /** The first failing assertion of `normalize` over the transitions, in order */
  function FirstError(ms: seq<Dict>): (r: Option<NormError>)
    requires forall k :: 0 <= k < |ms| ==> WellTyped(ms[k])
    ensures r.None? <==> forall k :: 0 <= k < |ms| ==> CheckError(ms[k]).None?
  {
    if |ms| == 0 then None
    else if CheckError(ms[0]).Some? then CheckError(ms[0])
    else FirstError(ms[1..])
  }

  /** The first failure is the error of the first transition that fails. */
  lemma {:induction false} FirstErrorAt(ms: seq<Dict>, i: nat)
    requires forall k :: 0 <= k < |ms| ==> WellTyped(ms[k])
    requires i < |ms| && CheckError(ms[i]).Some?
    requires forall k :: 0 <= k < i ==> CheckError(ms[k]).None?
    ensures FirstError(ms) == CheckError(ms[i])
  {
    if i > 0 {
      FirstErrorAt(ms[1..], i - 1);
    }
  }

  /** Every dictionary is well typed. */
  predicate AllWellTyped(ns: seq<Dict>)
  {
    forall k :: 0 <= k < |ns| ==> WellTyped(ns[k])
  }

  /** The normal forms, without a root, of dictionaries that all pass the assertions of `normalize` */
  function NormalForms(ms: seq<Dict>): (ns: seq<Dict>)
    requires forall k :: 0 <= k < |ms| ==> WellTyped(ms[k]) && CheckError(ms[k]).None?
    ensures |ns| == |ms| && AllWellTyped(ns)
    ensures forall k :: 0 <= k < |ms| ==> NormalFormOf(ms[k], ns[k])
  {
    seq(|ms|, k requires 0 <= k < |ms| => Normalized(ms[k], ""))
  }

  /** The header, then the blocks of each transition in turn */
  function Drawing(ns: seq<Dict>, unquote: string -> string, logs: bool): string
    requires AllWellTyped(ns)
  {
    if |ns| == 0 then Header
    else Drawing(ns[..|ns| - 1], unquote, logs) + Blocks(Edges(ns[|ns| - 1], unquote, logs))
  }

  /** The quoted error nodes of each transition in turn */
  function AllErrors(ns: seq<Dict>, unquote: string -> string): seq<string>
    requires AllWellTyped(ns)
  {
    if |ns| == 0 then []
    else AllErrors(ns[..|ns| - 1], unquote) + QuotedDirs(unquote, ListOr(ns[|ns| - 1], "errors"))
  }

  /**
   * What `transitions2dot` returns for dictionaries with these contents, or the assertion that
   * stops it: the transitions are normalised without a root, then drawn in their order.
   */
  function Picture(ms: seq<Dict>, unquote: string -> string, group: bool, logs: bool): Result<string, NormError>
    requires forall k :: 0 <= k < |ms| ==> WellTyped(ms[k])
  {
    match FirstError(ms)
    case Some(e) => Err(e)
    case None =>
      var ns := NormalForms(ms);
      var errors := AllErrors(ns, unquote);
      var body := Drawing(ns, unquote, logs);
      Ok((if group && |errors| > 0 then body + Cluster(errors) else body) + "}")
  }

  /** Drawing one more transition appends its blocks and its error nodes. */
  lemma DrawingSnoc(ns: seq<Dict>, n: Dict, unquote: string -> string, logs: bool)
    requires AllWellTyped(ns) && WellTyped(n)
    ensures AllWellTyped(ns + [n])
    ensures Drawing(ns + [n], unquote, logs) == Drawing(ns, unquote, logs) + Blocks(Edges(n, unquote, logs))
    ensures AllErrors(ns + [n], unquote) == AllErrors(ns, unquote) + QuotedDirs(unquote, ListOr(n, "errors"))
  {
    assert (ns + [n])[..|ns|] == ns;
  }

  /** The first transition that fails an assertion of `normalize` decides the error `transitions2dot` raises. */
  lemma PictureFails(ms: seq<Dict>, i: nat, unquote: string -> string, group: bool, logs: bool)
    requires forall k :: 0 <= k < |ms| ==> WellTyped(ms[k])
    requires i < |ms| && CheckError(ms[i]).Some?
    requires forall k :: 0 <= k < i ==> CheckError(ms[k]).None?
    ensures Picture(ms, unquote, group, logs) == Err(CheckError(ms[i]).value)
  {
    FirstErrorAt(ms, i);
  }

  /** The transition names at least one error directory, under `error` or `errors` */
  predicate NamesErrorDir(m: Dict)
  {
    WellTyped(m) && Given(m, "error", "errors") != []
  }

  /** A normalised transition has an error node exactly when it named an error directory. */
  lemma ErrorNodes(m: Dict, n: Dict)
    requires NormalFormOf(m, n)
    ensures |ListOr(n, "errors")| == |Given(m, "error", "errors")|
  {
    NormalizedLists(m, "");
  }

  /** No error node is collected exactly when no transition has one. */
  lemma {:induction false} AllErrorsEmpty(ns: seq<Dict>, unquote: string -> string)
    requires AllWellTyped(ns)
    ensures |AllErrors(ns, unquote)| == 0 <==> forall k :: 0 <= k < |ns| ==> ListOr(ns[k], "errors") == []
  {
    if |ns| > 0 {
      var init := ns[..|ns| - 1];
      AllErrorsEmpty(init, unquote);
      assert forall k :: 0 <= k < |init| ==> init[k] == ns[k];
    }
  }

  /**
   * When every transition passes, `transitions2dot` draws them all, and adds the error cluster
   * exactly when grouping is asked for and some transition names an error directory.
   */
  lemma PictureCluster(ms: seq<Dict>, unquote: string -> string, group: bool, logs: bool)
    requires forall k :: 0 <= k < |ms| ==> WellTyped(ms[k]) && CheckError(ms[k]).None?
    ensures Picture(ms, unquote, group, logs).Ok?
    ensures Picture(ms, unquote, group, logs).value
            == (if group && exists k :: 0 <= k < |ms| && NamesErrorDir(ms[k])
                then Drawing(NormalForms(ms), unquote, logs) + Cluster(AllErrors(NormalForms(ms), unquote))
                else Drawing(NormalForms(ms), unquote, logs))
               + "}"
  {
    var ns := NormalForms(ms);
    AllErrorsEmpty(ns, unquote);
    forall k | 0 <= k < |ms| ensures ListOr(ns[k], "errors") == [] <==> !NamesErrorDir(ms[k]) {
      ErrorNodes(ms[k], ns[k]);
    }
  }

  /** `ns` holds the normal forms of the first `|ns|` former contents `olds`. */
  ghost predicate NormalPrefix(olds: seq<Dict>, ns: seq<Dict>)
  {
    && |ns| <= |olds| && AllWellTyped(ns)
    && forall k {:trigger NormalFormOf(olds[k], ns[k])} :: 0 <= k < |ns| ==> NormalFormOf(olds[k], ns[k])
  }

  lemma NormalPrefixSnoc(olds: seq<Dict>, ns: seq<Dict>, n: Dict)
    requires NormalPrefix(olds, ns) && |ns| < |olds| && NormalFormOf(olds[|ns|], n)
    ensures NormalPrefix(olds, ns + [n])
  {
    var ns' := ns + [n];
    forall k | 0 <= k < |ns'| ensures NormalFormOf(olds[k], ns'[k]) {
      if k < |ns| {
        assert NormalFormOf(olds[k], ns[k]);
      }
    }
  }

  /** The transitions normalised so far passed the assertions of `normalize`. */
  lemma NormalPrefixPassed(olds: seq<Dict>, ns: seq<Dict>)
    requires NormalPrefix(olds, ns)
    ensures forall k :: 0 <= k < |ns| ==> CheckError(olds[k]).None?
  {
    forall k | 0 <= k < |ns| ensures CheckError(olds[k]).None? {
      assert NormalFormOf(olds[k], ns[k]);
    }
  }

  /** Once every transition is normalised, they are the normal forms of all of them. */
  lemma NormalPrefixDone(olds: seq<Dict>, ns: seq<Dict>)
    requires NormalPrefix(olds, ns) && |ns| == |olds|
    ensures forall k :: 0 <= k < |olds| ==> WellTyped(olds[k]) && CheckError(olds[k]).None?
    ensures ns == NormalForms(olds)
  {
    forall k | 0 <= k < |olds| ensures NormalFormOf(olds[k], ns[k]) {
      assert NormalFormOf(olds[k], ns[k]);
    }
  }

  /** The contents of the dictionaries */
  function EntriesOf(ts: seq<TransitionDict>): (r: seq<Dict>)
    reads ts
    ensures |r| == |ts| && forall k :: 0 <= k < |ts| ==> r[k] == ts[k].entries
  {
    if |ts| == 0 then [] else [ts[0].entries] + EntriesOf(ts[1..])
  }

  /** Some dictionary before position `i` is the one at position `k`. */
  ghost predicate Seen(ts: seq<TransitionDict>, i: nat, k: nat)
    requires i <= |ts| && k < |ts|
  {
    ts[k] in ts[..i]
  }

  lemma SeenWitness(ts: seq<TransitionDict>, i: nat, k: nat) returns (j: nat)
    requires i <= |ts| && k < |ts| && Seen(ts, i, k)
    ensures j < i && ts[j] == ts[k]
  {
    j :| 0 <= j < i && ts[..i][j] == ts[k];
  }

  /** Met before `i + 1`: met before `i`, or it is the dictionary at `i`. */
  lemma SeenNext(ts: seq<TransitionDict>, i: nat, k: nat)
    requires i < |ts| && k < |ts|
    ensures Seen(ts, i + 1, k) <==> Seen(ts, i, k) || ts[k] == ts[i]
  {
    assert ts[..i + 1] == ts[..i] + [ts[i]];
  }

  /**
   * The contents `cur` of the dictionaries after `i` of them were normalised, against their former
   * contents `olds`: every dictionary met so far holds its normal form, every other one its former
   * contents.
   */
  ghost predicate Tracks(ts: seq<TransitionDict>, cur: seq<Dict>, olds: seq<Dict>, i: nat)
  {
    && |cur| == |ts| && |olds| == |ts| && i <= |ts|
    && (forall k :: 0 <= k < |ts| && Seen(ts, i, k) ==>
          NormalFormOf(olds[k], cur[k]))
    && (forall k :: 0 <= k < |ts| && !Seen(ts, i, k) ==> cur[k] == olds[k])
  }

  /** The former contents `olds` of the dictionaries are well typed, and a dictionary listed twice held one content. */
  ghost predicate Consistent(ts: seq<TransitionDict>, olds: seq<Dict>)
  {
    && |olds| == |ts|
    && (forall k :: 0 <= k < |ts| ==> WellTyped(olds[k]))
    && (forall j, k :: 0 <= j < |ts| && 0 <= k < |ts| && ts[j] == ts[k] ==> olds[j] == olds[k])
  }

  lemma StartConsistent(ts: seq<TransitionDict>, olds: seq<Dict>)
    requires olds == EntriesOf(ts) && forall k :: 0 <= k < |ts| ==> WellTyped(olds[k])
    ensures Consistent(ts, olds)
  {
  }

  /** `after` is the normal form, without a root, of `before`, which passes the assertions of `normalize` */
  predicate NormalFormOf(before: Dict, after: Dict)
  {
    WellTyped(before) && CheckError(before).None? && after == Normalized(before, "")
  }

  /**
   * The contents `cur` of the dictionaries once `transitions2dot` is over, against their former
   * contents `olds`: each holds its former contents or its normal form, and the normal form when
   * `all` of them were normalised.
   */
  predicate Settled(olds: seq<Dict>, cur: seq<Dict>, all: bool)
  {
    |cur| == |olds|
    && forall k :: 0 <= k < |olds| ==>
         if all then NormalFormOf(olds[k], cur[k]) else cur[k] == olds[k] || NormalFormOf(olds[k], cur[k])
  }

  /** The state of `transitions2dot` after `i` dictionaries */
  ghost predicate Progress(ts: seq<TransitionDict>, olds: seq<Dict>, i: nat)
    reads ts
  {
    Tracks(ts, EntriesOf(ts), olds, i)
  }

  /** Once the `i`th dictionary is passed, it holds the normal form of its former contents. */
  lemma ProgressNormal(ts: seq<TransitionDict>, olds: seq<Dict>, i: nat)
    requires i < |ts| && Progress(ts, olds, i + 1)
    ensures NormalFormOf(olds[i], ts[i].entries)
  {
    SeenNext(ts, i, i);
    assert EntriesOf(ts)[i] == ts[i].entries;
  }

  /** The next dictionary holds its former contents or, met before, their normal form. */
  lemma TracksNext(ts: seq<TransitionDict>, cur: seq<Dict>, olds: seq<Dict>, i: nat)
    requires Consistent(ts, olds) && Tracks(ts, cur, olds, i) && i < |ts|
    ensures WellTyped(cur[i])
    ensures CheckError(cur[i]) == CheckError(olds[i])
    ensures CheckError(cur[i]).None? ==> Normalized(cur[i], "") == Normalized(olds[i], "")
  {
    if Seen(ts, i, i) {
      var j := SeenWitness(ts, i, i);
      NormalizeIdempotent(olds[i], "", "");
    }
  }

  /** Normalising the next dictionary, wherever else it is listed, extends the tracked prefix. */
  lemma TracksStep(ts: seq<TransitionDict>, pre: seq<Dict>, post: seq<Dict>, olds: seq<Dict>, i: nat)
    requires Consistent(ts, olds) && Tracks(ts, pre, olds, i) && i < |ts| && CheckError(olds[i]).None?
    requires |post| == |ts|
    requires forall k :: 0 <= k < |ts| && ts[k] != ts[i] ==> post[k] == pre[k]
    requires forall k :: 0 <= k < |ts| && ts[k] == ts[i] ==> post[k] == Normalized(olds[i], "")
    ensures Tracks(ts, post, olds, i + 1)
  {
    forall k | 0 <= k < |ts| ensures Seen(ts, i + 1, k) <==> Seen(ts, i, k) || ts[k] == ts[i] {
      SeenNext(ts, i, k);
    }
  }

  /** One dictionary of `transitions2dot` normalised, whether or not it was met before */
  method NormalizeNext(ts: seq<TransitionDict>, i: nat, ghost olds: seq<Dict>) returns (err: Option<NormError>)
    requires Consistent(ts, olds) && Progress(ts, olds, i) && i < |ts|
    modifies ts[i]
    ensures err == CheckError(olds[i])
    ensures err.Some? ==> Progress(ts, olds, i)
    ensures err.None? ==> Progress(ts, olds, i + 1) && NormalFormOf(olds[i], ts[i].entries)
  {
    var t := ts[i];
    ghost var pre := EntriesOf(ts);
    TracksNext(ts, pre, olds, i);
    err := Normalize(t, "");
    ghost var post := EntriesOf(ts);
    if err.None? {
      TracksStep(ts, pre, post, olds, i);
    }
  }

  /** Once every dictionary was met, each holds its normal form. */
  lemma TracksDone(ts: seq<TransitionDict>, cur: seq<Dict>, olds: seq<Dict>)
    requires Consistent(ts, olds) && Tracks(ts, cur, olds, |ts|)
    ensures Settled(olds, cur, true)
  {
    assert ts[..|ts|] == ts;
  }

  /** Any dictionary holds its former contents or their normal form. */
  lemma TracksEither(ts: seq<TransitionDict>, cur: seq<Dict>, olds: seq<Dict>, i: nat)
    requires Consistent(ts, olds) && Tracks(ts, cur, olds, i)
    ensures Settled(olds, cur, false)
  {
  }

  /**
   * `transitions2dot(transitions, group, logs)`: each dictionary is normalised in place, then
   * drawn; the error nodes are chained in an invisible cluster when `group` is set and there are
   * any. A dictionary listed twice is normalised twice, which changes nothing the second time; a
   * failed assertion stops the loop with the dictionaries before it already normalised.
   */
  method Transitions2Dot(ts: seq<TransitionDict>, unquote: string -> string, group: bool, logs: bool)
    returns (r: Result<string, NormError>)
    requires forall k :: 0 <= k < |ts| ==> WellTyped(ts[k].entries)
    modifies ts
    ensures r == Picture(old(EntriesOf(ts)), unquote, group, logs)
    ensures Settled(old(EntriesOf(ts)), EntriesOf(ts), r.Ok?)
  {
    ghost var olds := EntriesOf(ts);
    var dot := "digraph transitions {\n";
    dot := dot + "    rankdir = TB;\n";
    dot := dot + "    splines=ortho;\n";
    dot := dot + "    node[penwidth=2.0];\n";
    var err, errors;
    StartConsistent(ts, olds);
    err, dot, errors := DrawAll(ts, olds, dot, unquote, logs);
    if err.Some? {
      return Err(err.value);
    }
    if group && |errors| > 0 {
      dot := dot + ("subgraph cluster_errors {\n" + "color=none\nedge[style=invis]\n" + Join(" -> ", errors) + "\n" + "}\n");
    }
    dot := dot + "}";
    return Ok(dot);
  }

  /** The loop of `transitions2dot`: normalise each dictionary in turn and draw it */
  method DrawAll(ts: seq<TransitionDict>, ghost olds: seq<Dict>, header: string, unquote: string -> string, logs: bool)
    returns (err: Option<NormError>, dot: string, errors: seq<string>)
    requires header == Header
    requires olds == EntriesOf(ts) && Consistent(ts, olds)
    modifies ts
    ensures err == FirstError(olds)
    ensures err.None? ==> Drawn(olds, NormalForms(olds), dot, errors, unquote, logs)
    ensures Settled(olds, EntriesOf(ts), err.None?)
  {
    dot, errors := header, [];
    ghost var ns: seq<Dict> := [];
    StartTracks(ts, olds);
    for i := 0 to |ts|
      invariant Progress(ts, olds, i)
      invariant |ns| == i && Drawn(olds, ns, dot, errors, unquote, logs)
    {
      var d, e;
      ghost var m;
      err, d, e, m := DrawNext(ts, i, olds, unquote, logs);
      if err.Some? {
        NormalPrefixPassed(olds, ns);
        FirstErrorAt(olds, i);
        TracksEither(ts, EntriesOf(ts), olds, i);
        return;
      }
      ProgressNormal(ts, olds, i);
      NormalPrefixSnoc(olds, ns, m);
      DrawingSnoc(ns, m, unquote, logs);
      ns, dot, errors := ns + [m], dot + d, errors + e;
    }
    err := None;
    NormalPrefixDone(olds, ns);
    TracksDone(ts, EntriesOf(ts), olds);
  }

  /** What the loop of `transitions2dot` has drawn once the transitions `ns` are normalised */
  ghost predicate Drawn(olds: seq<Dict>, ns: seq<Dict>, dot: string, errors: seq<string>,
                        unquote: string -> string, logs: bool)
  {
    NormalPrefix(olds, ns) && dot == Drawing(ns, unquote, logs) && errors == AllErrors(ns, unquote)
  }

  /** One round of the loop of `transitions2dot`: normalise the `i`th transition and draw it */
  method DrawNext(ts: seq<TransitionDict>, i: nat, ghost olds: seq<Dict>, unquote: string -> string, logs: bool)
    returns (err: Option<NormError>, d: string, e: seq<string>, ghost m: Dict)
    requires Consistent(ts, olds) && Progress(ts, olds, i) && i < |ts|
    modifies ts[i]
    ensures err == CheckError(olds[i])
    ensures err.Some? ==> Progress(ts, olds, i)
    ensures err.None? ==> Progress(ts, olds, i + 1) && m == ts[i].entries
    ensures err.None? && WellTyped(m) ==> (d == Blocks(Edges(m, unquote, logs)) &&
                                           e == QuotedDirs(unquote, ListOr(m, "errors")))
  {
    err := NormalizeNext(ts, i, olds);
    d, e, m := "", [], olds[i];
    if err.None? {
      var n := ts[i].entries;
      d, e := Trans2Dot(n, unquote, logs);
      m := n;
    }
  }

  /** Before the loop nothing was met and every dictionary holds its former contents. */
  lemma StartTracks(ts: seq<TransitionDict>, olds: seq<Dict>)
    requires |olds| == |ts|
    ensures Tracks(ts, olds, olds, 0)
  {
  }
}
