/**
 * `pydsl.py`: the first version of the transition DSL. Its `normalize` keeps the shorthand keys and
 * does not ask for a command, and its `pmjq_command` writes no space after the output options.
 */
module PyDsl {
  import opened Wrappers
  import opened Strings
  import opened Transitions
  import Dsl

  /** Why `pmjq_command` returns no line: an assertion of `normalize` fails, or a key is missing. */
  datatype CommandError = Assertion(reason: NormError) | KeyError(key: string)

  // ----- normalize -----

  /** A shorthand that is present also becomes a one-element list under the long key; it stays. */
  function AddList(m: Dict, short: string, long: string): (r: Dict)
    requires WellTyped(m)
    requires (short == "stdin" && long == "inputs") || (short == "stdout" && long == "outputs")
          || (short == "error" && long == "errors")
    ensures WellTyped(r)
  {
    if short in m then m[long := List([m[short].s])] else m
  }

  /** What `normalize` makes of a dictionary whose shorthands pass its three assertions */
  function PyNormalized(m: Dict): (r: Dict)
    requires WellTyped(m) && ShorthandError(m).None?
    ensures WellTyped(r)
  {
    AddList(AddList(AddList(m, "stdin", "inputs"), "stdout", "outputs"), "error", "errors")
  }

  /**
   * `normalize(transition)`: a failed assertion leaves the dictionary as it was; otherwise the
   * long keys are added in place.
   */
  method PyNormalize(t: TransitionDict) returns (err: Option<NormError>)
    requires WellTyped(t.entries)
    modifies t
    ensures err == ShorthandError(old(t.entries))
    ensures err.Some? ==> t.entries == old(t.entries)
    ensures err.None? ==> t.entries == PyNormalized(old(t.entries))
  {
    if ("stdin" in t.entries) == ("inputs" in t.entries) {
      return Some(StdinXorInputs);
    }
    if ("stdout" in t.entries) == ("outputs" in t.entries) {
      return Some(StdoutXorOutputs);
    }
    if "error" in t.entries && "errors" in t.entries {
      return Some(ErrorNandErrors);
    }
    err := None;
    if "stdin" in t.entries {
      t.entries := t.entries["inputs" := List([t.entries["stdin"].s])];
    }
    if "stdout" in t.entries {
      t.entries := t.entries["outputs" := List([t.entries["stdout"].s])];
    }
    if "error" in t.entries {
      t.entries := t.entries["errors" := List([t.entries["error"].s])];
    }
  }

  /** The list under `long` after `normalize`: the shorthand as a singleton, or the list given */
  function ListAfter(m: Dict, short: string, long: string): seq<string>
    requires WellTyped(m)
    requires (short == "stdin" && long == "inputs") || (short == "stdout" && long == "outputs")
          || (short == "error" && long == "errors")
  {
    if short in m then [m[short].s] else if long in m then m[long].items else []
  }

  /**
   * `normalize` adds the inputs, the outputs and, when an error directory is named, the errors; it
   * keeps every key it was given, the shorthands included, and changes no other value.
   */
  lemma PyNormalizedShape(m: Dict)
    requires WellTyped(m) && ShorthandError(m).None?
    ensures PyNormalized(m).Keys == m.Keys + {"inputs", "outputs"} + (if "error" in m then {"errors"} else {})
    ensures PyNormalized(m)["inputs"].items == ListAfter(m, "stdin", "inputs")
    ensures PyNormalized(m)["outputs"].items == ListAfter(m, "stdout", "outputs")
    ensures "errors" in PyNormalized(m) <==> "error" in m || "errors" in m
    ensures "errors" in PyNormalized(m) ==> PyNormalized(m)["errors"].items == ListAfter(m, "error", "errors")
    ensures forall k :: k in m && k != "inputs" && k != "outputs" && k != "errors" ==> PyNormalized(m)[k] == m[k]
  {
  }

  /**
   * A dictionary `normalize` has rewritten passes its assertions again only when it used no
   * shorthand; the shorthand left beside its long key makes the second call fail.
   */
  lemma PyNormalizeAgain(m: Dict)
    requires WellTyped(m) && ShorthandError(m).None?
    ensures ShorthandError(PyNormalized(m)).None? <==> "stdin" !in m && "stdout" !in m && "error" !in m
    ensures ShorthandError(PyNormalized(m)).None? ==> PyNormalized(m) == m
    ensures "stdin" in m ==> ShorthandError(PyNormalized(m)) == Some(StdinXorInputs)
  {
    PyNormalizedShape(m);
  }

  /** A dictionary written with the `stdin` and `stdout` shorthands, as the module's own example */
  const Shorthanded: Dict := map["stdin" := Str("/in/"), "stdout" := Str("/out/"), "cmd" := Str("c")]

  /** Running `pmjq_command` twice on that dictionary: the second `normalize` fails. */
  lemma ShorthandedTwice()
    ensures WellTyped(Shorthanded) && ShorthandError(Shorthanded).None?
    ensures ShorthandError(PyNormalized(Shorthanded)) == Some(StdinXorInputs)
  {
    PyNormalizeAgain(Shorthanded);
  }

  // ----- pmjq_command -----

  /** After the output options: the stderr option, the error options and the redirection of the log */
  function Tail(m: Dict): (r: string)
    requires WellTyped(m)
    ensures "stderr" !in m && "errors" !in m && "log" !in m ==> r == ""
  {
    var a6 := if "stderr" in m then "--stderr=" + m["stderr"].s + " " else "";
    var a7 := if "errors" in m then a6 + (Dsl.Options("--error=", m["errors"].items) + " ") else a6;
    if "log" in m then a7 + ("&> " + m["log"].s) else a7
  }

  /**
   * The command line `pmjq_command` builds once `normalize` has passed: the same head as
   * `pmjqtools/dsl.py`, the output options, then the tail with no space in between
   */
  function PyCommandLine(m: Dict): (r: string)
    requires Dsl.CommandKeys(m)
  {
    Dsl.CommandHead(m) + (Dsl.Options("--output=", m["outputs"].items) + Tail(m))
  }

  /** The line starts with the `--quit-when-empty` flag exactly when `quit_empty` is set and true. */
  lemma PyQuitFlag(m: Dict)
    requires Dsl.CommandKeys(m)
    ensures StartsWith(PyCommandLine(m), Dsl.QuitPrefix) <==> Dsl.QuitEmpty(m)
  {
    assert StartsWith(PyCommandLine(m), Dsl.CommandHead(m));
    Dsl.HeadQuitFlag(m, PyCommandLine(m));
  }

  /**
   * On a dictionary in the form the later `normalize` leaves, the later line (with the `&>`
   * redirection) is this line with one space put back after the output options.
   */
  lemma MissingSpace(m: Dict)
    requires Dsl.Normal(m)
    ensures var k := |Dsl.CommandHead(m) + Dsl.Options("--output=", m["outputs"].items)|;
            (k <= |PyCommandLine(m)| &&
             Dsl.CommandLine(m, "&>") == PyCommandLine(m)[..k] + " " + PyCommandLine(m)[k..])
  {
    var head := Dsl.CommandHead(m) + Dsl.Options("--output=", m["outputs"].items);
    var line := PyCommandLine(m);
    AppendAssoc(Dsl.CommandHead(m), Dsl.Options("--output=", m["outputs"].items), Tail(m));
    assert line == head + Tail(m);
    assert line[..|head|] == head && line[|head|..] == Tail(m);
    LaterTail(m);
  }

  /** The later line is the same head, the output options, a space and the same tail. */
  lemma LaterTail(m: Dict)
    requires Dsl.Normal(m)
    ensures Dsl.CommandLine(m, "&>")
         == Dsl.CommandHead(m) + Dsl.Options("--output=", m["outputs"].items) + " " + Tail(m)
  {
    var a5 := Dsl.CommandHead(m) + (Dsl.Options("--output=", m["outputs"].items) + " ");
    AppendAssoc(Dsl.CommandHead(m), Dsl.Options("--output=", m["outputs"].items), " ");
    var b6 := if "stderr" in m then "--stderr=" + m["stderr"].s + " " else "";
    var b7 := if "errors" in m then b6 + (Dsl.Options("--error=", m["errors"].items) + " ") else b6;
    var a6 := if "stderr" in m then a5 + ("--stderr=" + m["stderr"].s + " ") else a5;
    var a7 := if "errors" in m then a6 + (Dsl.Options("--error=", m["errors"].items) + " ") else a6;
    assert a6 == a5 + b6;
    if "errors" in m {
      AppendAssoc(a5, b6, Dsl.Options("--error=", m["errors"].items) + " ");
    }
    assert a7 == a5 + b7;
    if "log" in m {
      AppendAssoc(a5, b7, "&> " + m["log"].s);
      RedirectSpace(m["log"].s);
    }
  }

  lemma RedirectSpace(log: string)
    ensures "&>" + " " + log == "&> " + log
  {
  }

  /**
   * With a `stderr` key, the stderr option starts right where the output options end, with no
   * space: the last output pattern and the option make one word of the shell line.
   */
  lemma StderrGlued(m: Dict)
    requires Dsl.CommandKeys(m) && "stderr" in m
    ensures OccursAt(PyCommandLine(m), "--stderr=" + m["stderr"].s,
                     |Dsl.CommandHead(m) + Dsl.Options("--output=", m["outputs"].items)|)
  {
    var head := Dsl.CommandHead(m) + Dsl.Options("--output=", m["outputs"].items);
    var opt := "--stderr=" + m["stderr"].s;
    AppendAssoc(Dsl.CommandHead(m), Dsl.Options("--output=", m["outputs"].items), Tail(m));
    assert PyCommandLine(m) == head + Tail(m);
    assert StartsWith(Tail(m), opt) by {
      var a6 := opt + " ";
      assert StartsWith(a6, opt);
      assert StartsWith(Tail(m), a6);
      PrefixTrans(Tail(m), a6, opt);
    }
    assert PyCommandLine(m)[|head|..|head| + |opt|] == Tail(m)[..|opt|];
  }

  /**
   * `pmjq_command(transition)`: normalises the dictionary in place, then builds the line by
   * successive appends. A failed assertion leaves the dictionary unchanged; a missing command is
   * met once the dictionary is already normalised.
   */
  method PyPmjqCommand(t: TransitionDict) returns (r: Result<string, CommandError>)
    requires WellTyped(t.entries)
    modifies t
    ensures ShorthandError(old(t.entries)).Some? ==>
      (r == Err(Assertion(ShorthandError(old(t.entries)).value)) && t.entries == old(t.entries))
    ensures ShorthandError(old(t.entries)).None? ==> t.entries == PyNormalized(old(t.entries))
    ensures ShorthandError(old(t.entries)).None? && "cmd" !in old(t.entries) ==> r == Err(KeyError("cmd"))
    ensures ShorthandError(old(t.entries)).None? && "cmd" in old(t.entries) ==>
      (Dsl.CommandKeys(t.entries) && r == Ok(PyCommandLine(t.entries)))
  {
    var err := PyNormalize(t);
    if err.Some? {
      return Err(Assertion(err.value));
    }
    PyNormalizedShape(old(t.entries));
    r := BuildLine(t.entries);
  }

  /** The appends of `pmjq_command` on the normalised dictionary, up to the missing command if any */
  method BuildLine(m: Dict) returns (r: Result<string, CommandError>)
    requires WellTyped(m) && "inputs" in m && "outputs" in m
    ensures "cmd" !in m ==> r == Err(KeyError("cmd"))
    ensures "cmd" in m ==> Dsl.CommandKeys(m) && r == Ok(PyCommandLine(m))
  {
    var answer := "pmjq ";
    if "quit_empty" in m && Truthy(m["quit_empty"]) {
      answer := answer + "--quit-when-empty ";
    }
    answer := answer + (Dsl.Options("--input=", m["inputs"].items) + " ");
    if "invariant" in m {
      answer := answer + ("--invariant=" + m["invariant"].s + " ");
    }
    if "cmd" !in m {
      return Err(KeyError("cmd"));
    }
    answer := answer + (m["cmd"].s + " ");
    ghost var head := answer;
    answer := answer + Dsl.Options("--output=", m["outputs"].items);
    ghost var a5 := answer;
    if "stderr" in m {
      answer := answer + ("--stderr=" + m["stderr"].s + " ");
    }
    if "errors" in m {
      answer := answer + (Dsl.Options("--error=", m["errors"].items) + " ");
    }
    if "log" in m {
      answer := answer + ("&> " + m["log"].s);
    }
    assert head == Dsl.CommandHead(m);
    TailAppended(m, a5, answer);
    AppendAssoc(head, Dsl.Options("--output=", m["outputs"].items), Tail(m));
    return Ok(answer);
  }

  /** The three optional appends after the output options add the tail. */
  lemma TailAppended(m: Dict, a5: string, answer: string)
    requires WellTyped(m)
    requires var a6 := if "stderr" in m then a5 + ("--stderr=" + m["stderr"].s + " ") else a5;
             var a7 := if "errors" in m then a6 + (Dsl.Options("--error=", m["errors"].items) + " ") else a6;
             answer == if "log" in m then a7 + ("&> " + m["log"].s) else a7
    ensures answer == a5 + Tail(m)
  {
    var b6 := if "stderr" in m then "--stderr=" + m["stderr"].s + " " else "";
    var b7 := if "errors" in m then b6 + (Dsl.Options("--error=", m["errors"].items) + " ") else b6;
    if "errors" in m {
      AppendAssoc(a5, b6, Dsl.Options("--error=", m["errors"].items) + " ");
    }
    if "log" in m {
      AppendAssoc(a5, b7, "&> " + m["log"].s);
    }
  }
}
