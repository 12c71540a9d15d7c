/**
 * `pmjqtools/pmjq_sff.py`: the back end of the web interface to a pmjq dataflow. Modelled here:
 * the leaves of the dataflow it offers to the user, the filters that pick pmjq log lines, and the
 * pairing of the file names and file contents the front end sends.
 */
module Sff {
  import opened Wrappers
  import opened Strings
  import opened Paths
  import opened Transitions
  import Dsl

  // ----- find_leaves -----

  /** The transitions as `run_on_transitions_from_cli` hands them over: every one normalised */
  predicate AllNormal(trans: seq<Dict>)
  {
    forall k :: 0 <= k < |trans| ==> Dsl.Normal(trans[k])
  }

  /** `sum([t[key] for t in trans], [])`: the lists under `key`, one after the other */
  function Concat(trans: seq<Dict>, key: string): seq<string>
    requires AllNormal(trans) && (key == "inputs" || key == "outputs")
  {
    if |trans| == 0 then [] else Concat(trans[..|trans| - 1], key) + trans[|trans| - 1][key].items
  }

  /** A pattern is in the concatenation exactly when some transition lists it under the key. */
  lemma {:induction false} ConcatHas(trans: seq<Dict>, key: string, x: string)
    requires AllNormal(trans) && (key == "inputs" || key == "outputs")
    ensures x in Concat(trans, key) <==> exists k :: 0 <= k < |trans| && x in trans[k][key].items
  {
    if |trans| > 0 {
      var init := trans[..|trans| - 1];
      ConcatHas(init, key, x);
      if exists k :: 0 <= k < |trans| && x in trans[k][key].items {
        var k :| 0 <= k < |trans| && x in trans[k][key].items;
        if k < |init| {
          assert init[k] == trans[k];
        }
      }
      if exists k :: 0 <= k < |init| && x in init[k][key].items {
        var k :| 0 <= k < |init| && x in init[k][key].items;
        assert init[k] == trans[k];
      }
    }
  }

  /** `[t['log'] for t in trans if 'log' in t]` */
  function LogList(trans: seq<Dict>): seq<string>
    requires AllNormal(trans)
  {
    if |trans| == 0 then []
    else LogList(trans[..|trans| - 1]) + (if "log" in trans[|trans| - 1] then [trans[|trans| - 1]["log"].s] else [])
  }

  /** A file is in the log list exactly when some transition has it as its `log`. */
  lemma {:induction false} LogListHas(trans: seq<Dict>, x: string)
    requires AllNormal(trans)
    ensures x in LogList(trans) <==> exists k :: 0 <= k < |trans| && "log" in trans[k] && trans[k]["log"].s == x
  {
    if |trans| > 0 {
      var init := trans[..|trans| - 1];
      LogListHas(init, x);
      if exists k :: 0 <= k < |trans| && "log" in trans[k] && trans[k]["log"].s == x {
        var k :| 0 <= k < |trans| && "log" in trans[k] && trans[k]["log"].s == x;
        if k < |init| {
          assert init[k] == trans[k];
        }
      }
      if exists k :: 0 <= k < |init| && "log" in init[k] && init[k]["log"].s == x {
        var k :| 0 <= k < |init| && "log" in init[k] && init[k]["log"].s == x;
        assert init[k] == trans[k];
      }
    }
  }

  /** The three results of `find_leaves`: input directories, output directories and log files */
  datatype Leaves = Leaves(inputs: set<string>, outputs: set<string>, logs: set<string>)

  /** `os.path.normpath(os.path.dirname(smart_unquote(p)))`: the directory of a pattern */
  function DirKey(unquote: string -> string, normpath: string -> string, p: string): string
  {
    normpath(Dirname(unquote(p)))
  }

  /** The set comprehension of `find_leaves` over a set of patterns */
  function Dirs(unquote: string -> string, normpath: string -> string, ps: set<string>): set<string>
  {
    set p | p in ps :: DirKey(unquote, normpath, p)
  }

  /**
   * `find_leaves(trans)`: the directories only read from, those only written to, and the log files,
   * with `smart_unquote` and `os.path.normpath` given as functions
   */
  function FindLeaves(trans: seq<Dict>, unquote: string -> string, normpath: string -> string): (r: Leaves)
    requires AllNormal(trans)
    ensures r.inputs !! r.outputs
  {
    var inputs := Dirs(unquote, normpath, Elems(Concat(trans, "inputs")));
    var outputs := Dirs(unquote, normpath, Elems(Concat(trans, "outputs")));
    var logs := set l | l in LogList(trans) :: normpath(unquote(l));
    Leaves(inputs - outputs, outputs - inputs, logs)
  }

  /** `d` is the directory of a pattern some transition lists under `key` */
  predicate Lists(trans: seq<Dict>, key: string, unquote: string -> string, normpath: string -> string, d: string)
    requires AllNormal(trans) && (key == "inputs" || key == "outputs")
  {
    exists k, j :: 0 <= k < |trans| && 0 <= j < |trans[k][key].items| && DirKey(unquote, normpath, trans[k][key].items[j]) == d
  }

  lemma DirsHas(trans: seq<Dict>, key: string, unquote: string -> string, normpath: string -> string, d: string)
    requires AllNormal(trans) && (key == "inputs" || key == "outputs")
    ensures d in Dirs(unquote, normpath, Elems(Concat(trans, key))) <==> Lists(trans, key, unquote, normpath, d)
  {
    var ps := Elems(Concat(trans, key));
    if d in Dirs(unquote, normpath, ps) {
      var p :| p in ps && DirKey(unquote, normpath, p) == d;
      ConcatHas(trans, key, p);
      var k :| 0 <= k < |trans| && p in trans[k][key].items;
      var j :| 0 <= j < |trans[k][key].items| && trans[k][key].items[j] == p;
    }
    if Lists(trans, key, unquote, normpath, d) {
      var k, j :| 0 <= k < |trans| && 0 <= j < |trans[k][key].items|
                  && DirKey(unquote, normpath, trans[k][key].items[j]) == d;
      var p := trans[k][key].items[j];
      ConcatHas(trans, key, p);
      assert p in ps;
    }
  }

  /**
   * Input leaves are the directories some transition reads and none writes, output leaves the
   * other way round; a directory both read and written is in neither. The logs are exactly the
   * `log` files of the transitions.
   */
  lemma LeavesExact(trans: seq<Dict>, unquote: string -> string, normpath: string -> string, d: string)
    requires AllNormal(trans)
    ensures d in FindLeaves(trans, unquote, normpath).inputs
        <==> Lists(trans, "inputs", unquote, normpath, d) && !Lists(trans, "outputs", unquote, normpath, d)
    ensures d in FindLeaves(trans, unquote, normpath).outputs
        <==> Lists(trans, "outputs", unquote, normpath, d) && !Lists(trans, "inputs", unquote, normpath, d)
    ensures d in FindLeaves(trans, unquote, normpath).logs
        <==> exists k :: 0 <= k < |trans| && "log" in trans[k] && normpath(unquote(trans[k]["log"].s)) == d
  {
    DirsHas(trans, "inputs", unquote, normpath, d);
    DirsHas(trans, "outputs", unquote, normpath, d);
    var logs := LogList(trans);
    if d in FindLeaves(trans, unquote, normpath).logs {
      var l :| l in logs && normpath(unquote(l)) == d;
      LogListHas(trans, l);
    }
    if exists k :: 0 <= k < |trans| && "log" in trans[k] && normpath(unquote(trans[k]["log"].s)) == d {
      var k :| 0 <= k < |trans| && "log" in trans[k] && normpath(unquote(trans[k]["log"].s)) == d;
      LogListHas(trans, trans[k]["log"].s);
    }
  }

  // ----- the log filters -----

  /** What pmjq logs when a command fails and the input file goes to the error directory */
  const Rejected := "ERROR Rejected file from "

  /** What pmjq logs when it counts the files waiting in a directory */
  const Candidates := "INFO Candidates for "

  /** `get_default_filter(pattern)(log)`: the line mentions the pattern (the job id) */
  predicate DefaultFilter(pattern: string, log: string)
  {
    Contains(log, pattern)
  }

  /** `get_error_filter(pattern)(log)`: the line mentions the pattern and is a rejection */
  predicate ErrorFilter(pattern: string, log: string)
  {
    Contains(log, pattern) && Contains(log, Rejected)
  }

  /** `waiting_filter(log)` */
  predicate WaitingFilter(log: string)
  {
    Contains(log, Candidates)
  }

  /**
   * Each filter accepts a line exactly when the texts it looks for occur in it; every rejection of
   * the job is also forwarded as a plain log line, and the empty pattern accepts every line.
   */
  lemma FiltersAccept(pattern: string, log: string)
    ensures DefaultFilter(pattern, log) <==> exists k: nat :: OccursAt(log, pattern, k)
    ensures ErrorFilter(pattern, log)
        <==> (exists k: nat :: OccursAt(log, pattern, k)) && (exists k: nat :: OccursAt(log, Rejected, k))
    ensures WaitingFilter(log) <==> exists k: nat :: OccursAt(log, Candidates, k)
    ensures ErrorFilter(pattern, log) ==> DefaultFilter(pattern, log)
    ensures DefaultFilter("", log)
  {
    ContainsAt(log, pattern);
    ContainsAt(log, Rejected);
    ContainsAt(log, Candidates);
    assert StartsWith(log, "");
  }

  // ----- handle_inputs -----

  /** The three fields of a message from the front end: its type, a directory and the content */
  datatype Message = Message(kind: string, dir: string, content: string)

  /** The exceptions that end `handle_inputs`: no more input, a line without two colons, a bad type */
  datatype InputError = EndOfInput | NotEnoughValues(msg: string) | WrongType(kind: string)

  /** `msg_type, dirname, content = msg.split(":", 2)`: at most two splits, the rest is the content */
  function SplitMsg(msg: string): Result<Message, InputError>
  {
    var pieces := Split(msg, ':');
    if |pieces| < 3 then Err(NotEnoughValues(msg)) else Ok(Message(pieces[0], pieces[1], Join(":", pieces[2..])))
  }

  /** A message that splits is its type, its directory and its content with a colon after each of the first two. */
  lemma SplitMsgParts(msg: string)
    ensures SplitMsg(msg).Ok? ==>
      (var m := SplitMsg(msg).value;
       ':' !in m.kind && ':' !in m.dir && msg == m.kind + ":" + m.dir + ":" + m.content)
  {
    var pieces := Split(msg, ':');
    if |pieces| >= 3 {
      JoinSplit(msg, ':');
      assert Join(":", pieces) == pieces[0] + ":" + Join(":", pieces[1..]);
      assert pieces[1..][1..] == pieces[2..];
      assert Join(":", pieces[1..]) == pieces[1] + ":" + Join(":", pieces[2..]);
      AppendAssoc(pieces[0] + ":", pieces[1] + ":", Join(":", pieces[2..]));
      AppendAssoc(pieces[0] + ":", pieces[1], ":");
    }
  }

  /** Any type and directory without colons come back out, whatever colons the content holds. */
  lemma SplitMsgOf(kind: string, dir: string, content: string)
    requires ':' !in kind && ':' !in dir
    ensures SplitMsg(kind + ":" + dir + ":" + content) == Ok(Message(kind, dir, content))
  {
    var msg := kind + ":" + dir + ":" + content;
    assert msg == kind + [':'] + (dir + [':'] + content);
    SplitFirst(kind, dir + [':'] + content, ':');
    SplitFirst(dir, content, ':');
    var pieces := [kind] + ([dir] + Split(content, ':'));
    assert Split(msg, ':') == pieces;
    assert pieces[2..] == Split(content, ':');
    JoinSplit(content, ':');
  }

  /** `received_so_far`: per directory, the latest content of each type of message */
  type Received = map<string, map<string, string>>

  /** A file `handle_inputs` writes: its directory, its name and its base64 content */
  datatype Write = Write(dir: string, file: string, data: string)

  /** `received_so_far[dirname][msg_type] = content`, a missing directory starting empty */
  function Record(rec: Received, m: Message): (r: Received)
    ensures r.Keys == rec.Keys + {m.dir}
    ensures forall d :: d in rec && d != m.dir ==> r[d] == rec[d]
    ensures m.kind in r[m.dir] && r[m.dir][m.kind] == m.content
    ensures forall k :: k in r[m.dir] && k != m.kind ==> m.dir in rec && k in rec[m.dir] && r[m.dir][k] == rec[m.dir][k]
    ensures m.dir in rec ==> rec[m.dir].Keys <= r[m.dir].Keys
  {
    rec[m.dir := (if m.dir in rec then rec[m.dir] else map[])[m.kind := m.content]]
  }

  /** Both the name and the data have arrived for the directory. */
  predicate Ready(rec: Received, d: string)
  {
    d in rec && "name" in rec[d] && "data" in rec[d]
  }

  /** The file written into `d`: named `job_id` plus the extension of the name received */
  function FileFor(rec: Received, d: string, jobId: string): Write
    requires Ready(rec, d)
  {
    Write(d, jobId + Extension(rec[d]["name"]), rec[d]["data"])
  }

  /** The state of `handle_inputs`: what was received, the files written, the lines read, the exception */
  datatype Outcome = Outcome(received: Received, writes: seq<Write>, read: nat, error: Option<InputError>)

  /** One line: split, type checked, recorded, and the file written when both halves are in */
  function Receive(o: Outcome, msg: string, jobId: string): (r: Outcome)
    requires o.error.None?
  {
    match SplitMsg(msg)
    case Err(e) => o.(read := o.read + 1, error := Some(e))
    case Ok(m) =>
      if m.kind != "name" && m.kind != "data" then o.(read := o.read + 1, error := Some(WrongType(m.kind)))
      else
        var rec := Record(o.received, m);
        Outcome(rec, if Ready(rec, m.dir) then o.writes + [FileFor(rec, m.dir, jobId)] else o.writes, o.read + 1, None)
  }

  /** The lines `ms` handled in order, up to the first one that raises */
  function Handle(ms: seq<string>, jobId: string): Outcome
  {
    if |ms| == 0 then Outcome(map[], [], 0, None)
    else
      var o := Handle(ms[..|ms| - 1], jobId);
      if o.error.Some? then o else Receive(o, ms[|ms| - 1], jobId)
  }

  /** `handle_inputs(inputs, job_id)` on the lines of its standard input: it asks for two per input */
  function Session(inputs: seq<string>, jobId: string, stdin: seq<string>): Outcome
  {
    var n := 2 * |inputs|;
    if |stdin| < n then
      var o := Handle(stdin, jobId);
      if o.error.None? then o.(error := Some(EndOfInput)) else o
    else Handle(stdin[..n], jobId)
  }

  /**
   * `handle_inputs(inputs, job_id)`: reads `2 * len(inputs)` lines, records each, and writes a file
   * into a directory each time both its name and its data are known. The base64 decoding of the
   * content, the temporary file and the rename are the write itself.
   */
  method HandleInputs(inputs: seq<string>, jobId: string, stdin: seq<string>)
    returns (writes: seq<Write>, read: nat, err: Option<InputError>)
    ensures writes == Session(inputs, jobId, stdin).writes
    ensures read == Session(inputs, jobId, stdin).read
    ensures err == Session(inputs, jobId, stdin).error
  {
    var received: Received := map[];
    writes, read, err := [], 0, None;
    for i := 0 to 2 * |inputs|
      invariant i <= |stdin| && Handle(stdin[..i], jobId) == Outcome(received, writes, i, None)
      invariant read == i && err.None?
    {
      if i == |stdin| {
        assert stdin[..i] == stdin;
        err := Some(EndOfInput);
        return;
      }
      var msg := stdin[i];
      read := i + 1;
      assert stdin[..i + 1][..i] == stdin[..i];
      var parts := SplitMsg(msg);
      if parts.Err? {
        err := Some(parts.error);
        HandleStops(stdin, i + 1, jobId);
        return;
      }
      var m := parts.value;
      if m.kind != "name" && m.kind != "data" {
        err := Some(WrongType(m.kind));
        HandleStops(stdin, i + 1, jobId);
        return;
      }
      var entry := if m.dir in received then received[m.dir] else map[];
      received := received[m.dir := entry[m.kind := m.content]];
      if "name" in received[m.dir] && "data" in received[m.dir] {
        var fname := jobId + Extension(received[m.dir]["name"]);
        writes := writes + [Write(m.dir, fname, received[m.dir]["data"])];
      }
    }
    assert stdin[..2 * |inputs|][..2 * |inputs|] == stdin[..2 * |inputs|];
  }

  /** Once a line has raised, the lines after it are never read. */
  lemma {:induction false} HandleStops(ms: seq<string>, i: nat, jobId: string)
    requires i <= |ms| && Handle(ms[..i], jobId).error.Some?
    ensures Handle(ms, jobId) == Handle(ms[..i], jobId)
    ensures forall n :: i <= n <= |ms| ==> Handle(ms[..n], jobId) == Handle(ms[..i], jobId)
    decreases |ms|
  {
    if i < |ms| {
      var init := ms[..|ms| - 1];
      assert init[..i] == ms[..i];
      HandleStops(init, i, jobId);
      forall n | i <= n <= |ms| ensures Handle(ms[..n], jobId) == Handle(ms[..i], jobId) {
        if n < |ms| {
          assert init[..n] == ms[..n];
        } else {
          assert ms[..n] == ms;
          assert init[..|init|] == init;
        }
      }
    } else {
      assert ms[..i] == ms;
    }
  }

  /** A line the loop accepts: it splits, and its type is `name` or `data` */
  predicate Accepted(msg: string)
  {
    SplitMsg(msg).Ok? && (SplitMsg(msg).value.kind == "name" || SplitMsg(msg).value.kind == "data")
  }

  /** Every line is read and none raises exactly when all lines are accepted. */
  lemma {:induction false} HandleAccepts(ms: seq<string>, jobId: string)
    ensures Handle(ms, jobId).error.None? <==> forall i :: 0 <= i < |ms| ==> Accepted(ms[i])
    ensures Handle(ms, jobId).error.None? ==> Handle(ms, jobId).read == |ms|
  {
    if |ms| > 0 {
      var init := ms[..|ms| - 1];
      HandleAccepts(init, jobId);
      HandleStep(ms, jobId);
      AcceptedSnoc(ms, init);
    }
  }

  /** All lines are accepted when the lines before the last are and the last is. */
  lemma AcceptedSnoc(ms: seq<string>, init: seq<string>)
    requires |ms| > 0 && init == ms[..|ms| - 1]
    ensures (forall i :: 0 <= i < |ms| ==> Accepted(ms[i])) <==>
      (forall i :: 0 <= i < |init| ==> Accepted(init[i])) && Accepted(ms[|ms| - 1])
  {
    assert forall i :: 0 <= i < |init| ==> init[i] == ms[i];
  }

  /** After an exception the last line read is the first that is not accepted. */
  lemma {:induction false} HandleRejects(ms: seq<string>, jobId: string)
    ensures Handle(ms, jobId).error.Some? ==>
      (var n := Handle(ms, jobId).read;
       0 < n <= |ms| && !Accepted(ms[n - 1]) && forall i :: 0 <= i < n - 1 ==> Accepted(ms[i]))
  {
    if |ms| > 0 {
      var init := ms[..|ms| - 1];
      HandleRejects(init, jobId);
      HandleAccepts(init, jobId);
      HandleStep(ms, jobId);
      assert forall i :: 0 <= i < |init| ==> init[i] == ms[i];
    }
  }

  /** One more line: it is read unless an earlier line raised, and raises unless accepted. */
  lemma HandleStep(ms: seq<string>, jobId: string)
    requires |ms| > 0
    ensures var o := Handle(ms[..|ms| - 1], jobId);
      && (Handle(ms, jobId).error.None? <==> o.error.None? && Accepted(ms[|ms| - 1]))
      && Handle(ms, jobId).read == if o.error.None? then o.read + 1 else o.read
  {
    var o := Handle(ms[..|ms| - 1], jobId);
    if o.error.None? {
      ReceiveReads(o, ms[|ms| - 1], jobId);
    }
  }

  /** A line is read whatever it holds, and it raises exactly when it is not accepted. */
  lemma ReceiveReads(o: Outcome, msg: string, jobId: string)
    requires o.error.None?
    ensures Receive(o, msg, jobId).read == o.read + 1
    ensures Receive(o, msg, jobId).error.None? <==> Accepted(msg)
  {
  }

  /**
   * Without an exception `handle_inputs` reads exactly two lines per input directory, and it never
   * reads more.
   */
  lemma SessionReads(inputs: seq<string>, jobId: string, stdin: seq<string>)
    ensures Session(inputs, jobId, stdin).read <= 2 * |inputs|
    ensures Session(inputs, jobId, stdin).error.None? ==> Session(inputs, jobId, stdin).read == 2 * |inputs|
  {
    var n := 2 * |inputs|;
    if |stdin| < n {
      HandleAccepts(stdin, jobId);
      HandleRejects(stdin, jobId);
    } else {
      HandleAccepts(stdin[..n], jobId);
      HandleRejects(stdin[..n], jobId);
    }
  }

  /** A line among `ms` split into this type, directory and content */
  ghost predicate Sent(ms: seq<string>, kind: string, d: string, c: string)
  {
    exists i :: 0 <= i < |ms| && SplitMsg(ms[i]) == Ok(Message(kind, d, c))
  }

  /** A line of this type for `d` is among `ms`. */
  ghost predicate Arrived(ms: seq<string>, kind: string, d: string)
  {
    exists c :: Sent(ms, kind, d, c)
  }

  lemma SentSnoc(ms: seq<string>, x: string, kind: string, d: string, c: string)
    ensures Sent(ms + [x], kind, d, c) <==> Sent(ms, kind, d, c) || SplitMsg(x) == Ok(Message(kind, d, c))
  {
    var ms' := ms + [x];
    if Sent(ms, kind, d, c) {
      var i :| 0 <= i < |ms| && SplitMsg(ms[i]) == Ok(Message(kind, d, c));
      assert ms'[i] == ms[i];
    }
    if SplitMsg(x) == Ok(Message(kind, d, c)) {
      assert ms'[|ms|] == x;
    }
    if Sent(ms', kind, d, c) {
      var i :| 0 <= i < |ms'| && SplitMsg(ms'[i]) == Ok(Message(kind, d, c));
      if i < |ms| {
        assert ms[i] == ms'[i];
      }
    }
  }

  /** Every content recorded came in a line of its type for its directory. */
  lemma {:induction false} RecordedSent(ms: seq<string>, jobId: string)
    requires Handle(ms, jobId).error.None?
    ensures forall d, k :: d in Handle(ms, jobId).received && k in Handle(ms, jobId).received[d] ==>
      Sent(ms, k, d, Handle(ms, jobId).received[d][k])
  {
    if |ms| > 0 {
      var init := ms[..|ms| - 1];
      var x := ms[|ms| - 1];
      assert ms == init + [x];
      RecordedSent(init, jobId);
      var rec0 := Handle(init, jobId).received;
      var rec := Handle(ms, jobId).received;
      var m := SplitMsg(x).value;
      forall d, k | d in rec && k in rec[d] ensures Sent(ms, k, d, rec[d][k]) {
        SentSnoc(init, x, k, d, rec[d][k]);
        if d != m.dir || k != m.kind {
          assert d in rec0 && k in rec0[d] && rec[d][k] == rec0[d][k];
        }
      }
    }
  }

  /** A directory has an entry of a type exactly when a line of that type for it came. */
  lemma {:induction false} RecordedArrived(ms: seq<string>, jobId: string, kind: string, d: string)
    requires Handle(ms, jobId).error.None?
    ensures (d in Handle(ms, jobId).received && kind in Handle(ms, jobId).received[d]) <==> Arrived(ms, kind, d)
  {
    if |ms| > 0 {
      var init := ms[..|ms| - 1];
      var x := ms[|ms| - 1];
      assert ms == init + [x];
      RecordedArrived(init, jobId, kind, d);
      var m := SplitMsg(x).value;
      if Arrived(ms, kind, d) {
        var c :| Sent(ms, kind, d, c);
        SentSnoc(init, x, kind, d, c);
      }
      if Arrived(init, kind, d) {
        var c :| Sent(init, kind, d, c);
        SentSnoc(init, x, kind, d, c);
      }
      if m.kind == kind && m.dir == d {
        SentSnoc(init, x, kind, d, m.content);
      }
    }
  }

  /** Some file was written into `d`. */
  predicate WrittenTo(writes: seq<Write>, d: string)
  {
    exists w :: w in writes && w.dir == d
  }

  /** A file was written into a directory exactly when its name and data are both recorded. */
  lemma {:induction false} WrittenReady(ms: seq<string>, jobId: string, d: string)
    requires Handle(ms, jobId).error.None?
    ensures WrittenTo(Handle(ms, jobId).writes, d) <==> Ready(Handle(ms, jobId).received, d)
  {
    if |ms| > 0 {
      var init := ms[..|ms| - 1];
      var x := ms[|ms| - 1];
      WrittenReady(init, jobId, d);
      var o0 := Handle(init, jobId);
      var o := Handle(ms, jobId);
      var m := SplitMsg(x).value;
      if WrittenTo(o.writes, d) {
        var w :| w in o.writes && w.dir == d;
        if w !in o0.writes {
          assert w == FileFor(o.received, m.dir, jobId);
        }
      }
      if Ready(o.received, d) && d == m.dir {
        assert FileFor(o.received, m.dir, jobId) in o.writes;
      }
    }
  }

  /** The file `w` was named after a name line for its directory and holds a data line's content. */
  ghost predicate Sourced(ms: seq<string>, jobId: string, w: Write)
  {
    exists nm, data :: Sent(ms, "name", w.dir, nm) && Sent(ms, "data", w.dir, data)
                       && w.file == jobId + Extension(nm) && w.data == data
  }

  lemma {:induction false} WritesSourced(ms: seq<string>, jobId: string)
    requires Handle(ms, jobId).error.None?
    ensures forall w :: w in Handle(ms, jobId).writes ==> Sourced(ms, jobId, w)
  {
    if |ms| > 0 {
      var init := ms[..|ms| - 1];
      var x := ms[|ms| - 1];
      assert ms == init + [x];
      WritesSourced(init, jobId);
      RecordedSent(ms, jobId);
      var o0 := Handle(init, jobId);
      var o := Handle(ms, jobId);
      forall w | w in o.writes ensures Sourced(ms, jobId, w) {
        if w in o0.writes {
          var nm, data :| Sent(init, "name", w.dir, nm) && Sent(init, "data", w.dir, data)
                          && w.file == jobId + Extension(nm) && w.data == data;
          SentSnoc(init, x, "name", w.dir, nm);
          SentSnoc(init, x, "data", w.dir, data);
        } else {
          var m := SplitMsg(x).value;
          assert w == FileFor(o.received, m.dir, jobId);
          assert Sent(ms, "name", w.dir, o.received[m.dir]["name"]);
          assert Sent(ms, "data", w.dir, o.received[m.dir]["data"]);
        }
      }
    }
  }

  /**
   * When every line is accepted, a file is written into a directory exactly when a name line and
   * a data line for it have both come, and every file written is named `job_id` plus the extension
   * of a name sent for its directory and holds the content of a data line for it.
   */
  lemma Pairing(ms: seq<string>, jobId: string, d: string)
    requires Handle(ms, jobId).error.None?
    ensures WrittenTo(Handle(ms, jobId).writes, d) <==> Arrived(ms, "name", d) && Arrived(ms, "data", d)
    ensures forall w :: w in Handle(ms, jobId).writes ==> Sourced(ms, jobId, w)
  {
    WrittenReady(ms, jobId, d);
    RecordedArrived(ms, jobId, "name", d);
    RecordedArrived(ms, jobId, "data", d);
    WritesSourced(ms, jobId);
  }
}
