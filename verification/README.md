# pmjq tools, transition DSL and file front end — a Dafny model

pmjq runs a shell command on the files that appear in watched directories, through a Go
daemon. Around the daemon, a set of Python tools builds and describes dataflows:

- **pmjqtools/tools.py** and **pmjqtools/templates.py**. They read a list of *invocations* (input
  directories, a command, output directories, a pattern). From that list they write
  `setup.sh`, `launch.sh` and `cleanup.sh`:
  - one Unix group per directory;
  - one user per invocation;
  - the `mkdir`/`chmod`/`chown` lines that let each user read its inputs and write its outputs.

  `pmjq_viz` reads `setup.sh` back and draws the dataflow as a Petri net in dot.
- **pmjqtools/dsl.py**. Dataflows written as Python dictionaries called *transitions*:
  - `normalize` expands the `stdin`/`stdout`/`error` shorthands, defaults `id` and resolves
    paths against a root;
  - `pmjq_command` prints the pmjq command line of a transition;
  - `transitions2dot` draws the transitions as a dot graph.
- **pydsl.py**. An earlier, stand-alone version of `normalize` and `pmjq_command`.
- **pmjqtools/pmjq_sff.py**. The back end of a web front end:
  - `find_leaves` finds the input, output and log places of a dataflow;
  - log filters select daemon messages;
  - `handle_inputs` pairs the `name:` and `data:` messages of each input directory into one
    file to write.

## Modules

| Module | Models |
|---|---|
| `Wrappers` | `Option` and `Result` |
| `Strings` | Python `str` operations: `split`, `join`, `startswith`, `in`, slicing, `str(int)` and `\S` |
| `Sorting` | Python's `sorted` on strings, both on lists and on sets |
| `Paths` | the parts of `os.path` the tools use: `isabs`, `join`, `dirname`, `splitext` |
| `Templates` | the script templates |
| `Tools` | the invocation side of tools.py: names, groups, users, the setup/launch/cleanup text, `read_user_input` |
| `ScriptLines` | the line-by-line shape of the generated `setup.sh` and `cleanup.sh` |
| `Viz` | the regular-expression readers and `pmjq_viz` |
| `RoundTrip` | the theorem that `pmjq_viz` applied to `setup.sh` draws the net that `setup.sh` was made from |
| `Transitions` | a transition as a mutable dictionary: class `TransitionDict` over a `map` |
| `Dsl` | dsl.py |
| `PyDsl` | pydsl.py |
| `Sff` | pmjq_sff.py |

Several parts of the tools are nondeterministic or external. The model handles them as follows:

- **Set iteration order.** The Python code iterates sets and dicts in hash order.
  - `Tools.Dir2Group` is a method that takes the invocations in any order. Its contract holds
    for every order.
  - The pure functions assume what makes the result order-free: no directory is read by two
    invocations (`ReadsOnce`), and the names are distinct (`DistinctNames`).
  - `launch` sorts by command, so ties are given as an `order` parameter (any enumeration
    sorted by command).
- **MD5 digest.** The hex digest is a parameter `digest`. The model takes its first three
  characters, as the code does.
- **Shell unquoting and path normalisation.** `smart_unquote` (a shell `echo`) and
  `os.path.normpath` are parameters `unquote` and `normpath`.
- **Standard input.** `read_user_input` and `handle_inputs` read a sequence of lines. When the
  lines run out, the result is `EndOfInput` (Python's `EOFError`).

## Model

| member | source | states |
|---|---|---|
| `Strings.FirstToken` | pmjqtools/tools.py:107 | the short name is a space-free prefix of the command, and it ends at the first space |
| `Strings.Take` | pmjqtools/tools.py:114 | `s[:3]` has length min(3, len s) and is a prefix of `s` |
| `Strings.Split` | pmjqtools/tools.py:124 | `split(sep)` gives at least one piece, and no piece holds the separator |
| `Strings.SplitJoin` | pmjqtools/tools.py:312 | splitting a `,`-joined list of separator-free names gives the list back |
| `Strings.JoinSplit` | pmjqtools/pmjq_sff.py:254 | joining the pieces of a split with the separator gives the text back, which is how the third field of a message keeps its colons |
| `Strings.ContainsAt` | pmjqtools/pmjq_sff.py:153 | `pattern in log` holds exactly when the pattern occurs at some index of the line |
| `Strings.NatToString` | pmjqtools/tools.py:156 | `str(j)` is a non-empty string of decimal digits that starts with `0` only for 0 |
| `Strings.NatToStringValue` | pmjqtools/tools.py:156 | reading back the digits of `str(j)` gives `j` |
| `Strings.NatToStringInjective` | pmjqtools/tools.py:156 | different positions give different suffixes |
| `Strings.RunEnd` | pmjqtools/tools.py:319 | the greedy `\S*` stops at the first white-space character, or at the end of the line |
| `Sorting.SortSeq` | pmjqtools/tools.py:182-183 | `sorted(list)` is sorted and a permutation of its argument |
| `Sorting.SortSet` | pmjqtools/tools.py:217 | `sorted(set)` is sorted and holds each element of the set once |
| `Sorting.SortedUnique` | pmjqtools/tools.py:217 | two sorted lists with the same elements are equal, so `sorted` is determined by its argument |
| `Sorting.SortSeqOfDistinct` | pmjqtools/tools.py:182-183 | sorting a list without repetitions equals sorting its set |
| `Paths.RFind` | pmjqtools/dsl.py:248 | finds the last `/`, or -1 when there is none |
| `Paths.Dirname` | pmjqtools/dsl.py:248 | `os.path.dirname` is the POSIX rule (`Paths.DirnameRule`): a prefix of the path, empty exactly when the path has no slash, followed only by a run of slashes and then a name without slashes, ending in a slash only when it is all slashes (and then no slash follows), otherwise followed by a slash |
| `Paths.DirnameUnique` | pmjqtools/dsl.py:248 | only one string meets the `dirname` rule, so the rule determines `Dirname` |
| `Paths.DirnameOfJoin` | pmjqtools/pmjq_sff.py:265 | the directory of `join(d, f)` is `d` for a file name `f` and a directory without a trailing slash |
| `Paths.JoinRoot` | pmjqtools/dsl.py:168-175 | joining onto the empty root keeps a path, and joining onto an absolute root gives an absolute path |
| `Paths.Extension` | pmjqtools/pmjq_sff.py:259-260 | `splitext(p)[-1]` is the POSIX rule (`Paths.ExtensionRule`): when nonempty, a suffix of `p` made of a dot and then no dot or slash, after a file name holding a character other than a dot; when empty, every dot of the file name follows only dots |
| `Paths.ExtensionUnique` | pmjqtools/pmjq_sff.py:259-260 | only one string meets the `splitext` rule, so the rule determines `Extension` |
| `Paths.NoExtension` | pmjqtools/pmjq_sff.py:259-260 | a file name without a dot after a non-dot character (no dot, or only leading dots such as `.bashrc`) has no extension |
| `Paths.ExtensionOf` | pmjqtools/pmjq_sff.py:259-260 | the extension of `stem.e` is `.e` when `e` has no dot or slash and the stem is not only dots |
| `Templates.ShebangOneLine` | pmjqtools/templates.py:4 | the shebang is one line |
| `Templates.SetupScriptLines` | pmjqtools/templates.py:4-11 | the lines of the setup template are the shebang, the groupadd lines, a blank line, the usermod line, a blank line, then the useradd and mkdir lines |
| `Templates.CleanupScriptLines` | pmjqtools/templates.py:13-19 | the lines of the cleanup template are the shebang, the groupdel lines, a blank line, the userdel lines, a blank line and the rm lines |
| `Templates.MkdirBlockLines` | pmjqtools/templates.py:21-24 | one directory block is exactly the `mkdir`, `chmod 510` and `chown user:group` lines |
| `Tools.InvocationName` | pmjqtools/tools.py:105-114 | the name of an invocation starts with the first word of its command |
| `Tools.NameWhenTokenUnique` | pmjqtools/tools.py:107-109 | when fewer than two commands start with the short name, the name is the short name |
| `Tools.NameWhenTokenShared` | pmjqtools/tools.py:110-114 | otherwise the name is the short name, `_`, and three characters of the digest |
| `Tools.NamePrefixCounting` | pmjqtools/tools.py:108 | the count is by prefix: `cat` gets a digest suffix next to `cat2 -v`, and `cat2` does not |
| `Tools.FingerprintIgnoresOrder` | pmjqtools/tools.py:111-113 | the digest input sorts the directories, so their order does not change the name |
| `Tools.DirsOf` | pmjqtools/tools.py:147-148 | every input and output directory of an invocation belongs to the directory set |
| `Tools.Reader` | pmjqtools/tools.py:210 | the invocation found for an input directory reads that directory |
| `Tools.LastIndex` | pmjqtools/tools.py:154-156 | the last position of a directory in an input list, the one whose group assignment survives |
| `Tools.DirGroups` | pmjqtools/tools.py:147-159 | the directory-to-group map covers exactly the directories, and every group starts with `pg_` |
| `Tools.Dir2Group` | pmjqtools/tools.py:133-159 | for any iteration order: the keys are the directories, an unread directory `d` gets `pg_d`, a read directory gets the group of one of its readers, and with one reader per directory the map is `DirGroups` |
| `Tools.AssignInputGroups` | pmjqtools/tools.py:153-158 | one invocation's pass adds its inputs, gives each the group for its last position, and leaves the other entries alone |
| `Tools.ReaderGroupWins` | pmjqtools/tools.py:151-158 | a directory that is both written and read is owned by its reader's group, not `pg_d` |
| `Tools.InputGroupAtPosition` | pmjqtools/tools.py:153-156 | a multi-input invocation's j-th input gets group `pg_<name>_<j>` |
| `Tools.GroupsOf` | pmjqtools/tools.py:175 | the groups of a directory list, one per directory, in order |
| `Tools.GroupsOfExact` | pmjqtools/tools.py:175 | a group is listed exactly when it is the group of a listed directory |
| `Tools.UserNameInjective` | pmjqtools/tools.py:176-177 | distinct invocations get distinct users when the names are distinct |
| `Tools.User2Groups` | pmjqtools/tools.py:162-177 | there is one user `pu_<name>` per invocation |
| `Tools.UserGroupsExact` | pmjqtools/tools.py:172-177 | a user's groups are those of its input and output directories, one per directory, with its first input's group first |
| `Tools.UserGroupsAt` | pmjqtools/tools.py:174-177 | each invocation's user maps to its own group list |
| `Tools.UserGroupsNonEmpty` | pmjqtools/tools.py:196-199 | every user has a primary group, so `u2g[user][0]` is defined |
| `Tools.SortPrefixed` | pmjqtools/tools.py:182-183 | sorting the `groupadd ` lines equals prefixing the sorted groups |
| `Tools.UserAddLines` | pmjqtools/tools.py:196-201 | one useradd line per user, in the given order |
| `Tools.MkdirBlocks` | pmjqtools/tools.py:204-217 | one mkdir block per directory, with its owner and group |
| `Tools.QuoteCommand` | pmjqtools/tools.py:233-238 | a command with a space is written between double quotes |
| `Tools.QuoteRoundTrip` | pmjqtools/tools.py:233-238 | a command with a space and no `"` or backslash reaches pmjq unchanged, as a single shell word |
| `Tools.QuotePlain` | pmjqtools/tools.py:233-237 | without `$` or backquotes, the command is only wrapped in quotes |
| `Tools.QuoteKeepsDoubleQuote` | pmjqtools/tools.py:236 | a command holding a `"` does not come back as one word (see Findings) |
| `Tools.QuoteCommandEscaped` | pmjqtools/tools.py:233-238 | the corrected quoting still wraps a command with a space in double quotes |
| `Tools.QuoteEscapedRoundTrip` | pmjqtools/tools.py:236-237 | with `"` escaped, every command with a space and no backslash comes back unchanged |
| `Tools.LaunchLines` | pmjqtools/tools.py:240-253 | one pmjq line per invocation, in command order |
| `Tools.ByCommandMembers` | pmjqtools/tools.py:252-253 | the command-sorted order lists each invocation exactly once |
| `Tools.LaunchScriptLines` | pmjqtools/tools.py:251-253 | launch.sh is the shebang, then one line per invocation, then the final newline |
| `Tools.LaunchLinesSingle` | pmjqtools/tools.py:240-250 | launch.sh has one line per invocation whenever no pmjq line holds a newline |
| `Tools.ReadOne` | pmjqtools/tools.py:121-129 | reading one invocation consumes at least one answer and stays within the answers |
| `Tools.DirListSorted` | pmjqtools/tools.py:124 | the directory answer becomes a non-empty sorted permutation of its space-separated words |
| `Tools.ReadUserInput` | pmjqtools/tools.py:117-130 | the loop's result is the set of invocations read up to the empty command, or `EndOfInput` |
| `Tools.GatherStep` | pmjqtools/tools.py:119-129 | adding one invocation and reading on gives the same set as reading from the earlier position |
| `Tools.ReadInvocationsWellFormed` | pmjqtools/tools.py:121-129 | every invocation read has a non-empty command and sorted, non-empty input and output lists |
| `ScriptLines.SetupText` | pmjqtools/tools.py:220-225 | setup.sh splits into the expected line sequence when names are single words |
| `ScriptLines.CleanupText` | pmjqtools/tools.py:256-266 | cleanup.sh splits into the shebang, the `groupdel`, `userdel` and `rm -r` sections and the blank lines between them |
| `ScriptLines.GroupAddText` | pmjqtools/tools.py:180-183 | the groupadd section is one `groupadd` line per group |
| `ScriptLines.UserModOneLine` | pmjqtools/tools.py:186-189 | the usermod part is one line |
| `ScriptLines.UserModGroups` | pmjqtools/tools.py:186-189 | the usermod line adds `whoami` to the groups of exactly the directories, one per directory, sorted |
| `ScriptLines.GroupListMembers` | pmjqtools/tools.py:188 | `dir2group(...).values()` holds one group per directory, and exactly the directories' groups |
| `ScriptLines.UserAddText` | pmjqtools/tools.py:192-201 | the useradd section is one line per user, followed by an empty line |
| `ScriptLines.MkdirText` | pmjqtools/tools.py:204-217 | the mkdir section is four lines per directory |
| `ScriptLines.MkdirEach` | pmjqtools/tools.py:214-217 | splitting each block gives the mkdir, chmod and chown lines and an empty piece |
| `ScriptLines.GroupPlain` | pmjqtools/tools.py:151-158 | every group is a `pg_`-led single word |
| `Viz.LastAt` | pmjqtools/tools.py:319 | the last occurrence of a text in a range, as the greedy `(.*)` backtracks to it |
| `Viz.MatchMkdir` | pmjqtools/tools.py:283 | `^mkdir (.*)$` matches exactly the lines starting `mkdir `, and the group is the rest |
| `Viz.MatchUserAdd` | pmjqtools/tools.py:291 | `^useradd .* pu_(.*)$` gives the text after the last ` pu_` |
| `Viz.MatchOwnerChown` | pmjqtools/tools.py:299 | `^chown pu_(.*):pg_\S* (.*)$` splits the line into user, group and directory |
| `Viz.MatchUserGroups` | pmjqtools/tools.py:308 | `^useradd -M -N -g (.*) -G (.*) pu_(.*)$` splits the line into its three groups |
| `Viz.MatchChown` | pmjqtools/tools.py:319 | `^chown (.*):pg_(\S*) (.*)$` splits the line, and the group has no white space |
| `Viz.Collect` | pmjqtools/tools.py:285 | the comprehension keeps at most one result per line |
| `Viz.Nodes` | pmjqtools/tools.py:343-345 | one quoted node per place or transition |
| `Viz.DropEach` | pmjqtools/tools.py:311-312 | `x[3:]` applied to each group |
| `Viz.DictOf` | pmjqtools/tools.py:311-313 | a dict comprehension has one key per pair, and the last pair for a key wins |
| `Viz.GroupUsers` | pmjqtools/tools.py:315-316 | the inverted map sends each group to exactly the users in it |
| `Viz.DirUsers` | pmjqtools/tools.py:323-326 | each chowned directory maps to the users of its group except its owner and `whoami`, and the lookup fails exactly for an unknown group |
| `Viz.EdgesFrom` | pmjqtools/tools.py:328-330 | one `"user"->"dir";` edge per user |
| `RoundTrip.InertMatchesNothing` | pmjqtools/tools.py:280-330 | the blank, shebang, groupadd and usermod lines match none of the regular expressions |
| `RoundTrip.ChownRead` | pmjqtools/tools.py:319 | a generated chown line reads back as its owner, group and directory |
| `RoundTrip.OwnerChownRead` | pmjqtools/tools.py:299 | a generated `chown pu_` line reads back as its user and directory |
| `RoundTrip.UserAddRead` | pmjqtools/tools.py:291 | a generated useradd line reads back as its user name |
| `RoundTrip.UserGroupsRead` | pmjqtools/tools.py:308 | a generated useradd line reads back as its primary group, other groups and user |
| `RoundTrip.OtherGroupsRead` | pmjqtools/tools.py:312 | the secondary groups split back into the list, or `[""]` when there are none |
| `RoundTrip.PlacesOfSetup` | pmjqtools/tools.py:280-285 | the places read from setup.sh are its directories, in sorted order |
| `RoundTrip.TransitionsOfSetup` | pmjqtools/tools.py:288-293 | the transitions read from setup.sh are the invocation names, sorted |
| `RoundTrip.PlaceTransEdgesOfSetup` | pmjqtools/tools.py:296-302 | the place-to-transition edges are the edges from each read directory to its reader |
| `RoundTrip.UserGroupsOfSetup` | pmjqtools/tools.py:311-313 | the parsed user-to-group pairs are those setup.sh was written from |
| `RoundTrip.ParsedMap` | pmjqtools/tools.py:310-313 | the parsed map sends each invocation name to its groups without the `pg_` prefix |
| `RoundTrip.GroupMembers` | pmjqtools/tools.py:315-316 | each directory group's members are the invocations that read or write the directory |
| `RoundTrip.WritersRead` | pmjqtools/tools.py:321-326 | dropping the owner and `whoami` leaves exactly the writers of the directory |
| `RoundTrip.ChownsOfSetup` | pmjqtools/tools.py:318-326 | the chown triples read back are those of the mkdir section |
| `RoundTrip.DirUsersOfSetup` | pmjqtools/tools.py:323-326 | the directory-to-users map read back is the writer map |
| `RoundTrip.TransPlaceEdgesOfSetup` | pmjqtools/tools.py:305-330 | the transition-to-place edges read from setup.sh are the edges from each writer to the directories it writes |
| `RoundTrip.VizOfSetup` | pmjqtools/tools.py:333-347 | pmjq_viz of setup.sh is the dot graph of the places, transitions, read edges and write edges of the invocations |
| `Transitions.ShorthandError` | pmjqtools/dsl.py:150-155 | no assertion fails exactly when stdin/inputs and stdout/outputs are each given once and error/errors not both |
| `Dsl.CheckError` | pmjqtools/dsl.py:150-156 | normalisation passes exactly when the shorthand rules hold and `cmd` is present; a missing `cmd` is reported only after them |
| `Dsl.Normalize` | pmjqtools/dsl.py:148-176 | on a failed assertion the dictionary is unchanged; otherwise its new content is the normal form |
| `Dsl.ExpandShorthands` | pmjqtools/dsl.py:157-167 | the in-place renaming and the `id` default leave the expanded dictionary |
| `Dsl.ExpandOne` | pmjqtools/dsl.py:157-165 | one shorthand replaced by its one-element list |
| `Dsl.ResolveListKeys` | pmjqtools/dsl.py:169-172 | the loop over list keys resolves each present list against the root |
| `Dsl.ResolvePathKeys` | pmjqtools/dsl.py:173-175 | the loop over `log` and `stderr` resolves each present path |
| `Dsl.ResolveItems` | pmjqtools/dsl.py:170-172 | the item loop replaces each relative entry by its joined path, in place |
| `Dsl.ExpandFacts` | pmjqtools/dsl.py:157-165 | the shorthand disappears, the long key holds the given list, and every other key is unchanged |
| `Dsl.NamedShape` | pmjqtools/dsl.py:157-167 | after expansion there are no shorthands, `inputs` and `outputs` hold the given lists, and `id` defaults to `cmd` |
| `Dsl.NormalizedLists` | pmjqtools/dsl.py:157-172 | the normal form's lists are the given lists resolved against the root |
| `Dsl.NormalizedPath` | pmjqtools/dsl.py:173-175 | `log` and `stderr` are present as before and resolved against the root |
| `Dsl.NormalizedOthers` | pmjqtools/dsl.py:148-176 | keys that normalisation does not touch keep their values |
| `Dsl.NormalizedNormal` | pmjqtools/dsl.py:148-176 | the normal form has no shorthands, has `inputs`, `outputs`, `id` and `cmd`, and passes the checks |
| `Dsl.NormalizedAbsolute` | pmjqtools/dsl.py:168-175 | with an absolute root every path in the normal form is absolute |
| `Dsl.NormalFixed` | pmjqtools/dsl.py:148-176 | a normal dictionary with absolute paths is left as it is |
| `Dsl.NormalizeIdempotent` | pmjqtools/dsl.py:148-176 | normalising twice, under any second root, gives the first normal form |
| `Dsl.HeadJoin` | pmjqtools/dsl.py:191-198 | the head of the command is its fields joined by single spaces, plus a space |
| `Dsl.CommandFields` | pmjqtools/dsl.py:191-208 | the command line is its fields (inputs, invariant, cmd, outputs, stderr, errors, redirect and log) joined by single spaces |
| `Dsl.HeadQuitFlag` | pmjqtools/dsl.py:192-193 | any line that extends the head starts with `--quit-when-empty` exactly when `quit_empty` is set and truthy |
| `Dsl.QuitFlag` | pmjqtools/dsl.py:192-193 | the command starts with the quit flag exactly when `quit_empty` is truthy |
| `Dsl.PmjqCommand` | pmjqtools/dsl.py:188-208 | fails exactly when normalisation does, leaving the dictionary alone; otherwise normalises it in place and returns its command line |
| `Dsl.EdgeLines` | pmjqtools/dsl.py:223-234 | an edge block (the template filled in, missing keywords empty) is an empty line, the first node, `->`, the second node, the arrow attributes and an empty piece |
| `Dsl.Edge` | pmjqtools/dsl.py:247-285 | an input edge points into the transition node, and every other edge starts from it |
| `Dsl.EdgesOf` | pmjqtools/dsl.py:247-276 | one edge per listed path |
| `Dsl.QuotedDirs` | pmjqtools/dsl.py:270 | one quoted error node per error path |
| `Dsl.DrawEach` | pmjqtools/dsl.py:247-260 | the loop appends one block per path, in order |
| `Dsl.DrawErrors` | pmjqtools/dsl.py:261-270 | the error loop appends one block and one quoted node per error path |
| `Dsl.Trans2Dot` | pmjqtools/dsl.py:237-286 | the dot text is the blocks of the transition's edges, and the error list names its error directories |
| `Dsl.EdgesShape` | pmjqtools/dsl.py:247-285 | there is one edge per input, output, error and side effect, plus the log edge when asked for, with the inputs first and pointing into the transition |
| `Dsl.ErrorEdgesPlace` | pmjqtools/dsl.py:261-270 | the error edges come right after the input and output edges |
| `Dsl.ErrorNodesDrawn` | pmjqtools/dsl.py:262-270 | each returned error node is the quoted hexagon node of the matching error edge |
| `Dsl.FirstError` | pmjqtools/dsl.py:301-302 | no error exactly when every transition passes the checks |
| `Dsl.FirstErrorAt` | pmjqtools/dsl.py:301-302 | the reported error is that of the first failing transition |
| `Dsl.NormalForms` | pmjqtools/dsl.py:302 | one normal form per transition |
| `Dsl.DrawingSnoc` | pmjqtools/dsl.py:301-304 | one more transition adds its blocks and error nodes at the end |
| `Dsl.PictureFails` | pmjqtools/dsl.py:301-302 | the drawing fails with the first failing transition's error |
| `Dsl.AllErrorsEmpty` | pmjqtools/dsl.py:300-305 | the error list is empty exactly when no normal form has an error path |
| `Dsl.PictureCluster` | pmjqtools/dsl.py:296-310 | the drawing is the header, each transition's blocks, the error cluster when grouping is asked for and some transition names an error directory, then `}` |
| `Dsl.NormalizeNext` | pmjqtools/dsl.py:302 | the loop normalises the current transition in place, or stops at its error |
| `Dsl.DrawNext` | pmjqtools/dsl.py:301-304 | one iteration normalises the transition, then draws it or stops at its error |
| `Dsl.DrawAll` | pmjqtools/dsl.py:300-304 | the loop stops at the first error, and otherwise draws every normal form; every dictionary it passed is normalised in place |
| `Dsl.Transitions2Dot` | pmjqtools/dsl.py:289-310 | the result is the drawing of the transitions as given, and every dictionary passed is left in normal form, also when the same one is listed twice |
| `PyDsl.PyNormalize` | pydsl.py:1-15 | on a failed assertion the dictionary is unchanged; otherwise the shorthands are copied into lists |
| `PyDsl.PyNormalizedShape` | pydsl.py:9-14 | `inputs` and `outputs` are present and `errors` appears when `error` was given; the shorthand keys stay; other keys keep their values |
| `PyDsl.PyNormalizeAgain` | pydsl.py:3-14 | a second normalisation passes only when no shorthand was used, and then changes nothing |
| `PyDsl.ShorthandedTwice` | pydsl.py:3-14 | a transition written with `stdin` passes once, then fails the first assertion (see Findings) |
| `PyDsl.Tail` | pydsl.py:32-38 | without `stderr`, `errors` or `log` the end of the command is empty |
| `PyDsl.PyQuitFlag` | pydsl.py:21-23 | the command starts with the quit flag exactly when `quit_empty` is truthy |
| `PyDsl.StderrGlued` | pydsl.py:30-33 | `--stderr=` follows the last output with no space (see Findings) |
| `PyDsl.MissingSpace` | pydsl.py:30-38 | the dsl.py command line is this one with a single space put back after the outputs |
| `PyDsl.LaterTail` | pmjqtools/dsl.py:199-208 | the dsl.py command line ends with the outputs, a space, and the same tail |
| `PyDsl.BuildLine` | pydsl.py:21-38 | the successive appends build the command line, and a missing `cmd` is a `KeyError` |
| `PyDsl.TailAppended` | pydsl.py:32-38 | the three conditional appends add exactly the tail |
| `PyDsl.PyPmjqCommand` | pydsl.py:18-39 | a failed assertion leaves the dictionary alone; otherwise the dictionary is normalised in place and the command built, or `KeyError` for a missing `cmd` |
| `Sff.ConcatHas` | pmjqtools/pmjq_sff.py:289-290 | a path is in the concatenated lists exactly when some transition lists it |
| `Sff.LogListHas` | pmjqtools/pmjq_sff.py:291 | a log is listed exactly when some transition has it as `log` |
| `Sff.DirsHas` | pmjqtools/pmjq_sff.py:293-296 | a directory is in the set exactly when it is the normalised directory of a listed path |
| `Sff.FindLeaves` | pmjqtools/pmjq_sff.py:268-298 | no directory is both an input leaf and an output leaf |
| `Sff.LeavesExact` | pmjqtools/pmjq_sff.py:289-298 | an input leaf is read and never written, an output leaf written and never read, and the logs are the normalised `log` paths |
| `Sff.FiltersAccept` | pmjqtools/pmjq_sff.py:151-210 | each filter accepts exactly the lines containing its texts; the error filter implies the default one; the empty pattern accepts everything |
| `Sff.SplitMsgParts` | pmjqtools/pmjq_sff.py:254 | a split message is kind, `:`, directory, `:`, content, with no colon in the first two |
| `Sff.SplitMsgOf` | pmjqtools/pmjq_sff.py:254 | any such message splits back into its parts, colons in the content included |
| `Sff.Record` | pmjqtools/pmjq_sff.py:251-256 | recording sets one entry of one directory and keeps all others |
| `Sff.HandleInputs` | pmjqtools/pmjq_sff.py:244-265 | the loop's writes, line count and error are those of the session |
| `Sff.HandleStops` | pmjqtools/pmjq_sff.py:253-255 | after the first error, later lines change nothing |
| `Sff.ReceiveReads` | pmjqtools/pmjq_sff.py:252-255 | each line handled is read, and it raises exactly when it does not split into three parts or its type is neither `name` nor `data` |
| `Sff.HandleStep` | pmjqtools/pmjq_sff.py:252-255 | one more line is read only when no earlier line raised, and the handling stays free of exceptions exactly when that line is accepted |
| `Sff.HandleAccepts` | pmjqtools/pmjq_sff.py:252-255 | no error exactly when every line is accepted, and then every line is read |
| `Sff.HandleRejects` | pmjqtools/pmjq_sff.py:252-255 | after an exception, reading stopped at the first rejected line: that line is the last one read and all lines before it were accepted |
| `Sff.SessionReads` | pmjqtools/pmjq_sff.py:252-253 | at most two lines per input directory are read, and exactly that many when nothing fails |
| `Sff.SentSnoc` | pmjqtools/pmjq_sff.py:253-256 | a message was sent by a longer input exactly when it was sent earlier or is the new line |
| `Sff.RecordedSent` | pmjqtools/pmjq_sff.py:254-256 | every recorded entry was sent in some accepted line |
| `Sff.RecordedArrived` | pmjqtools/pmjq_sff.py:256 | an entry is recorded exactly when a line of that kind for that directory was read |
| `Sff.WrittenReady` | pmjqtools/pmjq_sff.py:257-265 | a directory gets a file exactly when both its name and its data are recorded |
| `Sff.WritesSourced` | pmjqtools/pmjq_sff.py:257-265 | each file is named `job_id` plus the extension of a sent name, holds sent data, and goes into that directory |
| `Sff.Pairing` | pmjqtools/pmjq_sff.py:252-265 | after an error-free session, a directory gets a file exactly when it received both a name and a data message |

## Left out

- `pmjq.go`, the daemon itself: not part of this model. The tools only produce its command lines and read its logs.
- The MD5 digest. It is the parameter `digest`, so collisions of the three-character suffix are not modelled.
- The shell behind `smart_unquote` and `os.path.normpath`/`os.path.abspath`. They are parameters (`unquote`, `normpath`, and the root passed to `Dsl.Normalize`).
- File writes and prints: the `setup`, `pmjq_interactive` and `pmjq_viz` entry points, the `viz`, `cmd` and `herd` command-line entry points, and the demo print at the end of pydsl.py. The model stops at the text they would write.
- `run_on_transitions_from_cli`: it evaluates Python code given on the command line.
- `endpoints`, `pmjq_shepherd` and the shepherd templates: they feed the service manager, which is not part of this model.
- pmjq_sff.py threads, inotify, `tail_filter_and_process`, `move_and_print`, `send`, `default_handler` and `main`. These are I/O loops around the modelled parts.
- pmjq_sff.py `error_handler` and `waiting_handler`. They read a file named in a log line and print to standard output. The pmjq daemon in this repository never logs `ERROR Rejected file from` or `INFO Candidates for`, so their inputs are not defined by this repository.
- `Sff.HandleInputs`: does not decode base64 and collapses the temporary file and the rename into one `Write` record, because both are file-system effects.
- The Python value types. A transition value is a string, a string list or a boolean; other types, which Python would reject with a `TypeError`, are outside the model (`Transitions.WellTyped`).
- List aliasing between two transition dictionaries sharing one Python list.
- Universal-newline translation of `\r` by `readlines`.
- `PMJQ_FILTER_TEMPLATE` and `DOT_TEMPLATE` are imported from pmjqtools/templates.py but missing from it. Their text is taken from the expected outputs in pmjqtools/test.py:83-88 and 115-143. `PMJQ_BRANCH_MERGE_TEMPLATE` has no such example and is the parameter `branchMerge`.
- `Tools.User2Groups`, and through it `Tools.UserAdd`, `Tools.Setup`, `Tools.Cleanup`, `ScriptLines.SetupUsers`, `ScriptLines.SetupText` and `RoundTrip.VizOfSetup`: require `DistinctNames`. Python keys a dict by user name, so a repeated name would silently drop a user. With the digest a parameter, the model cannot show the names are distinct. Names clash only in two ways. Two commands with the same first word clash when their digests agree in the first three characters; this includes two invocations with the same fingerprint. A first word also clashes when it equals another's first word plus `_` and three digest characters.
- `Tools.PmjqLine`: keeps the quoting as written (`Tools.QuoteCommand`), since that is the text launch.sh receives. The corrected quoting is proved on its own.
- `RoundTrip.VizOfSetup`: holds under the conditions that make the text parseable:
  - names and directories are single words (`PlainNet`);
  - each directory has at most one reader;
  - names are distinct;
  - no two directories share a group (`GroupsDistinct`).

  Without the last one, the reading is ambiguous: invocations (`a` → `x` → `b`) and (`c` → `y` → `x`) give directory `x` and the input of the invocation named `x` the same group `pg_x`.

## Findings

| source | as written | input that shows it | evidently intended | confidence | as-written member | corrected member |
|---|---|---|---|---|---|---|
| pmjqtools/tools.py:236 | `replace('"', '\"')` replaces a double quote by itself, since `'\"'` is one character in Python | the command `echo "a b"`: launch.sh writes `"echo "a b""`, and the shell ends the word at the inner quote | escape `"` with a backslash like `$` and backquotes | high, not executed | `Tools.QuoteKeepsDoubleQuote` | `Tools.QuoteEscapedRoundTrip` |
| pydsl.py:30-31 | the outputs are joined without a trailing space | `stdout` `/out/` with `stderr` `/log` gives `--output=/out/--stderr=/log ` | a space after the outputs, as dsl.py:199-200 writes | high, not executed | `PyDsl.StderrGlued` | `Dsl.CommandFields` |
| pydsl.py:9-14 | the shorthand keys stay after normalisation, so a second `pmjq_command` on the same dictionary fails its first assertion | `{"stdin": "/in/", "stdout": "/out/", "cmd": "c"}` normalised twice | delete the shorthand, as dsl.py:157-165 does | medium, not executed | `PyDsl.ShorthandedTwice` | `Dsl.NormalizeIdempotent` |
