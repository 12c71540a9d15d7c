/**
 * The text shapes of the generated scripts (pmjqtools/templates.py), and the two launch and
 * visualisation shapes that tools.py imports: the filter line of launch.sh and the dot graph of
 * pmjq_viz, whose exact form the expected outputs of pmjqtools/test.py pin down.
 */
module Templates {
  import opened Strings

  const Shebang := "#!/usr/bin/env sh"

  /** The shebang is one line. */
  lemma ShebangOneLine()
    ensures '\n' !in Shebang
  {
  }

  /** SETUP_TEMPLATE filled in (each template is written here line by line, newline by newline) */
  function SetupScript(groupadd: string, usermod: string, useradd: string, mkdir: string): string
  {
    Shebang + "\n" + (groupadd + "\n" + ("\n" + (usermod + "\n" + ("\n" + (useradd + "\n" + (mkdir + "\n"))))))
  }

  /** CLEANUP_TEMPLATE filled in */
  function CleanupScript(groupdel: string, userdel: string, rm: string): string
  {
    Shebang + "\n" + (groupdel + "\n" + ("\n" + (userdel + "\n" + ("\n" + (rm + "\n")))))
  }

  /** MKDIR_TEMPLATE filled in */
  function MkdirBlock(directory: string, user: string, group: string): string
  {
    "mkdir " + directory + "\n" + ("chmod 510 " + directory + "\n" + ("chown " + user + ":" + group + " " + directory + "\n"))
  }

  /** PMJQ_FILTER_TEMPLATE filled in: one invocation with one input and one output */
  function FilterLine(user: string, input: string, filter: string, output: string): string
  {
    "sudo -u " + user + " pmjq " + input + " " + filter + " " + output
  }

  /** DOT_TEMPLATE filled in: a Petri net with a cluster of places and one of transitions */
  function DotGraph(places: string, transitions: string, placeTransEdges: string, transPlaceEdges: string): string
  {
    "digraph G {\nsubgraph place {\ngraph [shape=circle,color=gray];\nnode [shape=circle];\n"
    + places + "\n}\n\nsubgraph transitions {\nnode [shape=rect];\n" + transitions + "\n}\n\n"
    + placeTransEdges + "\n\n" + transPlaceEdges + "\n}"
  }

  /**
   * The setup script is, line by line: the shebang, the groupadd section, a blank line, the
   * usermod line, a blank line, the useradd section, then the mkdir section and a final newline.
   */
  lemma SetupScriptLines(groupadd: string, usermod: string, useradd: string, mkdir: string)
    requires '\n' !in usermod
    ensures Split(SetupScript(groupadd, usermod, useradd, mkdir), '\n')
         == [Shebang] + (Split(groupadd, '\n') + ([""] + ([usermod] + ([""] + (Split(useradd, '\n')
            + (Split(mkdir, '\n') + [""]))))))
  {
    var r6 := mkdir + "\n";
    var r5 := useradd + "\n" + r6;
    var r4 := "\n" + r5;
    var r3 := usermod + "\n" + r4;
    var r2 := "\n" + r3;
    var r1 := groupadd + "\n" + r2;
    LastLine(mkdir);
    SplitConcat(useradd, r6, '\n');
    BlankLine(r5);
    SplitFirst(usermod, r4, '\n');
    BlankLine(r3);
    SplitConcat(groupadd, r2, '\n');
    ShebangOneLine();
    SplitFirst(Shebang, r1, '\n');
  }

  /** The cleanup script is: the shebang, groupdel section, blank, userdel section, blank, rm section. */
  lemma CleanupScriptLines(groupdel: string, userdel: string, rm: string)
    ensures Split(CleanupScript(groupdel, userdel, rm), '\n')
         == [Shebang] + (Split(groupdel, '\n') + ([""] + (Split(userdel, '\n') + ([""] + (Split(rm, '\n') + [""])))))
  {
    var r5 := rm + "\n";
    var r4 := "\n" + r5;
    var r3 := userdel + "\n" + r4;
    var r2 := "\n" + r3;
    var r1 := groupdel + "\n" + r2;
    LastLine(rm);
    BlankLine(r5);
    SplitConcat(userdel, r4, '\n');
    BlankLine(r3);
    SplitConcat(groupdel, r2, '\n');
    ShebangOneLine();
    SplitFirst(Shebang, r1, '\n');
  }

  /** A text ended by a newline splits into its lines and one empty piece. */
  lemma LastLine(a: string)
    ensures Split(a + "\n", '\n') == Split(a, '\n') + [""]
  {
    var e: string := "";
    assert a + "\n" == a + ['\n'] + e;
    SplitConcat(a, e, '\n');
  }

  /** A newline at the start is an empty line. */
  lemma BlankLine(rest: string)
    ensures Split("\n" + rest, '\n') == [""] + Split(rest, '\n')
  {
    var e: string := "";
    assert "\n" + rest == e + ['\n'] + rest;
    SplitFirst(e, rest, '\n');
  }

  /** A directory block is exactly three lines and a trailing newline. */
  lemma MkdirBlockLines(directory: string, user: string, group: string)
    requires '\n' !in directory && '\n' !in user && '\n' !in group
    ensures Split(MkdirBlock(directory, user, group), '\n')
         == ["mkdir " + directory, "chmod 510 " + directory, "chown " + user + ":" + group + " " + directory, ""]
  {
    var l1 := "mkdir " + directory;
    var l2 := "chmod 510 " + directory;
    var l3 := "chown " + user + ":" + group + " " + directory;
    BlockLiterals();
    assert '\n' !in l1 && '\n' !in l2 && '\n' !in l3;
    var r2 := l3 + "\n";
    var r1 := l2 + "\n" + r2;
    LastLine(l3);
    SplitNoSep(l3, '\n');
    SplitFirst(l2, r2, '\n');
    SplitFirst(l1, r1, '\n');
  }

  lemma BlockLiterals()
    ensures '\n' !in "mkdir " && '\n' !in "chmod 510 " && '\n' !in "chown " && '\n' !in ":" && '\n' !in " "
  {
  }
}
