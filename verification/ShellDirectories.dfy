/** In which directory, and with what, each command of a line is started. */
module ShellDirectories {
  import opened Basics
  import opened Paths
  import opened ShellParse
  import opened ShellGrammar
  import opened ShellRoundTrip
  import opened ShellRun
  import opened ShellLists
  import opened ShellScripts

  // ---------- one change of directory ----------

  /** A relative directory adds its components to the old ones; an absolute one replaces them. */
  lemma JoinPathComponents(cwd: string, dir: string)
    ensures Components(JoinPath(cwd, dir))
            == if IsAbsolute(dir) then Components(dir) else Components(cwd) + Components(dir)
    ensures cwd != "" ==> (IsAbsolute(JoinPath(cwd, dir)) <==> IsAbsolute(cwd) || IsAbsolute(dir))
    ensures cwd != "" ==> JoinPath(cwd, dir) != "" && JoinPath(cwd, dir) != "."
  {
    hide Components;
    NoComponents();
    if IsAbsolute(dir) {
    } else if cwd == "" {
      assert cwd + dir == dir;
    } else if cwd[|cwd| - 1] == '/' {
      var stem := cwd[..|cwd| - 1];
      assert cwd == stem + "/" + "" && cwd + dir == stem + "/" + dir;
      ComponentsConcat(stem, "");
      ComponentsConcat(stem, dir);
    } else {
      ComponentsConcat(cwd, dir);
    }
  }

  // ---------- the changes of directory before a command ----------

  /** The components after some changes of directory: all of them since the last absolute one. */
  ghost function Trail(dirs: seq<string>): seq<string> {
    if dirs == [] then ["."] else
      var last := dirs[|dirs| - 1];
      (if IsAbsolute(last) then [] else Trail(dirs[..|dirs| - 1])) + Components(last)
  }

  ghost predicate SomeAbsolute(dirs: seq<string>) {
    exists d :: d in dirs && IsAbsolute(d)
  }

  /** The executor's own record of the directory. */
  ghost predicate ArrivedAt(cwd: string, dirs: seq<string>) {
    && cwd != "" && (cwd == "." <==> dirs == [])
    && Components(cwd) == Trail(dirs) && (IsAbsolute(cwd) <==> SomeAbsolute(dirs))
  }

  /** The directory a process is started in; none is given if there was no `cd`. */
  ghost predicate StartedAt(cwd: Option<string>, dirs: seq<string>) {
    && (cwd.None? <==> dirs == [])
    && (cwd.Some? ==> Components(cwd.value) == Trail(dirs) && (IsAbsolute(cwd.value) <==> SomeAbsolute(dirs)))
  }

  /** A command of a line, the directories changed to before it, and whether it is behind a pipe. */
  datatype Placed = Placed(cmd: Node, dirs: seq<string>, fed: bool)

  /** The commands of a line in order. A `cd` behind a pipe leaves the pipe to the command after it. */
  ghost function CommandsIn(nodes: seq<Node>, dirs: seq<string>, fed: bool): seq<Placed>
    decreases |nodes|
  {
    if nodes == [] then [] else
      var rest := if |nodes| > 1 then nodes[2..] else [];
      match nodes[0]
      case Chdir(Some(dir)) => CommandsIn(rest, dirs + [dir], fed)
      case Command(_, _, _, _, _, _) =>
        [Placed(nodes[0], dirs, fed)] + CommandsIn(rest, dirs, |nodes| > 1 && nodes[1].Pipe?)
      case _ => []
  }

  /** The i-th process is started with what the command says, in the directory reached, and reads from the pipe. */
  ghost predicate StartedAs(l: Launch, p: Placed, i: nat) {
    && (p.fed ==> i > 0)
    && p.cmd.Command? && l.argv == p.cmd.argv && l.env == p.cmd.env
    && l.stdout == p.cmd.stdout && l.stderr == p.cmd.stderr
    && l.stdin == (if p.fed then FromProcess(i - 1) else if p.cmd.stdin.Some? then FromFile(p.cmd.stdin.value)
                   else InheritIn)
    && StartedAt(l.cwd, p.dirs)
  }

  lemma ArrivedNext(cwd: string, dirs: seq<string>, dir: string)
    requires ArrivedAt(cwd, dirs)
    ensures ArrivedAt(JoinPath(cwd, dir), dirs + [dir])
  {
    JoinPathComponents(cwd, dir);
    hide Components, JoinPath;
    assert (dirs + [dir])[..|dirs|] == dirs;
    assert forall d :: d in dirs + [dir] <==> d in dirs || d == dir;
  }

  lemma StartsAsWritten(m: Machine, dirs: seq<string>)
    requires m.rest != [] && m.rest[0].Command? && MidGroup(m) && ArrivedAt(m.cwd, dirs)
    ensures StartedAs(LaunchOf(m.rest[0], NextSource(m), m.cwd), Placed(m.rest[0], dirs, m.piping), |m.launches|)
  {
  }

  /** The processes from the n-th on are those of the first commands in the list, in order. */
  ghost predicate StartedFrom(launches: seq<Launch>, n: nat, ps: seq<Placed>) {
    && n <= |launches| <= n + |ps|
    && forall i :: n <= i < |launches| ==> StartedAs(launches[i], ps[i - n], i)
  }

  lemma StartedMore(launches: seq<Launch>, n: nat, p: Placed, rest: seq<Placed>)
    requires n < |launches| && StartedAs(launches[n], p, n) && StartedFrom(launches, n + 1, rest)
    ensures StartedFrom(launches, n, [p] + rest)
  {
    hide StartedAs;
  }

  lemma {:induction false} LoopStarts(m: Machine, dirs: seq<string>, exits: Exits)
    requires GoodMachine(m) && MidGroup(m) && WellFormed(m.rest) && ArrivedAt(m.cwd, dirs)
    ensures StartedFrom(Loop(m, exits).1, |m.launches|, CommandsIn(m.rest, dirs, m.piping))
    decreases |m.rest|
  {
    hide WellFormed, GoodMachine, MidGroup, ArrivedAt, StartedAs, LaunchOf, NextSource;
    FirstOperand(m.rest);
    if m.rest[0].Chdir? {
      LoopChdir(m, exits);
      hide Loop;
      if |m.rest| > 1 && m.rest[0].dir.Some? {
        ArrivedNext(m.cwd, dirs, m.rest[0].dir.value);
        LoopStarts(ChdirMachine(m), dirs + [m.rest[0].dir.value], exits);
      }
    } else {
      LoopCommand(m, exits);
      LoopKeepsLaunches(m, exits);
      StartsAsWritten(m, dirs);
      hide Loop;
      var p := Placed(m.rest[0], dirs, m.piping);
      var rest := CommandsIn(if |m.rest| > 1 then m.rest[2..] else [], dirs, |m.rest| > 1 && m.rest[1].Pipe?);
      assert CommandsIn(m.rest, dirs, m.piping) == [p] + rest;
      if |m.rest| > 1 {
        NextMachineParts(m);
        LoopKeepsLaunches(NextMachine(m), exits);
        LoopStarts(NextMachine(m), dirs, exits);
      }
      var l := Loop(m, exits).1;
      assert NextLaunches(m) <= l;
      assert l[|m.launches|] == NextLaunches(m)[|m.launches|];
      StartedMore(l, |m.launches|, p, rest);
    }
  }

  /**
   * The processes of a run are started for the first commands of the line, in order, each with its own words,
   * redirections and environment, and in the directory its `cd`s lead to.
   */
  lemma RunStartsAsWritten(tokens: seq<string>, exits: Exits)
    requires Parse(tokens).Accepted?
    ensures StartedFrom(Loop(Machine(Parse(tokens).nodes, false, [], ".", []), exits).1, 0,
                        CommandsIn(Parse(tokens).nodes, [], false))
  {
    ParsedIsWellFormed(tokens);
    DotComponents();
    hide Parse, Loop, WellFormed, Components;
    LoopStarts(Machine(Parse(tokens).nodes, false, [], ".", []), [], exits);
  }

  // ---------- examples ----------

  lemma BareRuns(b: string, cwd: string, exits: Exits)
    ensures Loop(Machine([NewCommand(b, map[])], false, [], cwd, []), exits)
            == (Status(exits(0)), [Launch([b], InheritIn, InheritOut, InheritErr, map[], ProcCwd(cwd))])
  {
    var empty: seq<nat> := [];
    assert empty + [0] == [0] && PipedStatus([0], exits) == exits(0);
    var l := LaunchOf(NewCommand(b, map[]), InheritIn, cwd);
    assert [] + [l] == [l];
  }

  /** `cd d && b` starts b in `./d`, or in d if that is absolute. */
  lemma CdThenRunExample(d: string, b: string, exits: Exits)
    requires d != "&&" && IsWord(b)
    ensures var nodes := [Chdir(Some(d)), And, NewCommand(b, map[])];
            && Parse(["cd", d, "&&", b]) == Accepted(nodes)
            && Executed(nodes, exits)
               == (Status(exits(0)), [Launch([b], InheritIn, InheritOut, InheritErr, map[],
                                             Some(if IsAbsolute(d) then d else "./" + d))])
  {
    BareNode(b, And);
    CdNode(d);
    TwoPhraseScript(Cd(Some(d)), And, Bare(b));
    assert ["cd", d] + ["&&"] + [b] == ["cd", d, "&&", b];
    hide Parse, EnvMatch, Tokens, Denotes, Valid;
    ScriptAccepted(Script([(Cd(Some(d)), And)], Bare(b), []));
    var nodes := [Chdir(Some(d)), And, NewCommand(b, map[])];
    assert nodes[2..] == [NewCommand(b, map[])];
    BareRuns(b, JoinPath(".", d), exits);
    assert "./" + d == "." + "/" + d;
  }

  /** `cd d && cd e && b` starts b in `./d/e`. */
  lemma CdTwiceExample(b: string, exits: Exits)
    requires IsWord(b)
    ensures var nodes := [Chdir(Some("d")), And, Chdir(Some("e")), And, NewCommand(b, map[])];
            && Parse(["cd", "d", "&&", "cd", "e", "&&", b]) == Accepted(nodes)
            && Executed(nodes, exits)
               == (Status(exits(0)), [Launch([b], InheritIn, InheritOut, InheritErr, map[], Some("./d/e"))])
  {
    BareNode(b, And);
    CdNode("d");
    CdNode("e");
    ThreePhraseScript(Cd(Some("d")), And, Cd(Some("e")), And, Bare(b));
    assert ["cd", "d"] + ["&&"] + ["cd", "e"] + ["&&"] + [b] == ["cd", "d", "&&", "cd", "e", "&&", b];
    hide Parse, EnvMatch, Tokens, Denotes, Valid;
    ScriptAccepted(Script([(Cd(Some("d")), And), (Cd(Some("e")), And)], Bare(b), []));
    var nodes := [Chdir(Some("d")), And, Chdir(Some("e")), And, NewCommand(b, map[])];
    assert nodes[2..] == [Chdir(Some("e")), And, NewCommand(b, map[])];
    assert nodes[2..][2..] == [NewCommand(b, map[])];
    assert JoinPath(".", "d") == "./d" && JoinPath("./d", "e") == "./d/e";
    LoopChdirStep(Machine(nodes, false, [], ".", []), Machine(nodes[2..], false, [], "./d", []), exits);
    LoopChdirStep(Machine(nodes[2..], false, [], "./d", []), Machine(nodes[2..][2..], false, [], "./d/e", []), exits);
    hide Loop, JoinPath;
    BareRuns(b, "./d/e", exits);
  }
}
