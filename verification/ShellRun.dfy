/** Running a parsed pipeline: the executor's loop, and the recursive evaluator it implements. */
module ShellRun {
  import opened Basics
  import opened ShellParse
  import opened ShellRoundTrip

  /** Where a process reads from; `FromProcess` names an earlier launch by its number. */
  datatype Source = InheritIn | FromFile(name: string) | FromProcess(index: nat)

  datatype Launch = Launch(argv: seq<string>, stdin: Source, stdout: Stdout, stderr: Stderr, env: map<string, string>,
                           cwd: Option<string>)

  /** What `run` does in the end: return a status, return nothing, or raise. */
  datatype Outcome = Status(code: int) | NoStatus | IndexError | AssertionError | TypeError

  /** The exit status of each process, by the number of its launch. */
  type Exits = nat -> int

  function JoinPath(cwd: string, dir: string): string {
    if dir != "" && dir[0] == '/' then dir
    else if cwd == "" || cwd[|cwd| - 1] == '/' then cwd + dir
    else cwd + "/" + dir
  }

  function ProcCwd(cwd: string): Option<string> {
    if cwd == "." then None else Some(cwd)
  }

  function FileSource(cmd: Node): Source
    requires cmd.Command?
  {
    if cmd.stdin.Some? then FromFile(cmd.stdin.value) else InheritIn
  }

  function LaunchOf(cmd: Node, source: Source, cwd: string): Launch
    requires cmd.Command?
  {
    Launch(cmd.argv, source, cmd.stdout, cmd.stderr, cmd.env, ProcCwd(cwd))
  }

  // ---------- the executor's loop ----------

  datatype Machine = Machine(rest: seq<Node>, piping: bool, piped: seq<nat>, cwd: string, launches: seq<Launch>)

  /** A group's exit status is that of its last process. */
  function PipedStatus(piped: seq<nat>, exits: Exits): int {
    if piped == [] then 0 else exits(piped[|piped| - 1])
  }

  /** The output of the process launched last, if it was given a pipe. */
  function PipeSource(m: Machine): Source
    requires m.piped != [] && m.piped[|m.piped| - 1] < |m.launches|
  {
    if m.launches[m.piped[|m.piped| - 1]].stdout.PIPE? then FromProcess(m.piped[|m.piped| - 1]) else InheritIn
  }

  ghost predicate GoodMachine(m: Machine) {
    && (forall i :: 0 <= i < |m.piped| ==> m.piped[i] < |m.launches|)
  }

  /** The loop from a given point on. */
  function Loop(m: Machine, exits: Exits): (Outcome, seq<Launch>)
    requires GoodMachine(m)
    decreases |m.rest|
  {
    if m.rest == [] then (NoStatus, m.launches) else
      var node := m.rest[0];
      if node.Chdir? then
        if |m.rest| == 1 then (IndexError, m.launches)
        else if !m.rest[1].And? then (Outcome.AssertionError, m.launches)
        else if node.dir.None? then (TypeError, m.launches)
        else Loop(m.(rest := m.rest[2..], cwd := JoinPath(m.cwd, node.dir.value)), exits)
      else if !node.Command? then (Outcome.AssertionError, m.launches)
      else if m.piping && m.piped == [] then (IndexError, m.launches)
      else
        var source := if m.piping then PipeSource(m) else FileSource(node);
        var launches := m.launches + [LaunchOf(node, source, m.cwd)];
        var piped := m.piped + [|m.launches|];
        if |m.rest| == 1 then (Status(PipedStatus(piped, exits)), launches)
        else
          var next, status := m.rest[1], PipedStatus(piped, exits);
          if next.Pipe? then Loop(Machine(m.rest[2..], true, piped, m.cwd, launches), exits)
          else if next.Or? then
            if status == 0 then (Status(status), launches)
            else Loop(Machine(m.rest[2..], false, [], m.cwd, launches), exits)
          else if next.And? then
            if status != 0 then (Status(status), launches)
            else Loop(Machine(m.rest[2..], false, [], m.cwd, launches), exits)
          else Loop(Machine(m.rest[2..], m.piping, piped, m.cwd, launches), exits)
  }

  /** Waits for every process of the group and combines their statuses. */
  method ExecPipedCommands(commands: seq<nat>, exits: Exits) returns (retval: int)
    ensures retval == PipedStatus(commands, exits)
  {
    var retvals: seq<int> := [];
    for i := 0 to |commands|
      invariant |retvals| == i && forall k :: 0 <= k < i ==> retvals[k] == exits(commands[k])
    {
      retvals := retvals + [exits(commands[i])];
    }
    retval := 0;
    for i := 0 to |retvals|
      invariant retval == 0 && forall k :: 0 <= k < i ==> retvals[k] == 0
    {
      if retvals[i] != 0 {
        retval := retvals[|retvals| - 1];
        break;
      }
    }
  }

  method Run(nodes: seq<Node>, exits: Exits) returns (outcome: Outcome, launches: seq<Launch>)
    ensures (outcome, launches) == Loop(Machine(nodes, false, [], ".", []), exits)
  {
    var pipeline, piping, piped: seq<nat>, cwd := nodes, false, [], ".";
    launches := [];
    while pipeline != []
      invariant GoodMachine(Machine(pipeline, piping, piped, cwd, launches))
      invariant Loop(Machine(pipeline, piping, piped, cwd, launches), exits)
                == Loop(Machine(nodes, false, [], ".", []), exits)
      decreases |pipeline|
    {
      var node := pipeline[0];
      pipeline := pipeline[1..];
      if node.Chdir? {
        if pipeline == [] {
          return IndexError, launches;
        }
        var nextOp := pipeline[0];
        pipeline := pipeline[1..];
        if !nextOp.And? {
          return Outcome.AssertionError, launches;
        }
        if node.dir.None? {
          return TypeError, launches;
        }
        cwd := JoinPath(cwd, node.dir.value);
        continue;
      }
      if !node.Command? {
        return Outcome.AssertionError, launches;
      }
      var stdin := InheritIn;
      if piping {
        if piped == [] {
          return IndexError, launches;
        }
        var last := piped[|piped| - 1];
        if launches[last].stdout.PIPE? {
          stdin := FromProcess(last);
        }
      } else if node.stdin.Some? {
        stdin := FromFile(node.stdin.value);
      }
      var procCwd := if cwd == "." then None else Some(cwd);
      launches := launches + [Launch(node.argv, stdin, node.stdout, node.stderr, node.env, procCwd)];
      piped := piped + [|launches| - 1];
      if pipeline == [] {
        var retval := ExecPipedCommands(piped, exits);
        return Status(retval), launches;
      }
      var nextNode := pipeline[0];
      pipeline := pipeline[1..];
      if nextNode.Pipe? {
        piping := true;
      } else if nextNode.Or? {
        var thisRetval := ExecPipedCommands(piped, exits);
        if thisRetval == 0 {
          return Status(thisRetval), launches;
        }
        piping, piped := false, [];
      } else if nextNode.And? {
        var thisRetval := ExecPipedCommands(piped, exits);
        if thisRetval != 0 {
          return Status(thisRetval), launches;
        }
        piping, piped := false, [];
      }
    }
    outcome := NoStatus;
  }

  // ---------- the evaluator ----------

  /** A group is a sequence of commands joined by pipes, with changes of directory in between. */
  datatype Part = Go(dir: Option<string>) | Do(cmd: Node)

  /** g1 op (g2 op (... gn)), where each operator is `&&` or `||`. */
  datatype Tree = Leaf(group: seq<Part>) | Join(group: seq<Part>, op: Node, rest: Tree)

  ghost function FlattenGroup(parts: seq<Part>): seq<Node> {
    if parts == [] then [] else
      (match parts[0]
       case Do(cmd) => if |parts| == 1 then [cmd] else [cmd, Pipe]
       case Go(dir) => if |parts| == 1 then [Chdir(dir)] else [Chdir(dir), And])
      + FlattenGroup(parts[1..])
  }

  ghost function FlattenTree(t: Tree): seq<Node> {
    match t
    case Leaf(g) => FlattenGroup(g)
    case Join(g, op, rest) => FlattenGroup(g) + [op] + FlattenTree(rest)
  }

  /** Every command but the last writes to a pipe. */
  ghost predicate GroupOk(parts: seq<Part>) {
    && parts != []
    && (parts[0].Do? ==> parts[0].cmd.Command? && (parts[0].cmd.stdout.PIPE? <==> |parts| > 1))
    && (|parts| > 1 ==> GroupOk(parts[1..]))
  }

  ghost predicate TreeOk(t: Tree) {
    match t
    case Leaf(g) => GroupOk(g)
    case Join(g, op, rest) => GroupOk(g) && g[|g| - 1].Do? && (op.And? || op.Or?) && TreeOk(rest)
  }

  datatype GroupRun = Ran(cwd: string, launches: seq<Launch>) | Broke(outcome: Outcome, launches: seq<Launch>)

  /**
   * Launches a group's commands in order; each but the first reads from the one before it, also across a change of
   * directory. A last `cd`, or one without a directory, raises.
   */
  ghost function Exec(parts: seq<Part>, feeding: bool, cwd: string, launches: seq<Launch>): GroupRun
    requires GroupOk(parts) && (feeding ==> launches != [])
    decreases |parts|
  {
    match parts[0]
    case Go(dir) =>
      if |parts| == 1 then Broke(IndexError, launches)
      else if dir.None? then Broke(TypeError, launches)
      else Exec(parts[1..], feeding, JoinPath(cwd, dir.value), launches)
    case Do(cmd) =>
      var source := if feeding then FromProcess(|launches| - 1) else FileSource(cmd);
      var more := launches + [LaunchOf(cmd, source, cwd)];
      if |parts| == 1 then Ran(cwd, more) else Exec(parts[1..], true, cwd, more)
  }

  /** The status of a group is that of the process launched last. */
  ghost function LastStatus(launches: seq<Launch>, exits: Exits): int {
    if launches == [] then 0 else exits(|launches| - 1)
  }

  ghost predicate Proceeds(op: Node, status: int) {
    (op.And? && status == 0) || (op.Or? && status != 0)
  }

  /** The operators are right-associative: a group that does not let the operator proceed ends the whole. */
  ghost function Eval(t: Tree, exits: Exits, cwd: string, launches: seq<Launch>): (Outcome, seq<Launch>)
    requires TreeOk(t)
  {
    match Exec(t.group, false, cwd, launches)
    case Broke(outcome, l) => (outcome, l)
    case Ran(cwd', l) =>
      if t.Leaf? || !Proceeds(t.op, LastStatus(l, exits)) then (Status(LastStatus(l, exits)), l)
      else Eval(t.rest, exits, cwd', l)
  }

  // ---------- the loop implements the evaluator ----------

  /** What the loop does once a group has run and the nodes `tail` remain. */
  ghost function AfterGroup(tail: seq<Node>, cwd: string, launches: seq<Launch>, exits: Exits): (Outcome, seq<Launch>) {
    if tail == [] || !Proceeds(tail[0], LastStatus(launches, exits)) then
      (Status(LastStatus(launches, exits)), launches)
    else Loop(Machine(tail[1..], false, [], cwd, launches), exits)
  }

  /** While a group runs, the last process launched is the last of the group, and writes to a pipe. */
  ghost predicate MidGroup(m: Machine) {
    if m.piping then
      && m.piped != [] && m.launches != [] && m.piped[|m.piped| - 1] == |m.launches| - 1
      && m.launches[|m.launches| - 1].stdout.PIPE?
    else m.piped == []
  }

  ghost function GroupOutcome(run: GroupRun, tail: seq<Node>, exits: Exits): (Outcome, seq<Launch>) {
    match run
    case Broke(outcome, l) => (outcome, l)
    case Ran(cwd, l) => AfterGroup(tail, cwd, l, exits)
  }

  lemma TwoInFront(a: Node, b: Node, rest: seq<Node>, tail: seq<Node>)
    ensures var nodes := [a, b] + rest + tail;
            |nodes| > 1 && nodes[0] == a && nodes[1] == b && nodes[2..] == rest + tail
  {
  }

  lemma GroupNodes(parts: seq<Part>, tail: seq<Node>)
    requires GroupOk(parts)
    ensures var nodes, op := FlattenGroup(parts) + tail, if parts[0].Do? then Pipe else And;
            && nodes != []
            && nodes[0] == (if parts[0].Do? then parts[0].cmd else Chdir(parts[0].dir))
            && (|parts| == 1 ==> nodes[1..] == tail)
            && (|parts| > 1 ==> |nodes| > 1 && nodes[1] == op && nodes[2..] == FlattenGroup(parts[1..]) + tail)
  {
    var node, op := if parts[0].Do? then parts[0].cmd else Chdir(parts[0].dir), if parts[0].Do? then Pipe else And;
    if |parts| == 1 {
      assert FlattenGroup(parts[1..]) == [];
      assert FlattenGroup(parts) == [node];
    } else {
      assert FlattenGroup(parts) == [node, op] + FlattenGroup(parts[1..]);
      hide FlattenGroup;
      TwoInFront(node, op, FlattenGroup(parts[1..]), tail);
    }
  }

  lemma {:induction false} LoopOverGroup(parts: seq<Part>, tail: seq<Node>, m: Machine, exits: Exits)
    requires GroupOk(parts) && GoodMachine(m) && MidGroup(m)
    requires m.rest == FlattenGroup(parts) + tail
    requires tail != [] ==> parts[|parts| - 1].Do? && (tail[0].And? || tail[0].Or?)
    ensures Loop(m, exits) == GroupOutcome(Exec(parts, m.piping, m.cwd, m.launches), tail, exits)
    decreases |parts|
  {
    hide FlattenGroup;
    GroupNodes(parts, tail);
    if parts[0].Do? {
      var cmd := parts[0].cmd;
      var source := if m.piping then PipeSource(m) else FileSource(cmd);
      var next := Machine(if |parts| > 1 then m.rest[2..] else [], true, m.piped + [|m.launches|], m.cwd,
                          m.launches + [LaunchOf(cmd, source, m.cwd)]);
      assert PipedStatus(next.piped, exits) == LastStatus(next.launches, exits);
      if |parts| > 1 {
        LoopOverGroup(parts[1..], tail, next, exits);
        LoopCommandStep(m, next, exits);
      } else {
        LoopLastCommand(m, next, tail, exits);
      }
    } else if |parts| > 1 && parts[0].dir.Some? {
      var next := m.(rest := m.rest[2..], cwd := JoinPath(m.cwd, parts[0].dir.value));
      LoopOverGroup(parts[1..], tail, next, exits);
      LoopChdirStep(m, next, exits);
    } else {
      LoopBreaks(m, exits);
    }
  }

  lemma LoopCommandStep(m: Machine, next: Machine, exits: Exits)
    requires GoodMachine(m) && MidGroup(m) && |m.rest| > 1 && m.rest[0].Command? && m.rest[1] == Pipe
    requires GoodMachine(next) && next.rest == m.rest[2..] && next.piping && next.cwd == m.cwd
    requires next.piped == m.piped + [|m.launches|]
    requires var source := if m.piping then PipeSource(m) else FileSource(m.rest[0]);
             next.launches == m.launches + [LaunchOf(m.rest[0], source, m.cwd)]
    ensures Loop(m, exits) == Loop(next, exits)
  {
  }

  lemma LoopChdirStep(m: Machine, next: Machine, exits: Exits)
    requires GoodMachine(m) && |m.rest| > 1 && m.rest[0].Chdir? && m.rest[0].dir.Some? && m.rest[1] == And
    requires next == m.(rest := m.rest[2..], cwd := JoinPath(m.cwd, m.rest[0].dir.value))
    ensures Loop(m, exits) == Loop(next, exits)
  {
  }

  lemma LoopBreaks(m: Machine, exits: Exits)
    requires GoodMachine(m) && m.rest != [] && m.rest[0].Chdir?
    requires |m.rest| > 1 ==> m.rest[0].dir.None? && m.rest[1] == And
    ensures Loop(m, exits) == (if |m.rest| == 1 then IndexError else TypeError, m.launches)
  {
  }

  lemma LoopLastCommand(m: Machine, next: Machine, tail: seq<Node>, exits: Exits)
    requires GoodMachine(m) && MidGroup(m) && m.rest != [] && m.rest[0].Command? && m.rest[1..] == tail
    requires tail != [] ==> tail[0].And? || tail[0].Or?
    requires next.piped == m.piped + [|m.launches|]
    requires var source := if m.piping then PipeSource(m) else FileSource(m.rest[0]);
             next.launches == m.launches + [LaunchOf(m.rest[0], source, m.cwd)]
    ensures Loop(m, exits) == AfterGroup(tail, m.cwd, next.launches, exits)
  {
    assert PipedStatus(next.piped, exits) == LastStatus(next.launches, exits);
    if tail != [] {
      assert m.rest[1] == tail[0] && m.rest[2..] == tail[1..];
    }
  }

  lemma {:induction false} LoopIsEval(t: Tree, exits: Exits, cwd: string, launches: seq<Launch>)
    requires TreeOk(t)
    ensures Loop(Machine(FlattenTree(t), false, [], cwd, launches), exits) == Eval(t, exits, cwd, launches)
    decreases t
  {
    hide Loop, Exec, FlattenGroup, GroupOk;
    var m := Machine(FlattenTree(t), false, [], cwd, launches);
    match t {
      case Leaf(g) =>
        assert FlattenGroup(g) + [] == FlattenGroup(g);
        LoopOverGroup(g, [], m, exits);
      case Join(g, op, rest) =>
        var tail := [op] + FlattenTree(rest);
        assert FlattenTree(t) == FlattenGroup(g) + tail;
        LoopOverGroup(g, tail, m, exits);
        assert tail[1..] == FlattenTree(rest);
        var run := Exec(g, false, cwd, launches);
        if run.Ran? {
          LoopIsEval(rest, exits, run.cwd, run.launches);
        }
    }
  }

  // ---------- every parsed pipeline has a tree ----------

  ghost function Prepend(part: Part, t: Tree): Tree {
    match t
    case Leaf(g) => Leaf([part] + g)
    case Join(g, op, rest) => Join([part] + g, op, rest)
  }

  ghost function TreeOf(nodes: seq<Node>): Tree {
    if nodes == [] then Leaf([]) else
      var part := if nodes[0].Chdir? then Go(nodes[0].dir) else Do(nodes[0]);
      if |nodes| <= 2 then Leaf([part])
      else if nodes[0].Chdir? || nodes[1].Pipe? then Prepend(part, TreeOf(nodes[2..]))
      else Join([part], nodes[1], TreeOf(nodes[2..]))
  }

  lemma WellFormedRest(nodes: seq<Node>)
    requires WellFormed(nodes) && |nodes| > 1
    ensures |nodes| >= 3 && WellFormed(nodes[2..])
    ensures Linked(nodes[0], nodes[1]) && (nodes[0].Command? || nodes[0].Chdir?)
  {
    hide OperandOk, Linked;
    var rest := nodes[2..];
    assert forall i :: 0 <= i < |rest| ==> rest[i] == nodes[i + 2];
    assert Linked(nodes[0], nodes[0 + 1]);
    OperandKind(nodes[0]);
    forall i | 0 <= i < |rest| && i % 2 == 0
      ensures OperandOk(rest[i]) && (i < |rest| - 1 ==> Linked(rest[i], rest[i + 1]))
    {
      assert (i + 2) % 2 == 0;
      assert OperandOk(nodes[i + 2]);
      assert i < |rest| - 1 ==> Linked(nodes[i + 2], nodes[i + 2 + 1]);
    }
  }

  lemma OperandKind(n: Node)
    requires OperandOk(n)
    ensures n.Command? || n.Chdir?
  {
  }

  lemma PrependOk(part: Part, t: Tree)
    requires TreeOk(t) && (part.Do? ==> part.cmd.Command? && part.cmd.stdout.PIPE?)
    ensures TreeOk(Prepend(part, t))
    ensures FlattenTree(Prepend(part, t))
            == (if part.Do? then [part.cmd, Pipe] else [Chdir(part.dir), And]) + FlattenTree(t)
  {
    var g := [part] + t.group;
    assert g[1..] == t.group;
  }

  lemma {:induction false} TreeOfNodes(nodes: seq<Node>)
    requires WellFormed(nodes)
    ensures TreeOk(TreeOf(nodes)) && FlattenTree(TreeOf(nodes)) == nodes
    decreases |nodes|
  {
    hide OperandOk;
    if |nodes| == 1 {
      OperandKind(nodes[0]);
      SinglePart(nodes[0]);
      assert nodes == [nodes[0]];
    } else {
      WellFormedRest(nodes);
      hide WellFormed;
      TreeOfNodes(nodes[2..]);
      assert nodes == [nodes[0], nodes[1]] + nodes[2..];
      var part := if nodes[0].Chdir? then Go(nodes[0].dir) else Do(nodes[0]);
      if nodes[0].Chdir? || nodes[1].Pipe? {
        PrependOk(part, TreeOf(nodes[2..]));
      } else {
        SinglePart(nodes[0]);
        assert [nodes[0]] + [nodes[1]] == [nodes[0], nodes[1]];
      }
    }
  }

  lemma SinglePart(n: Node)
    requires (n.Command? && !n.stdout.PIPE?) || n.Chdir?
    ensures var part := if n.Chdir? then Go(n.dir) else Do(n);
            GroupOk([part]) && FlattenGroup([part]) == [n]
  {
    var part := if n.Chdir? then Go(n.dir) else Do(n);
    assert [part][1..] == [];
  }

  /** Running what the parser returned is evaluating its tree, whatever the processes' exit statuses. */
  lemma RunOfParsed(tokens: seq<string>, exits: Exits)
    requires Parse(tokens).Accepted?
    ensures var t := TreeOf(Parse(tokens).nodes);
            && TreeOk(t) && FlattenTree(t) == Parse(tokens).nodes
            && Loop(Machine(Parse(tokens).nodes, false, [], ".", []), exits) == Eval(t, exits, ".", [])
  {
    hide Parse, WellFormed, Loop, Eval, TreeOk, FlattenTree, TreeOf;
    ParsedIsWellFormed(tokens);
    TreeOfNodes(Parse(tokens).nodes);
    LoopIsEval(TreeOf(Parse(tokens).nodes), exits, ".", []);
  }

  // ---------- pipes ----------

  /** A process that reads from another reads from the one launched just before, which writes to a pipe. */
  ghost predicate PipesJoined(launches: seq<Launch>) {
    forall i :: 0 <= i < |launches| && launches[i].stdin.FromProcess? ==>
      i > 0 && launches[i].stdin.index == i - 1 && launches[i - 1].stdout.PIPE?
  }

  lemma {:induction false} ExecJoinsPipes(parts: seq<Part>, feeding: bool, cwd: string, launches: seq<Launch>)
    requires GroupOk(parts) && PipesJoined(launches)
    requires feeding ==> launches != [] && launches[|launches| - 1].stdout.PIPE?
    ensures PipesJoined(Exec(parts, feeding, cwd, launches).launches)
    ensures launches <= Exec(parts, feeding, cwd, launches).launches
    ensures Exec(parts, feeding, cwd, launches).Ran? ==> |Exec(parts, feeding, cwd, launches).launches| > |launches|
    decreases |parts|
  {
    match parts[0] {
      case Go(dir) =>
        if |parts| > 1 && dir.Some? {
          ExecJoinsPipes(parts[1..], feeding, JoinPath(cwd, dir.value), launches);
        }
      case Do(cmd) =>
        var source := if feeding then FromProcess(|launches| - 1) else FileSource(cmd);
        var more := launches + [LaunchOf(cmd, source, cwd)];
        if |parts| > 1 {
          ExecJoinsPipes(parts[1..], true, cwd, more);
        }
    }
  }

  lemma {:induction false} EvalJoinsPipes(t: Tree, exits: Exits, cwd: string, launches: seq<Launch>)
    requires TreeOk(t) && PipesJoined(launches)
    ensures PipesJoined(Eval(t, exits, cwd, launches).1)
    decreases t
  {
    hide Exec, GroupOk, PipesJoined;
    ExecJoinsPipes(t.group, false, cwd, launches);
    var run := Exec(t.group, false, cwd, launches);
    if run.Ran? && t.Join? && Proceeds(t.op, LastStatus(run.launches, exits)) {
      EvalJoinsPipes(t.rest, exits, run.cwd, run.launches);
    }
  }

  /** In every run of a parsed pipeline, a command after `|` finds a last launched process with a piped output. */
  lemma RunJoinsPipes(tokens: seq<string>, exits: Exits)
    requires Parse(tokens).Accepted?
    ensures PipesJoined(Loop(Machine(Parse(tokens).nodes, false, [], ".", []), exits).1)
  {
    hide Parse, Loop, Eval, TreeOk, FlattenTree, TreeOf;
    RunOfParsed(tokens, exits);
    EvalJoinsPipes(TreeOf(Parse(tokens).nodes), exits, ".", []);
  }
}
