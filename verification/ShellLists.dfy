/**
 * AND-OR lists as section 2.9.3 of the POSIX.1-2017 Shell Command Language defines them, on the nodes of a parsed
 * command line, and when the executor treats a list in the same way. Where a process writes is a parameter, since the
 * nodes do not hold the order in which redirections were given.
 */
module ShellLists {
  import opened Basics
  import opened ShellParse
  import opened ShellRoundTrip
  import opened ShellRun

  predicate IsListOp(n: Node) {
    n.And? || n.Or?
  }

  // ---------- processes ----------

  /** What a file descriptor for output refers to. */
  datatype Target = Out | Err | PipeEnd | File(name: string)

  datatype Targets = Targets(out: Target, err: Target)

  datatype Process = Process(argv: seq<string>, stdin: Source, targets: Targets, env: map<string, string>,
                             cwd: Option<string>)

  function OutTarget(stdout: Stdout): Target {
    match stdout
    case InheritOut => Out
    case PIPE => PipeEnd
    case OutFile(name) => File(name)
  }

  /** How a process is created from what the executor passes: both streams may share whatever the first one is. */
  function TargetsOf(stdout: Stdout, stderr: Stderr): Targets {
    match stderr
    case InheritErr => Targets(OutTarget(stdout), Err)
    case STDOUT => Targets(OutTarget(stdout), OutTarget(stdout))
    case ErrFile(name) => Targets(OutTarget(stdout), File(name))
  }

  function NodeTargets(cmd: Node): Targets
    requires cmd.Command?
  {
    TargetsOf(cmd.stdout, cmd.stderr)
  }

  function ProcessOf(l: Launch): Process {
    Process(l.argv, l.stdin, TargetsOf(l.stdout, l.stderr), l.env, l.cwd)
  }

  ghost function Processes(launches: seq<Launch>): (ps: seq<Process>)
    ensures |ps| == |launches| && forall i :: 0 <= i < |ps| ==> ps[i] == ProcessOf(launches[i])
  {
    seq(|launches|, i requires 0 <= i < |launches| => ProcessOf(launches[i]))
  }

  lemma ProcessesMore(launches: seq<Launch>, l: Launch)
    ensures Processes(launches + [l]) == Processes(launches) + [ProcessOf(l)]
  {
  }

  // ---------- the meaning of a list in the shell ----------

  /** What a list does: the status of the pipeline executed last, the directory it leaves, the processes created. */
  datatype ShellState = ShellState(status: int, cwd: string, processes: seq<Process>)

  const START := ShellState(0, ".", [])

  /** A redirection of the standard input is performed after the pipe has been connected, and so wins over it. */
  ghost function ShellSource(cmd: Node, feeding: bool, processes: seq<Process>): Source
    requires cmd.Command?
  {
    if cmd.stdin.None? && feeding && processes != [] then FromProcess(|processes| - 1) else FileSource(cmd)
  }

  /**
   * One command, with its output going to the given targets. A `cd` succeeds; next to a pipe it runs in a subshell and
   * leaves the directory as it is.
   */
  ghost function RunOperand(n: Node, to: Targets, feeding: bool, s: ShellState, exits: Exits): ShellState {
    match n
    case Command(_, _, _, _, _, _) =>
      var p := Process(n.argv, ShellSource(n, feeding, s.processes), to, n.env, ProcCwd(s.cwd));
      ShellState(exits(|s.processes|), s.cwd, s.processes + [p])
    case Chdir(dir) => s.(status := 0, cwd := if feeding || dir.None? then s.cwd else JoinPath(s.cwd, dir.value))
    case _ => s
  }

  /** Commands joined by pipes; the status is that of the last one. */
  ghost function RunPipeline(p: seq<Node>, ts: seq<Targets>, feeding: bool, s: ShellState, exits: Exits): ShellState
    requires |ts| == |p|
    decreases |p|
  {
    if p == [] then s else
      var t := RunOperand(p[0], ts[0], feeding, s, exits);
      if |p| <= 2 then t else RunPipeline(p[2..], ts[2..], true, t, exits)
  }

  /** The place of the last `&&` or `||`, or -1. */
  ghost function LastListOp(nodes: seq<Node>): (k: int)
    ensures -1 <= k < |nodes| && (k >= 0 ==> IsListOp(nodes[k]))
    ensures forall i :: k < i < |nodes| ==> !IsListOp(nodes[i])
  {
    if nodes == [] then -1 else
      var n := |nodes| - 1;
      if IsListOp(nodes[n]) then n else LastListOp(nodes[..n])
  }

  /**
   * `&&` and `||` have equal precedence and associate to the left: the last operator joins the list before it to the
   * pipeline after it, which is executed if the status of that list lets it proceed.
   */
  ghost function ShellList(nodes: seq<Node>, ts: seq<Targets>, exits: Exits): ShellState
    requires |ts| == |nodes|
    decreases |nodes|
  {
    var k := LastListOp(nodes);
    if k < 0 then RunPipeline(nodes, ts, false, START, exits) else
      var s := ShellList(nodes[..k], ts[..k], exits);
      if Proceeds(nodes[k], s.status) then RunPipeline(nodes[k + 1..], ts[k + 1..], false, s, exits) else s
  }

  // ---------- the same from left to right ----------

  /** Reading from the left, a pipeline that is skipped leaves the status so far to the next operator. */
  ghost function ScanList(nodes: seq<Node>, ts: seq<Targets>, skipping: bool, feeding: bool, s: ShellState,
                          exits: Exits): ShellState
    requires |ts| == |nodes|
    decreases |nodes|
  {
    if nodes == [] then s else
      var t := if skipping then s else RunOperand(nodes[0], ts[0], feeding, s, exits);
      if |nodes| <= 2 then t
      else ScanList(nodes[2..], ts[2..], Skips(nodes[1], skipping, t), nodes[1].Pipe?, t, exits)
  }

  /** Whether the operand after this operator is skipped. */
  ghost predicate Skips(op: Node, skipping: bool, s: ShellState) {
    if op.Pipe? then skipping else !Proceeds(op, s.status)
  }

  ghost predicate Alternates(nodes: seq<Node>) {
    && |nodes| % 2 == 1
    && (forall i :: 0 <= i < |nodes| && i % 2 == 1 ==> nodes[i].Pipe? || IsListOp(nodes[i]))
    && (forall i :: 0 <= i < |nodes| && i % 2 == 0 ==> nodes[i].Command? || nodes[i].Chdir?)
  }

  lemma AlternatesRest(nodes: seq<Node>)
    requires Alternates(nodes) && |nodes| > 1
    ensures |nodes| >= 3 && Alternates(nodes[2..])
  {
    assert forall i :: 0 <= i < |nodes| - 2 ==> nodes[2..][i] == nodes[i + 2] && (i + 2) % 2 == i % 2;
  }

  lemma {:induction false} ScanPipeline(p: seq<Node>, ts: seq<Targets>, skipping: bool, feeding: bool, s: ShellState,
                                        exits: Exits)
    requires |ts| == |p| && Alternates(p) && forall i :: 0 <= i < |p| ==> !IsListOp(p[i])
    ensures ScanList(p, ts, skipping, feeding, s, exits)
            == if skipping then s else RunPipeline(p, ts, feeding, s, exits)
    decreases |p|
  {
    hide RunOperand;
    if |p| > 1 {
      AlternatesRest(p);
      assert p[1].Pipe?;
      hide Alternates;
      var t := if skipping then s else RunOperand(p[0], ts[0], feeding, s, exits);
      ScanPipeline(p[2..], ts[2..], skipping, true, t, exits);
    }
  }

  lemma {:induction false} ScanLastOp(nodes: seq<Node>, ts: seq<Targets>, k: nat, skipping: bool, feeding: bool,
                                      s: ShellState, exits: Exits)
    requires |ts| == |nodes| && Alternates(nodes) && k < |nodes| && k % 2 == 1 && IsListOp(nodes[k])
    requires forall i :: k < i < |nodes| ==> !IsListOp(nodes[i])
    ensures var a := ScanList(nodes[..k], ts[..k], skipping, feeding, s, exits);
            ScanList(nodes, ts, skipping, feeding, s, exits)
            == if Proceeds(nodes[k], a.status) then RunPipeline(nodes[k + 1..], ts[k + 1..], false, a, exits) else a
    decreases |nodes|
  {
    hide RunOperand, Proceeds, RunPipeline;
    AlternatesRest(nodes);
    var t := if skipping then s else RunOperand(nodes[0], ts[0], feeding, s, exits);
    var skip := Skips(nodes[1], skipping, t);
    var rest, others := nodes[2..], ts[2..];
    assert ScanList(nodes, ts, skipping, feeding, s, exits) == ScanList(rest, others, skip, nodes[1].Pipe?, t, exits);
    if k == 1 {
      assert ScanList(nodes[..1], ts[..1], skipping, feeding, s, exits) == t;
      ScanPipeline(rest, others, skip, false, t, exits);
    } else {
      assert nodes[..k][2..] == rest[..k - 2] && rest[k - 1..] == nodes[k + 1..] && rest[k - 2] == nodes[k];
      assert ts[..k][2..] == others[..k - 2] && others[k - 1..] == ts[k + 1..];
      assert ScanList(nodes[..k], ts[..k], skipping, feeding, s, exits)
             == ScanList(rest[..k - 2], others[..k - 2], skip, nodes[1].Pipe?, t, exits);
      hide ScanList, Alternates, Skips;
      ScanLastOp(rest, others, k - 2, skip, nodes[1].Pipe?, t, exits);
    }
  }

  lemma AlternatesBefore(nodes: seq<Node>, k: nat)
    requires Alternates(nodes) && k < |nodes| && IsListOp(nodes[k])
    ensures k % 2 == 1 && Alternates(nodes[..k])
  {
  }

  /** Left association, written out from left to right. */
  lemma {:induction false} ScanIsShellList(nodes: seq<Node>, ts: seq<Targets>, exits: Exits)
    requires |ts| == |nodes| && Alternates(nodes)
    ensures ScanList(nodes, ts, false, false, START, exits) == ShellList(nodes, ts, exits)
    decreases |nodes|
  {
    hide ScanList, RunPipeline, Proceeds;
    var k := LastListOp(nodes);
    if k < 0 {
      ScanPipeline(nodes, ts, false, false, START, exits);
    } else {
      AlternatesBefore(nodes, k);
      ScanLastOp(nodes, ts, k, false, false, START, exits);
      ScanIsShellList(nodes[..k], ts[..k], exits);
    }
  }

  lemma WellFormedAlternates(nodes: seq<Node>)
    requires WellFormed(nodes)
    ensures Alternates(nodes)
  {
    hide CommandOk;
    forall i | 0 <= i < |nodes| && i % 2 == 1
      ensures nodes[i].Pipe? || IsListOp(nodes[i])
    {
      assert (i - 1) % 2 == 0 && Linked(nodes[i - 1], nodes[i - 1 + 1]);
    }
  }

  // ---------- when the executor agrees ----------

  /** Every `cd` has a directory, and the list does not end in one. */
  ghost predicate NothingRaises(nodes: seq<Node>) {
    && nodes != [] && nodes[|nodes| - 1].Command?
    && forall i :: 0 <= i < |nodes| && nodes[i].Chdir? ==> nodes[i].dir.Some?
  }

  /** A command without an input of its own. */
  predicate TakesPipe(n: Node) {
    n.Command? && n.stdin.None?
  }

  /** What follows a pipe is no `cd`, and does not redirect its input. */
  ghost predicate PipesPlain(nodes: seq<Node>) {
    forall i :: 0 < i < |nodes| && nodes[i - 1].Pipe? ==> TakesPipe(nodes[i])
  }

  ghost predicate OnlyListOp(nodes: seq<Node>, op: Node) {
    forall i :: 0 <= i < |nodes| && IsListOp(nodes[i]) ==> nodes[i] == op
  }

  /** No `&&` or `||` after a command is followed later by the other one; the `&&` after a `cd` counts as later. */
  ghost predicate OneWay(nodes: seq<Node>) {
    forall i :: 0 < i < |nodes| && nodes[i - 1].Command? && IsListOp(nodes[i]) ==> OnlyListOp(nodes[i + 1..], nodes[i])
  }

  /** The targets of every command are those its node records. */
  ghost predicate Recorded(nodes: seq<Node>, ts: seq<Targets>)
    requires |ts| == |nodes|
  {
    forall i :: 0 <= i < |nodes| && nodes[i].Command? ==> ts[i] == NodeTargets(nodes[i])
  }

  ghost predicate Plain(nodes: seq<Node>, ts: seq<Targets>, feeding: bool)
    requires nodes != [] && |ts| == |nodes|
  {
    (feeding ==> TakesPipe(nodes[0])) && PipesPlain(nodes) && OneWay(nodes) && Recorded(nodes, ts)
  }

  lemma PlainStep(nodes: seq<Node>, ts: seq<Targets>, feeding: bool)
    requires |nodes| > 2 && |ts| == |nodes| && Alternates(nodes)
    ensures Plain(nodes, ts, feeding) <==>
              && (feeding ==> TakesPipe(nodes[0]))
              && (nodes[0].Command? ==> ts[0] == NodeTargets(nodes[0]))
              && (nodes[0].Command? && IsListOp(nodes[1]) ==> OnlyListOp(nodes[2..], nodes[1]))
              && Plain(nodes[2..], ts[2..], nodes[1].Pipe?)
  {
    PipesStep(nodes);
    OneWayStep(nodes);
    RecordedStep(nodes, ts);
    hide PipesPlain, OneWay, OnlyListOp, TakesPipe, Recorded;
  }

  lemma RecordedStep(nodes: seq<Node>, ts: seq<Targets>)
    requires |nodes| > 2 && |ts| == |nodes| && Alternates(nodes)
    ensures Recorded(nodes, ts) <==>
              (nodes[0].Command? ==> ts[0] == NodeTargets(nodes[0])) && Recorded(nodes[2..], ts[2..])
  {
    hide NodeTargets;
    var rest, others := nodes[2..], ts[2..];
    assert !nodes[1].Command?;
    assert forall i :: 0 <= i < |rest| ==> rest[i] == nodes[i + 2] && others[i] == ts[i + 2];
    if Recorded(rest, others) && (nodes[0].Command? ==> ts[0] == NodeTargets(nodes[0])) {
      forall i | 0 <= i < |nodes| && nodes[i].Command?
        ensures ts[i] == NodeTargets(nodes[i])
      {
        assert i >= 2 ==> rest[i - 2].Command?;
      }
    }
  }

  lemma PipesStep(nodes: seq<Node>)
    requires |nodes| > 2 && Alternates(nodes)
    ensures PipesPlain(nodes) <==> (nodes[1].Pipe? ==> TakesPipe(nodes[2])) && PipesPlain(nodes[2..])
  {
    hide TakesPipe;
    var rest := nodes[2..];
    assert !nodes[0].Pipe?;
    if PipesPlain(rest) && (nodes[1].Pipe? ==> TakesPipe(nodes[2])) {
      forall i | 0 < i < |nodes| && nodes[i - 1].Pipe?
        ensures TakesPipe(nodes[i])
      {
        if i > 2 {
          assert rest[i - 2 - 1].Pipe? ==> TakesPipe(rest[i - 2]);
        }
      }
    }
    if PipesPlain(nodes) {
      assert nodes[2 - 1].Pipe? ==> TakesPipe(nodes[2]);
      forall i | 0 < i < |rest| && rest[i - 1].Pipe?
        ensures TakesPipe(rest[i])
      {
        assert nodes[i + 2 - 1].Pipe? ==> TakesPipe(nodes[i + 2]);
      }
    }
  }

  lemma OneWayStep(nodes: seq<Node>)
    requires |nodes| > 2 && Alternates(nodes)
    ensures OneWay(nodes) <==>
              (nodes[0].Command? && IsListOp(nodes[1]) ==> OnlyListOp(nodes[2..], nodes[1])) && OneWay(nodes[2..])
  {
    hide OnlyListOp;
    var rest := nodes[2..];
    assert !IsListOp(nodes[2]);
    assert nodes[1 + 1..] == rest;
    if OneWay(nodes) {
      assert nodes[1 - 1].Command? && IsListOp(nodes[1]) ==> OnlyListOp(nodes[1 + 1..], nodes[1]);
      forall i | 0 < i < |rest| && rest[i - 1].Command? && IsListOp(rest[i])
        ensures OnlyListOp(rest[i + 1..], rest[i])
      {
        assert nodes[i + 2 - 1].Command? && IsListOp(nodes[i + 2]);
        assert nodes[i + 2 + 1..] == rest[i + 1..];
      }
    }
    if OneWay(rest) && (nodes[0].Command? && IsListOp(nodes[1]) ==> OnlyListOp(rest, nodes[1])) {
      forall i | 0 < i < |nodes| && nodes[i - 1].Command? && IsListOp(nodes[i])
        ensures OnlyListOp(nodes[i + 1..], nodes[i])
      {
        if i > 2 {
          assert rest[i - 2 - 1].Command? && IsListOp(rest[i - 2]);
          assert nodes[i + 1..] == rest[i - 2 + 1..];
        }
      }
    }
  }

  /** The executor and the shell have created the same processes and are in the same directory. */
  ghost predicate Aligned(m: Machine, s: ShellState) {
    GoodMachine(m) && MidGroup(m) && m.cwd == s.cwd && Processes(m.launches) == s.processes
  }

  ghost function Answer(s: ShellState): (Outcome, seq<Process>) {
    (Status(s.status), s.processes)
  }

  /** The outcome of a run, and the processes it has created. */
  ghost function Observed(r: (Outcome, seq<Launch>)): (Outcome, seq<Process>) {
    (r.0, Processes(r.1))
  }

  /** A skipped pipeline whose later operators are all the same stays the last word. */
  lemma {:induction false} SkippedToTheEnd(nodes: seq<Node>, ts: seq<Targets>, op: Node, feeding: bool, s: ShellState,
                                           exits: Exits)
    requires |ts| == |nodes| && Alternates(nodes) && OnlyListOp(nodes, op) && !Proceeds(op, s.status)
    ensures ScanList(nodes, ts, true, feeding, s, exits) == s
    decreases |nodes|
  {
    if |nodes| > 1 {
      AlternatesRest(nodes);
      assert IsListOp(nodes[1]) ==> nodes[1] == op;
      SkippedToTheEnd(nodes[2..], ts[2..], op, nodes[1].Pipe?, s, exits);
    }
  }

  /** What the next command reads from: the process launched last, inside a group. */
  ghost function NextSource(m: Machine): Source
    requires m.rest != [] && m.rest[0].Command?
  {
    if m.piping && m.launches != [] then FromProcess(|m.launches| - 1) else FileSource(m.rest[0])
  }

  ghost function NextLaunches(m: Machine): seq<Launch>
    requires m.rest != [] && m.rest[0].Command?
  {
    m.launches + [LaunchOf(m.rest[0], NextSource(m), m.cwd)]
  }

  /** The executor's state after the next command, if the loop goes on. */
  ghost function NextMachine(m: Machine): Machine
    requires |m.rest| > 1 && m.rest[0].Command?
  {
    if m.rest[1].Pipe? then Machine(m.rest[2..], true, m.piped + [|m.launches|], m.cwd, NextLaunches(m))
    else Machine(m.rest[2..], false, [], m.cwd, NextLaunches(m))
  }

  lemma NextMachineParts(m: Machine)
    requires GoodMachine(m) && MidGroup(m) && WellFormed(m.rest) && |m.rest| > 1 && m.rest[0].Command?
    ensures var next := NextMachine(m);
            && GoodMachine(next) && MidGroup(next) && WellFormed(next.rest)
            && next.rest == m.rest[2..] && |next.rest| < |m.rest| && |next.launches| == |m.launches| + 1
            && next.launches == NextLaunches(m) && next.piping == m.rest[1].Pipe? && next.cwd == m.cwd
  {
    WellFormedRest(m.rest);
    hide WellFormed;
  }

  lemma LoopCommand(m: Machine, exits: Exits)
    requires GoodMachine(m) && MidGroup(m) && WellFormed(m.rest) && m.rest[0].Command?
    ensures var status := exits(|m.launches|);
            if |m.rest| == 1 then Loop(m, exits) == (Status(status), NextLaunches(m))
            else
              && GoodMachine(NextMachine(m))
              && Loop(m, exits) == if m.rest[1].Pipe? || Proceeds(m.rest[1], status) then Loop(NextMachine(m), exits)
                                   else (Status(status), NextLaunches(m))
  {
    if |m.rest| > 1 {
      assert Linked(m.rest[0], m.rest[0 + 1]);
      hide WellFormed;
      assert m.piping ==> PipeSource(m) == NextSource(m);
    }
  }

  /** The executor's state after a `cd`. */
  ghost function ChdirMachine(m: Machine): Machine
    requires |m.rest| > 1 && m.rest[0].Chdir? && m.rest[0].dir.Some?
  {
    m.(rest := m.rest[2..], cwd := JoinPath(m.cwd, m.rest[0].dir.value))
  }

  lemma LoopChdir(m: Machine, exits: Exits)
    requires GoodMachine(m) && MidGroup(m) && WellFormed(m.rest) && m.rest[0].Chdir?
    ensures if |m.rest| == 1 || m.rest[0].dir.None? then !Loop(m, exits).0.Status? && Loop(m, exits).1 == m.launches
            else
              && GoodMachine(ChdirMachine(m)) && MidGroup(ChdirMachine(m)) && WellFormed(ChdirMachine(m).rest)
              && |ChdirMachine(m).rest| < |m.rest| && ChdirMachine(m).launches == m.launches
              && Loop(m, exits) == Loop(ChdirMachine(m), exits)
  {
    if |m.rest| > 1 {
      assert Linked(m.rest[0], m.rest[0 + 1]);
      WellFormedRest(m.rest);
      hide WellFormed;
    }
  }

  lemma FirstOperand(nodes: seq<Node>)
    requires WellFormed(nodes)
    ensures nodes != [] && (nodes[0].Command? || nodes[0].Chdir?)
  {
    WellFormedAlternates(nodes);
  }

  lemma NothingRaisesRest(nodes: seq<Node>)
    requires NothingRaises(nodes) && |nodes| > 2
    ensures NothingRaises(nodes[2..])
  {
    assert forall i :: 0 <= i < |nodes| - 2 ==> nodes[2..][i] == nodes[i + 2];
  }

  lemma AlignedAfterCommand(m: Machine, to: Targets, s: ShellState, exits: Exits)
    requires Aligned(m, s) && WellFormed(m.rest) && m.rest[0].Command? && (m.piping ==> TakesPipe(m.rest[0]))
    requires to == NodeTargets(m.rest[0])
    ensures var t := RunOperand(m.rest[0], to, m.piping, s, exits);
            && t.status == exits(|m.launches|) && t.processes == Processes(NextLaunches(m))
            && (|m.rest| > 1 ==> Aligned(NextMachine(m), t))
  {
    ProcessesMore(m.launches, LaunchOf(m.rest[0], NextSource(m), m.cwd));
    if |m.rest| > 1 {
      NextMachineParts(m);
    }
    hide WellFormed, Processes;
  }

  lemma AlignedAfterChdir(m: Machine, to: Targets, s: ShellState, exits: Exits)
    requires Aligned(m, s) && |m.rest| > 1 && m.rest[0].Chdir? && m.rest[0].dir.Some? && !m.piping
    ensures Aligned(ChdirMachine(m), RunOperand(m.rest[0], to, false, s, exits))
  {
  }

  /** If the list is plain, the loop does what the shell does, from any point at which the two are aligned. */
  lemma {:induction false} PlainAgrees(m: Machine, ts: seq<Targets>, s: ShellState, exits: Exits)
    requires WellFormed(m.rest) && |ts| == |m.rest| && NothingRaises(m.rest) && Plain(m.rest, ts, m.piping)
    requires Aligned(m, s)
    ensures Observed(Loop(m, exits)) == Answer(ScanList(m.rest, ts, false, m.piping, s, exits))
    decreases |m.rest|
  {
    hide Loop, NextLaunches, Processes;
    var nodes := m.rest;
    FirstOperand(nodes);
    assert nodes[0].Chdir? ==> |nodes| > 1 && nodes[0].dir.Some?;
    assert nodes[0].Command? ==> ts[0] == NodeTargets(nodes[0]);
    var t := RunOperand(nodes[0], ts[0], m.piping, s, exits);
    if |nodes| > 1 {
      WellFormedAlternates(nodes);
      WellFormedRest(nodes);
      NothingRaisesRest(nodes);
      AlternatesRest(nodes);
      PlainStep(nodes, ts, m.piping);
    }
    hide WellFormed, NothingRaises, PipesPlain, OneWay, OnlyListOp, Alternates, Recorded;
    if nodes[0].Chdir? {
      LoopChdir(m, exits);
      AlignedAfterChdir(m, ts[0], s, exits);
      hide Aligned, RunOperand;
      PlainAgrees(ChdirMachine(m), ts[2..], t, exits);
    } else {
      LoopCommand(m, exits);
      AlignedAfterCommand(m, ts[0], s, exits);
      hide Aligned, RunOperand;
      if |nodes| > 1 {
        if nodes[1].Pipe? || Proceeds(nodes[1], t.status) {
          PlainAgrees(NextMachine(m), ts[2..], t, exits);
        } else {
          SkippedToTheEnd(nodes[2..], ts[2..], nodes[1], false, t, exits);
        }
      }
    }
  }

  // ---------- and otherwise it does not ----------

  lemma {:induction false} LoopKeepsLaunches(m: Machine, exits: Exits)
    requires GoodMachine(m)
    ensures m.launches <= Loop(m, exits).1
    decreases |m.rest|
  {
    if |m.rest| > 1 && m.rest[0].Command? && !(m.piping && m.piped == []) {
      var source := if m.piping then PipeSource(m) else FileSource(m.rest[0]);
      var launches, piped := m.launches + [LaunchOf(m.rest[0], source, m.cwd)], m.piped + [|m.launches|];
      LoopKeepsLaunches(Machine(m.rest[2..], true, piped, m.cwd, launches), exits);
      LoopKeepsLaunches(Machine(m.rest[2..], m.piping, piped, m.cwd, launches), exits);
      LoopKeepsLaunches(Machine(m.rest[2..], false, [], m.cwd, launches), exits);
    } else if |m.rest| > 1 && m.rest[0].Chdir? && m.rest[0].dir.Some? {
      LoopKeepsLaunches(m.(rest := m.rest[2..], cwd := JoinPath(m.cwd, m.rest[0].dir.value)), exits);
    }
  }

  lemma {:induction false} ScanKeepsProcesses(nodes: seq<Node>, ts: seq<Targets>, skipping: bool, feeding: bool,
                                              s: ShellState, exits: Exits)
    requires |ts| == |nodes|
    ensures s.processes <= ScanList(nodes, ts, skipping, feeding, s, exits).processes
    decreases |nodes|
  {
    hide Skips;
    if |nodes| > 2 {
      var t := if skipping then s else RunOperand(nodes[0], ts[0], feeding, s, exits);
      ScanKeepsProcesses(nodes[2..], ts[2..], Skips(nodes[1], skipping, t), nodes[1].Pipe?, t, exits);
    }
  }

  /** What the loop launches next is the next command, and reads from a pipe if the loop is in one. */
  lemma {:induction false} LoopLaunchesNext(m: Machine, exits: Exits)
    requires GoodMachine(m) && MidGroup(m) && WellFormed(m.rest) && NothingRaises(m.rest)
    ensures var l, n := Processes(Loop(m, exits).1), |m.launches|;
            && |l| > n && (m.piping ==> l[n].stdin.FromProcess?)
            && (m.rest[0].Command? ==> l[n].targets == NodeTargets(m.rest[0]))
    decreases |m.rest|
  {
    hide WellFormed, GoodMachine, MidGroup;
    FirstOperand(m.rest);
    assert m.rest[0].Chdir? ==> m.rest[0].dir.Some? && |m.rest| > 1;
    if m.rest[0].Chdir? {
      LoopChdir(m, exits);
      NothingRaisesRest(m.rest);
      LoopLaunchesNext(ChdirMachine(m), exits);
    } else {
      CommandLaunchesNext(m, exits);
    }
  }

  lemma CommandLaunchesNext(m: Machine, exits: Exits)
    requires GoodMachine(m) && MidGroup(m) && WellFormed(m.rest) && m.rest[0].Command?
    ensures var l, n := Processes(Loop(m, exits).1), |m.launches|;
            |l| > n && (m.piping ==> l[n].stdin.FromProcess?) && l[n].targets == NodeTargets(m.rest[0])
  {
    LoopCommand(m, exits);
    var launch := LaunchOf(m.rest[0], NextSource(m), m.cwd);
    assert m.piping ==> launch.stdin.FromProcess?;
    assert ProcessOf(launch).targets == NodeTargets(m.rest[0]);
    if |m.rest| > 1 {
      NextMachineParts(m);
    }
    hide WellFormed, Loop, MidGroup, GoodMachine, LaunchOf, NextMachine, NodeTargets;
    if |m.rest| > 1 {
      LoopKeepsLaunches(NextMachine(m), exits);
    }
    PrefixAt(m.launches, launch, Loop(m, exits).1);
  }

  lemma PrefixAt<T>(s: seq<T>, x: T, l: seq<T>)
    requires s + [x] <= l
    ensures |l| > |s| && l[|s|] == x
  {
    assert (s + [x])[|s|] == x;
  }

  /** What the shell creates next; it reads from a pipe only if it follows one directly and has no input of its own. */
  lemma {:induction false} ShellCreatesNext(nodes: seq<Node>, ts: seq<Targets>, feeding: bool, s: ShellState,
                                            exits: Exits)
    requires WellFormed(nodes) && |ts| == |nodes| && NothingRaises(nodes)
    ensures var l, n := ScanList(nodes, ts, false, feeding, s, exits).processes, |s.processes|;
            && |l| > n && (l[n].stdin.FromProcess? ==> feeding && TakesPipe(nodes[0]))
            && (nodes[0].Command? ==> l[n].targets == ts[0])
    decreases |nodes|
  {
    hide NodeTargets, ProcCwd;
    FirstOperand(nodes);
    var t := RunOperand(nodes[0], ts[0], feeding, s, exits);
    if nodes[0].Chdir? {
      WellFormedAlternates(nodes);
      assert |nodes| > 1;
      WellFormedRest(nodes);
      NothingRaisesRest(nodes);
      hide WellFormed, NothingRaises;
      assert nodes[1].And? && !Skips(nodes[1], false, t);
      ShellCreatesNext(nodes[2..], ts[2..], false, t, exits);
    } else if |nodes| > 2 {
      hide WellFormed, NothingRaises, Skips;
      ScanKeepsProcesses(nodes[2..], ts[2..], Skips(nodes[1], false, t), nodes[1].Pipe?, t, exits);
    }
  }

  /** A later operator of the other kind makes the shell go on where this executor has stopped. */
  lemma {:induction false} ShellGoesOn(nodes: seq<Node>, ts: seq<Targets>, op: Node, feeding: bool, s: ShellState,
                                       exits: Exits)
    requires WellFormed(nodes) && |ts| == |nodes| && NothingRaises(nodes) && !OnlyListOp(nodes, op)
    requires IsListOp(op) && !Proceeds(op, s.status)
    ensures |ScanList(nodes, ts, true, feeding, s, exits).processes| > |s.processes|
    decreases |nodes|
  {
    WellFormedAlternates(nodes);
    var i :| 0 <= i < |nodes| && IsListOp(nodes[i]) && nodes[i] != op;
    assert i >= 1 && (nodes[1].Pipe? || IsListOp(nodes[1]));
    WellFormedRest(nodes);
    NothingRaisesRest(nodes);
    if nodes[1].Pipe? || nodes[1] == op {
      assert nodes[2..][i - 2] == nodes[i];
      ShellGoesOn(nodes[2..], ts[2..], op, nodes[1].Pipe?, s, exits);
    } else {
      assert Proceeds(nodes[1], s.status);
      ShellCreatesNext(nodes[2..], ts[2..], false, s, exits);
    }
  }

  /** Only the statuses of processes still to be launched matter. */
  lemma {:induction false} LoopLooksAhead(m: Machine, e: Exits, f: Exits)
    requires GoodMachine(m) && MidGroup(m) && WellFormed(m.rest)
    requires forall k: nat :: k >= |m.launches| ==> e(k) == f(k)
    ensures Loop(m, e) == Loop(m, f)
    decreases |m.rest|
  {
    hide WellFormed, GoodMachine, MidGroup, ChdirMachine, NextMachine, NextLaunches;
    FirstOperand(m.rest);
    if m.rest[0].Chdir? {
      LoopChdir(m, e);
      LoopChdir(m, f);
      hide Loop;
      if |m.rest| > 1 && m.rest[0].dir.Some? {
        LoopLooksAhead(ChdirMachine(m), e, f);
      } else {
        ChdirRaises(m, e, f);
      }
    } else {
      LoopCommand(m, e);
      LoopCommand(m, f);
      hide Loop;
      if |m.rest| > 1 {
        NextMachineParts(m);
        LoopLooksAhead(NextMachine(m), e, f);
      }
    }
  }

  lemma ChdirRaises(m: Machine, e: Exits, f: Exits)
    requires GoodMachine(m) && m.rest != [] && m.rest[0].Chdir? && (|m.rest| == 1 || m.rest[0].dir.None?)
    ensures Loop(m, e) == Loop(m, f)
  {
  }

  lemma {:induction false} ScanLooksAhead(nodes: seq<Node>, ts: seq<Targets>, skipping: bool, feeding: bool,
                                          s: ShellState, e: Exits, f: Exits)
    requires |ts| == |nodes| && forall k: nat :: k >= |s.processes| ==> e(k) == f(k)
    ensures ScanList(nodes, ts, skipping, feeding, s, e) == ScanList(nodes, ts, skipping, feeding, s, f)
    decreases |nodes|
  {
    hide Skips;
    if |nodes| > 2 {
      var t := if skipping then s else RunOperand(nodes[0], ts[0], feeding, s, e);
      ScanLooksAhead(nodes[2..], ts[2..], Skips(nodes[1], skipping, t), nodes[1].Pipe?, t, e, f);
    }
  }

  ghost function Proceeding(op: Node): int {
    if op.Or? then 1 else 0
  }

  ghost function Override(exits: Exits, n: nat, status: int): Exits {
    (k: nat) => if k == n then status else exits(k)
  }

  /** After the next command the run goes on as from there, once that command's status has been set. */
  lemma GoOn(m: Machine, ts: seq<Targets>, s: ShellState, exits: Exits)
    requires Aligned(m, s) && WellFormed(m.rest) && |ts| == |m.rest| > 1 && m.rest[0].Command?
    requires (m.piping ==> TakesPipe(m.rest[0])) && ts[0] == NodeTargets(m.rest[0])
    ensures var status := Proceeding(m.rest[1]);
            var t := RunOperand(m.rest[0], ts[0], m.piping, s, (_: nat) => status);
            var e := Override(exits, |m.launches|, status);
            && Aligned(NextMachine(m), t) && NextMachine(m).rest == m.rest[2..]
            && Loop(m, e) == Loop(NextMachine(m), exits)
            && ScanList(m.rest, ts, false, m.piping, s, e)
               == ScanList(m.rest[2..], ts[2..], false, NextMachine(m).piping, t, exits)
  {
    var nodes, status := m.rest, Proceeding(m.rest[1]);
    var e := Override(exits, |m.launches|, status);
    LoopProceeds(m, e);
    WellFormedAlternates(nodes);
    NextMachineParts(m);
    AlignedAfterCommand(m, ts[0], s, e);
    var t := RunOperand(nodes[0], ts[0], m.piping, s, e);
    assert t == RunOperand(nodes[0], ts[0], m.piping, s, (_: nat) => status);
    assert !Skips(nodes[1], false, t);
    hide WellFormed, Loop, Alternates, GoodMachine, MidGroup, NextMachine, NextLaunches, Processes, NodeTargets;
    hide RunOperand;
    LoopLooksAhead(NextMachine(m), e, exits);
    ScanLooksAhead(nodes[2..], ts[2..], false, nodes[1].Pipe?, t, e, exits);
  }

  lemma LoopProceeds(m: Machine, e: Exits)
    requires GoodMachine(m) && MidGroup(m) && WellFormed(m.rest) && |m.rest| > 1 && m.rest[0].Command?
    requires e(|m.launches|) == Proceeding(m.rest[1])
    ensures GoodMachine(NextMachine(m)) && Loop(m, e) == Loop(NextMachine(m), e)
  {
    WellFormedAlternates(m.rest);
    assert m.rest[1].Pipe? || IsListOp(m.rest[1]);
    LoopCommand(m, e);
    hide Loop, WellFormed, Alternates, GoodMachine, MidGroup;
  }

  /** With suitable exit statuses every `cd` that raises is reached. */
  lemma {:induction false} SomethingRaises(m: Machine) returns (exits: Exits)
    requires WellFormed(m.rest) && !NothingRaises(m.rest) && GoodMachine(m) && MidGroup(m)
    ensures !Loop(m, exits).0.Status?
    decreases |m.rest|
  {
    hide GoodMachine, MidGroup, NothingRaises, Proceeds, NextLaunches, LaunchOf;
    var nodes := m.rest;
    exits := (_: nat) => 0;
    FirstOperand(nodes);
    RaisesLater(nodes);
    if nodes[0].Chdir? {
      if |nodes| > 1 && nodes[0].dir.Some? {
        LoopChdir(m, exits);
        exits := SomethingRaises(ChdirMachine(m));
      }
      LoopChdir(m, exits);
    } else {
      NextMachineParts(m);
      var e := SomethingRaises(NextMachine(m));
      exits := Override(e, |m.launches|, Proceeding(nodes[1]));
      LoopProceeds(m, exits);
      hide WellFormed, Loop;
      LoopLooksAhead(NextMachine(m), exits, e);
    }
  }

  lemma RaisesLater(nodes: seq<Node>)
    requires WellFormed(nodes) && !NothingRaises(nodes)
    ensures nodes[0].Chdir? || |nodes| > 1
    ensures |nodes| > 1 ==> |nodes| > 2 && ((nodes[0].Chdir? && nodes[0].dir.None?) || !NothingRaises(nodes[2..]))
  {
    WellFormedAlternates(nodes);
    assert forall i :: 2 <= i < |nodes| ==> nodes[i] == nodes[2..][i - 2];
  }

  /** Every exit status leads to an answer if no `cd` raises. */
  lemma {:induction false} NothingIsRaised(m: Machine, exits: Exits)
    requires WellFormed(m.rest) && NothingRaises(m.rest) && GoodMachine(m) && MidGroup(m)
    ensures Loop(m, exits).0.Status?
    decreases |m.rest|
  {
    hide GoodMachine, MidGroup, Proceeds, NextLaunches, LaunchOf;
    var nodes := m.rest;
    FirstOperand(nodes);
    assert nodes[0].Chdir? ==> |nodes| > 1 && nodes[0].dir.Some?;
    if |nodes| > 2 {
      NothingRaisesRest(nodes);
    }
    hide NothingRaises;
    if nodes[0].Chdir? {
      LoopChdir(m, exits);
      WellFormedRest(nodes);
      hide Loop, WellFormed;
      NothingIsRaised(ChdirMachine(m), exits);
    } else {
      LoopCommand(m, exits);
      if |nodes| > 1 {
        NextMachineParts(m);
        WellFormedRest(nodes);
        hide Loop, WellFormed;
        NothingIsRaised(NextMachine(m), exits);
      }
    }
  }

  /** If the list is not plain, some exit statuses make the executor create other processes than the shell. */
  lemma {:induction false} NotPlainDisagrees(m: Machine, ts: seq<Targets>, s: ShellState) returns (exits: Exits)
    requires WellFormed(m.rest) && |ts| == |m.rest| && NothingRaises(m.rest) && !Plain(m.rest, ts, m.piping)
    requires Aligned(m, s)
    ensures Processes(Loop(m, exits).1) != ScanList(m.rest, ts, false, m.piping, s, exits).processes
    decreases |m.rest|
  {
    var nodes := m.rest;
    FirstOperand(nodes);
    if (m.piping && !TakesPipe(nodes[0])) || (nodes[0].Command? && ts[0] != NodeTargets(nodes[0])) {
      exits := (_: nat) => 0;
      LoopLaunchesNext(m, exits);
      ShellCreatesNext(nodes, ts, m.piping, s, exits);
    } else {
      NotPlainLater(nodes, ts, m.piping);
      hide Plain, NodeTargets, Processes, WellFormed;
      if nodes[0].Chdir? {
        exits := NotPlainAfterChdir(m, ts, s);
      } else if IsListOp(nodes[1]) && !OnlyListOp(nodes[2..], nodes[1]) {
        exits := ShellAlone(m, ts, s);
      } else {
        exits := NotPlainAfterCommand(m, ts, s);
      }
    }
  }

  lemma NotPlainLater(nodes: seq<Node>, ts: seq<Targets>, feeding: bool)
    requires WellFormed(nodes) && |ts| == |nodes| && !Plain(nodes, ts, feeding)
    requires (feeding ==> TakesPipe(nodes[0])) && (nodes[0].Command? ==> ts[0] == NodeTargets(nodes[0]))
    ensures |nodes| > 2
    ensures (nodes[0].Command? && IsListOp(nodes[1]) && !OnlyListOp(nodes[2..], nodes[1]))
            || !Plain(nodes[2..], ts[2..], nodes[1].Pipe?)
  {
    WellFormedAlternates(nodes);
    if |nodes| > 1 {
      PlainStep(nodes, ts, feeding);
    }
  }

  /** The executor stops after the next command, and the shell goes on. */
  lemma ShellAlone(m: Machine, ts: seq<Targets>, s: ShellState) returns (exits: Exits)
    requires WellFormed(m.rest) && NothingRaises(m.rest) && Aligned(m, s) && |ts| == |m.rest| > 2
    requires m.rest[0].Command? && (m.piping ==> TakesPipe(m.rest[0])) && ts[0] == NodeTargets(m.rest[0])
    requires IsListOp(m.rest[1]) && !OnlyListOp(m.rest[2..], m.rest[1])
    ensures Processes(Loop(m, exits).1) != ScanList(m.rest, ts, false, m.piping, s, exits).processes
  {
    var nodes := m.rest;
    exits := (_: nat) => 1 - Proceeding(nodes[1]);
    WellFormedRest(nodes);
    NothingRaisesRest(nodes);
    LoopCommand(m, exits);
    AlignedAfterCommand(m, ts[0], s, exits);
    var t := RunOperand(nodes[0], ts[0], m.piping, s, exits);
    assert !Proceeds(nodes[1], t.status);
    hide WellFormed, NothingRaises, Loop, Processes, OnlyListOp;
    ShellGoesOn(nodes[2..], ts[2..], nodes[1], false, t, exits);
  }

  lemma {:induction false} NotPlainAfterChdir(m: Machine, ts: seq<Targets>, s: ShellState) returns (exits: Exits)
    requires WellFormed(m.rest) && NothingRaises(m.rest) && Aligned(m, s) && |ts| == |m.rest| > 2
    requires m.rest[0].Chdir? && !m.piping && !Plain(m.rest[2..], ts[2..], m.rest[1].Pipe?)
    ensures Processes(Loop(m, exits).1) != ScanList(m.rest, ts, false, m.piping, s, exits).processes
    decreases |m.rest|, 0
  {
    var nodes := m.rest;
    WellFormedRest(nodes);
    NothingRaisesRest(nodes);
    assert nodes[1].And? && nodes[0].dir.Some?;
    var t := RunOperand(nodes[0], ts[0], false, s, (_: nat) => 0);
    AlignedAfterChdir(m, ts[0], s, (_: nat) => 0);
    hide WellFormed, NothingRaises, Plain, Processes;
    exits := NotPlainDisagrees(ChdirMachine(m), ts[2..], t);
    assert RunOperand(nodes[0], ts[0], false, s, exits) == t && !Skips(nodes[1], false, t);
    LoopChdir(m, exits);
  }

  lemma {:induction false} NotPlainAfterCommand(m: Machine, ts: seq<Targets>, s: ShellState) returns (exits: Exits)
    requires WellFormed(m.rest) && NothingRaises(m.rest) && Aligned(m, s) && |ts| == |m.rest| > 2
    requires m.rest[0].Command? && (m.piping ==> TakesPipe(m.rest[0])) && ts[0] == NodeTargets(m.rest[0])
    requires !Plain(m.rest[2..], ts[2..], m.rest[1].Pipe?)
    ensures Processes(Loop(m, exits).1) != ScanList(m.rest, ts, false, m.piping, s, exits).processes
    decreases |m.rest|, 0
  {
    var nodes := m.rest;
    WellFormedRest(nodes);
    NothingRaisesRest(nodes);
    NextMachineParts(m);
    var t := RunOperand(nodes[0], ts[0], m.piping, s, (_: nat) => Proceeding(nodes[1]));
    GoOn(m, ts, s, (_: nat) => 0);
    hide WellFormed, NothingRaises, Loop, Plain, Processes, NodeTargets, RunOperand, NextMachine;
    var e := NotPlainDisagrees(NextMachine(m), ts[2..], t);
    GoOn(m, ts, s, e);
    exits := Override(e, |m.launches|, Proceeding(nodes[1]));
  }

  // ---------- the exact conditions ----------

  ghost function Executed(nodes: seq<Node>, exits: Exits): (Outcome, seq<Launch>) {
    Loop(Machine(nodes, false, [], ".", []), exits)
  }

  /** Every run of a parsed pipeline ends with a status exactly if no `cd` is last or lacks its directory. */
  lemma AnswersIffNothingRaises(nodes: seq<Node>)
    requires WellFormed(nodes)
    ensures (forall exits: Exits :: Executed(nodes, exits).0.Status?) <==> NothingRaises(nodes)
  {
    var m := Machine(nodes, false, [], ".", []);
    hide WellFormed, NothingRaises, Loop;
    if NothingRaises(nodes) {
      forall exits: Exits
        ensures Executed(nodes, exits).0.Status?
      {
        NothingIsRaised(m, exits);
      }
    } else {
      var exits := SomethingRaises(m);
      assert !Executed(nodes, exits).0.Status?;
    }
  }

  ghost predicate AgreesWithShell(nodes: seq<Node>, ts: seq<Targets>)
    requires |ts| == |nodes|
  {
    forall exits: Exits :: Observed(Executed(nodes, exits)) == Answer(ShellList(nodes, ts, exits))
  }

  /**
   * For every pipeline that can be parsed, and any targets of its commands in the shell: the executor answers as the
   * shell does and creates the same processes, for all exit statuses, exactly if no `cd` raises, no pipe leads into a
   * `cd` or into a command with its own input, no operator after a command is followed later by the other one, and the
   * targets are those the nodes record.
   */
  lemma AgreesIffPlain(nodes: seq<Node>, ts: seq<Targets>)
    requires WellFormed(nodes) && |ts| == |nodes|
    ensures AgreesWithShell(nodes, ts) <==>
              NothingRaises(nodes) && PipesPlain(nodes) && OneWay(nodes) && Recorded(nodes, ts)
  {
    var m := Machine(nodes, false, [], ".", []);
    WellFormedAlternates(nodes);
    forall exits: Exits
      ensures ScanList(nodes, ts, false, false, START, exits) == ShellList(nodes, ts, exits)
    {
      ScanIsShellList(nodes, ts, exits);
    }
    assert Plain(nodes, ts, false) <==> PipesPlain(nodes) && OneWay(nodes) && Recorded(nodes, ts);
    assert Aligned(m, START);
    hide WellFormed, NothingRaises, PipesPlain, OneWay, Recorded, Plain, Loop, ScanList, ShellList, Alternates;
    hide Processes;
    if !NothingRaises(nodes) {
      var exits := SomethingRaises(m);
      assert Observed(Executed(nodes, exits)) != Answer(ShellList(nodes, ts, exits));
    } else if Plain(nodes, ts, false) {
      forall exits: Exits
        ensures Observed(Executed(nodes, exits)) == Answer(ShellList(nodes, ts, exits))
      {
        PlainAgrees(m, ts, START, exits);
      }
    } else {
      var exits := NotPlainDisagrees(m, ts, START);
      assert Observed(Executed(nodes, exits)) != Answer(ShellList(nodes, ts, exits));
    }
  }
}
