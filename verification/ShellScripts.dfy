/**
 * Command lines of the grammar as a shell reads them: the redirections of a command from left to right, and the
 * phrases as an AND-OR list. When the executor does the same, and examples where it does not.
 */
module ShellScripts {
  import opened Basics
  import opened ShellParse
  import opened ShellGrammar
  import opened ShellRoundTrip
  import opened ShellRun
  import opened ShellLists

  // ---------- redirections ----------

  /** `2>&1` makes the standard error what the standard output is at this point. */
  ghost function Redirect(t: Targets, item: Item): Targets {
    match item
    case Output(file) => t.(out := File(file))
    case Error(file) => t.(err := File(file))
    case ErrorToOutput => t.(err := t.out)
    case _ => t
  }

  ghost function ReadItems(items: seq<Item>, start: Targets): Targets {
    if items == [] then start else Redirect(ReadItems(items[..|items| - 1], start), items[|items| - 1])
  }

  /** A pipe is connected before the redirections are performed. */
  ghost function PhraseTargets(p: Phrase, piped: bool): Targets {
    match p
    case Cmd(_, _, items) => ReadItems(items, Targets(if piped then PipeEnd else Out, Err))
    case Cd(_) => Targets(Out, Err)
  }

  ghost function InitTargets(init: seq<(Phrase, Node)>): seq<Targets> {
    if init == [] then [] else
      var (p, op) := init[|init| - 1];
      InitTargets(init[..|init| - 1]) + [PhraseTargets(p, op.Pipe?), Targets(Out, Err)]
  }

  ghost function ScriptTargets(sc: Script): seq<Targets> {
    InitTargets(sc.init) + [PhraseTargets(sc.last, false)]
  }

  lemma {:induction false} InitLengths(init: seq<(Phrase, Node)>)
    requires ValidInit(init)
    ensures |InitTargets(init)| == |InitNodes(init)|
  {
    if init != [] {
      InitLengths(init[..|init| - 1]);
    }
  }

  // ---------- the meaning of a command line ----------

  /** What a shell does with the phrases; a redirection without its file is a syntax error. */
  ghost function ShellScript(sc: Script, exits: Exits): Option<(Outcome, seq<Process>)>
    requires Valid(sc)
  {
    InitLengths(sc.init);
    if sc.trailing != [] then None else Some(Answer(ShellList(Denotes(sc), ScriptTargets(sc), exits)))
  }

  ghost predicate ScriptAgrees(sc: Script)
    requires Valid(sc)
  {
    forall exits: Exits :: ShellScript(sc, exits) == Some(Observed(Executed(Denotes(sc), exits)))
  }

  /** The standard error is not made to follow the standard output before that is redirected to a file. */
  ghost predicate ItemsInOrder(items: seq<Item>) {
    forall i, j :: 0 <= i < j < |items| && items[i].ErrorToOutput? ==> !items[j].Output?
  }

  ghost predicate PhraseInOrder(p: Phrase) {
    p.Cmd? ==> ItemsInOrder(p.items)
  }

  ghost predicate PhrasesInOrder(init: seq<(Phrase, Node)>) {
    forall i :: 0 <= i < |init| ==> PhraseInOrder(init[i].0)
  }

  ghost predicate ScriptInOrder(sc: Script) {
    PhrasesInOrder(sc.init) && PhraseInOrder(sc.last)
  }

  /** What the items read so far amount to, in a command whose outputs were both free. */
  ghost predicate ReadAs(n: Node, t: Targets, items: seq<Item>, out: Target)
    requires n.Command?
  {
    && !n.stdout.PIPE? && t.out == (if n.stdout.OutFile? then File(n.stdout.name) else out)
    && (n.stderr.InheritErr? ==> t.err == Err) && (n.stderr.ErrFile? ==> t.err == File(n.stderr.name))
    && (n.stderr.STDOUT? ==> t.err == if ItemsInOrder(items) then t.out else out)
    && (n.stderr.STDOUT? <==> exists i :: 0 <= i < |items| && items[i].ErrorToOutput?)
    && (!ItemsInOrder(items) ==> n.stdout.OutFile? && n.stderr.STDOUT?)
  }

  lemma {:induction false} ItemsRead(cmd: Node, items: seq<Item>, out: Target)
    requires cmd.Command? && cmd.stdout.InheritOut? && cmd.stderr.InheritErr? && AllFit(cmd, items)
    ensures ReadAs(WithAll(cmd, items), ReadItems(items, Targets(out, Err)), items, out)
  {
    if items != [] {
      var before, item := items[..|items| - 1], items[|items| - 1];
      ItemsRead(cmd, before, out);
      assert items == before + [item];
      hide ReadAs;
      ItemRead(WithAll(cmd, before), ReadItems(before, Targets(out, Err)), before, item, out);
    }
  }

  lemma ItemRead(n: Node, t: Targets, items: seq<Item>, item: Item, out: Target)
    requires n.Command? && ReadAs(n, t, items, out) && Fits(n, item)
    ensures ReadAs(With(n, item), Redirect(t, item), items + [item], out)
  {
    OrderMore(items, item);
    hide ItemsInOrder;
    assert (items + [item])[|items|] == item;
    assert forall i :: 0 <= i < |items| ==> (items + [item])[i] == items[i];
  }

  lemma OrderMore(items: seq<Item>, item: Item)
    ensures ItemsInOrder(items + [item]) <==>
              ItemsInOrder(items) && (item.Output? ==> !exists i :: 0 <= i < |items| && items[i].ErrorToOutput?)
  {
    var more := items + [item];
    if ItemsInOrder(more) {
      assert forall i, j :: 0 <= i < j < |items| ==> more[i] == items[i] && more[j] == items[j];
      assert forall i :: 0 <= i < |items| ==> more[i] == items[i] && more[|items|] == item;
    }
  }

  /** A command's targets in the shell are those its node records exactly if its redirections are in order. */
  lemma PhraseRecorded(p: Phrase, piped: bool)
    requires ValidPhrase(p) && p.Cmd? && (piped ==> PhraseNode(p).stdout.InheritOut?)
    ensures var n := if piped then PhraseNode(p).(stdout := PIPE) else PhraseNode(p);
            PhraseTargets(p, piped) == NodeTargets(n) <==> PhraseInOrder(p)
  {
    ItemsRead(NewCommand(p.name, EnvOf(p.env)), p.items, if piped then PipeEnd else Out);
    hide WithAll, AllFit, ReadItems, ItemsInOrder;
  }

  lemma RecordedConcat(a: seq<Node>, ta: seq<Targets>, b: seq<Node>, tb: seq<Targets>)
    requires |ta| == |a| && |tb| == |b|
    ensures Recorded(a + b, ta + tb) <==> Recorded(a, ta) && Recorded(b, tb)
  {
    hide NodeTargets;
    var n, t := a + b, ta + tb;
    if Recorded(n, t) {
      forall i | 0 <= i < |a| && a[i].Command?
        ensures ta[i] == NodeTargets(a[i])
      {
        assert n[i] == a[i] && t[i] == ta[i];
      }
      forall i | 0 <= i < |b| && b[i].Command?
        ensures tb[i] == NodeTargets(b[i])
      {
        assert n[|a| + i] == b[i] && t[|a| + i] == tb[i];
      }
    }
  }

  lemma InOrderMore(init: seq<(Phrase, Node)>)
    requires init != []
    ensures PhrasesInOrder(init) <==> PhrasesInOrder(init[..|init| - 1]) && PhraseInOrder(init[|init| - 1].0)
  {
    hide PhraseInOrder;
    assert init == init[..|init| - 1] + [init[|init| - 1]];
  }

  lemma {:induction false} InitRecorded(init: seq<(Phrase, Node)>)
    requires ValidInit(init)
    ensures |InitTargets(init)| == |InitNodes(init)|
    ensures Recorded(InitNodes(init), InitTargets(init)) <==> PhrasesInOrder(init)
  {
    InitLengths(init);
    if init != [] {
      var n := |init| - 1;
      var before := init[..n];
      var (p, op) := init[n];
      assert ValidInit(before) && ValidPhrase(p) && Joins(p, op);
      InitMore(before, p, op);
      assert before + [(p, op)] == init;
      OnePhrase(p, op);
      hide PhrasesInOrder, InitNodes, InitTargets, PhraseInOrder, Recorded, PhraseTargets, ValidPhrase, JoinedNode;
      hide ValidInit, Joins;
      InitLengths(before);
      InitRecorded(before);
      var nodes, ts := [JoinedNode(p, op), op], [PhraseTargets(p, op.Pipe?), Targets(Out, Err)];
      assert Recorded(nodes, ts) <==> PhraseInOrder(p);
      RecordedConcat(InitNodes(before), InitTargets(before), nodes, ts);
      InOrderMore(init);
    }
  }

  lemma OnePhrase(p: Phrase, op: Node)
    requires ValidPhrase(p) && Joins(p, op)
    ensures Recorded([JoinedNode(p, op), op], [PhraseTargets(p, op.Pipe?), Targets(Out, Err)]) <==> PhraseInOrder(p)
  {
    if p.Cmd? {
      PhraseRecorded(p, op.Pipe?);
    }
    hide ValidPhrase, PhraseNode, PhraseTargets, NodeTargets, PhraseInOrder;
    var nodes, ts := [JoinedNode(p, op), op], [PhraseTargets(p, op.Pipe?), Targets(Out, Err)];
    assert nodes[0] == JoinedNode(p, op) && ts[0] == PhraseTargets(p, op.Pipe?) && !nodes[1].Command?;
    assert p.Cd? ==> PhraseInOrder(p) by { CdInOrder(p); }
  }

  lemma CdInOrder(p: Phrase)
    ensures p.Cd? ==> PhraseInOrder(p)
  {
  }

  lemma ScriptRecorded(sc: Script)
    requires Valid(sc)
    ensures |ScriptTargets(sc)| == |Denotes(sc)|
    ensures Recorded(Denotes(sc), ScriptTargets(sc)) <==> ScriptInOrder(sc)
  {
    InitRecorded(sc.init);
    var n, t := [PhraseNode(sc.last)], [PhraseTargets(sc.last, false)];
    RecordedConcat(InitNodes(sc.init), InitTargets(sc.init), n, t);
    if sc.last.Cmd? {
      PhraseRecorded(sc.last, false);
    }
    hide InitNodes, InitTargets, ValidInit, PhraseTargets, NodeTargets;
    assert n[0] == PhraseNode(sc.last) && t[0] == PhraseTargets(sc.last, false);
  }

  /**
   * For every command line of the grammar: the executor answers as a shell does and creates the same processes, with
   * the same inputs, outputs, environments and directories, for all exit statuses, exactly if no `cd` raises, no pipe
   * leads into a `cd` or into a command with its own input, no operator after a command is followed later by the other
   * one, no `2>&1` stands before an output redirection of the same command, and no redirection lacks its file.
   */
  lemma ScriptAgreesIff(sc: Script)
    requires Valid(sc)
    ensures ScriptAgrees(sc) <==>
              && NothingRaises(Denotes(sc)) && PipesPlain(Denotes(sc)) && OneWay(Denotes(sc))
              && ScriptInOrder(sc) && sc.trailing == []
  {
    DenotesWellFormed(sc);
    ScriptRecorded(sc);
    AgreesIffPlain(Denotes(sc), ScriptTargets(sc));
    hide Valid, Denotes, ScriptTargets, WellFormed, NothingRaises, PipesPlain, OneWay, Recorded, ScriptInOrder;
    hide ShellList, Executed, Observed;
    if sc.trailing != [] {
      assert ShellScript(sc, (_: nat) => 0).None?;
    } else {
      forall exits: Exits
        ensures ShellScript(sc, exits) == Some(Answer(ShellList(Denotes(sc), ScriptTargets(sc), exits)))
      {
      }
      assert ScriptAgrees(sc) <==> AgreesWithShell(Denotes(sc), ScriptTargets(sc));
    }
  }

  /** In particular with only one of `&&` and `||`. */
  lemma OneKindAgrees(sc: Script, op: Node)
    requires Valid(sc) && sc.trailing == [] && ScriptInOrder(sc)
    requires NothingRaises(Denotes(sc)) && PipesPlain(Denotes(sc)) && OnlyListOp(Denotes(sc), op)
    ensures ScriptAgrees(sc)
  {
    var nodes := Denotes(sc);
    forall i | 0 < i < |nodes| && nodes[i - 1].Command? && IsListOp(nodes[i])
      ensures OnlyListOp(nodes[i + 1..], nodes[i])
    {
      var rest := nodes[i + 1..];
      assert forall j :: 0 <= j < |rest| ==> rest[j] == nodes[i + 1 + j];
    }
    ScriptAgreesIff(sc);
  }

  // ---------- examples ----------

  /** A word that may stand for a command. */
  ghost predicate IsWord(a: string) {
    EnvMatch(a).None? && a != "cd"
  }

  function Bare(a: string): Phrase {
    Cmd([], a, [])
  }

  /** A command without redirections. */
  function Proc(a: string, stdin: Source, out: Target, cwd: Option<string>): Process {
    Process([a], stdin, Targets(out, Err), map[], cwd)
  }

  lemma BareNode(a: string, op: Node)
    requires IsWord(a)
    ensures ValidPhrase(Bare(a)) && PhraseNode(Bare(a)) == NewCommand(a, map[]) && PhraseTokens(Bare(a)) == [a]
    ensures PhraseTargets(Bare(a), false) == Targets(Out, Err) && PhraseTargets(Bare(a), true) == Targets(PipeEnd, Err)
    ensures (op.Pipe? || op.And? || op.Or?) ==> Joins(Bare(a), op)
  {
  }

  lemma Regroup<T>(a: seq<T>, b: seq<T>, c: seq<T>, d: seq<T>, e: seq<T>)
    ensures [] + a + [] == a && [] + a + b + c + [] == a + b + c && [] + a + b + c + d + e + [] == a + b + c + d + e
    ensures [] + a == a
  {
  }

  lemma FiveInARow<T>(a: T, b: T, c: T, d: T, e: T)
    ensures [a, b] + [c, d] + [e] == [a, b, c, d, e]
  {
  }

  lemma OnePhraseScript(p: Phrase)
    requires ValidPhrase(p)
    ensures var sc := Script([], p, []);
            && Valid(sc) && Denotes(sc) == [PhraseNode(p)] && Tokens(sc) == PhraseTokens(p)
            && ScriptTargets(sc) == [PhraseTargets(p, false)]
  {
    Regroup(PhraseTokens(p), [], [], [], []);
    hide ValidPhrase, PhraseNode, PhraseTokens, PhraseTargets;
  }

  lemma InitMore(init: seq<(Phrase, Node)>, p: Phrase, op: Node)
    requires ValidInit(init) && ValidPhrase(p) && Joins(p, op)
    ensures var more := init + [(p, op)];
            && ValidInit(more) && InitNodes(more) == InitNodes(init) + [JoinedNode(p, op), op]
            && InitTokens(more) == InitTokens(init) + PhraseTokens(p) + [OperatorToken(op)]
            && InitTargets(more) == InitTargets(init) + [PhraseTargets(p, op.Pipe?), Targets(Out, Err)]
  {
    hide ValidPhrase, PhraseNode, PhraseTokens, PhraseTargets, Joins, JoinedNode;
    assert (init + [(p, op)])[..|init|] == init;
  }

  lemma NoPhrases()
    ensures ValidInit([]) && InitNodes([]) == [] && InitTokens([]) == [] && InitTargets([]) == []
  {
  }

  lemma NothingInFront(p: Phrase, op: Node)
    requires ValidPhrase(p) && Joins(p, op)
    ensures var init := [(p, op)];
            && ValidInit(init) && InitNodes(init) == [JoinedNode(p, op), op]
            && InitTokens(init) == [] + PhraseTokens(p) + [OperatorToken(op)]
            && InitTargets(init) == [PhraseTargets(p, op.Pipe?), Targets(Out, Err)]
  {
    hide ValidPhrase, PhraseNode, PhraseTokens, PhraseTargets, Joins, JoinedNode, OperatorToken;
    hide ValidInit, InitNodes, InitTokens, InitTargets;
    NoPhrases();
    InitMore([], p, op);
    var none: seq<(Phrase, Node)> := [];
    assert none + [(p, op)] == [(p, op)];
  }

  lemma TwoPhraseScript(p: Phrase, op: Node, q: Phrase)
    requires ValidPhrase(p) && Joins(p, op) && ValidPhrase(q)
    ensures var sc := Script([(p, op)], q, []);
            && Valid(sc) && Denotes(sc) == [JoinedNode(p, op), op, PhraseNode(q)]
            && Tokens(sc) == PhraseTokens(p) + [OperatorToken(op)] + PhraseTokens(q)
            && ScriptTargets(sc) == [PhraseTargets(p, op.Pipe?), Targets(Out, Err), PhraseTargets(q, false)]
  {
    NothingInFront(p, op);
    Regroup(PhraseTokens(p), [OperatorToken(op)], PhraseTokens(q), [], []);
    hide ValidPhrase, PhraseNode, PhraseTokens, PhraseTargets, Joins, JoinedNode, ValidInit, InitNodes, InitTargets;
    hide InitTokens, OperatorToken;
  }

  lemma ThreePhraseScript(p: Phrase, op: Node, q: Phrase, op': Node, r: Phrase)
    requires ValidPhrase(p) && Joins(p, op) && ValidPhrase(q) && Joins(q, op') && ValidPhrase(r)
    ensures var sc := Script([(p, op), (q, op')], r, []);
            && Valid(sc) && Denotes(sc) == [JoinedNode(p, op), op, JoinedNode(q, op'), op', PhraseNode(r)]
            && Tokens(sc)
               == PhraseTokens(p) + [OperatorToken(op)] + PhraseTokens(q) + [OperatorToken(op')] + PhraseTokens(r)
            && ScriptTargets(sc) == [PhraseTargets(p, op.Pipe?), Targets(Out, Err),
                                     PhraseTargets(q, op'.Pipe?), Targets(Out, Err), PhraseTargets(r, false)]
  {
    NothingInFront(p, op);
    InitMore([(p, op)], q, op');
    assert [(p, op)] + [(q, op')] == [(p, op), (q, op')];
    Regroup(PhraseTokens(p), [OperatorToken(op)], PhraseTokens(q), [OperatorToken(op')], PhraseTokens(r));
    FiveInARow(JoinedNode(p, op), op, JoinedNode(q, op'), op', PhraseNode(r));
    FiveInARow(PhraseTargets(p, op.Pipe?), Targets(Out, Err), PhraseTargets(q, op'.Pipe?), Targets(Out, Err),
               PhraseTargets(r, false));
    hide ValidPhrase, PhraseNode, PhraseTokens, PhraseTargets, Joins, JoinedNode, ValidInit, InitNodes, InitTargets;
    hide InitTokens, OperatorToken;
  }

  /** The first command of a list, in the executor. */
  lemma Start(nodes: seq<Node>, exits: Exits)
    requires |nodes| > 1 && nodes[0].Command? && nodes[0].stdin.None? && (nodes[1].Pipe? || IsListOp(nodes[1]))
    ensures var l := [LaunchOf(nodes[0], InheritIn, ".")];
            && Processes(l) == [ProcessOf(l[0])]
            && Executed(nodes, exits)
               == if nodes[1].Pipe? then Loop(Machine(nodes[2..], true, [0], ".", l), exits)
                  else if Proceeds(nodes[1], exits(0)) then Loop(Machine(nodes[2..], false, [], ".", l), exits)
                  else (Status(exits(0)), l)
  {
    var empty: seq<nat> := [];
    var none: seq<Launch>, l := [], LaunchOf(nodes[0], InheritIn, ".");
    assert none + [l] == [l] && empty + [0] == [0] && PipedStatus([0], exits) == exits(0);
    hide LaunchOf, ProcessOf;
  }

  /** A last command after a pipe, in the executor. */
  lemma PipeEnds(b: Node, cwd: string, first: Launch, exits: Exits)
    requires b.Command? && first.stdout.PIPE?
    ensures var last := LaunchOf(b, FromProcess(0), cwd);
            && Loop(Machine([b], true, [0], cwd, [first]), exits) == (Status(exits(1)), [first, last])
            && Processes([first, last]) == [ProcessOf(first), ProcessOf(last)]
  {
    var zero: seq<nat> := [0];
    assert zero + [1] == [0, 1] && PipedStatus([0, 1], exits) == exits(1);
    assert [first] + [LaunchOf(b, FromProcess(0), cwd)] == [first, LaunchOf(b, FromProcess(0), cwd)];
  }

  /** A list of three operands, in the shell. */
  lemma Five(nodes: seq<Node>, ts: seq<Targets>, exits: Exits)
    requires |nodes| == |ts| == 5 && (nodes[0].Command? || nodes[0].Chdir?) && (nodes[2].Command? || nodes[2].Chdir?)
    requires nodes[4].Command? && (nodes[1].Pipe? || IsListOp(nodes[1])) && IsListOp(nodes[3])
    ensures var t := RunOperand(nodes[0], ts[0], false, START, exits);
            var skip := Skips(nodes[1], false, t);
            var u := if skip then t else RunOperand(nodes[2], ts[2], nodes[1].Pipe?, t, exits);
            ShellList(nodes, ts, exits)
            == if Proceeds(nodes[3], u.status) then RunOperand(nodes[4], ts[4], false, u, exits) else u
  {
    assert Alternates(nodes);
    ScanIsShellList(nodes, ts, exits);
    hide RunOperand, Alternates, ShellList;
    var t := RunOperand(nodes[0], ts[0], false, START, exits);
    var skip := Skips(nodes[1], false, t);
    assert ScanList(nodes, ts, false, false, START, exits)
           == ScanList(nodes[2..], ts[2..], skip, nodes[1].Pipe?, t, exits);
    var rest, others := nodes[2..], ts[2..];
    assert rest[2..] == [nodes[4]] && others[2..] == [ts[4]];
    var u := if skip then t else RunOperand(nodes[2], ts[2], nodes[1].Pipe?, t, exits);
    assert ScanList(rest, others, skip, nodes[1].Pipe?, t, exits)
           == ScanList([nodes[4]], [ts[4]], !Proceeds(nodes[3], u.status), false, u, exits);
  }

  /** A bare command that is not fed by a pipe, in the shell. */
  lemma WordRuns(a: string, to: Targets, s: ShellState, exits: Exits)
    ensures RunOperand(NewCommand(a, map[]), to, false, s, exits)
            == ShellState(exits(|s.processes|), s.cwd,
                          s.processes + [Process([a], InheritIn, to, map[], ProcCwd(s.cwd))])
    ensures s.processes == [] ==> s.processes + [Process([a], InheritIn, to, map[], ProcCwd(s.cwd))]
                                  == [Process([a], InheritIn, to, map[], ProcCwd(s.cwd))]
  {
  }

  /** The first operator does not proceed and the second one does: the executor stops, the shell goes on. */
  lemma ShellSkips(nodes: seq<Node>, ts: seq<Targets>, a: string, c: string, exits: Exits)
    requires |nodes| == |ts| == 5 && nodes[0] == NewCommand(a, map[]) && nodes[4] == NewCommand(c, map[])
    requires (nodes[2].Command? || nodes[2].Chdir?) && IsListOp(nodes[1]) && IsListOp(nodes[3])
    requires ts[0] == ts[4] == Targets(Out, Err) && !Proceeds(nodes[1], exits(0)) && Proceeds(nodes[3], exits(0))
    ensures var first, last := Proc(a, InheritIn, Out, None), Proc(c, InheritIn, Out, None);
            && Observed(Executed(nodes, exits)) == (Status(exits(0)), [first])
            && Answer(ShellList(nodes, ts, exits)) == (Status(exits(1)), [first, last])
  {
    Start(nodes, exits);
    Five(nodes, ts, exits);
    WordRuns(a, ts[0], START, exits);
    var t := RunOperand(nodes[0], ts[0], false, START, exits);
    WordRuns(c, ts[4], t, exits);
    hide RunOperand, ShellList, Executed, Loop, NewCommand;
    var first, last := Proc(a, InheritIn, Out, None), Proc(c, InheritIn, Out, None);
    assert [first] + [last] == [first, last];
  }

  /** `a && b || c`, with a failing: the executor stops after a, the shell goes on to c. */
  lemma MixedExample(a: string, b: string, c: string, exits: Exits)
    requires IsWord(a) && IsWord(b) && IsWord(c) && exits(0) == 1
    ensures var sc, first := Script([(Bare(a), And), (Bare(b), Or)], Bare(c), []), Proc(a, InheritIn, Out, None);
            && Valid(sc) && Tokens(sc) == [a, "&&", b, "||", c]
            && Observed(Executed(Denotes(sc), exits)) == (Status(1), [first])
            && ShellScript(sc, exits) == Some((Status(exits(1)), [first, Proc(c, InheritIn, Out, None)]))
  {
    BareNode(a, And);
    BareNode(b, Or);
    BareNode(c, Or);
    hide ValidPhrase, PhraseNode, PhraseTargets, NewCommand;
    ThreePhraseScript(Bare(a), And, Bare(b), Or, Bare(c));
    var sc := Script([(Bare(a), And), (Bare(b), Or)], Bare(c), []);
    assert IsCommand(JoinedNode(Bare(b), Or)) by { NewCommandIs(b); }
    hide Denotes, ScriptTargets, Valid, Tokens, Executed, Observed, Answer, ShellList;
    ShellSkips(Denotes(sc), ScriptTargets(sc), a, c, exits);
  }

  ghost predicate IsCommand(n: Node) {
    n.Command?
  }

  lemma NewCommandIs(a: string)
    ensures IsCommand(NewCommand(a, map[]))
  {
  }

  lemma CdNode(d: string)
    requires d != "&&"
    ensures var p := Cd(Some(d));
            && ValidPhrase(p) && Joins(p, And) && PhraseNode(p) == Chdir(Some(d)) && PhraseTokens(p) == ["cd", d]
            && PhraseTargets(p, false) == Targets(Out, Err)
  {
  }

  /** `a || cd d && b`, with a succeeding: the executor stops after a, the shell goes on to b. */
  lemma CdAfterOrExample(a: string, d: string, b: string, exits: Exits)
    requires IsWord(a) && d != "&&" && IsWord(b) && exits(0) == 0
    ensures var sc, first := Script([(Bare(a), Or), (Cd(Some(d)), And)], Bare(b), []), Proc(a, InheritIn, Out, None);
            && Valid(sc) && Tokens(sc) == [a, "||", "cd", d, "&&", b]
            && Observed(Executed(Denotes(sc), exits)) == (Status(0), [first])
            && ShellScript(sc, exits) == Some((Status(exits(1)), [first, Proc(b, InheritIn, Out, None)]))
  {
    BareNode(a, Or);
    BareNode(b, Or);
    CdNode(d);
    hide ValidPhrase, PhraseNode, PhraseTargets, NewCommand, PhraseTokens;
    ThreePhraseScript(Bare(a), Or, Cd(Some(d)), And, Bare(b));
    var sc := Script([(Bare(a), Or), (Cd(Some(d)), And)], Bare(b), []);
    hide Denotes, ScriptTargets, Valid, Tokens, Executed, Observed, Answer, ShellList;
    ShellSkips(Denotes(sc), ScriptTargets(sc), a, b, exits);
  }

  lemma PipeIntoCd(nodes: seq<Node>, ts: seq<Targets>, a: string, d: string, b: string, exits: Exits)
    requires nodes == [Command(a, [a], None, PIPE, InheritErr, map[]), Pipe, Chdir(Some(d)), And,
                       NewCommand(b, map[])]
    requires |ts| == 5 && ts[0] == Targets(PipeEnd, Err) && ts[4] == Targets(Out, Err)
    ensures var first := Proc(a, InheritIn, PipeEnd, None);
            && Observed(Executed(nodes, exits))
               == (Status(exits(1)), [first, Proc(b, FromProcess(0), Out, ProcCwd(JoinPath(".", d)))])
            && Answer(ShellList(nodes, ts, exits)) == (Status(exits(1)), [first, Proc(b, InheritIn, Out, None)])
  {
    hide JoinPath;
    Start(nodes, exits);
    var l, rest := LaunchOf(nodes[0], InheritIn, "."), nodes[2..];
    assert rest == [Chdir(Some(d)), And, nodes[4]] && rest[2..] == [nodes[4]];
    assert Loop(Machine(rest, true, [0], ".", [l]), exits)
           == Loop(Machine([nodes[4]], true, [0], JoinPath(".", d), [l]), exits);
    PipeEnds(nodes[4], JoinPath(".", d), l, exits);
    hide Loop, Executed;
    Five(nodes, ts, exits);
    hide ShellList;
    var t := RunOperand(nodes[0], ts[0], false, START, exits);
    var u := RunOperand(nodes[2], ts[2], true, t, exits);
    WordRuns(b, ts[4], u, exits);
    var first, last := Proc(a, InheritIn, PipeEnd, None), Proc(b, InheritIn, Out, None);
    assert t.processes == [first] && [first] + [last] == [first, last];
  }

  /** `a | cd d && b`: the executor runs b in d with the output of a, the shell where it is and with its own input. */
  lemma CdInPipeExample(a: string, d: string, b: string, exits: Exits)
    requires IsWord(a) && d != "&&" && IsWord(b)
    ensures var sc := Script([(Bare(a), Pipe), (Cd(Some(d)), And)], Bare(b), []);
            var first := Proc(a, InheritIn, PipeEnd, None);
            && Valid(sc) && Tokens(sc) == [a, "|", "cd", d, "&&", b]
            && Observed(Executed(Denotes(sc), exits))
               == (Status(exits(1)), [first, Proc(b, FromProcess(0), Out, ProcCwd(JoinPath(".", d)))])
            && ShellScript(sc, exits) == Some((Status(exits(1)), [first, Proc(b, InheritIn, Out, None)]))
  {
    BareNode(a, Pipe);
    BareNode(b, Or);
    CdNode(d);
    hide ValidPhrase, PhraseNode, PhraseTargets, PhraseTokens;
    ThreePhraseScript(Bare(a), Pipe, Cd(Some(d)), And, Bare(b));
    var sc := Script([(Bare(a), Pipe), (Cd(Some(d)), And)], Bare(b), []);
    hide Denotes, ScriptTargets, Valid, Tokens, Executed, Observed, Answer, ShellList, JoinPath, ProcCwd;
    PipeIntoCd(Denotes(sc), ScriptTargets(sc), a, d, b, exits);
  }

  /** `a | b < f`: the executor feeds b the output of a, the shell the file. */
  lemma InputInPipeExample(a: string, b: string, f: string, exits: Exits)
    requires IsWord(a) && IsWord(b)
    ensures var sc, first := Script([(Bare(a), Pipe)], Cmd([], b, [Input(f)]), []), Proc(a, InheritIn, PipeEnd, None);
            && Valid(sc) && Tokens(sc) == [a, "|", b, "<", f]
            && Observed(Executed(Denotes(sc), exits)) == (Status(exits(1)), [first, Proc(b, FromProcess(0), Out, None)])
            && ShellScript(sc, exits) == Some((Status(exits(1)), [first, Proc(b, FromFile(f), Out, None)]))
  {
    BareNode(a, Pipe);
    var q := Cmd([], b, [Input(f)]);
    OneItem(b, Input(f));
    assert PhraseTokens(q) == [b, "<", f];
    hide ValidPhrase, PhraseNode, PhraseTargets;
    TwoPhraseScript(Bare(a), Pipe, q);
    var sc := Script([(Bare(a), Pipe)], q, []);
    hide Denotes, ScriptTargets, Valid, Tokens;
    var nodes, ts := Denotes(sc), ScriptTargets(sc);
    Start(nodes, exits);
    assert nodes[2..] == [nodes[2]] && ts[2..] == [ts[2]];
    PipeEnds(nodes[2], ".", LaunchOf(nodes[0], InheritIn, "."), exits);
    assert Alternates(nodes);
    ScanIsShellList(nodes, ts, exits);
    assert ScanList(nodes, ts, false, false, START, exits)
           == ScanList([nodes[2]], [ts[2]], false, true, RunOperand(nodes[0], ts[0], false, START, exits), exits);
    WordRuns(a, ts[0], START, exits);
    var first, second := Proc(a, InheritIn, PipeEnd, None), Proc(b, FromFile(f), Out, None);
    assert [first] + [second] == [first, second];
  }

  lemma OneItem(b: string, item: Item)
    requires IsWord(b) && Fits(NewCommand(b, map[]), item)
    ensures var p := Cmd([], b, [item]);
            && ValidPhrase(p) && PhraseNode(p) == With(NewCommand(b, map[]), item)
            && PhraseTokens(p) == [b] + ItemTokens(item)
            && PhraseTargets(p, false) == Redirect(Targets(Out, Err), item)
  {
    var items, none: seq<Item> := [item], [];
    var cmd := NewCommand(b, map[]);
    assert items[..|items| - 1] == none;
    assert WithAll(cmd, none) == cmd && AllFit(cmd, none) && EnvOf([]) == map[];
    assert ItemsTokens(items) == ItemsTokens(none) + ItemTokens(item);
    assert ReadItems(none, Targets(Out, Err)) == Targets(Out, Err);
    hide EnvMatch, Fits, With, Redirect, ItemTokens;
  }

  /** `a 2>&1 > f`: the executor sends the standard error to f as well, the shell leaves it where the output was. */
  lemma ErrorBeforeOutputExample(a: string, f: string, exits: Exits)
    requires IsWord(a)
    ensures var sc := Script([], Cmd([], a, [ErrorToOutput, Output(f)]), []);
            && Valid(sc) && Tokens(sc) == [a, "2>&1", ">", f]
            && Observed(Executed(Denotes(sc), exits))
               == (Status(exits(0)), [Process([a], InheritIn, Targets(File(f), File(f)), map[], None)])
            && ShellScript(sc, exits)
               == Some((Status(exits(0)), [Process([a], InheritIn, Targets(File(f), Out), map[], None)]))
  {
    var items := [ErrorToOutput, Output(f)];
    var p := Cmd([], a, items);
    assert items[..1] == [ErrorToOutput];
    OneItem(a, ErrorToOutput);
    assert PhraseTokens(p) == [a, "2>&1", ">", f];
    assert ValidPhrase(p) && PhraseNode(p) == NewCommand(a, map[]).(stderr := STDOUT, stdout := OutFile(f));
    assert PhraseTargets(p, false) == Targets(File(f), Out);
    hide ValidPhrase, PhraseNode, PhraseTargets, PhraseTokens;
    OnePhraseScript(p);
    var sc := Script([], p, []);
    hide Denotes, ScriptTargets, Valid, Tokens;
    OneCommand(Denotes(sc), ScriptTargets(sc), exits);
  }

  /** `a 2> f`: both send the standard error to f. */
  lemma ErrorToFileExample(a: string, f: string, exits: Exits)
    requires IsWord(a)
    ensures var sc := Script([], Cmd([], a, [Error(f)]), []);
            var p := Process([a], InheritIn, Targets(Out, File(f)), map[], None);
            && Valid(sc) && Tokens(sc) == [a, "2>", f]
            && Observed(Executed(Denotes(sc), exits)) == (Status(exits(0)), [p])
            && ShellScript(sc, exits) == Some((Status(exits(0)), [p]))
  {
    var p := Cmd([], a, [Error(f)]);
    OneItem(a, Error(f));
    assert PhraseTokens(p) == [a, "2>", f];
    hide ValidPhrase, PhraseNode, PhraseTargets, PhraseTokens;
    OnePhraseScript(p);
    var sc := Script([], p, []);
    hide Denotes, ScriptTargets, Valid, Tokens;
    OneCommand(Denotes(sc), ScriptTargets(sc), exits);
  }

  lemma OneCommand(nodes: seq<Node>, ts: seq<Targets>, exits: Exits)
    requires |nodes| == |ts| == 1 && nodes[0].Command? && nodes[0].stdin.None?
    ensures var n := nodes[0];
            && Observed(Executed(nodes, exits))
               == (Status(exits(0)), [Process(n.argv, InheritIn, NodeTargets(n), n.env, None)])
            && Answer(ShellList(nodes, ts, exits))
               == (Status(exits(0)), [Process(n.argv, InheritIn, ts[0], n.env, None)])
  {
    var empty: seq<nat> := [];
    assert empty + [0] == [0] && PipedStatus([0], exits) == exits(0);
    var l := LaunchOf(nodes[0], InheritIn, ".");
    assert [] + [l] == [l] && Processes([l]) == [ProcessOf(l)];
    assert LastListOp(nodes) == -1;
    var p := Process(nodes[0].argv, InheritIn, ts[0], nodes[0].env, None);
    assert START.processes + [p] == [p];
  }

  /** Mixing the operators is not enough to disagree: `cd d && a || b`. */
  lemma CdThenOrExample(d: string, a: string, b: string)
    requires d != "&&" && IsWord(a) && IsWord(b)
    ensures var sc := Script([(Cd(Some(d)), And), (Bare(a), Or)], Bare(b), []);
            Valid(sc) && Tokens(sc) == ["cd", d, "&&", a, "||", b] && ScriptAgrees(sc)
  {
    BareNode(a, Or);
    BareNode(b, Or);
    CdNode(d);
    hide ValidPhrase, PhraseNode, PhraseTargets;
    ThreePhraseScript(Cd(Some(d)), And, Bare(a), Or, Bare(b));
    var sc := Script([(Cd(Some(d)), And), (Bare(a), Or)], Bare(b), []);
    assert PhraseInOrder(Bare(a)) && PhraseInOrder(Bare(b)) && PhraseInOrder(Cd(Some(d)));
    hide PhraseInOrder;
    assert ScriptInOrder(sc);
    hide Denotes, ScriptTargets, Valid, Tokens, EnvMatch, IsWord, Bare, ScriptInOrder;
    PlainFive(Denotes(sc));
    ScriptAgreesIff(sc);
  }

  lemma PlainFive(nodes: seq<Node>)
    requires |nodes| == 5 && nodes[0].Chdir? && nodes[0].dir.Some? && nodes[1] == And && nodes[2].Command?
    requires nodes[3] == Or && nodes[4].Command?
    ensures NothingRaises(nodes) && PipesPlain(nodes) && OneWay(nodes)
  {
    assert nodes[3 + 1..] == [nodes[4]];
  }

  /** `cd d` alone is accepted, and raises when run. */
  lemma CdAtEndExample(d: string, exits: Exits)
    requires d != "&&"
    ensures Parse(["cd", d]) == Accepted([Chdir(Some(d))])
    ensures Executed([Chdir(Some(d))], exits) == (IndexError, [])
  {
    OnePhraseScript(Cd(Some(d)));
    ScriptAccepted(Script([], Cd(Some(d)), []));
  }

  /** So is `cd && a`. */
  lemma CdNowhereExample(a: string, exits: Exits)
    requires IsWord(a)
    ensures Parse(["cd", "&&", a]) == Accepted([Chdir(None), And, NewCommand(a, map[])])
    ensures Executed([Chdir(None), And, NewCommand(a, map[])], exits) == (TypeError, [])
  {
    BareNode(a, And);
    TwoPhraseScript(Cd(None), And, Bare(a));
    assert PhraseTokens(Cd(None)) == ["cd"] && PhraseNode(Cd(None)) == Chdir(None);
    assert ["cd"] + ["&&"] + [a] == ["cd", "&&", a];
    hide Parse, IsWord, EnvMatch, Tokens, Denotes, Valid;
    ScriptAccepted(Script([(Cd(None), And)], Bare(a), []));
  }
}
