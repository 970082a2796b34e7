/** The shape of parsed pipelines, and writing a pipeline back as tokens. */
module ShellRoundTrip {
  import opened Basics
  import opened ShellParse
  import opened ShellGrammar

  // ---------- well-formed pipelines ----------

  ghost predicate CommandOk(n: Node)
    requires n.Command?
  {
    && EnvMatch(n.name).None? && n.name != "cd"
    && n.argv != [] && n.argv[0] == n.name
    && (forall k :: 1 <= k < |n.argv| ==> !IsOperator(n.argv[k]))
    && (forall x :: x in n.env ==> IsName(x) && IsValue(n.env[x]))
  }

  /** What stands in an even place. */
  ghost predicate OperandOk(n: Node) {
    match n
    case Command(_, _, _, _, _, _) => CommandOk(n)
    case Chdir(dir) => dir != Some("&&")
    case _ => false
  }

  /** A `cd` is followed by nothing but `&&`; a command writes to a pipe exactly if a pipe follows. */
  ghost predicate Linked(n: Node, op: Node) {
    && (op.Pipe? || op.And? || op.Or?)
    && (n.Chdir? ==> op.And?)
    && (n.Command? ==> (n.stdout.PIPE? <==> op.Pipe?))
  }

  ghost predicate WellFormed(nodes: seq<Node>) {
    && |nodes| % 2 == 1
    && (forall i :: 0 <= i < |nodes| && i % 2 == 0 ==> OperandOk(nodes[i]))
    && (forall i :: 0 <= i < |nodes| - 1 && i % 2 == 0 ==> Linked(nodes[i], nodes[i + 1]))
    && (nodes[|nodes| - 1].Command? ==> !nodes[|nodes| - 1].stdout.PIPE?)
  }

  // ---------- what the parser returns is well-formed ----------

  lemma {:induction false} EnvOfWords(env: seq<string>)
    requires AllAssignments(env)
    ensures forall x :: x in EnvOf(env) ==> IsName(x) && IsValue(EnvOf(env)[x])
  {
    if env != [] {
      var n := |env| - 1;
      EnvOfWords(env[..n]);
      assert EnvMatch(env[n]).Some?;
    }
  }

  lemma WithOk(cmd: Node, item: Item)
    requires cmd.Command? && Fits(cmd, item) && CommandOk(cmd) && !cmd.stdout.PIPE?
    ensures CommandOk(With(cmd, item)) && !With(cmd, item).stdout.PIPE?
  {
    hide EnvMatch;
  }

  lemma {:induction false} ItemsOk(cmd: Node, items: seq<Item>)
    requires cmd.Command? && AllFit(cmd, items) && CommandOk(cmd) && !cmd.stdout.PIPE?
    ensures CommandOk(WithAll(cmd, items)) && !WithAll(cmd, items).stdout.PIPE?
  {
    if items != [] {
      hide CommandOk;
      ItemsOk(cmd, items[..|items| - 1]);
      WithOk(WithAll(cmd, items[..|items| - 1]), items[|items| - 1]);
    }
  }

  lemma PhraseOk(p: Phrase)
    requires ValidPhrase(p)
    ensures OperandOk(PhraseNode(p))
    ensures p.Cmd? ==> !PhraseNode(p).stdout.PIPE?
  {
    if p.Cmd? {
      EnvOfWords(p.env);
      ItemsOk(NewCommand(p.name, EnvOf(p.env)), p.items);
    }
  }

  lemma JoinedOk(p: Phrase, op: Node)
    requires ValidPhrase(p) && Joins(p, op)
    ensures OperandOk(JoinedNode(p, op)) && Linked(JoinedNode(p, op), op)
  {
    hide EnvMatch, PhraseNode, ValidPhrase;
    PhraseOk(p);
    assert OperandOk(PhraseNode(p)) ==> PhraseNode(p).Command? ==> CommandOk(PhraseNode(p));
  }

  lemma {:induction false} InitShape(init: seq<(Phrase, Node)>, i: nat)
    requires ValidInit(init) && i <= |init|
    ensures |InitNodes(init)| == 2 * |init|
    ensures i < |init| ==> InitNodes(init)[2 * i] == JoinedNode(init[i].0, init[i].1)
    ensures i < |init| ==> InitNodes(init)[2 * i + 1] == init[i].1
  {
    if init != [] {
      hide ValidPhrase, Joins, JoinedNode;
      var n := |init| - 1;
      var before := InitNodes(init[..n]);
      assert InitNodes(init) == before + [JoinedNode(init[n].0, init[n].1), init[n].1];
      hide InitNodes;
      InitShape(init[..n], if i < n then i else n);
      assert i < n ==> init[..n][i] == init[i];
    }
  }

  lemma DenotesWellFormed(s: Script)
    requires Valid(s)
    ensures WellFormed(Denotes(s))
  {
    hide InitNodes, ValidPhrase, PhraseNode, OperandOk, Linked, JoinedNode, Joins;
    var nodes := Denotes(s);
    InitShape(s.init, |s.init|);
    PhraseOk(s.last);
    forall i | 0 <= i < |nodes| && i % 2 == 0
      ensures OperandOk(nodes[i]) && (i < |nodes| - 1 ==> Linked(nodes[i], nodes[i + 1]))
    {
      if i < |nodes| - 1 {
        var k := i / 2;
        assert i == 2 * k && k < |s.init|;
        InitShape(s.init, k);
        JoinedOk(s.init[k].0, s.init[k].1);
        assert nodes[2 * k] == InitNodes(s.init)[2 * k] && nodes[2 * k + 1] == InitNodes(s.init)[2 * k + 1];
      }
    }
  }

  /**
   * What the executor relies on: nodes and operators alternate, a `cd` is last or followed by `&&`,
   * and a command's output is a pipe exactly if a pipe follows.
   */
  lemma ParsedIsWellFormed(tokens: seq<string>)
    requires Parse(tokens).Accepted?
    ensures WellFormed(Parse(tokens).nodes)
  {
    hide Parse, WellFormed, Valid;
    AcceptsExactlyTheGrammar(tokens, Parse(tokens).nodes);
    var s :| ScriptFor(s, tokens, Parse(tokens).nodes);
    DenotesWellFormed(s);
  }

  // ---------- writing a pipeline back ----------

  ghost function EnvTokens(env: map<string, string>): seq<string> {
    if env == map[] then [] else
      assert env.Keys != {};
      var x :| x in env;
      EnvTokens(env - {x}) + [x + "=" + env[x]]
  }

  lemma WordHasNoEquals(name: string, value: string)
    requires IsName(name)
    ensures EqualsAt(name + "=" + value) == |name|
  {
    var s := name + "=" + value;
    assert s[|name|] == '=';
    forall k | 0 <= k < |name|
      ensures s[k] != '='
    {
      assert IsWordChar(name[k]);
    }
  }

  lemma AssignmentToken(name: string, value: string)
    requires IsName(name) && IsValue(value)
    ensures EnvMatch(name + "=" + value) == Some((name, value))
  {
    WordHasNoEquals(name, value);
    var s := name + "=" + value;
    assert s[..|name|] == name && s[|name| + 1..] == value;
    assert !IsSpace(value[|value| - 1]);
  }

  lemma AddAssignment(ts: seq<string>, token: string, name: string, value: string)
    requires AllAssignments(ts) && EnvMatch(token) == Some((name, value))
    ensures AllAssignments(ts + [token]) && EnvOf(ts + [token]) == EnvOf(ts)[name := value]
  {
    hide EnvMatch;
    assert (ts + [token])[..|ts|] == ts;
  }

  lemma NoAssignments()
    ensures AllAssignments([]) && EnvOf([]) == map[]
  {
  }

  lemma {:induction false} EnvTokensRead(env: map<string, string>)
    requires forall x :: x in env ==> IsName(x) && IsValue(env[x])
    ensures AllAssignments(EnvTokens(env)) && EnvOf(EnvTokens(env)) == env
    decreases |env|
  {
    hide EnvMatch, IsName, IsValue, EnvOf, AllAssignments;
    if env == map[] {
      NoAssignments();
    } else {
      assert env.Keys != {};
      var x :| x in env && EnvTokens(env) == EnvTokens(env - {x}) + [x + "=" + env[x]];
      hide EnvTokens;
      EnvTokensRead(env - {x});
      AssignmentToken(x, env[x]);
      AddAssignment(EnvTokens(env - {x}), x + "=" + env[x], x, env[x]);
      assert (env - {x})[x := env[x]] == env;
    }
  }

  ghost function ArgItems(args: seq<string>): seq<Item> {
    if args == [] then [] else ArgItems(args[..|args| - 1]) + [Arg(args[|args| - 1])]
  }

  /** The redirections of a command; its standard output is written out only if it goes to a file. */
  ghost function Redirections(n: Node): seq<Item>
    requires n.Command?
  {
    (if n.stdin.Some? then [Input(n.stdin.value)] else []) +
    (if n.stdout.OutFile? then [Output(n.stdout.name)] else []) +
    (match n.stderr
     case InheritErr => []
     case STDOUT => [ErrorToOutput]
     case ErrFile(file) => [Error(file)])
  }

  ghost function PhraseOf(n: Node): Phrase
    requires n.Command? || n.Chdir?
    requires n.Command? ==> n.argv != []
  {
    match n
    case Command(name, argv, _, _, _, env) => Cmd(EnvTokens(env), name, ArgItems(argv[1..]) + Redirections(n))
    case Chdir(dir) => Cd(dir)
  }

  lemma AddItem(cmd: Node, items: seq<Item>, item: Item)
    requires cmd.Command? && AllFit(cmd, items) && Fits(WithAll(cmd, items), item)
    ensures AllFit(cmd, items + [item]) && WithAll(cmd, items + [item]) == With(WithAll(cmd, items), item)
  {
    assert (items + [item])[..|items|] == items;
  }

  lemma AddArg(cmd: Node, items: seq<Item>, a: string)
    requires cmd.Command? && AllFit(cmd, items) && !IsOperator(a)
    ensures AllFit(cmd, items + [Arg(a)])
    ensures var r := WithAll(cmd, items); WithAll(cmd, items + [Arg(a)]) == r.(argv := r.argv + [a])
  {
    hide AllFit, WithAll, IsOperator;
    AddItem(cmd, items, Arg(a));
  }

  lemma NoItems(cmd: Node)
    requires cmd.Command?
    ensures AllFit(cmd, []) && WithAll(cmd, []) == cmd && cmd.argv + [] == cmd.argv
  {
  }

  lemma {:induction false} ArgsRead(cmd: Node, args: seq<string>)
    requires cmd.Command? && forall a :: a in args ==> !IsOperator(a)
    ensures AllFit(cmd, ArgItems(args)) && WithAll(cmd, ArgItems(args)) == cmd.(argv := cmd.argv + args)
  {
    hide IsOperator, AllFit, WithAll;
    if args == [] {
      NoItems(cmd);
    } else {
      var n := |args| - 1;
      assert args == args[..n] + [args[n]];
      assert !IsOperator(args[n]) && forall a :: a in args[..n] ==> a in args;
      ArgsRead(cmd, args[..n]);
      AddArg(cmd, ArgItems(args[..n]), args[n]);
      assert cmd.argv + args[..n] + [args[n]] == cmd.argv + args;
    }
  }

  /** The command read back from its own tokens, apart from a pipe on its output. */
  ghost function Unpiped(n: Node): Node {
    if n.Command? && n.stdout.PIPE? then n.(stdout := InheritOut) else n
  }

  lemma PhraseRead(n: Node)
    requires OperandOk(n)
    ensures ValidPhrase(PhraseOf(n)) && PhraseNode(PhraseOf(n)) == Unpiped(n)
  {
    if n.Command? {
      EnvTokensRead(n.env);
      var start, args := NewCommand(n.name, n.env), n.argv[1..];
      forall a | a in args
        ensures !IsOperator(a)
      {
        var k :| 0 <= k < |args| && args[k] == a;
        assert n.argv[k + 1] == a;
      }
      ArgsRead(start, args);
      assert [n.name] + args == n.argv;
      RedirectionsRead(start, ArgItems(args), n);
    }
  }

  lemma RedirectionsRead(start: Node, items: seq<Item>, n: Node)
    requires n.Command? && start == NewCommand(n.name, n.env) && AllFit(start, items)
    requires WithAll(start, items) == start.(argv := n.argv)
    ensures AllFit(start, items + Redirections(n)) && WithAll(start, items + Redirections(n)) == Unpiped(n)
  {
    hide AllFit, WithAll;
    var all := items;
    if n.stdin.Some? {
      AddItem(start, all, Input(n.stdin.value));
      all := all + [Input(n.stdin.value)];
    }
    if n.stdout.OutFile? {
      AddItem(start, all, Output(n.stdout.name));
      all := all + [Output(n.stdout.name)];
    }
    if n.stderr.STDOUT? {
      AddItem(start, all, ErrorToOutput);
      all := all + [ErrorToOutput];
    } else if n.stderr.ErrFile? {
      AddItem(start, all, Error(n.stderr.name));
      all := all + [Error(n.stderr.name)];
    }
    assert all == items + Redirections(n);
  }

  ghost function ScriptOf(nodes: seq<Node>): Script
    requires WellFormed(nodes)
  {
    Script(seq(|nodes| / 2, i requires 0 <= i < |nodes| / 2 =>
             assert OperandOk(nodes[2 * i]); (PhraseOf(nodes[2 * i]), nodes[2 * i + 1])),
           assert OperandOk(nodes[|nodes| - 1]); PhraseOf(nodes[|nodes| - 1]), [])
  }

  /** A pipeline as tokens. */
  ghost function Unparse(nodes: seq<Node>): seq<string>
    requires WellFormed(nodes)
  {
    Tokens(ScriptOf(nodes))
  }

  lemma LinkRead(n: Node, op: Node)
    requires OperandOk(n) && Linked(n, op)
    ensures ValidPhrase(PhraseOf(n)) && Joins(PhraseOf(n), op) && JoinedNode(PhraseOf(n), op) == n
  {
    PhraseRead(n);
    hide ValidPhrase, PhraseNode;
  }

  lemma ScriptOfRead(nodes: seq<Node>)
    requires WellFormed(nodes)
    ensures Valid(ScriptOf(nodes)) && Denotes(ScriptOf(nodes)) == nodes
  {
    hide OperandOk, Linked, Joins, JoinedNode, PhraseOf, ValidPhrase, PhraseNode, InitNodes;
    var s, m := ScriptOf(nodes), |nodes| / 2;
    assert OperandOk(nodes[|nodes| - 1]);
    PhraseRead(nodes[|nodes| - 1]);
    forall i | 0 <= i < m
      ensures ValidPhrase(s.init[i].0) && Joins(s.init[i].0, s.init[i].1)
      ensures JoinedNode(s.init[i].0, s.init[i].1) == nodes[2 * i]
    {
      assert OperandOk(nodes[2 * i]) && Linked(nodes[2 * i], nodes[2 * i + 1]);
      LinkRead(nodes[2 * i], nodes[2 * i + 1]);
    }
    InitShape(s.init, m);
    forall j | 0 <= j < |nodes|
      ensures Denotes(s)[j] == nodes[j]
    {
      var k := j / 2;
      InitShape(s.init, k);
      assert j == 2 * k || j == 2 * k + 1;
    }
  }

  /** Nothing is lost: a well-formed pipeline, written as tokens, is parsed back to itself. */
  lemma ParseUnparse(nodes: seq<Node>)
    requires WellFormed(nodes)
    ensures Parse(Unparse(nodes)) == Accepted(nodes)
  {
    hide WellFormed, Parse, Tokens, Valid, ScriptOf;
    ScriptOfRead(nodes);
    ScriptAccepted(ScriptOf(nodes));
  }
}
