/** The language of the pipeline parser: a grammar of command lines, and what each denotes. */
module ShellGrammar {
  import opened Basics
  import opened ShellParse

  datatype Item = Arg(text: string) | Input(file: string) | Output(file: string) | Error(file: string) | ErrorToOutput

  /** A command with its environment assignments and its arguments and redirections in any order, or a `cd`. */
  datatype Phrase = Cmd(env: seq<string>, name: string, items: seq<Item>) | Cd(dir: Option<string>)

  /** Phrases joined by operators; `trailing` is a last redirection operator without its file, which has no effect. */
  datatype Script = Script(init: seq<(Phrase, Node)>, last: Phrase, trailing: seq<string>)

  // ---------- tokens ----------

  function ItemTokens(item: Item): seq<string> {
    match item
    case Arg(text) => [text]
    case Input(file) => ["<", file]
    case Output(file) => [">", file]
    case Error(file) => ["2>", file]
    case ErrorToOutput => ["2>&1"]
  }

  function ItemsTokens(items: seq<Item>): seq<string> {
    if items == [] then [] else ItemsTokens(items[..|items| - 1]) + ItemTokens(items[|items| - 1])
  }

  function PhraseTokens(p: Phrase): seq<string> {
    match p
    case Cmd(env, name, items) => env + [name] + ItemsTokens(items)
    case Cd(None) => ["cd"]
    case Cd(Some(dir)) => ["cd", dir]
  }

  function OperatorToken(op: Node): string {
    if op.Pipe? then "|" else if op.And? then "&&" else "||"
  }

  function InitTokens(init: seq<(Phrase, Node)>): seq<string> {
    if init == [] then [] else
      var (p, op) := init[|init| - 1];
      InitTokens(init[..|init| - 1]) + PhraseTokens(p) + [OperatorToken(op)]
  }

  function Tokens(s: Script): seq<string> {
    InitTokens(s.init) + PhraseTokens(s.last) + s.trailing
  }

  // ---------- meaning ----------

  ghost predicate AllAssignments(env: seq<string>) {
    forall t :: t in env ==> EnvMatch(t).Some?
  }

  /** Later assignments to the same name win. */
  ghost function EnvOf(env: seq<string>): map<string, string>
    requires AllAssignments(env)
  {
    if env == [] then map[] else
      var nv := EnvMatch(env[|env| - 1]).value;
      EnvOf(env[..|env| - 1])[nv.0 := nv.1]
  }

  predicate IsOperator(t: string) {
    t == ">" || t == "2>" || t == "2>&1" || t == "<" || t == "|" || t == "&&" || t == "||"
  }

  /** The item may follow the command so far: no stream is redirected twice. */
  ghost predicate Fits(cmd: Node, item: Item)
    requires cmd.Command?
  {
    match item
    case Arg(text) => !IsOperator(text)
    case Input(_) => cmd.stdin.None?
    case Output(_) => cmd.stdout.InheritOut?
    case Error(_) => cmd.stderr.InheritErr?
    case ErrorToOutput => cmd.stderr.InheritErr?
  }

  ghost function With(cmd: Node, item: Item): (r: Node)
    requires cmd.Command?
    ensures r.Command?
  {
    match item
    case Arg(text) => cmd.(argv := cmd.argv + [text])
    case Input(file) => cmd.(stdin := Some(file))
    case Output(file) => cmd.(stdout := OutFile(file))
    case Error(file) => cmd.(stderr := ErrFile(file))
    case ErrorToOutput => cmd.(stderr := STDOUT)
  }

  ghost function WithAll(cmd: Node, items: seq<Item>): (r: Node)
    requires cmd.Command?
    ensures r.Command?
  {
    if items == [] then cmd else With(WithAll(cmd, items[..|items| - 1]), items[|items| - 1])
  }

  ghost predicate AllFit(cmd: Node, items: seq<Item>)
    requires cmd.Command?
  {
    items == [] ||
    (AllFit(cmd, items[..|items| - 1]) && Fits(WithAll(cmd, items[..|items| - 1]), items[|items| - 1]))
  }

  ghost predicate ValidPhrase(p: Phrase) {
    match p
    case Cmd(env, name, items) =>
      && AllAssignments(env) && EnvMatch(name).None? && name != "cd"
      && AllFit(NewCommand(name, EnvOf(env)), items)
    case Cd(dir) => dir != Some("&&")
  }

  ghost function PhraseNode(p: Phrase): (r: Node)
    requires ValidPhrase(p)
    ensures if p.Cmd? then r.Command? else r.Chdir?
  {
    match p
    case Cmd(env, name, items) => WithAll(NewCommand(name, EnvOf(env)), items)
    case Cd(dir) => Chdir(dir)
  }

  /** A pipe takes the standard output, which must still be free; a `cd` is followed by nothing but `&&`. */
  ghost predicate Joins(p: Phrase, op: Node)
    requires ValidPhrase(p)
  {
    && (op.Pipe? || op.And? || op.Or?)
    && (p.Cd? ==> op.And?)
    && (p.Cmd? && op.Pipe? ==> PhraseNode(p).stdout.InheritOut?)
  }

  ghost function JoinedNode(p: Phrase, op: Node): Node
    requires ValidPhrase(p) && Joins(p, op)
  {
    if op.Pipe? then PhraseNode(p).(stdout := PIPE) else PhraseNode(p)
  }

  ghost predicate ValidInit(init: seq<(Phrase, Node)>) {
    forall i :: 0 <= i < |init| ==> ValidPhrase(init[i].0) && Joins(init[i].0, init[i].1)
  }

  ghost function InitNodes(init: seq<(Phrase, Node)>): seq<Node>
    requires ValidInit(init)
  {
    if init == [] then [] else
      var (p, op) := init[|init| - 1];
      InitNodes(init[..|init| - 1]) + [JoinedNode(p, op), op]
  }

  ghost predicate Valid(s: Script) {
    && ValidInit(s.init) && ValidPhrase(s.last)
    && (s.trailing == [] || (s.last.Cmd? && s.trailing in {[">"], ["2>"], ["<"]}))
  }

  ghost function Denotes(s: Script): seq<Node>
    requires Valid(s)
  {
    InitNodes(s.init) + [PhraseNode(s.last)]
  }

  // ---------- running the state machine over parts ----------

  ghost predicate Live(s: ParseState) {
    !s.failed && Consistent(s)
  }

  lemma {:induction false} ScanConcat(s: ParseState, a: seq<string>, b: seq<string>)
    requires Live(s) && !Scan(s, a).failed
    ensures Scan(s, a + b) == Scan(Scan(s, a), b)
    decreases |a|
  {
    if a == [] {
      assert a + b == b;
    } else {
      assert (a + b)[1..] == a[1..] + b;
      ScanConcat(Step(s, a[0]), a[1..], b);
    }
  }

  lemma ScanSnoc(s: ParseState, a: seq<string>, token: string)
    requires Live(s) && !Scan(s, a).failed
    ensures Scan(s, a + [token]) == Step(Scan(s, a), token)
  {
    ScanConcat(s, a, [token]);
  }

  // ---------- every script of the grammar is accepted, with its meaning ----------

  ghost function AtBegin(nodes: seq<Node>, env: map<string, string>): ParseState {
    ParseState(BEGIN, None, nodes, env, false)
  }

  ghost function InNode(nodes: seq<Node>, node: Node): ParseState {
    ParseState(if node.Chdir? then CHDIR else COMMAND, Some(node), nodes, map[], false)
  }

  lemma {:induction false} ScanEnv(nodes: seq<Node>, env: seq<string>)
    requires AllAssignments(env)
    ensures Scan(AtBegin(nodes, map[]), env) == AtBegin(nodes, EnvOf(env))
  {
    if env != [] {
      hide EnvMatch, Scan;
      var n := |env| - 1;
      assert env == env[..n] + [env[n]];
      assert AllAssignments(env[..n]) && EnvMatch(env[n]).Some?;
      ScanEnv(nodes, env[..n]);
      ScanSnoc(AtBegin(nodes, map[]), env[..n], env[n]);
    }
  }

  lemma ScanItem(nodes: seq<Node>, cmd: Node, item: Item)
    requires cmd.Command? && Fits(cmd, item)
    ensures Scan(InNode(nodes, cmd), ItemTokens(item)) == InNode(nodes, With(cmd, item))
  {
    var ts, s := ItemTokens(item), InNode(nodes, cmd);
    if |ts| == 2 {
      ScanSnoc(s, [ts[0]], ts[1]);
      assert ts == [ts[0]] + [ts[1]];
    } else {
      assert ts == [ts[0]];
    }
  }

  lemma {:induction false} ScanItems(nodes: seq<Node>, cmd: Node, items: seq<Item>)
    requires cmd.Command? && AllFit(cmd, items)
    ensures Scan(InNode(nodes, cmd), ItemsTokens(items)) == InNode(nodes, WithAll(cmd, items))
  {
    if items != [] {
      var n := |items| - 1;
      ScanItems(nodes, cmd, items[..n]);
      ScanItem(nodes, WithAll(cmd, items[..n]), items[n]);
      ScanConcat(InNode(nodes, cmd), ItemsTokens(items[..n]), ItemTokens(items[n]));
    }
  }

  lemma ScanPhrase(nodes: seq<Node>, p: Phrase)
    requires ValidPhrase(p)
    ensures Scan(AtBegin(nodes, map[]), PhraseTokens(p)) == InNode(nodes, PhraseNode(p))
  {
    var s := AtBegin(nodes, map[]);
    match p {
      case Cmd(env, name, items) =>
        ScanEnv(nodes, env);
        ScanSnoc(s, env, name);
        ScanItems(nodes, NewCommand(name, EnvOf(env)), items);
        ScanConcat(s, env + [name], ItemsTokens(items));
      case Cd(dir) =>
        assert EnvMatch("cd").None? by { assert "cd"[1..] == "d" && "d"[1..] == ""; }
        if dir.Some? {
          ScanSnoc(s, ["cd"], dir.value);
          assert ["cd", dir.value] == ["cd"] + [dir.value];
        }
    }
  }

  lemma ScanOperator(nodes: seq<Node>, p: Phrase, op: Node)
    requires ValidPhrase(p) && Joins(p, op)
    ensures Step(InNode(nodes, PhraseNode(p)), OperatorToken(op)) == AtBegin(nodes + [JoinedNode(p, op), op], map[])
  {
    hide PhraseNode, ValidPhrase;
  }

  lemma {:induction false} ScanInit(init: seq<(Phrase, Node)>)
    requires ValidInit(init)
    ensures Scan(Initial(), InitTokens(init)) == AtBegin(InitNodes(init), map[])
  {
    if init != [] {
      hide Scan, Step, PhraseTokens, PhraseNode, ValidPhrase, Joins, JoinedNode, OperatorToken;
      var n := |init| - 1;
      var (p, op) := init[n];
      var before, phrase := InitTokens(init[..n]), PhraseTokens(p);
      ScanInit(init[..n]);
      ScanPhrase(InitNodes(init[..n]), p);
      ScanConcat(Initial(), before, phrase);
      ScanSnoc(Initial(), before + phrase, OperatorToken(op));
      ScanOperator(InitNodes(init[..n]), p, op);
    }
  }

  lemma ScriptAccepted(s: Script)
    requires Valid(s)
    ensures Parse(Tokens(s)) == Accepted(Denotes(s))
  {
    ScanInit(s.init);
    ScanPhrase(InitNodes(s.init), s.last);
    ScanConcat(Initial(), InitTokens(s.init), PhraseTokens(s.last));
    if s.trailing == [] {
      assert Tokens(s) == InitTokens(s.init) + PhraseTokens(s.last);
    } else {
      ScanSnoc(Initial(), InitTokens(s.init) + PhraseTokens(s.last), s.trailing[0]);
      assert s.trailing == [s.trailing[0]];
    }
  }

  // ---------- everything accepted is a script of the grammar ----------

  /** What a prefix of the tokens amounts to: complete phrases, and the beginning of the next one. */
  datatype Prefix =
    | Between(init: seq<(Phrase, Node)>, env: seq<string>)
    | Inside(init: seq<(Phrase, Node)>, phrase: Phrase, pending: seq<string>)

  ghost predicate ValidPrefix(x: Prefix) {
    && ValidInit(x.init)
    && match x
       case Between(_, env) => AllAssignments(env)
       case Inside(_, phrase, pending) =>
         ValidPhrase(phrase) && (pending == [] || (phrase.Cmd? && pending in {[">"], ["2>"], ["<"]}))
  }

  ghost function PrefixTokens(x: Prefix): seq<string> {
    match x
    case Between(init, env) => InitTokens(init) + env
    case Inside(init, phrase, pending) => InitTokens(init) + PhraseTokens(phrase) + pending
  }

  ghost function PendingMode(pending: seq<string>): Mode {
    if pending == [">"] then IN_STDOUT else if pending == ["2>"] then IN_STDERR else IN_STDIN
  }

  ghost function PrefixState(x: Prefix): ParseState
    requires ValidPrefix(x)
  {
    match x
    case Between(init, env) => AtBegin(InitNodes(init), EnvOf(env))
    case Inside(init, phrase, pending) =>
      var s := InNode(InitNodes(init), PhraseNode(phrase));
      if pending == [] then s else s.(mode := PendingMode(pending))
  }

  /** x explains the tokens read so far and the state they lead to. */
  ghost predicate Explains(x: Prefix, tokens: seq<string>, s: ParseState) {
    ValidPrefix(x) && PrefixTokens(x) == tokens && PrefixState(x) == s
  }

  lemma {:induction false} EnvNonEmpty(env: seq<string>)
    requires AllAssignments(env) && env != []
    ensures EnvOf(env) != map[]
  {
    var nv := EnvMatch(env[|env| - 1]).value;
    assert nv.0 in EnvOf(env);
  }

  lemma ExplainBetween(x: Prefix, tokens: seq<string>, s: ParseState, token: string) returns (y: Prefix)
    requires x.Between? && Explains(x, tokens, s) && !Step(s, token).failed
    ensures Explains(y, tokens + [token], Step(s, token))
  {
    hide EnvMatch, InitTokens, InitNodes, ValidInit;
    if EnvMatch(token).Some? {
      y := Between(x.init, x.env + [token]);
      assert y.env[..|x.env|] == x.env;
      assert PrefixTokens(y) == tokens + [token];
    } else if token == "cd" {
      if x.env != [] { EnvNonEmpty(x.env); }
      y := Inside(x.init, Cd(None), []);
      assert PrefixTokens(y) == tokens + [token];
    } else {
      y := Inside(x.init, Cmd(x.env, token, []), []);
      assert PrefixTokens(y) == tokens + [token];
    }
  }

  /** An operator ends the phrase. */
  lemma ExplainCommit(x: Prefix, tokens: seq<string>, s: ParseState, op: Node)
    requires x.Inside? && x.pending == [] && Explains(x, tokens, s) && Joins(x.phrase, op)
    ensures Explains(Between(x.init + [(x.phrase, op)], []), tokens + [OperatorToken(op)],
                     Commit(s, JoinedNode(x.phrase, op), op))
  {
    hide PhraseNode, PhraseTokens, ValidPhrase;
    var init := x.init + [(x.phrase, op)];
    assert init[..|x.init|] == x.init;
    assert ValidInit(init);
    assert PrefixTokens(Between(init, [])) == tokens + [OperatorToken(op)];
  }

  /** Another argument or redirection extends the command. */
  lemma ExplainItem(init: seq<(Phrase, Node)>, cmd: Phrase, item: Item, tokens: seq<string>)
    requires ValidInit(init) && cmd.Cmd? && ValidPhrase(cmd) && Fits(PhraseNode(cmd), item)
    requires tokens == InitTokens(init) + PhraseTokens(cmd)
    ensures Explains(Inside(init, cmd.(items := cmd.items + [item]), []), tokens + ItemTokens(item),
                     InNode(InitNodes(init), With(PhraseNode(cmd), item)))
  {
    hide EnvMatch, InitTokens, InitNodes, ValidInit, ItemTokens, EnvOf;
    var more := cmd.(items := cmd.items + [item]);
    assert more.items[..|cmd.items|] == cmd.items;
    assert PhraseTokens(more) == PhraseTokens(cmd) + ItemTokens(item);
    assert PrefixTokens(Inside(init, more, [])) == tokens + ItemTokens(item);
  }

  lemma ExplainOperator(x: Prefix, tokens: seq<string>, s: ParseState, op: Node) returns (y: Prefix)
    requires x.Inside? && x.phrase.Cmd? && x.pending == [] && Explains(x, tokens, s)
    requires (op.Pipe? || op.And? || op.Or?) && !Step(s, OperatorToken(op)).failed
    ensures Explains(y, tokens + [OperatorToken(op)], Step(s, OperatorToken(op)))
  {
    hide EnvMatch, InitTokens, EnvOf, InitNodes, ValidInit, PhraseTokens, PhraseNode, ValidPhrase;
    ExplainCommit(x, tokens, s, op);
    y := Between(x.init + [(x.phrase, op)], []);
  }

  lemma ExplainWord(x: Prefix, tokens: seq<string>, s: ParseState, token: string) returns (y: Prefix)
    requires x.Inside? && x.phrase.Cmd? && x.pending == [] && Explains(x, tokens, s) && !Step(s, token).failed
    requires !IsOperator(token) || token == "2>&1"
    ensures Explains(y, tokens + [token], Step(s, token))
  {
    assert tokens == InitTokens(x.init) + PhraseTokens(x.phrase);
    hide EnvMatch, InitTokens, EnvOf, InitNodes, ValidInit, PhraseTokens, PhraseNode, ValidPhrase;
    var item := if token == "2>&1" then ErrorToOutput else Arg(token);
    ExplainItem(x.init, x.phrase, item, tokens);
    y := Inside(x.init, x.phrase.(items := x.phrase.items + [item]), []);
  }

  lemma ExplainCommand(x: Prefix, tokens: seq<string>, s: ParseState, token: string) returns (y: Prefix)
    requires x.Inside? && x.phrase.Cmd? && x.pending == [] && Explains(x, tokens, s) && !Step(s, token).failed
    ensures Explains(y, tokens + [token], Step(s, token))
  {
    hide EnvMatch, InitTokens, EnvOf, InitNodes, ValidInit, PhraseTokens, PhraseNode, ValidPhrase;
    if token == ">" || token == "2>" || token == "<" {
      y := x.(pending := [token]);
    } else if token == "|" || token == "&&" || token == "||" {
      y := ExplainOperator(x, tokens, s, if token == "|" then Pipe else if token == "&&" then And else Or);
    } else {
      y := ExplainWord(x, tokens, s, token);
    }
  }

  lemma ExplainFile(x: Prefix, tokens: seq<string>, s: ParseState, token: string) returns (y: Prefix)
    requires x.Inside? && x.pending != [] && Explains(x, tokens, s) && !Step(s, token).failed
    ensures Explains(y, tokens + [token], Step(s, token))
  {
    hide EnvMatch, InitTokens, InitNodes, ValidInit, PhraseTokens, PhraseNode, ValidPhrase;
    var item := if x.pending == [">"] then Output(token)
                else if x.pending == ["2>"] then Error(token)
                else Input(token);
    var before := InitTokens(x.init) + PhraseTokens(x.phrase);
    ExplainItem(x.init, x.phrase, item, before);
    y := Inside(x.init, x.phrase.(items := x.phrase.items + [item]), []);
    assert ItemTokens(item) == x.pending + [token];
    assert before + ItemTokens(item) == tokens + [token];
  }

  lemma ExplainChdir(x: Prefix, tokens: seq<string>, s: ParseState, token: string) returns (y: Prefix)
    requires x.Inside? && x.phrase.Cd? && Explains(x, tokens, s) && !Step(s, token).failed
    ensures Explains(y, tokens + [token], Step(s, token))
  {
    hide EnvMatch, InitTokens, InitNodes, ValidInit;
    if token == "&&" {
      ExplainCommit(x, tokens, s, And);
      y := Between(x.init + [(x.phrase, And)], []);
    } else {
      y := Inside(x.init, Cd(Some(token)), []);
      assert PrefixTokens(y) == tokens + [token];
    }
  }

  lemma ExplainStep(x: Prefix, tokens: seq<string>, s: ParseState, token: string) returns (y: Prefix)
    requires Live(s) && Explains(x, tokens, s) && !Step(s, token).failed
    ensures Explains(y, tokens + [token], Step(s, token))
  {
    if x.Between? {
      y := ExplainBetween(x, tokens, s, token);
    } else if x.pending != [] {
      y := ExplainFile(x, tokens, s, token);
    } else if x.phrase.Cmd? {
      y := ExplainCommand(x, tokens, s, token);
    } else {
      y := ExplainChdir(x, tokens, s, token);
    }
  }

  lemma {:induction false} ScanFails(s: ParseState, a: seq<string>, b: seq<string>)
    requires Live(s) && Scan(s, a).failed
    ensures Scan(s, a + b).failed
    decreases |a|
  {
    if a != [] {
      assert (a + b)[1..] == a[1..] + b;
      if !Step(s, a[0]).failed {
        ScanFails(Step(s, a[0]), a[1..], b);
      }
    }
  }

  /** Reading the tokens from the left, every prefix that has not failed can be explained. */
  lemma {:induction false} Explanation(tokens: seq<string>) returns (x: Prefix)
    requires !Scan(Initial(), tokens).failed
    ensures Explains(x, tokens, Scan(Initial(), tokens))
  {
    if tokens == [] {
      x := Between([], []);
    } else {
      var n := |tokens| - 1;
      assert tokens == tokens[..n] + [tokens[n]];
      if Scan(Initial(), tokens[..n]).failed {
        ScanFails(Initial(), tokens[..n], [tokens[n]]);
      }
      var y := Explanation(tokens[..n]);
      ScanSnoc(Initial(), tokens[..n], tokens[n]);
      x := ExplainStep(y, tokens[..n], Scan(Initial(), tokens[..n]), tokens[n]);
    }
  }

  ghost predicate ScriptFor(s: Script, tokens: seq<string>, nodes: seq<Node>) {
    Valid(s) && Tokens(s) == tokens && Denotes(s) == nodes
  }

  /** The parser accepts exactly the command lines of the grammar, and returns what they denote. */
  lemma AcceptsExactlyTheGrammar(tokens: seq<string>, nodes: seq<Node>)
    ensures Parse(tokens) == Accepted(nodes) <==> exists s :: ScriptFor(s, tokens, nodes)
  {
    if Parse(tokens) == Accepted(nodes) {
      var x := Explanation(tokens);
      var s := Script(x.init, x.phrase, x.pending);
      assert ScriptFor(s, tokens, nodes);
    }
    if s :| ScriptFor(s, tokens, nodes) {
      ScriptAccepted(s);
    }
  }

  /** A last redirection operator without its file changes nothing. */
  lemma DanglingIsIgnored(s: Script)
    requires Valid(s)
    ensures Parse(Tokens(s)) == Parse(Tokens(s.(trailing := []))) == Accepted(Denotes(s))
  {
    ScriptAccepted(s);
    ScriptAccepted(s.(trailing := []));
  }
}
