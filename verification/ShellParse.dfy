/** The pipeline parser of the build's shell-command helper: a state machine over the tokens of a command line. */
module ShellParse {
  import opened Basics

  datatype Stdout = InheritOut | PIPE | OutFile(name: string)

  datatype Stderr = InheritErr | STDOUT | ErrFile(name: string)

  /** The nodes of a parsed pipeline. A command without environment variables has an empty `env`. */
  datatype Node =
    | Command(name: string, argv: seq<string>, stdin: Option<string>, stdout: Stdout, stderr: Stderr,
              env: map<string, string>)
    | Chdir(dir: Option<string>)
    | Pipe
    | And
    | Or

  datatype Mode = BEGIN | COMMAND | CHDIR | IN_STDERR | IN_STDOUT | IN_STDIN

  /** Where the parser is; `failed` once an assertion of the parser has been violated. */
  datatype ParseState = ParseState(
    mode: Mode, current: Option<Node>, nodes: seq<Node>, env: map<string, string>, failed: bool)

  datatype Parsed = Accepted(nodes: seq<Node>) | AssertionError

  // ---------- NAME=value tokens ----------

  predicate IsWordChar(c: char) {
    'a' <= c <= 'z' || 'A' <= c <= 'Z' || '0' <= c <= '9' || c == '_'
  }

  predicate IsSpace(c: char) {
    || '\U{9}' <= c <= '\U{d}' || '\U{1c}' <= c <= ' ' || c == '\U{85}' || c == '\U{a0}' || c == '\U{1680}'
    || '\U{2000}' <= c <= '\U{200a}' || c == '\U{2028}' || c == '\U{2029}' || c == '\U{202f}' || c == '\U{205f}'
    || c == '\U{3000}'
  }

  predicate IsName(s: string) {
    s != "" && forall i :: 0 <= i < |s| ==> IsWordChar(s[i])
  }

  predicate IsValue(s: string) {
    s != "" && forall i :: 0 <= i < |s| ==> !IsSpace(s[i])
  }

  /** The position of the first equals sign, or the length if there is none. */
  function EqualsAt(s: string): (i: nat)
    ensures i <= |s| && (i < |s| ==> s[i] == '=') && forall k :: 0 <= k < i ==> s[k] != '='
  {
    if s == "" || s[0] == '=' then 0 else 1 + EqualsAt(s[1..])
  }

  /** The end anchor also accepts one final newline, which is not part of the value. */
  function DropNewline(s: string): string {
    if s != "" && s[|s| - 1] == '\n' then s[..|s| - 1] else s
  }

  function EnvMatch(token: string): Option<(string, string)> {
    var i := EqualsAt(token);
    if i == |token| then None else
      var name, value := token[..i], DropNewline(token[i + 1..]);
      if IsName(name) && IsValue(value) then Some((name, value)) else None
  }

  /** The name is what stands before the first equals sign, the value what stands after it. */
  lemma Assignment(name: string, value: string)
    requires '=' !in name
    ensures EnvMatch(name + "=" + value)
            == if IsName(name) && IsValue(DropNewline(value)) then Some((name, DropNewline(value))) else None
  {
    hide IsName, IsValue, DropNewline;
    var s := name + "=" + value;
    assert s[|name|] == '=' && forall k :: 0 <= k < |name| ==> s[k] == name[k];
    assert EqualsAt(s) == |name|;
    assert s[..|name|] == name && s[|name| + 1..] == value;
  }

  lemma NoAssignment(token: string)
    requires '=' !in token
    ensures EnvMatch(token).None?
  {
  }

  lemma AssignmentExamples()
    ensures EnvMatch("CC_1" + "=" + "x") == Some(("CC_1", "x"))
    ensures EnvMatch("a" + "=" + "b=c") == Some(("a", "b=c"))
    ensures EnvMatch("a" + "=" + "b\n") == Some(("a", "b"))
  {
    hide EnvMatch;
    Assignment("CC_1", "x");
    Assignment("a", "b=c");
    Assignment("a", "b\n");
    assert "b\n"[..1] == "b";
  }

  /** Names are of ASCII letters, digits and underscores, values of anything but white space, and neither is empty. */
  lemma OtherTokensExamples()
    ensures EnvMatch("a" + "=" + "").None? && EnvMatch("" + "=" + "x").None? && EnvMatch("ab").None?
    ensures EnvMatch("a-b" + "=" + "x").None? && EnvMatch("\U{e9}" + "=" + "x").None?
    ensures EnvMatch("a" + "=" + "b c").None? && EnvMatch("a" + "=" + "b\tc").None?
  {
    hide EnvMatch;
    Assignment("a", "");
    Assignment("", "x");
    NoAssignment("ab");
    Assignment("a-b", "x");
    assert !IsName("a-b") by { assert "a-b"[1] == '-'; }
    Assignment("\U{e9}", "x");
    assert !IsName("\U{e9}") by { assert "\U{e9}"[0] == '\U{e9}'; }
    Assignment("a", "b c");
    assert !IsValue("b c") by { assert "b c"[1] == ' '; }
    Assignment("a", "b\tc");
    assert !IsValue("b\tc") by { assert "b\tc"[1] == '\t'; }
  }

  // ---------- the state machine ----------

  function Initial(): ParseState {
    ParseState(BEGIN, None, [], map[], false)
  }

  function NewCommand(name: string, env: map<string, string>): Node {
    Command(name, [name], None, InheritOut, InheritErr, env)
  }

  /** The current node is appended to the pipeline, and an operator after it. */
  function Commit(s: ParseState, node: Node, op: Node): ParseState {
    s.(mode := BEGIN, current := None, nodes := s.nodes + [node, op])
  }

  function StepBegin(s: ParseState, token: string): ParseState {
    match EnvMatch(token)
    case Some(nv) => s.(env := s.env[nv.0 := nv.1])
    case None =>
      if s.current.Some? then s.(failed := true)
      else if token == "cd" then s.(current := Some(Chdir(None)), mode := CHDIR, failed := s.env != map[])
      else s.(current := Some(NewCommand(token, s.env)), mode := COMMAND, env := map[])
  }

  function StepCommand(s: ParseState, cmd: Node, token: string): ParseState
    requires cmd.Command?
  {
    if token == ">" then s.(mode := IN_STDOUT)
    else if token == "2>" then s.(mode := IN_STDERR)
    else if token == "2>&1" then
      if cmd.stderr.InheritErr? then s.(current := Some(cmd.(stderr := STDOUT))) else s.(failed := true)
    else if token == "<" then s.(mode := IN_STDIN)
    else if token == "|" then
      if cmd.stdout.InheritOut? then Commit(s, cmd.(stdout := PIPE), Pipe) else s.(failed := true)
    else if token == "&&" then Commit(s, cmd, And)
    else if token == "||" then Commit(s, cmd, Or)
    else s.(current := Some(cmd.(argv := cmd.argv + [token])))
  }

  function StepChdir(s: ParseState, cd: Node, token: string): ParseState
    requires cd.Chdir?
  {
    if token == "&&" then Commit(s, cd, And)
    else if cd.dir.None? then s.(current := Some(Chdir(Some(token))))
    else s.(failed := true)
  }

  function StepFile(s: ParseState, cmd: Node, token: string): ParseState
    requires cmd.Command? && (s.mode.IN_STDOUT? || s.mode.IN_STDERR? || s.mode.IN_STDIN?)
  {
    match s.mode
    case IN_STDOUT =>
      if cmd.stdout.InheritOut? then s.(current := Some(cmd.(stdout := OutFile(token))), mode := COMMAND)
      else s.(failed := true)
    case IN_STDERR =>
      if cmd.stderr.InheritErr? then s.(current := Some(cmd.(stderr := ErrFile(token))), mode := COMMAND)
      else s.(failed := true)
    case IN_STDIN =>
      if cmd.stdin.None? then s.(current := Some(cmd.(stdin := Some(token))), mode := COMMAND)
      else s.(failed := true)
  }

  /** The current node is what the mode needs. */
  predicate Consistent(s: ParseState) {
    match s.mode
    case BEGIN => s.current.None?
    case CHDIR => s.current.Some? && s.current.value.Chdir?
    case _ => s.current.Some? && s.current.value.Command?
  }

  function Step(s: ParseState, token: string): (t: ParseState)
    requires !s.failed && Consistent(s)
    ensures !t.failed ==> Consistent(t)
  {
    match s.mode
    case BEGIN => StepBegin(s, token)
    case COMMAND => StepCommand(s, s.current.value, token)
    case CHDIR => StepChdir(s, s.current.value, token)
    case _ => StepFile(s, s.current.value, token)
  }

  function Scan(s: ParseState, tokens: seq<string>): (t: ParseState)
    requires !s.failed && Consistent(s)
    ensures !t.failed ==> Consistent(t)
    decreases |tokens|
  {
    if tokens == [] then s else
      var t := Step(s, tokens[0]);
      if t.failed then t else Scan(t, tokens[1..])
  }

  /** The last commit fails if no node has been started. */
  function Finish(s: ParseState): Parsed {
    if s.failed || s.current.None? then AssertionError else Accepted(s.nodes + [s.current.value])
  }

  function Parse(tokens: seq<string>): Parsed {
    Finish(Scan(Initial(), tokens))
  }

  lemma Reads(s: ParseState, token: string, t: ParseState, rest: seq<string>)
    requires !s.failed && Consistent(s) && Step(s, token) == t && !t.failed
    ensures Consistent(t) && Scan(s, [token] + rest) == Scan(t, rest)
  {
    hide Step;
    assert ([token] + rest)[1..] == rest;
  }

  /** Every redirection goes where its operator says, and an assignment into the environment of the command after it. */
  lemma RedirectionsExample(a: string, b: string, f: string, g: string, h: string)
    requires EnvMatch(a).None? && a != "cd" && b !in {">", "2>", "2>&1", "<", "|", "&&", "||"}
    ensures Parse(["CC_1=x", a, "<", f, ">", g, "2>", h, b])
            == Accepted([Command(a, [a, b], Some(f), OutFile(g), ErrFile(h), map["CC_1" := "x"])])
  {
    AssignmentExamples();
    hide EnvMatch, Scan;
    assert "CC_1" + "=" + "x" == "CC_1=x";
    var env := map["CC_1" := "x"];
    var r3 := ["2>"] + ([h] + [b]);
    var r2 := [">"] + ([g] + r3);
    var r1 := ["<"] + ([f] + r2);
    assert ["CC_1=x", a, "<", f, ">", g, "2>", h, b] == ["CC_1=x"] + ([a] + r1);
    var c0 := Command(a, [a], None, InheritOut, InheritErr, env);
    var c1 := c0.(stdin := Some(f));
    var c2 := c1.(stdout := OutFile(g));
    var c3 := c2.(stderr := ErrFile(h));
    var c4 := c3.(argv := [a, b]);
    Reads(Initial(), "CC_1=x", ParseState(BEGIN, None, [], env, false), [a] + r1);
    Reads(ParseState(BEGIN, None, [], env, false), a, ParseState(COMMAND, Some(c0), [], map[], false), r1);
    ReadsFile("<", IN_STDIN, c0, f, c1, r2);
    ReadsFile(">", IN_STDOUT, c1, g, c2, r3);
    ReadsFile("2>", IN_STDERR, c2, h, c3, [b]);
    assert [a] + [b] == [a, b] && [b] + [] == [b];
    Reads(ParseState(COMMAND, Some(c3), [], map[], false), b, ParseState(COMMAND, Some(c4), [], map[], false), []);
    ReadAll(ParseState(COMMAND, Some(c4), [], map[], false));
    assert [] + [c4] == [c4];
  }

  lemma ReadsFile(op: string, mode: Mode, cmd: Node, file: string, cmd': Node, rest: seq<string>)
    requires cmd.Command? && cmd'.Command? && (mode.IN_STDIN? || mode.IN_STDOUT? || mode.IN_STDERR?)
    requires StepCommand(ParseState(COMMAND, Some(cmd), [], map[], false), cmd, op)
             == ParseState(mode, Some(cmd), [], map[], false)
    requires StepFile(ParseState(mode, Some(cmd), [], map[], false), cmd, file)
             == ParseState(COMMAND, Some(cmd'), [], map[], false)
    ensures Scan(ParseState(COMMAND, Some(cmd), [], map[], false), [op] + ([file] + rest))
            == Scan(ParseState(COMMAND, Some(cmd'), [], map[], false), rest)
  {
    hide StepCommand, StepFile, Scan;
    Reads(ParseState(COMMAND, Some(cmd), [], map[], false), op, ParseState(mode, Some(cmd), [], map[], false),
          [file] + rest);
    Reads(ParseState(mode, Some(cmd), [], map[], false), file, ParseState(COMMAND, Some(cmd'), [], map[], false), rest);
  }

  lemma ReadAll(s: ParseState)
    requires !s.failed && Consistent(s)
    ensures Scan(s, []) == s
  {
  }

  // ---------- the parser object ----------

  class Pipeline {
    var currentCommand: Option<Node>
    var pipeline: seq<Node>

    constructor ()
      ensures currentCommand == None && pipeline == []
    {
      currentCommand, pipeline := None, [];
    }

    method CommitCommand() returns (ok: bool)
      modifies this
      ensures ok <==> old(currentCommand).Some?
      ensures ok ==> currentCommand == None && pipeline == old(pipeline) + [old(currentCommand).value]
      ensures !ok ==> currentCommand == old(currentCommand) && pipeline == old(pipeline)
    {
      if currentCommand.None? {
        return false;
      }
      pipeline := pipeline + [currentCommand.value];
      currentCommand := None;
      ok := true;
    }

    ghost function AsState(mode: Mode, env: map<string, string>, failed: bool): ParseState
      reads this
    {
      ParseState(mode, currentCommand, pipeline, env, failed)
    }

    method BeginToken(env: map<string, string>, token: string) returns (mode: Mode, env': map<string, string>, ok: bool)
      requires currentCommand.None?
      modifies this
      ensures AsState(mode, env', !ok) == StepBegin(old(AsState(BEGIN, env, false)), token)
    {
      mode, env', ok := BEGIN, env, true;
      var m := EnvMatch(token);
      if m.Some? {
        env' := env'[m.value.0 := m.value.1];
      } else if token == "cd" {
        currentCommand := Some(Chdir(None));
        mode := CHDIR;
        ok := env' == map[];
      } else {
        currentCommand := Some(NewCommand(token, map[]));
        if env' != map[] {
          currentCommand := Some(currentCommand.value.(env := env'));
          env' := map[];
        }
        mode := COMMAND;
      }
    }

    method CommandToken(env: map<string, string>, token: string) returns (mode: Mode, ok: bool)
      requires currentCommand.Some? && currentCommand.value.Command?
      modifies this
      ensures AsState(mode, env, !ok)
              == StepCommand(old(AsState(COMMAND, env, false)), old(currentCommand).value, token)
    {
      mode, ok := COMMAND, true;
      if token == ">" {
        mode := IN_STDOUT;
      } else if token == "2>" {
        mode := IN_STDERR;
      } else if token == "2>&1" {
        if !currentCommand.value.stderr.InheritErr? {
          return COMMAND, false;
        }
        currentCommand := Some(currentCommand.value.(stderr := STDOUT));
      } else if token == "<" {
        mode := IN_STDIN;
      } else if token == "|" {
        if !currentCommand.value.stdout.InheritOut? {
          return COMMAND, false;
        }
        currentCommand := Some(currentCommand.value.(stdout := PIPE));
        ok := CommitCommand();
        pipeline := pipeline + [Pipe];
        mode := BEGIN;
      } else if token == "&&" {
        ok := CommitCommand();
        pipeline := pipeline + [And];
        mode := BEGIN;
      } else if token == "||" {
        ok := CommitCommand();
        pipeline := pipeline + [Or];
        mode := BEGIN;
      } else {
        currentCommand := Some(currentCommand.value.(argv := currentCommand.value.argv + [token]));
      }
    }

    method ChdirToken(env: map<string, string>, token: string) returns (mode: Mode, ok: bool)
      requires currentCommand.Some? && currentCommand.value.Chdir?
      modifies this
      ensures AsState(mode, env, !ok) == StepChdir(old(AsState(CHDIR, env, false)), old(currentCommand).value, token)
    {
      mode, ok := CHDIR, true;
      if token == "&&" {
        ok := CommitCommand();
        pipeline := pipeline + [And];
        mode := BEGIN;
      } else if currentCommand.value.dir.None? {
        currentCommand := Some(Chdir(Some(token)));
      } else {
        ok := false;
      }
    }

    method FileToken(mode: Mode, env: map<string, string>, token: string) returns (mode': Mode, ok: bool)
      requires currentCommand.Some? && currentCommand.value.Command?
      requires mode.IN_STDOUT? || mode.IN_STDERR? || mode.IN_STDIN?
      modifies this
      ensures AsState(mode', env, !ok) == StepFile(old(AsState(mode, env, false)), old(currentCommand).value, token)
    {
      var cmd := currentCommand.value;
      mode', ok := mode, true;
      if mode.IN_STDOUT? {
        if !cmd.stdout.InheritOut? {
          return mode, false;
        }
        currentCommand := Some(cmd.(stdout := OutFile(token)));
      } else if mode.IN_STDERR? {
        if !cmd.stderr.InheritErr? {
          return mode, false;
        }
        currentCommand := Some(cmd.(stderr := ErrFile(token)));
      } else {
        if !cmd.stdin.None? {
          return mode, false;
        }
        currentCommand := Some(cmd.(stdin := Some(token)));
      }
      mode' := COMMAND;
    }

    /** Parses a list of tokens; on success the parsed pipeline is also left in the object, ready to be run. */
    method ParseTokens(tokens: seq<string>) returns (r: Parsed)
      modifies this
      ensures r == Parse(tokens)
      ensures r.Accepted? ==> pipeline == r.nodes && currentCommand == None
    {
      currentCommand, pipeline := None, [];
      var rest, mode, env, ok := tokens, BEGIN, map[], true;
      while rest != []
        invariant ok && Consistent(AsState(mode, env, false))
        invariant Scan(AsState(mode, env, false), rest) == Scan(Initial(), tokens)
        decreases |rest|
      {
        var token := rest[0];
        ghost var before := AsState(mode, env, false);
        if mode.BEGIN? {
          mode, env, ok := BeginToken(env, token);
        } else if mode.COMMAND? {
          mode, ok := CommandToken(env, token);
        } else if mode.CHDIR? {
          mode, ok := ChdirToken(env, token);
        } else {
          mode, ok := FileToken(mode, env, token);
        }
        assert AsState(mode, env, !ok) == Step(before, token);
        if !ok {
          return AssertionError;
        }
        rest := rest[1..];
      }
      ok := CommitCommand();
      r := if ok then Accepted(pipeline) else AssertionError;
    }
  }
}
