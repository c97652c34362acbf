/** The token machine that builds the node list of a command line. */
module PipelineParse {
  import opened Common
  import opened CommandLine
  import opened PipelineRun

  // ----- tokens -----

  predicate IsWordChar(c: char) {
    'a' <= c <= 'z' || 'A' <= c <= 'Z' || '0' <= c <= '9' || c == '_'
  }

  predicate IsBlank(c: char) {
    c == ' ' || c == '\t' || c == '\n' || c == '\r' || c == 11 as char || c == 12 as char
  }

  function WordLen(t: string): (n: nat)
    ensures n <= |t|
  {
    if t == [] || !IsWordChar(t[0]) then 0 else 1 + WordLen(t[1..])
  }

  predicate HasBlank(t: string) {
    exists i :: 0 <= i < |t| && IsBlank(t[i])
  }

  /** NAME=value without blanks; a newline at the very end is passed over. */
  function EnvMatch(t: string): Option<(string, string)> {
    var n := WordLen(t);
    if n == 0 || n == |t| || t[n] != '=' then None
    else
      var v := t[n + 1..];
      var v' := if v != [] && v[|v| - 1] == '\n' then v[..|v| - 1] else v;
      if v' == [] || HasBlank(v') then None else Some((t[..n], v'))
  }

  predicate WordText(t: string) {
    t != "" && forall i :: 0 <= i < |t| ==> IsWordChar(t[i])
  }

  predicate ValueText(t: string) {
    t != "" && forall i :: 0 <= i < |t| ==> !IsBlank(t[i])
  }

  /** A text without the newline at its very end. */
  function Chomp(t: string): string {
    if t != "" && t[|t| - 1] == '\n' then t[..|t| - 1] else t
  }

  /** The text assigns `v` to `k`. */
  predicate Assigns(t: string, k: string, v: string) {
    WordText(k) && ValueText(v) && (t == k + "=" + v || t == k + "=" + v + "\n")
  }

  /** There is an equals sign with a word in front of it and a value behind it. */
  predicate IsAssignment(t: string) {
    exists i :: 0 < i < |t| && AssignsAt(t, i)
  }

  predicate AssignsAt(t: string, i: nat)
    requires i < |t|
  {
    t[i] == '=' && WordText(t[..i]) && ValueText(Chomp(t[i + 1..]))
  }

  lemma {:induction false} WordLenOf(k: string, rest: string)
    requires (forall i :: 0 <= i < |k| ==> IsWordChar(k[i])) && (rest == "" || !IsWordChar(rest[0]))
    ensures WordLen(k + rest) == |k|
  {
    if k == "" {
      assert k + rest == rest;
    } else {
      assert (k + rest)[1..] == k[1..] + rest;
      WordLenOf(k[1..], rest);
    }
  }

  lemma {:induction false} WordLenStops(t: string)
    ensures var n := WordLen(t);
            && (forall i :: 0 <= i < n ==> IsWordChar(t[i])) && (n < |t| ==> !IsWordChar(t[n]))
  {
    if t != "" && IsWordChar(t[0]) {
      WordLenStops(t[1..]);
      assert forall i :: 0 < i < WordLen(t) ==> t[i] == t[1..][i - 1];
    }
  }

  lemma ChompOf(v: string, t: string)
    requires ValueText(v) && (t == v || t == v + "\n")
    ensures Chomp(t) == v
  {
    assert !IsBlank(v[|v| - 1]);
  }

  /** Where the equals sign is, the word in front of it ends. */
  lemma AssignedAt(t: string, i: nat)
    requires i < |t| && AssignsAt(t, i)
    ensures WordLen(t) == i && EnvMatch(t) == Some((t[..i], Chomp(t[i + 1..])))
  {
    assert t == t[..i] + t[i..];
    WordLenOf(t[..i], t[i..]);
    var v := Chomp(t[i + 1..]);
    assert forall j :: 0 <= j < |v| ==> !IsBlank(v[j]);
  }

  lemma EnvParts(t: string)
    requires EnvMatch(t).Some?
    ensures var n := WordLen(t);
            && 0 < n < |t| && t[n] == '=' && EnvMatch(t) == Some((t[..n], Chomp(t[n + 1..]))) && ValueText(Chomp(t[n + 1..]))
  {
    EnvUnfold(t);
    hide EnvMatch, WordLen, Chomp;
    NoBlanks(Chomp(t[WordLen(t) + 1..]));
  }

  lemma EnvUnfold(t: string)
    requires EnvMatch(t).Some?
    ensures var n := WordLen(t);
            && 0 < n < |t| && t[n] == '='
            && var v := Chomp(t[n + 1..]);
               EnvMatch(t) == Some((t[..n], v)) && v != "" && !HasBlank(v)
  {
    hide WordLen, HasBlank;
  }

  lemma NoBlanks(v: string)
    requires v != "" && !HasBlank(v)
    ensures ValueText(v)
  {
    hide IsBlank;
  }

  lemma WordBefore(t: string, n: nat)
    requires 0 < n == WordLen(t) <= |t|
    ensures WordText(t[..n])
  {
    WordLenStops(t);
    hide IsWordChar, WordLen;
    var k := t[..n];
    forall i | 0 <= i < |k| ensures IsWordChar(k[i]) {
      assert k[i] == t[i];
    }
  }

  lemma EnvMatchForm(t: string)
    requires EnvMatch(t).Some?
    ensures 0 < WordLen(t) < |t| && AssignsAt(t, WordLen(t))
  {
    EnvParts(t);
    WordBefore(t, WordLen(t));
    hide EnvMatch, WordLen, WordText, ValueText, Chomp;
  }

  /** Every text: it is taken for an assignment exactly if it has the form of one. */
  lemma EnvMatchSomeIff(t: string)
    ensures EnvMatch(t).Some? <==> IsAssignment(t)
  {
    hide EnvMatch, AssignsAt;
    if i :| 0 < i < |t| && AssignsAt(t, i) {
      AssignedAt(t, i);
    }
    if EnvMatch(t).Some? {
      EnvMatchForm(t);
    }
  }

  /** And then it gives the name in front of the equals sign and the value behind it. */
  lemma EnvMatchIff(t: string, k: string, v: string)
    ensures EnvMatch(t) == Some((k, v)) <==> Assigns(t, k, v)
  {
    hide EnvMatch;
    if Assigns(t, k, v) {
      AssignsThere(t, k, v);
      AssignedAt(t, |k|);
    }
    if EnvMatch(t) == Some((k, v)) {
      EnvMatchForm(t);
      AssignedAt(t, WordLen(t));
      AssignedForm(t, WordLen(t));
    }
  }

  lemma AssignsThere(t: string, k: string, v: string)
    requires Assigns(t, k, v)
    ensures |k| < |t| && AssignsAt(t, |k|) && t[..|k|] == k && Chomp(t[|k| + 1..]) == v
  {
    hide WordText, ValueText, Chomp;
    var rest := t[|k| + 1..];
    assert t[|k|] == '=' && t[..|k|] == k;
    assert rest == v || rest == v + "\n";
    ChompOf(v, rest);
  }

  lemma AssignedForm(t: string, i: nat)
    requires i < |t| && AssignsAt(t, i)
    ensures Assigns(t, t[..i], Chomp(t[i + 1..]))
  {
    hide WordText, ValueText;
    var k, rest := t[..i], t[i + 1..];
    assert t == k + "=" + rest;
    if Chomp(rest) != rest {
      assert rest == Chomp(rest) + "\n";
    }
  }

  /** Word characters and white space, by their codes. */
  lemma CharacterLaw(c: char)
    ensures IsWordChar(c) <==> 48 <= c as int <= 57 || 65 <= c as int <= 90 || c as int == 95 || 97 <= c as int <= 122
    ensures IsBlank(c) <==> 9 <= c as int <= 13 || c as int == 32
  {
  }

  // ----- the machine -----

  datatype Mode = Begin | InCommand | InCd | ToOut | ToErr | FromIn

  datatype Machine = Machine(mode: Mode, current: Option<Node>, env: map<string, string>, nodes: seq<Node>)

  const NoEnv: map<string, string> := map[]

  function NewCommand(name: string, env: map<string, string>): Cmd {
    Cmd([name], None, Inherited, Inherited, env)
  }

  function Commit(m: Machine, op: Node): Machine
    requires m.current.Some?
  {
    Machine(Begin, None, m.env, m.nodes + [m.current.value, op])
  }

  function InBegin(m: Machine, t: string): Option<Machine> {
    match EnvMatch(t)
    case Some(kv) => Some(m.(env := m.env[kv.0 := kv.1]))
    case None =>
      if m.current.Some? then None
      else if t == "cd" then
        if m.env != NoEnv then None else Some(m.(current := Some(Chdir(None)), mode := InCd))
      else Some(m.(current := Some(Run(NewCommand(t, m.env))), env := NoEnv, mode := InCommand))
  }

  function OnCommand(m: Machine, c: Cmd, t: string): Option<Machine>
    requires m.current == Some(Run(c))
  {
    if t == ">" then Some(m.(mode := ToOut))
    else if t == "2>" then Some(m.(mode := ToErr))
    else if t == "2>&1" then
      if c.stderr != Inherited then None else Some(m.(current := Some(Run(c.(stderr := WithStdout)))))
    else if t == "<" then Some(m.(mode := FromIn))
    else if t == "|" then
      if c.stdout != Inherited then None else Some(Commit(m.(current := Some(Run(c.(stdout := Piped)))), Pipe))
    else if t == "&&" then Some(Commit(m, And))
    else if t == "||" then Some(Commit(m, Or))
    else Some(m.(current := Some(Run(c.(argv := c.argv + [t])))))
  }

  function OnFile(m: Machine, c: Cmd, t: string): Option<Machine>
    requires m.current == Some(Run(c))
  {
    match m.mode
    case ToOut => if c.stdout != Inherited then None else Some(m.(current := Some(Run(c.(stdout := Path(t)))), mode := InCommand))
    case ToErr => if c.stderr != Inherited then None else Some(m.(current := Some(Run(c.(stderr := Path(t)))), mode := InCommand))
    case _ => if c.stdin != None then None else Some(m.(current := Some(Run(c.(stdin := Some(t)))), mode := InCommand))
  }

  function OnCd(m: Machine, d: Option<string>, t: string): Option<Machine>
    requires m.current == Some(Chdir(d))
  {
    if t == "&&" then Some(Commit(m, And))
    else if d != None then None
    else Some(m.(current := Some(Chdir(Some(t)))))
  }

  /** The kind of node under construction fits the mode. */
  predicate Fits(m: Machine) {
    match m.mode
    case Begin => m.current == None
    case InCd => m.current.Some? && m.current.value.Chdir?
    case _ => m.current.Some? && m.current.value.Run?
  }

  /** One token; None is a failed assertion. */
  function Step(m: Machine, t: string): (r: Option<Machine>)
    requires Fits(m)
    ensures r.Some? ==> Fits(r.value)
  {
    match m.mode
    case Begin => InBegin(m, t)
    case InCommand => OnCommand(m, m.current.value.cmd, t)
    case InCd => OnCd(m, m.current.value.dir, t)
    case _ => OnFile(m, m.current.value.cmd, t)
  }

  function Machined(m: Machine, ts: seq<string>): Option<seq<Node>>
    requires Fits(m)
    decreases |ts|
  {
    if ts == [] then (if m.current.None? then None else Some(m.nodes + [m.current.value]))
    else match Step(m, ts[0])
      case None => None
      case Some(m') => Machined(m', ts[1..])
  }

  const Fresh := Machine(Begin, None, NoEnv, [])

  function ParseTokens(ts: seq<string>): Option<seq<Node>> {
    Machined(Fresh, ts)
  }

  // ----- whatever is accepted is a line -----

  predicate IsPair(a: Node, op: Node) {
    && (op == Pipe || op == And || op == Or)
    && (a.Chdir? || a.Run?)
    && (a.Chdir? ==> op == And)
    && (a.Run? ==> (a.cmd.stdout == Piped <==> op == Pipe))
  }

  /** Pairs of a command and the operator behind it. */
  predicate Pairs(ns: seq<Node>) {
    ns == [] || (|ns| >= 2 && IsPair(ns[0], ns[1]) && Pairs(ns[2..]))
  }

  lemma {:induction false} PairsAppend(ns: seq<Node>, a: Node, op: Node)
    requires Pairs(ns) && IsPair(a, op)
    ensures Pairs(ns + [a, op])
    decreases |ns|
  {
    hide IsPair;
    if ns != [] {
      assert (ns + [a, op])[2..] == ns[2..] + [a, op];
      PairsAppend(ns[2..], a, op);
    } else {
      assert (ns + [a, op])[2..] == [];
    }
  }

  predicate CanEnd(last: Node) {
    last.Chdir? || (last.Run? && last.cmd.stdout != Piped)
  }

  /** The line of a list of pairs and a last command. */
  function LineFrom(ns: seq<Node>, last: Node): (l: Line)
    requires Pairs(ns) && CanEnd(last)
    ensures Sane(l) && Flatten(l) == ns + [last]
    decreases |ns|
  {
    if ns == [] then (if last.Chdir? then CdEnd(last.dir) else Simple(last.cmd, End))
    else
      var rest := LineFrom(ns[2..], last);
      assert ns + [last] == [ns[0], ns[1]] + (ns[2..] + [last]);
      if ns[0].Chdir? then Cd(ns[0].dir, rest)
      else if ns[1] == Pipe then Simple(ns[0].cmd, PipeTo(rest))
      else if ns[1] == And then Simple(ns[0].cmd, AndThen(rest))
      else Simple(ns[0].cmd, OrElse(rest))
  }

  predicate Good(m: Machine) {
    && Fits(m) && Pairs(m.nodes)
    && (m.current.Some? ==> CanEnd(m.current.value))
  }

  lemma StepKeepsGood(m: Machine, t: string)
    requires Good(m) && Step(m, t).Some?
    ensures Good(Step(m, t).value)
  {
    hide EnvMatch, Pairs;
    var m' := Step(m, t).value;
    if m.mode == InCommand {
      var c := m.current.value.cmd;
      if t == "|" { PairsAppend(m.nodes, Run(c.(stdout := Piped)), Pipe); }
      else if t == "&&" { PairsAppend(m.nodes, Run(c), And); }
      else if t == "||" { PairsAppend(m.nodes, Run(c), Or); }
    } else if m.mode == InCd {
      PairsAppend(m.nodes, m.current.value, And);
    }
  }

  lemma {:induction false} AcceptedIsLine(m: Machine, ts: seq<string>) returns (l: Line)
    requires Good(m) && Machined(m, ts).Some?
    ensures Sane(l) && Machined(m, ts) == Some(Flatten(l))
    decreases |ts|
  {
    hide Step;
    if ts == [] {
      l := LineFrom(m.nodes, m.current.value);
    } else {
      StepKeepsGood(m, ts[0]);
      l := AcceptedIsLine(Step(m, ts[0]).value, ts[1..]);
    }
  }

  /** Every accepted token list is the flat form of a line, and of one line only. */
  lemma ParsedIsLine(ts: seq<string>) returns (l: Line)
    requires ParseTokens(ts).Some?
    ensures Sane(l) && ParseTokens(ts) == Some(Flatten(l))
    ensures forall l' :: Sane(l') && Flatten(l') == Flatten(l) ==> l' == l
  {
    l := AcceptedIsLine(Fresh, ts);
    forall l' | Sane(l') && Flatten(l') == Flatten(l) ensures l' == l {
      FlattenInjective(l, l');
    }
  }

  lemma {:induction false} FlattenInjective(l: Line, l': Line)
    requires Sane(l) && Sane(l') && Flatten(l') == Flatten(l)
    ensures l == l'
    decreases l
  {
    FlattenFront(l);
    FlattenFront(l');
    hide Flatten, Sane;
    match l
    case CdEnd(_) =>
    case Cd(_, rest) => FlattenInjective(rest, l'.rest);
    case Simple(_, n) =>
      if !n.End? {
        FlattenInjective(n.rest, l'.next.rest);
      }
  }

  // ----- the object -----

  /** The working directory, process count and log a run begins with. */
  const Outset := World(".", 0, [])

  class Pipeline {
    var current: Option<Node>
    var nodes: seq<Node>

    constructor ()
      ensures nodes == [] && current == None
    {
      nodes, current := [], None;
    }

    /** Reads all tokens; false when an assertion fails on the way. */
    method Parse(tokens: seq<string>) returns (ok: bool)
      modifies this
      ensures ok == ParseTokens(tokens).Some?
      ensures ok ==> Some(nodes) == ParseTokens(tokens) && current == None
    {
      current, nodes := None, [];
      var rest, mode, env := tokens, Begin, NoEnv;
      while rest != []
        invariant Fits(Machine(mode, current, env, nodes))
        invariant Machined(Machine(mode, current, env, nodes), rest) == ParseTokens(tokens)
        decreases |rest|
      {
        var token := rest[0];
        rest := rest[1..];
        var good;
        good, mode, env := Feed(token, mode, env);
        if !good { return false; }
      }
      if current.None? { return false; }
      nodes, current := nodes + [current.value], None;
      return true;
    }

    /** What one token does to the object, the mode and the pending assignments. */
    method Feed(token: string, mode: Mode, env: map<string, string>) returns (ok: bool, mode': Mode, env': map<string, string>)
      requires Fits(Machine(mode, current, env, nodes))
      modifies this
      ensures var r := Step(old(Machine(mode, current, env, nodes)), token);
              if r.None? then !ok else ok && r.value == Machine(mode', current, env', nodes)
    {
      hide EnvMatch;
      ok, mode', env' := true, mode, env;
      match mode {
        case Begin =>
          var kv := EnvMatch(token);
          if kv.Some? {
            env' := env[kv.value.0 := kv.value.1];
          } else if token == "cd" {
            if env != NoEnv { return false, mode, env; }
            current, mode' := Some(Chdir(None)), InCd;
          } else {
            current, env', mode' := Some(Run(NewCommand(token, env))), NoEnv, InCommand;
          }
        case InCommand =>
          ok, mode' := FeedCommand(token, current.value.cmd, env);
        case InCd =>
          if token == "&&" {
            nodes, current, mode' := nodes + [current.value, And], None, Begin;
          } else {
            if current.value.dir != None { return false, mode, env; }
            current := Some(Chdir(Some(token)));
          }
        case ToOut =>
          var c := current.value.cmd;
          if c.stdout != Inherited { return false, mode, env; }
          current, mode' := Some(Run(c.(stdout := Path(token)))), InCommand;
        case ToErr =>
          var c := current.value.cmd;
          if c.stderr != Inherited { return false, mode, env; }
          current, mode' := Some(Run(c.(stderr := Path(token)))), InCommand;
        case FromIn =>
          var c := current.value.cmd;
          if c.stdin != None { return false, mode, env; }
          current, mode' := Some(Run(c.(stdin := Some(token)))), InCommand;
      }
    }

    method FeedCommand(token: string, c: Cmd, ghost env: map<string, string>) returns (ok: bool, mode': Mode)
      requires current == Some(Run(c))
      modifies this
      ensures var r := OnCommand(old(Machine(InCommand, current, env, nodes)), c, token);
              if r.None? then !ok else ok && r.value == Machine(mode', current, env, nodes)
    {
      ok, mode' := true, InCommand;
      if token == ">" {
        mode' := ToOut;
      } else if token == "2>" {
        mode' := ToErr;
      } else if token == "2>&1" {
        if c.stderr != Inherited { return false, InCommand; }
        current := Some(Run(c.(stderr := WithStdout)));
      } else if token == "<" {
        mode' := FromIn;
      } else if token == "|" {
        if c.stdout != Inherited { return false, InCommand; }
        nodes, current, mode' := nodes + [Run(c.(stdout := Piped)), Pipe], None, Begin;
      } else if token == "&&" {
        nodes, current, mode' := nodes + [Run(c), And], None, Begin;
      } else if token == "||" {
        nodes, current, mode' := nodes + [Run(c), Or], None, Begin;
      } else {
        current := Some(Run(c.(argv := c.argv + [token])));
      }
    }

    /** Runs what was parsed: the same launches, waits, files and status as the line means. */
    method RunPipeline(st: nat -> int, ghost l: Line) returns (o: Outcome)
      requires Sane(l) && nodes == Flatten(l)
      ensures o == Eval(st, l, Outset)
    {
      o := RunNodes(nodes, st, l);
    }
  }

  /** From tokens to the outcome: whatever is accepted runs as the one line it denotes. */
  method ParseAndRun(tokens: seq<string>, st: nat -> int) returns (r: Option<Outcome>)
    ensures r.None? <==> ParseTokens(tokens).None?
    ensures r.Some? ==> exists l :: Sane(l) && ParseTokens(tokens) == Some(Flatten(l)) && r.value == Eval(st, l, Outset)
  {
    var p := new Pipeline();
    var ok := p.Parse(tokens);
    if !ok { return None; }
    ghost var l := ParsedIsLine(tokens);
    var o := p.RunPipeline(st, l);
    return Some(o);
  }
}
