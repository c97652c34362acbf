/** Command lines as a user writes them, and what the token machine makes of them. */
module PipelineSyntax {
  import opened Common
  import opened CommandLine
  import opened PipelineParse

  /** What may follow a command's name, in any order. */
  datatype Word = Arg(t: string) | OutTo(f: string) | ErrTo(f: string) | ErrToOut | InFrom(f: string)

  datatype Text =
    | WriteCd(dir: Option<string>, rest: Text)
    | WriteCdEnd(dir: Option<string>)
    | Write(env: seq<(string, string)>, name: string, words: seq<Word>, tail: Tail)

  datatype Tail = Stop | ThenPipe(rest: Text) | ThenAnd(rest: Text) | ThenOr(rest: Text)

  // ----- tokens -----

  function ShowEnv(es: seq<(string, string)>, rest: seq<string>): seq<string> {
    if es == [] then rest else [es[0].0 + "=" + es[0].1] + ShowEnv(es[1..], rest)
  }

  function ShowWords(ws: seq<Word>, rest: seq<string>): seq<string> {
    if ws == [] then rest
    else (match ws[0]
          case Arg(t) => [t]
          case OutTo(f) => [">", f]
          case ErrTo(f) => ["2>", f]
          case ErrToOut => ["2>&1"]
          case InFrom(f) => ["<", f]) + ShowWords(ws[1..], rest)
  }

  function ShowDir(d: Option<string>): seq<string> {
    if d.None? then ["cd"] else ["cd", d.value]
  }

  function Show(x: Text): seq<string> {
    match x
    case WriteCd(d, rest) => ShowDir(d) + (["&&"] + Show(rest))
    case WriteCdEnd(d) => ShowDir(d)
    case Write(es, name, ws, tail) => ShowEnv(es, [name] + ShowWords(ws, ShowTail(tail)))
  }

  function ShowTail(tail: Tail): seq<string> {
    match tail
    case Stop => []
    case ThenPipe(rest) => ["|"] + Show(rest)
    case ThenAnd(rest) => ["&&"] + Show(rest)
    case ThenOr(rest) => ["||"] + Show(rest)
  }

  /** No argument looks like an operator, no name like an assignment, no directory like `&&`. */
  predicate Plain(x: Text) {
    match x
    case WriteCd(d, rest) => d != Some("&&") && Plain(rest)
    case WriteCdEnd(d) => d != Some("&&")
    case Write(es, name, ws, tail) =>
      && (forall i :: 0 <= i < |es| ==> WordText(es[i].0) && ValueText(es[i].1))
      && !IsAssignment(name) && name != "cd"
      && (forall i :: 0 <= i < |ws| && ws[i].Arg? ==> PlainArg(ws[i].t))
      && (tail.Stop? || Plain(tail.rest))
  }

  predicate PlainArg(t: string) {
    t != ">" && t != "2>" && t != "2>&1" && t != "<" && t != "|" && t != "&&" && t != "||"
  }

  // ----- the line that is meant -----

  function AddEnv(env: map<string, string>, es: seq<(string, string)>): map<string, string>
    decreases |es|
  {
    if es == [] then env else AddEnv(env[es[0].0 := es[0].1], es[1..])
  }

  /** Adds a word to a command; each stream can be redirected once. */
  function AddWord(c: Cmd, w: Word): Option<Cmd> {
    match w
    case Arg(t) => Some(c.(argv := c.argv + [t]))
    case OutTo(f) => if c.stdout != Inherited then None else Some(c.(stdout := Path(f)))
    case ErrTo(f) => if c.stderr != Inherited then None else Some(c.(stderr := Path(f)))
    case ErrToOut => if c.stderr != Inherited then None else Some(c.(stderr := WithStdout))
    case InFrom(f) => if c.stdin != None then None else Some(c.(stdin := Some(f)))
  }

  function AddWords(c: Cmd, ws: seq<Word>): Option<Cmd>
    decreases |ws|
  {
    if ws == [] then Some(c)
    else match AddWord(c, ws[0])
      case None => None
      case Some(c') => AddWords(c', ws[1..])
  }

  /** The line a text stands for, unless a stream is redirected twice or both to a file and to a pipe. */
  function Meant(x: Text): Option<Line>
    decreases x
  {
    match x
    case WriteCd(d, rest) =>
      (match Meant(rest)
       case None => None
       case Some(l) => Some(Cd(d, l)))
    case WriteCdEnd(d) => Some(CdEnd(d))
    case Write(es, name, ws, tail) =>
      (match AddWords(NewCommand(name, AddEnv(NoEnv, es)), ws)
       case None => None
       case Some(c) =>
         Joined(c, tail))
  }

  /** The line of a command and what follows it. */
  function Joined(c: Cmd, tail: Tail): Option<Line>
    decreases tail
  {
    if tail.Stop? then Some(Simple(c, End))
    else if tail.ThenPipe? && c.stdout != Inherited then None
    else match Meant(tail.rest)
      case None => None
      case Some(l) =>
        match tail
        case ThenPipe(_) => Some(Simple(c.(stdout := Piped), PipeTo(l)))
        case ThenAnd(_) => Some(Simple(c, AndThen(l)))
        case ThenOr(_) => Some(Simple(c, OrElse(l)))
  }

  // ----- the machine reads what was meant -----

  function Prepend(ns: seq<Node>, l: Option<Line>): Option<seq<Node>> {
    match l
    case None => None
    case Some(l) => Some(ns + Flatten(l))
  }

  lemma {:induction false} ReadsEnv(es: seq<(string, string)>, rest: seq<string>, env: map<string, string>, ns: seq<Node>)
    requires forall i :: 0 <= i < |es| ==> WordText(es[i].0) && ValueText(es[i].1)
    ensures Machined(Machine(Begin, None, env, ns), ShowEnv(es, rest)) == Machined(Machine(Begin, None, AddEnv(env, es), ns), rest)
    decreases |es|
  {
    hide EnvMatch;
    if es != [] {
      var ts := ShowEnv(es, rest);
      assert ts[0] == es[0].0 + "=" + es[0].1 && ts[1..] == ShowEnv(es[1..], rest);
      EnvMatchIff(ts[0], es[0].0, es[0].1);
      hide WordText, ValueText;
      ReadsEnv(es[1..], rest, env[es[0].0 := es[0].1], ns);
    }
  }

  lemma ReadsWord(w: Word, ts: seq<string>, c: Cmd, ns: seq<Node>)
    requires w.Arg? ==> PlainArg(w.t)
    ensures Machined(Machine(InCommand, Some(Run(c)), NoEnv, ns), ShowWords([w], ts)) ==
            match AddWord(c, w)
            case None => None
            case Some(c') => Machined(Machine(InCommand, Some(Run(c')), NoEnv, ns), ts)
  {
    hide EnvMatch;
    var ts' := ShowWords([w], ts);
    assert [w][1..] == [] && ShowWords([], ts) == ts;
    if w.Arg? || w.ErrToOut? {
      assert ts'[1..] == ts;
    } else {
      var m := Machine(if w.OutTo? then ToOut else if w.ErrTo? then ToErr else FromIn, Some(Run(c)), NoEnv, ns);
      assert Machined(Machine(InCommand, Some(Run(c)), NoEnv, ns), ts') == Machined(m, ts'[1..]);
      assert ts'[1..][0] == w.f && ts'[1..][1..] == ts;
    }
  }

  lemma {:induction false} ReadsWords(ws: seq<Word>, rest: seq<string>, c: Cmd, ns: seq<Node>)
    requires forall i :: 0 <= i < |ws| && ws[i].Arg? ==> PlainArg(ws[i].t)
    ensures Machined(Machine(InCommand, Some(Run(c)), NoEnv, ns), ShowWords(ws, rest)) ==
            match AddWords(c, ws)
            case None => None
            case Some(c') => Machined(Machine(InCommand, Some(Run(c')), NoEnv, ns), rest)
    decreases |ws|
  {
    hide Machined;
    if ws != [] {
      var ts := ShowWords(ws[1..], rest);
      assert ShowWords([], ts) == ts && [ws[0]][1..] == [];
      assert ShowWords(ws, rest) == ShowWords([ws[0]], ts);
      ReadsWord(ws[0], ts, c, ns);
      if AddWord(c, ws[0]).Some? {
        ReadsWords(ws[1..], rest, AddWord(c, ws[0]).value, ns);
      }
    }
  }

  lemma ReadsDir(d: Option<string>, rest: seq<string>, ns: seq<Node>)
    requires d != Some("&&")
    ensures Machined(Machine(Begin, None, NoEnv, ns), ShowDir(d) + rest) == Machined(Machine(InCd, Some(Chdir(d)), NoEnv, ns), rest)
  {
    var ts := ShowDir(d) + rest;
    EnvMatchSomeIff("cd");
    hide EnvMatch;
    var m := Machine(InCd, Some(Chdir(None)), NoEnv, ns);
    assert Machined(Machine(Begin, None, NoEnv, ns), ts) == Machined(m, ts[1..]);
    if d.None? {
      assert ts[1..] == rest;
    } else {
      assert ts[1..][0] == d.value && ts[1..][1..] == rest;
    }
  }

  lemma {:induction false} Reads(x: Text, ns: seq<Node>)
    requires Plain(x)
    ensures Machined(Machine(Begin, None, NoEnv, ns), Show(x)) == Prepend(ns, Meant(x))
    decreases x
  {
    hide EnvMatch;
    match x
    case WriteCd(d, rest) =>
      ReadsDir(d, ["&&"] + Show(rest), ns);
      ReadsCdAnd(d, rest, ns);
      Reads(rest, ns + [Chdir(d), And]);
      if Meant(rest).Some? {
        assert ns + [Chdir(d), And] + Flatten(Meant(rest).value) == ns + Flatten(Cd(d, Meant(rest).value));
      }
    case WriteCdEnd(d) =>
      ReadsDir(d, [], ns);
      assert ShowDir(d) + [] == ShowDir(d);
    case Write(es, name, ws, tail) =>
      ReadsCommand(es, name, ws, tail, ns);
      var c := AddWords(NewCommand(name, AddEnv(NoEnv, es)), ws);
      if c.Some? {
        hide AddWords, AddEnv, Machined, ShowTail;
        ReadsTail(c.value, tail, ns);
      }
  }

  lemma ReadsCdAnd(d: Option<string>, rest: Text, ns: seq<Node>)
    ensures Machined(Machine(InCd, Some(Chdir(d)), NoEnv, ns), ["&&"] + Show(rest))
         == Machined(Machine(Begin, None, NoEnv, ns + [Chdir(d), And]), Show(rest))
  {
    hide Show;
    assert (["&&"] + Show(rest))[1..] == Show(rest);
  }

  lemma ReadsCommand(es: seq<(string, string)>, name: string, ws: seq<Word>, tail: Tail, ns: seq<Node>)
    requires Plain(Write(es, name, ws, tail))
    ensures Machined(Machine(Begin, None, NoEnv, ns), Show(Write(es, name, ws, tail))) ==
            match AddWords(NewCommand(name, AddEnv(NoEnv, es)), ws)
            case None => None
            case Some(c) => Machined(Machine(InCommand, Some(Run(c)), NoEnv, ns), ShowTail(tail))
  {
    EnvMatchSomeIff(name);
    hide EnvMatch, ShowWords, ShowTail, AddWords, AddEnv, ShowEnv, IsAssignment;
    var ts := ShowWords(ws, ShowTail(tail));
    var env := AddEnv(NoEnv, es);
    ReadsEnv(es, [name] + ts, NoEnv, ns);
    assert ([name] + ts)[0] == name && ([name] + ts)[1..] == ts;
    ReadsWords(ws, ShowTail(tail), NewCommand(name, env), ns);
  }

  function Op(tail: Tail): Node
    requires !tail.Stop?
  {
    match tail
    case ThenPipe(_) => Pipe
    case ThenAnd(_) => And
    case ThenOr(_) => Or
  }

  function Into(c: Cmd, tail: Tail): Cmd {
    if tail.ThenPipe? then c.(stdout := Piped) else c
  }

  lemma ReadsOperator(c: Cmd, tail: Tail, ns: seq<Node>)
    requires !tail.Stop?
    ensures Machined(Machine(InCommand, Some(Run(c)), NoEnv, ns), ShowTail(tail)) ==
            if tail.ThenPipe? && c.stdout != Inherited then None
            else Machined(Machine(Begin, None, NoEnv, ns + [Run(Into(c, tail)), Op(tail)]), Show(tail.rest))
  {
    hide Show;
    assert ShowTail(tail)[1..] == Show(tail.rest);
  }

  lemma {:induction false} ReadsTail(c: Cmd, tail: Tail, ns: seq<Node>)
    requires tail.Stop? || Plain(tail.rest)
    ensures Machined(Machine(InCommand, Some(Run(c)), NoEnv, ns), ShowTail(tail)) == Prepend(ns, Joined(c, tail))
    decreases tail
  {
    if !tail.Stop? {
      hide Show, Meant, Plain, Machined, ShowTail, Joined, Into, Op;
      ReadsOperator(c, tail, ns);
      JoinedBehind(c, tail, ns);
      Reads(tail.rest, ns + [Run(Into(c, tail)), Op(tail)]);
    }
  }

  /** The line of a command and its tail is the command, the operator and the line behind it. */
  lemma JoinedBehind(c: Cmd, tail: Tail, ns: seq<Node>)
    requires !tail.Stop?
    ensures Prepend(ns, Joined(c, tail)) ==
            if tail.ThenPipe? && c.stdout != Inherited then None
            else Prepend(ns + [Run(Into(c, tail)), Op(tail)], Meant(tail.rest))
  {
    hide Meant;
    var front, l := [Run(Into(c, tail)), Op(tail)], Meant(tail.rest);
    if l.Some? && !(tail.ThenPipe? && c.stdout != Inherited) {
      assert Flatten(Joined(c, tail).value) == front + Flatten(l.value);
      Regroup(ns, front, Flatten(l.value));
    }
  }

  lemma Regroup(a: seq<Node>, b: seq<Node>, c: seq<Node>)
    ensures a + b + c == a + (b + c)
  {
  }

  /**
   Every plain text: the parser accepts it exactly when no stream is redirected twice,
   and then it yields the nodes of the line that is meant.
   */
  lemma ParsesWhatIsMeant(x: Text)
    requires Plain(x)
    ensures match Meant(x)
            case None => ParseTokens(Show(x)) == None
            case Some(l) => ParseTokens(Show(x)) == Some(Flatten(l))
  {
    Reads(x, []);
    if Meant(x).Some? {
      assert [] + Flatten(Meant(x).value) == Flatten(Meant(x).value);
    }
  }
}
