module CommandLine {
  // Command lines of the build's shell emulation: `|`, `&&`, `||`, `cd` and redirections.
  // This module holds the node list the parser builds, the same list read as a line
  // with structure, and what running a line means.

  import opened Common

  /** Where a command's output goes. */
  datatype Out = Inherited | Piped | WithStdout | Path(p: string)

  datatype Cmd = Cmd(argv: seq<string>, stdin: Option<string>, stdout: Out, stderr: Out, env: map<string, string>)

  datatype Node = Run(cmd: Cmd) | Chdir(dir: Option<string>) | Pipe | And | Or

  // ----- lines -----

  /** A line is a list of nodes in which commands and operators alternate. */
  datatype Line =
    | Cd(dir: Option<string>, rest: Line)    // cd dir && rest
    | CdEnd(dir: Option<string>)             // a line that ends in cd
    | Simple(cmd: Cmd, next: Next)

  datatype Next = End | PipeTo(rest: Line) | AndThen(rest: Line) | OrElse(rest: Line)

  /** Exactly the commands in front of a pipe write to it. */
  predicate Sane(l: Line) {
    match l
    case Cd(_, rest) => Sane(rest)
    case CdEnd(_) => true
    case Simple(c, n) => (c.stdout == Piped <==> n.PipeTo?) && (n.End? || Sane(n.rest))
  }

  function Flatten(l: Line): (ns: seq<Node>)
    ensures ns != []
  {
    match l
    case Cd(d, rest) => [Chdir(d), And] + Flatten(rest)
    case CdEnd(d) => [Chdir(d)]
    case Simple(c, End) => [Run(c)]
    case Simple(c, PipeTo(rest)) => [Run(c), Pipe] + Flatten(rest)
    case Simple(c, AndThen(rest)) => [Run(c), And] + Flatten(rest)
    case Simple(c, OrElse(rest)) => [Run(c), Or] + Flatten(rest)
  }

  // ----- effects -----

  /** How a launched process gets its input. */
  datatype Input = Terminal | FromFile(p: string) | FromProcess(id: nat)

  /** Processes are numbered in the order they are launched. */
  datatype Event =
    | Opened(p: string)
    | Launched(id: nat, cmd: Cmd, input: Input, dir: Option<string>)
    | Waited(id: nat)
    | Closed(p: string)

  datatype World = World(cwd: string, n: nat, log: seq<Event>)

  datatype Outcome = Exit(status: int, w: World) | Fault(log: seq<Event>)

  function JoinPath(cwd: string, d: string): string {
    if |d| > 0 && d[0] == '/' then d
    else if cwd == "" || cwd[|cwd| - 1] == '/' then cwd + d
    else cwd + "/" + d
  }

  predicate IsNull(p: string) {
    p == "NUL:" || p == "/dev/null"
  }

  function OutFiles(o: Out): seq<string> {
    if o.Path? && !IsNull(o.p) then [o.p] else []
  }

  /** A command behind a pipe leaves its `<` alone. */
  function InFiles(c: Cmd, piped: bool): seq<string> {
    if !piped && c.stdin.Some? then [c.stdin.value] else []
  }

  /** The files opened for a command, in order. */
  function Files(c: Cmd, piped: bool): seq<string> {
    InFiles(c, piped) + OutFiles(c.stdout) + OutFiles(c.stderr)
  }

  function Opens(ps: seq<string>): seq<Event> {
    if ps == [] then [] else [Opened(ps[0])] + Opens(ps[1..])
  }

  function Closes(ps: seq<string>): seq<Event> {
    if ps == [] then [] else [Closed(ps[0])] + Closes(ps[1..])
  }

  function Waits(from: nat, count: nat): seq<Event>
    decreases count
  {
    if count == 0 then [] else [Waited(from)] + Waits(from + 1, count - 1)
  }

  // ----- meaning -----

  /** A command of a pipe with the `cd`s in front of it. */
  datatype Stage = Stage(dirs: seq<Option<string>>, cmd: Cmd)

  /** The first pipe of a line, whether it breaks off in a `cd`, and what follows it. */
  datatype Group = Group(stages: seq<Stage>, stranded: bool, next: Next)

  function First(l: Line): (g: Group)
    ensures !g.stranded ==> g.stages != [] && !g.next.PipeTo?
    ensures !g.next.End? ==> g.next.rest < l
  {
    match l
    case Cd(d, rest) =>
      var g := First(rest);
      if g.stages == [] then g
      else g.(stages := [Stage([d] + g.stages[0].dirs, g.stages[0].cmd)] + g.stages[1..])
    case CdEnd(_) => Group([], true, End)
    case Simple(c, PipeTo(rest)) =>
      var g := First(rest);
      g.(stages := [Stage([], c)] + g.stages)
    case Simple(c, n) => Group([Stage([], c)], false, n)
  }

  /** The working directory after some `cd`s; `cd` without a directory is an error. */
  function Enter(cwd: string, dirs: seq<Option<string>>): Option<string>
    decreases |dirs|
  {
    if dirs == [] then Some(cwd)
    else if dirs[0].None? then None
    else Enter(JoinPath(cwd, dirs[0].value), dirs[1..])
  }

  function Source(c: Cmd, piped: bool, n: nat): Input {
    if piped && n > 0 then FromProcess(n - 1)
    else if c.stdin.Some? then FromFile(c.stdin.value)
    else Terminal
  }

  function Launch(c: Cmd, piped: bool, w: World): (w': World)
    ensures w'.n == w.n + 1
  {
    World(w.cwd, w.n + 1,
          w.log + Opens(Files(c, piped))
          + [Launched(w.n, c, Source(c, piped, w.n), if w.cwd == "." then None else Some(w.cwd))])
  }

  datatype Started = Started(w: World, files: seq<string>) | Broke(log: seq<Event>)

  /** Launches the stages of a pipe, each reading from the one before it. */
  function Start(g: seq<Stage>, piped: bool, w: World, files: seq<string>): (s: Started)
    ensures s.Started? ==> s.w.n == w.n + |g|
  {
    if g == [] then Started(w, files)
    else match Enter(w.cwd, g[0].dirs)
      case None => Broke(w.log)
      case Some(cwd) => Start(g[1..], true, Launch(g[0].cmd, piped, w.(cwd := cwd)), files + Files(g[0].cmd, piped))
  }

  /** Waits for all processes of a pipe; its status is that of the last one. */
  function Finish(st: nat -> int, from: nat, s: Started): Outcome
    requires s.Started? ==> from < s.w.n
  {
    match s
    case Broke(log) => Fault(log)
    case Started(w, files) => Exit(st(w.n - 1), w.(log := w.log + Waits(from, w.n - from) + Closes(files)))
  }

  function Halted(s: Started): Outcome {
    match s
    case Broke(log) => Fault(log)
    case Started(w, _) => Fault(w.log)
  }

  /** What follows a finished pipe: `&&` and `||` apply to the whole rest of the line. */
  function Follow(st: nat -> int, n: Next, o: Outcome): Outcome
    requires n.AndThen? || n.OrElse?
    decreases n.rest, 2
  {
    if o.Fault? then o
    else if n.AndThen? == (o.status == 0) then Eval(st, n.rest, o.w)
    else o
  }

  /** The meaning of a line, for every exit status each launched process may have. */
  function Eval(st: nat -> int, l: Line, w: World): Outcome
    decreases l, 1
  {
    var g := First(l);
    var s := Start(g.stages, false, w, []);
    if g.stranded then Halted(s)
    else if g.next.End? then Finish(st, w.n, s)
    else Follow(st, g.next, Finish(st, w.n, s))
  }
}
