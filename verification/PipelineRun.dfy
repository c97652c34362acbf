/** The loop that runs a parsed node list, and its proof against the meaning of lines. */
module PipelineRun {
  import opened Common
  import opened CommandLine

  // ----- a line in the middle of a pipe -----

  /** The meaning of the rest `l` of a line when processes `from` to `w.n - 1` of its first pipe are running. */
  ghost function Continue(st: nat -> int, l: Line, piped: bool, from: nat, files: seq<string>, w: World): Outcome
    requires from <= w.n
  {
    var g := First(l);
    var s := Start(g.stages, piped, w, files);
    if g.stranded then Halted(s)
    else if g.next.End? then Finish(st, from, s)
    else Follow(st, g.next, Finish(st, from, s))
  }

  lemma ContinueCd(st: nat -> int, d: Option<string>, rest: Line, piped: bool, from: nat, files: seq<string>, w: World)
    requires from <= w.n
    ensures d.Some? ==>
      Continue(st, Cd(d, rest), piped, from, files, w)
        == Continue(st, rest, piped, from, files, w.(cwd := JoinPath(w.cwd, d.value)))
    ensures d.None? ==> Continue(st, Cd(d, rest), piped, from, files, w) == Fault(w.log)
  {
    var g, g' := First(rest), First(Cd(d, rest));
    if g.stages != [] {
      var s := g.stages[0];
      assert g'.stages[0] == Stage([d] + s.dirs, s.cmd) && g'.stages[1..] == g.stages[1..];
      assert ([d] + s.dirs)[1..] == s.dirs;
    }
  }

  lemma Stranded(st: nat -> int, d: Option<string>, piped: bool, from: nat, files: seq<string>, w: World)
    requires from <= w.n
    ensures Continue(st, CdEnd(d), piped, from, files, w) == Fault(w.log)
  {
  }

  lemma ContinuePipe(st: nat -> int, c: Cmd, rest: Line, piped: bool, from: nat, files: seq<string>, w: World)
    requires from <= w.n
    ensures Continue(st, Simple(c, PipeTo(rest)), piped, from, files, w)
         == Continue(st, rest, true, from, files + Files(c, piped), Launch(c, piped, w))
  {
    var g := First(Simple(c, PipeTo(rest)));
    assert g.stages[0] == Stage([], c) && g.stages[1..] == First(rest).stages;
  }

  /** The world after a pipe that ends with `c`. */
  ghost function Settled(c: Cmd, piped: bool, from: nat, files: seq<string>, w: World): World
    requires from <= w.n
  {
    var w1 := Launch(c, piped, w);
    w1.(log := w1.log + Waits(from, w1.n - from) + Closes(files + Files(c, piped)))
  }

  lemma EvalIsContinue(st: nat -> int, l: Line, w: World)
    ensures Eval(st, l, w) == Continue(st, l, false, w.n, [], w)
  {
  }

  lemma ContinueLast(st: nat -> int, c: Cmd, n: Next, piped: bool, from: nat, files: seq<string>, w: World)
    requires from <= w.n && !n.PipeTo?
    ensures var w1 := Settled(c, piped, from, files, w);
            Continue(st, Simple(c, n), piped, from, files, w) ==
              if n.End? || n.AndThen? != (st(w.n) == 0) then Exit(st(w.n), w1)
              else Continue(st, n.rest, false, w1.n, [], w1)
  {
    var g := First(Simple(c, n));
    assert g.stages == [Stage([], c)] && !g.stranded && g.next == n;
    assert g.stages[1..] == [];
    assert Enter(w.cwd, []) == Some(w.cwd) && w.(cwd := w.cwd) == w;
    var w1, fs := Launch(c, piped, w), files + Files(c, piped);
    assert Start(g.stages, piped, w, files) == Start([], true, w1, fs) == Started(w1, fs);
    assert Finish(st, from, Started(w1, fs)) == Exit(st(w.n), Settled(c, piped, from, files, w));
    if !n.End? {
      EvalIsContinue(st, n.rest, Settled(c, piped, from, files, w));
    }
  }

  // ----- processes and files -----

  datatype Proc = Proc(id: nat, piped: bool)

  datatype Handle = DevNull | File(p: string)

  function Names(hs: seq<Handle>): seq<string> {
    if hs == [] then [] else (if hs[0].File? then [hs[0].p] else []) + Names(hs[1..])
  }

  lemma Regroup(a: seq<string>, b: seq<string>, c: seq<string>)
    ensures a + (b + c) == a + b + c
  {
  }

  lemma {:induction false} NamesAppend(a: seq<Handle>, b: seq<Handle>)
    ensures Names(a + b) == Names(a) + Names(b)
  {
    if a == [] {
      assert a + b == b;
    } else {
      var front := if a[0].File? then [a[0].p] else [];
      assert (a + b)[0] == a[0];
      assert (a + b)[1..] == a[1..] + b;
      NamesAppend(a[1..], b);
      Regroup(front, Names(a[1..]), Names(b));
    }
  }

  lemma {:induction false} ClosesAppend(a: seq<string>, b: seq<string>)
    ensures Closes(a + b) == Closes(a) + Closes(b)
  {
    if a == [] {
      assert a + b == b;
    } else {
      assert (a + b)[1..] == a[1..] + b;
      ClosesAppend(a[1..], b);
    }
  }

  lemma {:induction false} OpensAppend(a: seq<string>, b: seq<string>)
    ensures Opens(a + b) == Opens(a) + Opens(b)
  {
    if a == [] {
      assert a + b == b;
    } else {
      assert (a + b)[1..] == a[1..] + b;
      OpensAppend(a[1..], b);
    }
  }

  lemma {:induction false} WaitsAppend(from: nat, count: nat)
    ensures Waits(from, count + 1) == Waits(from, count) + [Waited(from + count)]
    decreases count
  {
    if count > 0 {
      WaitsAppend(from + 1, count - 1);
    }
  }

  /** Processes `from`, `from + 1`, ..., all of them writing to a pipe except possibly the last. */
  predicate Consecutive(procs: seq<Proc>, from: nat) {
    forall i :: 0 <= i < |procs| ==> procs[i].id == from + i
  }

  /** Waits for every process, then looks for one that failed. */
  method ExecPipedCommands(st: nat -> int, procs: seq<Proc>, ghost from: nat) returns (retval: int, waits: seq<Event>)
    requires procs != [] && Consecutive(procs, from)
    ensures retval == st(procs[|procs| - 1].id)
    ensures waits == Waits(from, |procs|)
  {
    var retvals: seq<int> := [];
    waits := [];
    for i := 0 to |procs|
      invariant |retvals| == i && forall k :: 0 <= k < i ==> retvals[k] == st(procs[k].id)
      invariant waits == Waits(from, i)
    {
      WaitsAppend(from, i);
      retvals, waits := retvals + [st(procs[i].id)], waits + [Waited(procs[i].id)];
    }
    retval := 0;
    for i := 0 to |retvals|
      invariant retval == 0 && forall k :: 0 <= k < i ==> retvals[k] == 0
    {
      if retvals[i] != 0 {
        retval := retvals[|retvals| - 1];
        break;
      }
    }
  }

  method CloseFiles(files: seq<Handle>) returns (closes: seq<Event>)
    ensures closes == Closes(Names(files))
  {
    closes := [];
    assert files[..0] == [];
    for i := 0 to |files|
      invariant closes == Closes(Names(files[..i]))
    {
      assert files[..i + 1] == files[..i] + [files[i]];
      NamesAppend(files[..i], [files[i]]);
      assert Names([files[i]]) == if files[i].File? then [files[i].p] + Names([]) else Names([]);
      ClosesAppend(Names(files[..i]), Names([files[i]]));
      if files[i] != DevNull {
        closes := closes + [Closed(files[i].p)];
      }
    }
    assert files[..|files|] == files;
  }

  method OpenOut(o: Out) returns (hs: seq<Handle>, opens: seq<Event>)
    ensures Names(hs) == OutFiles(o) && opens == Opens(OutFiles(o))
  {
    hs, opens := [], [];
    if o.Path? {
      if IsNull(o.p) {
        hs := [DevNull];
      } else {
        hs, opens := [File(o.p)], [Opened(o.p)];
      }
    }
  }

  /** The input of a command: the pipe of its predecessor, a file, or neither. */
  method OpenInput(c: Cmd, pipe: bool, procs: seq<Proc>, n: nat) returns (input: Input, hs: seq<Handle>, opens: seq<Event>)
    requires pipe ==> n > 0 && procs != [] && procs[|procs| - 1] == Proc(n - 1, true)
    ensures input == Source(c, pipe, n)
    ensures Names(hs) == InFiles(c, pipe) && opens == Opens(InFiles(c, pipe))
  {
    input, hs, opens := Terminal, [], [];
    if pipe {
      var last := procs[|procs| - 1];
      input := if last.piped then FromProcess(last.id) else Terminal;
    } else if c.stdin.Some? {
      input, hs, opens := FromFile(c.stdin.value), [File(c.stdin.value)], [Opened(c.stdin.value)];
      assert hs[1..] == [] && [c.stdin.value][1..] == [];
    }
  }

  /** Opens the files of a command and launches it. */
  method Spawn(c: Cmd, pipe: bool, procs: seq<Proc>, w: World) returns (w': World, hs: seq<Handle>)
    requires pipe ==> w.n > 0 && procs != [] && procs[|procs| - 1] == Proc(w.n - 1, true)
    ensures w' == Launch(c, pipe, w)
    ensures Names(hs) == Files(c, pipe)
  {
    hide Opens, Names, OutFiles, InFiles, Source;
    var input, hs0, opens0 := OpenInput(c, pipe, procs, w.n);
    var hs1, opens1 := OpenOut(c.stdout);
    var hs2, opens2 := OpenOut(c.stderr);
    NamesAppend(hs0, hs1);
    NamesAppend(hs0 + hs1, hs2);
    OpensAppend(InFiles(c, pipe), OutFiles(c.stdout));
    OpensAppend(InFiles(c, pipe) + OutFiles(c.stdout), OutFiles(c.stderr));
    hs := hs0 + hs1 + hs2;
    var opens := opens0 + opens1 + opens2;
    assert opens == Opens(Files(c, pipe));
    w' := World(w.cwd, w.n + 1, w.log + opens + [Launched(w.n, c, input, if w.cwd == "." then None else Some(w.cwd))]);
  }

  // ----- the loop -----

  ghost predicate Running(pipe: bool, procs: seq<Proc>, from: nat, w: World) {
    && from + |procs| == w.n
    && Consecutive(procs, from)
    && pipe == (procs != [])
    && (pipe ==> procs[|procs| - 1].piped)
  }

  /** Launches the next command of a pipe. */
  method LaunchNext(c: Cmd, pipe: bool, procs: seq<Proc>, files: seq<Handle>, w: World, ghost from: nat)
    returns (w': World, procs': seq<Proc>, files': seq<Handle>)
    requires Running(pipe, procs, from, w)
    ensures w' == Launch(c, pipe, w)
    ensures Names(files') == Names(files) + Files(c, pipe)
    ensures procs' != [] && Consecutive(procs', from) && from + |procs'| == w'.n
    ensures c.stdout == Piped ==> Running(true, procs', from, w')
  {
    var hs;
    w', hs := Spawn(c, pipe, procs, w);
    NamesAppend(files, hs);
    procs', files' := procs + [Proc(w'.n - 1, c.stdout == Piped)], files + hs;
  }

  function Operator(n: Next): Node
    requires !n.End?
  {
    match n
    case PipeTo(_) => Pipe
    case AndThen(_) => And
    case OrElse(_) => Or
  }

  /** What the loop finds at the front of the list. */
  lemma FlattenFront(l: Line)
    requires Sane(l)
    ensures var ns := Flatten(l);
            match l
            case CdEnd(d) => ns == [Chdir(d)]
            case Cd(d, rest) => |ns| > 2 && ns[0] == Chdir(d) && ns[1] == And && ns[1..][1..] == Flatten(rest) && Sane(rest)
            case Simple(c, n) =>
              && ns[0] == Run(c) && (n.End? <==> ns[1..] == []) && (c.stdout == Piped <==> n.PipeTo?)
              && (!n.End? ==> ns[1] == Operator(n) && ns[1..][1..] == Flatten(n.rest) && Sane(n.rest))
  {
  }

  /** The end of a pipe: wait, then close its files. */
  method EndGroup(st: nat -> int, procs: seq<Proc>, files: seq<Handle>, w: World, ghost from: nat) returns (retval: int, w': World)
    requires procs != [] && Consecutive(procs, from) && from + |procs| == w.n
    ensures retval == st(w.n - 1)
    ensures w' == w.(log := w.log + Waits(from, w.n - from) + Closes(Names(files)))
  {
    var waits;
    retval, waits := ExecPipedCommands(st, procs, from);
    var closes := CloseFiles(files);
    w' := w.(log := w.log + waits + closes);
  }

  lemma NoneRunning(w: World)
    ensures Running(false, [], w.n, w)
  {
  }

  /** One turn of the loop for a command: launches it and, at the end of a pipe, decides whether the line is over. */
  method RunCommand(st: nat -> int, c: Cmd, pipeline: seq<Node>, pipe: bool, procs: seq<Proc>, files: seq<Handle>, w: World,
                    ghost l: Line, ghost from: nat)
    returns (done: bool, o: Outcome, pipeline': seq<Node>, pipe': bool, procs': seq<Proc>, files': seq<Handle>, w': World,
             ghost l': Line, ghost from': nat)
    requires Sane(l) && l.Simple? && l.cmd == c && pipeline == Flatten(l)[1..] && Running(pipe, procs, from, w)
    ensures done ==> o == Continue(st, l, pipe, from, Names(files), w)
    ensures !done ==>
      && Sane(l') && pipeline' == Flatten(l') && |pipeline'| < |pipeline|
      && Running(pipe', procs', from', w')
      && Continue(st, l', pipe', from', Names(files'), w') == Continue(st, l, pipe, from, Names(files), w)
  {
    assert Names([]) == [];
    hide Continue, Eval, Launch, Files, Names, Waits, Closes, Flatten, Sane, Consecutive;
    FlattenFront(l);
    done, o, pipeline', pipe', l', from' := false, Fault([]), pipeline, true, l, from;
    w', procs', files' := LaunchNext(c, pipe, procs, files, w, from);
    if pipeline' != [] && pipeline'[0] == Pipe {
      ContinuePipe(st, c, l.next.rest, pipe, from, Names(files), w);
      pipeline', l' := pipeline'[1..], l.next.rest;
    } else {
      ContinueLast(st, c, l.next, pipe, from, Names(files), w);
      var retval;
      retval, w' := EndGroup(st, procs', files', w', from);
      assert w' == Settled(c, pipe, from, Names(files), w) && retval == st(w.n);
      hide Settled;
      done, o := true, Exit(retval, w');
      if pipeline' == [] { return; }
      var op := pipeline'[0];
      pipeline' := pipeline'[1..];
      if op == Or && retval == 0 { return; }
      if op == And && retval != 0 { return; }
      done, pipe', procs', files' := false, false, [], [];
      l', from' := l.next.rest, w'.n;
      NoneRunning(w');
    }
  }

  /** Whatever the exit statuses, the loop does what the line means. */
  method RunNodes(nodes: seq<Node>, st: nat -> int, ghost line: Line) returns (o: Outcome)
    requires Sane(line) && nodes == Flatten(line)
    ensures o == Eval(st, line, World(".", 0, []))
  {
    var pipeline, pipe := nodes, false;
    var files: seq<Handle> := [];
    var procs: seq<Proc> := [];
    var w := World(".", 0, []);
    ghost var l, from: nat := line, 0;
    EvalIsContinue(st, line, w);
    assert Names([]) == [];
    hide Continue, Eval, Names, Flatten, Sane, JoinPath;
    while pipeline != []
      invariant Sane(l) && pipeline == Flatten(l)
      invariant Running(pipe, procs, from, w)
      invariant Continue(st, l, pipe, from, Names(files), w) == Eval(st, line, World(".", 0, []))
      decreases |pipeline|
    {
      FlattenFront(l);
      var node := pipeline[0];
      pipeline := pipeline[1..];
      if node.Chdir? {
        if pipeline == [] {
          Stranded(st, l.dir, pipe, from, Names(files), w);
          return Fault(w.log);
        }
        ContinueCd(st, l.dir, l.rest, pipe, from, Names(files), w);
        var op := pipeline[0];
        pipeline := pipeline[1..];
        if op != And || node.dir.None? { return Fault(w.log); }
        w := w.(cwd := JoinPath(w.cwd, node.dir.value));
        l := l.rest;
      } else {
        if !node.Run? { return Fault(w.log); }
        var done;
        done, o, pipeline, pipe, procs, files, w, l, from :=
          RunCommand(st, node.cmd, pipeline, pipe, procs, files, w, l, from);
        if done { return; }
      }
    }
    assert false;
  }
}
