/** What every run of a line leaves behind, and where lines differ from the POSIX shell. */
module PipelineLaws {
  import opened Common
  import opened CommandLine

  // ----- launches, waits and files of a log -----

  function Launches(log: seq<Event>): seq<Event> {
    if log == [] then [] else Launches(log[..|log| - 1]) + (if log[|log| - 1].Launched? then [log[|log| - 1]] else [])
  }

  function WaitIds(log: seq<Event>): seq<nat> {
    if log == [] then [] else WaitIds(log[..|log| - 1]) + (if log[|log| - 1].Waited? then [log[|log| - 1].id] else [])
  }

  function Unclosed(log: seq<Event>): multiset<string> {
    if log == [] then multiset{}
    else match log[|log| - 1]
      case Opened(p) => Unclosed(log[..|log| - 1]) + multiset{p}
      case Closed(p) => Unclosed(log[..|log| - 1]) - multiset{p}
      case _ => Unclosed(log[..|log| - 1])
  }

  function Upto(n: nat): seq<nat> {
    seq(n, i => i)
  }

  lemma Append(log: seq<Event>, e: Event)
    ensures Launches(log + [e]) == Launches(log) + (if e.Launched? then [e] else [])
    ensures WaitIds(log + [e]) == WaitIds(log) + (if e.Waited? then [e.id] else [])
    ensures e.Opened? ==> Unclosed(log + [e]) == Unclosed(log) + multiset{e.p}
    ensures e.Closed? ==> Unclosed(log + [e]) == Unclosed(log) - multiset{e.p}
    ensures e.Launched? || e.Waited? ==> Unclosed(log + [e]) == Unclosed(log)
  {
    assert (log + [e])[..|log|] == log;
  }

  lemma {:induction false} AppendOpens(log: seq<Event>, ps: seq<string>)
    ensures Launches(log + Opens(ps)) == Launches(log) && WaitIds(log + Opens(ps)) == WaitIds(log)
    ensures Unclosed(log + Opens(ps)) == Unclosed(log) + multiset(ps)
    decreases |ps|
  {
    hide Launches, WaitIds, Unclosed;
    if ps == [] {
      assert log + Opens(ps) == log;
    } else {
      Append(log, Opened(ps[0]));
      AppendOpens(log + [Opened(ps[0])], ps[1..]);
      assert log + [Opened(ps[0])] + Opens(ps[1..]) == log + Opens(ps);
      assert ps == [ps[0]] + ps[1..];
    }
  }

  lemma RemoveBoth(a: multiset<string>, b: multiset<string>, c: multiset<string>)
    ensures a - b - c == a - (b + c)
  {
  }

  lemma {:induction false} AppendCloses(log: seq<Event>, ps: seq<string>)
    ensures Launches(log + Closes(ps)) == Launches(log) && WaitIds(log + Closes(ps)) == WaitIds(log)
    ensures Unclosed(log + Closes(ps)) == Unclosed(log) - multiset(ps)
    decreases |ps|
  {
    hide Launches, WaitIds, Unclosed;
    if ps == [] {
      assert log + Closes(ps) == log;
    } else {
      Append(log, Closed(ps[0]));
      AppendCloses(log + [Closed(ps[0])], ps[1..]);
      RemoveBoth(Unclosed(log), multiset{ps[0]}, multiset(ps[1..]));
      assert log + [Closed(ps[0])] + Closes(ps[1..]) == log + Closes(ps);
      assert ps == [ps[0]] + ps[1..];
    }
  }

  lemma {:induction false} AppendWaits(log: seq<Event>, from: nat, count: nat)
    requires WaitIds(log) == Upto(from)
    ensures Launches(log + Waits(from, count)) == Launches(log) && Unclosed(log + Waits(from, count)) == Unclosed(log)
    ensures WaitIds(log + Waits(from, count)) == Upto(from + count)
    decreases count
  {
    hide Launches, WaitIds, Unclosed;
    if count == 0 {
      assert log + Waits(from, count) == log;
    } else {
      Append(log, Waited(from));
      assert Upto(from) + [from] == Upto(from + 1);
      AppendWaits(log + [Waited(from)], from + 1, count - 1);
      assert log + [Waited(from)] + Waits(from + 1, count - 1) == log + Waits(from, count);
    }
  }

  // ----- wiring -----

  /** Every process reads from its predecessor exactly when the predecessor writes to a pipe. */
  predicate Wired(ls: seq<Event>) {
    && (forall i :: 0 <= i < |ls| ==> ls[i].Launched? && ls[i].id == i)
    && (forall i :: 0 <= i < |ls| ==> (ls[i].input.FromProcess? <==> i > 0 && ls[i - 1].cmd.stdout == Piped))
    && (forall i :: 0 <= i < |ls| && ls[i].input.FromProcess? ==> ls[i].input.id == i - 1)
  }

  predicate LastPiped(ls: seq<Event>) {
    ls != [] && ls[|ls| - 1].Launched? && ls[|ls| - 1].cmd.stdout == Piped
  }

  /** Between pipes: all processes have been waited for, in the order they were launched, and no file is open. */
  predicate Settled(w: World) {
    var ls := Launches(w.log);
    && Wired(ls) && |ls| == w.n && !LastPiped(ls)
    && WaitIds(w.log) == Upto(w.n)
    && Unclosed(w.log) == multiset{}
  }

  /** Inside a pipe that began with process `from`. */
  predicate Open(w: World, from: nat, piped: bool, files: seq<string>) {
    var ls := Launches(w.log);
    && Wired(ls) && |ls| == w.n && piped == LastPiped(ls)
    && WaitIds(w.log) == Upto(from)
    && Unclosed(w.log) == multiset(files)
  }

  lemma LaunchKeeps(c: Cmd, piped: bool, w: World, from: nat, files: seq<string>)
    requires Open(w, from, piped, files)
    ensures Open(Launch(c, piped, w), from, c.stdout == Piped, files + Files(c, piped))
  {
    hide Files, Launches, WaitIds, Unclosed, Opens, Upto;
    var fs := Files(c, piped);
    var e := Launched(w.n, c, Source(c, piped, w.n), if w.cwd == "." then None else Some(w.cwd));
    AppendOpens(w.log, fs);
    Append(w.log + Opens(fs), e);
    assert Launches(Launch(c, piped, w).log) == Launches(w.log) + [e];
  }

  lemma OpenHere(w: World, from: nat, piped: bool, files: seq<string>)
    requires Open(w, from, piped, files)
    ensures Wired(Launches(w.log))
  {
    hide Launches, WaitIds, Unclosed, Wired, LastPiped;
  }

  lemma OpenMoved(w: World, from: nat, piped: bool, files: seq<string>, cwd: string)
    requires Open(w, from, piped, files)
    ensures Open(w.(cwd := cwd), from, piped, files)
  {
    hide Launches, WaitIds, Unclosed, Wired, LastPiped;
  }

  lemma StartNone(piped: bool, w: World, files: seq<string>)
    ensures Start([], piped, w, files) == Started(w, files)
  {
  }

  lemma StartStep(g: seq<Stage>, piped: bool, w: World, files: seq<string>)
    requires g != []
    ensures Start(g, piped, w, files) ==
            match Enter(w.cwd, g[0].dirs)
            case None => Broke(w.log)
            case Some(cwd) => Start(g[1..], true, Launch(g[0].cmd, piped, w.(cwd := cwd)), files + Files(g[0].cmd, piped))
  {
    hide Enter, Launch, Files;
  }

  lemma StagesStep(g: seq<Stage>, stranded: bool)
    requires g != [] && Stages(g, stranded)
    ensures Stages(g[1..], stranded) && (g[0].cmd.stdout == Piped <==> stranded || g[1..] != [])
  {
    assert forall i :: 0 <= i < |g| - 1 ==> g[1..][i] == g[i + 1];
  }

  /** All but the last stage write to a pipe. */
  predicate Stages(g: seq<Stage>, stranded: bool) {
    forall i :: 0 <= i < |g| ==> (g[i].cmd.stdout == Piped <==> stranded || i < |g| - 1)
  }

  lemma {:induction false} FirstStages(l: Line)
    requires Sane(l)
    ensures Stages(First(l).stages, First(l).stranded)
    ensures !First(l).next.End? ==> Sane(First(l).next.rest)
  {
    match l
    case Cd(d, rest) => FirstStages(rest);
    case CdEnd(_) =>
    case Simple(c, n) =>
      if n.PipeTo? {
        FirstStages(n.rest);
        var g, g' := First(n.rest), First(l);
        assert forall i :: 0 < i < |g'.stages| ==> g'.stages[i] == g.stages[i - 1];
      }
  }

  lemma {:induction false} StartKeeps(g: seq<Stage>, stranded: bool, piped: bool, w: World, from: nat, files: seq<string>)
    requires Open(w, from, piped, files) && Stages(g, stranded)
    ensures match Start(g, piped, w, files)
            case Started(w', files') => Open(w', from, if g == [] then piped else stranded, files')
            case Broke(log) => Wired(Launches(log))
    decreases |g|
  {
    hide Start, Open, Stages, Launch, Files, Enter, Wired, Launches;
    if g == [] {
      StartNone(piped, w, files);
    } else {
      var c, rest, e := g[0].cmd, g[1..], Enter(w.cwd, g[0].dirs);
      StartStep(g, piped, w, files);
      StagesStep(g, stranded);
      OpenHere(w, from, piped, files);
      if e.Some? {
        var w0 := w.(cwd := e.value);
        OpenMoved(w, from, piped, files, e.value);
        LaunchKeeps(c, piped, w0, from, files);
        if rest == [] {
          StartNone(true, Launch(c, piped, w0), files + Files(c, piped));
        } else {
          StartKeeps(rest, stranded, true, Launch(c, piped, w0), from, files + Files(c, piped));
        }
      }
    }
  }

  lemma FinishSettles(st: nat -> int, w: World, from: nat, files: seq<string>)
    requires Open(w, from, false, files) && from < w.n
    ensures Settled(Finish(st, from, Started(w, files)).w)
  {
    hide Launches, WaitIds, Unclosed, Wired, LastPiped, Waits, Closes;
    AppendWaits(w.log, from, w.n - from);
    AppendCloses(w.log + Waits(from, w.n - from), files);
  }

  /**
   Every run of every line, whatever the exit statuses: processes are wired to their
   predecessors and nothing else, and a line that comes to an end has waited for each
   process once, in order, and has closed every file it opened.
   */
  lemma {:induction false} RunsAreTidy(st: nat -> int, l: Line, w: World)
    requires Sane(l) && Settled(w)
    ensures match Eval(st, l, w)
            case Exit(_, w') => Settled(w')
            case Fault(log) => Wired(Launches(log))
    decreases l
  {
    hide Launches, WaitIds, Unclosed, Wired, LastPiped, Start, Sane;
    FirstStages(l);
    var g := First(l);
    StartKeeps(g.stages, g.stranded, false, w, w.n, []);
    var s := Start(g.stages, false, w, []);
    if s.Started? && !g.stranded {
      FinishSettles(st, s.w, w.n, s.files);
      if !g.next.End? {
        RunsAreTidy(st, g.next.rest, Finish(st, w.n, s).w);
      }
    }
  }

  // ----- and-or lists of the POSIX shell -----

  /**
   Left-associative `&&` and `||` between pipes, as in section 2.9.3 of the POSIX Shell
   Command Language; a `cd` counts as part of the pipe it stands in front of.
   */
  function Posix(st: nat -> int, l: Line, w: World): Outcome
    decreases l, 1
  {
    var g := First(l);
    var s := Start(g.stages, false, w, []);
    if g.stranded then Halted(s)
    else if g.next.End? then Finish(st, w.n, s)
    else PosixNext(st, g.next, Finish(st, w.n, s))
  }

  /** A pipe whose operator does not call for it is passed over; the status goes on to the next operator. */
  function PosixNext(st: nat -> int, n: Next, o: Outcome): Outcome
    requires n.AndThen? || n.OrElse?
    decreases n.rest, 2
  {
    if o.Fault? then o
    else if n.AndThen? == (o.status == 0) then Posix(st, n.rest, o.w)
    else
      var g := First(n.rest);
      if g.stranded || g.next.End? then o else PosixNext(st, g.next, o)
  }

  /** No operator behind this one is of the other kind. */
  predicate SameFromHere(n: Next)
    requires n.AndThen? || n.OrElse?
    decreases n.rest
  {
    var g := First(n.rest);
    g.stranded || g.next.End? || (g.next.AndThen? == n.AndThen? && SameFromHere(g.next))
  }

  /** The run does not stop at an operator that has one of the other kind behind it. */
  predicate StopsAlike(st: nat -> int, l: Line, w: World)
    decreases l
  {
    var g := First(l);
    var s := Start(g.stages, false, w, []);
    if g.stranded || g.next.End? || s.Broke? then true
    else if g.next.AndThen? == (st(s.w.n - 1) == 0) then StopsAlike(st, g.next.rest, Finish(st, w.n, s).w)
    else SameFromHere(g.next)
  }

  lemma {:induction false} PosixRunsMore(st: nat -> int, l: Line, w: World)
    ensures Posix(st, l, w).Exit? ==> Posix(st, l, w).w.n > w.n
    decreases l, 1
  {
    hide Start, First;
    var g := First(l);
    var s := Start(g.stages, false, w, []);
    if !g.stranded && !g.next.End? && s.Started? {
      NextRunsMore(st, g.next, Finish(st, w.n, s));
    }
  }

  lemma {:induction false} NextRunsMore(st: nat -> int, n: Next, o: Outcome)
    requires (n.AndThen? || n.OrElse?) && o.Exit?
    ensures PosixNext(st, n, o) == o || (PosixNext(st, n, o).Exit? ==> PosixNext(st, n, o).w.n > o.w.n)
    ensures n.AndThen? == (o.status == 0) ==> PosixNext(st, n, o) != o
    ensures n.AndThen? != (o.status == 0) ==> (PosixNext(st, n, o) == o <==> SameFromHere(n))
    decreases n.rest, 2
  {
    hide First, Posix;
    if n.AndThen? == (o.status == 0) {
      PosixRunsMore(st, n.rest, o.w);
    } else {
      var g := First(n.rest);
      if !g.stranded && !g.next.End? {
        NextRunsMore(st, g.next, o);
      }
    }
  }

  /** Where the right-nested reading of the code and the left-associative one of the standard agree. */
  lemma {:induction false} AgreesWithPosixIff(st: nat -> int, l: Line, w: World)
    ensures Eval(st, l, w) == Posix(st, l, w) <==> StopsAlike(st, l, w)
    decreases l
  {
    hide Start, First;
    var g := First(l);
    var s := Start(g.stages, false, w, []);
    if !g.stranded && !g.next.End? && s.Started? {
      var o := Finish(st, w.n, s);
      if g.next.AndThen? == (o.status == 0) {
        AgreesWithPosixIff(st, g.next.rest, o.w);
      } else {
        NextRunsMore(st, g.next, o);
      }
    }
  }

  /** Some `cd` of the pipe names no directory. */
  predicate Breaks(g: seq<Stage>) {
    g != [] && (None in g[0].dirs || Breaks(g[1..]))
  }

  lemma {:induction false} EnterFails(cwd: string, dirs: seq<Option<string>>)
    ensures Enter(cwd, dirs).None? <==> None in dirs
    decreases |dirs|
  {
    if dirs != [] && dirs[0].Some? {
      EnterFails(JoinPath(cwd, dirs[0].value), dirs[1..]);
    }
  }

  lemma {:induction false} BreaksIff(g: seq<Stage>, piped: bool, w: World, files: seq<string>)
    ensures Start(g, piped, w, files).Broke? <==> Breaks(g)
    decreases |g|
  {
    hide Launch, Files;
    if g != [] {
      EnterFails(w.cwd, g[0].dirs);
      var e := Enter(w.cwd, g[0].dirs);
      if e.Some? {
        BreaksIff(g[1..], true, Launch(g[0].cmd, piped, w.(cwd := e.value)), files + Files(g[0].cmd, piped));
      }
    }
  }

  /** The line stops in its first pipe or uses only one of `&&` and `||` from there on. */
  predicate OneKind(l: Line) {
    var g := First(l);
    g.stranded || g.next.End? || Breaks(g.stages) || SameFromHere(g.next)
  }

  lemma {:induction false} OneKindStopsAlike(st: nat -> int, l: Line, w: World)
    requires OneKind(l)
    ensures StopsAlike(st, l, w)
    decreases l
  {
    hide Start, First, Breaks;
    var g := First(l);
    BreaksIff(g.stages, false, w, []);
    var s := Start(g.stages, false, w, []);
    if !g.stranded && !g.next.End? && s.Started? {
      OneKindStopsAlike(st, g.next.rest, Finish(st, w.n, s).w);
    }
  }

  /** The two readings agree under all exit statuses exactly for the lines that do not mix the operators. */
  lemma PosixOnAllStatusesIff(l: Line, w: World)
    ensures (forall st: nat -> int :: Eval(st, l, w) == Posix(st, l, w)) <==> OneKind(l)
  {
    hide Start, Eval, Posix, Breaks;
    if OneKind(l) {
      forall st: nat -> int ensures Eval(st, l, w) == Posix(st, l, w) {
        OneKindStopsAlike(st, l, w);
        AgreesWithPosixIff(st, l, w);
      }
    } else {
      var g := First(l);
      BreaksIff(g.stages, false, w, []);
      var stop: nat -> int := (i: nat) => if g.next.AndThen? then 1 else 0;
      AgreesWithPosixIff(stop, l, w);
      assert Eval(stop, l, w) != Posix(stop, l, w);
    }
  }

  /** `a || b && c` with a successful `a`: the code stops there, and the standard runs `c`. */
  lemma MixedLineDiffers(st: nat -> int, a: Cmd, b: Cmd, c: Cmd, w: World)
    requires st(w.n) == 0
    ensures var l := Simple(a, OrElse(Simple(b, AndThen(Simple(c, End)))));
            && Eval(st, l, w).Exit? && Eval(st, l, w).w.n == w.n + 1
            && Posix(st, l, w).Exit? && Posix(st, l, w).w.n == w.n + 2
  {
    hide Launch, Files;
    var l3 := Simple(c, End);
    var l2 := Simple(b, AndThen(l3));
    var l := Simple(a, OrElse(l2));
    OneCommand(a, OrElse(l2), w);
    var w1 := Finish(st, w.n, Start(First(l).stages, false, w, [])).w;
    assert First(l2) == Group([Stage([], b)], false, AndThen(l3));
    OneCommand(c, End, w1);
    assert PosixNext(st, AndThen(l3), Exit(0, w1)) == Posix(st, l3, w1);
  }

  lemma OneCommand(a: Cmd, n: Next, w: World)
    requires !n.PipeTo?
    ensures First(Simple(a, n)) == Group([Stage([], a)], false, n)
    ensures Start([Stage([], a)], false, w, []).Started? && Start([Stage([], a)], false, w, []).w.n == w.n + 1
  {
    var w1 := w.(cwd := w.cwd);
    assert Start([], true, Launch(a, false, w1), [] + Files(a, false)).Started?;
  }
}
