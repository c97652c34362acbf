module PipelinePlaces {
  // Which commands of a line are launched, in which order, in which directory and with which
  // files: by the line alone.

  import opened Common
  import opened CommandLine
  import opened PipelineLaws

  // ----- directories -----

  predicate Absolute(d: string) {
    d != "" && d[0] == '/'
  }

  /** One '/' between two paths, unless the first one ends in it or is empty. */
  function Under(a: string, d: string): string {
    if a == "" || a[|a| - 1] == '/' then a + d else a + "/" + d
  }

  /** The paths one below the other. */
  function Descent(ds: seq<string>): string {
    if ds == [] then "" else if |ds| == 1 then ds[0] else Under(Descent(ds[..|ds| - 1]), ds[|ds| - 1])
  }

  /** The position of the last absolute path, or 0. */
  function LastRoot(ds: seq<string>): (n: nat)
    ensures n < |ds| || n == 0
  {
    if |ds| <= 1 then 0 else if Absolute(ds[|ds| - 1]) then |ds| - 1 else LastRoot(ds[..|ds| - 1])
  }

  lemma {:induction false} LastRootIs(ds: seq<string>)
    requires ds != []
    ensures var n := LastRoot(ds);
            && (n > 0 ==> Absolute(ds[n])) && (forall i :: n < i < |ds| ==> !Absolute(ds[i]))
    decreases |ds|
  {
    if |ds| > 1 && !Absolute(ds[|ds| - 1]) {
      LastRootIs(ds[..|ds| - 1]);
    }
  }

  /** The directory after some `cd`s: below the last absolute one, or else the one at the start. */
  function Place(ds: seq<string>): string {
    Descent(ds[LastRoot(ds)..])
  }

  predicate AllNamed(dirs: seq<Option<string>>) {
    forall i :: 0 <= i < |dirs| ==> dirs[i].Some?
  }

  function Named(dirs: seq<Option<string>>): (r: seq<string>)
    requires AllNamed(dirs)
    ensures |r| == |dirs| && forall i :: 0 <= i < |dirs| ==> r[i] == dirs[i].value
  {
    seq(|dirs|, (i: nat) requires i < |dirs| && AllNamed(dirs) => dirs[i].value)
  }

  lemma PlaceStep(ds: seq<string>, d: string)
    requires ds != []
    ensures Place(ds + [d]) == if Absolute(d) then d else Under(Place(ds), d)
  {
    var es, n := ds + [d], LastRoot(ds);
    assert es[..|es| - 1] == ds && es[|es| - 1] == d;
    if Absolute(d) {
      assert es[|ds|..] == [d];
    } else {
      assert LastRoot(es) == n;
      var u := es[n..];
      assert u[..|u| - 1] == ds[n..] && u[|u| - 1] == d && |u| > 1;
    }
  }

  lemma JoinLaw(cwd: string, d: string)
    ensures JoinPath(cwd, d) == if Absolute(d) then d else Under(cwd, d)
  {
  }

  lemma {:induction false} EnterAppend(cwd: string, a: seq<Option<string>>, b: seq<Option<string>>)
    ensures Enter(cwd, a + b) == match Enter(cwd, a) case None => None case Some(c) => Enter(c, b)
    decreases |a|
  {
    if a == [] {
      assert a + b == b;
    } else {
      assert (a + b)[0] == a[0] && (a + b)[1..] == a[1..] + b;
      if a[0].Some? {
        EnterAppend(JoinPath(cwd, a[0].value), a[1..], b);
      }
    }
  }

  /** After any `cd`s: the last absolute directory among them, or the starting one, and each later one below it. */
  lemma {:induction false} EnterIsPlace(cwd: string, dirs: seq<Option<string>>)
    ensures Enter(cwd, dirs) == if AllNamed(dirs) then Some(Place([cwd] + Named(dirs))) else None
    decreases |dirs|
  {
    if dirs == [] {
      assert [cwd] + Named(dirs) == [cwd] && [cwd][0..] == [cwd];
    } else {
      var n := |dirs| - 1;
      var init, last := dirs[..n], dirs[n];
      assert dirs == init + [last];
      EnterIsPlace(cwd, init);
      EnterAppend(cwd, init, [last]);
      if AllNamed(init) && last.Some? {
        var ds := [cwd] + Named(init);
        assert [cwd] + Named(dirs) == ds + [last.value];
        PlaceStep(ds, last.value);
        JoinLaw(Place(ds), last.value);
        assert [last][1..] == [];
        assert Enter(Place(ds), [last]) == Some(JoinPath(Place(ds), last.value));
      } else if AllNamed(init) {
        assert Enter(Place([cwd] + Named(init)), [last]) == None;
      }
    }
  }

  // ----- the commands of a line -----

  /** A command with all `cd`s in front of it, and whether a pipe leads to it. */
  datatype Item = Item(cmd: Cmd, dirs: seq<Option<string>>, fed: bool)

  function Items(l: Line, dirs: seq<Option<string>>, fed: bool): seq<Item>
    decreases l
  {
    match l
    case Cd(d, rest) => Items(rest, dirs + [d], fed)
    case CdEnd(_) => []
    case Simple(c, n) => [Item(c, dirs, fed)] + (if n.End? then [] else Items(n.rest, dirs, n.PipeTo?))
  }

  /** The commands of a pipe, likewise. */
  function StageItems(g: seq<Stage>, dirs: seq<Option<string>>, fed: bool): seq<Item> {
    if g == [] then []
    else [Item(g[0].cmd, dirs + g[0].dirs, fed)] + StageItems(g[1..], dirs + g[0].dirs, true)
  }

  function StageDirs(g: seq<Stage>): seq<Option<string>> {
    if g == [] then [] else g[0].dirs + StageDirs(g[1..])
  }

  /** The items of a line are those of its first pipe and those behind it. */
  lemma {:induction false} FirstItems(l: Line, dirs: seq<Option<string>>, fed: bool)
    ensures var g := First(l);
            Items(l, dirs, fed) == StageItems(g.stages, dirs, fed)
              + (if g.next.End? then [] else Items(g.next.rest, dirs + StageDirs(g.stages), false))
    decreases l
  {
    hide StageItems, StageDirs, First;
    match l
    case Cd(d, rest) =>
      FirstItems(rest, dirs + [d], fed);
      CdItems(d, rest, dirs, fed);
    case CdEnd(_) =>
      CdEndItems(l, dirs, fed);
    case Simple(c, n) =>
      if n.PipeTo? {
        FirstItems(n.rest, dirs, true);
        PipeItems(c, n.rest, dirs, fed);
      } else {
        LastItems(c, n, dirs, fed);
      }
  }

  lemma CdEndItems(l: Line, dirs: seq<Option<string>>, fed: bool)
    requires l.CdEnd?
    ensures First(l).next.End? && StageItems(First(l).stages, dirs, fed) == []
  {
  }

  lemma {:induction false} StrandedEnds(l: Line)
    ensures First(l).stranded ==> First(l).next.End?
  {
    match l
    case Cd(_, rest) => StrandedEnds(rest);
    case CdEnd(_) =>
    case Simple(_, n) => if n.PipeTo? { StrandedEnds(n.rest); }
  }

  lemma CdItems(d: Option<string>, rest: Line, dirs: seq<Option<string>>, fed: bool)
    ensures var g, g' := First(rest), First(Cd(d, rest));
            && g'.next == g.next && StageItems(g'.stages, dirs, fed) == StageItems(g.stages, dirs + [d], fed)
            && (!g.next.End? ==> dirs + StageDirs(g'.stages) == dirs + [d] + StageDirs(g.stages))
  {
    StrandedEnds(rest);
    var g, g' := First(rest), First(Cd(d, rest));
    if g.stages != [] {
      var s, more := g.stages[0], g.stages[1..];
      assert g'.stages[0] == Stage([d] + s.dirs, s.cmd) && g'.stages[1..] == more;
      assert dirs + [d] + s.dirs == dirs + ([d] + s.dirs);
      assert dirs + [d] + (s.dirs + StageDirs(more)) == dirs + ([d] + s.dirs + StageDirs(more));
    }
  }

  lemma PipeItems(c: Cmd, rest: Line, dirs: seq<Option<string>>, fed: bool)
    ensures var g, g' := First(rest), First(Simple(c, PipeTo(rest)));
            && g'.next == g.next && StageItems(g'.stages, dirs, fed) == [Item(c, dirs, fed)] + StageItems(g.stages, dirs, true)
            && StageDirs(g'.stages) == StageDirs(g.stages)
  {
    var g, g' := First(rest), First(Simple(c, PipeTo(rest)));
    assert g'.stages[0] == Stage([], c) && g'.stages[1..] == g.stages;
    assert dirs + [] == dirs && [] + StageDirs(g.stages) == StageDirs(g.stages);
  }

  lemma LastItems(c: Cmd, n: Next, dirs: seq<Option<string>>, fed: bool)
    requires !n.PipeTo?
    ensures var g := First(Simple(c, n));
            g.next == n && StageItems(g.stages, dirs, fed) == [Item(c, dirs, fed)] && dirs + StageDirs(g.stages) == dirs
  {
    var g := First(Simple(c, n));
    assert g.stages == [Stage([], c)] && g.stages[1..] == [];
    assert dirs + [] == dirs && [] + StageDirs([]) == [];
    assert StageItems([], dirs + [], true) == [];
  }

  // ----- where they are launched -----

  /** What the launch of a command looks like when the line starts in `cwd`. */
  predicate LaunchedAs(e: Event, x: Item, cwd: string) {
    && e.Launched? && e.cmd == x.cmd && AllNamed(x.dirs)
    && var p := Place([cwd] + Named(x.dirs));
       && e.dir == (if p == "." then None else Some(p))
       && (e.input.FromProcess? <==> x.fed && e.id > 0)
       && (!e.input.FromProcess? ==> e.input == if x.cmd.stdin.Some? then FromFile(x.cmd.stdin.value) else Terminal)
  }

  ghost predicate AllLaunchedAs(ls: seq<Event>, xs: seq<Item>, cwd: string) {
    |ls| <= |xs| && forall k :: 0 <= k < |ls| ==> LaunchedAs(ls[k], xs[k], cwd)
  }

  function LogOf(s: Started): seq<Event> {
    match s case Started(w, _) => w.log case Broke(log) => log
  }

  lemma LaunchLog(c: Cmd, piped: bool, w: World)
    ensures Launches(Launch(c, piped, w).log) ==
            Launches(w.log) + [Launched(w.n, c, Source(c, piped, w.n), if w.cwd == "." then None else Some(w.cwd))]
  {
    hide Files, Opens, Launches, Unclosed, WaitIds;
    AppendOpens(w.log, Files(c, piped));
    Append(w.log + Opens(Files(c, piped)), Launched(w.n, c, Source(c, piped, w.n), if w.cwd == "." then None else Some(w.cwd)));
  }

  /** The stages of a pipe, started in the directory that `dirs` lead to from `cwd`. */
  lemma {:induction false} StartPlaces(g: seq<Stage>, piped: bool, w: World, files: seq<string>, cwd: string, dirs: seq<Option<string>>)
      returns (ls: seq<Event>)
    requires Enter(cwd, dirs) == Some(w.cwd)
    ensures Launches(LogOf(Start(g, piped, w, files))) == Launches(w.log) + ls
    ensures AllLaunchedAs(ls, StageItems(g, dirs, piped), cwd)
    ensures Start(g, piped, w, files).Started? ==> |ls| == |g| && Enter(cwd, dirs + StageDirs(g)) == Some(Start(g, piped, w, files).w.cwd)
    decreases |g|
  {
    ls := [];
    hide Launch, Files, Launches, LaunchedAs, Enter;
    if g == [] {
      assert dirs + [] == dirs;
      StartNone(piped, w, files);
    } else {
      var c, here := g[0].cmd, dirs + g[0].dirs;
      StartStep(g, piped, w, files);
      hide Start;
      EnterAppend(cwd, dirs, g[0].dirs);
      var e := Enter(w.cwd, g[0].dirs);
      if e.Some? {
        var w0 := w.(cwd := e.value);
        var one := Launched(w0.n, c, Source(c, piped, w0.n), if w0.cwd == "." then None else Some(w0.cwd));
        LaunchLog(c, piped, w0);
        LaunchPlace(one, Item(c, here, piped), w0, cwd);
        LaunchCwd(c, piped, w0);
        var more := StartPlaces(g[1..], true, Launch(c, piped, w0), files + Files(c, piped), cwd, here);
        ls := [one] + more;
        assert Launches(w.log) + [one] + more == Launches(w.log) + ls;
        assert here + StageDirs(g[1..]) == dirs + StageDirs(g);
        ConsLaunched(one, more, Item(c, here, piped), StageItems(g[1..], here, true), cwd);
      } else {
        assert Launches(w.log) + ls == Launches(w.log);
      }
    }
  }

  lemma LaunchCwd(c: Cmd, piped: bool, w: World)
    ensures Launch(c, piped, w).cwd == w.cwd
  {
  }

  lemma LaunchPlace(e: Event, x: Item, w: World, cwd: string)
    requires Enter(cwd, x.dirs) == Some(w.cwd)
    requires e == Launched(w.n, x.cmd, Source(x.cmd, x.fed, w.n), if w.cwd == "." then None else Some(w.cwd))
    ensures LaunchedAs(e, x, cwd)
  {
    EnterIsPlace(cwd, x.dirs);
    hide Enter, Place;
  }

  lemma ConsLaunched(e: Event, ls: seq<Event>, x: Item, xs: seq<Item>, cwd: string)
    requires LaunchedAs(e, x, cwd) && AllLaunchedAs(ls, xs, cwd)
    ensures AllLaunchedAs([e] + ls, [x] + xs, cwd)
  {
    hide LaunchedAs;
    var a, b := [e] + ls, [x] + xs;
    forall k | 0 <= k < |a| ensures LaunchedAs(a[k], b[k], cwd) {
      if k > 0 { assert a[k] == ls[k - 1] && b[k] == xs[k - 1]; }
    }
  }

  lemma AppendLaunched(a: seq<Event>, b: seq<Event>, xs: seq<Item>, ys: seq<Item>, cwd: string)
    requires AllLaunchedAs(a, xs, cwd) && |a| == |xs| && AllLaunchedAs(b, ys, cwd)
    ensures AllLaunchedAs(a + b, xs + ys, cwd)
  {
    hide LaunchedAs;
    var c, zs := a + b, xs + ys;
    forall k | 0 <= k < |c| ensures LaunchedAs(c[k], zs[k], cwd) {
      if k < |a| { assert c[k] == a[k] && zs[k] == xs[k]; } else { assert c[k] == b[k - |a|] && zs[k] == ys[k - |a|]; }
    }
  }

  lemma {:induction false} StageCount(g: seq<Stage>, dirs: seq<Option<string>>, fed: bool)
    ensures |StageItems(g, dirs, fed)| == |g|
  {
    if g != [] {
      StageCount(g[1..], dirs + g[0].dirs, true);
    }
  }

  function FinalLog(o: Outcome): seq<Event> {
    match o case Exit(_, w) => w.log case Fault(log) => log
  }

  lemma FinishLog(st: nat -> int, from: nat, s: Started)
    requires s.Started? ==> from < s.w.n
    ensures Launches(FinalLog(Finish(st, from, s))) == Launches(LogOf(s))
    ensures s.Started? ==> Finish(st, from, s).w.cwd == s.w.cwd
  {
    hide Launches, Unclosed, WaitIds, Waits, Closes;
    if s.Started? {
      WaitsNoLaunch(s.w.log, from, s.w.n - from);
      AppendCloses(s.w.log + Waits(from, s.w.n - from), s.files);
    }
  }

  lemma {:induction false} WaitsNoLaunch(log: seq<Event>, from: nat, count: nat)
    ensures Launches(log + Waits(from, count)) == Launches(log)
    decreases count
  {
    hide Launches, Unclosed, WaitIds;
    if count == 0 {
      assert log + Waits(from, count) == log;
    } else {
      Append(log, Waited(from));
      WaitsNoLaunch(log + [Waited(from)], from + 1, count - 1);
      assert log + [Waited(from)] + Waits(from + 1, count - 1) == log + Waits(from, count);
    }
  }

  /**
   Every run of every line, whatever the exit statuses: what is launched are commands from the
   front of the line in their order, each in the directory that all the `cd`s in front of it
   lead to, with its input from its file, from the process in front of it or from the terminal.
   */
  lemma {:induction false} RunsFollowTheLine(st: nat -> int, l: Line, w: World, cwd: string, dirs: seq<Option<string>>)
      returns (ls: seq<Event>)
    requires Enter(cwd, dirs) == Some(w.cwd)
    ensures Launches(FinalLog(Eval(st, l, w))) == Launches(w.log) + ls
    ensures AllLaunchedAs(ls, Items(l, dirs, false), cwd)
    decreases l
  {
    hide Launches, Start, Finish, Enter, StageItems, LaunchedAs, First, StageDirs;
    var g := First(l);
    var s := Start(g.stages, false, w, []);
    FirstItems(l, dirs, false);
    StageCount(g.stages, dirs, false);
    ls := StartPlaces(g.stages, false, w, [], cwd, dirs);
    var there := dirs + StageDirs(g.stages);
    var xs, ys := StageItems(g.stages, dirs, false), if g.next.End? then [] else Items(g.next.rest, there, false);
    hide Items;
    MoreItems(ls, xs, ys, cwd);
    if !g.stranded {
      FinishLog(st, w.n, s);
      var o := Finish(st, w.n, s);
      FinishKind(st, w.n, s);
      if !g.next.End? && s.Started? && g.next.AndThen? == (o.status == 0) {
        var more := RunsFollowTheLine(st, g.next.rest, o.w, cwd, there);
        assert Launches(w.log) + ls + more == Launches(w.log) + (ls + more);
        AppendLaunched(ls, more, xs, ys, cwd);
        ls := ls + more;
      }
    }
  }

  lemma FinishKind(st: nat -> int, from: nat, s: Started)
    requires s.Started? ==> from < s.w.n
    ensures Finish(st, from, s).Exit? <==> s.Started?
  {
  }

  lemma MoreItems(ls: seq<Event>, xs: seq<Item>, ys: seq<Item>, cwd: string)
    requires AllLaunchedAs(ls, xs, cwd)
    ensures AllLaunchedAs(ls, xs + ys, cwd)
  {
    hide LaunchedAs;
    assert forall k :: 0 <= k < |ls| ==> (xs + ys)[k] == xs[k];
  }

  /** From the place where the build starts its lines. */
  lemma LineFromStart(st: nat -> int, l: Line)
    ensures AllLaunchedAs(Launches(FinalLog(Eval(st, l, World(".", 0, [])))), Items(l, [], false), ".")
  {
    hide Eval, LaunchedAs;
    var ls := RunsFollowTheLine(st, l, World(".", 0, []), ".", []);
    assert Launches([]) == [];
    assert [] + ls == ls;
  }

  // ----- the files of a command -----

  /** The null devices are not opened. */
  lemma FilesLaw(c: Cmd, piped: bool, p: string)
    ensures p in Files(c, piped) <==>
            || (!piped && c.stdin == Some(p))
            || (p != "NUL:" && p != "/dev/null" && (c.stdout == Path(p) || c.stderr == Path(p)))
  {
  }
}
