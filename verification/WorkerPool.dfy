module WorkerPool {
  // The test runner's worker pool: a main thread that queues jobs and break tokens
  // and collects results, worker threads that take, run and report, and a signal
  // handler that may raise a flag at any moment.  Every interleaving is a sequence
  // of the steps below; running a job is one step that may return any exit code.

  /** The jobs of one run, by their skip mark, and the number of worker threads. */
  datatype Conf = Conf(skips: seq<bool>, workers: nat)

  datatype Item = Work(j: nat) | Break

  /** How a job comes back: broken off by the interrupt flag, skipped, or run with a return code. */
  datatype Verdict = Broken | Skipped | Ran(code: int)

  datatype Res = Res(j: nat, v: Verdict)

  datatype Worker =
    | Waiting          // in input_queue.get()
    | Took(j: nat)     // holds a job, has not looked at the flag yet
    | Running(j: nat)  // in run_job_synchronously()
    | Putting(r: Res)  // about to call output_queue.put()
    | Exited

  datatype Main = Dispatching(n: nat) | Breaking(n: nat) | Collecting | Joining(n: nat) | Returned(status: int)

  datatype Tally = Tally(passed: nat, skipped: nat, failed: nat, crashed: nat, valgrind: nat)

  datatype State = State(input: seq<Item>, output: seq<Res>, ws: seq<Worker>, main: Main, exit: bool,
                         seen: seq<Res>, tally: Tally)

  datatype Step =
    | MainStep
    | WorkerStep(w: nat, code: int)   // `code` is what a job that is run returns
    | Interrupt

  // ----- the threads -----

  function Count(t: Tally, v: Verdict): Tally {
    match v
    case Broken => t
    case Skipped => t.(skipped := t.skipped + 1)
    case Ran(0) => t.(passed := t.passed + 1)
    case Ran(1) => t.(failed := t.failed + 1)
    case Ran(2) => t.(valgrind := t.valgrind + 1)
    case Ran(_) => t.(crashed := t.crashed + 1)
  }

  function Status(t: Tally, total: nat): int {
    if t.passed + t.skipped == total then 0 else 1
  }

  predicate MainEnabled(c: Conf, s: State) {
    match s.main
    case Dispatching(_) => true
    case Breaking(_) => true
    case Collecting => |s.seen| == |c.skips| || s.output != []
    case Joining(n) => n >= |s.ws| || s.ws[n] == Exited
    case Returned(_) => false
  }

  function MainNext(c: Conf, s: State): State
    requires MainEnabled(c, s)
  {
    match s.main
    case Dispatching(n) =>
      if n < |c.skips| then s.(input := s.input + [Work(n)], main := Dispatching(n + 1))
      else s.(main := Breaking(0))
    case Breaking(n) =>
      if n < c.workers then s.(input := s.input + [Break], main := Breaking(n + 1))
      else s.(main := Collecting)
    case Collecting =>
      if |s.seen| == |c.skips| then s.(main := Joining(0))
      else s.(output := s.output[1..], seen := s.seen + [s.output[0]], tally := Count(s.tally, s.output[0].v))
    case Joining(n) =>
      if n < |s.ws| then s.(main := Joining(n + 1)) else s.(main := Returned(Status(s.tally, |c.skips|)))
  }

  predicate WorkerEnabled(s: State, w: nat) {
    w < |s.ws| &&
    match s.ws[w]
    case Waiting => s.input != []
    case Exited => false
    case _ => true
  }

  function WorkerNext(c: Conf, s: State, w: nat, code: int): State
    requires WorkerEnabled(s, w)
  {
    match s.ws[w]
    case Waiting =>
      (match s.input[0]
       case Work(j) => s.(input := s.input[1..], ws := s.ws[w := Took(j)])
       case Break => s.(input := s.input[1..], ws := s.ws[w := Exited]))
    case Took(j) =>
      if s.exit then s.(ws := s.ws[w := Putting(Res(j, Broken))])
      else if j < |c.skips| && c.skips[j] then s.(ws := s.ws[w := Putting(Res(j, Skipped))])
      else s.(ws := s.ws[w := Running(j)])
    case Running(j) => s.(ws := s.ws[w := Putting(Res(j, Ran(code)))])
    case Putting(r) => s.(output := s.output + [r], ws := s.ws[w := Waiting])
  }

  predicate Enabled(c: Conf, s: State, step: Step) {
    match step
    case MainStep => MainEnabled(c, s)
    case WorkerStep(w, _) => WorkerEnabled(s, w)
    case Interrupt => !s.exit
  }

  function Next(c: Conf, s: State, step: Step): State
    requires Enabled(c, s, step)
  {
    match step
    case MainStep => MainNext(c, s)
    case WorkerStep(w, code) => WorkerNext(c, s, w, code)
    case Interrupt => s.(exit := true)
  }

  const NoTally := Tally(0, 0, 0, 0, 0)

  function Init(c: Conf): State {
    State([], [], seq(c.workers, (_: nat) => Waiting), Dispatching(0), false, [], NoTally)
  }

  // ----- where the jobs and tokens are -----

  function One(b: bool): nat {
    if b then 1 else 0
  }

  function Works(q: seq<Item>): nat {
    if q == [] then 0 else One(q[0].Work?) + Works(q[1..])
  }

  function Tokens(q: seq<Item>): nat {
    if q == [] then 0 else One(q[0].Break?) + Tokens(q[1..])
  }

  function InQueue(q: seq<Item>, j: nat): nat {
    if q == [] then 0 else One(q[0] == Work(j)) + InQueue(q[1..], j)
  }

  predicate Holds(w: Worker) {
    w.Took? || w.Running? || w.Putting?
  }

  function JobOf(w: Worker): nat
    requires Holds(w)
  {
    match w
    case Took(j) => j
    case Running(j) => j
    case Putting(r) => r.j
  }

  function Holders(ws: seq<Worker>): nat {
    if ws == [] then 0 else One(Holds(ws[0])) + Holders(ws[1..])
  }

  function HeldBy(ws: seq<Worker>, j: nat): nat {
    if ws == [] then 0 else One(Holds(ws[0]) && JobOf(ws[0]) == j) + HeldBy(ws[1..], j)
  }

  function Gone(ws: seq<Worker>): nat {
    if ws == [] then 0 else One(ws[0].Exited?) + Gone(ws[1..])
  }

  /** How many results of job `j` are in `rs`. */
  function Results(rs: seq<Res>, j: nat): nat {
    if rs == [] then 0 else One(rs[0].j == j) + Results(rs[1..], j)
  }

  function Dispatched(c: Conf, s: State): nat {
    if s.main.Dispatching? then s.main.n else |c.skips|
  }

  function TokensPut(c: Conf, s: State): nat {
    match s.main
    case Dispatching(_) => 0
    case Breaking(n) => n
    case _ => c.workers
  }

  function Score(rs: seq<Res>): Tally {
    if rs == [] then NoTally else Count(Score(rs[..|rs| - 1]), rs[|rs| - 1].v)
  }

  /** Each dispatched job is in exactly one place, each other job nowhere. */
  predicate Once(c: Conf, s: State, j: nat) {
    InQueue(s.input, j) + HeldBy(s.ws, j) + Results(s.output, j) + Results(s.seen, j) == One(j < Dispatched(c, s))
  }

  /** Numbers of jobs and tokens, and the phases of the main thread. */
  predicate Balanced(c: Conf, s: State) {
    && |s.ws| == c.workers
    && (c.workers == 0 ==> s.output == [] && s.seen == [])
    && (s.main.Dispatching? ==> s.main.n <= |c.skips|)
    && (s.main.Breaking? ==> s.main.n <= c.workers)
    && Works(s.input) + Holders(s.ws) + |s.output| + |s.seen| == Dispatched(c, s)
    && Tokens(s.input) + Gone(s.ws) == TokensPut(c, s)
    && (s.main.Joining? || s.main.Returned? ==> |s.seen| == |c.skips|)
    && (s.main.Joining? ==> s.main.n <= |s.ws| && forall i :: 0 <= i < s.main.n ==> s.ws[i] == Exited)
    && (s.main.Returned? ==> forall i :: 0 <= i < |s.ws| ==> s.ws[i] == Exited)
  }

  /** The queue is first in, first out, so no token overtakes a job. */
  predicate Ordered(s: State) {
    && (forall i, k :: 0 <= i < k < |s.input| && s.input[i].Break? ==> s.input[k].Break?)
    && (Gone(s.ws) > 0 ==> forall i :: 0 <= i < |s.input| ==> s.input[i].Break?)
  }

  /** A verdict that the job's mark and the flag allow. */
  predicate Fitting(c: Conf, exit: bool, r: Res) {
    && r.j < |c.skips|
    && match r.v
       case Broken => exit
       case Skipped => c.skips[r.j]
       case Ran(_) => !c.skips[r.j]
  }

  predicate FittingWorker(c: Conf, exit: bool, w: Worker) {
    match w
    case Took(j) => j < |c.skips|
    case Running(j) => j < |c.skips| && !c.skips[j]
    case Putting(r) => Fitting(c, exit, r)
    case _ => true
  }

  predicate Honest(c: Conf, s: State) {
    && (forall i :: 0 <= i < |s.input| && s.input[i].Work? ==> s.input[i].j < |c.skips|)
    && (forall i :: 0 <= i < |s.ws| ==> FittingWorker(c, s.exit, s.ws[i]))
    && (forall i :: 0 <= i < |s.output| ==> Fitting(c, s.exit, s.output[i]))
    && (forall i :: 0 <= i < |s.seen| ==> Fitting(c, s.exit, s.seen[i]))
    && s.tally == Score(s.seen)
    && (s.main.Returned? ==> s.main.status == Status(s.tally, |c.skips|))
  }

  /** What every reachable state satisfies. */
  ghost predicate Inv(c: Conf, s: State) {
    Balanced(c, s) && Ordered(s) && Honest(c, s) && forall j: nat :: Once(c, s, j)
  }

  // ----- bookkeeping -----

  lemma {:induction false} ItemsAppend(q: seq<Item>, x: Item, j: nat)
    ensures Works(q + [x]) == Works(q) + One(x.Work?)
    ensures Tokens(q + [x]) == Tokens(q) + One(x.Break?)
    ensures InQueue(q + [x], j) == InQueue(q, j) + One(x == Work(j))
  {
    if q == [] {
      assert (q + [x])[1..] == [];
    } else {
      assert (q + [x])[1..] == q[1..] + [x];
      ItemsAppend(q[1..], x, j);
    }
  }

  lemma {:induction false} ResAppend(rs: seq<Res>, r: Res, j: nat)
    ensures Results(rs + [r], j) == Results(rs, j) + One(r.j == j)
  {
    if rs == [] {
      assert (rs + [r])[1..] == [];
    } else {
      assert (rs + [r])[1..] == rs[1..] + [r];
      ResAppend(rs[1..], r, j);
    }
  }

  lemma {:induction false} WorkerUpdate(ws: seq<Worker>, i: nat, w: Worker, j: nat)
    requires i < |ws|
    ensures Holders(ws[i := w]) + One(Holds(ws[i])) == Holders(ws) + One(Holds(w))
    ensures HeldBy(ws[i := w], j) + One(Holds(ws[i]) && JobOf(ws[i]) == j) == HeldBy(ws, j) + One(Holds(w) && JobOf(w) == j)
    ensures Gone(ws[i := w]) + One(ws[i].Exited?) == Gone(ws) + One(w.Exited?)
  {
    if i == 0 {
      assert ws[i := w][1..] == ws[1..];
    } else {
      assert ws[i := w][1..] == ws[1..][i - 1 := w];
      WorkerUpdate(ws[1..], i - 1, w, j);
    }
  }

  lemma {:induction false} Idle(ws: seq<Worker>, j: nat)
    requires forall i :: 0 <= i < |ws| ==> ws[i] == Waiting
    ensures Holders(ws) == 0 && HeldBy(ws, j) == 0 && Gone(ws) == 0
  {
    if ws != [] {
      Idle(ws[1..], j);
    }
  }

  lemma {:induction false} NoTokens(q: seq<Item>, i: nat)
    requires Tokens(q) == 0 && i < |q|
    ensures q[i].Work?
  {
    if i > 0 {
      NoTokens(q[1..], i - 1);
    }
  }

  lemma {:induction false} GoneBound(ws: seq<Worker>)
    ensures Gone(ws) <= |ws|
    ensures Gone(ws) == |ws| <==> forall i :: 0 <= i < |ws| ==> ws[i] == Exited
  {
    if ws != [] {
      GoneBound(ws[1..]);
      if Gone(ws) == |ws| {
        forall i | 0 <= i < |ws| ensures ws[i] == Exited {
          if i > 0 { assert ws[i] == ws[1..][i - 1]; }
        }
      }
    }
  }

  // ----- every step keeps the invariant -----

  lemma InitInv(c: Conf)
    ensures Inv(c, Init(c))
  {
    Idle(Init(c).ws, 0);
    forall j: nat ensures Once(c, Init(c), j) {
      Idle(Init(c).ws, j);
    }
  }

  lemma MainOnce(c: Conf, s: State, j: nat)
    requires Balanced(c, s) && Once(c, s, j) && MainEnabled(c, s)
    ensures Once(c, MainNext(c, s), j)
  {
    match s.main
    case Dispatching(n) => ItemsAppend(s.input, Work(n), j);
    case Breaking(n) => ItemsAppend(s.input, Break, j);
    case Collecting =>
      if |s.seen| != |c.skips| {
        ResAppend(s.seen, s.output[0], j);
      }
    case Joining(n) =>
  }

  lemma MainBalanced(c: Conf, s: State)
    requires Balanced(c, s) && MainEnabled(c, s)
    ensures Balanced(c, MainNext(c, s))
  {
    hide Works, Tokens, InQueue, Holders, Gone;
    match s.main
    case Dispatching(n) => ItemsAppend(s.input, Work(n), 0);
    case Breaking(n) => ItemsAppend(s.input, Break, 0);
    case Collecting =>
    case Joining(n) =>
  }

  lemma MainOrdered(c: Conf, s: State)
    requires Balanced(c, s) && Ordered(s) && MainEnabled(c, s)
    ensures Ordered(MainNext(c, s))
  {
    if s.main.Dispatching? {
      forall i | 0 <= i < |s.input| ensures s.input[i].Work? {
        NoTokens(s.input, i);
      }
    }
  }

  lemma ScoreAppend(rs: seq<Res>, r: Res)
    ensures Score(rs + [r]) == Count(Score(rs), r.v)
  {
    assert (rs + [r])[..|rs|] == rs;
  }

  lemma MainHonest(c: Conf, s: State)
    requires Honest(c, s) && MainEnabled(c, s)
    ensures Honest(c, MainNext(c, s))
  {
    hide Score, Fitting, FittingWorker, Status;
    if s.main.Collecting? && |s.seen| != |c.skips| {
      ScoreAppend(s.seen, s.output[0]);
    }
  }

  lemma TakeOnce(c: Conf, s: State, w: nat, code: int, j: nat)
    requires Once(c, s, j) && WorkerEnabled(s, w) && s.ws[w] == Waiting
    ensures Once(c, WorkerNext(c, s, w, code), j)
  {
    hide HeldBy, Results;
    WorkerUpdate(s.ws, w, WorkerNext(c, s, w, code).ws[w], j);
  }

  lemma HoldOnce(c: Conf, s: State, w: nat, code: int, j: nat)
    requires Once(c, s, j) && WorkerEnabled(s, w) && s.ws[w] != Waiting
    ensures Once(c, WorkerNext(c, s, w, code), j)
  {
    hide InQueue, HeldBy, Results;
    WorkerUpdate(s.ws, w, WorkerNext(c, s, w, code).ws[w], j);
    if s.ws[w].Putting? {
      ResAppend(s.output, s.ws[w].r, j);
    }
  }

  lemma TakeBalanced(c: Conf, s: State, w: nat, code: int)
    requires Balanced(c, s) && WorkerEnabled(s, w) && s.ws[w] == Waiting
    ensures Balanced(c, WorkerNext(c, s, w, code))
  {
    hide Holders, HeldBy, Gone, InQueue;
    WorkerUpdate(s.ws, w, WorkerNext(c, s, w, code).ws[w], 0);
  }

  lemma HoldBalanced(c: Conf, s: State, w: nat, code: int)
    requires Balanced(c, s) && WorkerEnabled(s, w) && s.ws[w] != Waiting
    ensures Balanced(c, WorkerNext(c, s, w, code))
  {
    hide Works, Tokens, InQueue, Holders, HeldBy, Gone;
    WorkerUpdate(s.ws, w, WorkerNext(c, s, w, code).ws[w], 0);
  }

  lemma WorkerOrdered(c: Conf, s: State, w: nat, code: int)
    requires Ordered(s) && WorkerEnabled(s, w)
    ensures Ordered(WorkerNext(c, s, w, code))
  {
    WorkerUpdate(s.ws, w, WorkerNext(c, s, w, code).ws[w], 0);
  }

  lemma WorkerHonest(c: Conf, s: State, w: nat, code: int)
    requires Honest(c, s) && WorkerEnabled(s, w)
    ensures Honest(c, WorkerNext(c, s, w, code))
  {
    hide Score, Status;
    assert FittingWorker(c, s.exit, s.ws[w]);
  }

  lemma StepKeepsInv(c: Conf, s: State, step: Step)
    requires Inv(c, s) && Enabled(c, s, step)
    ensures Inv(c, Next(c, s, step))
  {
    hide Balanced, Ordered, Honest, Once, MainNext, WorkerNext, MainEnabled;
    match step
    case MainStep =>
      MainBalanced(c, s);
      MainOrdered(c, s);
      MainHonest(c, s);
      forall j: nat ensures Once(c, MainNext(c, s), j) {
        assert Once(c, s, j);
        MainOnce(c, s, j);
      }
    case WorkerStep(w, code) =>
      if s.ws[w] == Waiting { TakeBalanced(c, s, w, code); } else { HoldBalanced(c, s, w, code); }
      WorkerOrdered(c, s, w, code);
      WorkerHonest(c, s, w, code);
      forall j: nat ensures Once(c, WorkerNext(c, s, w, code), j) {
        assert Once(c, s, j);
        if s.ws[w] == Waiting { TakeOnce(c, s, w, code, j); } else { HoldOnce(c, s, w, code, j); }
      }
    case Interrupt =>
      InterruptKeepsInv(c, s);
  }

  lemma InterruptKeepsInv(c: Conf, s: State)
    requires Inv(c, s)
    ensures Inv(c, s.(exit := true))
  {
    forall j: nat ensures Once(c, s.(exit := true), j) {
      assert Once(c, s, j);
    }
  }

  // ----- runs -----

  /** `steps` can be taken one after the other from `s`. */
  predicate CanRun(c: Conf, s: State, steps: seq<Step>)
    decreases |steps|
  {
    steps == [] || (Enabled(c, s, steps[0]) && CanRun(c, Next(c, s, steps[0]), steps[1..]))
  }

  function After(c: Conf, s: State, steps: seq<Step>): State
    requires CanRun(c, s, steps)
    decreases |steps|
  {
    if steps == [] then s else After(c, Next(c, s, steps[0]), steps[1..])
  }

  lemma {:induction false} RunsKeepInv(c: Conf, s: State, steps: seq<Step>)
    requires Inv(c, s) && CanRun(c, s, steps)
    ensures Inv(c, After(c, s, steps))
    decreases |steps|
  {
    if steps != [] {
      StepKeepsInv(c, s, steps[0]);
      RunsKeepInv(c, Next(c, s, steps[0]), steps[1..]);
    }
  }

  // ----- every run ends -----

  function Weight(w: Worker): nat {
    match w
    case Waiting => 1
    case Took(_) => 5
    case Running(_) => 4
    case Putting(_) => 3
    case Exited => 0
  }

  function Weights(ws: seq<Worker>): nat {
    if ws == [] then 0 else Weight(ws[0]) + Weights(ws[1..])
  }

  function Left(a: nat, b: nat): nat {
    if a < b then 0 else a - b
  }

  function MainLeft(c: Conf, m: Main): nat {
    match m
    case Dispatching(n) => 6 * Left(|c.skips|, n) + 7 * c.workers + 4
    case Breaking(n) => 6 * Left(c.workers, n) + c.workers + 3
    case Collecting => c.workers + 2
    case Joining(n) => Left(c.workers, n) + 1
    case Returned(_) => 0
  }

  /** An upper bound on the steps that remain. */
  function Remaining(c: Conf, s: State): nat {
    MainLeft(c, s.main) + 5 * |s.input| + Weights(s.ws) + |s.output| + One(!s.exit)
  }

  lemma {:induction false} WeightUpdate(ws: seq<Worker>, i: nat, w: Worker)
    requires i < |ws|
    ensures Weights(ws[i := w]) + Weight(ws[i]) == Weights(ws) + Weight(w)
  {
    if i == 0 {
      assert ws[i := w][1..] == ws[1..];
    } else {
      assert ws[i := w][1..] == ws[1..][i - 1 := w];
      WeightUpdate(ws[1..], i - 1, w);
    }
  }

  lemma MainRunsOut(c: Conf, s: State)
    requires |s.ws| == c.workers && MainEnabled(c, s)
    ensures Remaining(c, MainNext(c, s)) < Remaining(c, s)
  {
    hide Weights;
  }

  lemma TakeRunsOut(c: Conf, s: State, w: nat, code: int)
    requires WorkerEnabled(s, w) && s.ws[w] == Waiting
    ensures Remaining(c, WorkerNext(c, s, w, code)) < Remaining(c, s)
  {
    WeightUpdate(s.ws, w, WorkerNext(c, s, w, code).ws[w]);
    hide Weights, MainLeft;
  }

  lemma HoldRunsOut(c: Conf, s: State, w: nat, code: int)
    requires WorkerEnabled(s, w) && s.ws[w] != Waiting
    ensures Remaining(c, WorkerNext(c, s, w, code)) < Remaining(c, s)
  {
    WeightUpdate(s.ws, w, WorkerNext(c, s, w, code).ws[w]);
    hide Weights, MainLeft;
  }

  /** Every step, of whatever thread, uses up some of what remains. */
  lemma StepsRunOut(c: Conf, s: State, step: Step)
    requires Inv(c, s) && Enabled(c, s, step)
    ensures Remaining(c, Next(c, s, step)) < Remaining(c, s)
  {
    match step
    case MainStep => MainRunsOut(c, s);
    case WorkerStep(w, code) =>
      if s.ws[w] == Waiting { TakeRunsOut(c, s, w, code); } else { HoldRunsOut(c, s, w, code); }
    case Interrupt =>
  }

  lemma {:induction false} RunsAreBounded(c: Conf, s: State, steps: seq<Step>)
    requires Inv(c, s) && CanRun(c, s, steps)
    ensures |steps| <= Remaining(c, s)
    decreases |steps|
  {
    if steps != [] {
      StepsRunOut(c, s, steps[0]);
      StepKeepsInv(c, s, steps[0]);
      RunsAreBounded(c, Next(c, s, steps[0]), steps[1..]);
    }
  }

  // ----- no run gets stuck -----

  ghost predicate CanMove(c: Conf, s: State) {
    MainEnabled(c, s) || exists w: nat :: WorkerEnabled(s, w)
  }

  lemma {:induction false} SomeHolder(ws: seq<Worker>) returns (w: nat)
    requires Holders(ws) > 0
    ensures w < |ws| && Holds(ws[w])
  {
    if Holds(ws[0]) {
      w := 0;
    } else {
      var w' := SomeHolder(ws[1..]);
      w := w' + 1;
    }
  }

  lemma {:induction false} SomeWork(q: seq<Item>) returns (i: nat)
    requires Works(q) > 0
    ensures i < |q| && q[i].Work?
  {
    if q[0].Work? {
      i := 0;
    } else {
      var i' := SomeWork(q[1..]);
      i := i' + 1;
    }
  }

  /** A worker that is not waiting for a token can move, or has a token to wait for. */
  lemma WaitingWorkerMoves(s: State, w: nat)
    requires w < |s.ws| && s.ws[w] != Exited && s.input != []
    ensures WorkerEnabled(s, w)
  {
  }

  lemma CollectorFed(c: Conf, s: State)
    requires Inv(c, s) && s.main.Collecting? && |s.seen| < |c.skips| && s.output == [] && c.workers > 0
    ensures exists w: nat :: WorkerEnabled(s, w)
  {
    if Holders(s.ws) > 0 {
      var w := SomeHolder(s.ws);
      assert WorkerEnabled(s, w);
    } else {
      var i := SomeWork(s.input);
      assert Gone(s.ws) == 0;
      GoneBound(s.ws);
      var w: nat :| w < |s.ws| && s.ws[w] != Exited;
      WaitingWorkerMoves(s, w);
    }
  }

  lemma JoinerServed(c: Conf, s: State, n: nat)
    requires Inv(c, s) && s.main == Joining(n) && n < |s.ws| && s.ws[n] != Exited
    ensures WorkerEnabled(s, n)
  {
    GoneBound(s.ws);
    assert s.input == [] ==> Tokens(s.input) == 0;
  }

  /** With at least one worker, or nothing to do, some thread can always move until the run has returned. */
  lemma NoDeadlock(c: Conf, s: State)
    requires Inv(c, s) && !s.main.Returned? && (c.workers > 0 || c.skips == [])
    ensures CanMove(c, s)
  {
    match s.main
    case Collecting =>
      if |s.seen| < |c.skips| && s.output == [] {
        CollectorFed(c, s);
      }
    case Joining(n) =>
      if n < |s.ws| && s.ws[n] != Exited {
        JoinerServed(c, s, n);
      }
    case _ =>
  }

  /** Without workers a run that has jobs never returns, and once it collects results no thread can move again. */
  lemma NoWorkersDeadlock(c: Conf, steps: seq<Step>)
    requires c.workers == 0 && c.skips != [] && CanRun(c, Init(c), steps)
    ensures var s := After(c, Init(c), steps);
            !s.main.Returned? && (s.main.Collecting? ==> !CanMove(c, s))
  {
    InitInv(c);
    RunsKeepInv(c, Init(c), steps);
    NothingSeen(c, After(c, Init(c), steps));
  }

  lemma NothingSeen(c: Conf, s: State)
    requires Inv(c, s) && c.workers == 0 && c.skips != []
    ensures !s.main.Returned? && (s.main.Collecting? ==> !CanMove(c, s))
  {
    assert |s.seen| == 0;
  }

  // ----- what a finished run has done -----

  predicate Good(v: Verdict) {
    v == Skipped || v == Ran(0)
  }

  lemma {:induction false} ScoreIsFull(rs: seq<Res>)
    ensures Score(rs).passed + Score(rs).skipped <= |rs|
    ensures Score(rs).passed + Score(rs).skipped == |rs| <==> forall i :: 0 <= i < |rs| ==> Good(rs[i].v)
    decreases |rs|
  {
    if rs != [] {
      var init := rs[..|rs| - 1];
      ScoreIsFull(init);
      assert forall i :: 0 <= i < |init| ==> rs[i] == init[i];
    }
  }

  lemma {:induction false} NoneHeld(ws: seq<Worker>, j: nat)
    requires Holders(ws) == 0
    ensures HeldBy(ws, j) == 0
  {
    if ws != [] {
      NoneHeld(ws[1..], j);
    }
  }

  lemma {:induction false} NoWorkQueued(q: seq<Item>, j: nat)
    requires Works(q) == 0
    ensures InQueue(q, j) == 0 && |q| == Tokens(q)
  {
    if q != [] {
      NoWorkQueued(q[1..], j);
    }
  }

  /**
   Every complete run, under every interleaving and with the interrupt raised at
   any point or never: each job has exactly one result, each worker has taken
   exactly one break token, nothing is left over, each result fits its job, and
   the exit status is 0 exactly when no job failed, crashed, had valgrind errors
   or was broken off.
   */
  lemma CompleteRun(c: Conf, steps: seq<Step>)
    requires CanRun(c, Init(c), steps) && After(c, Init(c), steps).main.Returned?
    ensures var s := After(c, Init(c), steps);
            && |s.seen| == |c.skips|
            && (forall j: nat :: Results(s.seen, j) == One(j < |c.skips|))
            && (forall i :: 0 <= i < |s.seen| ==> Fitting(c, s.exit, s.seen[i]))
            && (forall i :: 0 <= i < |s.ws| ==> s.ws[i] == Exited)
            && s.input == [] && s.output == []
            && (s.main.status == 0 <==> forall i :: 0 <= i < |s.seen| ==> Good(s.seen[i].v))
  {
    InitInv(c);
    RunsKeepInv(c, Init(c), steps);
    hide CanRun, After, Inv, Good, Fitting, Results;
    FinishedState(c, After(c, Init(c), steps));
  }

  lemma FinishedState(c: Conf, s: State)
    requires Inv(c, s) && s.main.Returned?
    ensures |s.seen| == |c.skips|
    ensures forall j: nat :: Results(s.seen, j) == One(j < |c.skips|)
    ensures forall i :: 0 <= i < |s.seen| ==> Fitting(c, s.exit, s.seen[i])
    ensures forall i :: 0 <= i < |s.ws| ==> s.ws[i] == Exited
    ensures s.input == [] && s.output == []
    ensures s.main.status == 0 <==> forall i :: 0 <= i < |s.seen| ==> Good(s.seen[i].v)
  {
    ScoreIsFull(s.seen);
    GoneBound(s.ws);
    NoWorkQueued(s.input, 0);
    forall j: nat ensures Results(s.seen, j) == One(j < |c.skips|) {
      assert Once(c, s, j);
      NoneHeld(s.ws, j);
      NoWorkQueued(s.input, j);
    }
  }

  // ----- what came of each job -----

  /** The result a step hands over to its thread: of a job that was run, skipped or broken off in it. */
  function Made(c: Conf, s: State, step: Step): seq<Res> {
    if !step.WorkerStep? || step.w >= |s.ws| then []
    else
      match s.ws[step.w]
      case Running(j) => [Res(j, Ran(step.code))]
      case Took(j) => if s.exit then [Res(j, Broken)] else if j < |c.skips| && c.skips[j] then [Res(j, Skipped)] else []
      case _ => []
  }

  function History(c: Conf, s: State, steps: seq<Step>): seq<Res>
    requires CanRun(c, s, steps)
    decreases |steps|
  {
    if steps == [] then [] else Made(c, s, steps[0]) + History(c, Next(c, s, steps[0]), steps[1..])
  }

  function Own(w: Worker): multiset<Res> {
    if w.Putting? then multiset{w.r} else multiset{}
  }

  function Carried(ws: seq<Worker>): multiset<Res> {
    if ws == [] then multiset{} else Own(ws[0]) + Carried(ws[1..])
  }

  lemma AddBoth(a: multiset<Res>, b: multiset<Res>, c: multiset<Res>, d: multiset<Res>, e: multiset<Res>)
    requires b + c == d + e
    ensures a + b + c == a + d + e
  {
    assert a + b + c == a + (b + c) && a + d + e == a + (d + e);
  }

  lemma {:induction false} CarriedUpdate(ws: seq<Worker>, w: nat, x: Worker)
    requires w < |ws|
    ensures Carried(ws[w := x]) + Own(ws[w]) == Carried(ws) + Own(x)
  {
    var u := ws[w := x];
    assert Carried(u) == Own(u[0]) + Carried(u[1..]) && Carried(ws) == Own(ws[0]) + Carried(ws[1..]);
    hide Own;
    if w == 0 {
      assert u[1..] == ws[1..];
    } else {
      assert u[1..] == ws[1..][w - 1 := x] && u[0] == ws[0];
      CarriedUpdate(ws[1..], w - 1, x);
      AddBoth(Own(ws[0]), Carried(u[1..]), Own(ws[w]), Carried(ws[1..]), Own(x));
    }
  }

  /** The results in the hands of workers, in the queue and with the main thread. */
  function Everywhere(s: State): multiset<Res> {
    Carried(s.ws) + multiset(s.output) + multiset(s.seen)
  }

  lemma MainConserves(c: Conf, s: State)
    requires MainEnabled(c, s)
    ensures Everywhere(MainNext(c, s)) == Everywhere(s)
  {
    hide Carried, Count;
    if s.main.Collecting? && |s.seen| != |c.skips| {
      assert s.output == [s.output[0]] + s.output[1..];
    }
  }

  lemma HandOver(a: multiset<Res>, held: multiset<Res>, b: multiset<Res>, taken: multiset<Res>, o: multiset<Res>, s: multiset<Res>)
    requires a + held == b + taken
    ensures a + (o + held) + s == b + o + s + taken
  {
    assert a + (o + held) + s == (a + held) + (o + s);
    assert b + o + s + taken == (b + taken) + (o + s);
  }

  lemma WorkerConserves(c: Conf, s: State, w: nat, code: int)
    requires WorkerEnabled(s, w)
    ensures Everywhere(WorkerNext(c, s, w, code)) == Everywhere(s) + multiset(Made(c, s, WorkerStep(w, code)))
  {
    var s', made := WorkerNext(c, s, w, code), Made(c, s, WorkerStep(w, code));
    var x := s'.ws[w];
    WorkerEffect(c, s, w, code);
    hide Carried, WorkerNext, Made, Hand;
    CarriedUpdate(s.ws, w, x);
    InHand(s.ws[w]);
    InHand(x);
    HandOver(Carried(s'.ws), Own(s.ws[w]), Carried(s.ws), Own(x), multiset(s.output), multiset(s.seen));
  }

  function Hand(w: Worker): seq<Res> {
    if w.Putting? then [w.r] else []
  }

  lemma InHand(w: Worker)
    ensures multiset(Hand(w)) == Own(w)
  {
  }

  /** A worker puts what it holds and takes what the step made. */
  lemma WorkerEffect(c: Conf, s: State, w: nat, code: int)
    requires WorkerEnabled(s, w)
    ensures var s' := WorkerNext(c, s, w, code);
            && |s'.ws| == |s.ws| && s'.ws == s.ws[w := s'.ws[w]] && s'.seen == s.seen
            && s'.output == s.output + Hand(s.ws[w]) && Made(c, s, WorkerStep(w, code)) == Hand(s'.ws[w])
  {
    assert s.output + [] == s.output;
  }

  /** No step loses, changes or invents a result. */
  lemma StepConserves(c: Conf, s: State, step: Step)
    requires Enabled(c, s, step)
    ensures Everywhere(Next(c, s, step)) == Everywhere(s) + multiset(Made(c, s, step))
  {
    match step
    case MainStep => hide Everywhere, MainNext; MainConserves(c, s);
    case WorkerStep(w, code) => hide Everywhere, Made, WorkerNext; WorkerConserves(c, s, w, code);
    case Interrupt => hide Carried;
  }

  lemma {:induction false} RunsConserve(c: Conf, s: State, steps: seq<Step>)
    requires CanRun(c, s, steps)
    ensures Everywhere(After(c, s, steps)) == Everywhere(s) + multiset(History(c, s, steps))
    decreases |steps|
  {
    if steps != [] {
      hide Everywhere, Made;
      StepConserves(c, s, steps[0]);
      RunsConserve(c, Next(c, s, steps[0]), steps[1..]);
    }
  }

  lemma {:induction false} NoneCarried(ws: seq<Worker>)
    requires forall i :: 0 <= i < |ws| ==> !ws[i].Putting?
    ensures Carried(ws) == multiset{}
  {
    if ws != [] {
      NoneCarried(ws[1..]);
    }
  }

  /** A finished run has collected exactly the results that its steps made. */
  lemma CollectedIsMade(c: Conf, steps: seq<Step>)
    requires CanRun(c, Init(c), steps) && After(c, Init(c), steps).main.Returned?
    ensures multiset(After(c, Init(c), steps).seen) == multiset(History(c, Init(c), steps))
  {
    var s := After(c, Init(c), steps);
    RunsConserve(c, Init(c), steps);
    CompleteRun(c, steps);
    hide After, History, Carried;
    NoneCarried(Init(c).ws);
    NoneCarried(s.ws);
    var none: multiset<Res> := multiset{};
    assert Everywhere(Init(c)) == none;
    assert none + multiset(History(c, Init(c), steps)) == multiset(History(c, Init(c), steps));
    assert Everywhere(s) == multiset(s.seen);
  }

  lemma {:induction false} CanRunPrefix(c: Conf, s: State, steps: seq<Step>, n: nat)
    requires CanRun(c, s, steps) && n < |steps|
    ensures CanRun(c, s, steps[..n]) && Enabled(c, After(c, s, steps[..n]), steps[n])
    ensures forall r :: r in Made(c, After(c, s, steps[..n]), steps[n]) ==> r in History(c, s, steps)
    decreases n
  {
    hide Made, Enabled;
    if n == 0 {
      assert steps[..0] == [];
    } else {
      var p := steps[..n];
      assert p[0] == steps[0] && p[1..] == steps[1..][..n - 1];
      CanRunPrefix(c, Next(c, s, steps[0]), steps[1..], n - 1);
    }
  }

  lemma {:induction false} MadeSomewhere(c: Conf, s: State, steps: seq<Step>, r: Res) returns (n: nat)
    requires CanRun(c, s, steps) && r in History(c, s, steps)
    ensures n < |steps| && CanRun(c, s, steps[..n]) && r in Made(c, After(c, s, steps[..n]), steps[n])
    decreases |steps|
  {
    hide Made;
    if r in Made(c, s, steps[0]) {
      n := 0;
      assert steps[..0] == [];
    } else {
      var m := MadeSomewhere(c, Next(c, s, steps[0]), steps[1..], r);
      n := m + 1;
      CanRunPrefix(c, s, steps, n);
      assert steps[..n][0] == steps[0] && steps[..n][1..] == steps[1..][..m];
    }
  }

  /** The state in front of step number `n` of a run. */
  function Before(c: Conf, steps: seq<Step>, n: nat): State
    requires CanRun(c, Init(c), steps) && n < |steps|
  {
    CanRunPrefix(c, Init(c), steps, n);
    After(c, Init(c), steps[..n])
  }

  /**
   What comes back of a job is what happened to it: the return code of the step that ran it,
   a break if it was taken while the flag was up, a skip if it is marked so.
   */
  lemma JobComesBack(c: Conf, steps: seq<Step>, n: nat)
    requires CanRun(c, Init(c), steps) && After(c, Init(c), steps).main.Returned?
    requires n < |steps| && steps[n].WorkerStep? && steps[n].w < |Before(c, steps, n).ws|
    ensures var s, seen := Before(c, steps, n), After(c, Init(c), steps).seen;
            match s.ws[steps[n].w]
            case Running(j) => Res(j, Ran(steps[n].code)) in seen
            case Took(j) =>
              && (s.exit ==> Res(j, Broken) in seen)
              && (!s.exit && j < |c.skips| && c.skips[j] ==> Res(j, Skipped) in seen)
            case _ => true
  {
    var seen, history := After(c, Init(c), steps).seen, History(c, Init(c), steps);
    CollectedIsMade(c, steps);
    CanRunPrefix(c, Init(c), steps, n);
    var made := Made(c, Before(c, steps, n), steps[n]);
    assert forall r :: r in seen <==> r in multiset(seen);
    assert forall r :: r in history <==> r in multiset(history);
    assert made != [] ==> made[0] in made;
  }

  lemma {:induction false} RaisedIff(c: Conf, s: State, steps: seq<Step>)
    requires CanRun(c, s, steps)
    ensures After(c, s, steps).exit <==> s.exit || Interrupt in steps
    decreases |steps|
  {
    if steps != [] {
      RaisedIff(c, Next(c, s, steps[0]), steps[1..]);
      assert steps == [steps[0]] + steps[1..];
    }
  }

  /** The flag is up exactly if the signal handler has run. */
  lemma FlagIff(c: Conf, steps: seq<Step>, n: nat)
    requires CanRun(c, Init(c), steps) && n < |steps|
    ensures Before(c, steps, n).exit <==> Interrupt in steps[..n]
  {
    CanRunPrefix(c, Init(c), steps, n);
    RaisedIff(c, Init(c), steps[..n]);
  }

  /** The step runs no job to a code other than 0 and breaks none off. */
  predicate Harmless(s: State, step: Step) {
    step.WorkerStep? && step.w < |s.ws| ==>
      match s.ws[step.w]
      case Running(_) => step.code == 0
      case Took(_) => !s.exit
      case _ => true
  }

  lemma MadeIsGood(c: Conf, s: State, step: Step)
    ensures Harmless(s, step) <==> forall r :: r in Made(c, s, step) ==> Good(r.v)
  {
    var made := Made(c, s, step);
    if made != [] {
      assert made[0] in made;
    }
  }

  /** The exit status, by the codes in the steps: 0 exactly if every job that was run returned 0 and none was broken off. */
  lemma StatusIsOfCodes(c: Conf, steps: seq<Step>)
    requires CanRun(c, Init(c), steps) && After(c, Init(c), steps).main.Returned?
    ensures After(c, Init(c), steps).main.status == 0 <==>
              forall n: nat :: n < |steps| ==> Harmless(Before(c, steps, n), steps[n])
  {
    var seen, history := After(c, Init(c), steps).seen, History(c, Init(c), steps);
    CompleteRun(c, steps);
    CollectedIsMade(c, steps);
    hide Made, Harmless, Good;
    assert forall r :: r in seen <==> r in multiset(seen);
    assert forall r :: r in history <==> r in multiset(history);
    if forall n: nat :: n < |steps| ==> Harmless(Before(c, steps, n), steps[n]) {
      forall r | r in history ensures Good(r.v) {
        var n := MadeSomewhere(c, Init(c), steps, r);
        MadeIsGood(c, Before(c, steps, n), steps[n]);
      }
    } else {
      var n: nat :| n < |steps| && !Harmless(Before(c, steps, n), steps[n]);
      CanRunPrefix(c, Init(c), steps, n);
      MadeIsGood(c, Before(c, steps, n), steps[n]);
    }
  }

  // ----- the score -----

  function HowMany(rs: seq<Res>, p: Verdict -> bool): nat {
    if rs == [] then 0 else HowMany(rs[..|rs| - 1], p) + One(p(rs[|rs| - 1].v))
  }

  /** Each number of the score counts the results of its kind, and with those broken off there are no others. */
  lemma {:induction false} ScoreCounts(rs: seq<Res>)
    ensures var t := Score(rs);
            && t.passed == HowMany(rs, v => v == Ran(0)) && t.skipped == HowMany(rs, v => v == Skipped)
            && t.failed == HowMany(rs, v => v == Ran(1)) && t.valgrind == HowMany(rs, v => v == Ran(2))
            && t.crashed == HowMany(rs, (v: Verdict) => v.Ran? && v.code !in {0, 1, 2})
            && t.passed + t.skipped + t.failed + t.valgrind + t.crashed + HowMany(rs, v => v == Broken) == |rs|
    decreases |rs|
  {
    if rs != [] {
      ScoreCounts(rs[..|rs| - 1]);
    }
  }

  /** Every run can be continued until it returns, and no run is longer than the bound. */
  lemma EveryRunCompletes(c: Conf, steps: seq<Step>)
    requires CanRun(c, Init(c), steps) && (c.workers > 0 || c.skips == [])
    ensures |steps| <= Remaining(c, Init(c))
    ensures After(c, Init(c), steps).main.Returned? || CanMove(c, After(c, Init(c), steps))
  {
    InitInv(c);
    RunsKeepInv(c, Init(c), steps);
    RunsAreBounded(c, Init(c), steps);
    if !After(c, Init(c), steps).main.Returned? {
      NoDeadlock(c, After(c, Init(c), steps));
    }
  }

  /** The collection loop of the main thread over the results in the order they arrive. */
  method Collect(results: seq<Res>) returns (tally: Tally, status: int)
    ensures tally == Score(results)
    ensures status == 0 <==> forall i :: 0 <= i < |results| ==> Good(results[i].v)
  {
    var passed, skipped, failed, crashed, valgrind := 0, 0, 0, 0, 0;
    var i := 0;
    while i < |results|
      invariant 0 <= i <= |results|
      invariant passed >= 0 && skipped >= 0 && failed >= 0 && crashed >= 0 && valgrind >= 0
      invariant Score(results[..i]) == Tally(passed, skipped, failed, crashed, valgrind)
    {
      assert results[..i + 1][..i] == results[..i];
      match results[i].v {
        case Broken =>
        case Skipped => skipped := skipped + 1;
        case Ran(code) =>
          if code == 0 { passed := passed + 1; }
          else if code == 1 { failed := failed + 1; }
          else if code == 2 { valgrind := valgrind + 1; }
          else { crashed := crashed + 1; }
      }
      i := i + 1;
    }
    assert results[..i] == results;
    tally := Tally(passed, skipped, failed, crashed, valgrind);
    status := if passed + skipped == |results| then 0 else 1;
    ScoreIsFull(results);
  }
}
