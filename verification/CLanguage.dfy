module CLanguage {
  // The fragment of C that the globaliser reads and writes, with one semantics for
  // both: the rewritten file is C too, so its meaning is that of the same language.
  //
  // Generated identifiers have their own constructors, so a program that was
  // written by hand cannot contain them by accident; `GlobalNames` proves that the
  // spelled names do not collide.

  import opened Common

  type Name = string

  datatype List<T> = Nil | Cons(head: T, tail: List<T>)

  /** What a lexical scope binds: a name of the source file or a generated one. */
  datatype Ident =
    | Plain(x: Name)            // x
    | Arr(x: Name)              // global_x, an array with one element per stack
    | Inst(k: nat, x: Name)     // _GLOBAL_k_x_I, the instance of stack k
    | Ptrs(x: Name, n: nat)     // _GLOBAL_x_n_A, an array of pointers to the instances

  datatype Lval =
    | Id(x: Name)               // x
    | Slot(x: Name)             // global_x[get_stack_id()]
    | Through(x: Name, n: nat)  // (*_GLOBAL_x_n_A[get_stack_id()])

  datatype Op = Add | Sub | Mul | Less | Equal

  datatype Expr =
    | Lit(n: int)
    | Ref(lv: Lval)
    | Addr(lv: Lval)
    | Deref(e: Expr)
    | Bin(op: Op, l: Expr, r: Expr)

  /** Initialisers of objects with static storage are constants or addresses. */
  datatype Init =
    | Zero
    | Num(n: int)
    | AddrOf(x: Name)              // &x
    | AddrSlot(x: Name, k: nat)    // &global_x[k]
    | AddrInst(k: nat, x: Name)    // &_GLOBAL_k_x_I

  /** `site` names the storage that the declaration reserves. */
  datatype StaticDecl =
    | PlainDecl(x: Name, site: nat, isArray: bool, init: Init)
    | ArrDecl(x: Name, site: nat, inits: seq<Init>)            // T global_x[NUM_STACKS] = { ... }
    | InstDecl(x: Name, site: nat, n: nat, inits: seq<Init>)   // one object per stack and the pointer array

  datatype AutoDecl = AutoDecl(x: Name, init: Option<Expr>)

  datatype Stmt =
    | Assign(lv: Lval, e: Expr)
    | Store(p: Expr, e: Expr)                  // *p = e
    | Call(f: Lval, args: List<Expr>)
    | Auto(autos: List<AutoDecl>)
    | Static(statics: List<StaticDecl>)
    | Block(body: List<Stmt>)
    | If(c: Expr, thn: List<Stmt>, els: List<Stmt>)
    | While(c: Expr, body: List<Stmt>)

  datatype Top =
    | Global(decls: List<StaticDecl>)
    | EnumConst(x: Name, n: int)
    | Proto(f: Name)
    | Func(f: Name, params: List<Name>, body: List<Stmt>)

  // ----- meaning -----

  datatype Loc = Obj(site: nat) | Elem(site: nat, k: nat) | Frame(n: nat)

  datatype Value = Int(n: int) | Ptr(l: Loc)

  datatype Binding = Cell(l: Loc) | Const(n: int) | Fn | Elements(site: nat) | Pointers(site: nat) | Unbound

  type Env = map<Ident, Binding>
  type Mem = map<Loc, Value>

  datatype Outcome<+T> = Done(v: T) | Stuck | Timeout {
    predicate IsFailure() {
      !Done?
    }
    function PropagateFailure<U>(): Outcome<U>
      requires !Done?
    {
      if Stuck? then Stuck else Timeout
    }
    function Extract(): T
      requires Done?
    {
      v
    }
  }

  datatype State = State(env: Env, mem: Mem, next: nat)

  /** Functions are closed over the file scope at their definition. */
  datatype FnDef = FnDef(params: List<Name>, body: List<Stmt>, env: Env)
  type Fns = map<Name, FnDef>

  function Bound(env: Env, i: Ident): Binding {
    if i in env then env[i] else Unbound
  }

  /** What an lvalue designates when get_stack_id() returns `k`. */
  function Designates(env: Env, k: nat, lv: Lval): Binding {
    match lv
    case Id(x) => Bound(env, Plain(x))
    case Slot(x) => (match Bound(env, Arr(x)) case Elements(s) => Cell(Elem(s, k)) case _ => Unbound)
    case Through(x, n) => (match Bound(env, Ptrs(x, n)) case Pointers(s) => Cell(Elem(s, k)) case _ => Unbound)
  }

  function Read(m: Mem, l: Loc): Outcome<Value> {
    if l in m then Done(m[l]) else Stuck
  }

  function Apply(op: Op, a: Value, b: Value): Outcome<Value> {
    if op.Equal? then Done(Int(if a == b then 1 else 0))
    else if a.Int? && b.Int? then
      match op
      case Add => Done(Int(a.n + b.n))
      case Sub => Done(Int(a.n - b.n))
      case Mul => Done(Int(a.n * b.n))
      case _ => Done(Int(if a.n < b.n then 1 else 0))
    else Stuck
  }

  function Eval(e: Expr, env: Env, k: nat, m: Mem): Outcome<Value> {
    match e
    case Lit(n) => Done(Int(n))
    case Ref(lv) => (match Designates(env, k, lv) case Cell(l) => Read(m, l) case Const(n) => Done(Int(n)) case _ => Stuck)
    case Addr(lv) => (match Designates(env, k, lv) case Cell(l) => Done(Ptr(l)) case _ => Stuck)
    case Deref(p) =>
      var v :- Eval(p, env, k, m);
      if v.Ptr? then Read(m, v.l) else Stuck
    case Bin(op, l, r) =>
      var a :- Eval(l, env, k, m);
      var b :- Eval(r, env, k, m);
      Apply(op, a, b)
  }

  function EvalList(es: List<Expr>, env: Env, k: nat, m: Mem): Outcome<List<Value>> {
    match es
    case Nil => Done(Nil)
    case Cons(e, rest) =>
      var v :- Eval(e, env, k, m);
      var vs :- EvalList(rest, env, k, m);
      Done(Cons(v, vs))
  }

  /** A frame cell is writable once it is allocated, even before it holds a value. */
  predicate Writable(l: Loc, st: State) {
    l in st.mem || (l.Frame? && l.n < st.next)
  }

  function Write(l: Loc, v: Value, st: State): Outcome<State> {
    if Writable(l, st) then Done(st.(mem := st.mem[l := v])) else Stuck
  }

  /** Declaring an automatic variable binds it before its initialiser is evaluated. */
  function Allocate(x: Name, st: State): State {
    State(st.env[Plain(x) := Cell(Frame(st.next))], st.mem, st.next + 1)
  }

  function ExecAutos(ds: List<AutoDecl>, k: nat, st: State): Outcome<State>
    decreases ds
  {
    match ds
    case Nil => Done(st)
    case Cons(d, rest) =>
      var st1 := Allocate(d.x, st);
      if d.init.None? then ExecAutos(rest, k, st1)
      else
        var v :- Eval(d.init.value, st1.env, k, st1.mem);
        ExecAutos(rest, k, st1.(mem := st1.mem[Frame(st.next) := v]))
  }

  /** Entering the scope of a static declaration: its storage exists already. */
  function DeclareStatic(env: Env, d: StaticDecl): Env {
    match d
    case PlainDecl(x, s, _, _) => env[Plain(x) := Cell(Obj(s))]
    case ArrDecl(x, s, _) => env[Arr(x) := Elements(s)]
    case InstDecl(x, s, n, inits) =>
      BindInstances(env, x, s, |inits|)[Ptrs(x, n) := Pointers(s)]
  }

  function BindInstances(env: Env, x: Name, s: nat, count: nat): (r: Env)
    ensures forall i: Ident ::
      Bound(r, i) == if i.Inst? && i.x == x && i.k < count then Cell(Elem(s, i.k)) else Bound(env, i)
  {
    if count == 0 then env else BindInstances(env, x, s, count - 1)[Inst(count - 1, x) := Cell(Elem(s, count - 1))]
  }

  function DeclareStatics(env: Env, ds: List<StaticDecl>): Env
    decreases ds
  {
    match ds
    case Nil => env
    case Cons(d, rest) => DeclareStatics(DeclareStatic(env, d), rest)
  }

  function PassArgs(ps: List<Name>, vs: List<Value>, st: State): Outcome<State>
    decreases ps
  {
    match (ps, vs)
    case (Nil, Nil) => Done(st)
    case (Cons(p, ps'), Cons(v, vs')) =>
      var st1 := Allocate(p, st);
      PassArgs(ps', vs', st1.(mem := st1.mem[Frame(st.next) := v]))
    case _ => Stuck
  }

  /** Each loop iteration and each call spends one unit of `fuel`. */
  function Exec(fns: Fns, fuel: nat, k: nat, s: Stmt, st: State): Outcome<State>
    decreases fuel, s
  {
    match s
    case Assign(lv, e) =>
      var v :- Eval(e, st.env, k, st.mem);
      (match Designates(st.env, k, lv) case Cell(l) => Write(l, v, st) case _ => Stuck)
    case Store(p, e) =>
      var a :- Eval(p, st.env, k, st.mem);
      var v :- Eval(e, st.env, k, st.mem);
      if a.Ptr? then Write(a.l, v, st) else Stuck
    case Call(f, args) =>
      var vs :- EvalList(args, st.env, k, st.mem);
      if f.Id? && Designates(st.env, k, f) == Fn && f.x in fns then
        if fuel == 0 then Timeout
        else
          var st1 :- Invoke(fns, fuel - 1, k, f.x, vs, st);
          Done(st1.(env := st.env))
      else Stuck
    case Auto(ds) => ExecAutos(ds, k, st)
    case Static(ds) => Done(st.(env := DeclareStatics(st.env, ds)))
    case Block(body) => ExecScope(fns, fuel, k, body, st)
    case If(c, thn, els) =>
      var v :- Eval(c, st.env, k, st.mem);
      if v != Int(0) then ExecScope(fns, fuel, k, thn, st) else ExecScope(fns, fuel, k, els, st)
    case While(c, body) =>
      var v :- Eval(c, st.env, k, st.mem);
      if v == Int(0) then Done(st)
      else if fuel == 0 then Timeout
      else
        var st1 :- ExecScope(fns, fuel, k, body, st);
        Exec(fns, fuel - 1, k, s, st1)
  }

  /** A nested statement list: its declarations are gone when it ends. */
  function ExecScope(fns: Fns, fuel: nat, k: nat, ss: List<Stmt>, st: State): Outcome<State>
    decreases fuel, ss, 1
  {
    var st1 :- ExecList(fns, fuel, k, ss, st);
    Done(st1.(env := st.env))
  }

  function ExecList(fns: Fns, fuel: nat, k: nat, ss: List<Stmt>, st: State): Outcome<State>
    decreases fuel, ss, 0
  {
    match ss
    case Nil => Done(st)
    case Cons(s, rest) =>
      var st1 :- Exec(fns, fuel, k, s, st);
      ExecList(fns, fuel, k, rest, st1)
  }

  function Invoke(fns: Fns, fuel: nat, k: nat, f: Name, vs: List<Value>, st: State): Outcome<State>
    requires f in fns
    decreases fuel
  {
    var st1 :- PassArgs(fns[f].params, vs, st.(env := fns[f].env));
    ExecList(fns, fuel, k, fns[f].body, st1)
  }

  // ----- whole programs -----

  function InitValue(env: Env, i: Init): Value {
    match i
    case Zero => Int(0)
    case Num(n) => Int(n)
    case AddrOf(x) => (match Bound(env, Plain(x)) case Cell(l) => Ptr(l) case _ => Int(0))
    case AddrSlot(x, k) => (match Bound(env, Arr(x)) case Elements(s) => Ptr(Elem(s, k)) case _ => Int(0))
    case AddrInst(k, x) => (match Bound(env, Inst(k, x)) case Cell(l) => Ptr(l) case _ => Int(0))
  }

  function InitElems(env: Env, s: nat, inits: seq<Init>): Mem {
    map j: nat | j < |inits| :: Elem(s, j) := InitValue(env, inits[j])
  }

  /** Static storage before the program starts, declaration by declaration. */
  function InitStatics(env: Env, ds: List<StaticDecl>, m: Mem): Mem
    decreases ds
  {
    match ds
    case Nil => m
    case Cons(d, rest) =>
      var env1 := DeclareStatic(env, d);
      var m1 := match d
        case PlainDecl(_, s, _, i) => m[Obj(s) := InitValue(env1, i)]
        case ArrDecl(_, s, inits) => m + InitElems(env1, s, inits)
        case InstDecl(_, s, _, inits) => m + InitElems(env1, s, inits);
      InitStatics(env1, rest, m1)
  }

  function BindAutos(env: Env, ds: List<AutoDecl>): Env
    decreases ds
  {
    match ds
    case Nil => env
    case Cons(d, rest) => BindAutos(env[Plain(d.x) := Cell(Frame(0))], rest)
  }

  function BindParams(env: Env, ps: List<Name>): Env
    decreases ps
  {
    match ps
    case Nil => env
    case Cons(p, rest) => BindParams(env[Plain(p) := Cell(Frame(0))], rest)
  }

  function EnvAfter(env: Env, s: Stmt): Env {
    match s
    case Auto(ds) => BindAutos(env, ds)
    case Static(ds) => DeclareStatics(env, ds)
    case _ => env
  }

  function InitStmt(env: Env, s: Stmt, m: Mem): Mem
    decreases s
  {
    match s
    case Static(ds) => InitStatics(env, ds, m)
    case Block(body) => InitList(env, body, m)
    case If(_, thn, els) => InitList(env, els, InitList(env, thn, m))
    case While(_, body) => InitList(env, body, m)
    case _ => m
  }

  function InitList(env: Env, ss: List<Stmt>, m: Mem): Mem
    decreases ss
  {
    match ss
    case Nil => m
    case Cons(s, rest) => InitList(EnvAfter(env, s), rest, InitStmt(env, s, m))
  }

  datatype Image = Image(env: Env, fns: Fns, mem: Mem)

  function LoadTop(im: Image, t: Top): Image {
    match t
    case Global(ds) => Image(DeclareStatics(im.env, ds), im.fns, InitStatics(im.env, ds, im.mem))
    case EnumConst(x, n) => im.(env := im.env[Plain(x) := Const(n)])
    case Proto(f) => im.(env := im.env[Plain(f) := Fn])
    case Func(f, ps, body) =>
      var env := im.env[Plain(f) := Fn];
      Image(env, im.fns[f := FnDef(ps, body, env)], InitList(BindParams(env, ps), body, im.mem))
  }

  function LoadTops(im: Image, ts: List<Top>): Image
    decreases ts
  {
    match ts
    case Nil => im
    case Cons(t, rest) => LoadTops(LoadTop(im, t), rest)
  }

  function Load(ts: List<Top>): Image {
    LoadTops(Image(map[], map[], map[]), ts)
  }

  /** What outlives an invocation: frames are popped. */
  function StaticPart(m: Mem): Mem {
    map l | l in m && !l.Frame? :: m[l]
  }

  /** One entry into the program from outside, as the simulator drives a stack. */
  datatype Event = Event(stack: nat, f: Name, args: List<int>, fuel: nat)

  function Ints(ns: List<int>): List<Value> {
    match ns
    case Nil => Nil
    case Cons(n, rest) => Cons(Int(n), Ints(rest))
  }

  function Handle(im: Image, ev: Event, m: Mem): Outcome<Mem> {
    if ev.f !in im.fns then Stuck
    else
      var st :- Invoke(im.fns, ev.fuel, ev.stack, ev.f, Ints(ev.args), State(map[], m, 0));
      Done(StaticPart(st.mem))
  }

  /** A process: it dies with the first invocation that does not complete. */
  function Run(im: Image, evs: seq<Event>, m: Mem): Outcome<Mem>
    decreases |evs|
  {
    if evs == [] then Done(m)
    else
      var m1 :- Handle(im, evs[0], m);
      Run(im, evs[1..], m1)
  }

  // ----- laws of the language -----

  /** Numbers are added, subtracted, multiplied and compared as numbers. */
  lemma ArithmeticLaws(a: int, b: int)
    ensures Apply(Sub, Apply(Add, Int(a), Int(b)).v, Int(b)) == Done(Int(a))
    ensures Apply(Add, Int(a), Int(0)) == Done(Int(a)) && Apply(Add, Int(a), Int(1)) == Done(Int(a + 1))
    ensures Apply(Mul, Int(a), Int(0)) == Done(Int(0)) && Apply(Mul, Int(a), Int(b)).Done?
    ensures Apply(Less, Int(a), Int(b)) == Done(Int(1)) <==> b - a > 0
    ensures Apply(Equal, Int(a), Int(b)) == Done(Int(1)) <==> a == b
  {
  }

  lemma ProductLaw(a: int, b: int)
    ensures Apply(Mul, Int(a), Int(b + 1)) == Apply(Add, Apply(Mul, Int(a), Int(b)).v, Int(a))
  {
    assert a * (b + 1) == a * b + a;
  }

  /** What was assigned is read back, and no other variable has changed. */
  lemma AssignedIsRead(fns: Fns, fuel: nat, k: nat, lv: Lval, e: Expr, st: State, other: Lval)
    requires Exec(fns, fuel, k, Assign(lv, e), st).Done?
    ensures var st' := Exec(fns, fuel, k, Assign(lv, e), st).v;
            && Eval(Ref(lv), st'.env, k, st'.mem) == Eval(e, st.env, k, st.mem)
            && (Designates(st.env, k, other) != Designates(st.env, k, lv) ==>
                  Eval(Ref(other), st'.env, k, st'.mem) == Eval(Ref(other), st.env, k, st.mem))
  {
  }

  /** `if` takes its first branch on any number but 0, and `while` ends on 0. */
  lemma BranchLaws(fns: Fns, fuel: nat, k: nat, n: int, thn: List<Stmt>, els: List<Stmt>, st: State)
    ensures Exec(fns, fuel, k, If(Lit(n), thn, els), st) == ExecScope(fns, fuel, k, if n == 0 then els else thn, st)
    ensures Exec(fns, fuel, k, While(Lit(0), thn), st) == Done(st)
  {
    hide ExecScope;
  }
}
