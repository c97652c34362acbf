module Isolation {
  // What globalisation is for: many instances of one program share a process.  The
  // rewritten program, driven by any interleaving of stacks, behaves for each stack
  // exactly as the original program driven by that stack's events alone.

  import opened Common
  import opened CLanguage
  import opened Globalise

  // ----- stack k's view of the shared process -----

  /** Where stack `k`'s copy of an object of the original program lives. */
  function Rho(k: nat, l: Loc): Loc {
    match l
    case Obj(s) => Elem(s, k)
    case _ => l
  }

  function RhoV(k: nat, v: Value): Value {
    match v
    case Int(_) => v
    case Ptr(l) => Ptr(Rho(k, l))
  }

  function RhoVs(k: nat, vs: List<Value>): List<Value> {
    match vs
    case Nil => Nil
    case Cons(v, rest) => Cons(RhoV(k, v), RhoVs(k, rest))
  }

  predicate OwnValue(v: Value) {
    v.Ptr? ==> !v.l.Elem?
  }

  predicate OwnValues(vs: List<Value>) {
    vs.Cons? ==> OwnValue(vs.head) && OwnValues(vs.tail)
  }

  ghost predicate RelCell(k: nat, m: Mem, om: Mem, l: Loc) {
    && (l in m <==> Rho(k, l) in om)
    && (l in m ==> OwnValue(m[l]) && om[Rho(k, l)] == RhoV(k, m[l]))
  }

  ghost predicate SameCell(om: Mem, fr: Mem, l: Loc) {
    && (l in om <==> l in fr)
    && (l in om ==> om[l] == fr[l])
  }

  /** Slot `k` of `om` is the memory `m`; the slots of other stacks are those of `fr`. */
  ghost predicate RelMem(k: nat, m: Mem, om: Mem, fr: Mem) {
    && (forall l: Loc :: !l.Elem? ==> RelCell(k, m, om, l))
    && (forall l: Loc :: l.Elem? ==> l !in m)
    && (forall l: Loc :: l.Elem? && l.k != k ==> SameCell(om, fr, l))
    && (forall l: Loc :: l.Obj? ==> l !in om)
  }

  /** The innermost bindings of `x` before and after rewriting. */
  ghost predicate RelName(env: Env, sc: Scope, oenv: Env, stacks: nat, x: Name) {
    match Bound(env, Plain(x))
    case Cell(Frame(n)) => x in sc && sc[x] == KAuto && Bound(oenv, Plain(x)) == Cell(Frame(n))
    case Const(n) => x in sc && sc[x] == KEnum && Bound(oenv, Plain(x)) == Const(n)
    case Fn => x in sc && sc[x] == KFn && Bound(oenv, Plain(x)) == Fn
    case Cell(Obj(s)) =>
      && x in sc
      && (match sc[x]
         case KArr => Bound(oenv, Arr(x)) == Elements(s)
         case KPtr(n) =>
           && Bound(oenv, Ptrs(x, n)) == Pointers(s)
           && (forall j: nat :: j < stacks ==> Bound(oenv, Inst(j, x)) == Cell(Elem(s, j)))
         case _ => false)
    case Unbound => x !in sc && Bound(oenv, Plain(x)) == Unbound
    case _ => false
  }

  ghost predicate RelEnv(env: Env, sc: Scope, oenv: Env, stacks: nat) {
    forall x: Name :: RelName(env, sc, oenv, stacks, x)
  }

  /** `info` holds the scope and array counter each function body was rewritten with. */
  type Info = map<Name, (Scope, nat)>

  ghost predicate RelFn(fns: Fns, ofns: Fns, info: Info, stacks: nat, f: Name) {
    && (f in fns <==> f in ofns)
    && (f in fns ==>
          && f in info
          && SourceStmts(fns[f].body)
          && ofns[f].params == fns[f].params
          && ofns[f].body == Stms(Params(info[f].0, fns[f].params), info[f].1, stacks, fns[f].body).text
          && RelEnv(fns[f].env, info[f].0, ofns[f].env, stacks))
  }

  ghost predicate RelFns(fns: Fns, ofns: Fns, info: Info, stacks: nat) {
    forall f: Name :: RelFn(fns, ofns, info, stacks, f)
  }

  ghost predicate RelState(k: nat, st: State, sc: Scope, ost: State, fr: Mem, stacks: nat) {
    && RelEnv(st.env, sc, ost.env, stacks)
    && RelMem(k, st.mem, ost.mem, fr)
    && st.next == ost.next
  }

  /** Both runs complete in related states, or both fail in the same way. */
  ghost predicate RelOut(k: nat, r: Outcome<State>, sc: Scope, or: Outcome<State>, fr: Mem, stacks: nat) {
    match (r, or)
    case (Done(st), Done(ost)) => RelState(k, st, sc, ost, fr, stacks)
    case (Stuck, Stuck) => true
    case (Timeout, Timeout) => true
    case _ => false
  }

  // ----- expressions -----

  function RhoB(k: nat, b: Binding): Binding {
    match b
    case Cell(l) => Cell(Rho(k, l))
    case _ => b
  }

  lemma DesignatesRel(k: nat, env: Env, sc: Scope, oenv: Env, stacks: nat, x: Name)
    requires RelEnv(env, sc, oenv, stacks)
    ensures Designates(oenv, k, Lv(sc, Id(x))) == RhoB(k, Designates(env, k, Id(x)))
    ensures Designates(env, k, Id(x)).Cell? ==> !Designates(env, k, Id(x)).l.Elem?
  {
    assert RelName(env, sc, oenv, stacks, x);
  }

  function RhoR(k: nat, r: Outcome<Value>): Outcome<Value> {
    match r
    case Done(v) => Done(RhoV(k, v))
    case _ => r
  }

  predicate OwnResult(r: Outcome<Value>) {
    r.Done? ==> OwnValue(r.v)
  }

  lemma ReadRel(k: nat, m: Mem, om: Mem, fr: Mem, l: Loc)
    requires RelMem(k, m, om, fr) && !l.Elem?
    ensures Read(om, Rho(k, l)) == RhoR(k, Read(m, l))
    ensures OwnResult(Read(m, l))
  {
    assert RelCell(k, m, om, l);
  }

  lemma ApplyRel(k: nat, op: Op, a: Value, b: Value)
    requires OwnValue(a) && OwnValue(b)
    ensures Apply(op, RhoV(k, a), RhoV(k, b)) == RhoR(k, Apply(op, a, b))
    ensures OwnResult(Apply(op, a, b))
  {
  }

  lemma {:induction false} EvalRel(k: nat, e: Expr, st: State, sc: Scope, ost: State, fr: Mem, stacks: nat)
    requires SourceExpr(e) && RelState(k, st, sc, ost, fr, stacks)
    ensures Eval(Ex(sc, e), ost.env, k, ost.mem) == RhoR(k, Eval(e, st.env, k, st.mem))
    ensures OwnResult(Eval(e, st.env, k, st.mem))
  {
    match e
    case Lit(_) =>
    case Ref(lv) =>
      DesignatesRel(k, st.env, sc, ost.env, stacks, lv.x);
      var b := Designates(st.env, k, lv);
      if b.Cell? {
        ReadRel(k, st.mem, ost.mem, fr, b.l);
      }
    case Addr(lv) =>
      DesignatesRel(k, st.env, sc, ost.env, stacks, lv.x);
    case Deref(p) =>
      EvalRel(k, p, st, sc, ost, fr, stacks);
      var r := Eval(p, st.env, k, st.mem);
      if r.Done? && r.v.Ptr? {
        ReadRel(k, st.mem, ost.mem, fr, r.v.l);
      }
    case Bin(op, l, r) =>
      EvalRel(k, l, st, sc, ost, fr, stacks);
      EvalRel(k, r, st, sc, ost, fr, stacks);
      var a, b := Eval(l, st.env, k, st.mem), Eval(r, st.env, k, st.mem);
      if a.Done? && b.Done? {
        ApplyRel(k, op, a.v, b.v);
      }
  }

  function RhoRs(k: nat, r: Outcome<List<Value>>): Outcome<List<Value>> {
    match r
    case Done(vs) => Done(RhoVs(k, vs))
    case _ => r
  }

  lemma {:induction false} EvalListRel(k: nat, es: List<Expr>, st: State, sc: Scope, ost: State, fr: Mem, stacks: nat)
    requires SourceExprs(es) && RelState(k, st, sc, ost, fr, stacks)
    ensures EvalList(Exs(sc, es), ost.env, k, ost.mem) == RhoRs(k, EvalList(es, st.env, k, st.mem))
    ensures EvalList(es, st.env, k, st.mem).Done? ==> OwnValues(EvalList(es, st.env, k, st.mem).v)
  {
    match es
    case Nil =>
    case Cons(e, rest) =>
      EvalRel(k, e, st, sc, ost, fr, stacks);
      EvalListRel(k, rest, st, sc, ost, fr, stacks);
  }

  // ----- memory and scope updates -----

  lemma UpdateRel(k: nat, m: Mem, om: Mem, fr: Mem, l: Loc, v: Value)
    requires RelMem(k, m, om, fr) && !l.Elem? && OwnValue(v)
    ensures RelMem(k, m[l := v], om[Rho(k, l) := RhoV(k, v)], fr)
  {
    var m', om' := m[l := v], om[Rho(k, l) := RhoV(k, v)];
    forall l': Loc | !l'.Elem? ensures RelCell(k, m', om', l') {
      assert RelCell(k, m, om, l');
    }
    forall l': Loc | l'.Elem? && l'.k != k ensures SameCell(om', fr, l') {
      assert SameCell(om, fr, l');
    }
  }

  lemma WriteRel(k: nat, l: Loc, v: Value, st: State, sc: Scope, ost: State, fr: Mem, stacks: nat)
    requires RelState(k, st, sc, ost, fr, stacks) && !l.Elem? && OwnValue(v)
    ensures RelOut(k, Write(l, v, st), sc, Write(Rho(k, l), RhoV(k, v), ost), fr, stacks)
  {
    assert RelCell(k, st.mem, ost.mem, l);
    UpdateRel(k, st.mem, ost.mem, fr, l, v);
  }

  lemma BindPlainRel(env: Env, sc: Scope, oenv: Env, stacks: nat, x: Name, b: Binding, kind: Kind)
    requires RelEnv(env, sc, oenv, stacks)
    requires (b.Const? && kind == KEnum) || (b.Fn? && kind == KFn) || (b.Cell? && b.l.Frame? && kind == KAuto)
    ensures RelEnv(env[Plain(x) := b], sc[x := kind], oenv[Plain(x) := b], stacks)
  {
    var env', sc', oenv' := env[Plain(x) := b], sc[x := kind], oenv[Plain(x) := b];
    forall y: Name ensures RelName(env', sc', oenv', stacks, y) {
      assert RelName(env, sc, oenv, stacks, y);
    }
  }

  lemma BindArrRel(env: Env, sc: Scope, oenv: Env, stacks: nat, x: Name, s: nat)
    requires RelEnv(env, sc, oenv, stacks)
    ensures RelEnv(env[Plain(x) := Cell(Obj(s))], sc[x := KArr], oenv[Arr(x) := Elements(s)], stacks)
  {
    var env', sc', oenv' := env[Plain(x) := Cell(Obj(s))], sc[x := KArr], oenv[Arr(x) := Elements(s)];
    forall y: Name ensures RelName(env', sc', oenv', stacks, y) {
      assert RelName(env, sc, oenv, stacks, y);
    }
  }

  lemma BindPtrsRel(env: Env, sc: Scope, oenv: Env, stacks: nat, d: StaticDecl)
    requires RelEnv(env, sc, oenv, stacks) && d.InstDecl? && |d.inits| == stacks
    ensures RelEnv(env[Plain(d.x) := Cell(Obj(d.site))], sc[d.x := KPtr(d.n)], DeclareStatic(oenv, d), stacks)
  {
    var env', sc', oenv' := env[Plain(d.x) := Cell(Obj(d.site))], sc[d.x := KPtr(d.n)], DeclareStatic(oenv, d);
    forall y: Name ensures RelName(env', sc', oenv', stacks, y) {
      assert RelName(env, sc, oenv, stacks, y);
    }
  }

  lemma DeclRel(env: Env, sc: Scope, oenv: Env, next: nat, stacks: nat, d: StaticDecl)
    requires RelEnv(env, sc, oenv, stacks) && d.PlainDecl?
    ensures var o := Decl(sc, next, stacks, d);
            RelEnv(DeclareStatic(env, d), o.sc, DeclareStatic(oenv, o.text), stacks)
  {
    if d.isArray {
      BindPtrsRel(env, sc, oenv, stacks, Decl(sc, next, stacks, d).text);
    } else {
      BindArrRel(env, sc, oenv, stacks, d.x, d.site);
    }
  }

  lemma {:induction false} DeclsRel(env: Env, sc: Scope, oenv: Env, next: nat, stacks: nat, ds: List<StaticDecl>)
    requires RelEnv(env, sc, oenv, stacks) && SourceDecls(ds)
    ensures var o := Decls(sc, next, stacks, ds);
            RelEnv(DeclareStatics(env, ds), o.sc, DeclareStatics(oenv, o.text), stacks)
    decreases ds
  {
    match ds
    case Nil =>
    case Cons(d, rest) =>
      DeclRel(env, sc, oenv, next, stacks, d);
      var o := Decl(sc, next, stacks, d);
      DeclsRel(DeclareStatic(env, d), o.sc, DeclareStatic(oenv, o.text), o.next, stacks, rest);
  }

  lemma AllocateRel(k: nat, x: Name, st: State, sc: Scope, ost: State, fr: Mem, stacks: nat)
    requires RelState(k, st, sc, ost, fr, stacks)
    ensures RelState(k, Allocate(x, st), sc[x := KAuto], Allocate(x, ost), fr, stacks)
  {
    BindPlainRel(st.env, sc, ost.env, stacks, x, Cell(Frame(st.next)), KAuto);
  }

  lemma {:induction false} AutosRel(k: nat, ds: List<AutoDecl>, st: State, sc: Scope, ost: State, fr: Mem, stacks: nat)
    requires SourceAutos(ds) && RelState(k, st, sc, ost, fr, stacks)
    ensures RelOut(k, ExecAutos(ds, k, st), Autos(sc, ds).0, ExecAutos(Autos(sc, ds).1, k, ost), fr, stacks)
    decreases ds
  {
    match ds
    case Nil =>
    case Cons(d, rest) =>
      var st1, sc1, ost1 := Allocate(d.x, st), sc[d.x := KAuto], Allocate(d.x, ost);
      AllocateRel(k, d.x, st, sc, ost, fr, stacks);
      if d.init.None? {
        AutosRel(k, rest, st1, sc1, ost1, fr, stacks);
      } else {
        EvalRel(k, d.init.value, st1, sc1, ost1, fr, stacks);
        var r := Eval(d.init.value, st1.env, k, st1.mem);
        if r.Done? {
          UpdateRel(k, st1.mem, ost1.mem, fr, Frame(st.next), r.v);
          AutosRel(k, rest, st1.(mem := st1.mem[Frame(st.next) := r.v]), sc1,
                   ost1.(mem := ost1.mem[Frame(st.next) := RhoV(k, r.v)]), fr, stacks);
        }
      }
  }

  lemma {:induction false} PassArgsRel(k: nat, ps: List<Name>, vs: List<Value>, st: State, sc: Scope, ost: State, fr: Mem, stacks: nat)
    requires OwnValues(vs) && RelState(k, st, sc, ost, fr, stacks)
    ensures RelOut(k, PassArgs(ps, vs, st), Params(sc, ps), PassArgs(ps, RhoVs(k, vs), ost), fr, stacks)
    decreases ps
  {
    match (ps, vs)
    case (Cons(p, ps'), Cons(v, vs')) =>
      AllocateRel(k, p, st, sc, ost, fr, stacks);
      var st1, ost1 := Allocate(p, st), Allocate(p, ost);
      UpdateRel(k, st1.mem, ost1.mem, fr, Frame(st.next), v);
      PassArgsRel(k, ps', vs', st1.(mem := st1.mem[Frame(st.next) := v]), sc[p := KAuto],
                  ost1.(mem := ost1.mem[Frame(st.next) := RhoV(k, v)]), fr, stacks);
    case _ =>
  }

  // ----- statements -----

  lemma AssignRel(fns: Fns, ofns: Fns, fuel: nat, k: nat, lv: Lval, e: Expr, next: nat,
                  st: State, sc: Scope, ost: State, fr: Mem, stacks: nat)
    requires lv.Id? && SourceExpr(e) && RelState(k, st, sc, ost, fr, stacks)
    ensures RelOut(k, Exec(fns, fuel, k, Assign(lv, e), st), sc,
                   Exec(ofns, fuel, k, Stm(sc, next, stacks, Assign(lv, e)).text, ost), fr, stacks)
  {
    hide RelEnv, RelMem, Eval, Designates, Ex, SourceExpr;
    EvalRel(k, e, st, sc, ost, fr, stacks);
    DesignatesRel(k, st.env, sc, ost.env, stacks, lv.x);
    var r, b := Eval(e, st.env, k, st.mem), Designates(st.env, k, lv);
    if r.Done? && b.Cell? {
      WriteRel(k, b.l, r.v, st, sc, ost, fr, stacks);
    }
  }

  lemma StoreRel(fns: Fns, ofns: Fns, fuel: nat, k: nat, p: Expr, e: Expr, next: nat,
                 st: State, sc: Scope, ost: State, fr: Mem, stacks: nat)
    requires SourceExpr(p) && SourceExpr(e) && RelState(k, st, sc, ost, fr, stacks)
    ensures RelOut(k, Exec(fns, fuel, k, Store(p, e), st), sc,
                   Exec(ofns, fuel, k, Stm(sc, next, stacks, Store(p, e)).text, ost), fr, stacks)
  {
    hide RelEnv, RelMem, Eval, Ex, SourceExpr;
    EvalRel(k, p, st, sc, ost, fr, stacks);
    EvalRel(k, e, st, sc, ost, fr, stacks);
    var a, r := Eval(p, st.env, k, st.mem), Eval(e, st.env, k, st.mem);
    if a.Done? && r.Done? && a.v.Ptr? {
      WriteRel(k, a.v.l, r.v, st, sc, ost, fr, stacks);
    }
  }

  lemma {:induction false} ExecRel(fns: Fns, ofns: Fns, info: Info, fuel: nat, k: nat, s: Stmt, next: nat,
                                   st: State, sc: Scope, ost: State, fr: Mem, stacks: nat)
    requires SourceStmt(s) && RelFns(fns, ofns, info, stacks) && RelState(k, st, sc, ost, fr, stacks)
    ensures var o := Stm(sc, next, stacks, s);
            RelOut(k, Exec(fns, fuel, k, s, st), o.sc, Exec(ofns, fuel, k, o.text, ost), fr, stacks)
    decreases fuel, s
  {
    hide RelEnv, RelMem, Eval, Designates, ExecScope, ExecAutos;
    match s
    case Assign(lv, e) =>
      AssignRel(fns, ofns, fuel, k, lv, e, next, st, sc, ost, fr, stacks);
    case Store(p, e) =>
      StoreRel(fns, ofns, fuel, k, p, e, next, st, sc, ost, fr, stacks);
    case Call(f, args) =>
      CallRel(fns, ofns, info, fuel, k, f, args, next, st, sc, ost, fr, stacks);
    case Auto(ds) =>
      AutosRel(k, ds, st, sc, ost, fr, stacks);
    case Static(ds) =>
      DeclsRel(st.env, sc, ost.env, next, stacks, ds);
    case Block(body) =>
      ExecScopeRel(fns, ofns, info, fuel, k, body, next, st, sc, ost, fr, stacks);
    case If(c, thn, els) =>
      EvalRel(k, c, st, sc, ost, fr, stacks);
      ExecScopeRel(fns, ofns, info, fuel, k, thn, next, st, sc, ost, fr, stacks);
      ExecScopeRel(fns, ofns, info, fuel, k, els, Stms(sc, next, stacks, thn).next, st, sc, ost, fr, stacks);
    case While(c, body) =>
      WhileRel(fns, ofns, info, fuel, k, c, body, next, st, sc, ost, fr, stacks);
  }

  lemma {:induction false} CallRel(fns: Fns, ofns: Fns, info: Info, fuel: nat, k: nat, f: Lval, args: List<Expr>, next: nat,
                                   st: State, sc: Scope, ost: State, fr: Mem, stacks: nat)
    requires SourceStmt(Call(f, args)) && RelFns(fns, ofns, info, stacks) && RelState(k, st, sc, ost, fr, stacks)
    ensures var o := Stm(sc, next, stacks, Call(f, args));
            RelOut(k, Exec(fns, fuel, k, Call(f, args), st), sc, Exec(ofns, fuel, k, o.text, ost), fr, stacks)
    decreases fuel, args
  {
    hide RelMem, Eval, Exec, EvalList, Invoke, RhoVs, OwnValues, Exs, SourceExprs;
    EvalListRel(k, args, st, sc, ost, fr, stacks);
    DesignatesRel(k, st.env, sc, ost.env, stacks, f.x);
    assert RelName(st.env, sc, ost.env, stacks, f.x);
    assert RelFn(fns, ofns, info, stacks, f.x);
    CallStep(fns, fuel, k, f, args, st);
    CallStep(ofns, fuel, k, Lv(sc, f), Exs(sc, args), ost);
    var r := EvalList(args, st.env, k, st.mem);
    if r.Done? && Designates(st.env, k, f) == Fn && f.x in fns && fuel > 0 {
      InvokeRel(fns, ofns, info, fuel - 1, k, f.x, r.v, st, ost, fr, stacks);
    }
  }

  lemma CallStep(fns: Fns, fuel: nat, k: nat, f: Lval, args: List<Expr>, st: State)
    ensures Exec(fns, fuel, k, Call(f, args), st) ==
            match EvalList(args, st.env, k, st.mem)
            case Stuck => Stuck
            case Timeout => Timeout
            case Done(vs) =>
              if f.Id? && Designates(st.env, k, f) == Fn && f.x in fns then
                if fuel == 0 then Timeout
                else match Invoke(fns, fuel - 1, k, f.x, vs, st)
                  case Stuck => Stuck
                  case Timeout => Timeout
                  case Done(st1) => Done(st1.(env := st.env))
              else Stuck
  {
    hide EvalList, Invoke, Designates;
  }

  lemma {:induction false} InvokeRel(fns: Fns, ofns: Fns, info: Info, fuel: nat, k: nat, f: Name, vs: List<Value>,
                                     st: State, ost: State, fr: Mem, stacks: nat)
    requires RelFns(fns, ofns, info, stacks) && f in fns && f in ofns && OwnValues(vs)
    requires RelMem(k, st.mem, ost.mem, fr) && st.next == ost.next
    ensures f in info
    ensures RelOut(k, Invoke(fns, fuel, k, f, vs, st),
                   Stms(Params(info[f].0, fns[f].params), info[f].1, stacks, fns[f].body).sc,
                   Invoke(ofns, fuel, k, f, RhoVs(k, vs), ost), fr, stacks)
    decreases fuel
  {
    assert RelFn(fns, ofns, info, stacks, f);
    var sc := info[f].0;
    var st0, ost0 := st.(env := fns[f].env), ost.(env := ofns[f].env);
    PassArgsRel(k, fns[f].params, vs, st0, sc, ost0, fr, stacks);
    var r, or := PassArgs(fns[f].params, vs, st0), PassArgs(fns[f].params, RhoVs(k, vs), ost0);
    if r.Done? {
      ExecListRel(fns, ofns, info, fuel, k, fns[f].body, info[f].1, r.v, Params(sc, fns[f].params), or.v, fr, stacks);
    }
  }

  lemma {:induction false} WhileRel(fns: Fns, ofns: Fns, info: Info, fuel: nat, k: nat, c: Expr, body: List<Stmt>, next: nat,
                                    st: State, sc: Scope, ost: State, fr: Mem, stacks: nat)
    requires SourceStmt(While(c, body)) && RelFns(fns, ofns, info, stacks) && RelState(k, st, sc, ost, fr, stacks)
    ensures var o := Stm(sc, next, stacks, While(c, body));
            RelOut(k, Exec(fns, fuel, k, While(c, body), st), sc, Exec(ofns, fuel, k, o.text, ost), fr, stacks)
    decreases fuel, body, 2
  {
    var obody := Stms(sc, next, stacks, body).text;
    assert Stm(sc, next, stacks, While(c, body)).text == While(Ex(sc, c), obody);
    hide RelEnv, RelMem, RelFns, Eval, Exec, ExecScope, Ex, Stms, Stm, SourceStmts, SourceExpr;
    EvalRel(k, c, st, sc, ost, fr, stacks);
    WhileStep(fns, fuel, k, c, body, st);
    WhileStep(ofns, fuel, k, Ex(sc, c), obody, ost);
    var r := Eval(c, st.env, k, st.mem);
    if r.Done? && r.v != Int(0) && fuel > 0 {
      ExecScopeRel(fns, ofns, info, fuel, k, body, next, st, sc, ost, fr, stacks);
      var r1, or1 := ExecScope(fns, fuel, k, body, st), ExecScope(ofns, fuel, k, obody, ost);
      if r1.Done? {
        ExecRel(fns, ofns, info, fuel - 1, k, While(c, body), next, r1.v, sc, or1.v, fr, stacks);
      }
    }
  }

  lemma WhileStep(fns: Fns, fuel: nat, k: nat, c: Expr, body: List<Stmt>, st: State)
    ensures Exec(fns, fuel, k, While(c, body), st) ==
            match Eval(c, st.env, k, st.mem)
            case Stuck => Stuck
            case Timeout => Timeout
            case Done(v) =>
              if v == Int(0) then Done(st)
              else if fuel == 0 then Timeout
              else match ExecScope(fns, fuel, k, body, st)
                case Stuck => Stuck
                case Timeout => Timeout
                case Done(st1) => Exec(fns, fuel - 1, k, While(c, body), st1)
  {
    hide Eval, ExecScope;
  }

  lemma {:induction false} ExecScopeRel(fns: Fns, ofns: Fns, info: Info, fuel: nat, k: nat, ss: List<Stmt>, next: nat,
                                        st: State, sc: Scope, ost: State, fr: Mem, stacks: nat)
    requires SourceStmts(ss) && RelFns(fns, ofns, info, stacks) && RelState(k, st, sc, ost, fr, stacks)
    ensures var o := Stms(sc, next, stacks, ss);
            RelOut(k, ExecScope(fns, fuel, k, ss, st), sc, ExecScope(ofns, fuel, k, o.text, ost), fr, stacks)
    decreases fuel, ss, 1
  {
    ExecListRel(fns, ofns, info, fuel, k, ss, next, st, sc, ost, fr, stacks);
  }

  lemma {:induction false} ExecListRel(fns: Fns, ofns: Fns, info: Info, fuel: nat, k: nat, ss: List<Stmt>, next: nat,
                                       st: State, sc: Scope, ost: State, fr: Mem, stacks: nat)
    requires SourceStmts(ss) && RelFns(fns, ofns, info, stacks) && RelState(k, st, sc, ost, fr, stacks)
    ensures var o := Stms(sc, next, stacks, ss);
            RelOut(k, ExecList(fns, fuel, k, ss, st), o.sc, ExecList(ofns, fuel, k, o.text, ost), fr, stacks)
    decreases fuel, ss, 0
  {
    match ss
    case Nil =>
    case Cons(s, rest) =>
      ExecRel(fns, ofns, info, fuel, k, s, next, st, sc, ost, fr, stacks);
      var o := Stm(sc, next, stacks, s);
      var r, or := Exec(fns, fuel, k, s, st), Exec(ofns, fuel, k, o.text, ost);
      if r.Done? {
        ExecListRel(fns, ofns, info, fuel, k, rest, o.next, r.v, o.sc, or.v, fr, stacks);
      }
  }

  // ----- static storage before the program starts -----

  /** Between invocations: `m` is exactly what stack `k` sees of the shared memory `om`. */
  ghost predicate View(k: nat, m: Mem, om: Mem) {
    && (forall s: nat :: RelCell(k, m, om, Obj(s)))
    && (forall l :: l in m ==> l.Obj?)
    && (forall l :: l in om ==> l.Elem?)
  }

  lemma InitValueRel(k: nat, env: Env, sc: Scope, oenv: Env, stacks: nat, i: Init)
    requires RelEnv(env, sc, oenv, stacks) && SourceInit(i) && k < stacks
    ensures InitValue(oenv, InitFor(sc, i, k)) == RhoV(k, InitValue(env, i))
    ensures OwnValue(InitValue(env, i))
  {
    if i.AddrOf? {
      assert RelName(env, sc, oenv, stacks, i.x);
    }
  }

  lemma InitDeclRel(k: nat, env: Env, sc: Scope, oenv: Env, stacks: nat, d: StaticDecl, inits: seq<Init>, m: Mem, om: Mem)
    requires RelEnv(env, sc, oenv, stacks) && d.PlainDecl? && SourceInit(d.init) && k < stacks
    requires inits == Inits(sc, d.init, stacks) && View(k, m, om)
    ensures View(k, m[Obj(d.site) := InitValue(env, d.init)], om + InitElems(oenv, d.site, inits))
  {
    InitValueRel(k, env, sc, oenv, stacks, d.init);
    var m', om' := m[Obj(d.site) := InitValue(env, d.init)], om + InitElems(oenv, d.site, inits);
    forall s: nat ensures RelCell(k, m', om', Obj(s)) {
      assert RelCell(k, m, om, Obj(s));
    }
  }

  lemma {:induction false} InitStaticsRel(k: nat, env: Env, sc: Scope, oenv: Env, next: nat, stacks: nat,
                                          ds: List<StaticDecl>, m: Mem, om: Mem)
    requires RelEnv(env, sc, oenv, stacks) && SourceDecls(ds) && k < stacks && View(k, m, om)
    ensures View(k, InitStatics(env, ds, m), InitStatics(oenv, Decls(sc, next, stacks, ds).text, om))
    decreases ds
  {
    match ds
    case Nil =>
    case Cons(d, rest) =>
      DeclRel(env, sc, oenv, next, stacks, d);
      var o := Decl(sc, next, stacks, d);
      var env1, oenv1 := DeclareStatic(env, d), DeclareStatic(oenv, o.text);
      InitDeclRel(k, env1, o.sc, oenv1, stacks, d, o.text.inits, m, om);
      InitStaticsRel(k, env1, o.sc, oenv1, o.next, stacks, rest,
                     m[Obj(d.site) := InitValue(env1, d.init)], om + InitElems(oenv1, d.site, o.text.inits));
  }

  lemma {:induction false} BindAutosRel(env: Env, sc: Scope, oenv: Env, stacks: nat, ds: List<AutoDecl>)
    requires RelEnv(env, sc, oenv, stacks)
    ensures RelEnv(BindAutos(env, ds), Autos(sc, ds).0, BindAutos(oenv, Autos(sc, ds).1), stacks)
    decreases ds
  {
    match ds
    case Nil =>
    case Cons(d, rest) =>
      BindPlainRel(env, sc, oenv, stacks, d.x, Cell(Frame(0)), KAuto);
      BindAutosRel(env[Plain(d.x) := Cell(Frame(0))], sc[d.x := KAuto], oenv[Plain(d.x) := Cell(Frame(0))], stacks, rest);
  }

  lemma {:induction false} BindParamsRel(env: Env, sc: Scope, oenv: Env, stacks: nat, ps: List<Name>)
    requires RelEnv(env, sc, oenv, stacks)
    ensures RelEnv(BindParams(env, ps), Params(sc, ps), BindParams(oenv, ps), stacks)
    decreases ps
  {
    match ps
    case Nil =>
    case Cons(p, rest) =>
      BindPlainRel(env, sc, oenv, stacks, p, Cell(Frame(0)), KAuto);
      BindParamsRel(env[Plain(p) := Cell(Frame(0))], sc[p := KAuto], oenv[Plain(p) := Cell(Frame(0))], stacks, rest);
  }

  lemma {:induction false} InitStmtRel(k: nat, env: Env, sc: Scope, oenv: Env, next: nat, stacks: nat, s: Stmt, m: Mem, om: Mem)
    requires RelEnv(env, sc, oenv, stacks) && SourceStmt(s) && k < stacks && View(k, m, om)
    ensures View(k, InitStmt(env, s, m), InitStmt(oenv, Stm(sc, next, stacks, s).text, om))
    ensures RelEnv(EnvAfter(env, s), Stm(sc, next, stacks, s).sc, EnvAfter(oenv, Stm(sc, next, stacks, s).text), stacks)
    decreases s
  {
    hide RelEnv, View;
    match s
    case Auto(ds) =>
      BindAutosRel(env, sc, oenv, stacks, ds);
    case Static(ds) =>
      DeclsRel(env, sc, oenv, next, stacks, ds);
      InitStaticsRel(k, env, sc, oenv, next, stacks, ds, m, om);
    case Block(body) =>
      InitListRel(k, env, sc, oenv, next, stacks, body, m, om);
    case If(_, thn, els) =>
      InitListRel(k, env, sc, oenv, next, stacks, thn, m, om);
      var o := Stms(sc, next, stacks, thn);
      InitListRel(k, env, sc, oenv, o.next, stacks, els, InitList(env, thn, m), InitList(oenv, o.text, om));
    case While(_, body) =>
      InitListRel(k, env, sc, oenv, next, stacks, body, m, om);
    case _ =>
  }

  lemma {:induction false} InitListRel(k: nat, env: Env, sc: Scope, oenv: Env, next: nat, stacks: nat, ss: List<Stmt>, m: Mem, om: Mem)
    requires RelEnv(env, sc, oenv, stacks) && SourceStmts(ss) && k < stacks && View(k, m, om)
    ensures View(k, InitList(env, ss, m), InitList(oenv, Stms(sc, next, stacks, ss).text, om))
    decreases ss
  {
    match ss
    case Nil =>
    case Cons(s, rest) =>
      InitStmtRel(k, env, sc, oenv, next, stacks, s, m, om);
      var o := Stm(sc, next, stacks, s);
      InitListRel(k, EnvAfter(env, s), o.sc, EnvAfter(oenv, o.text), o.next, stacks, rest,
                  InitStmt(env, s, m), InitStmt(oenv, o.text, om));
  }

  // ----- loading a translation unit -----

  ghost predicate RelImage(im: Image, sc: Scope, oim: Image, info: Info, stacks: nat) {
    && RelEnv(im.env, sc, oim.env, stacks)
    && RelFns(im.fns, oim.fns, info, stacks)
    && (forall k: nat :: k < stacks ==> View(k, im.mem, oim.mem))
  }

  lemma AddFnRel(fns: Fns, ofns: Fns, info: Info, stacks: nat, f: Name, d: FnDef, od: FnDef, sc: Scope, next: nat)
    requires RelFns(fns, ofns, info, stacks) && SourceStmts(d.body) && RelEnv(d.env, sc, od.env, stacks)
    requires od.params == d.params && od.body == Stms(Params(sc, d.params), next, stacks, d.body).text
    ensures RelFns(fns[f := d], ofns[f := od], info[f := (sc, next)], stacks)
  {
    var fns', ofns', info' := fns[f := d], ofns[f := od], info[f := (sc, next)];
    forall g: Name ensures RelFn(fns', ofns', info', stacks, g) {
      assert RelFn(fns, ofns, info, stacks, g);
    }
  }

  lemma LoadTopRel(im: Image, sc: Scope, oim: Image, info: Info, next: nat, stacks: nat, t: Top) returns (info': Info)
    requires RelImage(im, sc, oim, info, stacks) && SourceTops(Cons(t, Nil))
    ensures var o := TopDecl(sc, next, stacks, t);
            RelImage(LoadTop(im, t), o.sc, LoadTop(oim, o.text), info', stacks)
  {
    info' := info;
    match t
    case Global(ds) =>
      DeclsRel(im.env, sc, oim.env, next, stacks, ds);
      forall k: nat | k < stacks
        ensures View(k, InitStatics(im.env, ds, im.mem), InitStatics(oim.env, Decls(sc, next, stacks, ds).text, oim.mem))
      {
        InitStaticsRel(k, im.env, sc, oim.env, next, stacks, ds, im.mem, oim.mem);
      }
    case EnumConst(x, n) => BindPlainRel(im.env, sc, oim.env, stacks, x, Const(n), KEnum);
    case Proto(f) => BindPlainRel(im.env, sc, oim.env, stacks, f, Fn, KFn);
    case Func(f, ps, body) =>
      BindPlainRel(im.env, sc, oim.env, stacks, f, Fn, KFn);
      var env, sc1, oenv := im.env[Plain(f) := Fn], sc[f := KFn], oim.env[Plain(f) := Fn];
      var o := Stms(Params(sc1, ps), next, stacks, body);
      AddFnRel(im.fns, oim.fns, info, stacks, f, FnDef(ps, body, env), FnDef(ps, o.text, oenv), sc1, next);
      info' := info[f := (sc1, next)];
      BindParamsRel(env, sc1, oenv, stacks, ps);
      forall k: nat | k < stacks
        ensures View(k, InitList(BindParams(env, ps), body, im.mem), InitList(BindParams(oenv, ps), o.text, oim.mem))
      {
        InitListRel(k, BindParams(env, ps), Params(sc1, ps), BindParams(oenv, ps), next, stacks, body, im.mem, oim.mem);
      }
  }

  lemma {:induction false} LoadTopsRel(im: Image, sc: Scope, oim: Image, info: Info, next: nat, stacks: nat, ts: List<Top>)
    returns (info': Info)
    requires RelImage(im, sc, oim, info, stacks) && SourceTops(ts)
    ensures var o := Tops(sc, next, stacks, ts);
            RelImage(LoadTops(im, ts), o.sc, LoadTops(oim, o.text), info', stacks)
    decreases ts
  {
    match ts
    case Nil => info' := info;
    case Cons(t, rest) =>
      var info1 := LoadTopRel(im, sc, oim, info, next, stacks, t);
      var o := TopDecl(sc, next, stacks, t);
      info' := LoadTopsRel(LoadTop(im, t), o.sc, LoadTop(oim, o.text), info1, o.next, stacks, rest);
  }

  // ----- runs -----

  lemma IntsOwn(k: nat, ns: List<int>)
    ensures RhoVs(k, Ints(ns)) == Ints(ns) && OwnValues(Ints(ns))
  {
  }

  /** One invocation by stack `k`: its own slots evolve as the original variables do, the others keep their values. */
  lemma InvocationIsolated(im: Image, sc: Scope, oim: Image, info: Info, stacks: nat, ev: Event, m: Mem, om: Mem)
    requires RelImage(im, sc, oim, info, stacks) && View(ev.stack, m, om)
    ensures Handle(im, ev, m).Done? <==> Handle(oim, ev, om).Done?
    ensures Handle(oim, ev, om).Done? ==>
      && View(ev.stack, Handle(im, ev, m).v, Handle(oim, ev, om).v)
      && (forall l: Loc :: l.Elem? && l.k != ev.stack ==> SameCell(Handle(oim, ev, om).v, om, l))
  {
    var k := ev.stack;
    assert RelFn(im.fns, oim.fns, info, stacks, ev.f);
    if ev.f in im.fns {
      IntsOwn(k, ev.args);
      forall l: Loc | !l.Elem? ensures RelCell(k, m, om, l) {
        if l.Obj? { assert RelCell(k, m, om, Obj(l.site)); }
      }
      InvokeRel(im.fns, oim.fns, info, ev.fuel, k, ev.f, Ints(ev.args), State(map[], m, 0), State(map[], om, 0), om, stacks);
      var r := Invoke(im.fns, ev.fuel, k, ev.f, Ints(ev.args), State(map[], m, 0));
      var or := Invoke(oim.fns, ev.fuel, k, ev.f, Ints(ev.args), State(map[], om, 0));
      if r.Done? {
        StaticPartRel(k, r.v.mem, or.v.mem, om);
      }
    }
  }

  lemma StaticPartRel(k: nat, m: Mem, om: Mem, fr: Mem)
    requires RelMem(k, m, om, fr)
    ensures View(k, StaticPart(m), StaticPart(om))
    ensures forall l: Loc :: l.Elem? && l.k != k ==> SameCell(StaticPart(om), fr, l)
  {
    forall s: nat ensures RelCell(k, StaticPart(m), StaticPart(om), Obj(s)) {
      assert RelCell(k, m, om, Obj(s));
    }
    forall l: Loc | l.Elem? && l.k != k ensures SameCell(StaticPart(om), fr, l) {
      assert SameCell(om, fr, l);
    }
  }

  lemma OtherView(j: nat, m: Mem, om: Mem, om': Mem, k: nat)
    requires View(j, m, om) && j != k
    requires forall l :: l in om' ==> l.Elem?
    requires forall l: Loc :: l.Elem? && l.k != k ==> SameCell(om', om, l)
    ensures View(j, m, om')
  {
    forall s: nat ensures RelCell(j, m, om', Obj(s)) {
      assert RelCell(j, m, om, Obj(s));
      assert SameCell(om', om, Elem(s, j));
    }
  }

  /** The events of one stack, in order. */
  function Only(evs: seq<Event>, k: nat): seq<Event> {
    if evs == [] then []
    else (if evs[0].stack == k then [evs[0]] else []) + Only(evs[1..], k)
  }

  ghost predicate AllViews(ms: seq<Mem>, om: Mem) {
    forall k: nat :: k < |ms| ==> View(k, ms[k], om)
  }

  /** Stack `k` run alone, from memory `m`. */
  function Alone(im: Image, evs: seq<Event>, k: nat, m: Mem): Outcome<Mem> {
    Run(im, Only(evs, k), m)
  }

  lemma AloneStep(im: Image, evs: seq<Event>, k: nat, m: Mem)
    requires evs != []
    ensures evs[0].stack != k ==> Alone(im, evs, k, m) == Alone(im, evs[1..], k, m)
    ensures evs[0].stack == k && !Handle(im, evs[0], m).Done? ==> !Alone(im, evs, k, m).Done?
    ensures evs[0].stack == k && Handle(im, evs[0], m).Done? ==>
      Alone(im, evs, k, m) == Alone(im, evs[1..], k, Handle(im, evs[0], m).v)
  {
    if evs[0].stack == k {
      assert Only(evs, k)[1..] == Only(evs[1..], k);
    } else {
      assert Only(evs, k) == Only(evs[1..], k);
    }
  }

  lemma {:induction false} RunsRel(im: Image, sc: Scope, oim: Image, info: Info, stacks: nat, evs: seq<Event>, ms: seq<Mem>, om: Mem)
    requires RelImage(im, sc, oim, info, stacks) && |ms| == stacks && AllViews(ms, om)
    requires forall i :: 0 <= i < |evs| ==> evs[i].stack < stacks
    ensures Run(oim, evs, om).Done? <==> forall k: nat :: k < stacks ==> Alone(im, evs, k, ms[k]).Done?
    ensures Run(oim, evs, om).Done? ==>
      forall k: nat :: k < stacks ==> View(k, Alone(im, evs, k, ms[k]).v, Run(oim, evs, om).v)
    decreases |evs|
  {
    if evs == [] {
      assert forall k: nat :: k < stacks ==> Alone(im, evs, k, ms[k]) == Done(ms[k]);
    } else {
      var ev := evs[0];
      var j := ev.stack;
      assert View(j, ms[j], om);
      InvocationIsolated(im, sc, oim, info, stacks, ev, ms[j], om);
      forall k: nat | k < stacks {
        AloneStep(im, evs, k, ms[k]);
      }
      var r := Handle(im, ev, ms[j]);
      if r.Done? {
        var om' := Handle(oim, ev, om).v;
        var ms' := ms[j := r.v];
        forall k: nat | k < stacks ensures View(k, ms'[k], om') {
          if k != j {
            assert View(k, ms[k], om);
            OtherView(k, ms[k], om, om', j);
          }
        }
        RunsRel(im, sc, oim, info, stacks, evs[1..], ms', om');
        assert forall k: nat :: k < stacks ==> Alone(im, evs, k, ms[k]) == Alone(im, evs[1..], k, ms'[k]);
      } else {
        assert !Alone(im, evs, j, ms[j]).Done?;
      }
    }
  }

  lemma EmptyRel(stacks: nat)
    ensures var empty := Image(map[], map[], map[]);
            RelImage(empty, map[], empty, map[], stacks)
  {
    var empty := Image(map[], map[], map[]);
    assert RelEnv(empty.env, map[], empty.env, stacks);
    assert RelFns(empty.fns, empty.fns, map[], stacks);
  }

  /** Related images, started as they are loaded. */
  lemma FromStart(im: Image, sc: Scope, oim: Image, info: Info, stacks: nat, evs: seq<Event>)
    requires RelImage(im, sc, oim, info, stacks)
    requires forall i :: 0 <= i < |evs| ==> evs[i].stack < stacks
    ensures Run(oim, evs, oim.mem).Done? <==> forall k: nat :: k < stacks ==> Alone(im, evs, k, im.mem).Done?
    ensures Run(oim, evs, oim.mem).Done? ==>
              forall k: nat :: k < stacks ==> View(k, Alone(im, evs, k, im.mem).v, Run(oim, evs, oim.mem).v)
  {
    hide View, RelEnv, RelFns, Run, Alone;
    var ms := seq(stacks, (_: nat) => im.mem);
    assert forall k: nat :: k < stacks ==> ms[k] == im.mem;
    RunsRel(im, sc, oim, info, stacks, evs, ms, oim.mem);
    assert forall k: nat :: k < stacks ==> Alone(im, evs, k, ms[k]) == Alone(im, evs, k, im.mem);
  }

  /**
   For every program, every number of stacks and every interleaving of their
   events: the shared rewritten process completes exactly when every stack would
   complete alone, and then each stack's slots hold what the original program's
   variables hold after that stack's own events.
   */
  lemma SharedProcessIsIsolated(ts: List<Top>, stacks: nat, evs: seq<Event>)
    requires SourceTops(ts)
    requires forall i :: 0 <= i < |evs| ==> evs[i].stack < stacks
    ensures var im, oim := Load(ts), Load(Program(ts, stacks));
            && (Run(oim, evs, oim.mem).Done? <==>
                  forall k: nat :: k < stacks ==> Alone(im, evs, k, im.mem).Done?)
            && (Run(oim, evs, oim.mem).Done? ==>
                  forall k: nat :: k < stacks ==> View(k, Alone(im, evs, k, im.mem).v, Run(oim, evs, oim.mem).v))
  {
    var empty := Image(map[], map[], map[]);
    EmptyRel(stacks);
    hide View, Run;
    var info := LoadTopsRel(empty, map[], empty, map[], 0, stacks, ts);
    var im, oim := Load(ts), Load(Program(ts, stacks));
    FromStart(im, Tops(map[], 0, stacks, ts).sc, oim, info, stacks, evs);
  }
}
