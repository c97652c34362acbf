module Counterexamples {
  // Files on which the tool goes wrong, one for the shadowing condition and one for each
  // way to break `TopsDisciplined`: what it writes differs from the globalised program,
  // or it stops with an error.

  import opened Common
  import opened CLanguage
  import opened Globalise
  import opened Tables
  import opened ScopeDiscipline
  import opened Leftovers
  import opened Refinement

  function One<T>(x: T): List<T> {
    Cons(x, Nil)
  }

  function Two<T>(x: T, y: T): List<T> {
    Cons(x, Cons(y, Nil))
  }

  // ----- a static that shadows an automatic -----

  function ShadowDecl(x: Name, d: StaticDecl): List<Stmt> {
    Two(Auto(One(AutoDecl(x, Some(Lit(0))))), Block(Two(Static(One(d)), Assign(Id(x), Lit(5)))))
  }

  function ShadowBlock(x: Name): List<Stmt> {
    Two(Static(One(PlainDecl(x, 7, false, Zero))), Assign(Id(x), Lit(5)))
  }

  function ShadowBody(x: Name): List<Stmt> {
    Two(Auto(One(AutoDecl(x, Some(Lit(0))))), Block(ShadowBlock(x)))
  }

  /** void f() { int x = 0; { static int x; x = 5; } } */
  function ShadowFile(f: Name, x: Name): List<Top> {
    One(Func(f, Nil, ShadowBody(x)))
  }

  lemma ShadowNames(f: Name, x: Name)
    ensures FileNames(ShadowFile(f, x)) == {f, x}
  {
    var ds, vs := One(PlainDecl(x, 7, false, Zero)), One(AutoDecl(x, Some(Lit(0))));
    assert StaticNames(ds) == [x] + StaticNames(Nil) && AutoNames(vs) == [x] + AutoNames(Nil);
    assert NameSet([x]) == {x} && NameSet(ParamNames(Nil)) == {};
    assert NamesIn(One(Assign(Id(x), Lit(5)))) == {} + NamesIn(Nil);
    assert NamesIn(ShadowBlock(x)) == {x};
    assert NamesIn(One(Block(ShadowBlock(x)))) == {x} + NamesIn(Nil);
    assert NamesIn(ShadowBody(x)) == {x};
    assert FileNames(Nil) == {};
  }

  lemma ShadowUses(f: Name, x: Name)
    requires f != x
    ensures FileUses(ShadowFile(f, x)) == {Use(x, true, true, true, false)}
  {
    var all := {f, x};
    var c0, c1, c2, c3 := StartCtx(all), Ctx({f}, {}, {}, all), Ctx({f, x}, {}, {x}, all), Ctx({f, x}, {x}, {x}, all);
    var decl := Auto(One(AutoDecl(x, Some(Lit(0)))));
    assert UsesList(c3, One(Assign(Id(x), Lit(5)))) == {Use(x, true, true, true, false)} by {
      assert UsesList(After(c3, Assign(Id(x), Lit(5))), Nil) == {};
    }
    assert UsesList(c2, ShadowBlock(x)) == {Use(x, true, true, true, false)} by {
      assert BindStatic(c2, x) == c3;
      assert AfterDecls(BindStatic(c2, x), Nil) == c3;
      assert UsesDecls(BindStatic(c2, x), Nil) == {};
    }
    assert UsesList(c1, ShadowBody(x)) == {Use(x, true, true, true, false)} by {
      assert AutoNames(One(AutoDecl(x, Some(Lit(0))))) == [x] + AutoNames(Nil);
      assert NameSet([x]) == {x};
      assert Listed(c1, decl.autos) == Ctx({f}, {}, {x}, all);
      assert BindAuto(Ctx({f}, {}, {x}, all), x) == c2;
      assert AfterAutos(c2, Nil) == c2;
      assert After(c1, decl) == c2;
      assert UsesAutos(c2, Nil) == {};
      assert UsesList(c2, One(Block(ShadowBlock(x)))) == UsesList(c2, ShadowBlock(x)) + UsesList(c2, Nil);
    }
    ShadowNames(f, x);
    assert BindAuto(c0, f) == c1;
    assert NameSet(ParamNames(Nil)) == {};
    assert BodyCtx(c1, Nil) == c1;
    assert UsesTops(AfterTop(c0, Func(f, Nil, ShadowBody(x))), Nil) == {};
  }

  /** On a well-behaved file the static behind an automatic is missed, and what the tool writes is not the globalised program. */
  lemma ShadowedStaticIsMissed(f: Name, x: Name, stacks: nat)
    requires f != x && stacks > 0
    ensures var ts := ShadowFile(f, x);
            && SourceTops(ts) && WellBehaved(ts) && AllKnown(FileUses(ts))
            && Globaliser(ts, stacks).Some? && Globaliser(ts, stacks).value != Program(ts, stacks)
  {
    var ts := ShadowFile(f, x);
    ShadowUses(f, x);
    assert SourceStmts(ShadowBody(x)) by {
      assert SourceDecls(Nil) && SourceAutos(Nil) && SourceStmts(Nil);
      assert SourceStmts(One(Assign(Id(x), Lit(5))));
      assert SourceStmts(ShadowBlock(x));
      assert SourceStmts(One(Block(ShadowBlock(x))));
    }
    var ds := One(PlainDecl(x, 7, false, Zero));
    assert WellBehaved(ts) by {
      assert FnNames(Nil) == {} && EnumNames(Nil) == {};
      assert FnNames(ts) == {f} && EnumNames(ts) == {};
      assert TopsDisciplined(Nil, {f});
      assert StaticNames(ds) == [x] + StaticNames(Nil);
      assert NamesHere(One(Assign(Id(x), Lit(5)))) == [] + NamesHere(Nil);
      assert NoSelfArray(Nil);
      assert DisciplinedDecls(ds, {f});
      assert Disciplined(ShadowBlock(x), {f});
      assert {f} + NameSet(NamesOf(Auto(One(AutoDecl(x, Some(Lit(0))))))) == {f};
      assert Disciplined(ShadowBody(x), {f});
      assert {f} + {} == {f};
    }
    ToolIsRightIff(ts, stacks);
    assert Use(x, true, true, true, false) in FileUses(ts);
  }

  /** What the tool makes of the body: the declaration is rewritten and the assignment is not. */
  function ShadowOut(x: Name, stacks: nat): List<Stmt> {
    ShadowDecl(x, ArrDecl(x, 7, Copies(Same(Zero), stacks)))
  }

  lemma OneMember(t: Tab, stacks: nat, s: Stmt, nl: nat, ns: nat)
    ensures var r, r' := HgrMember(t, stacks, s, nl, ns), HgrList(t, stacks, One(s), nl, ns);
            if r.ExitList? then r'.ExitList?
            else r' == OkList(r.t, One(r.text), r.numLocals, r.numStatics)
  {
    var r := HgrMember(t, stacks, s, nl, ns);
    if r.OkList? {
      assert HgrList(r.t, stacks, Nil, r.numLocals, r.numStatics) == OkList(r.t, Nil, r.numLocals, r.numStatics);
    }
  }

  lemma TwoMembers(t: Tab, stacks: nat, a: Stmt, b: Stmt, nl: nat, ns: nat)
    requires HgrMember(t, stacks, a, nl, ns).OkList?
    ensures var r1 := HgrMember(t, stacks, a, nl, ns);
            var r2, r := HgrMember(r1.t, stacks, b, r1.numLocals, r1.numStatics), HgrList(t, stacks, Two(a, b), nl, ns);
            if r2.ExitList? then r.ExitList?
            else r == OkList(r2.t, Two(r1.text, r2.text), r2.numLocals, r2.numStatics)
  {
    hide HgrMember;
    var r1 := HgrMember(t, stacks, a, nl, ns);
    OneMember(r1.t, stacks, b, r1.numLocals, r1.numStatics);
  }

  /** A list that declares one static and no automatics, as a scope. */
  lemma ScopePopsOne(t: Tab, stacks: nat, ss: List<Stmt>, init: seq<Name>, x: Name)
    requires var r := HgrList(t, stacks, ss, 0, 0);
             r.OkList? && r.numLocals == 0 && r.numStatics == 1 && r.t.statics == init + [x] && Entry(r.t.syms, x) != []
    ensures var r := HgrList(t, stacks, ss, 0, 0);
            HgrScope(t, stacks, ss) == Ok(Popped(r.t, x, init), r.text)
  {
    hide HgrList, PopStatics;
    var r := HgrList(t, stacks, ss, 0, 0);
    assert r.t.(locals := r.t.locals[..|r.t.locals| - 0]) == r.t;
    PopLast(r.t, init, x, 1);
    PopNone(Popped(r.t, x, init));
  }

  lemma ScalarMember(t: Tab, stacks: nat, x: Name)
    ensures var r := HgrMember(t, stacks, Static(One(PlainDecl(x, 7, false, Zero))), 0, 0);
            && r.OkList? && r.numLocals == 0 && r.numStatics == 1
            && r.t.locals == t.locals && r.t.statics == t.statics + [x] && Entry(r.t.syms, x) != []
            && r.text == Static(One(ArrDecl(x, 7, Copies(Same(Zero), stacks))))
  {
    var r0 := HandleDecl(t, stacks, PlainDecl(x, 7, false, Zero), true);
    assert HandleDecls(r0.t, stacks, Nil, true) == Ok(r0.t, Nil);
  }

  lemma ShadowBlockOut(t: Tab, x: Name, stacks: nat)
    requires t.locals == [x]
    ensures var r := HgrScope(t, stacks, ShadowBlock(x));
            r.Ok? && r.t.locals == [x] && r.text == ShadowOut(x, stacks).tail.head.body
  {
    var d, u := Static(One(PlainDecl(x, 7, false, Zero))), Assign(Id(x), Lit(5));
    ScalarMember(t, stacks, x);
    var r1 := HgrMember(t, stacks, d, 0, 0);
    assert x in r1.t.locals;
    assert HgrMember(r1.t, stacks, u, 0, 1) == OkList(r1.t, u, 0, 1);
    hide HgrMember, HgrList, HgrScope, Copies;
    TwoMembers(t, stacks, d, u, 0, 0);
    ScopePopsOne(t, stacks, ShadowBlock(x), t.statics, x);
  }

  lemma ShadowBodyOut(t: Tab, x: Name, stacks: nat)
    requires t.locals == []
    ensures var r := HgrScope(t, stacks, ShadowBody(x));
            r.Ok? && r.text == ShadowOut(x, stacks)
  {
    hide HgrScope;
    var a, b := Auto(One(AutoDecl(x, Some(Lit(0))))), Block(ShadowBlock(x));
    var t1 := t.(locals := [x]);
    assert AutoNames(a.autos) == [x] + AutoNames(Nil) == [x];
    assert t.locals + AutoNames(a.autos) == [x];
    assert HgrAutos(t1, Nil) == Some(Nil);
    assert HgrAutos(t1, a.autos) == Some(a.autos);
    assert HgrMember(t, stacks, a, 0, 0) == OkList(t1, a, 1, 0);
    ShadowBlockOut(t1, x, stacks);
    var r1 := HgrMember(t1, stacks, b, 1, 0);
    assert r1.OkList? && r1.numLocals == 1 && r1.numStatics == 0;
    OneMember(t1, stacks, b, 1, 0);
    ListToScope(t, stacks, ShadowBody(x));
  }

  lemma ListToScope(t: Tab, stacks: nat, ss: List<Stmt>)
    ensures var r, r' := HgrList(t, stacks, ss, 0, 0), HgrScope(t, stacks, ss);
            r.OkList? && r.numStatics == 0 ==> r'.Ok? && r'.text == r.text
  {
    hide HgrList;
  }

  lemma ShadowText(f: Name, x: Name, stacks: nat)
    ensures Globaliser(ShadowFile(f, x), stacks) == Some(One(Func(f, Nil, ShadowOut(x, stacks))))
  {
    var t := Tab([], [], Push(NoTab.syms, f, Symbol(SFunction, Unmangled)), 0);
    ShadowBodyOut(t, x, stacks);
    hide HgrScope, ShadowBody, ShadowOut;
    var r := HgrTop(NoTab, stacks, ShadowFile(f, x).head);
    assert r.Ok? && r.text == Func(f, Nil, ShadowOut(x, stacks));
    assert HgrTops(r.t, stacks, Nil) == Ok(r.t, Nil);
  }

  lemma OneStmt(fns: Fns, fuel: nat, k: nat, s: Stmt, st: State)
    ensures ExecList(fns, fuel, k, One(s), st) == Exec(fns, fuel, k, s, st)
  {
    var r := Exec(fns, fuel, k, s, st);
    if r.Done? {
      assert ExecList(fns, fuel, k, Nil, r.v) == Done(r.v);
    }
  }

  lemma TwoStmts(fns: Fns, fuel: nat, k: nat, s: Stmt, u: Stmt, st: State)
    requires Exec(fns, fuel, k, s, st).Done?
    ensures ExecList(fns, fuel, k, Two(s, u), st) == Exec(fns, fuel, k, u, Exec(fns, fuel, k, s, st).v)
  {
    OneStmt(fns, fuel, k, u, Exec(fns, fuel, k, s, st).v);
  }

  lemma SetAutomatic(fns: Fns, fuel: nat, k: nat, x: Name, st: State)
    ensures Exec(fns, fuel, k, Auto(One(AutoDecl(x, Some(Lit(0))))), st)
         == Done(State(st.env[Plain(x) := Cell(Frame(st.next))], st.mem[Frame(st.next) := Int(0)], st.next + 1))
  {
    var st1 := Allocate(x, st);
    assert ExecAutos(Nil, k, st1.(mem := st1.mem[Frame(st.next) := Int(0)])).Done?;
  }

  /** The block with the static, which is bound to `d` on entry: the assignment goes where `x` then leads. */
  lemma BlockSets(fns: Fns, fuel: nat, k: nat, x: Name, d: StaticDecl, st: State, l: Loc)
    requires Bound(DeclareStatic(st.env, d), Plain(x)) == Cell(l) && l in st.mem
    ensures Exec(fns, fuel, k, Block(Two(Static(One(d)), Assign(Id(x), Lit(5)))), st) == Done(st.(mem := st.mem[l := Int(5)]))
  {
    var s, u := Static(One(d)), Assign(Id(x), Lit(5));
    assert DeclareStatics(DeclareStatic(st.env, d), Nil) == DeclareStatic(st.env, d);
    TwoStmts(fns, fuel, k, s, u, st);
  }

  lemma ShadowLoad(f: Name, x: Name, d: StaticDecl)
    ensures var im, env := Load(One(Func(f, Nil, ShadowDecl(x, d)))), map[Plain(f) := Fn];
            && im.fns == map[f := FnDef(Nil, ShadowDecl(x, d), env)]
            && im.mem == InitStatics(map[Plain(f) := Fn, Plain(x) := Cell(Frame(0))], One(d), map[])
  {
    var top := Func(f, Nil, ShadowDecl(x, d));
    var im0: Image := Image(map[], map[], map[]);
    var env, env1: Env := map[Plain(f) := Fn], map[Plain(f) := Fn, Plain(x) := Cell(Frame(0))];
    var im := LoadTop(im0, top);
    assert LoadTops(im, Nil) == im;
    var a, b := Auto(One(AutoDecl(x, Some(Lit(0))))), Block(Two(Static(One(d)), Assign(Id(x), Lit(5))));
    assert BindAutos(env[Plain(x) := Cell(Frame(0))], Nil) == env1;
    assert EnvAfter(env, a) == env1;
    var s, u := Static(One(d)), Assign(Id(x), Lit(5));
    OneInit(EnvAfter(env1, s), u, InitStmt(env1, s, map[]));
    OneInit(env1, b, map[]);
    assert InitStmt(env1, b, map[]) == InitList(env1, Two(s, u), map[]);
    assert InitStmt(env, a, map[]) == map[];
    assert BindParams(env, Nil) == env;
  }

  lemma OneInit(env: Env, s: Stmt, m: Mem)
    ensures InitList(env, One(s), m) == InitStmt(env, s, m)
  {
    var m1 := InitStmt(env, s, m);
    assert InitList(EnvAfter(env, s), Nil, m1) == m1;
  }

  /** One call of `f`: every static cell but the target keeps its initial value. */
  lemma ShadowRun(f: Name, x: Name, d: StaticDecl, ev: Event, l: Loc)
    requires ev.f == f && ev.args == Nil
    requires Bound(DeclareStatic(map[Plain(f) := Fn, Plain(x) := Cell(Frame(0))], d), Plain(x)) == Cell(l)
    requires l == Frame(0) || l in Load(One(Func(f, Nil, ShadowDecl(x, d)))).mem
    ensures var im := Load(One(Func(f, Nil, ShadowDecl(x, d))));
            Run(im, [ev], im.mem) == Done(StaticPart(im.mem[Frame(0) := Int(0)][l := Int(5)]))
  {
    var im := Load(One(Func(f, Nil, ShadowDecl(x, d))));
    ShadowLoad(f, x, d);
    var env, env1: Env := map[Plain(f) := Fn], map[Plain(f) := Fn, Plain(x) := Cell(Frame(0))];
    var a, b := Auto(One(AutoDecl(x, Some(Lit(0))))), Block(Two(Static(One(d)), Assign(Id(x), Lit(5))));
    var st := State(env, im.mem, 0);
    SetAutomatic(im.fns, ev.fuel, ev.stack, x, st);
    var st1 := State(env1, im.mem[Frame(0) := Int(0)], 1);
    BlockSets(im.fns, ev.fuel, ev.stack, x, d, st1, l);
    TwoStmts(im.fns, ev.fuel, ev.stack, a, b, st);
    hide Exec, ExecList, Load;
    assert PassArgs(Nil, Nil, st) == Done(st);
    assert Handle(im, ev, im.mem) == Done(StaticPart(im.mem[Frame(0) := Int(0)][l := Int(5)]));
    var m := Handle(im, ev, im.mem).v;
    assert [ev][1..] == [];
    assert Run(im, [], m) == Done(m);
  }

  /** The two programs run apart: after one call of `f` the static holds 5, and the slot of the calling stack still 0. */
  lemma ShadowRunsApart(f: Name, x: Name, stacks: nat, k: nat, fuel: nat)
    requires f != x && k < stacks
    ensures var ts, ev := ShadowFile(f, x), Event(k, f, Nil, fuel);
            && Globaliser(ts, stacks).Some?
            && var im, oim := Load(ts), Load(Globaliser(ts, stacks).value);
               var r, or := Run(im, [ev], im.mem), Run(oim, [ev], oim.mem);
               && r.Done? && Obj(7) in r.v && r.v[Obj(7)] == Int(5)
               && or.Done? && Elem(7, k) in or.v && or.v[Elem(7, k)] == Int(0)
  {
    var d, d' := PlainDecl(x, 7, false, Zero), ArrDecl(x, 7, Copies(Same(Zero), stacks));
    var ev := Event(k, f, Nil, fuel);
    ShadowText(f, x, stacks);
    ScalarLoad(f, x);
    SlotsLoad(f, x, stacks, k);
    ShadowRun(f, x, d, ev, Obj(7));
    ShadowRun(f, x, d', ev, Frame(0));
    hide Run, Load, Globaliser, ShadowDecl;
  }

  lemma ScalarLoad(f: Name, x: Name)
    ensures Load(One(Func(f, Nil, ShadowDecl(x, PlainDecl(x, 7, false, Zero))))).mem == map[Obj(7) := Int(0)]
  {
    var d, m: Mem := PlainDecl(x, 7, false, Zero), map[Obj(7) := Int(0)];
    ShadowLoad(f, x, d);
    var env1: Env := map[Plain(f) := Fn, Plain(x) := Cell(Frame(0))];
    assert InitStatics(DeclareStatic(env1, d), Nil, m) == m;
  }

  lemma SlotsLoad(f: Name, x: Name, stacks: nat, k: nat)
    requires k < stacks
    ensures var m := Load(One(Func(f, Nil, ShadowDecl(x, ArrDecl(x, 7, Copies(Same(Zero), stacks)))))).mem;
            Elem(7, k) in m && m[Elem(7, k)] == Int(0)
  {
    var d := ArrDecl(x, 7, Copies(Same(Zero), stacks));
    ShadowLoad(f, x, d);
    var env1: Env := map[Plain(f) := Fn, Plain(x) := Cell(Frame(0))];
    var m := InitElems(DeclareStatic(env1, d), 7, d.inits);
    assert map[] + m == m;
    assert InitStatics(DeclareStatic(env1, d), Nil, m) == m;
    assert d.inits[k] == Zero;
  }

  // ----- symbols left behind -----

  function ArrayDecl(x: Name): List<StaticDecl> {
    One(PlainDecl(x, 7, true, Zero))
  }

  lemma OneArray(t: Tab, stacks: nat, x: Name)
    ensures var r := HandleDecls(t, stacks, ArrayDecl(x), true);
            r.Ok? && r.t == WithArray(t, x)
  {
    assert HandleDecls(HandleDecl(t, stacks, ArrayDecl(x).head, true).t, stacks, Nil, true).Ok?;
  }

  /** The table after static int x[1]; */
  function WithArray(t: Tab, x: Name): Tab {
    t.(statics := t.statics + [x], next := t.next + 1,
       syms := Push(Push(t.syms, x, Symbol(SVariable, Unmangled)), x, Symbol(SVariable, PtrName(t.next))))
  }

  lemma ArrayMember(t: Tab, stacks: nat, x: Name, nl: nat, ns: nat)
    ensures var r := HgrMember(t, stacks, Static(ArrayDecl(x)), nl, ns);
            r.OkList? && r.t == WithArray(t, x) && r.numLocals == nl && r.numStatics == 1
  {
    OneArray(t, stacks, x);
    hide HandleDecls, WithArray;
    assert |WithArray(t, x).statics| == |t.statics| + 1 by { ArrayListed(t, x); }
  }

  lemma ArrayListed(t: Tab, x: Name)
    ensures |WithArray(t, x).statics| == |t.statics| + 1
  {
  }

  /** The tables change at `x` only. */
  ghost predicate OnlyAt(syms: Symbols, syms': Symbols, xs: set<Name>) {
    forall y: Name :: y !in xs ==> Entry(syms', y) == Entry(syms, y)
  }

  function TwoArrays(x: Name, y: Name): List<Stmt> {
    Two(Static(ArrayDecl(x)), Static(ArrayDecl(y)))
  }

  /** static int x[1]; static int y[1]; in one list: the count of the first is overwritten, so x is never undefined. */
  lemma TwoDeclarationsLeaveTheFirst(t: Tab, stacks: nat, x: Name, y: Name)
    requires x != y
    ensures var r := HgrScope(t, stacks, TwoArrays(x, y));
            && r.Ok? && r.t.statics == t.statics + [x]
            && Latest(Entry(r.t.syms, x)) == PtrName(t.next) && BackIs(r.t.syms, x, SVariable)
            && OnlyAt(t.syms, r.t.syms, {x, y})
  {
    hide HandleDecls, HgrMember, HgrList, HgrScope;
    var a, b := Static(ArrayDecl(x)), Static(ArrayDecl(y));
    ArrayMember(t, stacks, x, 0, 0);
    var t1 := HgrMember(t, stacks, a, 0, 0).t;
    ArrayMember(t1, stacks, y, 0, 1);
    var t2 := HgrMember(t1, stacks, b, 0, 1).t;
    TwoMembers(t, stacks, a, b, 0, 0);
    ScopePopsOne(t, stacks, TwoArrays(x, y), t.statics + [x], y);
    var e := Entry(t2.syms, x);
    assert e[|e| - 1] == Symbol(SVariable, PtrName(t.next));
  }

  /** { static int x[1]; } leaves an unmangled symbol of `x` behind. */
  lemma ArrayScope(t: Tab, stacks: nat, x: Name)
    ensures var r := HgrScope(t, stacks, One(Static(ArrayDecl(x))));
            && r.Ok? && r.t.locals == t.locals && r.t.statics == t.statics
            && r.t.syms == t.syms[x := Entry(t.syms, x) + [Symbol(SVariable, Unmangled)]]
  {
    hide HandleDecls, HgrMember, HgrList, HgrScope;
    ArrayMember(t, stacks, x, 0, 0);
    OneMember(t, stacks, Static(ArrayDecl(x)), 0, 0);
    ScopePopsOne(t, stacks, One(Static(ArrayDecl(x))), t.statics, x);
    var e, u, p := Entry(t.syms, x), Symbol(SVariable, Unmangled), Symbol(SVariable, PtrName(t.next));
    assert (e + [u] + [p])[..|e| + 1] == e + [u];
    assert WithArray(t, x).syms[x := e + [u]] == t.syms[x := e + [u]];
  }

  function NestedArrays(x: Name): List<Stmt> {
    Two(Static(ArrayDecl(x)), Block(One(Static(ArrayDecl(x)))))
  }

  /** { static int x[1]; { static int x[1]; } }: the outer pop removes the inner leftover, so the outer array stays the answer. */
  lemma NestedStaticsGoStale(t: Tab, stacks: nat, x: Name)
    ensures var r := HgrScope(t, stacks, NestedArrays(x));
            && r.Ok? && Latest(Entry(r.t.syms, x)) == PtrName(t.next) && BackIs(r.t.syms, x, SVariable)
            && OnlyAt(t.syms, r.t.syms, {x})
  {
    hide HandleDecls, HgrMember, HgrList, HgrScope;
    var inner := One(Static(ArrayDecl(x)));
    ArrayMember(t, stacks, x, 0, 0);
    var t1 := WithArray(t, x);
    ArrayScope(t1, stacks, x);
    BlockMember(t1, stacks, inner, 0, 1);
    TwoMembers(t, stacks, Static(ArrayDecl(x)), Block(inner), 0, 0);
    ScopePopsOne(t, stacks, NestedArrays(x), t.statics, x);
    var e, u := Entry(t1.syms, x), Symbol(SVariable, Unmangled);
    assert (e + [u])[..|e|] == e;
    assert e[|e| - 1] == Symbol(SVariable, PtrName(t.next));
  }

  lemma BlockMember(t: Tab, stacks: nat, body: List<Stmt>, nl: nat, ns: nat)
    requires HgrScope(t, stacks, body).Ok?
    ensures var r := HgrScope(t, stacks, body);
            HgrMember(t, stacks, Block(body), nl, ns) == OkList(r.t, Block(r.text), nl, ns)
  {
    hide HgrScope;
  }

  // ----- files on which the leftovers give a wrong text -----

  function Setter(g: Name, lv: Lval): Top {
    Func(g, Nil, One(Assign(lv, Lit(5))))
  }

  /** int x[1]; void f() { ... } void g() { x = 5; } */
  function ArrayFile(x: Name, f: Name, body: List<Stmt>, g: Name): List<Top> {
    Cons(Global(ArrayDecl(x)), Two(Func(f, Nil, body), Setter(g, Id(x))))
  }

  const Fun := Symbol(SFunction, Unmangled)

  /** The table before the body of `f`. */
  function InBody(x: Name, f: Name): Tab {
    Tab([], [], Push(map[x := [Symbol(SVariable, Unmangled), Symbol(SVariable, PtrName(0))]], f, Fun), 1)
  }

  lemma ThreeTops(t: Tab, stacks: nat, a: Top, b: Top, c: Top)
    ensures var r1 := HgrTop(t, stacks, a);
            r1.Ok? ==>
              var r2 := HgrTop(r1.t, stacks, b);
              if r2.Exit? then HgrTops(t, stacks, Cons(a, Two(b, c))).Exit?
              else
                var r3 := HgrTop(r2.t, stacks, c);
                var r := HgrTops(t, stacks, Cons(a, Two(b, c)));
                if r3.Exit? then r.Exit? else r.Ok? && r.text == Cons(r1.text, Two(r2.text, r3.text))
  {
    var r1 := HgrTop(t, stacks, a);
    if r1.Ok? {
      var r2 := HgrTop(r1.t, stacks, b);
      if r2.Ok? {
        var r3 := HgrTop(r2.t, stacks, c);
        if r3.Ok? {
          assert HgrTops(r3.t, stacks, Nil) == Ok(r3.t, Nil);
          assert HgrTops(r2.t, stacks, One(c)) == Ok(r3.t, One(r3.text));
        } else {
          assert HgrTops(r2.t, stacks, One(c)).Exit?;
        }
      }
    }
  }

  lemma SetterReads(t: Tab, stacks: nat, x: Name, g: Name)
    requires x != g && Entry(t.syms, g) == [] && BackIs(t.syms, x, SVariable)
    ensures var r := HgrTop(t, stacks, Setter(g, Id(x)));
            match Latest(Entry(t.syms, x))
            case Unmangled => r.Exit?
            case ArrName => r.Ok? && r.text == Setter(g, Slot(x))
            case PtrName(n) => r.Ok? && r.text == Setter(g, Through(x, n))
  {
    var t1 := Tab([], [], Push(t.syms, g, Fun), t.next);
    var s := Assign(Id(x), Lit(5));
    assert Entry(t1.syms, x) == Entry(t.syms, x);
    assert Rewritten(t1, x);
    OneMember(t1, stacks, s, 0, 0);
    assert t1.(locals := t1.locals[..0]) == t1;
  }

  lemma ArrayProgram(x: Name, f: Name, body: List<Stmt>, g: Name, stacks: nat)
    requires x != f && x != g
    ensures var p := Program(ArrayFile(x, f, body, g), stacks);
            p.Cons? && p.tail.Cons? && p.tail.tail == One(Setter(g, Through(x, 0)))
  {
    var o1 := TopDecl(map[], 0, stacks, Global(ArrayDecl(x)));
    assert Decls(map[x := KPtr(0)], 1, stacks, Nil).sc == map[x := KPtr(0)];
    assert o1.sc == map[x := KPtr(0)];
    var o2 := TopDecl(o1.sc, o1.next, stacks, Func(f, Nil, body));
    assert o2.sc == o1.sc[f := KFn];
    var sc := o2.sc[g := KFn];
    assert Params(sc, Nil) == sc && sc[x] == KPtr(0);
    assert Stms(sc, o2.next, stacks, Nil).text == Nil;
    assert Stms(sc, o2.next, stacks, One(Assign(Id(x), Lit(5)))).text == One(Assign(Through(x, 0), Lit(5)));
    var o3 := TopDecl(o2.sc, o2.next, stacks, Setter(g, Id(x)));
    assert Tops(o3.sc, o3.next, stacks, Nil).text == Nil;
    assert Tops(o2.sc, o2.next, stacks, One(Setter(g, Id(x)))).text == One(Setter(g, Through(x, 0)));
    assert Tops(o1.sc, o1.next, stacks, Two(Func(f, Nil, body), Setter(g, Id(x)))).text.tail == One(Setter(g, Through(x, 0)));
  }

  lemma FirstPush(x: Name, s: Symbol)
    ensures Push(map[], x, s) == map[x := [s]]
    ensures forall u: Symbol :: Push(map[x := [s]], x, u) == map[x := [s, u]]
  {
    var none: seq<Symbol> := [];
    assert none + [s] == [s];
    forall u: Symbol ensures Push(map[x := [s]], x, u) == map[x := [s, u]] {
      assert [s] + [u] == [s, u];
    }
  }

  lemma GlobalArray(stacks: nat, x: Name)
    ensures var r := HgrTop(NoTab, stacks, Global(ArrayDecl(x)));
            r.Ok? && r.t == Tab([], [], map[x := [Symbol(SVariable, Unmangled), Symbol(SVariable, PtrName(0))]], 1)
  {
    var r0 := HandleDecl(NoTab, stacks, ArrayDecl(x).head, false);
    assert HandleDecls(r0.t, stacks, Nil, false).Ok?;
    FirstPush(x, Symbol(SVariable, Unmangled));
    assert NoTab.syms == map[];
    assert r0.t.syms == map[x := [Symbol(SVariable, Unmangled), Symbol(SVariable, PtrName(0))]];
  }

  /** A stale answer after `f` makes the text of `g` wrong. */
  lemma StaleIsWrong(x: Name, f: Name, body: List<Stmt>, g: Name, stacks: nat, n: nat)
    requires x != f && x != g && f != g && n > 0
    requires var r := HgrScope(InBody(x, f), stacks, body);
             && r.Ok? && Latest(Entry(r.t.syms, x)) == PtrName(n)
             && BackIs(r.t.syms, x, SVariable) && Entry(r.t.syms, g) == []
    ensures var ts := ArrayFile(x, f, body, g);
            Globaliser(ts, stacks).Some? && Globaliser(ts, stacks).value != Program(ts, stacks)
  {
    hide HgrScope, Program;
    var a, b, c := Global(ArrayDecl(x)), Func(f, Nil, body), Setter(g, Id(x));
    var r1 := HgrTop(NoTab, stacks, a);
    GlobalArray(stacks, x);
    var r2 := HgrTop(r1.t, stacks, b);
    assert r2.Ok?;
    SetterReads(r2.t, stacks, x, g);
    ThreeTops(NoTab, stacks, a, b, c);
    ArrayProgram(x, f, body, g, stacks);
  }

  /** int x[1]; void f() { static int x[1]; { static int x[1]; } } void g() { x = 5; }: `g` gets the array of `f`. */
  lemma NestedStaticsAreWrong(x: Name, f: Name, g: Name, stacks: nat)
    requires x != f && x != g && f != g
    ensures var ts := ArrayFile(x, f, NestedArrays(x), g);
            Globaliser(ts, stacks).Some? && Globaliser(ts, stacks).value != Program(ts, stacks)
  {
    NestedStaticsGoStale(InBody(x, f), stacks, x);
    StaleIsWrong(x, f, NestedArrays(x), g, stacks, 1);
  }

  /** int x[1]; void f() { static int x[1]; static int y[1]; } void g() { x = 5; }: so it does here. */
  lemma TwoDeclarationsAreWrong(x: Name, y: Name, f: Name, g: Name, stacks: nat)
    requires x != f && x != g && f != g && y !in {x, g}
    ensures var ts := ArrayFile(x, f, TwoArrays(x, y), g);
            Globaliser(ts, stacks).Some? && Globaliser(ts, stacks).value != Program(ts, stacks)
  {
    TwoDeclarationsLeaveTheFirst(InBody(x, f), stacks, x, y);
    StaleIsWrong(x, f, TwoArrays(x, y), g, stacks, 1);
  }

  // ----- a static named like a function or an enumerator -----

  /** A static named like a function hides the function for the rest of the file. */
  lemma StaticNamedLikeFunction(t: Tab, stacks: nat, f: Name)
    requires BackIs(t.syms, f, SFunction) && t.statics == []
    ensures var r := HgrScope(t, stacks, One(Static(ArrayDecl(f))));
            r.Ok? && !BackIs(r.t.syms, f, SFunction)
  {
    ArrayScope(t, stacks, f);
    assert SourceDecls(Nil) && SourceStmts(Nil) && SourceDecls(ArrayDecl(f));
    KindSurvivesIff(t, stacks, One(Static(ArrayDecl(f))), f, SFunction);
    assert StaticsOf(One(Static(ArrayDecl(f))), f) == 1 by {
      assert DeclaratorsOf(ArrayDecl(f), f) == 1 + DeclaratorsOf(Nil, f);
    }
  }

  /** void h() { if (f) {} } or void h() { f(); } */
  function User(h: Name, f: Name, isEnum: bool): Top {
    Func(h, Nil, One(if isEnum then If(Ref(Id(f)), Nil, Nil) else Call(Id(f), Nil)))
  }

  /** enum { f }; or void f();, then void g() { static int f[1]; } and a use of `f`. */
  function KindFile(f: Name, isEnum: bool, g: Name, h: Name): List<Top> {
    Cons(if isEnum then EnumConst(f, 1) else Proto(f), Two(Func(g, Nil, One(Static(ArrayDecl(f)))), User(h, f, isEnum)))
  }

  lemma UserExits(t: Tab, stacks: nat, f: Name, isEnum: bool, h: Name)
    requires f != h && Entry(t.syms, h) == [] && BackIs(t.syms, f, SVariable) && Latest(Entry(t.syms, f)) == Unmangled
    ensures HgrTop(t, stacks, User(h, f, isEnum)).Exit?
  {
    var t1 := Tab([], [], Push(t.syms, h, Fun), t.next);
    var s := if isEnum then If(Ref(Id(f)), Nil, Nil) else Call(Id(f), Nil);
    assert Entry(t1.syms, f) == Entry(t.syms, f);
    assert HgrLval(t1, Id(f)).None?;
    OneMember(t1, stacks, s, 0, 0);
  }

  lemma NoneMangled(a: Symbol, b: Symbol)
    requires a.mangled == b.mangled == Unmangled
    ensures Latest([a, b]) == Unmangled
  {
    assert [a, b][..1] == [a] && [a][..0] == [];
    assert Latest([a]) == Latest([]);
  }

  lemma KindDefined(f: Name, isEnum: bool, stacks: nat)
    ensures var r := HgrTop(NoTab, stacks, if isEnum then EnumConst(f, 1) else Proto(f));
            r.Ok? && r.t == Tab([], [], map[f := [Symbol(if isEnum then SEnum else SFunction, Unmangled)]], 0)
  {
    FirstPush(f, Symbol(if isEnum then SEnum else SFunction, Unmangled));
  }

  lemma ArrayFunction(t: Tab, stacks: nat, f: Name, g: Name)
    requires f != g && Entry(t.syms, g) == []
    ensures var r := HgrTop(t, stacks, Func(g, Nil, One(Static(ArrayDecl(f)))));
            && r.Ok? && Entry(r.t.syms, f) == Entry(t.syms, f) + [Symbol(SVariable, Unmangled)]
            && OnlyAt(t.syms, r.t.syms, {f, g})
  {
    ArrayScope(Tab([], [], Push(t.syms, g, Fun), t.next), stacks, f);
    hide HgrScope;
  }

  /** The tool stops at the use in `h`: it takes `f` for a variable that has no mangled name. */
  lemma KindFileExits(f: Name, isEnum: bool, g: Name, h: Name, stacks: nat)
    requires f != g && f != h && g != h
    ensures Globaliser(KindFile(f, isEnum, g, h), stacks).None?
  {
    var kind, un := Symbol(if isEnum then SEnum else SFunction, Unmangled), Symbol(SVariable, Unmangled);
    var ts := KindFile(f, isEnum, g, h);
    KindDefined(f, isEnum, stacks);
    var r1 := HgrTop(NoTab, stacks, ts.head);
    ArrayFunction(r1.t, stacks, f, g);
    var r2 := HgrTop(r1.t, stacks, ts.tail.head);
    hide HgrTop, Latest, HgrTops;
    assert Entry(r2.t.syms, f) == [kind] + [un] == [kind, un];
    NoneMangled(kind, un);
    UserExits(r2.t, stacks, f, isEnum, h);
    ThreeTops(NoTab, stacks, ts.head, ts.tail.head, ts.tail.tail.head);
  }

  // ----- an array whose initialiser names itself -----

  /** int x[1] = { &x }; on a name that has no mangled symbol yet: the initialiser is read before the name is mangled. */
  lemma SelfReferringArrayExits(t: Tab, stacks: nat, x: Name, site: nat)
    requires x !in t.locals && Latest(Entry(t.syms, x)) == Unmangled
    ensures HandleDecl(t, stacks, PlainDecl(x, site, true, AddrOf(x)), false).Exit?
    ensures t == NoTab ==> Globaliser(One(Global(One(PlainDecl(x, site, true, AddrOf(x))))), stacks).None?
  {
    DeclaratorExitsIff(t, stacks, PlainDecl(x, site, true, AddrOf(x)), false);
  }
}
