module Refinement {
  // The tool's output against the globalised program, and with it the meaning of
  // what the tool writes.

  import opened Common
  import opened CLanguage
  import opened Globalise
  import opened Tables
  import opened ScopeDiscipline
  import Leftovers
  import Isolation

  /** What the tables say about the innermost binding of `x`. */
  ghost predicate MatchName(t: Tab, sc: Scope, frozen: set<Name>, x: Name) {
    x in sc ==>
      match sc[x]
      case KAuto => x in t.locals
      case KArr => Latest(Entry(t.syms, x)) == ArrName && BackIs(t.syms, x, SVariable)
      case KPtr(n) => Latest(Entry(t.syms, x)) == PtrName(n) && BackIs(t.syms, x, SVariable)
      case KFn => BackIs(t.syms, x, SFunction) && x in frozen
      case KEnum => BackIs(t.syms, x, SEnum) && x in frozen
  }

  predicate Globalised(sc: Scope, x: Name) {
    x in sc && (sc[x].KArr? || sc[x].KPtr?)
  }

  /** A name that is in no scope, on no list and has no symbol. */
  ghost predicate Absent(t: Tab, sc: Scope, x: Name) {
    x !in sc && x !in t.locals && x !in t.statics && Entry(t.syms, x) == []
  }

  ghost predicate Agree(t: Tab, sc: Scope, c: Ctx, frozen: set<Name>) {
    && (forall x: Name :: MatchName(t, sc, frozen, x))
    && (forall x: Name :: x !in c.file ==> Absent(t, sc, x))
    && c.bound == sc.Keys
    && (forall x: Name :: x in c.glob <==> Globalised(sc, x))
    && (forall x: Name :: x in c.autos <==> x in t.locals)
  }

  // ----- single references -----

  lemma LvalRefines(t: Tab, sc: Scope, c: Ctx, frozen: set<Name>, lv: Lval)
    requires Agree(t, sc, c, frozen) && AllKnown(UsesLval(c, lv))
    ensures HgrLval(t, lv).Some?
    ensures HgrLval(t, lv).value == Lv(sc, lv) <==> NoneHidden(UsesLval(c, lv))
  {
    if lv.Id? {
      assert MatchName(t, sc, frozen, lv.x);
      assert lv.x !in c.file ==> Absent(t, sc, lv.x);
      assert UseOf(c, lv.x) in UsesLval(c, lv);
    }
  }

  lemma {:induction false} ExprRefines(t: Tab, sc: Scope, c: Ctx, frozen: set<Name>, e: Expr)
    requires Agree(t, sc, c, frozen) && AllKnown(UsesExpr(c, e))
    ensures HgrExpr(t, e).Some?
    ensures HgrExpr(t, e).value == Ex(sc, e) <==> NoneHidden(UsesExpr(c, e))
  {
    match e
    case Lit(_) =>
    case Ref(lv) => LvalRefines(t, sc, c, frozen, lv);
    case Addr(lv) => LvalRefines(t, sc, c, frozen, lv);
    case Deref(p) => ExprRefines(t, sc, c, frozen, p);
    case Bin(_, l, r) =>
      ExprRefines(t, sc, c, frozen, l);
      ExprRefines(t, sc, c, frozen, r);
  }

  lemma {:induction false} ExprsRefine(t: Tab, sc: Scope, c: Ctx, frozen: set<Name>, es: List<Expr>)
    requires Agree(t, sc, c, frozen) && AllKnown(UsesExprs(c, es))
    ensures HgrExprs(t, es).Some?
    ensures HgrExprs(t, es).value == Exs(sc, es) <==> NoneHidden(UsesExprs(c, es))
  {
    match es
    case Nil =>
    case Cons(e, rest) =>
      ExprRefines(t, sc, c, frozen, e);
      ExprsRefine(t, sc, c, frozen, rest);
  }

  // ----- automatic declarations -----

  lemma BindAutoAgrees(t: Tab, sc: Scope, c: Ctx, frozen: set<Name>, x: Name)
    requires Agree(t, sc, c, frozen) && x in t.locals
    ensures Agree(t, sc[x := KAuto], BindAuto(c, x), frozen)
  {
    var sc1 := sc[x := KAuto];
    forall y: Name ensures MatchName(t, sc1, frozen, y) {
      assert MatchName(t, sc, frozen, y);
    }
    forall y: Name | y !in c.file ensures Absent(t, sc1, y) {
      assert Absent(t, sc, y);
      assert x !in c.file ==> Absent(t, sc, x);
    }
  }

  lemma {:induction false} AutosRefine(t: Tab, sc: Scope, c: Ctx, frozen: set<Name>, ds: List<AutoDecl>)
    requires Agree(t, sc, c, frozen) && AllKnown(UsesAutos(c, ds))
    requires forall x :: x in AutoNames(ds) ==> x in t.locals
    ensures HgrAutos(t, ds).Some?
    ensures HgrAutos(t, ds).value == Autos(sc, ds).1 <==> NoneHidden(UsesAutos(c, ds))
    ensures Agree(t, Autos(sc, ds).0, AfterAutos(c, ds), frozen)
    decreases ds
  {
    match ds
    case Nil =>
    case Cons(d, rest) =>
      assert d.x in AutoNames(ds);
      BindAutoAgrees(t, sc, c, frozen, d.x);
      var sc1, c1 := sc[d.x := KAuto], BindAuto(c, d.x);
      if d.init.Some? {
        ExprRefines(t, sc1, c1, frozen, d.init.value);
      }
      AutosRefine(t, sc1, c1, frozen, rest);
  }

  lemma ListedAgrees(t: Tab, sc: Scope, c: Ctx, frozen: set<Name>, ds: List<AutoDecl>)
    requires Agree(t, sc, c, frozen) && NameSet(AutoNames(ds)) <= c.file
    ensures Agree(t.(locals := t.locals + AutoNames(ds)), sc, Listed(c, ds), frozen)
  {
    var t1 := t.(locals := t.locals + AutoNames(ds));
    forall x: Name | x !in c.file ensures Absent(t1, sc, x) {
      assert Absent(t, sc, x);
      assert x !in NameSet(AutoNames(ds));
    }
    forall x: Name ensures MatchName(t1, sc, frozen, x) {
      assert MatchName(t, sc, frozen, x);
    }
  }

  // ----- declarations with static storage -----

  /** The tables after the symbols of one declarator were pushed. */
  function Declared(t: Tab, d: StaticDecl, inFunc: bool): Tab
    requires d.PlainDecl?
  {
    var u := Push(t.syms, d.x, Symbol(SVariable, Unmangled));
    var m := if d.isArray then PtrName(t.next) else ArrName;
    Tab(t.locals, if inFunc then t.statics + [d.x] else t.statics, Push(u, d.x, Symbol(SVariable, m)),
        if d.isArray then t.next + 1 else t.next)
  }

  lemma DeclaredAgrees(t: Tab, sc: Scope, c: Ctx, frozen: set<Name>, d: StaticDecl, inFunc: bool)
    requires Agree(t, sc, c, frozen) && d.PlainDecl? && d.x !in frozen && d.x in c.file
    ensures Agree(Declared(t, d, inFunc), sc[d.x := DeclKind(d, t.next)], BindStatic(c, d.x), frozen)
  {
    var t1, sc1 := Declared(t, d, inFunc), sc[d.x := DeclKind(d, t.next)];
    forall x: Name ensures MatchName(t1, sc1, frozen, x) {
      assert MatchName(t, sc, frozen, x);
    }
    forall x: Name | x !in c.file ensures Absent(t1, sc1, x) {
      assert Absent(t, sc, x);
    }
  }

  /** Reading an initialiser: of another object in the tables before or after the declarator, of itself after. */
  lemma InitRefines(t: Tab, sc: Scope, c: Ctx, frozen: set<Name>, i: Init, k: nat)
    requires Agree(t, sc, c, frozen) && SourceInit(i) && (i.AddrOf? ==> i.x in c.bound || i.x !in c.file)
    ensures HgrInit(t, i).Some?
    ensures i.AddrOf? ==> (Copy(HgrInit(t, i).value, k) == InitFor(sc, i, k) <==> !(i.x in c.glob && i.x in c.autos))
    ensures !i.AddrOf? ==> Copy(HgrInit(t, i).value, k) == InitFor(sc, i, k)
  {
    if i.AddrOf? {
      assert MatchName(t, sc, frozen, i.x);
      assert i.x !in c.file ==> Absent(t, sc, i.x);
    }
  }

  predicate DeclHidden(c: Ctx, d: StaticDecl) {
    d.PlainDecl? && d.init.AddrOf? && d.init.x in c.glob && d.init.x in c.autos
  }

  lemma ArrayInitSame(t: Tab, d: StaticDecl, inFunc: bool)
    requires d.PlainDecl? && d.isArray && d.init != AddrOf(d.x)
    ensures var t1 := t.(syms := Push(t.syms, d.x, Symbol(SVariable, Unmangled)),
                         statics := if inFunc then t.statics + [d.x] else t.statics);
            HgrInit(t1, d.init) == HgrInit(Declared(t, d, inFunc), d.init)
  {
  }

  lemma CopiesRefine(t: Tab, sc: Scope, c: Ctx, frozen: set<Name>, d: StaticDecl, stacks: nat)
    requires Agree(t, sc, c, frozen) && d.PlainDecl? && SourceInit(d.init)
    requires d.init.AddrOf? ==> d.init.x in c.bound || d.init.x !in c.file
    requires stacks > 0
    ensures HgrInit(t, d.init).Some?
    ensures Copies(HgrInit(t, d.init).value, stacks) == Inits(sc, d.init, stacks) <==> !DeclHidden(c, d)
  {
    var tm := HgrInit(t, d.init);
    forall k: nat | k < stacks {
      InitRefines(t, sc, c, frozen, d.init, k);
    }
    InitRefines(t, sc, c, frozen, d.init, 0);
    var a, b := Copies(tm.value, stacks), Inits(sc, d.init, stacks);
    if DeclHidden(c, d) {
      assert a[0] == Copy(tm.value, 0) && b[0] == InitFor(sc, d.init, 0);
    } else {
      assert forall k: nat :: k < stacks ==> a[k] == b[k];
    }
  }

  lemma DeclRefines(t: Tab, sc: Scope, c: Ctx, frozen: set<Name>, d: StaticDecl, stacks: nat, inFunc: bool)
    requires Agree(t, sc, c, frozen) && stacks > 0
    requires DisciplinedDecls(Cons(d, Nil), frozen) && SourceDecls(Cons(d, Nil))
    requires AllKnown(UsesDecls(c, Cons(d, Nil))) && d.x in c.file
    requires inFunc || Definable(t.syms, d.x)
    ensures var r, o := HandleDecl(t, stacks, d, inFunc), Decl(sc, t.next, stacks, d);
            && r.Ok? && r.t == Declared(t, d, inFunc) && r.t.next == o.next
            && Agree(r.t, o.sc, BindStatic(c, d.x), frozen)
            && (r.text == o.text <==> NoneHidden(UsesDecls(c, Cons(d, Nil))))
  {
    assert d.x in StaticNames(Cons(d, Nil));
    DeclaredAgrees(t, sc, c, frozen, d, inFunc);
    var t1, sc1, c1 := Declared(t, d, inFunc), sc[d.x := DeclKind(d, t.next)], BindStatic(c, d.x);
    if d.init.AddrOf? {
      assert UseOf(c1, d.init.x) in UsesDecls(c, Cons(d, Nil));
    }
    if d.isArray {
      ArrayInitSame(t, d, inFunc);
    }
    CopiesRefine(t1, sc1, c1, frozen, d, stacks);
    assert NoneHidden(UsesDecls(c, Cons(d, Nil))) <==> !DeclHidden(c1, d);
  }

  lemma DeclaredPost(t: Tab, d: StaticDecl, frozen: set<Name>)
    requires d.PlainDecl? && d.x !in frozen
    ensures SymPost(t, Declared(t, d, true), [d.x], frozen)
  {
    var t1 := Declared(t, d, true);
    forall x: Name ensures SymPostAt(t.syms, t1.syms, [d.x], frozen, x) {
      if x == d.x {
        var e := Entry(t.syms, x);
        assert Entry(t1.syms, x)[..|e| + 1] == e + [Symbol(SVariable, Unmangled)];
      }
    }
  }

  lemma DeclsPostStep(t: Tab, t1: Tab, t2: Tab, x: Name, names: seq<Name>, frozen: set<Name>)
    requires SymPost(t, t1, [x], frozen) && SymPost(t1, t2, names, frozen) && x !in names
    requires Entry(t2.syms, x) == Entry(t1.syms, x)
    ensures SymPost(t, t2, [x] + names, frozen)
  {
    forall y: Name ensures SymPostAt(t.syms, t2.syms, [x] + names, frozen, y) {
      assert SymPostAt(t.syms, t1.syms, [x], frozen, y);
      assert SymPostAt(t1.syms, t2.syms, names, frozen, y);
      var e, e1, e2 := Entry(t.syms, y), Entry(t1.syms, y), Entry(t2.syms, y);
      if y != x {
        ExtTrans(e, e1, if y in names then e2[..|e2| - 1] else e2);
      }
    }
  }

  lemma {:induction false} DeclsUntouched(t: Tab, stacks: nat, ds: List<StaticDecl>, inFunc: bool, x: Name)
    requires x !in StaticNames(ds)
    ensures var r := HandleDecls(t, stacks, ds, inFunc);
            r.Ok? ==> Entry(r.t.syms, x) == Entry(t.syms, x)
    decreases ds
  {
    match ds
    case Nil =>
    case Cons(d, rest) =>
      assert x != d.x && x !in StaticNames(rest);
      var r := HandleDecl(t, stacks, d, inFunc);
      if r.Ok? {
        DeclsUntouched(r.t, stacks, rest, inFunc, x);
      }
  }

  predicate Definable(syms: Symbols, x: Name) {
    Entry(syms, x) == [] || VariableDeclared(syms, x)
  }

  predicate AllDefinable(syms: Symbols, ns: seq<Name>) {
    forall x :: x in ns ==> Definable(syms, x)
  }

  lemma StillDefinable(t: Tab, d: StaticDecl, inFunc: bool, ns: seq<Name>)
    requires d.PlainDecl? && AllDefinable(t.syms, ns)
    ensures AllDefinable(Declared(t, d, inFunc).syms, ns)
  {
    forall x | x in ns ensures Definable(Declared(t, d, inFunc).syms, x) {
      assert Definable(t.syms, x);
    }
  }

  lemma UsesDeclsSplit(c: Ctx, d: StaticDecl, rest: List<StaticDecl>)
    ensures UsesDecls(c, Cons(d, rest)) == UsesDecls(c, Cons(d, Nil)) + UsesDecls(BindStatic(c, d.x), rest)
  {
    assert UsesDecls(BindStatic(c, d.x), Nil) == {};
  }

  lemma DisciplinedSplit(d: StaticDecl, rest: List<StaticDecl>, frozen: set<Name>)
    requires DisciplinedDecls(Cons(d, rest), frozen)
    ensures DisciplinedDecls(Cons(d, Nil), frozen) && DisciplinedDecls(rest, frozen)
  {
    assert StaticNames(Cons(d, rest)) == [d.x] + StaticNames(rest);
  }

  lemma {:induction false} DeclsRefine(t: Tab, sc: Scope, c: Ctx, frozen: set<Name>, ds: List<StaticDecl>, stacks: nat, inFunc: bool)
    requires Agree(t, sc, c, frozen) && stacks > 0
    requires DisciplinedDecls(ds, frozen) && SourceDecls(ds) && AllKnown(UsesDecls(c, ds))
    requires NameSet(StaticNames(ds)) <= c.file
    requires inFunc || AllDefinable(t.syms, StaticNames(ds))
    ensures var r, o := HandleDecls(t, stacks, ds, inFunc), Decls(sc, t.next, stacks, ds);
            && r.Ok? && r.t.next == o.next
            && Agree(r.t, o.sc, AfterDecls(c, ds), frozen)
            && (r.text == o.text <==> NoneHidden(UsesDecls(c, ds)))
    decreases ds
  {
    hide HandleDecl, Decl;
    match ds
    case Nil =>
    case Cons(d, rest) =>
      UsesDeclsSplit(c, d, rest);
      DisciplinedSplit(d, rest, frozen);
      assert d.x in StaticNames(ds) && d.x in NameSet(StaticNames(ds));
      assert StaticNames(ds) == [d.x] + StaticNames(rest);
      assert NameSet(StaticNames(rest)) <= NameSet(StaticNames(ds));
      assert inFunc || Definable(t.syms, d.x);
      DeclRefines(t, sc, c, frozen, d, stacks, inFunc);
      var r, o := HandleDecl(t, stacks, d, inFunc), Decl(sc, t.next, stacks, d);
      if !inFunc {
        StillDefinable(t, d, inFunc, StaticNames(ds));
        assert forall x :: x in StaticNames(rest) ==> x in StaticNames(ds);
      }
      DeclsRefine(r.t, o.sc, BindStatic(c, d.x), frozen, rest, stacks, inFunc);
  }

  lemma {:induction false} DeclsPost(t: Tab, stacks: nat, ds: List<StaticDecl>, frozen: set<Name>)
    requires SourceDecls(ds) && Distinct(StaticNames(ds)) && (forall x :: x in StaticNames(ds) ==> x !in frozen)
    requires HandleDecls(t, stacks, ds, true).Ok?
    ensures SymPost(t, HandleDecls(t, stacks, ds, true).t, StaticNames(ds), frozen)
    decreases ds
  {
    match ds
    case Nil =>
      SymPostRefl(t, t, frozen);
    case Cons(d, rest) =>
      var names, r := StaticNames(rest), HandleDecl(t, stacks, d, true);
      assert StaticNames(ds) == [d.x] + names;
      assert forall i :: 0 <= i < |names| ==> names[i] == StaticNames(ds)[i + 1];
      assert d.x == StaticNames(ds)[0];
      assert r.t == Declared(t, d, true);
      DeclaredPost(t, d, frozen);
      DeclsPost(r.t, stacks, rest, frozen);
      DeclsUntouched(r.t, stacks, rest, true, d.x);
      DeclsPostStep(t, r.t, HandleDecls(r.t, stacks, rest, true).t, d.x, names, frozen);
  }

  // ----- leaving a scope -----

  /** Leftovers on top of unfrozen names do not change any answer. */
  lemma ExtAgrees(t: Tab, t': Tab, sc: Scope, c: Ctx, frozen: set<Name>)
    requires Agree(t, sc, c, frozen) && SymPost(t, t', [], frozen) && t'.locals == t.locals
    requires forall x: Name :: x !in c.file ==> Entry(t'.syms, x) == Entry(t.syms, x)
    ensures Agree(t', sc, c, frozen)
  {
    forall x: Name | x !in c.file ensures Absent(t', sc, x) {
      assert Absent(t, sc, x);
    }
    forall x: Name ensures MatchName(t', sc, frozen, x) {
      assert MatchName(t, sc, frozen, x);
      assert SymPostAt(t.syms, t'.syms, [], frozen, x);
      LatestExt(Entry(t.syms, x), Entry(t'.syms, x));
    }
  }

  lemma SymPostRefl(t: Tab, t': Tab, frozen: set<Name>)
    requires t'.syms == t.syms && t'.statics == t.statics
    ensures SymPost(t, t', [], frozen)
  {
    assert forall x: Name :: SymPostAt(t.syms, t'.syms, [], frozen, x);
  }

  lemma SymPostLocals(t: Tab, t1: Tab, t2: Tab, names: seq<Name>, frozen: set<Name>)
    requires SymPost(t, t1, names, frozen) && t2.syms == t1.syms && t2.statics == t1.statics
    ensures SymPost(t, t2, names, frozen)
  {
  }

  lemma ScopeEnd(t: Tab, t1: Tab, names: seq<Name>, frozen: set<Name>)
    requires SymPost(t, t1, names, frozen) && Distinct(names)
    ensures var r := PopStatics(t1, |names|);
            r.Some? && SymPost(t, r.value, [], frozen) && r.value.next == t1.next
  {
    forall x | x in names ensures Entry(t1.syms, x) != [] {
      assert SymPostAt(t.syms, t1.syms, names, frozen, x);
    }
    PopAll(t1, t.statics, names);
    var t2 := PopStatics(t1, |names|).value;
    forall x: Name ensures SymPostAt(t.syms, t2.syms, [], frozen, x) {
      assert SymPostAt(t.syms, t1.syms, names, frozen, x);
      assert PoppedAt(t1.syms, t2.syms, names, x);
    }
  }

  // ----- statements -----

  lemma {:induction false} DisciplinedNames(ss: List<Stmt>, frozen: set<Name>)
    requires Disciplined(ss, frozen)
    ensures Distinct(NamesHere(ss))
    decreases ss
  {
    match ss
    case Nil =>
    case Cons(s, rest) =>
      DisciplinedNames(rest, frozen + NameSet(NamesOf(s)));
      if s.Static? {
        assert NamesHere(ss) == StaticNames(s.statics);
      } else {
        assert NamesHere(ss) == NamesHere(rest);
      }
  }

  /** One member of a list, apart from nested scopes. */
  predicate Flat(s: Stmt) {
    !s.Block? && !s.If? && !s.While?
  }

  lemma FlatRefines(t: Tab, sc: Scope, c: Ctx, frozen: set<Name>, s: Stmt, stacks: nat, nl: nat, ns: nat)
    requires Flat(s) && Agree(t, sc, c, frozen) && stacks > 0 && SourceStmt(s) && AllKnown(Uses(c, s)) && NamesInStmt(s) <= c.file
    requires s.Static? ==> DisciplinedDecls(s.statics, frozen) && Distinct(StaticNames(s.statics))
    ensures var r, o := HgrMember(t, stacks, s, nl, ns), Stm(sc, t.next, stacks, s);
            && r.OkList? && r.t.next == o.next
            && Agree(r.t, o.sc, After(c, s), frozen)
            && (r.text == o.text <==> NoneHidden(Uses(c, s)))
            && SymPost(t, r.t, NamesOf(s), frozen)
  {
    hide Agree, SymPost;
    match s
    case Assign(lv, e) =>
      LvalRefines(t, sc, c, frozen, lv); ExprRefines(t, sc, c, frozen, e); SymPostRefl(t, t, frozen);
    case Store(p, e) =>
      ExprRefines(t, sc, c, frozen, p); ExprRefines(t, sc, c, frozen, e); SymPostRefl(t, t, frozen);
    case Call(f, args) =>
      LvalRefines(t, sc, c, frozen, f); ExprsRefine(t, sc, c, frozen, args); SymPostRefl(t, t, frozen);
    case Auto(ds) =>
      ListedAgrees(t, sc, c, frozen, ds);
      var t1 := t.(locals := t.locals + AutoNames(ds));
      AutosRefine(t1, sc, Listed(c, ds), frozen, ds);
      SymPostRefl(t, t1, frozen);
    case Static(ds) =>
      DeclsRefine(t, sc, c, frozen, ds, stacks, true);
      DeclsPost(t, stacks, ds, frozen);
  }

  lemma {:induction false} MemberRefines(t: Tab, sc: Scope, c: Ctx, frozen: set<Name>, s: Stmt, stacks: nat, nl: nat, ns: nat)
    requires Agree(t, sc, c, frozen) && stacks > 0 && SourceStmt(s) && AllKnown(Uses(c, s)) && NamesInStmt(s) <= c.file
    requires Disciplined(Cons(s, Nil), frozen)
    ensures var r, o := HgrMember(t, stacks, s, nl, ns), Stm(sc, t.next, stacks, s);
            && r.OkList? && r.t.next == o.next
            && Agree(r.t, o.sc, After(c, s), frozen)
            && (r.text == o.text <==> NoneHidden(Uses(c, s)))
            && SymPost(t, r.t, NamesOf(s), frozen)
    decreases s
  {
    hide Agree, SymPost, HgrExpr, UsesExpr;
    match s
    case Block(body) =>
      ScopeRefines(t, sc, c, frozen, body, stacks);
    case If(e, thn, els) =>
      IfRefines(t, sc, c, frozen, e, thn, els, stacks, nl, ns);
    case While(e, body) =>
      ExprRefines(t, sc, c, frozen, e);
      ScopeRefines(t, sc, c, frozen, body, stacks);
    case _ =>
      FlatRefines(t, sc, c, frozen, s, stacks, nl, ns);
  }

  lemma {:induction false} IfRefines(t: Tab, sc: Scope, c: Ctx, frozen: set<Name>, e: Expr, thn: List<Stmt>, els: List<Stmt>,
                                     stacks: nat, nl: nat, ns: nat)
    requires var s := If(e, thn, els);
             Agree(t, sc, c, frozen) && stacks > 0 && SourceStmt(s) && AllKnown(Uses(c, s)) && NamesInStmt(s) <= c.file && Disciplined(Cons(s, Nil), frozen)
    ensures var r, o := HgrMember(t, stacks, If(e, thn, els), nl, ns), Stm(sc, t.next, stacks, If(e, thn, els));
            && r.OkList? && r.t.next == o.next
            && Agree(r.t, o.sc, After(c, If(e, thn, els)), frozen)
            && (r.text == o.text <==> NoneHidden(Uses(c, If(e, thn, els))))
            && SymPost(t, r.t, NamesOf(If(e, thn, els)), frozen)
    decreases If(e, thn, els), 0
  {
    hide Agree, SymPost, HgrExpr, UsesExpr, HgrScope, UsesList, Stms;
    ExprRefines(t, sc, c, frozen, e);
    ScopeRefines(t, sc, c, frozen, thn, stacks);
    var r := HgrScope(t, stacks, thn);
    ScopeRefines(r.t, sc, c, frozen, els, stacks);
    assert frozen + NameSet([]) == frozen;
    SymPostTrans(t, r.t, HgrScope(r.t, stacks, els).t, [], [], frozen);
  }

  lemma FreezeMore(t: Tab, sc: Scope, c: Ctx, frozen: set<Name>, more: set<Name>)
    requires Agree(t, sc, c, frozen)
    ensures Agree(t, sc, c, frozen + more)
  {
    forall x: Name ensures MatchName(t, sc, frozen + more, x) {
      assert MatchName(t, sc, frozen, x);
    }
  }

  lemma {:induction false} ListRefines(t: Tab, sc: Scope, c: Ctx, frozen: set<Name>, ss: List<Stmt>, stacks: nat, nl: nat, ns: nat)
    requires Agree(t, sc, c, frozen) && stacks > 0 && SourceStmts(ss) && AllKnown(UsesList(c, ss)) && NamesIn(ss) <= c.file
    requires Disciplined(ss, frozen)
    ensures var r, o := HgrList(t, stacks, ss, nl, ns), Stms(sc, t.next, stacks, ss);
            && r.OkList? && r.t.next == o.next
            && (r.text == o.text <==> NoneHidden(UsesList(c, ss)))
            && SymPost(t, r.t, NamesHere(ss), frozen)
    decreases ss, 0
  {
    hide Agree, SymPost, HgrMember, Uses;
    match ss
    case Nil =>
      SymPostRefl(t, t, frozen);
    case Cons(s, rest) =>
      MemberRefines(t, sc, c, frozen, s, stacks, nl, ns);
      var r, o := HgrMember(t, stacks, s, nl, ns), Stm(sc, t.next, stacks, s);
      var frozen1 := frozen + NameSet(NamesOf(s));
      FreezeMore(r.t, o.sc, After(c, s), frozen, NameSet(NamesOf(s)));
      ListRefines(r.t, o.sc, After(c, s), frozen1, rest, stacks, r.numLocals, r.numStatics);
      SymPostTrans(t, r.t, HgrList(r.t, stacks, rest, r.numLocals, r.numStatics).t, NamesOf(s), NamesHere(rest), frozen);
  }

  lemma {:induction false} NamesCount(ss: List<Stmt>, frozen: set<Name>, ns: nat)
    requires Disciplined(ss, frozen)
    ensures LastSize(ss, ns) == if NamesHere(ss) == [] then ns else |NamesHere(ss)|
    decreases ss
  {
    match ss
    case Nil =>
    case Cons(s, rest) =>
      var n := if IsStatic(s) then Size(s.statics) else ns;
      NamesCount(rest, frozen + NameSet(NamesOf(s)), n);
      if s.Static? {
        SizeNames(s.statics);
      }
  }

  lemma {:induction false} SizeNames(ds: List<StaticDecl>)
    ensures |StaticNames(ds)| == Size(ds)
  {
    match ds
    case Nil =>
    case Cons(_, rest) => SizeNames(rest);
  }

  /** A nested scope: answers of the tables are as before, and the text is right iff no use is hidden. */
  lemma {:induction false} ScopeRefines(t: Tab, sc: Scope, c: Ctx, frozen: set<Name>, ss: List<Stmt>, stacks: nat)
    requires Agree(t, sc, c, frozen) && stacks > 0 && SourceStmts(ss) && AllKnown(UsesList(c, ss)) && NamesIn(ss) <= c.file
    requires Disciplined(ss, frozen)
    ensures var r, o := HgrScope(t, stacks, ss), Stms(sc, t.next, stacks, ss);
            && r.Ok? && r.t.next == o.next
            && Agree(r.t, sc, c, frozen)
            && (r.text == o.text <==> NoneHidden(UsesList(c, ss)))
            && SymPost(t, r.t, [], frozen)
    decreases ss, 1
  {
    hide Agree, HgrList, UsesList, Stms, NamesHere, LastSize, Disciplined, SymPost, PopStatics, Leak;
    ListRefines(t, sc, c, frozen, ss, stacks, 0, 0);
    var r := HgrList(t, stacks, ss, 0, 0);
    ListStaticsCount(t, stacks, ss, 0, 0);
    NamesCount(ss, frozen, 0);
    DisciplinedNames(ss, frozen);
    var t1 := r.t.(locals := r.t.locals[..|r.t.locals| - r.numLocals]);
    assert t1.locals == t.locals;
    SymPostLocals(t, r.t, t1, NamesHere(ss), frozen);
    ScopeEnd(t, t1, NamesHere(ss), frozen);
    var t2 := HgrScope(t, stacks, ss).t;
    forall x: Name | x !in c.file ensures Entry(t2.syms, x) == Entry(t.syms, x) {
      Leftovers.EntryUntouched(t, stacks, ss, x);
    }
    ExtAgrees(t, t2, sc, c, frozen);
  }

  /** Symbol lookups survive scope exit: every identifier has the latest mangled symbol it had before. */
  lemma LookupsSurvive(t: Tab, sc: Scope, c: Ctx, frozen: set<Name>, ss: List<Stmt>, stacks: nat, x: Name)
    requires Agree(t, sc, c, frozen) && stacks > 0 && SourceStmts(ss) && AllKnown(UsesList(c, ss)) && NamesIn(ss) <= c.file
    requires Disciplined(ss, frozen)
    ensures HgrScope(t, stacks, ss).Ok?
    ensures Latest(Entry(HgrScope(t, stacks, ss).t.syms, x)) == Latest(Entry(t.syms, x))
  {
    ScopeRefines(t, sc, c, frozen, ss, stacks);
    var t' := HgrScope(t, stacks, ss).t;
    assert SymPostAt(t.syms, t'.syms, [], frozen, x);
    LatestExt(Entry(t.syms, x), Entry(t'.syms, x));
  }

  // ----- the file -----

  function FnNames(ts: List<Top>): set<Name> {
    match ts
    case Nil => {}
    case Cons(t, rest) => (if t.Proto? || t.Func? then {t.f} else {}) + FnNames(rest)
  }

  function EnumNames(ts: List<Top>): set<Name> {
    match ts
    case Nil => {}
    case Cons(t, rest) => (if t.EnumConst? then {t.x} else {}) + EnumNames(rest)
  }

  predicate TopsDisciplined(ts: List<Top>, frozen: set<Name>) {
    ts.Cons? ==>
      && TopsDisciplined(ts.tail, frozen)
      && match ts.head
         case Global(ds) => DisciplinedDecls(ds, frozen)
         case Func(_, _, body) => Disciplined(body, frozen)
         case _ => true
  }

  /**
   What the tool needs of a file besides well-formed C: a statement list has at
   most one static declaration, nested statics have different names, no variable
   is named like a function or an enumerator, and no array initialiser names its
   own array.
   */
  predicate WellBehaved(ts: List<Top>) {
    && FnNames(ts) !! EnumNames(ts)
    && TopsDisciplined(ts, FnNames(ts) + EnumNames(ts))
  }

  function BindParamsCtx(c: Ctx, ps: List<Name>): (r: Ctx)
    ensures r.file == c.file
    decreases ps
  {
    match ps
    case Nil => c
    case Cons(p, rest) => BindParamsCtx(BindAuto(c, p), rest)
  }

  function BodyCtx(c: Ctx, ps: List<Name>): Ctx {
    BindParamsCtx(c.(autos := NameSet(ParamNames(ps))), ps)
  }

  function AfterTop(c: Ctx, t: Top): (r: Ctx)
    ensures r.file == c.file
  {
    match t
    case Global(ds) => AfterDecls(c, ds)
    case EnumConst(x, _) => BindAuto(c, x)
    case Proto(f) => BindAuto(c, f)
    case Func(f, _, _) => BindAuto(c, f)
  }

  function UsesTop(c: Ctx, t: Top): set<Use> {
    match t
    case Global(ds) => UsesDecls(c, ds)
    case Func(f, ps, body) => UsesList(BodyCtx(BindAuto(c, f), ps), body)
    case _ => {}
  }

  function UsesTops(c: Ctx, ts: List<Top>): set<Use>
    decreases ts
  {
    match ts
    case Nil => {}
    case Cons(t, rest) => UsesTop(c, t) + UsesTops(AfterTop(c, t), rest)
  }

  function NamesInTop(t: Top): set<Name> {
    match t
    case Global(ds) => NameSet(StaticNames(ds))
    case EnumConst(x, _) => {x}
    case Proto(f) => {f}
    case Func(f, ps, body) => {f} + NameSet(ParamNames(ps)) + NamesIn(body)
  }

  /** All names the file declares, in whatever scope. */
  function FileNames(ts: List<Top>): set<Name> {
    match ts
    case Nil => {}
    case Cons(t, rest) => NamesInTop(t) + FileNames(rest)
  }

  function StartCtx(file: set<Name>): Ctx {
    Ctx({}, {}, {}, file)
  }

  /** Every occurrence of a name in the file, with what C binds it to and whether the tool lists it as automatic. */
  function FileUses(ts: List<Top>): set<Use> {
    UsesTops(StartCtx(FileNames(ts)), ts)
  }

  predicate KindAt(syms: Symbols, fns: set<Name>, enums: set<Name>, x: Name) {
    Entry(syms, x) == [] || BackIs(syms, x, if x in fns then SFunction else if x in enums then SEnum else SVariable)
  }

  ghost predicate FileInv(t: Tab, sc: Scope, c: Ctx, fns: set<Name>, enums: set<Name>) {
    && t.locals == [] && t.statics == []
    && Agree(t, sc, c, fns + enums)
    && (forall x: Name :: KindAt(t.syms, fns, enums, x))
  }

  lemma {:induction false} DeclsKinds(t: Tab, stacks: nat, ds: List<StaticDecl>, fns: set<Name>, enums: set<Name>)
    requires SourceDecls(ds) && (forall x :: x in StaticNames(ds) ==> x !in fns + enums)
    requires HandleDecls(t, stacks, ds, false).Ok? && (forall x: Name :: KindAt(t.syms, fns, enums, x))
    ensures var t' := HandleDecls(t, stacks, ds, false).t;
            t'.statics == t.statics && (forall x: Name :: KindAt(t'.syms, fns, enums, x))
    decreases ds
  {
    match ds
    case Nil =>
    case Cons(d, rest) =>
      assert StaticNames(ds) == [d.x] + StaticNames(rest);
      assert d.x in StaticNames(ds);
      DeclKinds(t, stacks, d, fns, enums);
      hide HandleDecl, KindAt;
      DeclsKinds(HandleDecl(t, stacks, d, false).t, stacks, rest, fns, enums);
  }

  lemma DeclKinds(t: Tab, stacks: nat, d: StaticDecl, fns: set<Name>, enums: set<Name>)
    requires d.PlainDecl? && d.x !in fns + enums
    requires HandleDecl(t, stacks, d, false).Ok? && (forall x: Name :: KindAt(t.syms, fns, enums, x))
    ensures var t' := HandleDecl(t, stacks, d, false).t;
            t'.statics == t.statics && (forall x: Name :: KindAt(t'.syms, fns, enums, x))
  {
    var t' := HandleDecl(t, stacks, d, false).t;
    assert t' == Declared(t, d, false);
    forall x: Name ensures KindAt(t'.syms, fns, enums, x) {
      assert KindAt(t.syms, fns, enums, x);
    }
  }

  lemma NameDefined(t: Tab, sc: Scope, c: Ctx, fns: set<Name>, enums: set<Name>, x: Name, kind: SymKind)
    requires FileInv(t, sc, c, fns, enums) && fns !! enums && x in c.file
    requires (kind == SFunction && x in fns) || (kind == SEnum && x in enums)
    ensures var syms := if kind == SFunction then DefineFunction(t.syms, x) else DefineVariable(t.syms, x, true, false);
            && syms.Some?
            && FileInv(t.(syms := syms.value), sc[x := if kind == SFunction then KFn else KEnum], BindAuto(c, x), fns, enums)
  {
    assert KindAt(t.syms, fns, enums, x);
    var syms := if kind == SFunction then DefineFunction(t.syms, x) else DefineVariable(t.syms, x, true, false);
    var t1, sc1 := t.(syms := syms.value), sc[x := if kind == SFunction then KFn else KEnum];
    forall y: Name ensures MatchName(t1, sc1, fns + enums, y) && KindAt(t1.syms, fns, enums, y) {
      assert MatchName(t, sc, fns + enums, y);
      assert KindAt(t.syms, fns, enums, y);
    }
    forall y: Name | y !in c.file ensures Absent(t1, sc1, y) {
      assert Absent(t, sc, y);
    }
  }

  lemma {:induction false} ParamsAgree(t: Tab, sc: Scope, c: Ctx, frozen: set<Name>, ps: List<Name>)
    requires Agree(t, sc, c, frozen) && (forall x :: x in ParamNames(ps) ==> x in t.locals)
    ensures Agree(t, Params(sc, ps), BindParamsCtx(c, ps), frozen)
    decreases ps
  {
    match ps
    case Nil =>
    case Cons(p, rest) =>
      assert p in ParamNames(ps);
      BindAutoAgrees(t, sc, c, frozen, p);
      ParamsAgree(t, sc[p := KAuto], BindAuto(c, p), frozen, rest);
  }

  lemma BodyAgrees(t: Tab, sc: Scope, c: Ctx, fns: set<Name>, enums: set<Name>, ps: List<Name>)
    requires FileInv(t, sc, c, fns, enums) && NameSet(ParamNames(ps)) <= c.file
    ensures Agree(t.(locals := ParamNames(ps)), Params(sc, ps), BodyCtx(c, ps), fns + enums)
  {
    var t1, c1 := t.(locals := ParamNames(ps)), c.(autos := NameSet(ParamNames(ps)));
    forall x: Name ensures MatchName(t1, sc, fns + enums, x) {
      assert MatchName(t, sc, fns + enums, x);
    }
    forall x: Name | x !in c.file ensures Absent(t1, sc, x) {
      assert Absent(t, sc, x);
      assert x !in NameSet(ParamNames(ps));
    }
    ParamsAgree(t1, sc, c1, fns + enums, ps);
  }

  lemma ScopeKinds(t: Tab, t': Tab, fns: set<Name>, enums: set<Name>)
    requires SymPost(t, t', [], fns + enums) && (forall x: Name :: KindAt(t.syms, fns, enums, x))
    ensures forall x: Name :: KindAt(t'.syms, fns, enums, x)
  {
    forall x: Name ensures KindAt(t'.syms, fns, enums, x) {
      assert KindAt(t.syms, fns, enums, x);
      assert SymPostAt(t.syms, t'.syms, [], fns + enums, x);
    }
  }

  lemma FuncRefines(t: Tab, sc: Scope, c: Ctx, fns: set<Name>, enums: set<Name>, ps: List<Name>, body: List<Stmt>, stacks: nat)
    requires FileInv(t, sc, c, fns, enums) && stacks > 0 && SourceStmts(body)
    requires Disciplined(body, fns + enums) && AllKnown(UsesList(BodyCtx(c, ps), body))
    requires NameSet(ParamNames(ps)) + NamesIn(body) <= c.file
    ensures var r, o := HgrScope(t.(locals := ParamNames(ps)), stacks, body), Stms(Params(sc, ps), t.next, stacks, body);
            && r.Ok? && r.t.next == o.next
            && FileInv(r.t.(locals := [], statics := []), sc, c, fns, enums)
            && (r.text == o.text <==> NoneHidden(UsesList(BodyCtx(c, ps), body)))
  {
    var t1 := t.(locals := ParamNames(ps));
    BodyAgrees(t, sc, c, fns, enums, ps);
    ScopeRefines(t1, Params(sc, ps), BodyCtx(c, ps), fns + enums, body, stacks);
    var t2 := HgrScope(t1, stacks, body).t;
    var t3 := t2.(locals := [], statics := []);
    ScopeKinds(t1, t2, fns, enums);
    assert SymPost(t, t3, [], fns + enums) by {
      forall x: Name ensures SymPostAt(t.syms, t3.syms, [], fns + enums, x) {
        assert SymPostAt(t1.syms, t2.syms, [], fns + enums, x);
      }
    }
    forall x: Name | x !in c.file ensures Entry(t3.syms, x) == Entry(t.syms, x) {
      Leftovers.EntryUntouched(t1, stacks, body, x);
    }
    ExtAgrees(t, t3, sc, c, fns + enums);
    assert forall x: Name :: KindAt(t2.syms, fns, enums, x) ==> KindAt(t3.syms, fns, enums, x);
  }

  lemma TopRefines(t: Tab, sc: Scope, c: Ctx, fns: set<Name>, enums: set<Name>, top: Top, stacks: nat)
    requires FileInv(t, sc, c, fns, enums) && stacks > 0 && fns !! enums
    requires SourceTops(Cons(top, Nil)) && TopsDisciplined(Cons(top, Nil), fns + enums) && AllKnown(UsesTop(c, top))
    requires NamesInTop(top) <= c.file
    requires FnNames(Cons(top, Nil)) <= fns && EnumNames(Cons(top, Nil)) <= enums
    ensures var r, o := HgrTop(t, stacks, top), TopDecl(sc, t.next, stacks, top);
            && r.Ok? && r.t.next == o.next
            && FileInv(r.t, o.sc, AfterTop(c, top), fns, enums)
            && (r.text == o.text <==> NoneHidden(UsesTop(c, top)))
  {
    hide Agree;
    match top
    case Global(ds) =>
      forall x | x in StaticNames(ds) ensures Definable(t.syms, x) {
        assert KindAt(t.syms, fns, enums, x);
      }
      DeclsRefine(t, sc, c, fns + enums, ds, stacks, false);
      DeclsKinds(t, stacks, ds, fns, enums);
    case EnumConst(x, _) =>
      assert x in EnumNames(Cons(top, Nil));
      NameDefined(t, sc, c, fns, enums, x, SEnum);
    case Proto(f) =>
      assert f in FnNames(Cons(top, Nil));
      NameDefined(t, sc, c, fns, enums, f, SFunction);
    case Func(f, ps, body) =>
      assert f in FnNames(Cons(top, Nil));
      NameDefined(t, sc, c, fns, enums, f, SFunction);
      var t1 := t.(syms := DefineFunction(t.syms, f).value);
      FuncRefines(t1, sc[f := KFn], BindAuto(c, f), fns, enums, ps, body, stacks);
      assert Tab(ParamNames(ps), [], t1.syms, t.next) == t1.(locals := ParamNames(ps));
  }

  lemma {:induction false} TopsRefine(t: Tab, sc: Scope, c: Ctx, fns: set<Name>, enums: set<Name>, ts: List<Top>, stacks: nat)
    requires FileInv(t, sc, c, fns, enums) && stacks > 0 && fns !! enums
    requires SourceTops(ts) && TopsDisciplined(ts, fns + enums) && AllKnown(UsesTops(c, ts)) && FileNames(ts) <= c.file
    requires FnNames(ts) <= fns && EnumNames(ts) <= enums
    ensures var r, o := HgrTops(t, stacks, ts), Tops(sc, t.next, stacks, ts);
            r.Ok? && (r.text == o.text <==> NoneHidden(UsesTops(c, ts)))
    decreases ts
  {
    hide FileInv, HgrTop, UsesTop;
    match ts
    case Nil =>
    case Cons(top, rest) =>
      TopRefines(t, sc, c, fns, enums, top, stacks);
      var r, o := HgrTop(t, stacks, top), TopDecl(sc, t.next, stacks, top);
      TopsRefine(r.t, o.sc, AfterTop(c, top), fns, enums, rest, stacks);
  }

  /**
   On every well-behaved file the tool terminates without error, and what it
   writes is the globalised program if and only if no reference to a globalised
   variable stands where the tool lists an automatic of the same name.
   */
  lemma ToolIsRightIff(ts: List<Top>, stacks: nat)
    requires SourceTops(ts) && WellBehaved(ts) && AllKnown(FileUses(ts)) && stacks > 0
    ensures Globaliser(ts, stacks).Some?
    ensures Globaliser(ts, stacks).value == Program(ts, stacks) <==> NoneHidden(FileUses(ts))
  {
    var fns, enums := FnNames(ts), EnumNames(ts);
    assert forall x: Name :: MatchName(NoTab, map[], fns + enums, x);
    assert forall x: Name :: KindAt(NoTab.syms, fns, enums, x);
    var c := StartCtx(FileNames(ts));
    assert forall x: Name :: x !in c.file ==> Absent(NoTab, map[], x);
    TopsRefine(NoTab, map[], c, fns, enums, ts, stacks);
  }

  lemma ForeignCallBehaves(f: Name, g: Name)
    ensures WellBehaved(Cons(Func(f, Nil, Cons(Call(Id(g), Nil), Nil)), Nil))
  {
    var call := Call(Id(g), Nil);
    var body := Cons(call, Nil);
    var top := Func(f, Nil, body);
    assert FnNames(Cons(top, Nil)) == {f} + FnNames(Nil) == {f} && EnumNames(Cons(top, Nil)) == {} + EnumNames(Nil) == {};
    assert {f} + {} == {f} && {f} + NameSet(NamesOf(call)) == {f};
    assert Disciplined(Nil, {f}) && TopsDisciplined(Nil, {f});
    assert Disciplined(body, {f});
    assert TopsDisciplined(Cons(top, Nil), {f});
  }

  /** void f() { g(); } with no declaration of `g`, as of a builtin of the compiler: it stays as it is. */
  lemma ForeignCallStays(f: Name, g: Name, stacks: nat)
    requires f != g && stacks > 0
    ensures var ts := Cons(Func(f, Nil, Cons(Call(Id(g), Nil), Nil)), Nil);
            Globaliser(ts, stacks) == Some(ts)
  {
    var call := Call(Id(g), Nil);
    var body := Cons(call, Nil);
    var ts := Cons(Func(f, Nil, body), Nil);
    var c1 := BindAuto(StartCtx({f}), f);
    var none: set<Name> := {};
    assert NameSet(ParamNames(Nil)) == none && NamesIn(Nil) == none && FileNames(Nil) == none;
    assert NamesInStmt(call) == none && NamesIn(body) == none + none == none;
    assert NamesInTop(ts.head) == {f} + none + none == {f};
    assert FileNames(ts) == {f} + none == {f};
    assert BodyCtx(c1, Nil) == c1 by { assert NameSet(ParamNames(Nil)) == {}; }
    assert Uses(c1, call) == {Use(g, false, false, false, true)} by { assert UsesExprs(c1, Nil) == {}; }
    assert UsesList(c1, body) == Uses(c1, call) + UsesList(c1, Nil);
    assert UsesTops(AfterTop(StartCtx({f}), ts.head), Nil) == {};
    assert FileUses(ts) == {Use(g, false, false, false, true)};
    assert SourceStmts(Nil) && SourceExprs(Nil) && SourceTops(Nil) && SourceTops(ts);
    ForeignCallBehaves(f, g);
    ToolIsRightIff(ts, stacks);
    var sc: Scope := map[f := KFn];
    assert Params(sc, Nil) == sc;
    assert Exs(sc, Nil) == Nil && Stms(sc, 0, stacks, Nil).text == Nil;
    assert Stms(sc, 0, stacks, body).text == body;
    assert Tops(sc, 0, stacks, Nil).text == Nil;
    assert Program(ts, stacks) == ts;
  }

  /** What the tool writes runs every stack as the original program would run alone. */
  lemma ToolIsolatesStacks(ts: List<Top>, stacks: nat, evs: seq<Event>)
    requires SourceTops(ts) && WellBehaved(ts) && AllKnown(FileUses(ts)) && NoneHidden(FileUses(ts)) && stacks > 0
    requires forall i :: 0 <= i < |evs| ==> evs[i].stack < stacks
    ensures Globaliser(ts, stacks).Some?
    ensures var im, oim := Load(ts), Load(Globaliser(ts, stacks).value);
            && (Run(oim, evs, oim.mem).Done? <==>
                  forall k: nat :: k < stacks ==> Isolation.Alone(im, evs, k, im.mem).Done?)
            && (Run(oim, evs, oim.mem).Done? ==>
                  forall k: nat :: k < stacks ==>
                    Isolation.View(k, Isolation.Alone(im, evs, k, im.mem).v, Run(oim, evs, oim.mem).v))
  {
    ToolIsRightIff(ts, stacks);
    Isolation.SharedProcessIsIsolated(ts, stacks, evs);
  }
}
