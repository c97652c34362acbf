module ScopeDiscipline {
  // The tool decides every reference with two lists of names and a symbol table.
  // This module proves when that agrees with C's scope rules: the lists are restored
  // at the end of each scope, the symbol table answers as before although it keeps
  // leftovers, and the rewritten text is the globalised program exactly when no
  // reference to a globalised variable has a same-named automatic on the list.

  import opened Common
  import opened CLanguage
  import Globalise
  import opened Tables

  // ----- the list of static locals -----

  predicate IsStatic(s: Stmt) {
    s.Static? && s.statics.Cons?
  }

  predicate NoStaticHere(ss: List<Stmt>) {
    ss.Cons? ==> !IsStatic(ss.head) && NoStaticHere(ss.tail)
  }

  /** Every statement list, at any depth, holds at most one static declaration. */
  predicate OneStatic(ss: List<Stmt>) {
    ss.Cons? ==>
      && OneStatic(ss.tail)
      && (IsStatic(ss.head) ==> NoStaticHere(ss.tail))
      && match ss.head
         case Block(body) => OneStatic(body)
         case If(_, thn, els) => OneStatic(thn) && OneStatic(els)
         case While(_, body) => OneStatic(body)
         case _ => true
  }

  function Size<T>(l: List<T>): nat {
    match l case Nil => 0 case Cons(_, rest) => 1 + Size(rest)
  }

  /** How many static names a scope leaves behind: all but its last static declaration, and what its own scopes leave. */
  function Leak(ss: List<Stmt>): nat {
    match ss
    case Nil => 0
    case Cons(s, rest) => LeakOf(s) + Leak(rest) + if IsStatic(s) && !NoStaticHere(rest) then Size(s.statics) else 0
  }

  function LeakOf(s: Stmt): nat {
    match s
    case Block(body) => Leak(body)
    case If(_, thn, els) => Leak(thn) + Leak(els)
    case While(_, body) => Leak(body)
    case _ => 0
  }

  /** The size of the last static declaration, or `n` if there is none. */
  function LastSize(ss: List<Stmt>, n: nat): nat {
    match ss
    case Nil => n
    case Cons(s, rest) => LastSize(rest, if IsStatic(s) then Size(s.statics) else n)
  }

  lemma {:induction false} DeclsPush(t: Tab, stacks: nat, ds: List<StaticDecl>)
    requires Globalise.SourceDecls(ds)
    ensures var r := HandleDecls(t, stacks, ds, true);
            r.Ok? ==> |r.t.statics| == |t.statics| + Size(ds)
    decreases ds
  {
    match ds
    case Nil =>
    case Cons(d, rest) =>
      var r := HandleDecl(t, stacks, d, true);
      if r.Ok? {
        DeclsPush(r.t, stacks, rest);
      }
  }

  lemma {:induction false} LastSizeIgnores(ss: List<Stmt>, a: nat, b: nat)
    ensures LastSize(ss, a) == if NoStaticHere(ss) then a else LastSize(ss, b)
  {
    match ss
    case Nil =>
    case Cons(s, rest) =>
      LastSizeIgnores(rest, if IsStatic(s) then Size(s.statics) else a, if IsStatic(s) then Size(s.statics) else b);
  }

  lemma {:induction false} MemberStatics(t: Tab, stacks: nat, s: Stmt, nl: nat, ns: nat)
    requires Globalise.SourceStmt(s)
    ensures var r := HgrMember(t, stacks, s, nl, ns);
            r.OkList? ==>
              && t.statics <= r.t.statics
              && |r.t.statics| == |t.statics| + LeakOf(s) + (if IsStatic(s) then Size(s.statics) else 0)
              && r.numStatics == if IsStatic(s) then Size(s.statics) else ns
    decreases s
  {
    match s
    case Static(ds) => DeclsPush(t, stacks, ds);
    case Block(body) => ScopeStatics(t, stacks, body);
    case If(_, thn, els) =>
      ScopeStatics(t, stacks, thn);
      var r := HgrScope(t, stacks, thn);
      if r.Ok? { ScopeStatics(r.t, stacks, els); }
    case While(_, body) => ScopeStatics(t, stacks, body);
    case _ =>
  }

  lemma {:induction false} ListStaticsCount(t: Tab, stacks: nat, ss: List<Stmt>, nl: nat, ns: nat)
    requires Globalise.SourceStmts(ss)
    ensures var r := HgrList(t, stacks, ss, nl, ns);
            r.OkList? ==>
              && t.statics <= r.t.statics
              && |r.t.statics| == |t.statics| + Leak(ss) + LastSize(ss, 0)
              && r.numStatics == LastSize(ss, ns)
    decreases ss, 0
  {
    match ss
    case Nil =>
    case Cons(s, rest) =>
      MemberStatics(t, stacks, s, nl, ns);
      var r := HgrMember(t, stacks, s, nl, ns);
      if r.OkList? {
        ListStaticsCount(r.t, stacks, rest, r.numLocals, r.numStatics);
        LastSizeIgnores(rest, if IsStatic(s) then Size(s.statics) else 0, 0);
        LastSizeIgnores(rest, r.numStatics, 0);
        LastSizeIgnores(rest, 0, 0);
      }
  }

  /** A scope leaves exactly `Leak` names on the list, on top of what was there. */
  lemma {:induction false} ScopeStatics(t: Tab, stacks: nat, ss: List<Stmt>)
    requires Globalise.SourceStmts(ss)
    ensures var r := HgrScope(t, stacks, ss);
            r.Ok? ==> t.statics <= r.t.statics && |r.t.statics| == |t.statics| + Leak(ss)
    decreases ss, 1
  {
    ListStaticsCount(t, stacks, ss, 0, 0);
  }

  lemma {:induction false} LeakIff(ss: List<Stmt>)
    ensures Leak(ss) == 0 <==> OneStatic(ss)
    decreases ss
  {
    match ss
    case Nil =>
    case Cons(s, rest) =>
      LeakIff(rest);
      assert IsStatic(s) ==> Size(s.statics) > 0;
      match s {
        case Block(body) => LeakIff(body);
        case If(_, thn, els) => LeakIff(thn); LeakIff(els);
        case While(_, body) => LeakIff(body);
        case _ =>
      }
  }

  /** Since the count of static names is overwritten and not accumulated, the list is restored iff no list declares twice. */
  lemma StaticsRestoredIff(t: Tab, stacks: nat, ss: List<Stmt>)
    requires Globalise.SourceStmts(ss)
    ensures var r := HgrScope(t, stacks, ss);
            r.Ok? ==> (r.t.statics == t.statics <==> OneStatic(ss))
  {
    ScopeStatics(t, stacks, ss);
    LeakIff(ss);
  }

  // ----- the symbol table -----

  /** `e'` is `e` with unmangled leftovers on top. */
  ghost predicate Ext(e: seq<Symbol>, e': seq<Symbol>) {
    && e <= e'
    && (forall i :: |e| <= i < |e'| ==> e'[i] == Symbol(SVariable, Unmangled))
  }

  lemma {:induction false} LatestExt(e: seq<Symbol>, e': seq<Symbol>)
    requires Ext(e, e')
    ensures Latest(e') == Latest(e)
    decreases |e'|
  {
    if |e'| == |e| {
      assert e' == e;
    } else {
      LatestExt(e, e'[..|e'| - 1]);
    }
  }

  function StaticNames(ds: List<StaticDecl>): seq<Name> {
    match ds
    case Nil => []
    case Cons(d, rest) => [d.x] + StaticNames(rest)
  }

  function NamesOf(s: Stmt): seq<Name> {
    if s.Static? then StaticNames(s.statics) else []
  }

  function NamesHere(ss: List<Stmt>): seq<Name> {
    match ss
    case Nil => []
    case Cons(s, rest) => NamesOf(s) + NamesHere(rest)
  }

  function NameSet(ns: seq<Name>): set<Name> {
    set x | x in ns
  }

  /** The array declarators whose initialiser names the array itself are beyond the tool. */
  predicate NoSelfArray(ds: List<StaticDecl>) {
    ds.Cons? ==>
      && !(ds.head.PlainDecl? && ds.head.isArray && ds.head.init == AddrOf(ds.head.x))
      && NoSelfArray(ds.tail)
  }

  /** `frozen` holds the functions and enumerators of the file and the statics in scope. */
  predicate DisciplinedDecls(ds: List<StaticDecl>, frozen: set<Name>) {
    && NoSelfArray(ds)
    && (forall x :: x in StaticNames(ds) ==> x !in frozen)
  }

  predicate Disciplined(ss: List<Stmt>, frozen: set<Name>)
    decreases ss
  {
    ss.Cons? ==>
      && (match ss.head
          case Block(body) => Disciplined(body, frozen)
          case If(_, thn, els) => Disciplined(thn, frozen) && Disciplined(els, frozen)
          case While(_, body) => Disciplined(body, frozen)
          case Static(ds) => DisciplinedDecls(ds, frozen) && Distinct(StaticNames(ds)) && NamesHere(ss.tail) == []
          case _ => true)
      && Disciplined(ss.tail, frozen + NameSet(NamesOf(ss.head)))
  }

  ghost predicate EntryPost(e: seq<Symbol>, e': seq<Symbol>, declared: bool) {
    if declared then e' != [] && Ext(e, e'[..|e'| - 1]) else Ext(e, e')
  }

  ghost predicate SymPostAt(syms: Symbols, syms': Symbols, names: seq<Name>, frozen: set<Name>, x: Name) {
    && EntryPost(Entry(syms, x), Entry(syms', x), x in names)
    && (x in frozen ==> x !in names && Entry(syms', x) == Entry(syms, x))
  }

  /** Each name of `names` gained a leftover and a mangled symbol, other names at most leftovers, frozen ones nothing. */
  ghost predicate SymPost(t: Tab, t': Tab, names: seq<Name>, frozen: set<Name>) {
    && t'.statics == t.statics + names
    && (forall x: Name :: SymPostAt(t.syms, t'.syms, names, frozen, x))
  }

  lemma ExtTrans(a: seq<Symbol>, b: seq<Symbol>, c: seq<Symbol>)
    requires Ext(a, b) && Ext(b, c)
    ensures Ext(a, c)
  {
    assert forall i :: |a| <= i < |b| ==> c[i] == b[i];
  }

  lemma SymPostTrans(t: Tab, t1: Tab, t2: Tab, names: seq<Name>, names': seq<Name>, frozen: set<Name>)
    requires SymPost(t, t1, names, frozen)
    requires SymPost(t1, t2, names', frozen + NameSet(names))
    requires names == [] || names' == []
    ensures SymPost(t, t2, names + names', frozen)
  {
    forall x: Name ensures SymPostAt(t.syms, t2.syms, names + names', frozen, x) {
      assert SymPostAt(t.syms, t1.syms, names, frozen, x);
      assert SymPostAt(t1.syms, t2.syms, names', frozen + NameSet(names), x);
      var e, e1, e2 := Entry(t.syms, x), Entry(t1.syms, x), Entry(t2.syms, x);
      if x in names {
        assert e2 == e1;
      } else if x in names' {
        ExtTrans(e, e1, e2[..|e2| - 1]);
      } else {
        ExtTrans(e, e1, e2);
      }
    }
  }

  ghost predicate PoppedAt(syms: Symbols, syms': Symbols, names: seq<Name>, x: Name) {
    var e := Entry(syms, x);
    Entry(syms', x) == if x in names && e != [] then e[..|e| - 1] else e
  }

  lemma PoppedMore(syms: Symbols, syms2: Symbols, rest: seq<Name>, x: Name, y: Name)
    requires x !in rest && Entry(syms, x) != []
    requires PoppedAt(syms[x := Entry(syms, x)[..|Entry(syms, x)| - 1]], syms2, rest, y)
    ensures PoppedAt(syms, syms2, rest + [x], y)
  {
  }

  /** The table after one symbol of `x` is taken off. */
  function Popped(t: Tab, x: Name, statics: seq<Name>): Tab
    requires Entry(t.syms, x) != []
  {
    var l := Entry(t.syms, x);
    t.(syms := t.syms[x := l[..|l| - 1]], statics := statics)
  }

  lemma PopLast(t: Tab, init: seq<Name>, x: Name, k: nat)
    requires t.statics == init + [x] && k > 0
    ensures if Entry(t.syms, x) == [] then PopStatics(t, k) == None
            else PopStatics(t, k) == PopStatics(Popped(t, x, init), k - 1)
  {
    assert t.statics[|t.statics| - 1] == x && t.statics[..|t.statics| - 1] == init;
  }

  lemma PopNone(t: Tab)
    ensures PopStatics(t, 0) == Some(t)
  {
  }

  lemma DistinctInit(names: seq<Name>)
    requires Distinct(names) && names != []
    ensures var n := |names| - 1;
            names == names[..n] + [names[n]] && Distinct(names[..n]) && names[n] !in names[..n]
  {
  }

  lemma {:induction false} PopAll(t: Tab, keep: seq<Name>, names: seq<Name>)
    requires t.statics == keep + names && Distinct(names)
    requires forall x :: x in names ==> Entry(t.syms, x) != []
    ensures var r := PopStatics(t, |names|);
            && r.Some? && r.value.statics == keep && r.value.next == t.next
            && (forall x: Name :: PoppedAt(t.syms, r.value.syms, names, x))
    decreases |names|
  {
    hide PopStatics;
    if names == [] {
      PopNone(t);
      assert t.statics == keep;
    } else {
      DistinctInit(names);
      hide Distinct;
      var rest, x := names[..|names| - 1], names[|names| - 1];
      assert t.statics == (keep + rest) + [x];
      PopLast(t, keep + rest, x, |names|);
      var t1 := Popped(t, x, keep + rest);
      assert x in names && forall y :: y in rest ==> y in names && y != x;
      PopAll(t1, keep, rest);
      hide PoppedAt;
      var t2 := PopStatics(t1, |rest|).value;
      forall y: Name ensures PoppedAt(t.syms, t2.syms, names, y) {
        PoppedMore(t.syms, t2.syms, rest, x, y);
      }
    }
  }

  // ----- references, as C binds them -----

  /**
   The names bound, those whose innermost binding is globalised, those on the tool's list of
   automatics, and those the file declares anywhere.
   */
  datatype Ctx = Ctx(bound: set<Name>, glob: set<Name>, autos: set<Name>, file: set<Name>)

  /** One occurrence of a name; a foreign name is declared nowhere in the file, like a builtin of the compiler. */
  datatype Use = Use(x: Name, bound: bool, globalised: bool, listed: bool, foreign: bool)

  function UseOf(c: Ctx, x: Name): Use {
    Use(x, x in c.bound, x in c.glob, x in c.autos, x !in c.file)
  }

  function UsesLval(c: Ctx, lv: Lval): set<Use> {
    if lv.Id? then {UseOf(c, lv.x)} else {}
  }

  function UsesExpr(c: Ctx, e: Expr): set<Use> {
    match e
    case Lit(_) => {}
    case Ref(lv) => UsesLval(c, lv)
    case Addr(lv) => UsesLval(c, lv)
    case Deref(p) => UsesExpr(c, p)
    case Bin(_, l, r) => UsesExpr(c, l) + UsesExpr(c, r)
  }

  function UsesExprs(c: Ctx, es: List<Expr>): set<Use> {
    match es
    case Nil => {}
    case Cons(e, rest) => UsesExpr(c, e) + UsesExprs(c, rest)
  }

  function BindAuto(c: Ctx, x: Name): Ctx {
    c.(bound := c.bound + {x}, glob := c.glob - {x})
  }

  function BindStatic(c: Ctx, x: Name): Ctx {
    c.(bound := c.bound + {x}, glob := c.glob + {x})
  }

  /** All declarators of the declaration are on the list before the first initialiser is visited. */
  function UsesAutos(c: Ctx, ds: List<AutoDecl>): set<Use>
    decreases ds
  {
    match ds
    case Nil => {}
    case Cons(d, rest) =>
      var c1 := BindAuto(c, d.x);
      (if d.init.Some? then UsesExpr(c1, d.init.value) else {}) + UsesAutos(c1, rest)
  }

  function AfterAutos(c: Ctx, ds: List<AutoDecl>): (r: Ctx)
    ensures r.file == c.file
    decreases ds
  {
    match ds
    case Nil => c
    case Cons(d, rest) => AfterAutos(BindAuto(c, d.x), rest)
  }

  function UsesDecls(c: Ctx, ds: List<StaticDecl>): set<Use>
    decreases ds
  {
    match ds
    case Nil => {}
    case Cons(d, rest) =>
      var c1 := BindStatic(c, d.x);
      (if d.PlainDecl? && d.init.AddrOf? then {UseOf(c1, d.init.x)} else {}) + UsesDecls(c1, rest)
  }

  function AfterDecls(c: Ctx, ds: List<StaticDecl>): (r: Ctx)
    ensures r.file == c.file
    decreases ds
  {
    match ds
    case Nil => c
    case Cons(d, rest) => AfterDecls(BindStatic(c, d.x), rest)
  }

  function Listed(c: Ctx, ds: List<AutoDecl>): Ctx {
    c.(autos := c.autos + NameSet(AutoNames(ds)))
  }

  function After(c: Ctx, s: Stmt): (r: Ctx)
    ensures r.file == c.file
  {
    match s
    case Auto(ds) => AfterAutos(Listed(c, ds), ds)
    case Static(ds) => AfterDecls(c, ds)
    case _ => c
  }

  function Uses(c: Ctx, s: Stmt): set<Use>
    decreases s
  {
    match s
    case Assign(lv, e) => UsesLval(c, lv) + UsesExpr(c, e)
    case Store(p, e) => UsesExpr(c, p) + UsesExpr(c, e)
    case Call(f, args) => UsesLval(c, f) + UsesExprs(c, args)
    case Auto(ds) => UsesAutos(Listed(c, ds), ds)
    case Static(ds) => UsesDecls(c, ds)
    case Block(body) => UsesList(c, body)
    case If(e, thn, els) => UsesExpr(c, e) + UsesList(c, thn) + UsesList(c, els)
    case While(e, body) => UsesExpr(c, e) + UsesList(c, body)
  }

  function UsesList(c: Ctx, ss: List<Stmt>): set<Use>
    decreases ss
  {
    match ss
    case Nil => {}
    case Cons(s, rest) => Uses(c, s) + UsesList(After(c, s), rest)
  }

  /** Every name used is in scope or declared nowhere in the file. */
  predicate AllKnown(us: set<Use>) {
    forall u :: u in us ==> u.bound || u.foreign
  }

  /** The names a statement declares, at any depth. */
  function NamesInStmt(s: Stmt): set<Name> {
    match s
    case Auto(ds) => NameSet(AutoNames(ds))
    case Static(ds) => NameSet(StaticNames(ds))
    case Block(body) => NamesIn(body)
    case If(_, thn, els) => NamesIn(thn) + NamesIn(els)
    case While(_, body) => NamesIn(body)
    case _ => {}
  }

  function NamesIn(ss: List<Stmt>): set<Name> {
    match ss
    case Nil => {}
    case Cons(s, rest) => NamesInStmt(s) + NamesIn(rest)
  }

  /** No use of a globalised variable while an automatic of that name is listed. */
  predicate NoneHidden(us: set<Use>) {
    forall u :: u in us ==> !(u.globalised && u.listed)
  }
}
