module Leftovers {
  // What a scope leaves in the symbol table, for every program text, disciplined or
  // not: exactly when every lookup answers as before, exactly when a function or an
  // enumerator is still taken for one, and exactly when a declarator stops the tool.

  import opened Common
  import opened CLanguage
  import opened Globalise
  import opened Tables
  import opened ScopeDiscipline

  // ----- static declarations of one name -----

  /** How many static declarators of `x` there are, at any depth. */
  function DeclaratorsOf(ds: List<StaticDecl>, x: Name): nat {
    match ds
    case Nil => 0
    case Cons(d, rest) => (if d.x == x then 1 else 0) + DeclaratorsOf(rest, x)
  }

  function StaticsIn(s: Stmt, x: Name): nat {
    match s
    case Static(ds) => DeclaratorsOf(ds, x)
    case Block(body) => StaticsOf(body, x)
    case If(_, thn, els) => StaticsOf(thn, x) + StaticsOf(els, x)
    case While(_, body) => StaticsOf(body, x)
    case _ => 0
  }

  function StaticsOf(ss: List<Stmt>, x: Name): nat {
    match ss
    case Nil => 0
    case Cons(s, rest) => StaticsIn(s, x) + StaticsOf(rest, x)
  }

  /** No static `x` is declared inside the scope of an earlier static `x`. */
  predicate NeverNested(ss: List<Stmt>, x: Name) {
    ss.Cons? ==>
      && NeverNested(ss.tail, x)
      && match ss.head
         case Static(ds) => DeclaratorsOf(ds, x) > 0 ==> StaticsOf(ss.tail, x) == 0
         case Block(body) => NeverNested(body, x)
         case If(_, thn, els) => NeverNested(thn, x) && NeverNested(els, x)
         case While(_, body) => NeverNested(body, x)
         case _ => true
  }

  /** No declaration names the same object twice. */
  predicate DistinctDecls(ss: List<Stmt>) {
    ss.Cons? ==>
      && DistinctDecls(ss.tail)
      && match ss.head
         case Static(ds) => Distinct(StaticNames(ds))
         case Block(body) => DistinctDecls(body)
         case If(_, thn, els) => DistinctDecls(thn) && DistinctDecls(els)
         case While(_, body) => DistinctDecls(body)
         case _ => true
  }

  // ----- what a text leaves behind -----

  function Times(ns: seq<Name>, x: Name): nat {
    if ns == [] then 0 else Times(ns[..|ns| - 1], x) + if ns[|ns| - 1] == x then 1 else 0
  }

  /** The end of a list that was popped `k` times. */
  function Drop<T>(s: seq<T>, k: nat): seq<T> {
    if k <= |s| then s[..|s| - k] else []
  }

  /** A symbol on top of an entry: without a mangled name, with that of the old method, with that of the new one. */
  datatype Mark = Bare | Scalar | Pointer

  function MarkOf(d: StaticDecl): Mark {
    if d.PlainDecl? && d.isArray then Pointer else Scalar
  }

  /** The symbols of `x` that declarators push. */
  function MarksOfDecls(ds: List<StaticDecl>, x: Name): seq<Mark> {
    match ds
    case Nil => []
    case Cons(d, rest) => (if d.x == x then [Bare, MarkOf(d)] else []) + MarksOfDecls(rest, x)
  }

  /** Each popped name takes one symbol off its entry. */
  function PopMarks(names: seq<Name>, ms: seq<Mark>, x: Name, k: nat): seq<Mark> {
    if k == 0 || names == [] then ms
    else
      var n := |names| - 1;
      PopMarks(names[..n], if names[n] == x then Drop(ms, 1) else ms, x, k - 1)
  }

  /** The names a statement adds to the list of statics, and what of them is left when a scope ends. */
  function NamesBy(s: Stmt): seq<Name> {
    match s
    case Static(ds) => StaticNames(ds)
    case Block(body) => LeftNames(body)
    case If(_, thn, els) => LeftNames(thn) + LeftNames(els)
    case While(_, body) => LeftNames(body)
    case _ => []
  }

  function NamesList(ss: List<Stmt>): seq<Name>
    decreases ss, 0
  {
    match ss
    case Nil => []
    case Cons(s, rest) => NamesBy(s) + NamesList(rest)
  }

  /** A scope pops as many names as its last static declaration has. */
  function LeftNames(ss: List<Stmt>): seq<Name>
    decreases ss, 1
  {
    Drop(NamesList(ss), LastSize(ss, 0))
  }

  /** The symbols of `x` likewise. */
  function MarksBy(s: Stmt, x: Name): seq<Mark> {
    match s
    case Static(ds) => MarksOfDecls(ds, x)
    case Block(body) => LeftMarks(body, x)
    case If(_, thn, els) => LeftMarks(thn, x) + LeftMarks(els, x)
    case While(_, body) => LeftMarks(body, x)
    case _ => []
  }

  function MarksList(ss: List<Stmt>, x: Name): seq<Mark>
    decreases ss, 0
  {
    match ss
    case Nil => []
    case Cons(s, rest) => MarksBy(s, x) + MarksList(rest, x)
  }

  function LeftMarks(ss: List<Stmt>, x: Name): seq<Mark>
    decreases ss, 1
  {
    PopMarks(NamesList(ss), MarksList(ss, x), x, LastSize(ss, 0))
  }

  // ----- how many -----

  lemma {:induction false} TimesAppend(a: seq<Name>, b: seq<Name>, x: Name)
    ensures Times(a + b, x) == Times(a, x) + Times(b, x)
    decreases |b|
  {
    if b == [] {
      assert a + b == a;
    } else {
      assert (a + b)[..|a + b| - 1] == a + b[..|b| - 1];
      TimesAppend(a, b[..|b| - 1], x);
    }
  }

  lemma {:induction false} DeclsCounted(ds: List<StaticDecl>, x: Name)
    ensures Times(StaticNames(ds), x) == DeclaratorsOf(ds, x)
    ensures |MarksOfDecls(ds, x)| == 2 * DeclaratorsOf(ds, x)
    ensures |StaticNames(ds)| == Size(ds)
  {
    match ds
    case Nil =>
    case Cons(d, rest) =>
      DeclsCounted(rest, x);
      TimesCons(d.x, StaticNames(rest), x);
  }

  lemma TimesCons(y: Name, names: seq<Name>, x: Name)
    ensures Times([y] + names, x) == (if y == x then 1 else 0) + Times(names, x)
  {
    TimesAppend([y], names, x);
    assert [y][..0] == [];
    assert Times([], x) == 0;
  }

  lemma {:induction false} PopsCounted(names: seq<Name>, ms: seq<Mark>, x: Name, k: nat)
    requires |ms| >= Times(names, x) && k <= |names|
    ensures |PopMarks(names, ms, x, k)| == |ms| - Times(names, x) + Times(Drop(names, k), x)
    decreases k
  {
    if k == 0 {
      assert Drop(names, 0) == names;
    } else {
      var n := |names| - 1;
      PopsCounted(names[..n], if names[n] == x then Drop(ms, 1) else ms, x, k - 1);
      assert Drop(names[..n], k - 1) == Drop(names, k);
    }
  }

  lemma {:induction false} NamesOfStmt(s: Stmt)
    ensures |NamesBy(s)| == LeakOf(s) + if IsStatic(s) then Size(s.statics) else 0
    decreases s, 0
  {
    match s
    case Static(ds) =>
      DeclsCounted(ds, "");
      if ds.Nil? { assert Size(ds) == 0; }
    case Block(body) => NamesOfScope(body);
    case If(_, thn, els) => NamesOfScope(thn); NamesOfScope(els);
    case While(_, body) => NamesOfScope(body);
    case _ =>
  }

  lemma {:induction false} NamesOfList(ss: List<Stmt>)
    ensures |NamesList(ss)| == Leak(ss) + LastSize(ss, 0)
    decreases ss, 0
  {
    match ss
    case Nil =>
    case Cons(s, rest) =>
      hide NamesBy, LeakOf;
      NamesOfStmt(s);
      NamesOfList(rest);
      LastSizeIgnores(rest, if IsStatic(s) then Size(s.statics) else 0, 0);
      LastSizeIgnores(rest, 0, 0);
  }

  lemma {:induction false} NamesOfScope(ss: List<Stmt>)
    ensures |NamesList(ss)| == Leak(ss) + LastSize(ss, 0) && |LeftNames(ss)| == Leak(ss)
    decreases ss, 1
  {
    NamesOfList(ss);
  }

  lemma {:induction false} CountedStmt(s: Stmt, x: Name)
    ensures |MarksBy(s, x)| == Times(NamesBy(s), x) + StaticsIn(s, x)
    decreases s, 0
  {
    hide LeftMarks, LeftNames;
    match s
    case Static(ds) => DeclsCounted(ds, x);
    case Block(body) => CountedScope(body, x);
    case If(_, thn, els) =>
      CountedScope(thn, x);
      CountedScope(els, x);
      TimesAppend(LeftNames(thn), LeftNames(els), x);
    case While(_, body) => CountedScope(body, x);
    case _ =>
  }

  lemma {:induction false} CountedList(ss: List<Stmt>, x: Name)
    ensures |MarksList(ss, x)| == Times(NamesList(ss), x) + StaticsOf(ss, x)
    decreases ss, 0
  {
    match ss
    case Nil =>
    case Cons(s, rest) =>
      hide MarksBy, NamesBy, StaticsIn;
      CountedStmt(s, x);
      CountedList(rest, x);
      TimesAppend(NamesBy(s), NamesList(rest), x);
  }

  /** One symbol for each declarator of the name, and one for each place it keeps on the list of statics. */
  lemma {:induction false} CountedScope(ss: List<Stmt>, x: Name)
    ensures |LeftMarks(ss, x)| == Times(LeftNames(ss), x) + StaticsOf(ss, x)
    decreases ss, 1
  {
    hide MarksList, NamesList, Times, StaticsOf, PopMarks, LastSize, Leak;
    CountedList(ss, x);
    NamesOfList(ss);
    PopsCounted(NamesList(ss), MarksList(ss, x), x, LastSize(ss, 0));
  }

  lemma {:induction false} UnnamedStmt(s: Stmt, x: Name)
    requires StaticsIn(s, x) == 0
    ensures Times(NamesBy(s), x) == 0
    decreases s, 0
  {
    hide LeftNames;
    match s
    case Static(ds) => DeclsCounted(ds, x);
    case Block(body) => UnnamedScope(body, x);
    case If(_, thn, els) =>
      UnnamedScope(thn, x);
      UnnamedScope(els, x);
      TimesAppend(LeftNames(thn), LeftNames(els), x);
    case While(_, body) => UnnamedScope(body, x);
    case _ =>
  }

  lemma {:induction false} UnnamedList(ss: List<Stmt>, x: Name)
    requires StaticsOf(ss, x) == 0
    ensures Times(NamesList(ss), x) == 0
    decreases ss, 0
  {
    match ss
    case Nil =>
    case Cons(s, rest) =>
      hide NamesBy, StaticsIn;
      UnnamedStmt(s, x);
      UnnamedList(rest, x);
      TimesAppend(NamesBy(s), NamesList(rest), x);
  }

  lemma {:induction false} UnnamedScope(ss: List<Stmt>, x: Name)
    requires StaticsOf(ss, x) == 0
    ensures Times(LeftNames(ss), x) == 0
    decreases ss, 1
  {
    hide NamesList, Times, StaticsOf, LastSize;
    UnnamedList(ss, x);
    var names, k := NamesList(ss), LastSize(ss, 0);
    assert Times([], x) == 0 by { TimesNone(x); }
    if k <= |names| {
      TimesAppend(names[..|names| - k], names[|names| - k..], x);
      assert names == names[..|names| - k] + names[|names| - k..];
    }
  }

  lemma TimesNone(x: Name)
    ensures Times([], x) == 0
  {
  }

  /** A scope leaves a symbol of `x` behind iff it declares a static `x` somewhere. */
  lemma SomethingLeftIff(ss: List<Stmt>, x: Name)
    ensures LeftMarks(ss, x) == [] <==> StaticsOf(ss, x) == 0
  {
    hide LeftMarks, LeftNames, StaticsOf, Times;
    CountedScope(ss, x);
    if StaticsOf(ss, x) == 0 {
      UnnamedScope(ss, x);
    }
  }

  lemma {:induction false} UndeclaredStmt(s: Stmt, x: Name)
    requires x !in NamesInStmt(s)
    ensures StaticsIn(s, x) == 0
    decreases s
  {
    match s
    case Static(ds) => NamedIff(ds, x);
    case Block(body) => Undeclared(body, x);
    case If(_, thn, els) => Undeclared(thn, x); Undeclared(els, x);
    case While(_, body) => Undeclared(body, x);
    case _ =>
  }

  lemma {:induction false} Undeclared(ss: List<Stmt>, x: Name)
    requires x !in NamesIn(ss)
    ensures StaticsOf(ss, x) == 0
    decreases ss
  {
    match ss
    case Nil =>
    case Cons(s, rest) =>
      UndeclaredStmt(s, x);
      Undeclared(rest, x);
  }

  // ----- the tables follow the text -----

  /** The symbol carries the mark; its array number is one of those given out from `lo` to `hi`. */
  predicate Marked(s: Symbol, m: Mark, lo: nat, hi: nat) {
    && s.kind == SVariable
    && match m
       case Bare => s.mangled == Unmangled
       case Scalar => s.mangled == ArrName
       case Pointer => s.mangled.PtrName? && lo <= s.mangled.n < hi
  }

  ghost predicate Topped(e: seq<Symbol>, e': seq<Symbol>, ms: seq<Mark>, lo: nat, hi: nat) {
    && |e'| == |e| + |ms| && e <= e'
    && (forall i :: |e| <= i < |e'| ==> Marked(e'[i], ms[i - |e|], lo, hi))
  }

  ghost predicate Leaves(t: Tab, t': Tab, names: seq<Name>, x: Name, ms: seq<Mark>) {
    && t'.statics == t.statics + names && t.next <= t'.next
    && Topped(Entry(t.syms, x), Entry(t'.syms, x), ms, t.next, t'.next)
  }

  lemma ToppedTrans(a: seq<Symbol>, b: seq<Symbol>, c: seq<Symbol>, p: seq<Mark>, q: seq<Mark>, lo: nat, mid: nat, hi: nat)
    requires Topped(a, b, p, lo, mid) && Topped(b, c, q, mid, hi) && lo <= mid <= hi
    ensures Topped(a, c, p + q, lo, hi)
  {
    assert a <= c;
    forall i | |a| <= i < |c| ensures Marked(c[i], (p + q)[i - |a|], lo, hi) {
      if i < |b| {
        assert c[i] == b[i] && Marked(b[i], p[i - |a|], lo, mid);
      } else {
        assert Marked(c[i], q[i - |b|], mid, hi);
      }
    }
  }

  lemma LeavesNothing(t: Tab, t': Tab, x: Name)
    requires t'.statics == t.statics && t'.syms == t.syms && t'.next == t.next
    ensures Leaves(t, t', [], x, [])
  {
  }

  lemma LeavesTrans(t: Tab, t1: Tab, t2: Tab, names: seq<Name>, names': seq<Name>, x: Name, p: seq<Mark>, q: seq<Mark>)
    requires Leaves(t, t1, names, x, p) && Leaves(t1, t2, names', x, q)
    ensures Leaves(t, t2, names + names', x, p + q)
  {
    hide Topped;
    ToppedTrans(Entry(t.syms, x), Entry(t1.syms, x), Entry(t2.syms, x), p, q, t.next, t1.next, t2.next);
  }

  lemma DeclLeaves(t: Tab, x: Name, stacks: nat, d: StaticDecl)
    requires d.PlainDecl? && HandleDecl(t, stacks, d, true).Ok?
    ensures Leaves(t, HandleDecl(t, stacks, d, true).t, [d.x], x, if d.x == x then [Bare, MarkOf(d)] else [])
  {
  }

  lemma {:induction false} DeclsLeave(t: Tab, x: Name, stacks: nat, ds: List<StaticDecl>)
    requires SourceDecls(ds) && HandleDecls(t, stacks, ds, true).Ok?
    ensures Leaves(t, HandleDecls(t, stacks, ds, true).t, StaticNames(ds), x, MarksOfDecls(ds, x))
    decreases ds
  {
    hide HandleDecl, Leaves;
    match ds
    case Nil => LeavesNothing(t, t, x);
    case Cons(d, rest) =>
      DeclLeaves(t, x, stacks, d);
      var t1 := HandleDecl(t, stacks, d, true).t;
      DeclsLeave(t1, x, stacks, rest);
      LeavesTrans(t, t1, HandleDecls(t1, stacks, rest, true).t, [d.x], StaticNames(rest), x,
                  if d.x == x then [Bare, MarkOf(d)] else [], MarksOfDecls(rest, x));
  }

  lemma PopOneLeaves(t: Tab, t1: Tab, names: seq<Name>, x: Name, ms: seq<Mark>)
    requires Leaves(t, t1, names, x, ms) && names != [] && Entry(t1.syms, names[|names| - 1]) != []
    requires names[|names| - 1] == x ==> ms != []
    ensures var n := |names| - 1;
            Leaves(t, Popped(t1, names[n], t.statics + names[..n]), names[..n], x, if names[n] == x then Drop(ms, 1) else ms)
  {
  }

  lemma {:induction false} PopLeaves(t: Tab, t1: Tab, names: seq<Name>, x: Name, ms: seq<Mark>, k: nat)
    requires Leaves(t, t1, names, x, ms) && k <= |names| && |ms| >= Times(names, x) && PopStatics(t1, k).Some?
    ensures Leaves(t, PopStatics(t1, k).value, Drop(names, k), x, PopMarks(names, ms, x, k))
    decreases k
  {
    hide PopStatics, Topped;
    if k == 0 {
      PopNone(t1);
      assert Drop(names, 0) == names;
    } else {
      var n := |names| - 1;
      var y, ms', init := names[n], if names[n] == x then Drop(ms, 1) else ms, t.statics + names[..n];
      assert t1.statics == init + [y];
      PopLast(t1, init, y, k);
      assert |ms'| >= Times(names[..n], x);
      PopOneLeaves(t, t1, names, x, ms);
      hide Leaves;
      PopLeaves(t, Popped(t1, y, init), names[..n], x, ms', k - 1);
      assert Drop(names[..n], k - 1) == Drop(names, k);
    }
  }

  lemma {:induction false} MemberLeaves(t: Tab, x: Name, stacks: nat, s: Stmt, nl: nat, ns: nat)
    requires SourceStmt(s) && HgrMember(t, stacks, s, nl, ns).OkList?
    ensures Leaves(t, HgrMember(t, stacks, s, nl, ns).t, NamesBy(s), x, MarksBy(s, x))
    decreases s
  {
    hide HandleDecls, HgrScope, Leaves, LeftNames, LeftMarks, HgrExpr;
    match s
    case Static(ds) => DeclsLeave(t, x, stacks, ds);
    case Block(body) => ScopeLeaves(t, x, stacks, body);
    case If(_, thn, els) =>
      ScopeLeaves(t, x, stacks, thn);
      var t1 := HgrScope(t, stacks, thn).t;
      ScopeLeaves(t1, x, stacks, els);
      LeavesTrans(t, t1, HgrScope(t1, stacks, els).t, LeftNames(thn), LeftNames(els), x, LeftMarks(thn, x), LeftMarks(els, x));
    case While(_, body) => ScopeLeaves(t, x, stacks, body);
    case Auto(ds) => LeavesNothing(t, HgrMember(t, stacks, s, nl, ns).t, x);
    case Assign(_, _) => LeavesNothing(t, t, x);
    case Store(_, _) => LeavesNothing(t, t, x);
    case Call(_, _) => LeavesNothing(t, t, x);
  }

  lemma {:induction false} ListLeaves(t: Tab, x: Name, stacks: nat, ss: List<Stmt>, nl: nat, ns: nat)
    requires SourceStmts(ss) && HgrList(t, stacks, ss, nl, ns).OkList?
    ensures Leaves(t, HgrList(t, stacks, ss, nl, ns).t, NamesList(ss), x, MarksList(ss, x))
    decreases ss, 0
  {
    hide HgrMember, Leaves, NamesBy, MarksBy;
    match ss
    case Nil => LeavesNothing(t, t, x);
    case Cons(s, rest) =>
      MemberLeaves(t, x, stacks, s, nl, ns);
      var r := HgrMember(t, stacks, s, nl, ns);
      ListLeaves(r.t, x, stacks, rest, r.numLocals, r.numStatics);
      LeavesTrans(t, r.t, HgrList(r.t, stacks, rest, r.numLocals, r.numStatics).t,
                  NamesBy(s), NamesList(rest), x, MarksBy(s, x), MarksList(rest, x));
  }

  /**
   Over every scope of every program: what the list of statics and the entry of each name
   gain is a function of the text alone, whatever the tables held before.
   */
  lemma {:induction false} ScopeLeaves(t: Tab, x: Name, stacks: nat, ss: List<Stmt>)
    requires SourceStmts(ss) && HgrScope(t, stacks, ss).Ok?
    ensures Leaves(t, HgrScope(t, stacks, ss).t, LeftNames(ss), x, LeftMarks(ss, x))
    decreases ss, 1
  {
    hide HgrList, NamesList, MarksList, PopStatics, Topped, PopMarks, Times, StaticsOf, Leak, LastSize;
    ListLeaves(t, x, stacks, ss, 0, 0);
    ListStaticsCount(t, stacks, ss, 0, 0);
    NamesOfList(ss);
    CountedList(ss, x);
    var r := HgrList(t, stacks, ss, 0, 0);
    var t1 := r.t.(locals := r.t.locals[..|r.t.locals| - r.numLocals]);
    PopLeaves(t, t1, NamesList(ss), x, MarksList(ss, x), LastSize(ss, 0));
  }

  /**
   After a function body a function or an enumerator is still known as one exactly if
   no static of that name is declared in it, at any depth and in any arrangement.
   */
  lemma KindSurvivesIff(t: Tab, stacks: nat, body: List<Stmt>, f: Name, kind: SymKind)
    requires kind != SVariable && BackIs(t.syms, f, kind)
    requires SourceStmts(body) && HgrScope(t, stacks, body).Ok?
    ensures BackIs(HgrScope(t, stacks, body).t.syms, f, kind) <==> StaticsOf(body, f) == 0
  {
    hide HgrScope, LeftMarks, LeftNames, StaticsOf;
    ScopeLeaves(t, f, stacks, body);
    SomethingLeftIff(body, f);
    var e, e' := Entry(t.syms, f), Entry(HgrScope(t, stacks, body).t.syms, f);
    if LeftMarks(body, f) == [] {
      assert e' == e;
    } else {
      assert Marked(e'[|e'| - 1], LeftMarks(body, f)[|e'| - 1 - |e|], t.next, HgrScope(t, stacks, body).t.next);
    }
  }

  /** A scope that does not declare a name leaves its entry alone. */
  lemma EntryUntouched(t: Tab, stacks: nat, ss: List<Stmt>, x: Name)
    requires SourceStmts(ss) && HgrScope(t, stacks, ss).Ok? && x !in NamesIn(ss)
    ensures Entry(HgrScope(t, stacks, ss).t.syms, x) == Entry(t.syms, x)
  {
    hide HgrScope, LeftMarks, LeftNames, StaticsOf;
    ScopeLeaves(t, x, stacks, ss);
    Undeclared(ss, x);
    SomethingLeftIff(ss, x);
  }

  // ----- array numbers are new -----

  ghost predicate Below(e: seq<Symbol>, next: nat) {
    forall i :: 0 <= i < |e| && e[i].mangled.PtrName? ==> e[i].mangled.n < next
  }

  /** Every array number in the table has been given out. */
  ghost predicate NumbersBelow(t: Tab) {
    forall x: Name :: Below(Entry(t.syms, x), t.next)
  }

  lemma ToppedBelow(e: seq<Symbol>, e': seq<Symbol>, ms: seq<Mark>, lo: nat, hi: nat)
    requires Below(e, lo) && Topped(e, e', ms, lo, hi) && lo <= hi
    ensures Below(e', hi)
  {
    forall i | 0 <= i < |e'| && e'[i].mangled.PtrName? ensures e'[i].mangled.n < hi {
      if i < |e| {
        assert e'[i] == e[i];
      } else {
        assert Marked(e'[i], ms[i - |e|], lo, hi);
      }
    }
  }

  lemma ScopeKeepsNumbers(t: Tab, stacks: nat, ss: List<Stmt>)
    requires NumbersBelow(t) && SourceStmts(ss) && HgrScope(t, stacks, ss).Ok?
    ensures NumbersBelow(HgrScope(t, stacks, ss).t)
  {
    hide HgrScope, LeftMarks, LeftNames, Topped, Below;
    var t' := HgrScope(t, stacks, ss).t;
    forall x: Name ensures Below(Entry(t'.syms, x), t'.next) {
      ScopeLeaves(t, x, stacks, ss);
      ToppedBelow(Entry(t.syms, x), Entry(t'.syms, x), LeftMarks(ss, x), t.next, t'.next);
    }
  }

  lemma DeclKeepsNumbers(t: Tab, stacks: nat, d: StaticDecl)
    requires NumbersBelow(t) && HandleDecl(t, stacks, d, false).Ok?
    ensures NumbersBelow(HandleDecl(t, stacks, d, false).t)
  {
    var t' := HandleDecl(t, stacks, d, false).t;
    forall x: Name ensures Below(Entry(t'.syms, x), t'.next) {
      assert Below(Entry(t.syms, x), t.next);
    }
  }

  lemma {:induction false} DeclsKeepNumbers(t: Tab, stacks: nat, ds: List<StaticDecl>)
    requires NumbersBelow(t) && HandleDecls(t, stacks, ds, false).Ok?
    ensures NumbersBelow(HandleDecls(t, stacks, ds, false).t)
    decreases ds
  {
    hide NumbersBelow, HandleDecl;
    match ds
    case Nil =>
    case Cons(d, rest) =>
      DeclKeepsNumbers(t, stacks, d);
      DeclsKeepNumbers(HandleDecl(t, stacks, d, false).t, stacks, rest);
  }

  lemma PushKeepsNumbers(t: Tab, t': Tab, x: Name, s: Symbol)
    requires NumbersBelow(t) && s.mangled == Unmangled && t'.next == t.next
    requires t'.syms == t.syms || t'.syms == Push(t.syms, x, s)
    ensures NumbersBelow(t')
  {
    forall y: Name ensures Below(Entry(t'.syms, y), t'.next) {
      assert Below(Entry(t.syms, y), t.next);
    }
  }

  lemma TopKeepsNumbers(t: Tab, stacks: nat, top: Top)
    requires NumbersBelow(t) && SourceTops(Cons(top, Nil)) && HgrTop(t, stacks, top).Ok?
    ensures NumbersBelow(HgrTop(t, stacks, top).t)
  {
    var t' := HgrTop(t, stacks, top).t;
    match top
    case Global(ds) =>
      hide NumbersBelow;
      DeclsKeepNumbers(t, stacks, ds);
    case EnumConst(x, _) =>
      hide NumbersBelow;
      PushKeepsNumbers(t, t', x, Symbol(SEnum, Unmangled));
    case Proto(f) =>
      hide NumbersBelow;
      PushKeepsNumbers(t, t', f, Symbol(SFunction, Unmangled));
    case Func(f, ps, body) =>
      hide HgrScope;
      var t1 := Tab(ParamNames(ps), [], DefineFunction(t.syms, f).value, t.next);
      PushKeepsNumbers(t, t1, f, Symbol(SFunction, Unmangled));
      ScopeKeepsNumbers(t1, stacks, body);
      var t2 := HgrScope(t1, stacks, body).t;
      assert forall x: Name :: Below(Entry(t2.syms, x), t2.next) ==> Below(Entry(t'.syms, x), t'.next);
  }

  /** So it is at every point of every file. */
  lemma {:induction false} TopsKeepNumbers(t: Tab, stacks: nat, ts: List<Top>)
    requires NumbersBelow(t) && SourceTops(ts) && HgrTops(t, stacks, ts).Ok?
    ensures NumbersBelow(HgrTops(t, stacks, ts).t)
    decreases ts
  {
    hide NumbersBelow, HgrTop;
    match ts
    case Nil =>
    case Cons(top, rest) =>
      TopKeepsNumbers(t, stacks, top);
      TopsKeepNumbers(HgrTop(t, stacks, top).t, stacks, rest);
  }

  // ----- every lookup -----

  /** The last mangled symbol that is left, if one is. */
  function LastMark(ms: seq<Mark>): Mark {
    if ms == [] then Bare
    else if ms[|ms| - 1] != Bare then ms[|ms| - 1]
    else LastMark(ms[..|ms| - 1])
  }

  lemma {:induction false} LatestTopped(e: seq<Symbol>, e': seq<Symbol>, ms: seq<Mark>, lo: nat, hi: nat)
    requires Topped(e, e', ms, lo, hi)
    ensures match LastMark(ms)
            case Bare => Latest(e') == Latest(e)
            case Scalar => Latest(e') == ArrName
            case Pointer => Latest(e').PtrName? && lo <= Latest(e').n
    decreases |ms|
  {
    if ms == [] {
      assert e' == e;
    } else {
      var n := |e'| - 1;
      assert Marked(e'[n], ms[n - |e|], lo, hi);
      assert ms[n - |e|] == ms[|ms| - 1];
      if ms[|ms| - 1] == Bare {
        assert Topped(e, e'[..n], ms[..|ms| - 1], lo, hi);
        LatestTopped(e, e'[..n], ms[..|ms| - 1], lo, hi);
      }
    }
  }

  lemma {:induction false} LatestBelow(e: seq<Symbol>, next: nat)
    requires Below(e, next)
    ensures Latest(e).PtrName? ==> Latest(e).n < next
    decreases |e|
  {
    if e != [] {
      LatestBelow(e[..|e| - 1], next);
    }
  }

  /** No mangled symbol is left, or the last one has the name that was the answer before. */
  predicate SameAnswer(ss: List<Stmt>, x: Name, before: Mangled) {
    var m := LastMark(LeftMarks(ss, x));
    m == Bare || (m == Scalar && before == ArrName)
  }

  /** The latest mangled symbol of a name after any scope is the one before it exactly under this condition on the text. */
  lemma LatestSurvivesIff(t: Tab, stacks: nat, ss: List<Stmt>, x: Name)
    requires SourceStmts(ss) && HgrScope(t, stacks, ss).Ok? && Below(Entry(t.syms, x), t.next)
    ensures var t' := HgrScope(t, stacks, ss).t;
            Latest(Entry(t'.syms, x)) == Latest(Entry(t.syms, x)) <==> SameAnswer(ss, x, Latest(Entry(t.syms, x)))
  {
    hide HgrScope, LeftMarks, LeftNames, Topped, Below, LastMark;
    var t' := HgrScope(t, stacks, ss).t;
    ScopeLeaves(t, x, stacks, ss);
    LatestTopped(Entry(t.syms, x), Entry(t'.syms, x), LeftMarks(ss, x), t.next, t'.next);
    LatestBelow(Entry(t.syms, x), t.next);
  }

  /** What the text says about a reference to `x` behind the scope. */
  predicate ReferenceKept(t: Tab, ss: List<Stmt>, x: Name) {
    || x in t.locals
    || StaticsOf(ss, x) == 0
    || (Rewritten(t, x) && SameAnswer(ss, x, Latest(Entry(t.syms, x))))
  }

  lemma NotListed(t: Tab, t': Tab, names: seq<Name>, x: Name)
    requires t'.statics == t.statics + names && Times(names, x) == 0
    ensures x in t'.statics <==> x in t.statics
  {
    InTimes(names, x);
  }

  lemma {:induction false} InTimes(names: seq<Name>, x: Name)
    ensures x in names <==> Times(names, x) > 0
    decreases |names|
  {
    if names != [] {
      var n := |names| - 1;
      assert names == names[..n] + [names[n]];
      InTimes(names[..n], x);
    }
  }

  /**
   Exactly when a reference behind a scope becomes what it would have become in front of it,
   for every scope of every program.
   */
  lemma ReferenceSurvivesIff(t: Tab, stacks: nat, ss: List<Stmt>, x: Name)
    requires SourceStmts(ss) && HgrScope(t, stacks, ss).Ok? && Below(Entry(t.syms, x), t.next)
    ensures var t' := HgrScope(t, stacks, ss).t;
            HgrLval(t', Id(x)) == HgrLval(t, Id(x)) <==> ReferenceKept(t, ss, x)
  {
    hide HgrScope, LeftMarks, LeftNames, Below, SameAnswer, StaticsOf, Latest, Times;
    var t' := HgrScope(t, stacks, ss).t;
    ScopeLeaves(t, x, stacks, ss);
    SomethingLeftIff(ss, x);
    LatestSurvivesIff(t, stacks, ss, x);
    if StaticsOf(ss, x) == 0 {
      UnnamedScope(ss, x);
      NotListed(t, t', LeftNames(ss), x);
      assert Entry(t'.syms, x) == Entry(t.syms, x);
    } else {
      var e, e' := Entry(t.syms, x), Entry(t'.syms, x);
      assert Marked(e'[|e'| - 1], LeftMarks(ss, x)[|e'| - 1 - |e|], t.next, t'.next);
      assert x !in t.locals ==> Rewritten(t', x);
    }
  }

  /** The same for all names at once: then the scope has left no trace in the text behind it. */
  lemma AllReferencesSurviveIff(t: Tab, stacks: nat, ss: List<Stmt>)
    requires SourceStmts(ss) && HgrScope(t, stacks, ss).Ok? && NumbersBelow(t)
    ensures var t' := HgrScope(t, stacks, ss).t;
            (forall x: Name :: HgrLval(t', Id(x)) == HgrLval(t, Id(x))) <==> (forall x: Name :: ReferenceKept(t, ss, x))
  {
    var t' := HgrScope(t, stacks, ss).t;
    assert forall x: Name :: Below(Entry(t.syms, x), t.next);
    hide HgrScope, Below, HgrLval, ReferenceKept, SourceStmts, Entry;
    if x: Name :| !ReferenceKept(t, ss, x) {
      assert Below(Entry(t.syms, x), t.next);
      ReferenceSurvivesIff(t, stacks, ss, x);
      assert HgrLval(t', Id(x)) != HgrLval(t, Id(x));
    } else {
      forall x: Name ensures HgrLval(t', Id(x)) == HgrLval(t, Id(x)) {
        assert Below(Entry(t.syms, x), t.next);
        ReferenceSurvivesIff(t, stacks, ss, x);
      }
    }
  }

  // ----- lists with two static declarations -----

  lemma {:induction false} OthersPopped(names: seq<Name>, ms: seq<Mark>, x: Name, before: seq<Name>, k: nat)
    requires k <= |names| && Times(names, x) == 0
    ensures PopMarks(before + names, ms, x, k) == ms
    decreases k
  {
    if k > 0 {
      var n := |names| - 1;
      assert (before + names)[..|before + names| - 1] == before + names[..n];
      OthersPopped(names[..n], ms, x, before, k - 1);
    }
  }

  /** The first of two static declarations in a list is never popped: all its symbols stay. */
  lemma OverwrittenStays(ds: List<StaticDecl>, rest: List<Stmt>, x: Name)
    requires !NoStaticHere(rest) && StaticsOf(rest, x) == 0
    ensures LeftMarks(Cons(Static(ds), rest), x) == MarksOfDecls(ds, x)
  {
    var ss, ms := Cons(Static(ds), rest), MarksOfDecls(ds, x);
    hide NamesList, MarksList, PopMarks, Times, LastSize, Leak, StaticsOf;
    UnnamedList(rest, x);
    CountedList(rest, x);
    NamesOfList(rest);
    LastSizeIgnores(rest, if ds.Cons? then Size(ds) else 0, 0);
    TextCons(ds, rest, x);
    assert ms + [] == ms;
    OthersPopped(NamesList(rest), ms, x, StaticNames(ds), LastSize(ss, 0));
  }

  lemma TextCons(ds: List<StaticDecl>, rest: List<Stmt>, x: Name)
    ensures var ss := Cons(Static(ds), rest);
            && NamesList(ss) == StaticNames(ds) + NamesList(rest) && MarksList(ss, x) == MarksOfDecls(ds, x) + MarksList(rest, x)
            && LastSize(ss, 0) == LastSize(rest, if ds.Cons? then Size(ds) else 0)
  {
  }

  // ----- lists with at most one -----

  lemma {:induction false} NoStaticNames(ss: List<Stmt>)
    requires NoStaticHere(ss)
    ensures NamesHere(ss) == []
  {
    match ss
    case Nil =>
    case Cons(_, rest) => NoStaticNames(rest);
  }

  /** Nothing but the names of the list itself is on the list of statics at its end. */
  lemma {:induction false} NamesAreHere(ss: List<Stmt>)
    requires OneStatic(ss)
    ensures NamesList(ss) == NamesHere(ss)
    decreases ss
  {
    match ss
    case Nil =>
    case Cons(s, rest) =>
      NamesAreHere(rest);
      NothingNested(s);
  }

  lemma NothingNested(s: Stmt)
    requires OneStatic(Cons(s, Nil))
    ensures NamesBy(s) == NamesOf(s)
  {
    hide NamesList, LeftNames, Leak;
    match s
    case Block(body) => LeakIff(body); NamesOfScope(body);
    case If(_, thn, els) => LeakIff(thn); LeakIff(els); NamesOfScope(thn); NamesOfScope(els);
    case While(_, body) => LeakIff(body); NamesOfScope(body);
    case _ =>
  }

  lemma {:induction false} HereAtOnce(ss: List<Stmt>, x: Name)
    requires OneStatic(ss) && DistinctDecls(ss)
    ensures Times(NamesHere(ss), x) == if x in NamesHere(ss) then 1 else 0
    decreases ss
  {
    match ss
    case Nil =>
    case Cons(s, rest) =>
      if IsStatic(s) {
        NoStaticNames(rest);
        assert NamesHere(ss) == StaticNames(s.statics);
        OnceInDistinct(StaticNames(s.statics), x);
      } else {
        assert NamesHere(ss) == NamesHere(rest);
        HereAtOnce(rest, x);
      }
  }

  lemma {:induction false} OnceInDistinct(names: seq<Name>, x: Name)
    requires Distinct(names)
    ensures Times(names, x) == if x in names then 1 else 0
    decreases |names|
  {
    if names != [] {
      var n := |names| - 1;
      assert names == names[..n] + [names[n]];
      OnceInDistinct(names[..n], x);
    }
  }

  lemma {:induction false} PopAllMarks(names: seq<Name>, ms: seq<Mark>, x: Name)
    requires |ms| >= Times(names, x)
    ensures PopMarks(names, ms, x, |names|) == Drop(ms, Times(names, x))
    decreases |names|
  {
    if names != [] {
      var n := |names| - 1;
      PopAllMarks(names[..n], if names[n] == x then Drop(ms, 1) else ms, x);
    }
  }

  /** So a scope takes one symbol off each name that it declares itself. */
  lemma OnePopped(ss: List<Stmt>, x: Name)
    requires OneStatic(ss) && DistinctDecls(ss)
    ensures LeftMarks(ss, x) == Drop(MarksList(ss, x), if x in NamesHere(ss) then 1 else 0)
  {
    hide MarksList, NamesHere, StaticsOf, Leak, OneStatic, DistinctDecls, Times, LastSize;
    NamesAreHere(ss);
    HereAtOnce(ss, x);
    CountedList(ss, x);
    NamesOfList(ss);
    LeakIff(ss);
    hide NamesList;
    PopAllMarks(NamesHere(ss), MarksList(ss, x), x);
  }

  lemma {:induction false} LastMarkAppend(p: seq<Mark>, q: seq<Mark>)
    ensures LastMark(p + q) == if LastMark(q) == Bare then LastMark(p) else LastMark(q)
    decreases |q|
  {
    if q == [] {
      assert p + q == p;
    } else {
      assert (p + q)[..|p + q| - 1] == p + q[..|q| - 1];
      LastMarkAppend(p, q[..|q| - 1]);
    }
  }

  lemma {:induction false} MarksOnce(ds: List<StaticDecl>, x: Name)
    requires Distinct(StaticNames(ds)) && x in StaticNames(ds)
    ensures |MarksOfDecls(ds, x)| == 2 && MarksOfDecls(ds, x)[0] == Bare && MarksOfDecls(ds, x)[1] != Bare
  {
    match ds
    case Cons(d, rest) =>
      assert forall i :: 0 <= i < |StaticNames(rest)| ==> StaticNames(rest)[i] == StaticNames(ds)[i + 1];
      assert StaticNames(ds)[0] == d.x;
      if d.x != x {
        MarksOnce(rest, x);
      } else {
        DeclsCounted(rest, x);
        OnceInDistinct(StaticNames(rest), x);
      }
  }

  lemma {:induction false} NoneIsNeverNested(ss: List<Stmt>, x: Name)
    requires StaticsOf(ss, x) == 0
    ensures NeverNested(ss, x)
    decreases ss
  {
    match ss
    case Nil =>
    case Cons(s, rest) =>
      NoneIsNeverNested(rest, x);
      match s {
        case Block(body) => NoneIsNeverNested(body, x);
        case If(_, thn, els) => NoneIsNeverNested(thn, x); NoneIsNeverNested(els, x);
        case While(_, body) => NoneIsNeverNested(body, x);
        case _ =>
      }
  }

  /** The pop takes the mangled symbol off the declaration in front exactly if nothing else came on top of it. */
  lemma MangledLast(p: seq<Mark>, q: seq<Mark>)
    requires |p| == 2 && p[0] == Bare && p[1] != Bare
    ensures LastMark(Drop(p + q, 1)) == Bare <==> q == []
  {
    if q == [] {
      assert Drop(p + q, 1) == [Bare];
      assert [Bare][..0] == [];
    } else {
      assert Drop(p + q, 1) == p + q[..|q| - 1];
      LastMarkAppend(p, q[..|q| - 1]);
    }
  }

  lemma NamedIff(ds: List<StaticDecl>, x: Name)
    ensures x in StaticNames(ds) <==> DeclaratorsOf(ds, x) > 0
    ensures x !in StaticNames(ds) ==> MarksOfDecls(ds, x) == []
  {
    DeclsCounted(ds, x);
    InTimes(StaticNames(ds), x);
  }

  lemma DeclaredHereIff(ds: List<StaticDecl>, rest: List<Stmt>, x: Name)
    requires var ss := Cons(Static(ds), rest);
             x in StaticNames(ds) && OneStatic(ss) && DistinctDecls(ss)
    ensures var ss := Cons(Static(ds), rest);
            LastMark(LeftMarks(ss, x)) == Bare <==> NeverNested(ss, x)
  {
    var ss := Cons(Static(ds), rest);
    OnePopped(ss, x);
    MarksOnce(ds, x);
    NamedIff(ds, x);
    assert NamesHere(ss) == StaticNames(ds) + NamesHere(rest);
    assert MarksList(ss, x) == MarksOfDecls(ds, x) + MarksList(rest, x);
    assert NeverNested(ss, x) <==> NeverNested(rest, x) && StaticsOf(rest, x) == 0;
    hide LastMark, OneStatic, DistinctDecls, MarksOfDecls, StaticNames, MarksList, NeverNested, LeftMarks, StaticsOf;
    MangledLast(MarksOfDecls(ds, x), MarksList(rest, x));
    ListLeftIff(rest, x);
    if StaticsOf(rest, x) == 0 {
      NoneIsNeverNested(rest, x);
    }
  }

  lemma ListLeftIff(ss: List<Stmt>, x: Name)
    ensures MarksList(ss, x) == [] <==> StaticsOf(ss, x) == 0
  {
    hide MarksList, StaticsOf, Times;
    CountedList(ss, x);
    if StaticsOf(ss, x) == 0 {
      UnnamedList(ss, x);
    }
  }

  /** Behind a statement that does not declare `x` itself. */
  lemma LeftCons(s: Stmt, rest: List<Stmt>, x: Name)
    requires x !in NamesOf(s) && OneStatic(Cons(s, rest)) && DistinctDecls(Cons(s, rest))
    ensures LeftMarks(Cons(s, rest), x) == MarksBy(s, x) + LeftMarks(rest, x)
  {
    var ss := Cons(s, rest);
    OnePopped(ss, x);
    OnePopped(rest, x);
    assert NamesHere(ss) == NamesOf(s) + NamesHere(rest);
    assert MarksList(ss, x) == MarksBy(s, x) + MarksList(rest, x);
    if x in NamesHere(rest) {
      CountedList(rest, x);
      NamesAreHere(rest);
      InTimes(NamesHere(rest), x);
      assert MarksList(rest, x) != [];
    }
  }

  lemma {:induction false} NestedIn(s: Stmt, x: Name)
    requires OneStatic(Cons(s, Nil)) && DistinctDecls(Cons(s, Nil)) && x !in NamesOf(s)
    ensures LastMark(MarksBy(s, x)) == Bare <==> NeverNested(Cons(s, Nil), x)
    decreases s
  {
    hide LeftMarks, LastMark;
    match s
    case Static(ds) => NamedIff(ds, x); NoMark();
    case Block(body) => NestedIff(body, x);
    case If(_, thn, els) =>
      NestedIff(thn, x);
      NestedIff(els, x);
      LastMarkAppend(LeftMarks(thn, x), LeftMarks(els, x));
    case While(_, body) => NestedIff(body, x);
    case Auto(_) => NoMark();
    case Assign(_, _) => NoMark();
    case Store(_, _) => NoMark();
    case Call(_, _) => NoMark();
  }

  lemma NoMark()
    ensures LastMark([]) == Bare
  {
  }

  /** Where every list has at most one static declaration, no mangled symbol is left exactly if statics of the name never nest. */
  lemma {:induction false} NestedIff(ss: List<Stmt>, x: Name)
    requires OneStatic(ss) && DistinctDecls(ss)
    ensures LastMark(LeftMarks(ss, x)) == Bare <==> NeverNested(ss, x)
    decreases ss, 0
  {
    match ss
    case Nil =>
    case Cons(s, rest) =>
      if x in NamesOf(s) {
        DeclaredHereIff(s.statics, rest, x);
      } else {
        hide LeftMarks, LastMark, MarksBy;
        NestedIff(rest, x);
        NestedIn(s, x);
        LeftCons(s, rest, x);
        LastMarkAppend(MarksBy(s, x), LeftMarks(rest, x));
        NestedConsIff(s, rest, x);
      }
  }

  lemma NestedConsIff(s: Stmt, rest: List<Stmt>, x: Name)
    requires x !in NamesOf(s)
    ensures NeverNested(Cons(s, rest), x) <==> NeverNested(Cons(s, Nil), x) && NeverNested(rest, x)
  {
    if s.Static? { NamedIff(s.statics, x); }
  }

  /**
   Where every list has at most one static declaration, the latest mangled symbol of a name
   survives exactly if its statics never nest or what the nesting leaves has the old name.
   */
  lemma LookupSurvivesIff(t: Tab, stacks: nat, ss: List<Stmt>, x: Name)
    requires SourceStmts(ss) && OneStatic(ss) && DistinctDecls(ss)
    requires HgrScope(t, stacks, ss).Ok? && Below(Entry(t.syms, x), t.next)
    ensures var before, after := Latest(Entry(t.syms, x)), Latest(Entry(HgrScope(t, stacks, ss).t.syms, x));
            after == before <==>
              NeverNested(ss, x) || (LastMark(LeftMarks(ss, x)) == Scalar && before == ArrName)
  {
    hide HgrScope, LeftMarks, LastMark, Below, OneStatic, DistinctDecls;
    LatestSurvivesIff(t, stacks, ss, x);
    NestedIff(ss, x);
  }

  // ----- references, by the lists and symbols alone -----

  /** On every table: which references stay as they are, which stop the tool, and what becomes of the others. */
  lemma ReferenceOutcome(t: Tab, x: Name)
    ensures HgrLval(t, Id(x)) == Some(Id(x)) <==> NotOurs(t, x)
    ensures !NotOurs(t, x) ==>
              match Latest(Entry(t.syms, x))
              case Unmangled => HgrLval(t, Id(x)) == None
              case ArrName => HgrLval(t, Id(x)) == Some(Slot(x))
              case PtrName(n) => HgrLval(t, Id(x)) == Some(Through(x, n))
  {
    hide Latest;
  }

  /** The same of a reference in an initialiser. */
  lemma InitialiserOutcome(t: Tab, x: Name)
    ensures HgrInit(t, AddrOf(x)) == Some(Same(AddrOf(x))) <==> NotOurs(t, x)
    ensures !NotOurs(t, x) && Entry(t.syms, x) != [] ==>
              match Latest(Entry(t.syms, x))
              case Unmangled => HgrInit(t, AddrOf(x)) == None
              case ArrName => HgrInit(t, AddrOf(x)) == Some(SlotOf(x))
              case PtrName(_) => HgrInit(t, AddrOf(x)) == Some(InstOf(x))
  {
    hide Latest;
  }

  /** When a name can be entered at file level, and as what. */
  lemma DefinitionOutcome(syms: Symbols, x: Name)
    ensures DefineFunction(syms, x) == None <==> Entry(syms, x) != [] && !BackIs(syms, x, SFunction)
    ensures DefineFunction(syms, x).Some? ==>
              BackIs(DefineFunction(syms, x).value, x, SFunction)
              && forall y: Name :: y != x ==> Entry(DefineFunction(syms, x).value, y) == Entry(syms, y)
    ensures DefineVariable(syms, x, true, false) == None <==> Entry(syms, x) != [] && BackIs(syms, x, SFunction)
    ensures DefineVariable(syms, x, true, false).Some? ==> BackIs(DefineVariable(syms, x, true, false).value, x, SEnum)
  {
  }

  // ----- the error exit of a declarator -----

  /** The name is taken, and not by a variable. */
  predicate NotDefinable(t: Tab, x: Name, inFunc: bool) {
    Entry(t.syms, x) != [] && !inFunc && !VariableDeclared(t.syms, x)
  }

  /** The initialiser names a rewritten variable that has no mangled symbol when it is read; an array's own comes later. */
  predicate ReadsUnmangled(t: Tab, d: StaticDecl)
    requires d.PlainDecl?
  {
    && d.init.AddrOf?
    && var y := d.init.x;
       && Latest(Entry(t.syms, y)) == Unmangled
       && if y == d.x then d.isArray && y !in t.locals else y in t.syms && Rewritten(t, y)
  }

  lemma LatestOnTop(e: seq<Symbol>, s: Symbol)
    ensures Latest(e + [s]) == if s.mangled == Unmangled then Latest(e) else s.mangled
  {
    assert (e + [s])[..|e|] == e;
  }

  /** A reference in an initialiser is an error exactly if it is rewritten and has no mangled symbol. */
  lemma InitFails(t: Tab, y: Name)
    ensures HgrInit(t, AddrOf(y)).None? <==> Rewritten(t, y) && y in t.syms && Latest(Entry(t.syms, y)) == Unmangled
  {
  }

  /** The table in which the initialiser is read. */
  function WhenRead(t: Tab, d: StaticDecl, inFunc: bool): Tab
    requires d.PlainDecl?
  {
    var syms := Push(t.syms, d.x, Symbol(SVariable, Unmangled));
    t.(syms := if d.isArray then syms else Push(syms, d.x, Symbol(SVariable, ArrName)),
       statics := if inFunc then t.statics + [d.x] else t.statics)
  }

  lemma ReadAs(t: Tab, d: StaticDecl, inFunc: bool, y: Name)
    requires d.PlainDecl?
    ensures var t' := WhenRead(t, d, inFunc);
            if y == d.x then
              (Rewritten(t', y) <==> y !in t.locals) && y in t'.syms
              && Latest(Entry(t'.syms, y)) == if d.isArray then Latest(Entry(t.syms, y)) else ArrName
            else
              (Rewritten(t', y) <==> Rewritten(t, y)) && (y in t'.syms <==> y in t.syms) && Entry(t'.syms, y) == Entry(t.syms, y)
  {
    hide Latest;
    var e, u := Entry(t.syms, d.x), Symbol(SVariable, Unmangled);
    LatestOnTop(e, u);
    LatestOnTop(e + [u], Symbol(SVariable, ArrName));
  }

  lemma DeclaratorReads(t: Tab, stacks: nat, d: StaticDecl, inFunc: bool)
    requires d.PlainDecl?
    ensures HandleDecl(t, stacks, d, inFunc).Exit? <==>
              NotDefinable(t, d.x, inFunc) || HgrInit(WhenRead(t, d, inFunc), d.init).None?
  {
    hide HgrInit, VariableDeclared;
  }

  /** One declarator stops the tool exactly in these two cases. */
  lemma DeclaratorExitsIff(t: Tab, stacks: nat, d: StaticDecl, inFunc: bool)
    ensures HandleDecl(t, stacks, d, inFunc).Exit? <==>
              d.PlainDecl? && (NotDefinable(t, d.x, inFunc) || ReadsUnmangled(t, d))
  {
    if d.PlainDecl? {
      DeclaratorReads(t, stacks, d, inFunc);
      if d.init.AddrOf? {
        ReadAs(t, d, inFunc, d.init.x);
        InitFails(WhenRead(t, d, inFunc), d.init.x);
      }
      hide HandleDecl, WhenRead, Rewritten, Latest, NotDefinable;
    }
  }
}
