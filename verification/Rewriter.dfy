module Rewriter {
  // The pass as the tool runs it: lists that are pushed and popped in place, a
  // symbol table that is updated in place, and loops over declarators, statements
  // and symbols.  Each method does what the function of the same step in `Tables`
  // says, so everything proved there holds of these methods.

  import opened Common
  import opened CLanguage
  import opened Tables

  /** The elements of `s` in front of `l`. */
  function Before<T>(s: seq<T>, l: List<T>): List<T>
    decreases |s|
  {
    if s == [] then l else Before(s[..|s| - 1], Cons(s[|s| - 1], l))
  }

  function PassBefore<T>(s: seq<T>, p: Pass<List<T>>): Pass<List<T>> {
    match p
    case Exit => Exit
    case Ok(t, text) => Ok(t, Before(s, text))
  }

  function ListBefore(s: seq<Stmt>, p: ListPass<List<Stmt>>): ListPass<List<Stmt>> {
    match p
    case ExitList => ExitList
    case OkList(t, text, nl, ns) => OkList(t, Before(s, text), nl, ns)
  }

  lemma NamesBehind(locals: seq<Name>, ds: List<AutoDecl>)
    requires ds.Cons?
    ensures locals + AutoNames(ds) == locals + [ds.head.x] + AutoNames(ds.tail)
  {
  }

  class Globaliser {
    const stacks: nat
    var locals: seq<Name>
    var staticLocals: seq<Name>
    var symbols: Symbols
    var arrayNumber: nat

    function State(): Tab
      reads this
    {
      Tab(locals, staticLocals, symbols, arrayNumber)
    }

    constructor (stacks: nat)
      ensures this.stacks == stacks && State() == NoTab
    {
      this.stacks := stacks;
      locals, staticLocals, symbols, arrayNumber := [], [], map[], 0;
    }

    /** The reverse walk over a list of symbols. */
    static method FindMangled(l: seq<Symbol>) returns (m: Mangled)
      ensures m == Latest(l)
      ensures m == Unmangled <==> forall i :: 0 <= i < |l| ==> l[i].mangled == Unmangled
      ensures m != Unmangled ==>
        exists i :: 0 <= i < |l| && l[i].mangled == m && forall j :: i < j < |l| ==> l[j].mangled == Unmangled
    {
      var n := |l|;
      assert l[..n] == l;
      while n > 0
        invariant 0 <= n <= |l|
        invariant Latest(l) == Latest(l[..n])
        invariant forall j :: n <= j < |l| ==> l[j].mangled == Unmangled
      {
        if l[n - 1].mangled != Unmangled {
          return l[n - 1].mangled;
        }
        assert l[..n][..n - 1] == l[..n - 1];
        n := n - 1;
      }
      m := Unmangled;
    }

    method IsRewritten(x: Name) returns (b: bool)
      ensures b == Rewritten(State(), x)
      ensures b <==> !NotOurs(State(), x)
    {
      if x in locals { return false; }
      var l := if x in symbols then symbols[x] else [];
      if l != [] && l[|l| - 1].kind == SFunction { return false; }
      if l != [] && l[|l| - 1].kind == SEnum { return false; }
      if x in staticLocals { return true; }
      b := l != [] && l[|l| - 1].kind != SFunction;
    }

    method HandleReference(lv: Lval) returns (r: Option<Lval>)
      ensures r == HgrLval(State(), lv)
      ensures lv.Id? ==> (r == Some(lv) <==> NotOurs(State(), lv.x))
    {
      if !lv.Id? { return Some(lv); }
      var b := IsRewritten(lv.x);
      if !b { return Some(lv); }
      var m := FindMangled(Entry(symbols, lv.x));
      match m
      case Unmangled => r := None;
      case ArrName => r := Some(Slot(lv.x));
      case PtrName(n) => r := Some(Through(lv.x, n));
    }

    method Expression(e: Expr) returns (r: Option<Expr>)
      ensures r == HgrExpr(State(), e)
    {
      match e
      case Lit(_) => r := Some(e);
      case Ref(lv) =>
        var l := HandleReference(lv);
        r := if l.None? then None else Some(Ref(l.value));
      case Addr(lv) =>
        var l := HandleReference(lv);
        r := if l.None? then None else Some(Addr(l.value));
      case Deref(p) =>
        var p' := Expression(p);
        r := if p'.None? then None else Some(Deref(p'.value));
      case Bin(op, l, rt) =>
        var l' := Expression(l);
        var r' := Expression(rt);
        r := if l'.None? || r'.None? then None else Some(Bin(op, l'.value, r'.value));
    }

    method Expressions(es: List<Expr>) returns (r: Option<List<Expr>>)
      ensures r == HgrExprs(State(), es)
      decreases es
    {
      match es
      case Nil => r := Some(Nil);
      case Cons(e, rest) =>
        var e' := Expression(e);
        var rest' := Expressions(rest);
        r := if e'.None? || rest'.None? then None else Some(Cons(e'.value, rest'.value));
    }

    method Initialiser(i: Init) returns (r: Option<Template>)
      ensures r == HgrInit(State(), i)
    {
      if !i.AddrOf? { return Some(Same(i)); }
      var b := IsRewritten(i.x);
      if !b { return Some(Same(i)); }
      if i.x !in symbols { return Some(InstOf(i.x)); }
      var m := FindMangled(symbols[i.x]);
      match m
      case Unmangled => r := None;
      case ArrName => r := Some(SlotOf(i.x));
      case PtrName(_) => r := Some(InstOf(i.x));
    }

    /** Text `r` and the new state are those of `p`; nothing is said once the tool exits. */
    ghost predicate Gives<T>(r: Option<T>, p: Pass<T>)
      reads this
    {
      match p
      case Exit => r.None?
      case Ok(t, text) => r == Some(text) && State() == t
    }

    method PushSymbol(x: Name, s: Symbol)
      modifies this`symbols
      ensures symbols == Push(old(symbols), x, s)
    {
      symbols := symbols[x := Entry(symbols, x) + [s]];
    }

    method Declarator(d: StaticDecl, inFunc: bool) returns (r: Option<StaticDecl>)
      modifies this
      ensures Gives(r, HandleDecl(old(State()), stacks, d, inFunc))
    {
      if !d.PlainDecl? { return Some(d); }
      if Entry(symbols, d.x) != [] && !inFunc && !VariableDeclared(symbols, d.x) { return None; }
      PushSymbol(d.x, Symbol(SVariable, Unmangled));
      if inFunc {
        staticLocals := staticLocals + [d.x];
      }
      if !d.isArray {
        PushSymbol(d.x, Symbol(SVariable, ArrName));
        var i := Initialiser(d.init);
        if i.None? { return None; }
        r := Some(ArrDecl(d.x, d.site, Copies(i.value, stacks)));
      } else {
        var i := Initialiser(d.init);
        if i.None? { return None; }
        var n := arrayNumber;
        arrayNumber := arrayNumber + 1;
        PushSymbol(d.x, Symbol(SVariable, PtrName(n)));
        r := Some(InstDecl(d.x, d.site, n, Copies(i.value, stacks)));
      }
    }

    method HandleGlobal(ds: List<StaticDecl>, inFunc: bool) returns (r: Option<List<StaticDecl>>)
      modifies this
      ensures Gives(r, HandleDecls(old(State()), stacks, ds, inFunc))
    {
      var rest, done := ds, [];
      while rest.Cons?
        invariant HandleDecls(old(State()), stacks, ds, inFunc) == PassBefore(done, HandleDecls(State(), stacks, rest, inFunc))
        decreases rest
      {
        var d := Declarator(rest.head, inFunc);
        if d.None? { return None; }
        done, rest := done + [d.value], rest.tail;
      }
      r := Some(Before(done, Nil));
    }

    /** All declarators are pushed before any initialiser is visited. */
    method AddLocals(ds: List<AutoDecl>) returns (count: nat)
      modifies this`locals
      ensures locals == old(locals) + AutoNames(ds) && count == |AutoNames(ds)|
    {
      var rest := ds;
      count := 0;
      while rest.Cons?
        invariant locals + AutoNames(rest) == old(locals) + AutoNames(ds)
        invariant count + |AutoNames(rest)| == |AutoNames(ds)|
        decreases rest
      {
        NamesBehind(locals, rest);
        locals := locals + [rest.head.x];
        count, rest := count + 1, rest.tail;
      }
    }

    method AutoInitialisers(ds: List<AutoDecl>) returns (r: Option<List<AutoDecl>>)
      ensures r == HgrAutos(State(), ds)
      decreases ds
    {
      match ds
      case Nil => r := Some(Nil);
      case Cons(d, rest) =>
        var rest' := AutoInitialisers(rest);
        if rest'.None? { return None; }
        if d.init.None? { return Some(Cons(d, rest'.value)); }
        var e := Expression(d.init.value);
        r := if e.None? then None else Some(Cons(AutoDecl(d.x, Some(e.value)), rest'.value));
    }

    /** The two pop loops at the end of a scope; `ok` is false where the tool's assertion would fail. */
    method LeaveScope(numLocals: nat, numStatics: nat) returns (ok: bool)
      requires numLocals <= |locals|
      modifies this
      ensures var p := PopStatics(old(State()).(locals := old(locals)[..old(|locals|) - numLocals]), numStatics);
              ok == p.Some? && (ok ==> State() == p.value)
    {
      var n := numLocals;
      while n > 0
        invariant 0 <= n <= numLocals && n <= |locals| && locals == old(locals)[..old(|locals|) - numLocals + n]
        invariant State() == old(State()).(locals := locals)
      {
        locals := locals[..|locals| - 1];
        n := n - 1;
      }
      ghost var start := State();
      assert start == old(State()).(locals := old(locals)[..old(|locals|) - numLocals]);
      var m := numStatics;
      while m > 0
        invariant 0 <= m
        invariant PopStatics(start, numStatics) == PopStatics(State(), m)
      {
        if staticLocals == [] { return false; }
        var x := staticLocals[|staticLocals| - 1];
        var l := Entry(symbols, x);
        if l == [] { return false; }
        symbols := symbols[x := l[..|l| - 1]];
        staticLocals := staticLocals[..|staticLocals| - 1];
        m := m - 1;
      }
      ok := true;
    }

    ghost predicate GivesMember<T>(r: Option<T>, nl: nat, ns: nat, p: ListPass<T>)
      reads this
    {
      match p
      case ExitList => r.None?
      case OkList(t, text, nl', ns') => r == Some(text) && State() == t && nl == nl' && ns == ns'
    }

    method Member(s: Stmt, numLocals: nat, numStatics: nat) returns (r: Option<Stmt>, nl: nat, ns: nat)
      modifies this
      ensures GivesMember(r, nl, ns, HgrMember(old(State()), stacks, s, numLocals, numStatics))
      decreases s
    {
      r, nl, ns := None, numLocals, numStatics;
      match s
      case Auto(ds) =>
        var count := AddLocals(ds);
        nl := nl + count;
        var ds' := AutoInitialisers(ds);
        if ds'.Some? { r := Some(Auto(ds'.value)); }
      case Static(ds) =>
        var oldSize := |staticLocals|;
        var ds' := HandleGlobal(ds, true);
        if ds'.Some? {
          r := Some(Static(ds'.value));
          if ds.Cons? { ns := |staticLocals| - oldSize; }
        }
      case Assign(lv, e) =>
        var lv' := HandleReference(lv);
        var e' := Expression(e);
        if lv'.Some? && e'.Some? { r := Some(Assign(lv'.value, e'.value)); }
      case Store(p, e) =>
        var p' := Expression(p);
        var e' := Expression(e);
        if p'.Some? && e'.Some? { r := Some(Store(p'.value, e'.value)); }
      case Call(f, args) =>
        var f' := HandleReference(f);
        var args' := Expressions(args);
        if f'.Some? && args'.Some? { r := Some(Call(f'.value, args'.value)); }
      case Block(body) =>
        var body' := Scope(body);
        if body'.Some? { r := Some(Block(body'.value)); }
      case If(c, thn, els) =>
        var c' := Expression(c);
        var thn' := Scope(thn);
        if c'.Some? && thn'.Some? {
          var els' := Scope(els);
          if els'.Some? { r := Some(If(c'.value, thn'.value, els'.value)); }
        }
      case While(c, body) =>
        var c' := Expression(c);
        var body' := Scope(body);
        if c'.Some? && body'.Some? { r := Some(While(c'.value, body'.value)); }
    }

    /** A nested statement list; afterwards `locals` is what it was. */
    method Scope(ss: List<Stmt>) returns (r: Option<List<Stmt>>)
      modifies this
      ensures Gives(r, HgrScope(old(State()), stacks, ss))
      ensures r.Some? ==> locals == old(locals)
      decreases ss
    {
      hide HgrMember, PopStatics;
      var rest, done, nl, ns := ss, [], 0, 0;
      while rest.Cons?
        invariant rest == ss || rest < ss
        invariant HgrList(old(State()), stacks, ss, 0, 0) == ListBefore(done, HgrList(State(), stacks, rest, nl, ns))
        decreases rest
      {
        var s;
        s, nl, ns := Member(rest.head, nl, ns);
        if s.None? { return None; }
        done, rest := done + [s.value], rest.tail;
      }
      var ok := LeaveScope(nl, ns);
      r := if ok then Some(Before(done, Nil)) else None;
    }

    method DefineFn(f: Name) returns (ok: bool)
      modifies this`symbols
      ensures var p := DefineFunction(old(symbols), f);
              ok == p.Some? && (ok ==> symbols == p.value)
    {
      var l := Entry(symbols, f);
      if l == [] {
        PushSymbol(f, Symbol(SFunction, Unmangled));
        return true;
      }
      ok := l[|l| - 1].kind == SFunction;
    }

    method TopLevel(top: Top) returns (r: Option<Top>)
      modifies this
      ensures Gives(r, HgrTop(old(State()), stacks, top))
    {
      match top
      case Global(ds) =>
        var ds' := HandleGlobal(ds, false);
        r := if ds'.None? then None else Some(Global(ds'.value));
      case EnumConst(x, _) =>
        if Entry(symbols, x) != [] && !VariableDeclared(symbols, x) { return None; }
        PushSymbol(x, Symbol(SEnum, Unmangled));
        r := Some(top);
      case Proto(f) =>
        var ok := DefineFn(f);
        r := if ok then Some(top) else None;
      case Func(f, ps, body) =>
        var ok := DefineFn(f);
        if !ok { return None; }
        var outerLocals, outerStatics := locals, staticLocals;
        locals, staticLocals := ParamNames(ps), [];
        var body' := Scope(body);
        if body'.None? { return None; }
        locals, staticLocals := outerLocals, outerStatics;
        r := Some(Func(f, ps, body'.value));
    }

    method TranslationUnit(ts: List<Top>) returns (r: Option<List<Top>>)
      modifies this
      ensures Gives(r, HgrTops(old(State()), stacks, ts))
    {
      var rest, done := ts, [];
      while rest.Cons?
        invariant HgrTops(old(State()), stacks, ts) == PassBefore(done, HgrTops(State(), stacks, rest))
        decreases rest
      {
        var t := TopLevel(rest.head);
        if t.None? { return None; }
        done, rest := done + [t.value], rest.tail;
      }
      r := Some(Before(done, Nil));
    }
  }
}
