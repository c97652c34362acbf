module Tables {
  // The globaliser's pass over a file: the shadowing lists, the symbol table and
  // the recursive rewriting, as the tool performs them.  Functions here follow the
  // tool step by step; `Rewriter` runs them on mutable state and `ScopeDiscipline`
  // relates them to C's scope rules.

  import opened Common
  import opened CLanguage

  datatype SymKind = SVariable | SFunction | SEnum

  /** The mangled identifier stored with a symbol, if one is stored. */
  datatype Mangled = Unmangled | ArrName | PtrName(n: nat)

  datatype Symbol = Symbol(kind: SymKind, mangled: Mangled)

  type Symbols = map<Name, seq<Symbol>>

  datatype Tab = Tab(locals: seq<Name>, statics: seq<Name>, syms: Symbols, next: nat)

  /** Either the new tables and the rewritten text, or the error exit of the tool. */
  datatype Pass<T> = Exit | Ok(t: Tab, text: T)

  // ----- symbol table -----

  function Entry(syms: Symbols, x: Name): seq<Symbol> {
    if x in syms then syms[x] else []
  }

  predicate BackIs(syms: Symbols, x: Name, kind: SymKind) {
    var l := Entry(syms, x);
    l != [] && l[|l| - 1].kind == kind
  }

  /** Enumerators count as variables here. */
  predicate VariableDeclared(syms: Symbols, x: Name) {
    BackIs(syms, x, SVariable) || BackIs(syms, x, SEnum)
  }

  /** The most recent mangled identifier in a list of symbols. */
  function Latest(l: seq<Symbol>): Mangled {
    if l == [] then Unmangled
    else if l[|l| - 1].mangled != Unmangled then l[|l| - 1].mangled
    else Latest(l[..|l| - 1])
  }

  function Push(syms: Symbols, x: Name, s: Symbol): Symbols {
    syms[x := Entry(syms, x) + [s]]
  }

  function DefineVariable(syms: Symbols, x: Name, isEnum: bool, isStaticLocal: bool): Option<Symbols> {
    if Entry(syms, x) != [] && !isStaticLocal && !VariableDeclared(syms, x) then None
    else Some(Push(syms, x, Symbol(if isEnum then SEnum else SVariable, Unmangled)))
  }

  function DefineFunction(syms: Symbols, f: Name): Option<Symbols> {
    if Entry(syms, f) == [] then Some(Push(syms, f, Symbol(SFunction, Unmangled)))
    else if BackIs(syms, f, SFunction) then Some(syms)
    else None
  }

  // ----- references -----

  predicate LastIs(t: Tab, x: Name, kind: SymKind) {
    var l := Entry(t.syms, x);
    l != [] && l[|l| - 1].kind == kind
  }

  /** A listed automatic, a function, an enumerator, or a name that neither list nor table knows. */
  predicate NotOurs(t: Tab, x: Name) {
    || x in t.locals
    || LastIs(t, x, SFunction) || LastIs(t, x, SEnum)
    || (x !in t.statics && Entry(t.syms, x) == [])
  }

  predicate Rewritten(t: Tab, x: Name) {
    && x !in t.locals
    && !BackIs(t.syms, x, SFunction)
    && !BackIs(t.syms, x, SEnum)
    && (x in t.statics || VariableDeclared(t.syms, x))
  }

  function HgrLval(t: Tab, lv: Lval): Option<Lval> {
    if !lv.Id? || !Rewritten(t, lv.x) then Some(lv)
    else
      match Latest(Entry(t.syms, lv.x))
      case Unmangled => None
      case ArrName => Some(Slot(lv.x))
      case PtrName(n) => Some(Through(lv.x, n))
  }

  function HgrExpr(t: Tab, e: Expr): Option<Expr> {
    match e
    case Lit(_) => Some(e)
    case Ref(lv) => var l := HgrLval(t, lv); if l.None? then None else Some(Ref(l.value))
    case Addr(lv) => var l := HgrLval(t, lv); if l.None? then None else Some(Addr(l.value))
    case Deref(p) => var p' := HgrExpr(t, p); if p'.None? then None else Some(Deref(p'.value))
    case Bin(op, l, r) =>
      var l', r' := HgrExpr(t, l), HgrExpr(t, r);
      if l'.None? || r'.None? then None else Some(Bin(op, l'.value, r'.value))
  }

  function HgrExprs(t: Tab, es: List<Expr>): Option<List<Expr>> {
    match es
    case Nil => Some(Nil)
    case Cons(e, rest) =>
      var e', rest' := HgrExpr(t, e), HgrExprs(t, rest);
      if e'.None? || rest'.None? then None else Some(Cons(e'.value, rest'.value))
  }

  /** An initialiser after its references are rewritten, before it is copied per stack. */
  datatype Template = Same(i: Init) | SlotOf(x: Name) | InstOf(x: Name)

  function HgrInit(t: Tab, i: Init): Option<Template> {
    if !i.AddrOf? || !Rewritten(t, i.x) then Some(Same(i))
    else if i.x !in t.syms then Some(InstOf(i.x))
    else
      match Latest(Entry(t.syms, i.x))
      case Unmangled => None
      case ArrName => Some(SlotOf(i.x))
      case PtrName(_) => Some(InstOf(i.x))
  }

  function Copy(i: Template, k: nat): Init {
    match i
    case Same(i) => i
    case SlotOf(x) => AddrSlot(x, k)
    case InstOf(x) => AddrInst(k, x)
  }

  function Copies(i: Template, stacks: nat): seq<Init> {
    seq(stacks, (k: nat) => Copy(i, k))
  }

  // ----- declarations -----

  /** One declarator with static storage; a block-scope one is also entered in the list of statics. */
  function HandleDecl(t: Tab, stacks: nat, d: StaticDecl, inFunc: bool): (r: Pass<StaticDecl>)
    ensures r.Ok? ==> r.t.locals == t.locals && t.statics <= r.t.statics
  {
    if !d.PlainDecl? then Ok(t, d)
    else
      var syms := DefineVariable(t.syms, d.x, false, inFunc);
      if syms.None? then Exit
      else
        var t1 := t.(syms := syms.value, statics := if inFunc then t.statics + [d.x] else t.statics);
        if !d.isArray then
          var t2 := t1.(syms := Push(t1.syms, d.x, Symbol(SVariable, ArrName)));
          var i := HgrInit(t2, d.init);
          if i.None? then Exit else Ok(t2, ArrDecl(d.x, d.site, Copies(i.value, stacks)))
        else
          var i := HgrInit(t1, d.init);
          if i.None? then Exit
          else
            var t2 := t1.(syms := Push(t1.syms, d.x, Symbol(SVariable, PtrName(t1.next))), next := t1.next + 1);
            Ok(t2, InstDecl(d.x, d.site, t1.next, Copies(i.value, stacks)))
  }

  function HandleDecls(t: Tab, stacks: nat, ds: List<StaticDecl>, inFunc: bool): (r: Pass<List<StaticDecl>>)
    ensures r.Ok? ==> r.t.locals == t.locals && t.statics <= r.t.statics
    decreases ds
  {
    match ds
    case Nil => Ok(t, Nil)
    case Cons(d, rest) =>
      var r := HandleDecl(t, stacks, d, inFunc);
      if r.Exit? then Exit
      else
        var r' := HandleDecls(r.t, stacks, rest, inFunc);
        if r'.Exit? then Exit else Ok(r'.t, Cons(r.text, r'.text))
  }

  function AutoNames(ds: List<AutoDecl>): seq<Name> {
    match ds
    case Nil => []
    case Cons(d, rest) => [d.x] + AutoNames(rest)
  }

  function HgrAutos(t: Tab, ds: List<AutoDecl>): Option<List<AutoDecl>> {
    match ds
    case Nil => Some(Nil)
    case Cons(d, rest) =>
      var rest' := HgrAutos(t, rest);
      if rest'.None? then None
      else if d.init.None? then Some(Cons(d, rest'.value))
      else
        var e := HgrExpr(t, d.init.value);
        if e.None? then None else Some(Cons(AutoDecl(d.x, Some(e.value)), rest'.value))
  }

  // ----- leaving a scope -----

  function PopStatics(t: Tab, n: nat): (r: Option<Tab>)
    ensures r.Some? ==>
      && r.value.locals == t.locals && r.value.next == t.next
      && n <= |t.statics| && r.value.statics == t.statics[..|t.statics| - n]
    decreases n
  {
    if n == 0 then Some(t)
    else if t.statics == [] then None
    else
      var x := t.statics[|t.statics| - 1];
      var l := Entry(t.syms, x);
      if l == [] then None
      else PopStatics(t.(syms := t.syms[x := l[..|l| - 1]], statics := t.statics[..|t.statics| - 1]), n - 1)
  }

  // ----- statements -----

  datatype ListPass<T> = ExitList | OkList(t: Tab, text: T, numLocals: nat, numStatics: nat)

  /** What happens to one member of a statement list: its declarations are entered, then its references rewritten. */
  function HgrMember(t: Tab, stacks: nat, s: Stmt, numLocals: nat, numStatics: nat): (r: ListPass<Stmt>)
    ensures r.OkList? ==> t.locals <= r.t.locals && |r.t.locals| - |t.locals| == r.numLocals - numLocals
    decreases s
  {
    match s
    case Auto(ds) =>
      var t1 := t.(locals := t.locals + AutoNames(ds));
      var ds' := HgrAutos(t1, ds);
      if ds'.None? then ExitList
      else OkList(t1, Auto(ds'.value), numLocals + |AutoNames(ds)|, numStatics)
    case Static(ds) =>
      var r := HandleDecls(t, stacks, ds, true);
      if r.Exit? then ExitList
      else OkList(r.t, Static(r.text), numLocals,
                  if ds.Nil? then numStatics else |r.t.statics| - |t.statics|)
    case Assign(lv, e) =>
      var lv', e' := HgrLval(t, lv), HgrExpr(t, e);
      if lv'.None? || e'.None? then ExitList else OkList(t, Assign(lv'.value, e'.value), numLocals, numStatics)
    case Store(p, e) =>
      var p', e' := HgrExpr(t, p), HgrExpr(t, e);
      if p'.None? || e'.None? then ExitList else OkList(t, Store(p'.value, e'.value), numLocals, numStatics)
    case Call(f, args) =>
      var f', args' := HgrLval(t, f), HgrExprs(t, args);
      if f'.None? || args'.None? then ExitList else OkList(t, Call(f'.value, args'.value), numLocals, numStatics)
    case Block(body) =>
      var r := HgrScope(t, stacks, body);
      if r.Exit? then ExitList else OkList(r.t, Block(r.text), numLocals, numStatics)
    case If(c, thn, els) =>
      var c' := HgrExpr(t, c);
      var r1 := HgrScope(t, stacks, thn);
      if c'.None? || r1.Exit? then ExitList
      else
        var r2 := HgrScope(r1.t, stacks, els);
        if r2.Exit? then ExitList else OkList(r2.t, If(c'.value, r1.text, r2.text), numLocals, numStatics)
    case While(c, body) =>
      var c' := HgrExpr(t, c);
      var r := HgrScope(t, stacks, body);
      if c'.None? || r.Exit? then ExitList
      else OkList(r.t, While(c'.value, r.text), numLocals, numStatics)
  }

  function HgrList(t: Tab, stacks: nat, ss: List<Stmt>, numLocals: nat, numStatics: nat): (r: ListPass<List<Stmt>>)
    ensures r.OkList? ==> t.locals <= r.t.locals && |r.t.locals| - |t.locals| == r.numLocals - numLocals
    decreases ss, 0
  {
    match ss
    case Nil => OkList(t, Nil, numLocals, numStatics)
    case Cons(s, rest) =>
      var r := HgrMember(t, stacks, s, numLocals, numStatics);
      if r.ExitList? then ExitList
      else
        var r' := HgrList(r.t, stacks, rest, r.numLocals, r.numStatics);
        if r'.ExitList? then ExitList else OkList(r'.t, Cons(r.text, r'.text), r'.numLocals, r'.numStatics)
  }

  /** Whatever the list declares, the automatics in scope after it are those in scope before it. */
  function HgrScope(t: Tab, stacks: nat, ss: List<Stmt>): (r: Pass<List<Stmt>>)
    ensures r.Ok? ==> r.t.locals == t.locals
    decreases ss, 1
  {
    var r := HgrList(t, stacks, ss, 0, 0);
    if r.ExitList? then Exit
    else
      var t1 := PopStatics(r.t.(locals := r.t.locals[..|r.t.locals| - r.numLocals]), r.numStatics);
      if t1.None? then Exit else Ok(t1.value, r.text)
  }

  // ----- the file -----

  function ParamNames(ps: List<Name>): seq<Name> {
    match ps
    case Nil => []
    case Cons(p, rest) => [p] + ParamNames(rest)
  }

  /** Every function starts with its own empty lists; the symbol table lives on. */
  function HgrTop(t: Tab, stacks: nat, top: Top): Pass<Top> {
    match top
    case Global(ds) =>
      var r := HandleDecls(t, stacks, ds, false);
      if r.Exit? then Exit else Ok(r.t, Global(r.text))
    case EnumConst(x, _) =>
      var syms := DefineVariable(t.syms, x, true, false);
      if syms.None? then Exit else Ok(t.(syms := syms.value), top)
    case Proto(f) =>
      var syms := DefineFunction(t.syms, f);
      if syms.None? then Exit else Ok(t.(syms := syms.value), top)
    case Func(f, ps, body) =>
      var syms := DefineFunction(t.syms, f);
      if syms.None? then Exit
      else
        var r := HgrScope(Tab(ParamNames(ps), [], syms.value, t.next), stacks, body);
        if r.Exit? then Exit else Ok(r.t.(locals := t.locals, statics := t.statics), Func(f, ps, r.text))
  }

  function HgrTops(t: Tab, stacks: nat, ts: List<Top>): Pass<List<Top>>
    decreases ts
  {
    match ts
    case Nil => Ok(t, Nil)
    case Cons(top, rest) =>
      var r := HgrTop(t, stacks, top);
      if r.Exit? then Exit
      else
        var r' := HgrTops(r.t, stacks, rest);
        if r'.Exit? then Exit else Ok(r'.t, Cons(r.text, r'.text))
  }

  const NoTab := Tab([], [], map[], 0)

  function Globaliser(ts: List<Top>, stacks: nat): Option<List<Top>> {
    var r := HgrTops(NoTab, stacks, ts);
    if r.Exit? then None else Some(r.text)
  }
}
