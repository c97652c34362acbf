module Globalise {
  // The globalisation of a program by C's own scope rules: every reference whose
  // innermost binding has static storage becomes a reference to the slot of the
  // running stack, and nothing else changes.  `Rewriter` relates the tool's tables
  // to this definition; `Isolation` proves what the result means.

  import opened Common
  import opened CLanguage

  /** How the innermost binding of a name is treated. */
  datatype Kind = KAuto | KArr | KPtr(n: nat) | KFn | KEnum

  type Scope = map<Name, Kind>

  function Lv(sc: Scope, lv: Lval): Lval {
    match lv
    case Id(x) =>
      if x in sc && sc[x].KArr? then Slot(x)
      else if x in sc && sc[x].KPtr? then Through(x, sc[x].n)
      else lv
    case _ => lv
  }

  function Ex(sc: Scope, e: Expr): Expr {
    match e
    case Lit(_) => e
    case Ref(lv) => Ref(Lv(sc, lv))
    case Addr(lv) => Addr(Lv(sc, lv))
    case Deref(p) => Deref(Ex(sc, p))
    case Bin(op, l, r) => Bin(op, Ex(sc, l), Ex(sc, r))
  }

  function Exs(sc: Scope, es: List<Expr>): List<Expr> {
    match es
    case Nil => Nil
    case Cons(e, rest) => Cons(Ex(sc, e), Exs(sc, rest))
  }

  /** The initialiser of stack `k`'s copy. */
  function InitFor(sc: Scope, i: Init, k: nat): Init {
    match i
    case AddrOf(x) =>
      if x in sc && sc[x].KArr? then AddrSlot(x, k)
      else if x in sc && sc[x].KPtr? then AddrInst(k, x)
      else i
    case _ => i
  }

  function Inits(sc: Scope, i: Init, stacks: nat): seq<Init> {
    seq(stacks, (k: nat) => InitFor(sc, i, k))
  }

  /** A scope, the number of the next pointer array, and the rewritten text. */
  datatype Out<T> = Out(sc: Scope, next: nat, text: T)

  function DeclKind(d: StaticDecl, next: nat): Kind {
    if d.PlainDecl? && d.isArray then KPtr(next) else KArr
  }

  function Decl(sc: Scope, next: nat, stacks: nat, d: StaticDecl): Out<StaticDecl> {
    if !d.PlainDecl? then Out(sc, next, d)
    else
      var sc1 := sc[d.x := DeclKind(d, next)];
      var inits := Inits(sc1, d.init, stacks);
      if d.isArray then Out(sc1, next + 1, InstDecl(d.x, d.site, next, inits))
      else Out(sc1, next, ArrDecl(d.x, d.site, inits))
  }

  function Decls(sc: Scope, next: nat, stacks: nat, ds: List<StaticDecl>): Out<List<StaticDecl>>
    decreases ds
  {
    match ds
    case Nil => Out(sc, next, Nil)
    case Cons(d, rest) =>
      var o := Decl(sc, next, stacks, d);
      var o' := Decls(o.sc, o.next, stacks, rest);
      Out(o'.sc, o'.next, Cons(o.text, o'.text))
  }

  function OptEx(sc: Scope, e: Option<Expr>): Option<Expr> {
    match e
    case None => None
    case Some(e) => Some(Ex(sc, e))
  }

  /** Each automatic is in scope in its own initialiser and in the later ones. */
  function Autos(sc: Scope, ds: List<AutoDecl>): (Scope, List<AutoDecl>)
    decreases ds
  {
    match ds
    case Nil => (sc, Nil)
    case Cons(d, rest) =>
      var sc1 := sc[d.x := KAuto];
      var o := Autos(sc1, rest);
      (o.0, Cons(AutoDecl(d.x, OptEx(sc1, d.init)), o.1))
  }

  function Params(sc: Scope, ps: List<Name>): Scope
    decreases ps
  {
    match ps
    case Nil => sc
    case Cons(p, rest) => Params(sc[p := KAuto], rest)
  }

  function Stm(sc: Scope, next: nat, stacks: nat, s: Stmt): Out<Stmt>
    decreases s
  {
    match s
    case Assign(lv, e) => Out(sc, next, Assign(Lv(sc, lv), Ex(sc, e)))
    case Store(p, e) => Out(sc, next, Store(Ex(sc, p), Ex(sc, e)))
    case Call(f, args) => Out(sc, next, Call(Lv(sc, f), Exs(sc, args)))
    case Auto(ds) => var o := Autos(sc, ds); Out(o.0, next, Auto(o.1))
    case Static(ds) => var o := Decls(sc, next, stacks, ds); Out(o.sc, o.next, Static(o.text))
    case Block(body) => var o := Stms(sc, next, stacks, body); Out(sc, o.next, Block(o.text))
    case If(c, thn, els) =>
      var o1 := Stms(sc, next, stacks, thn);
      var o2 := Stms(sc, o1.next, stacks, els);
      Out(sc, o2.next, If(Ex(sc, c), o1.text, o2.text))
    case While(c, body) =>
      var o := Stms(sc, next, stacks, body);
      Out(sc, o.next, While(Ex(sc, c), o.text))
  }

  function Stms(sc: Scope, next: nat, stacks: nat, ss: List<Stmt>): Out<List<Stmt>>
    decreases ss
  {
    match ss
    case Nil => Out(sc, next, Nil)
    case Cons(s, rest) =>
      var o := Stm(sc, next, stacks, s);
      var o' := Stms(o.sc, o.next, stacks, rest);
      Out(o'.sc, o'.next, Cons(o.text, o'.text))
  }

  function TopDecl(sc: Scope, next: nat, stacks: nat, t: Top): Out<Top> {
    match t
    case Global(ds) => var o := Decls(sc, next, stacks, ds); Out(o.sc, o.next, Global(o.text))
    case EnumConst(x, _) => Out(sc[x := KEnum], next, t)
    case Proto(f) => Out(sc[f := KFn], next, t)
    case Func(f, ps, body) =>
      var sc1 := sc[f := KFn];
      var o := Stms(Params(sc1, ps), next, stacks, body);
      Out(sc1, o.next, Func(f, ps, o.text))
  }

  function Tops(sc: Scope, next: nat, stacks: nat, ts: List<Top>): Out<List<Top>>
    decreases ts
  {
    match ts
    case Nil => Out(sc, next, Nil)
    case Cons(t, rest) =>
      var o := TopDecl(sc, next, stacks, t);
      var o' := Tops(o.sc, o.next, stacks, rest);
      Out(o'.sc, o'.next, Cons(o.text, o'.text))
  }

  function Program(ts: List<Top>, stacks: nat): List<Top> {
    Tops(map[], 0, stacks, ts).text
  }

  // ----- programs as they are written by hand -----

  predicate SourceExpr(e: Expr) {
    match e
    case Lit(_) => true
    case Ref(lv) => lv.Id?
    case Addr(lv) => lv.Id?
    case Deref(p) => SourceExpr(p)
    case Bin(_, l, r) => SourceExpr(l) && SourceExpr(r)
  }

  predicate SourceExprs(es: List<Expr>) {
    es.Cons? ==> SourceExpr(es.head) && SourceExprs(es.tail)
  }

  predicate SourceInit(i: Init) {
    !i.AddrSlot? && !i.AddrInst?
  }

  predicate SourceDecls(ds: List<StaticDecl>) {
    ds.Cons? ==> ds.head.PlainDecl? && SourceInit(ds.head.init) && SourceDecls(ds.tail)
  }

  predicate SourceAutos(ds: List<AutoDecl>) {
    ds.Cons? ==> (ds.head.init.Some? ==> SourceExpr(ds.head.init.value)) && SourceAutos(ds.tail)
  }

  predicate SourceStmt(s: Stmt) {
    match s
    case Assign(lv, e) => lv.Id? && SourceExpr(e)
    case Store(p, e) => SourceExpr(p) && SourceExpr(e)
    case Call(f, args) => f.Id? && SourceExprs(args)
    case Auto(ds) => SourceAutos(ds)
    case Static(ds) => SourceDecls(ds)
    case Block(body) => SourceStmts(body)
    case If(c, thn, els) => SourceExpr(c) && SourceStmts(thn) && SourceStmts(els)
    case While(c, body) => SourceExpr(c) && SourceStmts(body)
  }

  predicate SourceStmts(ss: List<Stmt>) {
    ss.Cons? ==> SourceStmt(ss.head) && SourceStmts(ss.tail)
  }

  predicate SourceTops(ts: List<Top>) {
    ts.Cons? ==>
      && SourceTops(ts.tail)
      && match ts.head
         case Global(ds) => SourceDecls(ds)
         case Func(_, _, body) => SourceStmts(body)
         case _ => true
  }
}
