/** The bindings generator's test whether a class has pure virtual methods nobody implements. */
module PureVirtual {
  import opened Common
  import opened ClassHierarchy

  /** Methods with equal signatures match. */
  datatype Method = Method(signature: nat, isVirtual: bool, isPure: bool)

  /** The methods of each class of a resolution order, from the root to the leaf. */
  type Classes = seq<seq<Method>>

  /** The first virtual method of a class with a signature. */
  function VirtualMatch(ms: seq<Method>, sig: nat): Option<Method> {
    if ms == [] then None
    else if ms[0].isVirtual && ms[0].signature == sig then Some(ms[0])
    else VirtualMatch(ms[1..], sig)
  }

  predicate Implements(ms: seq<Method>, sig: nat) {
    VirtualMatch(ms, sig).Some? && !VirtualMatch(ms, sig).value.isPure
  }

  /** No class from number `from` on implements the signature. */
  predicate Unimplemented(cs: Classes, from: nat, sig: nat) {
    forall q :: from <= q < |cs| ==> !Implements(cs[q], sig)
  }

  predicate Pending(cs: Classes, p: nat, i: nat)
    requires p < |cs| && i < |cs[p]|
  {
    cs[p][i].isPure && Unimplemented(cs, p + 1, cs[p][i].signature)
  }

  /** Some pure virtual method is not implemented in a class behind it. */
  ghost predicate HasPure(cs: Classes) {
    exists p: nat, i: nat :: p < |cs| && i < |cs[p]| && Pending(cs, p, i)
  }

  method IsImplemented(ms: seq<Method>, sig: nat) returns (implemented: bool)
    ensures implemented == Implements(ms, sig)
  {
    implemented := false;
    var i := 0;
    assert ms[0..] == ms;
    while i < |ms|
      invariant 0 <= i <= |ms| && !implemented && VirtualMatch(ms[i..], sig) == VirtualMatch(ms, sig)
    {
      assert ms[i..][1..] == ms[i + 1..];
      if ms[i].isVirtual && ms[i].signature == sig {
        if !ms[i].isPure { implemented := true; }
        return;
      }
      i := i + 1;
    }
  }

  method Search(cs: Classes) returns (b: bool)
    ensures b <==> HasPure(cs)
  {
    b := false;
    for p := 0 to |cs|
      invariant b ==> HasPure(cs)
      invariant !b ==> forall p': nat, i: nat :: p' < p && i < |cs[p']| ==> !Pending(cs, p', i)
    {
      for i := 0 to |cs[p]|
        invariant b ==> HasPure(cs)
        invariant !b ==> forall p': nat, i: nat :: p' < p && i < |cs[p']| ==> !Pending(cs, p', i)
        invariant !b ==> forall k: nat :: k < i ==> !Pending(cs, p, k)
      {
        if cs[p][i].isPure {
          var implemented := ImplementedBehind(cs, p, cs[p][i].signature);
          if !implemented {
            assert Pending(cs, p, i);
            b := true;
          }
        }
      }
    }
  }

  method ImplementedBehind(cs: Classes, p: nat, sig: nat) returns (implemented: bool)
    requires p < |cs|
    ensures implemented == !Unimplemented(cs, p + 1, sig)
  {
    for q := p + 1 to |cs|
      invariant forall q' :: p + 1 <= q' < q ==> !Implements(cs[q'], sig)
    {
      implemented := IsImplemented(cs[q], sig);
      if implemented { return; }
    }
    implemented := false;
  }

  /** The answer is worked out once and remembered. */
  class Cache {
    var known: Option<bool>

    constructor ()
      ensures known == None
    {
      known := None;
    }

    method HavePureVirtualMethods(cs: Classes) returns (b: bool)
      modifies this
      ensures known == Some(b)
      ensures old(known).Some? ==> b == old(known).value
      ensures old(known).None? ==> (b <==> HasPure(cs))
    {
      if known.Some? { return known.value; }
      b := Search(cs);
      known := Some(b);
    }
  }

  // ----- what the search decides -----

  /** A class declares a signature once, and a pure method is virtual. */
  predicate Orderly(ms: seq<Method>) {
    && (forall i, j :: 0 <= i < j < |ms| ==> ms[i].signature != ms[j].signature)
    && (forall i :: 0 <= i < |ms| && ms[i].isPure ==> ms[i].isVirtual)
  }

  predicate AllOrderly(cs: Classes) {
    forall p :: 0 <= p < |cs| ==> Orderly(cs[p])
  }

  /** The virtual declaration of a signature nearest to the leaf. */
  function LastVirtual(cs: Classes, sig: nat): Option<Method> {
    if cs == [] then None
    else
      var m := VirtualMatch(cs[|cs| - 1], sig);
      if m.Some? then m else LastVirtual(cs[..|cs| - 1], sig)
  }

  predicate IsPure(m: Option<Method>) {
    m.Some? && m.value.isPure
  }

  lemma {:induction false} MatchInside(ms: seq<Method>, sig: nat)
    ensures var m := VirtualMatch(ms, sig);
            && (m.Some? ==> m.value in ms && m.value.signature == sig && m.value.isVirtual)
            && (m.None? ==> forall i :: 0 <= i < |ms| && ms[i].signature == sig ==> !ms[i].isVirtual)
  {
    if ms != [] {
      MatchInside(ms[1..], sig);
      assert forall i :: 0 < i < |ms| ==> ms[i] == ms[1..][i - 1];
    }
  }

  lemma MatchIs(ms: seq<Method>, i: nat)
    requires Orderly(ms) && i < |ms| && ms[i].isVirtual
    ensures VirtualMatch(ms, ms[i].signature) == Some(ms[i])
  {
    hide VirtualMatch;
    MatchInside(ms, ms[i].signature);
    var m := VirtualMatch(ms, ms[i].signature);
    if m.Some? {
      var k :| 0 <= k < |ms| && ms[k] == m.value;
      assert k == i;
    }
  }

  /** If a method is pending, the last virtual declaration of its signature is pure. */
  lemma {:induction false} PendingIsLast(cs: Classes, p: nat, i: nat)
    requires AllOrderly(cs) && p < |cs| && i < |cs[p]| && Pending(cs, p, i)
    ensures IsPure(LastVirtual(cs, cs[p][i].signature))
    decreases |cs|
  {
    var last, sig := cs[|cs| - 1], cs[p][i].signature;
    if p == |cs| - 1 {
      assert Orderly(last);
      MatchIs(last, i);
    } else {
      assert !Implements(last, sig);
      if VirtualMatch(last, sig).None? {
        var init := cs[..|cs| - 1];
        assert forall q :: 0 <= q < |init| ==> init[q] == cs[q];
        PendingIsLast(init, p, i);
      }
    }
  }

  lemma {:induction false} LastIsPending(cs: Classes, sig: nat) returns (p: nat, i: nat)
    requires AllOrderly(cs) && IsPure(LastVirtual(cs, sig))
    ensures p < |cs| && i < |cs[p]| && cs[p][i].signature == sig && Pending(cs, p, i)
    decreases |cs|
  {
    var last := cs[|cs| - 1];
    var m := VirtualMatch(last, sig);
    if m.Some? {
      MatchInside(last, sig);
      p := |cs| - 1;
      i :| i < |last| && last[i] == m.value;
    } else {
      var init := cs[..|cs| - 1];
      p, i := LastIsPending(init, sig);
      assert forall q :: 0 <= q < |init| ==> init[q] == cs[q];
    }
  }

  ghost predicate SomeLastIsPure(cs: Classes) {
    exists sig: nat :: IsPure(LastVirtual(cs, sig))
  }

  /** The answer is yes exactly if, for some signature, the virtual declaration nearest to the leaf is pure. */
  lemma PureIffLastIsPure(cs: Classes)
    requires AllOrderly(cs)
    ensures HasPure(cs) <==> SomeLastIsPure(cs)
  {
    if HasPure(cs) {
      PureGivesLast(cs);
    }
    if SomeLastIsPure(cs) {
      var sig: nat :| IsPure(LastVirtual(cs, sig));
      var p, i := LastIsPending(cs, sig);
    }
  }

  lemma PureGivesLast(cs: Classes)
    requires AllOrderly(cs) && HasPure(cs)
    ensures SomeLastIsPure(cs)
  {
    var p: nat, i: nat :| p < |cs| && i < |cs[p]| && Pending(cs, p, i);
    PendingIsLast(cs, p, i);
    var sig := cs[p][i].signature;
    assert IsPure(LastVirtual(cs, sig));
  }

  // ----- single inheritance -----

  /** The methods along the chain from the root of `c` to `c` itself. */
  function RootToLeaf(methods: Classes, s: seq<nat>): Classes
    requires forall i :: 0 <= i < |s| ==> s[i] < |methods|
  {
    if s == [] then [] else RootToLeaf(methods, s[1..]) + [methods[s[0]]]
  }

  /** The declaration of a signature in the most derived class that has one. */
  function MostDerived(h: Hierarchy, ghost rank: seq<nat>, methods: Classes, c: nat, sig: nat): Option<Method>
    requires Acyclic(h, rank) && c < |h| && |methods| == |h|
    decreases rank[c]
  {
    var m := Declared(methods[c], sig);
    if m.Some? || h[c] == [] then m else MostDerived(h, rank, methods, h[c][0], sig)
  }

  function Declared(ms: seq<Method>, sig: nat): Option<Method> {
    if ms == [] then None else if ms[0].signature == sig then Some(ms[0]) else Declared(ms[1..], sig)
  }

  function LastDeclared(cs: Classes, sig: nat): Option<Method> {
    if cs == [] then None
    else
      var m := Declared(cs[|cs| - 1], sig);
      if m.Some? then m else LastDeclared(cs[..|cs| - 1], sig)
  }

  /** Declarations of the signature in a class are virtual. */
  predicate VirtualHere(ms: seq<Method>, sig: nat) {
    forall i :: 0 <= i < |ms| && ms[i].signature == sig ==> ms[i].isVirtual
  }

  /** Whatever overrides or is overridden by a pure method is marked virtual. */
  predicate OverridersMarked(cs: Classes) {
    forall p, i, q :: 0 <= p < |cs| && 0 <= i < |cs[p]| && cs[p][i].isPure && 0 <= q < |cs| ==> VirtualHere(cs[q], cs[p][i].signature)
  }

  lemma {:induction false} DeclaredIsMatch(ms: seq<Method>, sig: nat)
    requires VirtualHere(ms, sig)
    ensures Declared(ms, sig) == VirtualMatch(ms, sig)
  {
    if ms != [] {
      DeclaredIsMatch(ms[1..], sig);
    }
  }

  lemma {:induction false} LastDeclaredIsVirtual(cs: Classes, sig: nat)
    requires forall q :: 0 <= q < |cs| ==> VirtualHere(cs[q], sig)
    ensures LastDeclared(cs, sig) == LastVirtual(cs, sig)
  {
    if cs != [] {
      DeclaredIsMatch(cs[|cs| - 1], sig);
      LastDeclaredIsVirtual(cs[..|cs| - 1], sig);
    }
  }

  lemma {:induction false} DeclaredInside(ms: seq<Method>, sig: nat)
    ensures var m := Declared(ms, sig); m.Some? ==> m.value in ms && m.value.signature == sig
  {
    if ms != [] {
      DeclaredInside(ms[1..], sig);
    }
  }

  /** A pure last declaration is found in some class. */
  lemma {:induction false} LastIsSomewhere(cs: Classes, sig: nat, m: Method) returns (p: nat, i: nat)
    requires LastDeclared(cs, sig) == Some(m) || LastVirtual(cs, sig) == Some(m)
    ensures p < |cs| && i < |cs[p]| && cs[p][i] == m && m.signature == sig
  {
    var last, init := cs[|cs| - 1], cs[..|cs| - 1];
    DeclaredInside(last, sig);
    MatchInside(last, sig);
    if Declared(last, sig) == Some(m) || VirtualMatch(last, sig) == Some(m) {
      p := |cs| - 1;
      i :| i < |last| && last[i] == m;
    } else {
      p, i := LastIsSomewhere(init, sig, m);
    }
  }

  lemma SamePureLast(cs: Classes, sig: nat)
    requires OverridersMarked(cs)
    ensures IsPure(LastVirtual(cs, sig)) <==> IsPure(LastDeclared(cs, sig))
  {
    if IsPure(LastVirtual(cs, sig)) || IsPure(LastDeclared(cs, sig)) {
      var m := if IsPure(LastVirtual(cs, sig)) then LastVirtual(cs, sig).value else LastDeclared(cs, sig).value;
      var p, i := LastIsSomewhere(cs, sig, m);
      assert forall q :: 0 <= q < |cs| ==> VirtualHere(cs[q], cs[p][i].signature);
      LastDeclaredIsVirtual(cs, sig);
    }
  }

  lemma ChainInside(h: Hierarchy, rank: seq<nat>, c: nat)
    requires Acyclic(h, rank) && c < |h|
    ensures forall i :: 0 <= i < |Chain(h, rank, c)| ==> Chain(h, rank, c)[i] < |h|
  {
    ChainDescends(h, rank, c);
    var s := Chain(h, rank, c);
    forall i | 0 <= i < |s| ensures s[i] < |h| {
      FallingBelow(h, rank, s, rank[c], i);
    }
  }

  lemma {:induction false} ChainDeclares(h: Hierarchy, rank: seq<nat>, methods: Classes, c: nat, sig: nat)
    requires Acyclic(h, rank) && c < |h| && |methods| == |h|
    requires forall i :: 0 <= i < |Chain(h, rank, c)| ==> Chain(h, rank, c)[i] < |methods|
    ensures LastDeclared(RootToLeaf(methods, Chain(h, rank, c)), sig) == MostDerived(h, rank, methods, c, sig)
    decreases rank[c]
  {
    hide Declared;
    var s := Chain(h, rank, c);
    var cs := RootToLeaf(methods, s);
    assert cs[|cs| - 1] == methods[c] && cs[..|cs| - 1] == RootToLeaf(methods, s[1..]);
    if h[c] == [] {
      assert s[1..] == [];
    } else {
      ChainInside(h, rank, h[c][0]);
      ChainDeclares(h, rank, methods, h[c][0], sig);
      assert s[1..] == Chain(h, rank, h[c][0]);
    }
  }

  ghost predicate SomeDerivedIsPure(h: Hierarchy, rank: seq<nat>, methods: Classes, c: nat)
    requires Acyclic(h, rank) && c < |h| && |methods| == |h|
  {
    exists sig: nat :: IsPure(MostDerived(h, rank, methods, c, sig))
  }

  /**
   With single inheritance and overriders marked virtual, a fresh check says yes exactly
   if the most derived declaration of some signature is pure.
   */
  lemma PureOnChains(h: Hierarchy, rank: seq<nat>, methods: Classes, c: nat)
    requires Acyclic(h, rank) && Single(h) && c < |h| && |methods| == |h|
    ensures forall i :: 0 <= i < |Mro(h, rank, c)| ==> Mro(h, rank, c)[i] < |methods|
    ensures var cs := RootToLeaf(methods, Mro(h, rank, c));
            AllOrderly(cs) && OverridersMarked(cs) ==>
              (HasPure(cs) <==> SomeDerivedIsPure(h, rank, methods, c))
  {
    MroIsChain(h, rank, c);
    ChainInside(h, rank, c);
    var cs := RootToLeaf(methods, Mro(h, rank, c));
    if AllOrderly(cs) && OverridersMarked(cs) {
      PureIffLastIsPure(cs);
      hide HasPure, OverridersMarked, AllOrderly, MostDerived, LastVirtual, RootToLeaf, Acyclic;
      forall sig: nat ensures IsPure(LastVirtual(cs, sig)) <==> IsPure(MostDerived(h, rank, methods, c, sig)) {
        SamePureLast(cs, sig);
        ChainDeclares(h, rank, methods, c, sig);
      }
      if sig: nat :| IsPure(LastVirtual(cs, sig)) {
        assert IsPure(MostDerived(h, rank, methods, c, sig));
      }
      if sig: nat :| IsPure(MostDerived(h, rank, methods, c, sig)) {
        assert IsPure(LastVirtual(cs, sig));
      }
    }
  }

  // ----- overriders that are not marked virtual -----

  /** The last virtual declaration of the signature is that of class `p`, and it is pure. */
  predicate PureAt(cs: Classes, sig: nat, p: nat) {
    && p < |cs| && IsPure(VirtualMatch(cs[p], sig))
    && (forall r :: p < r < |cs| ==> VirtualMatch(cs[r], sig).None?)
  }

  /** Behind it a class declares the signature, but not as virtual. */
  ghost predicate Overlooked(cs: Classes, sig: nat) {
    exists p: nat, q: nat :: p < q < |cs| && PureAt(cs, sig, p) && Declared(cs[q], sig).Some?
  }

  lemma {:induction false} PureAtSomeClass(cs: Classes, sig: nat) returns (p: nat)
    ensures IsPure(LastVirtual(cs, sig)) ==> PureAt(cs, sig, p)
    decreases |cs|
  {
    p := 0;
    if cs != [] {
      var n := |cs| - 1;
      if VirtualMatch(cs[n], sig).Some? {
        p := n;
      } else {
        p := PureAtSomeClass(cs[..n], sig);
      }
    }
  }

  lemma {:induction false} ThatIsLast(cs: Classes, sig: nat, p: nat)
    requires PureAt(cs, sig, p)
    ensures IsPure(LastVirtual(cs, sig))
    decreases |cs|
  {
    var n := |cs| - 1;
    if p < n {
      assert VirtualMatch(cs[n], sig).None?;
      ThatIsLast(cs[..n], sig, p);
    }
  }

  lemma OneDeclaration(ms: seq<Method>, sig: nat)
    requires Orderly(ms)
    ensures var d, v := Declared(ms, sig), VirtualMatch(ms, sig);
            && (d.None? ==> v.None?) && (d.Some? && d.value.isVirtual ==> v == d) && (d.Some? && !d.value.isVirtual ==> v.None? && !d.value.isPure)
  {
    hide VirtualMatch, Declared;
    DeclaredInside(ms, sig);
    MatchInside(ms, sig);
    var d, v := Declared(ms, sig), VirtualMatch(ms, sig);
    if d.Some? {
      var i :| 0 <= i < |ms| && ms[i] == d.value;
      if v.Some? {
        var k :| 0 <= k < |ms| && ms[k] == v.value;
        assert i == k;
      } else {
        assert !ms[i].isVirtual;
      }
    } else if v.Some? {
      DeclaredSome(ms, sig, v.value);
    }
  }

  lemma {:induction false} DeclaredSome(ms: seq<Method>, sig: nat, m: Method)
    requires m in ms && m.signature == sig
    ensures Declared(ms, sig).Some?
  {
    if ms[0].signature != sig {
      assert m in ms[1..];
      DeclaredSome(ms[1..], sig, m);
    }
  }

  /** For one signature, the check and the most derived declaration differ exactly if an overrider is overlooked. */
  lemma {:induction false} MissedIff(cs: Classes, sig: nat)
    requires AllOrderly(cs)
    ensures IsPure(LastVirtual(cs, sig)) != IsPure(LastDeclared(cs, sig)) <==> Overlooked(cs, sig)
    ensures IsPure(LastDeclared(cs, sig)) ==> IsPure(LastVirtual(cs, sig))
    decreases |cs|
  {
    if cs != [] {
      hide VirtualMatch, Declared, Orderly;
      var n := |cs| - 1;
      var init := cs[..n];
      assert forall q :: 0 <= q < n ==> init[q] == cs[q];
      OneDeclaration(cs[n], sig);
      MissedIff(init, sig);
      var p := PureAtSomeClass(init, sig);
      var d := Declared(cs[n], sig);
      if d.Some? && d.value.isVirtual {
        forall p: nat | p < n ensures !PureAt(cs, sig, p) {
          assert VirtualMatch(cs[n], sig).Some?;
        }
      } else if d.Some? {
        if IsPure(LastVirtual(init, sig)) {
          assert PureAt(cs, sig, p);
          assert Overlooked(cs, sig);
        }
        if p: nat, q: nat :| p < q < |cs| && PureAt(cs, sig, p) && Declared(cs[q], sig).Some? {
          ThatIsLast(cs, sig, p);
        }
      } else {
        OverlookedBefore(cs, sig);
      }
    }
  }

  lemma OverlookedBefore(cs: Classes, sig: nat)
    requires cs != [] && Declared(cs[|cs| - 1], sig).None? && VirtualMatch(cs[|cs| - 1], sig).None?
    ensures Overlooked(cs, sig) <==> Overlooked(cs[..|cs| - 1], sig)
  {
    hide VirtualMatch, Declared;
    var n := |cs| - 1;
    var init := cs[..n];
    if p: nat, q: nat :| p < q < |cs| && PureAt(cs, sig, p) && Declared(cs[q], sig).Some? {
      assert PureAt(init, sig, p) && init[q] == cs[q];
    }
    if p: nat, q: nat :| p < q < n && PureAt(init, sig, p) && Declared(init[q], sig).Some? {
      assert PureAt(cs, sig, p) && cs[q] == init[q];
    }
  }

  ghost predicate SomeDeclaredIsPure(cs: Classes) {
    exists sig: nat :: IsPure(LastDeclared(cs, sig))
  }

  /** Every pure last virtual declaration has an overrider that is not marked. */
  ghost predicate AllOverlooked(cs: Classes) {
    forall sig: nat :: IsPure(LastVirtual(cs, sig)) ==> Overlooked(cs, sig)
  }

  /**
   The whole check is right exactly unless some last virtual declaration is pure and every
   such one has an overrider that is not marked; it never says no wrongly.
   */
  lemma CheckIsRightIff(cs: Classes)
    requires AllOrderly(cs)
    ensures (HasPure(cs) <==> SomeDeclaredIsPure(cs)) <==> !(SomeLastIsPure(cs) && AllOverlooked(cs))
    ensures SomeDeclaredIsPure(cs) ==> HasPure(cs)
  {
    hide Overlooked, LastVirtual, LastDeclared, AllOrderly, HasPure;
    PureIffLastIsPure(cs);
    if sig: nat :| IsPure(LastDeclared(cs, sig)) {
      MissedIff(cs, sig);
      assert IsPure(LastVirtual(cs, sig)) && !Overlooked(cs, sig);
    } else if sig: nat :| IsPure(LastVirtual(cs, sig)) && !Overlooked(cs, sig) {
      MissedIff(cs, sig);
      assert false;
    }
  }

  /** An overrider that is not marked virtual is overlooked: the check says yes although the method is implemented. */
  lemma UnmarkedOverriderIsMissed(sig: nat)
    ensures var cs := [[Method(sig, true, true)], [Method(sig, false, false)]];
            HasPure(cs) && LastDeclared(cs, sig) == Some(Method(sig, false, false)) && Overlooked(cs, sig)
  {
    var cs := [[Method(sig, true, true)], [Method(sig, false, false)]];
    assert cs[1][1..] == [];
    assert VirtualMatch(cs[1], sig) == VirtualMatch([], sig) == None;
    assert Pending(cs, 0, 0);
    assert PureAt(cs, sig, 0) && Declared(cs[1], sig).Some?;
  }
}
