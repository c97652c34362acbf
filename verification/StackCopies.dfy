/**
 The copy of a rewritten initialiser for stack `k`: after both substitution loops
 every reference in it is a reference to an object of stack `k`, and the rest of
 the text is untouched.
 */
module StackCopies {
  import opened Decimal
  import opened CLanguage
  import opened GlobalNames
  import opened Tables

  /** A rewritten initialiser: plain text around references to instances and to array slots. */
  datatype Piece = Txt(t: string) | InstRef(x: Name) | SlotRef(x: Name)

  function Raw(p: Piece): string {
    match p
    case Txt(t) => t
    case InstRef(x) => InstanceName(x, 0)
    case SlotRef(x) => OldName(x) + Hole
  }

  function Final(p: Piece, k: nat): string {
    match p
    case Txt(t) => t
    case InstRef(x) => InstanceName(x, k)
    case SlotRef(x) => OldName(x) + Index(k)
  }

  /** After the first loop: instances belong to stack `k`, indices are still calls. */
  function Middle(p: Piece, k: nat): string {
    match p
    case InstRef(x) => InstanceName(x, k)
    case _ => Raw(p)
  }

  function RawText(ps: seq<Piece>): string {
    if ps == [] then [] else Raw(ps[0]) + RawText(ps[1..])
  }

  function MiddleText(ps: seq<Piece>, k: nat): string {
    if ps == [] then [] else Middle(ps[0], k) + MiddleText(ps[1..], k)
  }

  function FinalText(ps: seq<Piece>, k: nat): string {
    if ps == [] then [] else Final(ps[0], k) + FinalText(ps[1..], k)
  }

  predicate IdentChar(c: char) {
    c == '_' || 'a' <= c <= 'z' || 'A' <= c <= 'Z' || '0' <= c <= '9'
  }

  predicate IsIdent(x: Name) {
    forall c :: c in x ==> IdentChar(c)
  }

  /** What the printer can put next to each other: an identifier of the text never runs into a reference. */
  predicate Meets(p: Piece, q: Piece) {
    match p
    case Txt(t) => !q.Txt? && t != [] && !IdentChar(t[|t| - 1])
    case InstRef(_) => q.Txt? && q.t != [] && !IdentChar(q.t[0])
    case SlotRef(_) => q.Txt? && q.t != [] && !IdentChar(q.t[0])
  }

  /** Text and references alternate; either may come first and last, and nothing is asked of the outer ends. */
  predicate Apart(ps: seq<Piece>) {
    ps == [] ||
    (&& (!ps[0].Txt? ==> IsIdent(ps[0].x))
     && (|ps| > 1 ==> Meets(ps[0], ps[1]))
     && Apart(ps[1..]))
  }

  /** Nothing in the piece is taken for a reference of stack 0 by accident. */
  predicate Untouched(p: Piece, k: nat) {
    match p
    case Txt(t) => (k == 0 || !Occurs(t, P0)) && !Occurs(t, Hole)
    case InstRef(x) => k == 0 || !Occurs("_" + x + "_I", P0)
    case SlotRef(x) => k == 0 || !Occurs("_" + x, P0)
  }

  predicate AllUntouched(ps: seq<Piece>, k: nat) {
    ps == [] || (Untouched(ps[0], k) && AllUntouched(ps[1..], k))
  }

  // ----- both replacements distribute over texts whose border no occurrence crosses -----

  ghost predicate NoCrossing(a: string, b: string, pat: string) {
    forall i: nat :: i < |a| < i + |pat| ==> !OccAt(a + b, pat, i)
  }

  lemma NoCrossingTail(a: string, b: string, pat: string, n: nat)
    requires NoCrossing(a, b, pat) && n <= |a|
    ensures NoCrossing(a[n..], b, pat)
    decreases n
  {
    if n == 0 {
      assert a[0..] == a;
    } else {
      NoCrossingTail(a, b, pat, n - 1);
      var a' := a[n - 1..];
      assert a'[1..] == a[n..] && (a' + b)[1..] == a[n..] + b;
      forall i: nat | i < |a[n..]| < i + |pat| ensures !OccAt(a[n..] + b, pat, i) {
        ShiftOcc(a' + b, pat, i);
      }
    }
  }

  lemma FirstIsInside(a: string, b: string, pat: string)
    requires NoCrossing(a, b, pat) && a != []
    ensures OccAt(a + b, pat, 0) <==> OccAt(a, pat, 0)
  {
    if |pat| <= |a| {
      SameWindow(a + b, a, pat);
    } else {
      assert !OccAt(a + b, pat, 0);
    }
  }

  lemma {:induction false} ForStackAppend(a: string, b: string, k: nat)
    requires NoCrossing(a, b, P0)
    ensures ForStack(a + b, k) == ForStack(a, k) + ForStack(b, k)
    decreases |a|
  {
    if a == [] {
      assert a + b == b;
    } else {
      FirstIsInside(a, b, P0);
      var n := if OccAt(a, P0, 0) then 9 else 1;
      NoCrossingTail(a, b, P0, n);
      assert (a + b)[n..] == a[n..] + b;
      ForStackAppend(a[n..], b, k);
    }
  }

  lemma {:induction false} FillHolesAppend(a: string, b: string, k: nat)
    requires NoCrossing(a, b, Hole)
    ensures FillHoles(a + b, k) == FillHoles(a, k) + FillHoles(b, k)
    decreases |a|
  {
    if a == [] {
      assert a + b == b;
    } else {
      FirstIsInside(a, b, Hole);
      var n := if OccAt(a, Hole, 0) then 16 else 1;
      NoCrossingTail(a, b, Hole, n);
      assert (a + b)[n..] == a[n..] + b;
      FillHolesAppend(a[n..], b, k);
    }
  }

  // ----- borders -----

  lemma P0Chars(j: nat)
    requires j < |P0|
    ensures IdentChar(P0[j])
  {
  }

  lemma HoleChars(j: nat)
    requires j < |Hole|
    ensures j < 15 ==> Hole[j] != ']'
    ensures Hole[j] != 'I'
    ensures j < 15 && !IdentChar(Hole[j]) ==> Hole[j + 1] != '_' && (Hole[j + 1] == 'g' ==> j == 0)
  {
  }

  lemma BorderOfIdent(a: string, b: string)
    requires (a != [] && !IdentChar(a[|a| - 1])) || (b != [] && !IdentChar(b[0])) || b == []
    ensures NoCrossing(a, b, P0)
  {
    forall i: nat | i < |a| < i + |P0| ensures !OccAt(a + b, P0, i) {
      P0Chars(|a| - 1 - i);
      P0Chars(|a| - i);
      if a != [] && !IdentChar(a[|a| - 1]) {
        Mismatch(a + b, P0, i, |a| - 1 - i);
      } else if b != [] {
        Mismatch(a + b, P0, i, |a| - i);
      }
    }
  }

  lemma BorderOfEnd(a: string, pat: string)
    ensures NoCrossing(a, [], pat)
  {
  }

  lemma BorderAfter(a: string, b: string)
    requires a != [] && (a[|a| - 1] == ']' || a[|a| - 1] == 'I')
    ensures NoCrossing(a, b, Hole)
  {
    forall i: nat | i < |a| < i + |Hole| ensures !OccAt(a + b, Hole, i) {
      HoleChars(|a| - 1 - i);
      Mismatch(a + b, Hole, i, |a| - 1 - i);
    }
  }

  lemma BorderBefore(a: string, b: string)
    requires a != [] && !IdentChar(a[|a| - 1])
    requires (b != [] && b[0] == '_') || (|b| >= 2 && b[0] == 'g' && b[1] == 'l')
    ensures NoCrossing(a, b, Hole)
  {
    forall i: nat | i < |a| < i + |Hole| ensures !OccAt(a + b, Hole, i) {
      var j := |a| - 1 - i;
      HoleChars(j);
      if Hole[j] != a[|a| - 1] {
        Mismatch(a + b, Hole, i, j);
      } else if Hole[j + 1] != b[0] {
        Mismatch(a + b, Hole, i, j + 1);
      } else {
        assert (a + b)[i + 2] == b[1];
        Mismatch(a + b, Hole, i, 2);
      }
    }
  }

  lemma NoneOf(s: string, pat: string)
    requires !Occurs(s, pat)
    ensures NoneBefore(s, pat, |s| + 1)
  {
  }

  // ----- single pieces -----

  lemma InstanceForStack(x: Name, k: nat)
    requires !Occurs("_" + x + "_I", P0)
    ensures ForStack(InstanceName(x, 0), k) == InstanceName(x, k)
  {
    var s := InstanceName(x, 0);
    assert Dec(0) == "0";
    assert s[0..10] == P0;
    assert s[9..] == "_" + x + "_I";
    NoneOf("_" + x + "_I", P0);
    NoOccUnchanged("_" + x + "_I", k);
    assert InstanceName(x, k) == "_GLOBAL_" + Dec(k) + ("_" + x + "_I");
  }

  lemma HoleForStack(k: nat)
    ensures ForStack(Hole, k) == Hole
  {
    forall i: nat | i < |Hole| + 1 ensures !OccAt(Hole, P0, i) {
      if i + 1 < |Hole| {
        assert Hole[i + 1] != 'G';
        Mismatch(Hole, P0, i, 1);
      }
    }
    NoOccUnchanged(Hole, k);
  }

  lemma SlotForStack(x: Name, k: nat)
    requires !Occurs("_" + x, P0)
    ensures ForStack(OldName(x) + Hole, k) == OldName(x) + Hole
  {
    var bx := "_" + x;
    assert OldName(x) + Hole == "global" + (bx + Hole);
    LettersCopied("global", bx + Hole, k);
    BorderOfIdent(bx, Hole);
    ForStackAppend(bx, Hole, k);
    HoleForStack(k);
    NoneOf(bx, P0);
    NoOccUnchanged(bx, k);
  }

  lemma NameHasNoBracket(x: Name, k: nat)
    requires IsIdent(x)
    ensures '[' !in InstanceName(x, k) && '[' !in OldName(x)
  {
    DecRoundTrip(k);
  }

  lemma PieceMiddle(p: Piece, k: nat)
    requires k > 0 && Untouched(p, k)
    ensures ForStack(Raw(p), k) == Middle(p, k)
  {
    match p
    case Txt(t) => NoneOf(t, P0); NoOccUnchanged(t, k);
    case InstRef(x) => InstanceForStack(x, k);
    case SlotRef(x) => SlotForStack(x, k);
  }

  lemma HoleFilled(k: nat)
    ensures FillHoles(Hole, k) == Index(k)
  {
    var h := Hole;
    assert |h| == 16 && h[0..16] == h && h[16..] == [];
    assert FillHoles(h, k) == Index(k) + FillHoles([], k);
  }

  lemma PieceFinal(p: Piece, k: nat)
    requires Untouched(p, k) && (!p.Txt? ==> IsIdent(p.x))
    ensures FillHoles(Middle(p, k), k) == Final(p, k)
  {
    match p
    case Txt(t) => NoneOf(t, Hole); NoHoleUnchanged(t, k);
    case InstRef(x) =>
      NameHasNoBracket(x, k);
      assert InstanceName(x, k) == InstanceName(x, k) + [];
      NoBracketCopied(InstanceName(x, k), [], k);
    case SlotRef(x) =>
      NameHasNoBracket(x, k);
      NoBracketCopied(OldName(x), Hole, k);
      HoleFilled(k);
  }

  // ----- whole initialisers -----

  lemma RawStart(ps: seq<Piece>)
    requires ps != [] && ps[0].Txt? && ps[0].t != []
    ensures RawText(ps) != [] && RawText(ps)[0] == ps[0].t[0]
  {
  }

  /** The first loop moves every reference to an instance to stack `k`, and nothing else. */
  lemma {:induction false} AllMiddle(ps: seq<Piece>, k: nat)
    requires k > 0 && Apart(ps) && AllUntouched(ps, k)
    ensures ForStack(RawText(ps), k) == MiddleText(ps, k)
    decreases |ps|
  {
    if ps != [] {
      hide ForStack, OccAt, Occurs;
      var p, rest := ps[0], ps[1..];
      AllMiddle(rest, k);
      PieceMiddle(p, k);
      if rest != [] && !p.Txt? {
        RawStart(rest);
      }
      BorderOfIdent(Raw(p), RawText(rest));
      ForStackAppend(Raw(p), RawText(rest), k);
    }
  }

  lemma RefBorders(r: Piece, k: nat, u: string)
    requires !r.Txt?
    ensures var m := Middle(r, k);
            && m != [] && (m[|m| - 1] == ']' || m[|m| - 1] == 'I')
            && |m + u| >= 2 && ((m + u)[0] == '_' || ((m + u)[0] == 'g' && (m + u)[1] == 'l'))
  {
    if r.SlotRef? {
      assert Middle(r, k) == OldName(r.x) + Hole;
      assert Hole[15] == ']';
    }
  }

  lemma MiddleBorder(ps: seq<Piece>, k: nat)
    requires ps != [] && Apart(ps)
    ensures NoCrossing(Middle(ps[0], k), MiddleText(ps[1..], k), Hole)
  {
    var m, rest := Middle(ps[0], k), ps[1..];
    if rest == [] {
      BorderOfEnd(m, Hole);
    } else if ps[0].Txt? {
      RefBorders(rest[0], k, MiddleText(rest[1..], k));
      BorderBefore(m, MiddleText(rest, k));
    } else {
      RefBorders(ps[0], k, []);
      BorderAfter(m, MiddleText(rest, k));
    }
  }

  /** The second loop fills in every index, and nothing else. */
  lemma {:induction false} AllFinal(ps: seq<Piece>, k: nat)
    requires Apart(ps) && AllUntouched(ps, k)
    ensures FillHoles(MiddleText(ps, k), k) == FinalText(ps, k)
    decreases |ps|
  {
    if ps != [] {
      hide FillHoles, OccAt, Occurs;
      AllFinal(ps[1..], k);
      PieceFinal(ps[0], k);
      MiddleBorder(ps, k);
      FillHolesAppend(Middle(ps[0], k), MiddleText(ps[1..], k), k);
    }
  }

  lemma {:induction false} RawIsMiddle(ps: seq<Piece>)
    ensures RawText(ps) == MiddleText(ps, 0)
    decreases |ps|
  {
    if ps != [] {
      RawIsMiddle(ps[1..]);
    }
  }

  // ----- what the loops leave behind -----

  lemma LeastOcc(s: string, pat: string, i: nat) returns (loc: nat)
    requires OccAt(s, pat, i)
    ensures OccAt(s, pat, loc) && NoneBefore(s, pat, loc)
  {
    if j: nat :| j < i && OccAt(s, pat, j) {
      loc := LeastOcc(s, pat, j);
    } else {
      loc := i;
    }
  }

  lemma {:induction false} NoPrefixLeft(s: string, k: nat)
    requires k > 0
    ensures !Occurs(ForStack(s, k), P0)
    decreases Count(s)
  {
    if i: nat :| OccAt(s, P0, i) {
      var loc := LeastOcc(s, P0, i);
      PrefixStep(s, loc, k);
      NoPrefixLeft(Splice(s, loc, |P0|, Prefix(k)), k);
    } else {
      NoOccUnchanged(s, k);
    }
  }

  lemma {:induction false} NoHoleLeft(s: string, k: nat)
    ensures !Occurs(FillHoles(s, k), Hole)
    decreases Holes(s)
  {
    if i: nat :| OccAt(s, Hole, i) {
      var loc := LeastOcc(s, Hole, i);
      HoleStep(s, loc, k);
      NoHoleLeft(Splice(s, loc, |Hole|, Index(k)), k);
    } else {
      NoHoleUnchanged(s, k);
    }
  }

  /** Up to the first bracket nothing is filled in. */
  lemma {:induction false} SameUpToBracket(s: string, k: nat, n: nat)
    requires n <= |FillHoles(s, k)| && '[' !in FillHoles(s, k)[..n]
    ensures n <= |s| && s[..n] == FillHoles(s, k)[..n]
    decreases n
  {
    if n > 0 {
      var r := FillHoles(s, k);
      assert r[0] in r[..n];
      var u := FillHoles(s[1..], k);
      assert r == [s[0]] + u;
      assert r[..n] == [s[0]] + u[..n - 1];
      SameUpToBracket(s[1..], k, n - 1);
      assert s[..n] == [s[0]] + s[1..][..n - 1];
    }
  }

  lemma PrefixWasAtFront(s: string, k: nat)
    requires OccAt(FillHoles(s, k), P0, 0)
    ensures OccAt(s, P0, 0)
  {
    var r := FillHoles(s, k);
    assert r[..10] == r[0..10] == P0;
    SameUpToBracket(s, k, 10);
    assert s[0..10] == s[..10];
  }

  lemma IndexStartsNoPrefix(u: string, k: nat, i: nat)
    requires i < |Index(k)|
    ensures !OccAt(Index(k) + u, P0, i)
  {
    DecRoundTrip(k);
    assert (Index(k) + u)[i] == Index(k)[i] != '_';
    Mismatch(Index(k) + u, P0, i, 0);
  }

  lemma SuffixOcc(a: string, u: string, pat: string, i: nat)
    requires i >= |a|
    ensures OccAt(a + u, pat, i) <==> OccAt(u, pat, i - |a|)
  {
    if i + |pat| <= |a + u| {
      assert (a + u)[i..i + |pat|] == u[i - |a|..i - |a| + |pat|];
    }
  }

  lemma NoneInTail(s: string, n: nat, pat: string)
    requires n <= |s| && NoneBefore(s, pat, |s| + 1)
    ensures NoneBefore(s[n..], pat, |s| - n + 1)
  {
    assert s == s[..n] + s[n..];
    forall i: nat | i < |s| - n + 1 ensures !OccAt(s[n..], pat, i) {
      SuffixOcc(s[..n], s[n..], pat, i + n);
    }
  }

  /** Filling in indices makes no prefix of stack 0. */
  lemma {:induction false} FillMakesNoPrefix(s: string, k: nat)
    requires NoneBefore(s, P0, |s| + 1)
    ensures NoneBefore(FillHoles(s, k), P0, |FillHoles(s, k)| + 1)
    decreases |s|
  {
    if s != [] {
      var n := if OccAt(s, Hole, 0) then 16 else 1;
      var a := if n == 16 then Index(k) else [s[0]];
      var u := FillHoles(s[n..], k);
      NoneInTail(s, n, P0);
      FillMakesNoPrefix(s[n..], k);
      assert FillHoles(s, k) == a + u;
      forall i: nat | i < |a + u| + 1 ensures !OccAt(a + u, P0, i) {
        if i >= |a| {
          SuffixOcc(a, u, P0, i);
        } else if n == 16 {
          IndexStartsNoPrefix(u, k, i);
        } else if OccAt(a + u, P0, 0) {
          PrefixWasAtFront(s, k);
        }
      }
    }
  }

  // ----- the copy of one stack -----

  /** Both loops, one after the other, as each definition runs them for each stack. */
  function CopyOf(s: string, k: nat): string {
    FillHoles(if k == 0 then s else ForStack(s, k), k)
  }

  lemma CopyIsClear(s: string, k: nat)
    ensures !Occurs(CopyOf(s, k), Hole)
    ensures k > 0 ==> !Occurs(CopyOf(s, k), P0)
  {
    NoHoleLeft(if k == 0 then s else ForStack(s, k), k);
    if k > 0 {
      NoPrefixLeft(s, k);
      NoneOf(ForStack(s, k), P0);
      FillMakesNoPrefix(ForStack(s, k), k);
    }
  }

  lemma InsideOccurs(a: string, b: string, c: string, pat: string)
    requires Occurs(b, pat)
    ensures Occurs(a + b + c, pat)
  {
    var i: nat :| i <= |b| && OccAt(b, pat, i);
    assert (a + b + c)[|a| + i..|a| + i + |pat|] == b[i..i + |pat|];
    assert OccAt(a + b + c, pat, |a| + i);
  }

  lemma TouchedOccurs(p: Piece, k: nat)
    requires !Untouched(p, k)
    ensures Occurs(Final(p, k), Hole) || (k > 0 && Occurs(Final(p, k), P0))
  {
    match p
    case Txt(t) =>
    case InstRef(x) =>
      InsideOccurs("_GLOBAL_" + Dec(k), "_" + x + "_I", [], P0);
      assert InstanceName(x, k) == "_GLOBAL_" + Dec(k) + ("_" + x + "_I") + [];
    case SlotRef(x) =>
      InsideOccurs("global", "_" + x, Index(k), P0);
      assert OldName(x) + Index(k) == "global" + ("_" + x) + Index(k);
  }

  lemma {:induction false} ClearIsUntouched(ps: seq<Piece>, k: nat, before: string)
    requires !Occurs(before + FinalText(ps, k), Hole)
    requires k > 0 ==> !Occurs(before + FinalText(ps, k), P0)
    ensures AllUntouched(ps, k)
    decreases |ps|
  {
    hide Occurs, Untouched;
    if ps != [] {
      var f, rest := Final(ps[0], k), FinalText(ps[1..], k);
      assert before + FinalText(ps, k) == before + f + rest;
      ClearIsUntouched(ps[1..], k, before + f);
      if !Untouched(ps[0], k) {
        TouchedOccurs(ps[0], k);
        if Occurs(f, Hole) {
          InsideOccurs(before, f, rest, Hole);
        } else {
          InsideOccurs(before, f, rest, P0);
        }
      }
    }
  }

  /**
   The copy for stack `k` refers to the objects of stack `k` and is otherwise the text
   it was, exactly if no text or name contains the prefix of stack 0 or the index.
   */
  lemma CopyIsRightIff(ps: seq<Piece>, k: nat)
    requires Apart(ps)
    ensures CopyOf(RawText(ps), k) == FinalText(ps, k) <==> AllUntouched(ps, k)
  {
    if AllUntouched(ps, k) {
      if k == 0 { RawIsMiddle(ps); } else { AllMiddle(ps, k); }
      AllFinal(ps, k);
    } else if CopyOf(RawText(ps), k) == FinalText(ps, k) {
      CopyIsClear(RawText(ps), k);
      assert [] + FinalText(ps, k) == FinalText(ps, k);
      ClearIsUntouched(ps, k, []);
    }
  }

  method CopyFor(ps: seq<Piece>, k: nat) returns (init: string)
    requires Apart(ps)
    ensures init == FinalText(ps, k) <==> AllUntouched(ps, k)
    ensures !Occurs(init, Hole) && (k > 0 ==> !Occurs(init, P0))
  {
    init := ReplaceToplevel(RawText(ps), k);
    init := OldReplaceToplevel(init, k);
    CopyIsRightIff(ps, k);
    CopyIsClear(RawText(ps), k);
  }

  /** For a single name: the instance comes out under the name it is declared with, exactly if the name hides no prefix. */
  lemma InstanceRenamedIff(x: Name, k: nat)
    requires k > 0
    ensures ForStack(InstanceName(x, 0), k) == InstanceName(x, k) <==> !Occurs("_" + x + "_I", P0)
  {
    hide Occurs, ForStack;
    if Occurs("_" + x + "_I", P0) {
      NoPrefixLeft(InstanceName(x, 0), k);
      InsideOccurs("_GLOBAL_" + Dec(k), "_" + x + "_I", [], P0);
      assert InstanceName(x, k) == "_GLOBAL_" + Dec(k) + ("_" + x + "_I") + [];
    } else {
      InstanceForStack(x, k);
    }
  }

  /** A variable called GLOBAL_0_y is such a name. */
  lemma PrefixLikeNameIsRenamed(y: Name, k: nat)
    requires k > 0
    ensures ForStack(InstanceName("GLOBAL_0_" + y, 0), k) != InstanceName("GLOBAL_0_" + y, k)
  {
    var u := "_" + ("GLOBAL_0_" + y) + "_I";
    assert u[0..10] == P0;
    assert OccAt(u, P0, 0);
    InstanceRenamedIff("GLOBAL_0_" + y, k);
  }

  // ----- the initialisers of `Tables` -----

  function SpellInt(n: int): string {
    if n < 0 then "-" + Dec(-n) else Dec(n)
  }

  /** An initialiser as it is printed. */
  function SpellInit(i: Init): string {
    match i
    case Zero => ""
    case Num(n) => SpellInt(n)
    case AddrOf(x) => "&" + x
    case AddrSlot(x, k) => "&" + (OldName(x) + Index(k))
    case AddrInst(k, x) => "&" + InstanceName(x, k)
  }

  function Printed(i: Template): seq<Piece> {
    match i
    case Same(i) => [Txt(SpellInit(i))]
    case SlotOf(x) => [Txt("&"), SlotRef(x)]
    case InstOf(x) => [Txt("&"), InstRef(x)]
  }

  /** The text of a rewritten initialiser becomes that of its copy for stack `k`, as `Tables.Copies` has it. */
  lemma TemplateCopied(i: Template, k: nat)
    requires !i.Same? ==> IsIdent(i.x)
    ensures CopyOf(RawText(Printed(i)), k) == SpellInit(Copy(i, k)) <==> AllUntouched(Printed(i), k)
  {
    var ps := Printed(i);
    assert Apart(ps) by {
      assert Apart([]);
      if !i.Same? {
        assert ps[1..] == [ps[1]] && ps[1..][1..] == [];
        assert Apart(ps[1..]);
      }
    }
    assert FinalText(ps, k) == SpellInit(Copy(i, k)) by {
      if i.Same? {
        assert ps[1..] == [];
        assert FinalText(ps, k) == SpellInit(i.i) + [];
      } else {
        assert ps[1..] == [ps[1]] && ps[1..][1..] == [];
        assert FinalText(ps[1..], k) == Final(ps[1], k) + [] == Final(ps[1], k);
      }
    }
    CopyIsRightIff(ps, k);
  }

  lemma NoSuchChar(s: string, pat: string, j: nat)
    requires j < |pat| && pat[j] !in s
    ensures !Occurs(s, pat)
  {
    forall i: nat | i <= |s| ensures !OccAt(s, pat, i) {
      if i + j < |s| {
        assert s[i + j] in s;
        Mismatch(s, pat, i, j);
      }
    }
  }

  /** Text without 'G' and '[' and names without 'G' are never touched by accident. */
  lemma OrdinaryIsUntouched(p: Piece, k: nat)
    requires if p.Txt? then 'G' !in p.t && '[' !in p.t else 'G' !in p.x
    ensures Untouched(p, k)
  {
    hide Occurs;
    match p
    case Txt(t) => NoSuchChar(t, P0, 1); NoSuchChar(t, Hole, 0);
    case InstRef(x) => NoSuchChar("_" + x + "_I", P0, 1);
    case SlotRef(x) => NoSuchChar("_" + x, P0, 1);
  }

  /** Initialisers that begin or end with a reference or an identifier, and the empty one. */
  lemma OuterEndsAreFree(x: Name)
    requires IsIdent(x)
    ensures Apart([]) && Apart([InstRef(x)]) && Apart([Txt("1")])
    ensures Apart([Txt("sizeof("), SlotRef(x), Txt(")")])
  {
    var ps := [Txt("sizeof("), SlotRef(x), Txt(")")];
    assert ps[1..] == [SlotRef(x), Txt(")")] && ps[1..][1..] == [Txt(")")] && ps[1..][1..][1..] == [];
    assert Apart(ps[1..][1..]);
    assert Apart(ps[1..]);
  }
}
