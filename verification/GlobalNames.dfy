module GlobalNames {
  // The names the globaliser invents, and the text substitution that turns one
  // rewritten initialiser into the initialiser of each stack.

  import opened Decimal
  import opened CLanguage

  // ----- name builders -----

  function Prefix(k: nat): string {
    "_GLOBAL_" + Dec(k) + "_"
  }

  function InstanceName(x: Name, k: nat): string {
    Prefix(k) + x + "_I"
  }

  function ArrayName(x: Name, n: nat): string {
    "_GLOBAL_" + x + "_" + Dec(n) + "_A"
  }

  function TypeName(n: nat): string {
    "_GLOBAL_" + Dec(n) + "_T"
  }

  function OldName(x: Name): string {
    "global_" + x
  }

  function Spell(i: Ident): string {
    match i
    case Plain(x) => x
    case Arr(x) => OldName(x)
    case Inst(k, x) => InstanceName(x, k)
    case Ptrs(x, n) => ArrayName(x, n)
  }

  /** The position of the first '_'. */
  function FirstBar(s: string): (k: nat)
    ensures k <= |s|
  {
    if s == [] || s[0] == '_' then 0 else 1 + FirstBar(s[1..])
  }

  lemma {:induction false} FirstBarAfter(a: string, u: string)
    requires '_' !in a
    ensures FirstBar(a + "_" + u) == |a|
  {
    if a != [] {
      assert (a + "_" + u)[1..] == a[1..] + "_" + u;
      FirstBarAfter(a[1..], u);
    }
  }

  /** The position of the last '_', counted from the end. */
  function LastBar(s: string): (k: nat)
    ensures k <= |s|
  {
    if s == [] || s[|s| - 1] == '_' then 0 else 1 + LastBar(s[..|s| - 1])
  }

  lemma {:induction false} LastBarBefore(u: string, a: string)
    requires '_' !in a
    ensures LastBar(u + "_" + a) == |a|
  {
    if a != [] {
      assert (u + "_" + a)[..|u| + |a|] == u + "_" + a[..|a| - 1];
      LastBarBefore(u, a[..|a| - 1]);
    }
  }

  lemma SplitAtBar(a: string, u: string, b: string, v: string)
    requires a + "_" + u == b + "_" + v && '_' !in a && '_' !in b
    ensures a == b && u == v
  {
    var s, t := a + "_" + u, b + "_" + v;
    FirstBarAfter(a, u);
    FirstBarAfter(b, v);
    assert a == s[..|a|] && b == t[..|a|];
    assert u == s[|a| + 1..] && v == t[|a| + 1..];
  }

  lemma SplitAtLastBar(u: string, a: string, v: string, b: string)
    requires u + "_" + a == v + "_" + b && '_' !in a && '_' !in b
    ensures a == b && u == v
  {
    var s, t := u + "_" + a, v + "_" + b;
    LastBarBefore(u, a);
    LastBarBefore(v, b);
    assert u == s[..|u|] && v == t[..|u|];
    assert a == s[|u| + 1..] && b == t[|u| + 1..];
  }

  lemma DecNoBar(n: nat)
    ensures '_' !in Dec(n)
  {
    DecRoundTrip(n);
  }

  lemma InstanceInjective(x: Name, k: nat, y: Name, j: nat)
    requires InstanceName(x, k) == InstanceName(y, j)
    ensures x == y && k == j
  {
    DecNoBar(k);
    DecNoBar(j);
    var u, v := x + "_I", y + "_I";
    assert Dec(k) + "_" + u == InstanceName(x, k)[8..];
    assert Dec(j) + "_" + v == InstanceName(y, j)[8..];
    SplitAtBar(Dec(k), u, Dec(j), v);
    DecInjective(k, j);
    assert x == u[..|u| - 2] && y == v[..|v| - 2];
  }

  lemma ArrayInjective(x: Name, n: nat, y: Name, m: nat)
    requires ArrayName(x, n) == ArrayName(y, m)
    ensures x == y && n == m
  {
    DecNoBar(n);
    DecNoBar(m);
    var s, t := ArrayName(x, n), ArrayName(y, m);
    assert x + "_" + Dec(n) == s[8..|s| - 2];
    assert y + "_" + Dec(m) == t[8..|t| - 2];
    SplitAtLastBar(x, Dec(n), y, Dec(m));
    DecInjective(n, m);
  }

  // ----- the names of the source file that are spelled like a generated one -----

  predicate OldForm(s: Name) {
    "global_" <= s && |s| > 7
  }

  /** _GLOBAL_, a number, a name and _I. */
  predicate InstanceForm(s: Name) {
    && "_GLOBAL_" <= s && |s| >= 10 && s[|s| - 2..] == "_I"
    && var m := s[8..|s| - 2];
       var j := FirstBar(m);
       |m| >= j + 2 && m[j] == '_' && Numeral(m[..j])
  }

  /** _GLOBAL_, a name, a number and _A. */
  predicate ArrayForm(s: Name) {
    && "_GLOBAL_" <= s && |s| >= 10 && s[|s| - 2..] == "_A"
    && var m := s[8..|s| - 2];
       var j := LastBar(m);
       |m| >= j + 2 && m[|m| - j - 1] == '_' && Numeral(m[|m| - j..])
  }

  /** _GLOBAL_, a number and _T. */
  predicate TypeForm(s: Name) {
    "_GLOBAL_" <= s && |s| >= 10 && s[|s| - 2..] == "_T" && Numeral(s[8..|s| - 2])
  }

  predicate Reserved(s: Name) {
    OldForm(s) || InstanceForm(s) || ArrayForm(s) || TypeForm(s)
  }

  lemma Framed(s: string, a: string, z: string)
    requires |a| + |z| <= |s| && a <= s && s[|s| - |z|..] == z
    ensures s == a + s[|a|..|s| - |z|] + z
  {
  }

  lemma AtBar(m: string, i: nat)
    requires i < |m| && m[i] == '_'
    ensures m == m[..i] + "_" + m[i + 1..]
  {
  }

  lemma Flat(a: string, b: string, c: string, d: string, e: string)
    ensures a + (b + c + d) + e == a + b + c + d + e
  {
  }

  /** A name with a bar inside its frame, taken apart. */
  lemma TakenApart(s: string, z: string, m: string, i: nat, x: string, y: string)
    requires 8 + |z| <= |s| && "_GLOBAL_" <= s && s[|s| - |z|..] == z && m == s[8..|s| - |z|]
    requires i < |m| && m[i] == '_' && x == m[..i] && y == m[i + 1..]
    ensures s == "_GLOBAL_" + x + "_" + y + z
  {
    var a := "_GLOBAL_";
    assert |a| == 8;
    Framed(s, a, z);
    AtBar(m, i);
    Flat(a, x, "_", y, z);
  }

  lemma InstanceHasForm(x: Name, k: nat)
    requires x != []
    ensures InstanceForm(InstanceName(x, k))
  {
    var s := InstanceName(x, k);
    DecNoBar(k);
    DecIsNumeral(k);
    var m, d := s[8..|s| - 2], Dec(k);
    hide Dec;
    assert m == d + "_" + x;
    FirstBarAfter(d, x);
    hide FirstBar;
    assert m[..|d|] == d;
  }

  lemma FormIsInstance(s: Name) returns (x: Name, k: nat)
    requires InstanceForm(s)
    ensures x != [] && s == InstanceName(x, k)
  {
    var m := s[8..|s| - 2];
    var j := FirstBar(m);
    k := Decimal.Value(m[..j]);
    x := m[j + 1..];
    var d := m[..j];
    NumeralIsDec(d);
    hide Dec, Numeral, FirstBar, Decimal.Value;
    TakenApart(s, "_I", m, j, d, x);
  }

  lemma ArrayHasForm(x: Name, n: nat)
    requires x != []
    ensures ArrayForm(ArrayName(x, n))
  {
    var s := ArrayName(x, n);
    DecNoBar(n);
    DecIsNumeral(n);
    var m, d := s[8..|s| - 2], Dec(n);
    hide Dec;
    assert m == x + "_" + d;
    LastBarBefore(x, d);
    hide LastBar;
    assert m[|m| - |d|..] == d;
  }

  lemma FormIsArray(s: Name) returns (x: Name, n: nat)
    requires ArrayForm(s)
    ensures x != [] && s == ArrayName(x, n)
  {
    var m := s[8..|s| - 2];
    var j := LastBar(m);
    n := Decimal.Value(m[|m| - j..]);
    x := m[..|m| - j - 1];
    var d := m[|m| - j..];
    NumeralIsDec(d);
    hide Dec, Numeral, LastBar, Decimal.Value;
    TakenApart(s, "_A", m, |m| - j - 1, x, d);
  }

  lemma TypeHasForm(n: nat)
    ensures TypeForm(TypeName(n))
  {
    DecIsNumeral(n);
    assert TypeName(n)[8..|TypeName(n)| - 2] == Dec(n);
  }

  lemma FormIsType(s: Name) returns (n: nat)
    requires TypeForm(s)
    ensures s == TypeName(n)
  {
    var m := s[8..|s| - 2];
    n := Decimal.Value(m);
    NumeralIsDec(m);
    Framed(s, "_GLOBAL_", "_T");
  }

  /** Some variable, stack and number make the globaliser invent this name. */
  ghost predicate Invented(s: Name) {
    || (exists i: Ident :: !i.Plain? && i.x != [] && Spell(i) == s)
    || (exists n: nat :: TypeName(n) == s)
  }

  lemma SpelledIsReserved(i: Ident)
    requires !i.Plain? && i.x != []
    ensures Reserved(Spell(i))
  {
    hide InstanceForm, ArrayForm, TypeForm;
    match i
    case Arr(x) =>
    case Inst(k, x) => InstanceHasForm(x, k);
    case Ptrs(x, n) => ArrayHasForm(x, n);
  }

  /** The form of a name tells exactly whether the globaliser can invent it. */
  lemma ReservedIff(s: Name)
    ensures Reserved(s) <==> Invented(s)
  {
    hide InstanceForm, ArrayForm, TypeForm;
    if i: Ident :| !i.Plain? && i.x != [] && Spell(i) == s {
      SpelledIsReserved(i);
    }
    if n: nat :| TypeName(n) == s {
      TypeHasForm(n);
    }
    if OldForm(s) {
      assert s == OldName(s[7..]);
      assert Spell(Arr(s[7..])) == s;
    } else if InstanceForm(s) {
      var x, k := FormIsInstance(s);
      assert Spell(Inst(k, x)) == s;
    } else if ArrayForm(s) {
      var x, n := FormIsArray(s);
      assert Spell(Ptrs(x, n)) == s;
    } else if TypeForm(s) {
      var n := FormIsType(s);
    }
  }

  /** A generated name, or a name of the source file that is not spelled like one. */
  predicate Unreserved(i: Ident) {
    i.x != [] && (i.Plain? ==> !Reserved(i.x))
  }

  lemma Ends(i: Ident)
    ensures i.Arr? ==> Spell(i)[0] == 'g'
    ensures i.Inst? || i.Ptrs? ==> Spell(i)[0] == '_'
    ensures i.Inst? ==> Spell(i)[|Spell(i)| - 1] == 'I'
    ensures i.Ptrs? ==> Spell(i)[|Spell(i)| - 1] == 'A'
  {
  }

  lemma GeneratedInjective(i: Ident, j: Ident)
    requires !i.Plain? && !j.Plain? && Spell(i) == Spell(j)
    ensures i == j
  {
    Ends(i);
    Ends(j);
    match i
    case Arr(x) => assert x == Spell(i)[7..] && j.x == Spell(j)[7..];
    case Inst(k, x) => InstanceInjective(x, k, j.x, j.k);
    case Ptrs(x, n) => ArrayInjective(x, n, j.x, j.n);
  }

  /** Different identifiers are spelled differently: no generated name captures another or a name of the file. */
  lemma SpellInjective(i: Ident, j: Ident)
    requires Unreserved(i) && Unreserved(j) && Spell(i) == Spell(j)
    ensures i == j
  {
    hide Reserved;
    if !i.Plain? && !j.Plain? {
      GeneratedInjective(i, j);
    } else if !i.Plain? {
      SpelledIsReserved(i);
    } else if !j.Plain? {
      SpelledIsReserved(j);
    }
  }

  /** The names of generated types are distinct from each other and from every identifier. */
  lemma TypeNamesApart(n: nat, m: nat, i: Ident)
    requires Unreserved(i)
    ensures TypeName(n) == TypeName(m) ==> n == m
    ensures TypeName(n) != Spell(i)
  {
    hide InstanceForm, ArrayForm, TypeForm;
    Ends(i);
    TypeHasForm(n);
    if TypeName(n) == TypeName(m) {
      assert Dec(n) == TypeName(n)[8..|TypeName(n)| - 2];
      assert Dec(m) == TypeName(m)[8..|TypeName(m)| - 2];
      DecInjective(n, m);
    }
    assert TypeName(n)[|TypeName(n)| - 1] == 'T' && TypeName(n)[0] == '_';
  }

  /** A name of the file has its spelling to itself exactly if it is not reserved. */
  lemma OwnSpellingIff(x: Name)
    requires x != []
    ensures !Reserved(x) <==>
              && (forall j: Ident :: j.x != [] && Spell(j) == x ==> j == Plain(x))
              && (forall n: nat :: TypeName(n) != x)
  {
    hide Reserved;
    ReservedIff(x);
    if !Reserved(x) {
      forall j: Ident | j.x != [] && Spell(j) == x ensures j == Plain(x) {
        if !j.Plain? { SpelledIsReserved(j); }
      }
    } else if i: Ident :| !i.Plain? && i.x != [] && Spell(i) == x {
    } else {
      var n: nat :| TypeName(n) == x;
    }
  }

  /** Such a name is global_x, which is also what the array for x is called. */
  lemma ReservedNamesClash(x: Name)
    ensures Spell(Plain("global_" + x)) == Spell(Arr(x)) && Plain("global_" + x) != Arr(x)
  {
  }

  // ----- finding and replacing -----

  predicate OccAt(s: string, pat: string, i: nat) {
    i + |pat| <= |s| && s[i..i + |pat|] == pat
  }

  predicate Occurs(s: string, pat: string) {
    exists i: nat :: i <= |s| && OccAt(s, pat, i)
  }

  /** std::string::find: the leftmost occurrence, or |s| + 1 for npos. */
  method Find(s: string, pat: string) returns (loc: nat)
    ensures loc <= |s| ==> OccAt(s, pat, loc)
    ensures forall i: nat :: i < loc && i <= |s| ==> !OccAt(s, pat, i)
    ensures loc <= |s| + 1
  {
    loc := 0;
    while loc <= |s|
      invariant loc <= |s| + 1
      invariant forall i: nat :: i < loc && i <= |s| ==> !OccAt(s, pat, i)
    {
      if loc + |pat| <= |s| && s[loc..loc + |pat|] == pat { return; }
      loc := loc + 1;
    }
  }

  function Splice(s: string, loc: nat, n: nat, rep: string): string
    requires loc + n <= |s|
  {
    s[..loc] + rep + s[loc + n..]
  }

  lemma SpliceTail(s: string, loc: nat, n: nat, rep: string)
    requires 0 < loc && loc + n <= |s|
    ensures Splice(s, loc, n, rep)[0] == s[0]
    ensures Splice(s, loc, n, rep)[1..] == Splice(s[1..], loc - 1, n, rep)
  {
  }

  const P0: string := "_GLOBAL_0_"
  const Hole: string := "[get_stack_id()]"

  /** Every occurrence of the prefix of stack 0, overlapping ones too, becomes the prefix of stack `k`. */
  function ForStack(s: string, k: nat): string
    decreases |s|
  {
    if s == [] then []
    else if OccAt(s, P0, 0) then "_GLOBAL_" + Dec(k) + ForStack(s[9..], k)
    else [s[0]] + ForStack(s[1..], k)
  }

  function Count(s: string): nat
    decreases |s|
  {
    if s == [] then 0
    else if OccAt(s, P0, 0) then 1 + Count(s[9..])
    else Count(s[1..])
  }

  /** Every get_stack_id() index becomes the constant `k`. */
  function FillHoles(s: string, k: nat): string
    decreases |s|
  {
    if s == [] then []
    else if OccAt(s, Hole, 0) then Index(k) + FillHoles(s[16..], k)
    else [s[0]] + FillHoles(s[1..], k)
  }

  function Holes(s: string): nat
    decreases |s|
  {
    if s == [] then 0
    else if OccAt(s, Hole, 0) then 1 + Holes(s[16..])
    else Holes(s[1..])
  }

  lemma ShiftOcc(s: string, pat: string, i: nat)
    requires s != []
    ensures OccAt(s[1..], pat, i) <==> OccAt(s, pat, i + 1)
  {
    if i + 1 + |pat| <= |s| {
      assert s[1..][i..i + |pat|] == s[i + 1..i + 1 + |pat|];
    }
  }

  lemma Mismatch(s: string, pat: string, i: nat, j: nat)
    requires j < |pat| && i + j < |s| && s[i + j] != pat[j]
    ensures !OccAt(s, pat, i)
  {
    if i + |pat| <= |s| {
      assert s[i..i + |pat|][j] == s[i + j];
    }
  }

  lemma OccChar(s: string, pat: string, i: nat, j: nat)
    requires OccAt(s, pat, i) && j < |pat|
    ensures s[i + j] == pat[j]
  {
    assert s[i..i + |pat|][j] == s[i + j];
  }

  /** Only the characters under the pattern matter. */
  lemma SameWindow(s: string, t: string, pat: string)
    requires |pat| <= |s| && |pat| <= |t| && s[..|pat|] == t[..|pat|]
    ensures OccAt(s, pat, 0) <==> OccAt(t, pat, 0)
  {
  }

  ghost predicate NoneBefore(s: string, pat: string, n: nat) {
    forall i: nat :: i < n ==> !OccAt(s, pat, i)
  }

  lemma NoneBeforeTail(s: string, pat: string, n: nat)
    requires s != [] && NoneBefore(s, pat, n + 1)
    ensures NoneBefore(s[1..], pat, n)
  {
    forall i: nat | i < n ensures !OccAt(s[1..], pat, i) {
      ShiftOcc(s, pat, i);
    }
  }

  // ----- the prefix loop -----

  lemma {:induction false} NoOccUnchanged(s: string, k: nat)
    requires NoneBefore(s, P0, |s| + 1)
    ensures ForStack(s, k) == s && Count(s) == 0
    decreases |s|
  {
    if s != [] {
      NoneBeforeTail(s, P0, |s|);
      NoOccUnchanged(s[1..], k);
    }
  }

  lemma CopyOne(c: char, u: string, k: nat)
    requires !OccAt([c] + u, P0, 0)
    ensures ForStack([c] + u, k) == [c] + ForStack(u, k) && Count([c] + u) == Count(u)
  {
    assert ([c] + u)[1..] == u;
  }

  /** Text without '_' is copied: no occurrence starts inside it. */
  lemma {:induction false} LettersCopied(d: string, u: string, k: nat)
    requires '_' !in d
    ensures ForStack(d + u, k) == d + ForStack(u, k) && Count(d + u) == Count(u)
    decreases |d|
  {
    hide ForStack, Count, OccAt;
    if d == [] {
      assert d + u == u;
    } else {
      assert d + u == [d[0]] + (d[1..] + u);
      Mismatch(d + u, P0, 0, 0);
      CopyOne(d[0], d[1..] + u, k);
      LettersCopied(d[1..], u, k);
      assert d == [d[0]] + d[1..];
    }
  }

  /** The stem of another stack's prefix is copied. */
  lemma StemCopied(u: string, k: nat)
    requires u != [] && IsDigit(u[0]) && u[0] != '0'
    ensures ForStack("_GLOBAL_" + u, k) == "_GLOBAL_" + ForStack(u, k) && Count("_GLOBAL_" + u) == Count(u)
  {
    hide ForStack, Count, OccAt;
    var u1 := ['_'] + u;
    Mismatch(u1, P0, 0, 1);
    CopyOne('_', u, k);
    var u2 := "GLOBAL" + u1;
    LettersCopied("GLOBAL", u1, k);
    var u3 := ['_'] + u2;
    assert u3 == "_GLOBAL_" + u && u3[8] == u[0];
    Mismatch(u3, P0, 0, 8);
    CopyOne('_', u2, k);
    assert "_GLOBAL_" + ForStack(u, k) == ['_'] + ("GLOBAL" + (['_'] + ForStack(u, k)));
  }

  lemma CopyPrefix(s: string, k: nat)
    requires OccAt(s, P0, 0)
    ensures ForStack(s, k) == "_GLOBAL_" + Dec(k) + ForStack(s[9..], k) && Count(s) == 1 + Count(s[9..])
  {
  }

  lemma SpliceFront(s: string, k: nat)
    requires OccAt(s, P0, 0)
    ensures Splice(s, 0, |P0|, Prefix(k)) == "_GLOBAL_" + (Dec(k) + s[9..])
  {
    OccChar(s, P0, 0, 9);
    var d := Dec(k);
    assert s[9..] == "_" + s[10..];
    assert Prefix(k) + s[10..] == "_GLOBAL_" + (d + ("_" + s[10..]));
  }

  lemma OtherPrefixCopied(u: string, k: nat)
    requires k > 0
    ensures var s' := "_GLOBAL_" + (Dec(k) + u);
            ForStack(s', k) == "_GLOBAL_" + Dec(k) + ForStack(u, k) && Count(s') == Count(u)
  {
    DecRoundTrip(k);
    DecNoBar(k);
    var d := Dec(k);
    hide ForStack, Count, OccAt, Dec;
    assert (d + u)[0] == d[0];
    StemCopied(d + u, k);
    LettersCopied(d, u, k);
    assert "_GLOBAL_" + (d + ForStack(u, k)) == "_GLOBAL_" + d + ForStack(u, k);
  }

  /** The first occurrence, at the very start. */
  lemma PrefixStepHere(s: string, k: nat)
    requires k > 0 && OccAt(s, P0, 0)
    ensures var s' := Splice(s, 0, |P0|, Prefix(k));
            ForStack(s', k) == ForStack(s, k) && Count(s') == Count(s) - 1
  {
    SpliceFront(s, k);
    OtherPrefixCopied(s[9..], k);
    CopyPrefix(s, k);
  }

  /** A replacement further right does not complete an occurrence at the start. */
  lemma NoNewFirst(s: string, loc: nat, k: nat)
    requires loc > 0 && OccAt(s, P0, loc) && !OccAt(s, P0, 0)
    ensures !OccAt(Splice(s, loc, |P0|, Prefix(k)), P0, 0)
  {
    var s' := Splice(s, loc, |P0|, Prefix(k));
    OccChar(s, P0, loc, 0);
    if loc >= 9 {
      assert s'[..10] == s[..10];
      SameWindow(s, s', P0);
    } else {
      assert s'[loc] == '_' && s'[loc + 1] == 'G';
      if loc == 7 {
        Mismatch(s', P0, 0, 8);
      } else {
        Mismatch(s', P0, 0, loc);
      }
    }
  }

  lemma CopyHead(s: string, k: nat)
    requires s != [] && !OccAt(s, P0, 0)
    ensures ForStack(s, k) == [s[0]] + ForStack(s[1..], k) && Count(s) == Count(s[1..])
  {
  }

  /** Replacing the leftmost occurrence does not change what all replacements give, and leaves one occurrence fewer. */
  lemma {:induction false} PrefixStep(s: string, loc: nat, k: nat)
    requires k > 0 && OccAt(s, P0, loc) && NoneBefore(s, P0, loc)
    ensures var s' := Splice(s, loc, |P0|, Prefix(k));
            ForStack(s', k) == ForStack(s, k) && Count(s') == Count(s) - 1
    decreases loc
  {
    if loc == 0 {
      PrefixStepHere(s, k);
    } else {
      var s' := Splice(s, loc, |P0|, Prefix(k));
      ShiftOcc(s, P0, loc - 1);
      NoneBeforeTail(s, P0, loc - 1);
      PrefixStep(s[1..], loc - 1, k);
      NoNewFirst(s, loc, k);
      SpliceTail(s, loc, |P0|, Prefix(k));
      CopyHead(s, k);
      CopyHead(s', k);
    }
  }

  lemma {:induction false} OccCounted(s: string, i: nat)
    requires OccAt(s, P0, i)
    ensures Count(s) > 0
    decreases |s|
  {
    if !OccAt(s, P0, 0) {
      ShiftOcc(s, P0, i - 1);
      OccCounted(s[1..], i - 1);
    }
  }

  /** The replacement loop for instance names: it ends on every string, since one occurrence disappears per round. */
  method ReplaceToplevel(s: string, k: nat) returns (init: string)
    ensures init == if k == 0 then s else ForStack(s, k)
    ensures k > 0 ==> !Occurs(init, P0)
  {
    init := s;
    if k == 0 { return; }
    var loc: nat := Find(init, P0);
    while loc <= |init|
      invariant ForStack(init, k) == ForStack(s, k)
      invariant loc <= |init| ==> OccAt(init, P0, loc)
      invariant loc <= |init| + 1 && NoneBefore(init, P0, loc)
      decreases Count(init)
    {
      PrefixStep(init, loc, k);
      OccCounted(init, loc);
      init := Splice(init, loc, |P0|, Prefix(k));
      loc := Find(init, P0);
    }
    NoOccUnchanged(init, k);
  }

  // ----- the index loop -----

  lemma {:induction false} NoHoleUnchanged(s: string, k: nat)
    requires NoneBefore(s, Hole, |s| + 1)
    ensures FillHoles(s, k) == s && Holes(s) == 0
    decreases |s|
  {
    if s != [] {
      NoneBeforeTail(s, Hole, |s|);
      NoHoleUnchanged(s[1..], k);
    }
  }

  lemma CopyChar(c: char, u: string, k: nat)
    requires !OccAt([c] + u, Hole, 0)
    ensures FillHoles([c] + u, k) == [c] + FillHoles(u, k) && Holes([c] + u) == Holes(u)
  {
    assert ([c] + u)[1..] == u;
  }

  /** Text without '[' is copied. */
  lemma {:induction false} NoBracketCopied(d: string, u: string, k: nat)
    requires '[' !in d
    ensures FillHoles(d + u, k) == d + FillHoles(u, k) && Holes(d + u) == Holes(u)
    decreases |d|
  {
    hide FillHoles, Holes, OccAt;
    if d == [] {
      assert d + u == u;
    } else {
      assert d + u == [d[0]] + (d[1..] + u);
      Mismatch(d + u, Hole, 0, 0);
      CopyChar(d[0], d[1..] + u, k);
      NoBracketCopied(d[1..], u, k);
      assert d == [d[0]] + d[1..];
    }
  }

  function Index(k: nat): string {
    "[" + Dec(k) + "]"
  }

  lemma IndexCopied(u: string, k: nat, j: nat)
    ensures FillHoles(Index(j) + u, k) == Index(j) + FillHoles(u, k) && Holes(Index(j) + u) == Holes(u)
  {
    hide FillHoles, Holes, OccAt;
    DecRoundTrip(j);
    var d := Dec(j) + "]";
    assert Index(j) + u == ['['] + (d + u);
    assert (Index(j) + u)[1] == Dec(j)[0];
    Mismatch(Index(j) + u, Hole, 0, 1);
    CopyChar('[', d + u, k);
    NoBracketCopied(d, u, k);
    assert Index(j) + FillHoles(u, k) == ['['] + (d + FillHoles(u, k));
  }

  lemma NoNewHole(s: string, loc: nat, k: nat)
    requires loc > 0 && OccAt(s, Hole, loc) && !OccAt(s, Hole, 0)
    ensures !OccAt(Splice(s, loc, |Hole|, Index(k)), Hole, 0)
  {
    var s' := Splice(s, loc, |Hole|, Index(k));
    if loc >= 16 {
      assert s'[..16] == s[..16];
      SameWindow(s, s', Hole);
    } else {
      assert s'[loc] == '[';
      Mismatch(s', Hole, 0, loc);
    }
  }

  lemma {:induction false} HoleStep(s: string, loc: nat, k: nat)
    requires OccAt(s, Hole, loc) && NoneBefore(s, Hole, loc)
    ensures var s' := Splice(s, loc, |Hole|, Index(k));
            FillHoles(s', k) == FillHoles(s, k) && Holes(s') == Holes(s) - 1
    decreases loc
  {
    var s' := Splice(s, loc, |Hole|, Index(k));
    if loc == 0 {
      assert s' == Index(k) + s[16..];
      IndexCopied(s[16..], k, k);
    } else {
      ShiftOcc(s, Hole, loc - 1);
      NoneBeforeTail(s, Hole, loc - 1);
      HoleStep(s[1..], loc - 1, k);
      NoNewHole(s, loc, k);
      SpliceTail(s, loc, |Hole|, Index(k));
      assert s' == [s[0]] + s'[1..] && s == [s[0]] + s[1..];
      CopyChar(s[0], s'[1..], k);
      CopyChar(s[0], s[1..], k);
    }
  }

  lemma {:induction false} HoleCounted(s: string, i: nat)
    requires OccAt(s, Hole, i)
    ensures Holes(s) > 0
    decreases |s|
  {
    if !OccAt(s, Hole, 0) {
      ShiftOcc(s, Hole, i - 1);
      HoleCounted(s[1..], i - 1);
    }
  }

  /** The replacement loop for indices: each round removes one call of get_stack_id. */
  method OldReplaceToplevel(s: string, k: nat) returns (init: string)
    ensures init == FillHoles(s, k)
    ensures !Occurs(init, Hole)
  {
    init := s;
    var loc: nat := Find(init, Hole);
    while loc <= |init|
      invariant FillHoles(init, k) == FillHoles(s, k)
      invariant loc <= |init| ==> OccAt(init, Hole, loc)
      invariant loc <= |init| + 1 && NoneBefore(init, Hole, loc)
      decreases Holes(init)
    {
      HoleStep(init, loc, k);
      HoleCounted(init, loc);
      init := Splice(init, loc, |Hole|, Index(k));
      loc := Find(init, Hole);
    }
    NoHoleUnchanged(init, k);
  }
}
