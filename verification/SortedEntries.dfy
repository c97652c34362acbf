/**
 Pairs of a type and a path, sorted and without repetition.

 The order is that of the library: by type, then by text.  Sorting is an insertion sort
 here; `StrictIsUnique` shows that any other sort followed by the removal of equal
 neighbours has the same result.
 */
module SortedEntries {

  type Pair = (nat, string)

  predicate TextLess(a: string, b: string) {
    b != [] && (a == [] || a[0] < b[0] || (a[0] == b[0] && TextLess(a[1..], b[1..])))
  }

  predicate Less(a: Pair, b: Pair) {
    a.0 < b.0 || (a.0 == b.0 && TextLess(a.1, b.1))
  }

  lemma {:induction false} TextOrder(a: string, b: string)
    ensures TextLess(a, b) || a == b || TextLess(b, a)
    ensures !(TextLess(a, b) && TextLess(b, a)) && !TextLess(a, a)
  {
    if a != [] {
      TextOrder(a[1..], if b == [] then [] else b[1..]);
      if b != [] && a[0] == b[0] && a[1..] == b[1..] {
        assert a == [a[0]] + a[1..] == b;
      }
    }
  }

  /** The texts agree up to `n`, where the first one ends or has the smaller character. */
  predicate DiffersAt(a: string, b: string, n: nat) {
    n <= |a| && n < |b| && a[..n] == b[..n] && (n == |a| || a[n] < b[n])
  }

  lemma SameFirstChar(a: string, b: string, n: nat)
    ensures DiffersAt(a, b, n) && n > 0 ==> a != [] && b != [] && a[0] == b[0]
  {
    if DiffersAt(a, b, n) && n > 0 {
      assert a[0] == a[..n][0] && b[0] == b[..n][0];
    }
  }

  /** The order of texts is that of a dictionary. */
  lemma {:induction false} TextLessIff(a: string, b: string)
    ensures TextLess(a, b) <==> exists n: nat :: DiffersAt(a, b, n)
    decreases |a|
  {
    if a != [] && b != [] && a[0] == b[0] {
      TextLessIff(a[1..], b[1..]);
      if n: nat :| DiffersAt(a[1..], b[1..], n) {
        assert a[..n + 1] == [a[0]] + a[1..][..n] && b[..n + 1] == [b[0]] + b[1..][..n];
        assert DiffersAt(a, b, n + 1);
      }
      if n: nat :| DiffersAt(a, b, n) {
        assert n > 0;
        assert a[1..][..n - 1] == a[..n][1..] && b[1..][..n - 1] == b[..n][1..];
        assert DiffersAt(a[1..], b[1..], n - 1);
      }
    } else {
      if n: nat :| DiffersAt(a, b, n) {
        SameFirstChar(a, b, n);
      }
      if TextLess(a, b) {
        assert DiffersAt(a, b, 0);
      }
    }
  }

  lemma {:induction false} TextTransitive(a: string, b: string, c: string)
    requires TextLess(a, b) && TextLess(b, c)
    ensures TextLess(a, c)
  {
    if a != [] && a[0] == b[0] == c[0] {
      TextTransitive(a[1..], b[1..], c[1..]);
    }
  }

  lemma Transitive(a: Pair, b: Pair, c: Pair)
    requires Less(a, b) && Less(b, c)
    ensures Less(a, c)
  {
    if a.0 == b.0 == c.0 {
      TextTransitive(a.1, b.1, c.1);
    }
  }

  /** Neighbours in order; `Below` relates any two. */
  predicate Ascending(s: seq<Pair>) {
    forall i :: 0 < i < |s| ==> s[i - 1] == s[i] || Less(s[i - 1], s[i])
  }

  predicate Strict(s: seq<Pair>) {
    forall i :: 0 < i < |s| ==> Less(s[i - 1], s[i])
  }

  lemma {:induction false} Below(s: seq<Pair>, i: nat, j: nat)
    requires Strict(s) && i < j < |s|
    ensures Less(s[i], s[j]) && s[i] != s[j]
    decreases j
  {
    if i < j - 1 {
      Below(s, i, j - 1);
      Transitive(s[i], s[j - 1], s[j]);
    }
    TextOrder(s[i].1, s[j].1);
  }

  /** In a strictly sorted list the types ascend, and the paths of one type ascend as in a dictionary. */
  lemma StrictByType(s: seq<Pair>, i: nat, j: nat)
    requires Strict(s) && i < j < |s|
    ensures s[i].0 <= s[j].0
    ensures s[i].0 == s[j].0 ==> exists n: nat :: DiffersAt(s[i].1, s[j].1, n)
  {
    Below(s, i, j);
    TextLessIff(s[i].1, s[j].1);
  }

  function Insert(e: Pair, s: seq<Pair>): seq<Pair> {
    if s == [] || e == s[0] || Less(e, s[0]) then [e] + s else [s[0]] + Insert(e, s[1..])
  }

  function Sort(s: seq<Pair>): seq<Pair> {
    if s == [] then [] else Insert(s[0], Sort(s[1..]))
  }

  /** Keeps the first of each run of equal neighbours. */
  function Unique(s: seq<Pair>): seq<Pair> {
    if |s| < 2 then s else if s[0] == s[1] then Unique(s[1..]) else [s[0]] + Unique(s[1..])
  }

  lemma {:induction false} InsertSorts(e: Pair, s: seq<Pair>)
    requires Ascending(s)
    ensures Ascending(Insert(e, s)) && multiset(Insert(e, s)) == multiset(s) + multiset{e}
    ensures Insert(e, s)[0] == e || (s != [] && Insert(e, s)[0] == s[0])
  {
    hide TextLess;
    InsertPermutes(e, s);
    if !(s == [] || e == s[0] || Less(e, s[0])) {
      var r := Insert(e, s[1..]);
      AscendingTail(s);
      InsertSorts(e, s[1..]);
      TextOrder(e.1, s[0].1);
      hide Insert;
      assert r[0] == e || (|s| > 1 && r[0] == s[1]);
      AscendingCons(s[0], r);
    } else {
      AscendingCons(e, s);
    }
  }

  lemma AscendingTail(s: seq<Pair>)
    requires Ascending(s) && s != []
    ensures Ascending(s[1..])
  {
    hide Less;
    assert forall i :: 0 < i < |s[1..]| ==> s[1..][i - 1] == s[i] && s[1..][i] == s[i + 1];
  }

  lemma AscendingCons(a: Pair, r: seq<Pair>)
    requires Ascending(r) && (r == [] || a == r[0] || Less(a, r[0]))
    ensures Ascending([a] + r)
  {
    hide Less;
    var s := [a] + r;
    forall i | 0 < i < |s| ensures s[i - 1] == s[i] || Less(s[i - 1], s[i]) {
      assert s[i] == r[i - 1];
      if i > 1 { assert s[i - 1] == r[i - 2]; }
    }
  }

  lemma {:induction false} InsertPermutes(e: Pair, s: seq<Pair>)
    ensures multiset(Insert(e, s)) == multiset(s) + multiset{e}
  {
    hide Less;
    if !(s == [] || e == s[0] || Less(e, s[0])) {
      InsertPermutes(e, s[1..]);
      assert s == [s[0]] + s[1..];
    }
  }

  lemma {:induction false} SortSorts(s: seq<Pair>)
    ensures Ascending(Sort(s)) && multiset(Sort(s)) == multiset(s)
  {
    if s != [] {
      SortSorts(s[1..]);
      InsertSorts(s[0], Sort(s[1..]));
      assert s == [s[0]] + s[1..];
    }
  }

  lemma {:induction false} UniqueIsStrict(s: seq<Pair>)
    requires Ascending(s)
    ensures Strict(Unique(s)) && forall e :: e in Unique(s) <==> e in s
    ensures s != [] ==> Unique(s) != [] && Unique(s)[0] == s[0]
  {
    if |s| >= 2 {
      assert Ascending(s[1..]) by {
        assert forall i :: 0 < i < |s[1..]| ==> s[1..][i - 1] == s[i] && s[1..][i] == s[i + 1];
      }
      UniqueIsStrict(s[1..]);
      assert s == [s[0]] + s[1..];
    }
  }

  /** Whatever the sorting method: a strictly sorted list is determined by its elements. */
  lemma {:induction false} StrictIsUnique(a: seq<Pair>, b: seq<Pair>)
    requires Strict(a) && Strict(b) && forall e :: e in a <==> e in b
    ensures a == b
  {
    if a != [] { assert a[0] in b; }
    if b != [] { assert b[0] in a; }
    if a != [] {
      SameFirst(a, b);
      assert Strict(a[1..]) && Strict(b[1..]) by {
        assert forall i :: 0 < i < |a[1..]| ==> a[1..][i - 1] == a[i] && a[1..][i] == a[i + 1];
        assert forall i :: 0 < i < |b[1..]| ==> b[1..][i - 1] == b[i] && b[1..][i] == b[i + 1];
      }
      forall e ensures e in a[1..] <==> e in b[1..] {
        TailMember(a, e);
        TailMember(b, e);
      }
      StrictIsUnique(a[1..], b[1..]);
      assert a == [a[0]] + a[1..] && b == [b[0]] + b[1..];
    }
  }

  lemma TailMember(a: seq<Pair>, e: Pair)
    requires Strict(a) && a != []
    ensures e in a[1..] <==> e in a && e != a[0]
  {
    forall j | 0 < j < |a| ensures a[j] != a[0] {
      Below(a, 0, j);
    }
  }

  lemma SameFirst(a: seq<Pair>, b: seq<Pair>)
    requires Strict(a) && Strict(b) && a != [] && b != [] && forall e :: e in a <==> e in b
    ensures a[0] == b[0]
  {
    assert a[0] in b && b[0] in a;
    var i :| 0 <= i < |b| && b[i] == a[0];
    var j :| 0 <= j < |a| && a[j] == b[0];
    if i > 0 && j > 0 {
      Below(b, 0, i);
      Below(a, 0, j);
      TextOrder(a[0].1, b[0].1);
    }
  }
}
