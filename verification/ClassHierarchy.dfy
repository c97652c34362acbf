/** Class hierarchies of the bindings generator: the walk over base classes and the search for pure virtual methods. */
module ClassHierarchy {

  /** Classes are numbers; `bases[c]` are the bases of class `c` in the order they are declared. */
  type Hierarchy = seq<seq<nat>>

  /** Every base is a class of a smaller rank, so no class derives from itself. */
  predicate Acyclic(h: Hierarchy, rank: seq<nat>) {
    && |rank| == |h|
    && forall c, i :: 0 <= c < |h| && 0 <= i < |h[c]| ==> h[c][i] < |h| && rank[h[c][i]] < rank[c]
  }

  // ----- ancestors -----

  /** `p` leads from a class to one of its ancestors, base by base. */
  predicate Line(h: Hierarchy, p: seq<nat>) {
    && p != []
    && (forall i :: 0 <= i < |p| ==> p[i] < |h|)
    && (forall i :: 0 < i < |p| ==> p[i] in h[p[i - 1]])
  }

  predicate Joins(p: seq<nat>, c: nat, a: nat) {
    p != [] && p[0] == c && p[|p| - 1] == a
  }

  /** `a` is `c` or one of its direct or indirect bases. */
  ghost predicate Ancestor(h: Hierarchy, c: nat, a: nat) {
    exists p :: Line(h, p) && Joins(p, c, a)
  }

  // ----- the walk -----

  function Unvisited(bs: seq<nat>, visited: set<nat>): seq<nat> {
    if bs == [] then []
    else if bs[0] in visited then Unvisited(bs[1..], visited)
    else [bs[0]] + Unvisited(bs[1..], visited)
  }

  /** The number of ways up from a class; what a class in the queue can still cost. */
  ghost function Ways(h: Hierarchy, rank: seq<nat>, c: nat): nat
    requires Acyclic(h, rank) && c < |h|
    decreases rank[c], |h[c]| + 1
  {
    1 + WaysOf(h, rank, c, |h[c]|)
  }

  ghost function WaysOf(h: Hierarchy, rank: seq<nat>, c: nat, n: nat): nat
    requires Acyclic(h, rank) && c < |h| && n <= |h[c]|
    decreases rank[c], n
  {
    if n == 0 then 0 else WaysOf(h, rank, c, n - 1) + Ways(h, rank, h[c][n - 1])
  }

  predicate Inside(h: Hierarchy, q: seq<nat>) {
    forall i :: 0 <= i < |q| ==> q[i] < |h|
  }

  ghost function Total(h: Hierarchy, rank: seq<nat>, q: seq<nat>): nat
    requires Acyclic(h, rank) && Inside(h, q)
  {
    if q == [] then 0 else Total(h, rank, q[..|q| - 1]) + Ways(h, rank, q[|q| - 1])
  }

  lemma {:induction false} TotalAppend(h: Hierarchy, rank: seq<nat>, a: seq<nat>, b: seq<nat>)
    requires Acyclic(h, rank) && Inside(h, a) && Inside(h, b)
    ensures Inside(h, a + b) && Total(h, rank, a + b) == Total(h, rank, a) + Total(h, rank, b)
    decreases |b|
  {
    hide Acyclic, Ways;
    if b == [] {
      assert a + b == a;
    } else {
      var init := b[..|b| - 1];
      assert (a + b)[..|a + b| - 1] == a + init;
      TotalAppend(h, rank, a, init);
    }
  }

  lemma {:induction false} TotalBases(h: Hierarchy, rank: seq<nat>, c: nat, n: nat)
    requires Acyclic(h, rank) && c < |h| && n <= |h[c]|
    ensures Inside(h, h[c][..n]) && Total(h, rank, h[c][..n]) == WaysOf(h, rank, c, n)
    decreases n
  {
    if n > 0 {
      TotalBases(h, rank, c, n - 1);
      assert h[c][..n][..n - 1] == h[c][..n - 1];
    }
  }

  lemma {:induction false} TotalUnvisited(h: Hierarchy, rank: seq<nat>, bs: seq<nat>, visited: set<nat>)
    requires Acyclic(h, rank) && Inside(h, bs)
    ensures Inside(h, Unvisited(bs, visited)) && Total(h, rank, Unvisited(bs, visited)) <= Total(h, rank, bs)
  {
    hide Acyclic, Ways;
    if bs != [] {
      var rest := bs[1..];
      TotalUnvisited(h, rank, rest, visited);
      TotalAppend(h, rank, [bs[0]], rest);
      assert [bs[0]] + rest == bs;
      TotalAppend(h, rank, [bs[0]], Unvisited(rest, visited));
    }
  }

  /** Taking a class off the queue and adding bases of it makes the queue cheaper. */
  lemma QueueShrinks(h: Hierarchy, rank: seq<nat>, q: seq<nat>, visited: set<nat>)
    requires Acyclic(h, rank) && Inside(h, q) && q != []
    ensures var q' := q[1..] + Unvisited(h[q[0]], visited);
            Inside(h, q') && Total(h, rank, q') < Total(h, rank, q)
  {
    var c := q[0];
    TotalBases(h, rank, c, |h[c]|);
    assert h[c][..|h[c]|] == h[c];
    hide Acyclic, Unvisited;
    TotalUnvisited(h, rank, h[c], visited);
    TotalAppend(h, rank, q[1..], Unvisited(h[c], visited));
    TotalAppend(h, rank, [c], q[1..]);
    assert [c] + q[1..] == q;
    assert [c][..0] == [];
    assert Total(h, rank, [c]) == Ways(h, rank, c);
  }

  /** What the generator yields from a queue and a set of classes it has been to. */
  function Yields(h: Hierarchy, ghost rank: seq<nat>, q: seq<nat>, visited: set<nat>): seq<nat>
    requires Acyclic(h, rank) && Inside(h, q)
    decreases Total(h, rank, q)
  {
    if q == [] then []
    else
      QueueShrinks(h, rank, q, visited + {q[0]});
      [q[0]] + Yields(h, rank, q[1..] + Unvisited(h[q[0]], visited + {q[0]}), visited + {q[0]})
  }

  function Mro(h: Hierarchy, ghost rank: seq<nat>, c: nat): seq<nat>
    requires Acyclic(h, rank) && c < |h|
  {
    Yields(h, rank, [c], {})
  }

  /** The inner loop: queues the bases that have not been visited. */
  method PushBases(bs: seq<nat>, visited: set<nat>, q: seq<nat>) returns (q': seq<nat>)
    ensures q' == q + Unvisited(bs, visited)
  {
    q' := q;
    var i := 0;
    assert bs[0..] == bs;
    while i < |bs|
      invariant 0 <= i <= |bs|
      invariant q' + Unvisited(bs[i..], visited) == q + Unvisited(bs, visited)
    {
      assert bs[i..][1..] == bs[i + 1..];
      if bs[i] !in visited {
        q' := q' + [bs[i]];
      }
      i := i + 1;
    }
  }

  method GetMro(h: Hierarchy, ghost rank: seq<nat>, self: nat) returns (yielded: seq<nat>)
    requires Acyclic(h, rank) && self < |h|
    ensures yielded == Mro(h, rank, self)
  {
    var toVisit: seq<nat> := [self];
    var visited: set<nat> := {};
    yielded := [];
    while toVisit != []
      invariant Inside(h, toVisit)
      invariant yielded + Yields(h, rank, toVisit, visited) == Mro(h, rank, self)
      decreases Total(h, rank, toVisit)
    {
      hide Acyclic, Total, Unvisited;
      var cls := toVisit[0];
      visited := visited + {cls};
      QueueShrinks(h, rank, toVisit, visited);
      toVisit := toVisit[1..];
      yielded := yielded + [cls];
      toVisit := PushBases(h[cls], visited, toVisit);
    }
  }

  // ----- exactly the ancestors -----

  lemma {:induction false} UnvisitedMember(bs: seq<nat>, visited: set<nat>, b: nat)
    ensures b in Unvisited(bs, visited) <==> b in bs && b !in visited
  {
    if bs != [] {
      UnvisitedMember(bs[1..], visited, b);
    }
  }

  lemma StepUp(h: Hierarchy, root: nat, c: nat, b: nat)
    requires Ancestor(h, root, c) && c < |h| && b in h[c] && b < |h|
    ensures Ancestor(h, root, b)
  {
    var p :| Line(h, p) && Joins(p, root, c);
    assert Line(h, p + [b]) && Joins(p + [b], root, b);
  }

  lemma {:induction false} YieldsAncestors(h: Hierarchy, rank: seq<nat>, q: seq<nat>, visited: set<nat>, root: nat)
    requires Acyclic(h, rank) && Inside(h, q)
    requires forall i :: 0 <= i < |q| ==> Ancestor(h, root, q[i])
    ensures forall x :: x in Yields(h, rank, q, visited) ==> Ancestor(h, root, x)
    decreases Total(h, rank, q)
  {
    if q != [] {
      var c, v := q[0], visited + {q[0]};
      QueueShrinks(h, rank, q, v);
      var added := Unvisited(h[c], v);
      hide Ancestor, Total, Unvisited;
      forall i | 0 <= i < |added| ensures Ancestor(h, root, added[i]) {
        UnvisitedMember(h[c], v, added[i]);
        StepUp(h, root, c, added[i]);
      }
      YieldsAncestors(h, rank, q[1..] + added, v, root);
    }
  }

  lemma {:induction false} YieldsQueue(h: Hierarchy, rank: seq<nat>, q: seq<nat>, visited: set<nat>, x: nat)
    requires Acyclic(h, rank) && Inside(h, q) && x in q
    ensures x in Yields(h, rank, q, visited)
    decreases Total(h, rank, q)
  {
    var c, v := q[0], visited + {q[0]};
    QueueShrinks(h, rank, q, v);
    if x != c {
      hide Total, Unvisited, Acyclic;
      YieldsQueue(h, rank, q[1..] + Unvisited(h[c], v), v, x);
    }
  }

  /** Every base of what is yielded is yielded too, unless it was visited before. */
  lemma {:induction false} YieldsBases(h: Hierarchy, rank: seq<nat>, q: seq<nat>, visited: set<nat>, x: nat, b: nat)
    requires Acyclic(h, rank) && Inside(h, q) && x in Yields(h, rank, q, visited) && x < |h| && b in h[x]
    ensures b in visited || b in Yields(h, rank, q, visited)
    decreases Total(h, rank, q)
  {
    var c, v := q[0], visited + {q[0]};
    QueueShrinks(h, rank, q, v);
    var added := Unvisited(h[c], v);
    hide Total, Unvisited, Acyclic;
    if x == c {
      UnvisitedMember(h[c], v, b);
      if b in added {
        YieldsQueue(h, rank, q[1..] + added, v, b);
      }
    } else {
      YieldsBases(h, rank, q[1..] + added, v, x, b);
    }
  }

  lemma {:induction false} MroHoldsLine(h: Hierarchy, rank: seq<nat>, c: nat, p: seq<nat>)
    requires Acyclic(h, rank) && c < |h| && Line(h, p) && p[0] == c
    ensures p[|p| - 1] in Mro(h, rank, c)
    decreases |p|
  {
    if |p| == 1 {
      YieldsQueue(h, rank, [c], {}, c);
    } else {
      var init := p[..|p| - 1];
      MroHoldsLine(h, rank, c, init);
      YieldsBases(h, rank, [c], {}, init[|init| - 1], p[|p| - 1]);
    }
  }

  /** On every acyclic hierarchy the walk yields exactly the ancestors of a class, the class itself first. */
  lemma MroIsAncestors(h: Hierarchy, rank: seq<nat>, c: nat, a: nat)
    requires Acyclic(h, rank) && c < |h|
    ensures a in Mro(h, rank, c) <==> Ancestor(h, c, a)
    ensures Mro(h, rank, c) != [] && Mro(h, rank, c)[0] == c
  {
    assert Line(h, [c]) && Joins([c], c, c);
    YieldsAncestors(h, rank, [c], {}, c);
    if Ancestor(h, c, a) {
      var p :| Line(h, p) && Joins(p, c, a);
      MroHoldsLine(h, rank, c, p);
    }
  }

  /** Every class but those queued at first comes after a class that derives from it directly. */
  lemma {:induction false} DerivedFirst(h: Hierarchy, rank: seq<nat>, q: seq<nat>, visited: set<nat>, k: nat) returns (j: nat)
    requires Acyclic(h, rank) && Inside(h, q) && k < |Yields(h, rank, q, visited)|
    ensures var y := Yields(h, rank, q, visited);
            y[k] in q || (j < k && y[j] < |h| && y[k] in h[y[j]])
    decreases Total(h, rank, q)
  {
    j := 0;
    if k > 0 {
      var c, v := q[0], visited + {q[0]};
      QueueShrinks(h, rank, q, v);
      var added := Unvisited(h[c], v);
      hide Total, Unvisited, Acyclic;
      var i := DerivedFirst(h, rank, q[1..] + added, v, k - 1);
      var x := Yields(h, rank, q, visited)[k];
      if x in added {
        UnvisitedMember(h[c], v, x);
      } else {
        j := i + 1;
      }
    }
  }

  method IsSubclass(h: Hierarchy, ghost rank: seq<nat>, self: nat, other: nat) returns (b: bool)
    requires Acyclic(h, rank) && self < |h|
    ensures b <==> Ancestor(h, self, other)
  {
    var mro := GetMro(h, rank, self);
    MroIsAncestors(h, rank, self, other);
    b := other in mro;
  }

  // ----- single inheritance -----

  predicate Single(h: Hierarchy) {
    forall c :: 0 <= c < |h| ==> |h[c]| <= 1
  }

  function Chain(h: Hierarchy, ghost rank: seq<nat>, c: nat): seq<nat>
    requires Acyclic(h, rank) && c < |h|
    decreases rank[c]
  {
    if h[c] == [] then [c] else [c] + Chain(h, rank, h[c][0])
  }

  lemma {:induction false} YieldsChain(h: Hierarchy, rank: seq<nat>, c: nat, visited: set<nat>)
    requires Acyclic(h, rank) && Single(h) && c < |h|
    requires forall v :: v in visited ==> v < |h| && rank[v] > rank[c]
    ensures Yields(h, rank, [c], visited) == Chain(h, rank, c)
    decreases rank[c]
  {
    hide Yields, Unvisited, Total;
    if h[c] == [] {
      NoBases(visited + {c});
      Take(h, rank, [c], visited, []);
      assert [c][1..] + [] == [];
      YieldsNothing(h, rank, visited + {c});
    } else {
      var b := h[c][0];
      assert h[c] == [b] && b !in visited + {c};
      OneBase(b, visited + {c});
      Take(h, rank, [c], visited, [b]);
      assert [c][1..] + [b] == [b];
      YieldsChain(h, rank, b, visited + {c});
    }
  }

  lemma YieldsNothing(h: Hierarchy, rank: seq<nat>, visited: set<nat>)
    requires Acyclic(h, rank)
    ensures Yields(h, rank, [], visited) == []
  {
  }

  lemma NoBases(visited: set<nat>)
    ensures Unvisited([], visited) == []
  {
  }

  /** With single inheritance the walk is the chain of bases, each class once. */
  lemma MroIsChain(h: Hierarchy, rank: seq<nat>, c: nat)
    requires Acyclic(h, rank) && Single(h) && c < |h|
    ensures Mro(h, rank, c) == Chain(h, rank, c)
    ensures forall i, j :: 0 <= i < j < |Chain(h, rank, c)| ==> Chain(h, rank, c)[i] != Chain(h, rank, c)[j]
  {
    YieldsChain(h, rank, c, {});
    ChainDescends(h, rank, c);
    var s := Chain(h, rank, c);
    forall i, j | 0 <= i < j < |s| ensures s[i] != s[j] {
      FallingDistinct(h, rank, s, rank[c], i, j);
    }
  }

  predicate Falling(h: Hierarchy, rank: seq<nat>, s: seq<nat>, top: nat)
    requires |rank| == |h|
  {
    s == [] || (s[0] < |h| && rank[s[0]] <= top && (rank[s[0]] > 0 ==> Falling(h, rank, s[1..], rank[s[0]] - 1)) && (rank[s[0]] == 0 ==> |s| == 1))
  }

  lemma {:induction false} FallingDistinct(h: Hierarchy, rank: seq<nat>, s: seq<nat>, top: nat, i: nat, j: nat)
    requires |rank| == |h| && Falling(h, rank, s, top) && i < j < |s|
    ensures s[i] < |h| && s[j] < |h| && rank[s[j]] < rank[s[i]] <= top
  {
    if i > 0 {
      FallingDistinct(h, rank, s[1..], rank[s[0]] - 1, i - 1, j - 1);
    } else {
      FallingBelow(h, rank, s[1..], rank[s[0]] - 1, j - 1);
    }
  }

  lemma {:induction false} FallingBelow(h: Hierarchy, rank: seq<nat>, s: seq<nat>, top: nat, i: nat)
    requires |rank| == |h| && Falling(h, rank, s, top) && i < |s|
    ensures s[i] < |h| && rank[s[i]] <= top
  {
    if i > 0 {
      FallingBelow(h, rank, s[1..], rank[s[0]] - 1, i - 1);
    }
  }

  lemma {:induction false} FallingWider(h: Hierarchy, rank: seq<nat>, s: seq<nat>, top: nat, top': nat)
    requires |rank| == |h| && Falling(h, rank, s, top) && top <= top'
    ensures Falling(h, rank, s, top')
  {
  }

  lemma {:induction false} ChainDescends(h: Hierarchy, rank: seq<nat>, c: nat)
    requires Acyclic(h, rank) && c < |h|
    ensures Falling(h, rank, Chain(h, rank, c), rank[c])
    decreases rank[c]
  {
    if h[c] != [] {
      var b := h[c][0];
      ChainDescends(h, rank, b);
      FallingWider(h, rank, Chain(h, rank, b), rank[b], rank[c] - 1);
      assert Chain(h, rank, c)[1..] == Chain(h, rank, b);
    }
  }

  /** One class taken off the queue. */
  lemma Take(h: Hierarchy, rank: seq<nat>, q: seq<nat>, visited: set<nat>, added: seq<nat>)
    requires Acyclic(h, rank) && Inside(h, q) && q != [] && Unvisited(h[q[0]], visited + {q[0]}) == added
    ensures Inside(h, q[1..] + added)
    ensures Yields(h, rank, q, visited) == [q[0]] + Yields(h, rank, q[1..] + added, visited + {q[0]})
  {
    QueueShrinks(h, rank, q, visited + {q[0]});
  }

  // ----- how often a class is yielded -----

  /** How often `x` is named as a base by the classes of a walk that come before its first occurrence. */
  function NamedBefore(h: Hierarchy, y: seq<nat>, x: nat): nat
    requires Inside(h, y)
  {
    if y == [] || y[0] == x then 0 else multiset(h[y[0]])[x] + NamedBefore(h, y[1..], x)
  }

  lemma {:induction false} UnvisitedCount(bs: seq<nat>, visited: set<nat>, x: nat)
    ensures multiset(Unvisited(bs, visited))[x] == if x in visited then 0 else multiset(bs)[x]
  {
    if bs != [] {
      UnvisitedCount(bs[1..], visited, x);
      assert bs == [bs[0]] + bs[1..];
    }
  }

  lemma QueueCount(h: Hierarchy, q: seq<nat>, v: set<nat>, x: nat)
    requires Inside(h, q) && q != []
    ensures multiset(q[1..] + Unvisited(h[q[0]], v))[x]
         == multiset(q)[x] - (if q[0] == x then 1 else 0) + (if x in v then 0 else multiset(h[q[0]])[x])
  {
    UnvisitedCount(h[q[0]], v, x);
    assert q == [q[0]] + q[1..];
  }

  lemma {:induction false} YieldsInside(h: Hierarchy, rank: seq<nat>, q: seq<nat>, visited: set<nat>)
    requires Acyclic(h, rank) && Inside(h, q)
    ensures Inside(h, Yields(h, rank, q, visited))
    decreases Total(h, rank, q)
  {
    if q != [] {
      var v := visited + {q[0]};
      QueueShrinks(h, rank, q, v);
      hide Total, Unvisited, Acyclic;
      YieldsInside(h, rank, q[1..] + Unvisited(h[q[0]], v), v);
    }
  }

  /** A class that was visited comes out as often as it is queued already. */
  lemma {:induction false} VisitedCount(h: Hierarchy, rank: seq<nat>, q: seq<nat>, visited: set<nat>, x: nat)
    requires Acyclic(h, rank) && Inside(h, q) && x in visited
    ensures multiset(Yields(h, rank, q, visited))[x] == multiset(q)[x]
    decreases Total(h, rank, q)
  {
    if q != [] {
      var v := visited + {q[0]};
      QueueShrinks(h, rank, q, v);
      QueueCount(h, q, v, x);
      hide Total, Unvisited, Acyclic;
      VisitedCount(h, rank, q[1..] + Unvisited(h[q[0]], v), v, x);
    }
  }

  /** Any other class comes out once for each place in the queue and each time it is named before it comes out. */
  lemma {:induction false} YieldsCount(h: Hierarchy, rank: seq<nat>, q: seq<nat>, visited: set<nat>, x: nat)
    requires Acyclic(h, rank) && Inside(h, q) && x !in visited
    ensures var y := Yields(h, rank, q, visited);
            Inside(h, y) && multiset(y)[x] == multiset(q)[x] + NamedBefore(h, y, x)
    decreases Total(h, rank, q)
  {
    YieldsInside(h, rank, q, visited);
    if q != [] {
      var v := visited + {q[0]};
      QueueShrinks(h, rank, q, v);
      QueueCount(h, q, v, x);
      hide Total, Unvisited, Acyclic;
      var q' := q[1..] + Unvisited(h[q[0]], v);
      var y, y' := Yields(h, rank, q, visited), Yields(h, rank, q', v);
      assert y == [q[0]] + y' && y[1..] == y';
      if q[0] == x {
        VisitedCount(h, rank, q', v, x);
      } else {
        YieldsCount(h, rank, q', v, x);
      }
    }
  }

  /**
   How often the walk from `c` yields a class: as often as the classes in front of its first
   occurrence name it as a base.  So a class is yielded twice exactly if it is named again
   while it is still in the queue.
   */
  lemma MroCount(h: Hierarchy, rank: seq<nat>, c: nat, x: nat)
    requires Acyclic(h, rank) && c < |h|
    ensures var y := Mro(h, rank, c);
            && Inside(h, y)
            && multiset(y)[x] == (if x == c then 1 else NamedBefore(h, y, x))
  {
    YieldsCount(h, rank, [c], {}, x);
    MroIsAncestors(h, rank, c, c);
  }

  predicate Repeats(y: seq<nat>) {
    exists i, j :: 0 <= i < j < |y| && y[i] == y[j]
  }

  /** A class that comes twice has two places. */
  lemma CountedTwice(y: seq<nat>, x: nat)
    requires multiset(y)[x] >= 2
    ensures Repeats(y)
  {
    var i, j := TwoPlaces(y, x);
  }

  // ----- the walk that marks a class when it is queued -----

  function Members(s: seq<nat>): set<nat> {
    set x | x in s
  }

  /** The elements of a list in order, without those of `seen` and each once. */
  function Firsts(s: seq<nat>, seen: set<nat>): (r: seq<nat>)
    ensures forall x :: x in r <==> x in s && x !in seen
  {
    if s == [] then []
    else if s[0] in seen then Firsts(s[1..], seen)
    else [s[0]] + Firsts(s[1..], seen + {s[0]})
  }

  function Upto(n: nat): (r: set<nat>)
    ensures forall c: nat :: c in r <==> c < n
  {
    if n == 0 then {} else Upto(n - 1) + {n - 1}
  }

  /** Every base is a class. */
  predicate Closed(h: Hierarchy) {
    forall c, i :: 0 <= c < |h| && 0 <= i < |h[c]| ==> h[c][i] < |h|
  }

  ghost function Unseen(h: Hierarchy, seen: set<nat>): nat {
    |Upto(|h|) - seen|
  }

  lemma FewerUnseen(h: Hierarchy, seen: set<nat>, added: seq<nat>)
    requires Inside(h, added) && (forall x :: x in added ==> x !in seen)
    ensures added != [] ==> Unseen(h, seen + Members(added)) < Unseen(h, seen)
    ensures added == [] ==> seen + Members(added) == seen
  {
    if added != [] {
      var rest := Upto(|h|) - (seen + Members(added));
      assert added[0] in Upto(|h|) - seen && added[0] !in rest;
      Smaller(rest, Upto(|h|) - seen, added[0]);
    }
  }

  /** Each step sees a new class or shortens the queue. */
  lemma OrderShrinks(h: Hierarchy, q: seq<nat>, seen: set<nat>)
    requires Closed(h) && Inside(h, q) && q != []
    ensures var added := Firsts(h[q[0]], seen);
            var q', seen' := q[1..] + added, seen + Members(added);
            && Inside(h, q')
            && (Unseen(h, seen') < Unseen(h, seen) || (Unseen(h, seen') == Unseen(h, seen) && |q'| < |q|))
  {
    assert Inside(h, h[q[0]]);
    FirstsInside(h, h[q[0]], seen);
    QueueWith(h, q, seen, Firsts(h[q[0]], seen));
  }

  lemma QueueWith(h: Hierarchy, q: seq<nat>, seen: set<nat>, added: seq<nat>)
    requires Inside(h, q) && q != [] && Inside(h, added) && (forall x :: x in added ==> x !in seen)
    ensures var q', seen' := q[1..] + added, seen + Members(added);
            && Inside(h, q')
            && (Unseen(h, seen') < Unseen(h, seen) || (Unseen(h, seen') == Unseen(h, seen) && |q'| < |q|))
  {
    FewerUnseen(h, seen, added);
    hide Unseen, Members;
    var q' := q[1..] + added;
    forall i | 0 <= i < |q'| ensures q'[i] < |h| {
      if i < |q| - 1 { assert q'[i] == q[i + 1]; } else { assert q'[i] == added[i - (|q| - 1)]; }
    }
  }

  lemma Smaller(a: set<nat>, b: set<nat>, x: nat)
    requires a <= b && x in b && x !in a
    ensures |a| < |b|
  {
    assert a <= b - {x};
    SubsetSize(a, b - {x});
  }

  lemma {:induction false} SubsetSize(a: set<nat>, b: set<nat>)
    requires a <= b
    ensures |a| <= |b|
  {
    if a != {} {
      var x :| x in a;
      SubsetSize(a - {x}, b - {x});
    }
  }

  /** The breadth-first order: each class once, queued by the first class that names it. */
  function Order(h: Hierarchy, q: seq<nat>, seen: set<nat>): seq<nat>
    requires Closed(h) && Inside(h, q)
    decreases Unseen(h, seen), |q|
  {
    if q == [] then []
    else
      OrderShrinks(h, q, seen);
      var added := Firsts(h[q[0]], seen);
      [q[0]] + Order(h, q[1..] + added, seen + Members(added))
  }

  lemma FirstsInside(h: Hierarchy, s: seq<nat>, seen: set<nat>)
    requires Inside(h, s)
    ensures Inside(h, Firsts(s, seen))
  {
    var r := Firsts(s, seen);
    forall i | 0 <= i < |r| ensures r[i] < |h| {
      assert r[i] in r;
      var j :| 0 <= j < |s| && s[j] == r[i];
    }
  }

  lemma {:induction false} FirstsAppend(a: seq<nat>, b: seq<nat>, seen: set<nat>)
    ensures Firsts(a + b, seen) == Firsts(a, seen) + Firsts(b, seen + Members(a))
    decreases |a|
  {
    if a == [] {
      assert a + b == b && seen + Members(a) == seen;
    } else {
      assert (a + b)[1..] == a[1..] + b;
      var seen' := if a[0] in seen then seen else seen + {a[0]};
      FirstsAppend(a[1..], b, seen');
      assert seen' + Members(a[1..]) == seen + Members(a);
    }
  }

  lemma {:induction false} FirstsUnvisited(bs: seq<nat>, visited: set<nat>, seen: set<nat>)
    requires visited <= seen
    ensures Firsts(Unvisited(bs, visited), seen) == Firsts(bs, seen)
    decreases |bs|
  {
    if bs != [] {
      FirstsUnvisited(bs[1..], visited, seen);
      if bs[0] !in visited {
        assert ([bs[0]] + Unvisited(bs[1..], visited))[1..] == Unvisited(bs[1..], visited);
        FirstsUnvisited(bs[1..], visited, seen + {bs[0]});
      }
    }
  }

  lemma MembersUnvisited(bs: seq<nat>, visited: set<nat>)
    ensures Members(Unvisited(bs, visited)) == Members(bs) - visited
  {
    forall b ensures b in Unvisited(bs, visited) <==> b in bs && b !in visited {
      UnvisitedMember(bs, visited, b);
    }
  }

  /** The bases of every visited class are visited or in the queue. */
  ghost predicate BasesKnown(h: Hierarchy, q: seq<nat>, visited: set<nat>) {
    forall c, b :: c in visited && c < |h| && b in h[c] ==> b in visited || b in q
  }

  lemma KnownStep(h: Hierarchy, q: seq<nat>, visited: set<nat>)
    requires Inside(h, q) && q != [] && BasesKnown(h, q, visited)
    ensures var v := visited + {q[0]};
            BasesKnown(h, q[1..] + Unvisited(h[q[0]], v), v)
  {
    var v := visited + {q[0]};
    forall c, b | c in v && c < |h| && b in h[c] ensures b in v || b in q[1..] + Unvisited(h[q[0]], v) {
      if c == q[0] {
        UnvisitedMember(h[c], v, b);
      }
    }
  }

  /** A class that is taken off again adds only classes that are queued already. */
  lemma AgainAddsNothing(h: Hierarchy, q: seq<nat>, visited: set<nat>)
    requires Inside(h, q) && q != [] && q[0] in visited && BasesKnown(h, q, visited)
    ensures var q' := q[1..] + Unvisited(h[q[0]], visited);
            Firsts(q', visited) == Firsts(q, visited) && visited + Members(q') == visited + Members(q)
  {
    var c, rest := q[0], q[1..];
    var u := Unvisited(h[c], visited);
    forall b | b in u ensures b in visited + Members(rest) {
      UnvisitedMember(h[c], visited, b);
    }
    hide Unvisited, BasesKnown;
    FirstsAppend(rest, u, visited);
    NoFirsts(u, visited + Members(rest));
    assert Firsts(q, visited) == Firsts(rest, visited);
    assert visited + Members(rest + u) == visited + Members(q);
  }

  lemma {:induction false} NoFirsts(u: seq<nat>, seen: set<nat>)
    requires forall b :: b in u ==> b in seen
    ensures Firsts(u, seen) == []
  {
    if u != [] {
      NoFirsts(u[1..], seen);
    }
  }

  /** A class that is taken off for the first time adds to both queues alike. */
  lemma FirstAddsAlike(h: Hierarchy, q: seq<nat>, visited: set<nat>)
    requires Inside(h, q) && q != [] && q[0] !in visited
    ensures var v, seen := visited + {q[0]}, visited + Members(q);
            var q', added := q[1..] + Unvisited(h[q[0]], v), Firsts(h[q[0]], seen);
            && Firsts(q, visited) == [q[0]] + Firsts(q[1..], v)
            && Firsts(q', v) == Firsts(q[1..], v) + added && v + Members(q') == seen + Members(added)
  {
    var c, v, seen := q[0], visited + {q[0]}, visited + Members(q);
    var u := Unvisited(h[c], v);
    FirstsAppend(q[1..], u, v);
    assert v + Members(q[1..]) == seen;
    FirstsUnvisited(h[c], v, seen);
    MembersUnvisited(h[c], v);
    assert v + Members(q[1..] + u) == seen + Members(u);
    assert seen + Members(u) == seen + Members(h[c]) == seen + Members(Firsts(h[c], seen));
  }

  lemma OrderStep(h: Hierarchy, q: seq<nat>, visited: set<nat>)
    requires Closed(h) && Inside(h, q) && q != [] && q[0] !in visited
    ensures var v := visited + {q[0]};
            var q' := q[1..] + Unvisited(h[q[0]], v);
            && Inside(h, Firsts(q, visited)) && Inside(h, Firsts(q', v))
            && Order(h, Firsts(q, visited), visited + Members(q)) == [q[0]] + Order(h, Firsts(q', v), v + Members(q'))
  {
    var v, seen := visited + {q[0]}, visited + Members(q);
    FirstAddsAlike(h, q, visited);
    FirstsInside(h, q, visited);
    FirstsInside(h, q[1..], v);
    FirstsInside(h, h[q[0]], seen);
    hide Firsts, Unvisited, Members;
    var w := Firsts(q, visited);
    assert w[0] == q[0] && w[1..] == Firsts(q[1..], v);
  }

  /** The first occurrences in the walk of the code are the breadth-first order. */
  lemma {:induction false} FirstsAreOrder(h: Hierarchy, rank: seq<nat>, q: seq<nat>, visited: set<nat>)
    requires Acyclic(h, rank) && Closed(h) && Inside(h, q) && BasesKnown(h, q, visited)
    ensures Inside(h, Firsts(q, visited))
    ensures Firsts(Yields(h, rank, q, visited), visited) == Order(h, Firsts(q, visited), visited + Members(q))
    decreases Total(h, rank, q)
  {
    FirstsInside(h, q, visited);
    if q != [] {
      var c, v := q[0], visited + {q[0]};
      QueueShrinks(h, rank, q, v);
      KnownStep(h, q, visited);
      var q' := q[1..] + Unvisited(h[c], v);
      var y' := Yields(h, rank, q', v);
      assert Yields(h, rank, q, visited) == [c] + y';
      assert ([c] + y')[1..] == y';
      if c in visited {
        assert v == visited;
        AgainAddsNothing(h, q, visited);
      } else {
        OrderStep(h, q, visited);
      }
      hide Acyclic, Total, Unvisited, BasesKnown, Yields, Order, Members;
      FirstsAreOrder(h, rank, q', v);
    }
  }

  lemma MroFirsts(h: Hierarchy, rank: seq<nat>, c: nat)
    requires Acyclic(h, rank) && c < |h|
    ensures Closed(h) && Firsts(Mro(h, rank, c), {}) == Order(h, [c], {c})
  {
    AcyclicClosed(h, rank);
    hide Acyclic, Closed, Firsts, Order, Yields, Members;
    FirstsOne(c);
    FirstsAreOrder(h, rank, [c], {});
  }

  lemma AcyclicClosed(h: Hierarchy, rank: seq<nat>)
    requires Acyclic(h, rank)
    ensures Closed(h)
  {
  }

  lemma FirstsOne(c: nat)
    ensures Firsts([c], {}) == [c] && {} + Members([c]) == {c}
  {
    var none: seq<nat> := [];
    assert [c][1..] == none;
    assert Firsts(none, {} + {c}) == none;
  }

  // ----- repetitions -----

  lemma {:induction false} FirstsNameLess(h: Hierarchy, y: seq<nat>, seen: set<nat>, x: nat)
    requires Inside(h, y) && x !in seen
    ensures Inside(h, Firsts(y, seen)) && NamedBefore(h, Firsts(y, seen), x) <= NamedBefore(h, y, x)
    decreases |y|
  {
    FirstsInside(h, y, seen);
    if y != [] && y[0] != x {
      FirstsNameLess(h, y[1..], if y[0] in seen then seen else seen + {y[0]}, x);
      if y[0] !in seen {
        assert Firsts(y, seen)[1..] == Firsts(y[1..], seen + {y[0]});
      }
    }
  }

  /** As long as nothing has come twice, both walks are the same. */
  lemma {:induction false} SameSoFar(h: Hierarchy, y: seq<nat>, i: nat, seen: set<nat>)
    requires Inside(h, y) && i < |y| && !Repeats(y[..i + 1]) && (forall x :: x in y[..i + 1] ==> x !in seen)
    ensures Inside(h, Firsts(y, seen)) && NamedBefore(h, Firsts(y, seen), y[i]) == NamedBefore(h, y, y[i])
    decreases i
  {
    FirstsInside(h, y, seen);
    var p := y[..i + 1];
    assert p[0] in p;
    if i > 0 {
      TailDistinct(p);
      hide Repeats;
      assert y[1..][..i] == p[1..] && y[i] == p[1..][i - 1];
      assert y[i] in p[1..];
      SameSoFar(h, y[1..], i - 1, seen + {y[0]});
      assert Firsts(y, seen)[1..] == Firsts(y[1..], seen + {y[0]});
    }
  }

  lemma TailDistinct(p: seq<nat>)
    requires !Repeats(p) && p != []
    ensures !Repeats(p[1..]) && p[0] !in p[1..]
  {
    var u := p[1..];
    forall i, j | 0 <= i < j < |u| ensures u[i] != u[j] {
      assert u[i] == p[i + 1] && u[j] == p[j + 1];
    }
    forall j | 0 <= j < |u| ensures u[j] != p[0] {
      assert u[j] == p[j + 1];
    }
  }

  lemma PrefixDistinct(p: seq<nat>, n: nat)
    requires !Repeats(p) && n <= |p|
    ensures !Repeats(p[..n])
  {
    forall i, j | 0 <= i < j < n ensures p[..n][i] != p[..n][j] {
      assert p[..n][i] == p[i] && p[..n][j] == p[j];
    }
  }

  lemma AppendDistinct(p: seq<nat>, x: nat)
    ensures !Repeats(p) && x !in p ==> !Repeats(p + [x])
  {
    if !Repeats(p) && x !in p {
      forall i, j | 0 <= i < j < |p + [x]| ensures (p + [x])[i] != (p + [x])[j] {
        assert (p + [x])[i] == p[i];
        if j < |p| { assert (p + [x])[j] == p[j]; }
      }
    }
  }

  /** A class that comes twice and in front of whose first occurrence nothing does. */
  lemma {:induction false} EarliestRepeat(y: seq<nat>) returns (i: nat)
    requires Repeats(y)
    ensures i < |y| && !Repeats(y[..i + 1]) && multiset(y)[y[i]] >= 2
    decreases |y|
  {
    var n := |y| - 1;
    var init := y[..n];
    assert y == init + [y[n]];
    hide Repeats;
    if Repeats(init) {
      i := EarliestRepeat(init);
      assert y[..i + 1] == init[..i + 1];
    } else {
      AppendDistinct(init, y[n]);
      i :| 0 <= i < n && init[i] == y[n];
      PrefixDistinct(init, i + 1);
      assert y[..i + 1] == init[..i + 1] && y[n] in multiset(init);
    }
  }

  /**
   The walk yields some class twice exactly if, in the breadth-first order of the hierarchy,
   the classes in front of some class name it at two places.
   */
  lemma MroRepeatsIff(h: Hierarchy, rank: seq<nat>, c: nat)
    requires Acyclic(h, rank) && c < |h|
    ensures Closed(h) && Inside(h, Order(h, [c], {c}))
    ensures Repeats(Mro(h, rank, c)) <==> exists x :: NamedBefore(h, Order(h, [c], {c}), x) >= 2
  {
    hide Mro, NamedBefore, Repeats, Acyclic, Order, Firsts;
    var y := Mro(h, rank, c);
    MroCount(h, rank, c, c);
    MroFirsts(h, rank, c);
    var w := Order(h, [c], {c});
    FirstsInside(h, y, {});
    if Repeats(y) {
      var i := EarliestRepeat(y);
      SameSoFar(h, y, i, {});
      MroCount(h, rank, c, y[i]);
      assert NamedBefore(h, w, y[i]) >= 2;
    }
    if x :| NamedBefore(h, w, x) >= 2 {
      FirstsNameLess(h, y, {}, x);
      FirstNamesNone(h, rank, c);
      MroCount(h, rank, c, x);
      CountedTwice(y, x);
    }
  }

  lemma FirstNamesNone(h: Hierarchy, rank: seq<nat>, c: nat)
    requires Acyclic(h, rank) && c < |h| && Inside(h, Mro(h, rank, c))
    ensures NamedBefore(h, Mro(h, rank, c), c) == 0
  {
    MroIsAncestors(h, rank, c, c);
  }

  // ----- a hierarchy without repetitions -----

  /** Among the ancestors of `c` no class is named at two places. */
  ghost predicate NamedOnce(h: Hierarchy, c: nat) {
    forall a: nat, i: nat, b: nat, j: nat ::
      Ancestor(h, c, a) && Ancestor(h, c, b) && a < |h| && b < |h| && i < |h[a]| && j < |h[b]| && h[a][i] == h[b][j] ==> a == b && i == j
  }

  lemma {:induction false} NamedSomewhere(h: Hierarchy, w: seq<nat>, x: nat) returns (a: nat, i: nat)
    requires Inside(h, w) && NamedBefore(h, w, x) >= 1
    ensures a in w && a < |h| && i < |h[a]| && h[a][i] == x
    decreases |w|
  {
    a := w[0];
    if x in multiset(h[a]) {
      i :| 0 <= i < |h[a]| && h[a][i] == x;
    } else {
      a, i := NamedSomewhere(h, w[1..], x);
    }
  }

  lemma {:induction false} TwoPlaces(s: seq<nat>, x: nat) returns (i: nat, j: nat)
    requires multiset(s)[x] >= 2
    ensures i < j < |s| && s[i] == s[j] == x
    decreases |s|
  {
    var n := |s| - 1;
    var init := s[..n];
    assert s == init + [s[n]];
    if s[n] == x {
      assert x in multiset(init);
      i :| 0 <= i < n && init[i] == x;
      j := n;
    } else {
      i, j := TwoPlaces(init, x);
    }
  }

  /** Two base entries that name a class. */
  lemma {:induction false} NamedTwice(h: Hierarchy, w: seq<nat>, x: nat) returns (a: nat, i: nat, b: nat, j: nat)
    requires Inside(h, w) && !Repeats(w) && NamedBefore(h, w, x) >= 2
    ensures a in w && b in w && a < |h| && b < |h| && i < |h[a]| && j < |h[b]| && h[a][i] == h[b][j] == x
    ensures a != b || i != j
    decreases |w|
  {
    TailDistinct(w);
    hide Repeats;
    a, b := w[0], w[0];
    if multiset(h[a])[x] >= 2 {
      i, j := TwoPlaces(h[a], x);
    } else if multiset(h[a])[x] == 1 {
      assert x in multiset(h[a]);
      i :| 0 <= i < |h[a]| && h[a][i] == x;
      b, j := NamedSomewhere(h, w[1..], x);
    } else {
      a, i, b, j := NamedTwice(h, w[1..], x);
    }
  }

  lemma {:induction false} FirstsDistinct(s: seq<nat>, seen: set<nat>)
    ensures !Repeats(Firsts(s, seen))
    decreases |s|
  {
    if s != [] && s[0] !in seen {
      FirstsDistinct(s[1..], seen + {s[0]});
      var r, u := Firsts(s, seen), Firsts(s[1..], seen + {s[0]});
      forall i, j | 0 <= i < j < |r| ensures r[i] != r[j] {
        assert r[j] == u[j - 1] && u[j - 1] in u;
        if i > 0 { assert r[i] == u[i - 1]; }
      }
    } else if s != [] {
      FirstsDistinct(s[1..], seen);
    }
  }

  /** Where every ancestor is named once among the ancestors, each is yielded once. */
  lemma TreesDoNotRepeat(h: Hierarchy, rank: seq<nat>, c: nat)
    requires Acyclic(h, rank) && c < |h| && NamedOnce(h, c)
    ensures !Repeats(Mro(h, rank, c))
  {
    MroRepeatsIff(h, rank, c);
    MroFirsts(h, rank, c);
    var y, w := Mro(h, rank, c), Order(h, [c], {c});
    FirstsDistinct(y, {});
    hide Mro, Order, NamedBefore, Acyclic, Firsts, Ancestor, NamedOnce;
    if x :| NamedBefore(h, w, x) >= 2 {
      var a, i, b, j := NamedTwice(h, w, x);
      MroIsAncestors(h, rank, c, a);
      MroIsAncestors(h, rank, c, b);
      OnePlace(h, c, a, i, b, j);
    }
  }

  lemma OnePlace(h: Hierarchy, c: nat, a: nat, i: nat, b: nat, j: nat)
    requires NamedOnce(h, c) && Ancestor(h, c, a) && Ancestor(h, c, b) && a < |h| && b < |h|
    requires i < |h[a]| && j < |h[b]| && h[a][i] == h[b][j]
    ensures a == b && i == j
  {
  }

  function Diamond(): Hierarchy {
    [[], [0], [0], [1, 2]]
  }

  function DiamondRank(): seq<nat> {
    [0, 1, 1, 2]
  }

  lemma DiamondShape()
    ensures var h := Diamond();
            Acyclic(h, DiamondRank()) && |h| == 4 && h[0] == [] && h[1] == [0] && h[2] == [0] && h[3] == [1, 2]
  {
  }

  lemma OneBase(b: nat, visited: set<nat>)
    requires b !in visited
    ensures Unvisited([b], visited) == [b]
  {
    assert [b][1..] == [];
  }

  lemma TwoBases(a: nat, b: nat, visited: set<nat>)
    requires a !in visited && b !in visited
    ensures Unvisited([a, b], visited) == [a, b]
  {
    OneBase(b, visited);
    assert [a, b][1..] == [b];
  }

  /** A class is marked when it is taken off the queue, so the top of a diamond is yielded twice. */
  lemma DiamondRepeats()
    ensures Acyclic(Diamond(), DiamondRank()) && Mro(Diamond(), DiamondRank(), 3) == [3, 1, 2, 0, 0]
  {
    DiamondShape();
    var h, rank := Diamond(), DiamondRank();
    hide Yields, Total, Diamond, DiamondRank, Acyclic, Unvisited;
    TwoBases(1, 2, {} + {3});
    Take(h, rank, [3], {}, [1, 2]);
    assert [3][1..] + [1, 2] == [1, 2] && {} + {3} == {3};
    DiamondSides(h, rank);
    TopTwice(h, rank, {3, 1, 2});
  }

  lemma DiamondSides(h: Hierarchy, rank: seq<nat>)
    requires Acyclic(h, rank) && |h| == 4 && h[1] == [0] && h[2] == [0]
    ensures Yields(h, rank, [1, 2], {3}) == [1] + ([2] + Yields(h, rank, [0, 0], {3, 1, 2}))
  {
    hide Yields, Total, Acyclic, Unvisited;
    OneBase(0, {3} + {1});
    OneBase(0, {3, 1} + {2});
    Take(h, rank, [1, 2], {3}, [0]);
    assert [1, 2][1..] + [0] == [2, 0] && {3} + {1} == {3, 1};
    Take(h, rank, [2, 0], {3, 1}, [0]);
    assert [2, 0][1..] + [0] == [0, 0] && {3, 1} + {2} == {3, 1, 2};
  }

  lemma TopTwice(h: Hierarchy, rank: seq<nat>, visited: set<nat>)
    requires Acyclic(h, rank) && |h| > 0 && h[0] == []
    ensures Yields(h, rank, [0, 0], visited) == [0, 0]
  {
    hide Total, Acyclic;
    Take(h, rank, [0, 0], visited, []);
    assert [0, 0][1..] + [] == [0];
    Take(h, rank, [0], visited + {0}, []);
    assert [0][1..] + [] == [];
  }
}
