module TypeGraph {
  // The graph of registered types that the documentation generator walks: an attribute
  // that points to an object or a vector of objects, a child class and an aggregated
  // object each lead from one type to another under a label.

  import opened Common

  datatype Attr = ToObject(name: string, t: nat) | ToVector(name: string, t: nat) | Value

  datatype Edge = Edge(step: string, to: nat)

  /** Types are numbers; `marked` are their names as they appear in paths, `children` the pairs (child, ancestor). */
  datatype Graph = Graph(attrs: seq<seq<Attr>>, marked: seq<string>, children: set<(nat, nat)>, aggregates: seq<(nat, nat)>)

  predicate Closed(g: Graph) {
    && |g.marked| == |g.attrs|
    && (forall t, i :: 0 <= t < |g.attrs| && 0 <= i < |g.attrs[t]| && !g.attrs[t][i].Value? ==> g.attrs[t][i].t < |g.attrs|)
    && (forall k :: 0 <= k < |g.aggregates| ==> g.aggregates[k].0 < |g.attrs| && g.aggregates[k].1 < |g.attrs|)
  }

  predicate IsType(g: Graph, t: nat) {
    t < |g.attrs|
  }

  // ----- edges, in the order they are tried -----

  function AttrStep(a: Attr): string
    requires !a.Value?
  {
    if a.ToVector? then a.name + "/[i]" else a.name
  }

  function AttrEdge(a: Attr): seq<Edge> {
    if a.Value? then [] else [Edge(AttrStep(a), a.t)]
  }

  function AttrEdges(as_: seq<Attr>): seq<Edge> {
    if as_ == [] then [] else AttrEdges(as_[..|as_| - 1]) + AttrEdge(as_[|as_| - 1])
  }

  function ChildEdges(g: Graph, t: nat, n: nat): seq<Edge>
    requires n <= |g.marked|
  {
    if n == 0 then []
    else ChildEdges(g, t, n - 1) + (if (n - 1, t) in g.children then [Edge(g.marked[n - 1], n - 1)] else [])
  }

  /** The type on the other side of an aggregation; the second test wins when both sides are `t`. */
  function Other(a: (nat, nat), t: nat): nat {
    if a.1 == t then a.0 else a.1
  }

  function AggregateEdges(g: Graph, t: nat, n: nat): seq<Edge>
    requires Closed(g) && n <= |g.aggregates|
  {
    if n == 0 then []
    else
      var a := g.aggregates[n - 1];
      AggregateEdges(g, t, n - 1) + (if a.0 == t || a.1 == t then [Edge(g.marked[Other(a, t)], Other(a, t))] else [])
  }

  function Edges(g: Graph, t: nat): (es: seq<Edge>)
    requires Closed(g) && IsType(g, t)
    ensures forall i :: 0 <= i < |es| ==> IsType(g, es[i].to)
  {
    AttrEdgesInside(g, g.attrs[t]);
    ChildEdgesInside(g, t, |g.marked|);
    AggregateEdgesInside(g, t, |g.aggregates|);
    AttrEdges(g.attrs[t]) + ChildEdges(g, t, |g.marked|) + AggregateEdges(g, t, |g.aggregates|)
  }

  lemma {:induction false} AttrEdgesInside(g: Graph, as_: seq<Attr>)
    requires forall i :: 0 <= i < |as_| && !as_[i].Value? ==> as_[i].t < |g.attrs|
    ensures forall i :: 0 <= i < |AttrEdges(as_)| ==> AttrEdges(as_)[i].to < |g.attrs|
  {
    if as_ != [] {
      AttrEdgesInside(g, as_[..|as_| - 1]);
    }
  }

  lemma {:induction false} ChildEdgesInside(g: Graph, t: nat, n: nat)
    requires Closed(g) && n <= |g.marked|
    ensures forall i :: 0 <= i < |ChildEdges(g, t, n)| ==> ChildEdges(g, t, n)[i].to < |g.attrs|
  {
    if n > 0 {
      ChildEdgesInside(g, t, n - 1);
    }
  }

  lemma {:induction false} AggregateEdgesInside(g: Graph, t: nat, n: nat)
    requires Closed(g) && n <= |g.aggregates|
    ensures forall i :: 0 <= i < |AggregateEdges(g, t, n)| ==> AggregateEdges(g, t, n)[i].to < |g.attrs|
  {
    if n > 0 {
      AggregateEdgesInside(g, t, n - 1);
    }
  }

  /** The attribute leads to the type of the edge, through a vector with one more part in the path. */
  predicate LeadsTo(a: Attr, e: Edge) {
    match a
    case ToObject(name, to) => e == Edge(name, to)
    case ToVector(name, to) => e == Edge(name + "/[i]", to)
    case Value => false
  }

  /** The aggregation has `t` on one side and the type of the edge on the other. */
  predicate Joins(g: Graph, a: (nat, nat), t: nat, e: Edge) {
    (if a.1 == t then e.to == a.0 else a.0 == t && e.to == a.1) && e.to < |g.marked| && e.step == g.marked[e.to]
  }

  lemma {:induction false} AttrEdgesLaw(as_: seq<Attr>, e: Edge)
    ensures e in AttrEdges(as_) <==> exists i :: 0 <= i < |as_| && LeadsTo(as_[i], e)
    decreases |as_|
  {
    if as_ != [] {
      var n := |as_| - 1;
      AttrEdgesLaw(as_[..n], e);
      assert forall i :: 0 <= i < n ==> as_[..n][i] == as_[i];
      assert e in AttrEdge(as_[n]) <==> LeadsTo(as_[n], e);
    }
  }

  lemma {:induction false} ChildEdgesLaw(g: Graph, t: nat, n: nat, e: Edge)
    requires n <= |g.marked|
    ensures e in ChildEdges(g, t, n) <==> e.to < n && (e.to, t) in g.children && e.step == g.marked[e.to]
  {
    if n > 0 {
      ChildEdgesLaw(g, t, n - 1, e);
    }
  }

  lemma {:induction false} AggregateEdgesLaw(g: Graph, t: nat, n: nat, e: Edge)
    requires Closed(g) && n <= |g.aggregates|
    ensures e in AggregateEdges(g, t, n) <==> exists i :: 0 <= i < n && Joins(g, g.aggregates[i], t, e)
  {
    if n > 0 {
      AggregateEdgesLaw(g, t, n - 1, e);
    }
  }

  /** Exactly the edges of a type: its attributes, the types that descend from it, and the other sides of its aggregations. */
  lemma EdgesLaw(g: Graph, t: nat, e: Edge)
    requires Closed(g) && IsType(g, t)
    ensures e in Edges(g, t) <==>
              || (exists i :: 0 <= i < |g.attrs[t]| && LeadsTo(g.attrs[t][i], e))
              || (e.to < |g.marked| && (e.to, t) in g.children && e.step == g.marked[e.to])
              || (exists i :: 0 <= i < |g.aggregates| && Joins(g, g.aggregates[i], t, e))
  {
    AttrEdgesLaw(g.attrs[t], e);
    ChildEdgesLaw(g, t, |g.marked|, e);
    AggregateEdgesLaw(g, t, |g.aggregates|, e);
    hide AttrEdges, ChildEdges, AggregateEdges, LeadsTo, Joins;
  }

  // ----- walks -----

  /** A walk from `t` is given by the numbers of the edges it takes. */
  predicate IsWalk(g: Graph, t: nat, p: seq<nat>)
    requires Closed(g) && IsType(g, t)
    decreases |p|
  {
    p == [] || (p[0] < |Edges(g, t)| && IsWalk(g, Edges(g, t)[p[0]].to, p[1..]))
  }

  /** The types a walk passes, from `t` to its end. */
  function Stops(g: Graph, t: nat, p: seq<nat>): (s: seq<nat>)
    requires Closed(g) && IsType(g, t) && IsWalk(g, t, p)
    ensures |s| == |p| + 1 && s[0] == t
    decreases |p|
  {
    if p == [] then [t] else [t] + Stops(g, Edges(g, t)[p[0]].to, p[1..])
  }

  /** No type twice, and none of `on`. */
  predicate Simple(g: Graph, t: nat, on: set<nat>, p: seq<nat>)
    requires Closed(g) && IsType(g, t)
  {
    IsWalk(g, t, p) && Distinct(Stops(g, t, p)) && forall i :: 0 <= i <= |p| ==> Stops(g, t, p)[i] !in on
  }

  // ----- the enumeration -----

  function Free(g: Graph, on: set<nat>): set<nat> {
    set t | 0 <= t < |g.attrs| && t !in on
  }

  lemma FreeShrinks(g: Graph, on: set<nat>, t: nat)
    requires IsType(g, t) && t !in on
    ensures |Free(g, on + {t})| < |Free(g, on)|
  {
    assert Free(g, on + {t}) == Free(g, on) - {t};
  }

  function Prefix(k: nat, ps: seq<seq<nat>>): (r: seq<seq<nat>>)
    ensures |r| == |ps| && forall i :: 0 <= i < |ps| ==> r[i] == [k] + ps[i]
  {
    seq(|ps|, i requires 0 <= i < |ps| => [k] + ps[i])
  }

  /** The walks from `t` in the order of a depth-first search that turns back at the types of `on`. */
  function Walks(g: Graph, t: nat, on: set<nat>): seq<seq<nat>>
    requires Closed(g) && IsType(g, t)
    decreases |Free(g, on)|, 0, 0
  {
    if t in on then []
    else
      FreeShrinks(g, on, t);
      [[]] + Branches(g, t, |Edges(g, t)|, on + {t})
  }

  /** Those that take one of the first `k` edges. */
  function Branches(g: Graph, t: nat, k: nat, on: set<nat>): seq<seq<nat>>
    requires Closed(g) && IsType(g, t) && k <= |Edges(g, t)|
    decreases |Free(g, on)|, 1, k
  {
    if k == 0 then [] else Branches(g, t, k - 1, on) + Prefix(k - 1, Walks(g, Edges(g, t)[k - 1].to, on))
  }

  lemma {:induction false} BranchesMember(g: Graph, t: nat, k: nat, on: set<nat>, p: seq<nat>)
    requires Closed(g) && IsType(g, t) && k <= |Edges(g, t)|
    ensures p in Branches(g, t, k, on) <==> p != [] && p[0] < k && p[1..] in Walks(g, Edges(g, t)[p[0]].to, on)
    decreases k
  {
    hide Edges, Walks;
    if k > 0 {
      BranchesMember(g, t, k - 1, on, p);
      var ws := Walks(g, Edges(g, t)[k - 1].to, on);
      PrefixMember(k - 1, ws, p);
    }
  }

  lemma PrefixMember(k: nat, ws: seq<seq<nat>>, p: seq<nat>)
    ensures p in Prefix(k, ws) <==> p != [] && p[0] == k && p[1..] in ws
  {
    if p != [] && p[0] == k && p[1..] in ws {
      var i :| 0 <= i < |ws| && ws[i] == p[1..];
      assert Prefix(k, ws)[i] == [k] + p[1..] == p;
    }
    if p in Prefix(k, ws) {
      var i :| 0 <= i < |ws| && Prefix(k, ws)[i] == p;
      assert p[1..] == ws[i];
    }
  }

  lemma SimpleStep(g: Graph, t: nat, on: set<nat>, p: seq<nat>)
    requires Closed(g) && IsType(g, t) && p != []
    ensures Simple(g, t, on, p) <==>
      t !in on && p[0] < |Edges(g, t)| && Simple(g, Edges(g, t)[p[0]].to, on + {t}, p[1..])
  {
    hide Edges;
    if p[0] < |Edges(g, t)| && IsWalk(g, t, p) {
      var u := Edges(g, t)[p[0]].to;
      var s, r := Stops(g, t, p), Stops(g, u, p[1..]);
      assert s == [t] + r;
      assert forall i :: 0 < i < |s| ==> s[i] == r[i - 1];
      assert forall i :: 0 <= i < |r| ==> r[i] == s[i + 1];
    }
  }

  /** The search finds a walk exactly if it is simple. */
  lemma {:induction false} WalksAreSimple(g: Graph, t: nat, on: set<nat>, p: seq<nat>)
    requires Closed(g) && IsType(g, t)
    ensures p in Walks(g, t, on) <==> Simple(g, t, on, p)
    decreases |p|
  {
    hide Edges, Simple, Branches;
    if p == [] {
      EmptyWalk(g, t, on);
    } else {
      SimpleStep(g, t, on, p);
      if t !in on {
        BranchesMember(g, t, |Edges(g, t)|, on + {t}, p);
        if p[0] < |Edges(g, t)| {
          WalksAreSimple(g, Edges(g, t)[p[0]].to, on + {t}, p[1..]);
        }
      }
    }
  }

  lemma EmptyWalk(g: Graph, t: nat, on: set<nat>)
    requires Closed(g) && IsType(g, t)
    ensures [] in Walks(g, t, on) <==> t !in on
    ensures Simple(g, t, on, []) <==> t !in on
  {
    hide Edges, Branches;
    assert Stops(g, t, []) == [t];
  }

  lemma {:induction false} BranchesDistinct(g: Graph, t: nat, k: nat, on: set<nat>)
    requires Closed(g) && IsType(g, t) && k <= |Edges(g, t)|
    ensures Distinct(Branches(g, t, k, on))
    decreases |Free(g, on)|, 1, k
  {
    hide Edges, Walks;
    if k > 0 {
      BranchesDistinct(g, t, k - 1, on);
      var u := Edges(g, t)[k - 1].to;
      WalksDistinct(g, u, on);
      var a, b := Branches(g, t, k - 1, on), Prefix(k - 1, Walks(g, u, on));
      assert forall i :: 0 <= i < |b| ==> b[i][1..] == Walks(g, u, on)[i];
      forall i, j | 0 <= i < |a| && 0 <= j < |b| ensures a[i] != b[j] {
        BranchesMember(g, t, k - 1, on, a[i]);
      }
    }
  }

  /** and finds it once. */
  lemma {:induction false} WalksDistinct(g: Graph, t: nat, on: set<nat>)
    requires Closed(g) && IsType(g, t)
    ensures Distinct(Walks(g, t, on))
    decreases |Free(g, on)|, 0, 0
  {
    hide Edges, Branches;
    if t !in on {
      FreeShrinks(g, on, t);
      var bs := Branches(g, t, |Edges(g, t)|, on + {t});
      BranchesDistinct(g, t, |Edges(g, t)|, on + {t});
      forall i | 0 <= i < |bs| ensures bs[i] != [] {
        BranchesMember(g, t, |Edges(g, t)|, on + {t}, bs[i]);
      }
    }
  }
}
