/**
 The documentation generator's search over the type graph, and its sorted result.

 The object keeps the path it is on in two stacks, one of steps and one of types, and
 appends an entry whenever it reaches a type that is not on the path.
 */
module TypeGather {
  import opened TypeGraph
  import opened SortedEntries

  type Entry = Pair

  /** A path as text: every step behind a slash. */
  function PathText(steps: seq<string>): string {
    if steps == [] then "" else PathText(steps[..|steps| - 1]) + "/" + steps[|steps| - 1]
  }

  /** How many characters stand behind the last slash. */
  function BehindSlash(t: string): (n: nat)
    ensures n <= |t|
  {
    if t == "" || t[|t| - 1] == '/' then 0 else 1 + BehindSlash(t[..|t| - 1])
  }

  /** The parts of a text between its slashes. */
  function Parts(t: string): seq<string>
    decreases |t|
  {
    var n := |t| - BehindSlash(t);
    if n == 0 then (if t == "" then [] else [t]) else Parts(t[..n - 1]) + [t[n..]]
  }

  lemma {:induction false} BehindOf(u: string, s: string)
    requires '/' !in s
    ensures BehindSlash(u + "/" + s) == |s|
    decreases |s|
  {
    var t := u + "/" + s;
    if s != "" {
      assert t[..|t| - 1] == u + "/" + s[..|s| - 1];
      BehindOf(u, s[..|s| - 1]);
    }
  }

  /** Steps without slashes can be read off the text of a path, in order. */
  lemma {:induction false} PathReadsBack(steps: seq<string>)
    requires forall i :: 0 <= i < |steps| ==> '/' !in steps[i]
    ensures Parts(PathText(steps)) == steps
    decreases |steps|
  {
    if steps != [] {
      var n := |steps| - 1;
      PathReadsBack(steps[..n]);
      LastPart(PathText(steps[..n]), steps[n]);
      assert steps == steps[..n] + [steps[n]];
    }
  }

  lemma LastPart(u: string, s: string)
    requires '/' !in s
    ensures Parts(u + "/" + s) == Parts(u) + [s]
  {
    BehindOf(u, s);
    hide BehindSlash;
    var t := u + "/" + s;
    assert t[..|u|] == u && t[|u| + 1..] == s;
  }

  /** The type a walk ends in, and the steps it takes. */
  function EndOf(g: Graph, t: nat, p: seq<nat>): nat
    requires Closed(g) && IsType(g, t)
    decreases |p|
  {
    if p == [] || p[0] >= |Edges(g, t)| then t else EndOf(g, Edges(g, t)[p[0]].to, p[1..])
  }

  function StepsOf(g: Graph, t: nat, p: seq<nat>): seq<string>
    requires Closed(g) && IsType(g, t)
    decreases |p|
  {
    if p == [] || p[0] >= |Edges(g, t)| then []
    else [Edges(g, t)[p[0]].step] + StepsOf(g, Edges(g, t)[p[0]].to, p[1..])
  }

  /** The entry for a walk that continues `path` from `t`. */
  function EntryOf(g: Graph, t: nat, path: seq<string>, p: seq<nat>): Entry
    requires Closed(g) && IsType(g, t)
  {
    (EndOf(g, t, p), PathText(path + StepsOf(g, t, p)))
  }

  function Entries(g: Graph, t: nat, path: seq<string>, ps: seq<seq<nat>>): (es: seq<Entry>)
    requires Closed(g) && IsType(g, t)
    ensures |es| == |ps| && forall i :: 0 <= i < |ps| ==> es[i] == EntryOf(g, t, path, ps[i])
  {
    seq(|ps|, i requires 0 <= i < |ps| => EntryOf(g, t, path, ps[i]))
  }

  lemma EntriesAppend(g: Graph, t: nat, path: seq<string>, a: seq<seq<nat>>, b: seq<seq<nat>>)
    requires Closed(g) && IsType(g, t)
    ensures Entries(g, t, path, a + b) == Entries(g, t, path, a) + Entries(g, t, path, b)
  {
    hide EntryOf;
  }

  lemma EntriesPrefix(g: Graph, t: nat, path: seq<string>, k: nat, ps: seq<seq<nat>>)
    requires Closed(g) && IsType(g, t) && k < |Edges(g, t)|
    ensures var e := Edges(g, t)[k];
            Entries(g, t, path, Prefix(k, ps)) == Entries(g, e.to, path + [e.step], ps)
  {
    hide Edges;
    var e := Edges(g, t)[k];
    forall i | 0 <= i < |ps| ensures EntryOf(g, t, path, [k] + ps[i]) == EntryOf(g, e.to, path + [e.step], ps[i]) {
      assert ([k] + ps[i])[1..] == ps[i];
      assert path + ([e.step] + StepsOf(g, e.to, ps[i])) == path + [e.step] + StepsOf(g, e.to, ps[i]);
    }
  }

  // ----- parts of the edge list -----

  lemma {:induction false} AttrEdgesSplit(as_: seq<Attr>, i: nat)
    requires i <= |as_|
    ensures AttrEdges(as_[..i]) <= AttrEdges(as_)
    decreases |as_|
  {
    if i < |as_| {
      AttrEdgesSplit(as_[..|as_| - 1], i);
      assert as_[..|as_| - 1][..i] == as_[..i];
    } else {
      assert as_[..i] == as_;
    }
  }

  lemma {:induction false} ChildEdgesSplit(g: Graph, t: nat, i: nat, n: nat)
    requires i <= n <= |g.marked|
    ensures ChildEdges(g, t, i) <= ChildEdges(g, t, n)
    decreases n
  {
    if i < n {
      ChildEdgesSplit(g, t, i, n - 1);
    }
  }

  lemma {:induction false} AggregateEdgesSplit(g: Graph, t: nat, i: nat, n: nat)
    requires Closed(g) && i <= n <= |g.aggregates|
    ensures AggregateEdges(g, t, i) <= AggregateEdges(g, t, n)
    decreases n
  {
    if i < n {
      AggregateEdgesSplit(g, t, i, n - 1);
    }
  }

  /** Edge number `k` of `t` is `e`. */
  predicate EdgeAt(g: Graph, t: nat, k: nat, e: Edge)
    requires Closed(g) && IsType(g, t)
  {
    k < |Edges(g, t)| && Edges(g, t)[k] == e
  }

  /** How many edges the first `i` attributes, registered types or aggregations make. */
  function AttrCount(g: Graph, t: nat, i: nat): nat
    requires IsType(g, t) && i <= |g.attrs[t]|
  {
    |AttrEdges(g.attrs[t][..i])|
  }

  function ChildCount(g: Graph, t: nat, i: nat): nat
    requires IsType(g, t) && i <= |g.marked|
  {
    AttrCount(g, t, |g.attrs[t]|) + |ChildEdges(g, t, i)|
  }

  function AggregateCount(g: Graph, t: nat, i: nat): nat
    requires Closed(g) && IsType(g, t) && i <= |g.aggregates|
  {
    ChildCount(g, t, |g.marked|) + |AggregateEdges(g, t, i)|
  }

  lemma CountsMeet(g: Graph, t: nat)
    requires Closed(g) && IsType(g, t)
    ensures AttrCount(g, t, 0) == 0 && ChildCount(g, t, 0) == AttrCount(g, t, |g.attrs[t]|)
    ensures AggregateCount(g, t, 0) == ChildCount(g, t, |g.marked|) && AggregateCount(g, t, |g.aggregates|) == |Edges(g, t)|
  {
    assert g.attrs[t][..|g.attrs[t]|] == g.attrs[t];
  }

  lemma EdgesBound(g: Graph, t: nat)
    requires Closed(g) && IsType(g, t)
    ensures ChildCount(g, t, 0) <= |Edges(g, t)| && AggregateCount(g, t, 0) <= |Edges(g, t)|
  {
    CountsMeet(g, t);
  }

  lemma AttrNext(g: Graph, t: nat, i: nat)
    requires Closed(g) && IsType(g, t) && i < |g.attrs[t]|
    ensures var k, a := AttrCount(g, t, i), g.attrs[t][i];
            && AttrCount(g, t, i + 1) == (if a.Value? then k else k + 1)
            && (!a.Value? ==> EdgeAt(g, t, k, Edge(AttrStep(a), a.t)))
  {
    AttrEdgesSplit(g.attrs[t], i + 1);
    assert g.attrs[t][..i + 1][..i] == g.attrs[t][..i];
  }

  lemma ChildNext(g: Graph, t: nat, i: nat)
    requires Closed(g) && IsType(g, t) && i < |g.marked|
    ensures var k, child := ChildCount(g, t, i), (i, t) in g.children;
            && ChildCount(g, t, i + 1) == (if child then k + 1 else k)
            && (child ==> EdgeAt(g, t, k, Edge(g.marked[i], i)))
  {
    ChildEdgesSplit(g, t, i + 1, |g.marked|);
    assert g.attrs[t][..|g.attrs[t]|] == g.attrs[t];
  }

  lemma AggregateNext(g: Graph, t: nat, i: nat)
    requires Closed(g) && IsType(g, t) && i < |g.aggregates|
    ensures var k, a := AggregateCount(g, t, i), g.aggregates[i];
            && AggregateCount(g, t, i + 1) == (if a.0 == t || a.1 == t then k + 1 else k)
            && (a.0 == t || a.1 == t ==> Other(a, t) < |g.marked| && EdgeAt(g, t, k, Edge(g.marked[Other(a, t)], Other(a, t))))
  {
    AggregateEdgesSplit(g, t, i + 1, |g.aggregates|);
    assert g.attrs[t][..|g.attrs[t]|] == g.attrs[t];
  }

  // ----- the object -----

  function OnPath(s: seq<nat>): set<nat> {
    set t | t in s
  }

  /** The entries of the walks from `tid` that take one of the first `k` edges. */
  ghost function Found(g: Graph, path: seq<string>, on: set<nat>, tid: nat, k: nat): seq<Entry>
    requires Closed(g) && IsType(g, tid) && k <= |Edges(g, tid)|
  {
    Entries(g, tid, path, Branches(g, tid, k, on + {tid}))
  }

  lemma FoundMore(g: Graph, path: seq<string>, on: set<nat>, tid: nat, k: nat)
    requires Closed(g) && IsType(g, tid) && k < |Edges(g, tid)|
    ensures var e := Edges(g, tid)[k];
            Found(g, path, on, tid, k + 1)
              == Found(g, path, on, tid, k) + Entries(g, e.to, path + [e.step], Walks(g, e.to, on + {tid}))
  {
    hide Edges, Entries, Walks;
    var e, on1 := Edges(g, tid)[k], on + {tid};
    EntriesAppend(g, tid, path, Branches(g, tid, k, on1), Prefix(k, Walks(g, e.to, on1)));
    EntriesPrefix(g, tid, path, k, Walks(g, e.to, on1));
  }

  lemma FirstEntry(g: Graph, t: nat, path: seq<string>)
    requires Closed(g) && IsType(g, t)
    ensures Entries(g, t, path, [[]]) == [(t, PathText(path))]
  {
    assert path + [] == path;
    assert EntryOf(g, t, path, []) == (t, PathText(path));
  }

  lemma FoundAll(g: Graph, path: seq<string>, on: set<nat>, tid: nat)
    requires Closed(g) && IsType(g, tid) && tid !in on
    ensures [(tid, PathText(path))] + Found(g, path, on, tid, |Edges(g, tid)|) == Entries(g, tid, path, Walks(g, tid, on))
    ensures Found(g, path, on, tid, 0) == []
  {
    EntriesAppend(g, tid, path, [[]], Branches(g, tid, |Edges(g, tid)|, on + {tid}));
    FirstEntry(g, tid, path);
    hide PathText, Edges, Closed, EntryOf;
  }

  /** Between `before` and `after` the output has grown by what edges `j` to `k - 1` lead to. */
  ghost predicate Gained(g: Graph, path: seq<string>, on: set<nat>, tid: nat, j: nat, k: nat, before: seq<Entry>, after: seq<Entry>)
    requires Closed(g) && IsType(g, tid)
  {
    j <= k <= |Edges(g, tid)| &&
    before <= after && Found(g, path, on, tid, k) == Found(g, path, on, tid, j) + after[|before|..]
  }

  lemma AggregateBound(g: Graph, t: nat, k: nat)
    requires Closed(g) && IsType(g, t) && k <= |g.aggregates|
    ensures AggregateCount(g, t, k) <= |Edges(g, t)|
  {
    CountsMeet(g, t);
    MoreAggregates(g, t, k, |g.aggregates|);
  }

  lemma {:induction false} MoreAggregates(g: Graph, t: nat, i: nat, n: nat)
    requires Closed(g) && IsType(g, t) && i <= n <= |g.aggregates|
    ensures |AggregateEdges(g, t, i)| <= |AggregateEdges(g, t, n)|
    decreases n
  {
    if i < n {
      MoreAggregates(g, t, i, n - 1);
    }
  }

  lemma GainedNothing(g: Graph, path: seq<string>, on: set<nat>, tid: nat, k: nat, s: seq<Entry>)
    requires Closed(g) && IsType(g, tid) && k <= |Edges(g, tid)|
    ensures Gained(g, path, on, tid, k, k, s, s)
  {
    hide Edges, Found;
  }

  lemma GainedBoth(g: Graph, path: seq<string>, on: set<nat>, tid: nat, i: nat, j: nat, k: nat,
                   a: seq<Entry>, b: seq<Entry>, c: seq<Entry>)
    requires Closed(g) && IsType(g, tid)
    requires Gained(g, path, on, tid, i, j, a, b) && Gained(g, path, on, tid, j, k, b, c)
    ensures Gained(g, path, on, tid, i, k, a, c)
  {
    hide Edges, Found;
    assert c[|a|..] == b[|a|..] + c[|b|..];
  }

  lemma GainedAll(g: Graph, path: seq<string>, on: set<nat>, tid: nat, before: seq<Entry>, after: seq<Entry>)
    requires Closed(g) && IsType(g, tid) && tid !in on
    requires Gained(g, path, on, tid, 0, |Edges(g, tid)|, before + [(tid, PathText(path))], after)
    ensures after == before + Entries(g, tid, path, Walks(g, tid, on))
  {
    hide Closed, Edges, Found, Walks, Entries, PathText;
    FoundAll(g, path, on, tid);
    var first, all := [(tid, PathText(path))], Found(g, path, on, tid, |Edges(g, tid)|);
    assert [] + after[|before + first|..] == all;
    Continued(before, first, after);
  }

  lemma Continued(a: seq<Entry>, b: seq<Entry>, c: seq<Entry>)
    requires a + b <= c
    ensures c == a + (b + c[|a + b|..])
  {
  }

  /** The entries gathered for `tid`, sorted and without repetitions, are those reached and those there were. */
  lemma SortedReached(g: Graph, tid: nat, before: seq<Entry>, after: seq<Entry>)
    requires Closed(g) && IsType(g, tid) && after == before + Entries(g, tid, [], Walks(g, tid, OnPath([])))
    ensures var r := Unique(Sort(after));
            Strict(r) && forall e: Entry :: e in r <==> e in before || Reached(g, tid, e)
  {
    SortSorts(after);
    UniqueIsStrict(Sort(after));
    assert OnPath([]) == {};
    hide Entries, Walks, Reached, Closed, Sort, Unique, Strict, OnPath;
    var sorted := Sort(after);
    var r := Unique(sorted);
    forall e: Entry ensures e in r <==> e in before || Reached(g, tid, e) {
      EntriesReached(g, tid, e);
      assert e in sorted <==> e in multiset(sorted);
      assert e in after <==> e in multiset(after);
    }
  }

  class StaticInformation {
    const types: Graph    // the registry; its aggregates are not used
    var aggregates: seq<(nat, nat)>
    var output: seq<Entry>
    var currentPath: seq<string>
    var alreadyProcessed: seq<nat>

    ghost predicate Valid()
      reads this
    {
      Closed(G()) && forall i :: 0 <= i < |alreadyProcessed| ==> IsType(G(), alreadyProcessed[i])
    }

    function G(): Graph
      reads this
    {
      types.(aggregates := aggregates)
    }

    constructor (types: Graph)
      requires Closed(types.(aggregates := []))
      ensures Valid() && this.types == types && aggregates == [] && output == [] && currentPath == [] && alreadyProcessed == []
    {
      this.types := types;
      aggregates, output, currentPath, alreadyProcessed := [], [], [], [];
    }

    method RecordAggregationInfo(a: nat, b: nat)
      requires Valid() && IsType(G(), a) && IsType(G(), b)
      modifies this`aggregates
      ensures Valid() && aggregates == old(aggregates) + [(a, b)]
    {
      aggregates := aggregates + [(a, b)];
    }

    method HasAlreadyBeenProcessed(tid: nat) returns (b: bool)
      ensures b <==> tid in alreadyProcessed
    {
      for i := 0 to |alreadyProcessed|
        invariant tid !in alreadyProcessed[..i]
      {
        if alreadyProcessed[i] == tid { return true; }
      }
      return false;
    }

    method GetCurrentPath() returns (s: string)
      ensures s == PathText(currentPath)
    {
      s := "";
      assert currentPath[..0] == [];
      for i := 0 to |currentPath|
        invariant s == PathText(currentPath[..i])
      {
        assert currentPath[..i + 1][..i] == currentPath[..i];
        s := s + "/" + currentPath[i];
      }
      assert currentPath[..|currentPath|] == currentPath;
    }

    /** Goes down one edge and comes back. */
    method Descend(tid: nat, step: string, to: nat, ghost k: nat)
      requires Valid() && IsType(G(), tid) && tid !in alreadyProcessed
      requires EdgeAt(G(), tid, k, Edge(step, to))
      modifies this`output, this`currentPath, this`alreadyProcessed
      ensures Valid() && currentPath == old(currentPath) && alreadyProcessed == old(alreadyProcessed)
      ensures Gained(G(), currentPath, OnPath(alreadyProcessed), tid, k, k + 1, old(output), output)
      decreases |Free(G(), OnPath(alreadyProcessed))|, 0
    {
      ghost var path, on := currentPath, OnPath(alreadyProcessed);
      FoundMore(G(), path, on, tid, k);
      FreeShrinks(G(), on, tid);
      hide Edges, Entries, Walks, Free, Found;
      currentPath := currentPath + [step];
      alreadyProcessed := alreadyProcessed + [tid];
      assert OnPath(alreadyProcessed) == on + {tid};
      DoGather(to);
      alreadyProcessed := alreadyProcessed[..|alreadyProcessed| - 1];
      currentPath := currentPath[..|currentPath| - 1];
    }

    method GatherAttributes(tid: nat)
      requires Valid() && IsType(G(), tid) && tid !in alreadyProcessed
      modifies this`output, this`currentPath, this`alreadyProcessed
      ensures Valid() && currentPath == old(currentPath) && alreadyProcessed == old(alreadyProcessed)
      ensures Gained(G(), currentPath, OnPath(alreadyProcessed), tid, 0, AttrCount(G(), tid, |types.attrs[tid]|), old(output), output)
      decreases |Free(G(), OnPath(alreadyProcessed))|, 1
    {
      ghost var g, path, on := G(), currentPath, OnPath(alreadyProcessed);
      hide Closed, Gained, AttrCount, ChildCount, AggregateCount, Edges, Free, OnPath, AttrStep;
      CountsMeet(g, tid);
      GainedNothing(g, path, on, tid, 0, output);
      var attrs := types.attrs[tid];
      for i := 0 to |attrs|
        invariant Valid() && currentPath == path && alreadyProcessed == old(alreadyProcessed) && G() == g
        invariant Gained(g, path, on, tid, 0, AttrCount(g, tid, i), old(output), output)
      {
        AttrNext(g, tid, i);
        if !attrs[i].Value? {
          ghost var k, before := AttrCount(g, tid, i), output;
          Descend(tid, AttrStep(attrs[i]), attrs[i].t, k);
          GainedBoth(g, path, on, tid, 0, k, k + 1, old(output), before, output);
        }
      }
    }

    method GatherChildren(tid: nat)
      requires Valid() && IsType(G(), tid) && tid !in alreadyProcessed
      modifies this`output, this`currentPath, this`alreadyProcessed
      ensures Valid() && currentPath == old(currentPath) && alreadyProcessed == old(alreadyProcessed)
      ensures Gained(G(), currentPath, OnPath(alreadyProcessed), tid,
                     ChildCount(G(), tid, 0), ChildCount(G(), tid, |types.marked|), old(output), output)
      decreases |Free(G(), OnPath(alreadyProcessed))|, 1
    {
      ghost var g, path, on := G(), currentPath, OnPath(alreadyProcessed);
      ghost var from := ChildCount(g, tid, 0);
      EdgesBound(g, tid);
      GainedNothing(g, path, on, tid, from, output);
      hide Closed, Gained, ChildCount, Edges, Free, OnPath, EdgeAt;
      for j := 0 to |types.marked|
        invariant Valid() && currentPath == path && alreadyProcessed == old(alreadyProcessed) && G() == g
        invariant Gained(g, path, on, tid, from, ChildCount(g, tid, j), old(output), output)
      {
        ChildNext(g, tid, j);
        if (j, tid) in types.children {
          ghost var k, before := ChildCount(g, tid, j), output;
          Descend(tid, types.marked[j], j, k);
          GainedBoth(g, path, on, tid, from, k, k + 1, old(output), before, output);
        }
      }
    }

    method GatherAggregates(tid: nat)
      requires Valid() && IsType(G(), tid) && tid !in alreadyProcessed
      modifies this`output, this`currentPath, this`alreadyProcessed
      ensures Valid() && currentPath == old(currentPath) && alreadyProcessed == old(alreadyProcessed)
      ensures Gained(G(), currentPath, OnPath(alreadyProcessed), tid,
                     AggregateCount(G(), tid, 0), AggregateCount(G(), tid, |aggregates|), old(output), output)
      decreases |Free(G(), OnPath(alreadyProcessed))|, 2
    {
      ghost var g, path, on := G(), currentPath, OnPath(alreadyProcessed);
      ghost var from := AggregateCount(g, tid, 0);
      EdgesBound(g, tid);
      GainedNothing(g, path, on, tid, from, output);
      hide Gained, AggregateCount, Edges, Free, OnPath, Closed, EdgeAt;
      for k := 0 to |aggregates|
        invariant Valid() && currentPath == path && alreadyProcessed == old(alreadyProcessed) && G() == g
        invariant Gained(g, path, on, tid, from, AggregateCount(g, tid, k), old(output), output)
      {
        ghost var before := output;
        GatherAggregate(tid, k);
        GainedBoth(g, path, on, tid, from, AggregateCount(g, tid, k), AggregateCount(g, tid, k + 1), old(output), before, output);
      }
    }

    /** One aggregation; types that do not take part in it are passed over. */
    method GatherAggregate(tid: nat, k: nat)
      requires Valid() && IsType(G(), tid) && tid !in alreadyProcessed && k < |aggregates|
      modifies this`output, this`currentPath, this`alreadyProcessed
      ensures Valid() && currentPath == old(currentPath) && alreadyProcessed == old(alreadyProcessed)
      ensures Gained(G(), currentPath, OnPath(alreadyProcessed), tid,
                     AggregateCount(G(), tid, k), AggregateCount(G(), tid, k + 1), old(output), output)
      decreases |Free(G(), OnPath(alreadyProcessed))|, 1
    {
      ghost var n := AggregateCount(G(), tid, k);
      AggregateNext(G(), tid, k);
      AggregateBound(G(), tid, k);
      GainedNothing(G(), currentPath, OnPath(alreadyProcessed), tid, n, output);
      hide Gained, Edges, Free, OnPath, EdgeAt, Closed, AggregateCount;
      var tmp := aggregates[k];
      if tmp.0 == tid || tmp.1 == tid {
        var other := tid;
        if tmp.0 == tid { other := tmp.1; }
        if tmp.1 == tid { other := tmp.0; }
        Descend(tid, types.marked[other], other, n);
      }
    }

    /** Appends one entry for each walk from `tid` that avoids the current path, and restores both stacks. */
    method DoGather(tid: nat)
      requires Valid() && IsType(G(), tid)
      modifies this`output, this`currentPath, this`alreadyProcessed
      ensures Valid() && currentPath == old(currentPath) && alreadyProcessed == old(alreadyProcessed)
      ensures output == old(output) + Entries(G(), tid, currentPath, Walks(G(), tid, OnPath(alreadyProcessed)))
      decreases |Free(G(), OnPath(alreadyProcessed))|, 3
    {
      ghost var g, path, on := G(), currentPath, OnPath(alreadyProcessed);
      var b := HasAlreadyBeenProcessed(tid);
      if b {
        assert Entries(g, tid, path, Walks(g, tid, on)) == [];
        return;
      }
      var s := GetCurrentPath();
      output := output + [(tid, s)];
      ghost var out0 := output;
      hide Closed, Gained, Edges, Free, Walks, Entries, PathText, AttrCount, ChildCount, AggregateCount;
      CountsMeet(g, tid);
      GatherAttributes(tid);
      ghost var out1 := output;
      GatherChildren(tid);
      ghost var out2 := output;
      GatherAggregates(tid);
      GainedBoth(g, path, on, tid, 0, ChildCount(g, tid, 0), AggregateCount(g, tid, 0), out0, out1, out2);
      GainedBoth(g, path, on, tid, 0, AggregateCount(g, tid, 0), |Edges(g, tid)|, out0, out2, output);
      GainedAll(g, path, on, tid, old(output), output);
    }

    /** After any calls the output lists, sorted and once each, the entries of all simple walks from the roots gathered. */
    method Gather(tid: nat)
      requires Valid() && IsType(G(), tid) && currentPath == [] && alreadyProcessed == []
      modifies this`output, this`currentPath, this`alreadyProcessed
      ensures Valid() && currentPath == [] && alreadyProcessed == []
      ensures Strict(output)
      ensures forall e :: e in output <==> e in old(output) || Reached(G(), tid, e)
    {
      DoGather(tid);
      SortedReached(G(), tid, old(output), output);
      output := Sort(output);
      output := Unique(output);
    }
  }

  /** `e` is the entry of some simple walk from `root`. */
  ghost predicate Reached(g: Graph, root: nat, e: Entry)
    requires Closed(g) && IsType(g, root)
  {
    exists p :: Simple(g, root, {}, p) && e == EntryOf(g, root, [], p)
  }

  lemma EntriesReached(g: Graph, root: nat, e: Entry)
    requires Closed(g) && IsType(g, root)
    ensures e in Entries(g, root, [], Walks(g, root, {})) <==> Reached(g, root, e)
  {
    hide Edges, Walks, EntryOf, Simple, Closed;
    var ws := Walks(g, root, {});
    if e in Entries(g, root, [], ws) {
      var i :| 0 <= i < |ws| && Entries(g, root, [], ws)[i] == e;
      WalksAreSimple(g, root, {}, ws[i]);
    }
    if Reached(g, root, e) {
      var p :| Simple(g, root, {}, p) && e == EntryOf(g, root, [], p);
      WalksAreSimple(g, root, {}, p);
      var i :| 0 <= i < |ws| && ws[i] == p;
      assert Entries(g, root, [], ws)[i] == e;
    }
  }
}
