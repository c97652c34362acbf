module ExternRegistry {
  // The pointer array of an extern variable refers to every instance of it, which
  // is a link error if the variable exists nowhere.  So the initialisers of such
  // arrays are registered while the file is read, forgotten when the variable is
  // referenced, and blanked at the end of the file if they are still registered.

  type Name = string

  /** What the reader meets: the declaration of an extern array, or a reference to a variable. */
  datatype Event = Declare(x: Name, text: string) | Refer(x: Name)

  /** A node is identified by the position of its declaration in the file. */
  type Node = nat

  predicate ReferredAfter(hist: seq<Event>, p: nat, x: Name) {
    exists q :: p < q < |hist| && hist[q] == Refer(x)
  }

  /** `p` declares `x` and nothing has referred to `x` since. */
  predicate IsPending(hist: seq<Event>, x: Name, p: nat) {
    p < |hist| && hist[p].Declare? && hist[p].x == x && !ReferredAfter(hist, p, x)
  }

  predicate Registered(pending: map<Name, seq<Node>>, x: Name, p: nat) {
    x in pending && p in pending[x]
  }

  class Registry {
    var pending: map<Name, seq<Node>>
    var buf: map<Node, string>
    ghost var hist: seq<Event>

    ghost predicate Valid()
      reads this
    {
      && (forall x: Name, p: nat :: Registered(pending, x, p) <==> IsPending(hist, x, p))
      && (forall p: nat :: p in buf <==> p < |hist| && hist[p].Declare?)
      && (forall p: nat :: p in buf ==> buf[p] == hist[p].text)
    }

    constructor ()
      ensures Valid() && hist == []
    {
      pending, buf, hist := map[], map[], [];
    }

    method Declaration(x: Name, text: string, node: Node)
      requires Valid() && node == |hist|
      modifies this
      ensures Valid() && hist == old(hist) + [Declare(x, text)]
    {
      if x in pending {
        pending := pending[x := pending[x] + [node]];
      } else {
        pending := pending[x := [node]];
      }
      buf := buf[node := text];
      hist := hist + [Declare(x, text)];
      forall y: Name, p: nat ensures Registered(pending, y, p) <==> IsPending(hist, y, p) {
        StillPending(old(hist), Declare(x, text), y, p);
        assert Registered(old(pending), y, p) <==> IsPending(old(hist), y, p);
      }
    }

    method Reference(x: Name)
      requires Valid()
      modifies this
      ensures Valid() && hist == old(hist) + [Refer(x)]
    {
      pending := pending - {x};
      hist := hist + [Refer(x)];
      forall y: Name, p: nat ensures Registered(pending, y, p) <==> IsPending(hist, y, p) {
        StillPending(old(hist), Refer(x), y, p);
        assert Registered(old(pending), y, p) <==> IsPending(old(hist), y, p);
      }
    }

    /** At the end of the file: an initialiser is blanked if and only if no reference follows it. */
    method BlankUnreferenced()
      requires Valid()
      modifies this`buf
      ensures buf.Keys == old(buf.Keys)
      ensures forall p: nat :: p < |hist| && hist[p].Declare? ==>
        buf[p] == if ReferredAfter(hist, p, hist[p].x) then hist[p].text else ""
    {
      var todo := pending.Keys;
      ghost var done: set<Name> := {};
      while todo != {}
        invariant todo + done == pending.Keys
        invariant buf.Keys == old(buf.Keys)
        invariant forall p: nat :: p in buf ==> buf[p] == if InSome(pending, done, p) then "" else hist[p].text
        decreases todo
      {
        var x :| x in todo;
        forall p: nat | p in pending[x] ensures p in buf {
          assert Registered(pending, x, p);
        }
        BlankAll(x);
        forall p: nat ensures InSome(pending, done + {x}, p) <==> InSome(pending, done, p) || p in pending[x] {
          InSomeMore(pending, done, x, p);
        }
        todo, done := todo - {x}, done + {x};
      }
      forall p: nat | p < |hist| && hist[p].Declare?
        ensures buf[p] == if ReferredAfter(hist, p, hist[p].x) then hist[p].text else ""
      {
        assert Registered(pending, hist[p].x, p) <==> IsPending(hist, hist[p].x, p);
        assert InSome(pending, done, p) <==> Registered(pending, hist[p].x, p);
      }
    }

    method BlankAll(x: Name)
      requires x in pending && forall p: nat :: p in pending[x] ==> p in buf
      modifies this`buf
      ensures buf.Keys == old(buf.Keys)
      ensures forall p: nat :: p in buf ==> buf[p] == if p in pending[x] then "" else old(buf)[p]
    {
      var i := 0;
      while i < |pending[x]|
        invariant 0 <= i <= |pending[x]|
        invariant buf.Keys == old(buf.Keys)
        invariant forall p: nat :: p in buf ==> buf[p] == if p in pending[x][..i] then "" else old(buf)[p]
      {
        buf := buf[pending[x][i] := ""];
        i := i + 1;
      }
      assert pending[x][..i] == pending[x];
    }
  }

  ghost predicate InSome(pending: map<Name, seq<Node>>, names: set<Name>, p: nat) {
    exists x :: x in names && Registered(pending, x, p)
  }

  lemma InSomeMore(pending: map<Name, seq<Node>>, names: set<Name>, x: Name, p: nat)
    requires x in pending
    ensures InSome(pending, names + {x}, p) <==> InSome(pending, names, p) || p in pending[x]
  {
    if p in pending[x] {
      assert Registered(pending, x, p) && x in names + {x};
    }
    if InSome(pending, names, p) {
      var y :| y in names && Registered(pending, y, p);
      assert y in names + {x};
    }
  }

  /** One more event leaves a node pending unless it refers to its variable. */
  lemma StillPending(hist: seq<Event>, e: Event, x: Name, p: nat)
    ensures IsPending(hist + [e], x, p) <==>
      if p == |hist| then e.Declare? && e.x == x else IsPending(hist, x, p) && e != Refer(x)
  {
    var h := hist + [e];
    if p < |hist| {
      assert h[|hist|] == e;
      assert forall q :: p < q < |hist| ==> h[q] == hist[q];
      if ReferredAfter(hist, p, x) {
        var q :| p < q < |hist| && hist[q] == Refer(x);
        assert h[q] == Refer(x);
      }
    }
  }

  /** The array a reference at `q` uses: the latest declaration before it. */
  predicate ResolvesTo(hist: seq<Event>, q: nat, p: nat) {
    && p < q < |hist| && hist[q].Refer? && hist[p].Declare? && hist[p].x == hist[q].x
    && forall i :: p < i < q ==> !(hist[i].Declare? && hist[i].x == hist[q].x)
  }

  /** Reading a whole file: no array that some reference uses loses its initialiser, and every unused latest one does. */
  method ReadFile(events: seq<Event>) returns (buf: map<Node, string>)
    ensures forall p: nat :: p in buf <==> p < |events| && events[p].Declare?
    ensures forall p: nat :: p in buf ==>
      buf[p] == if ReferredAfter(events, p, events[p].x) then events[p].text else ""
    ensures forall p: nat, q: nat :: ResolvesTo(events, q, p) ==> p in buf && buf[p] == events[p].text
  {
    var r := new Registry();
    var i := 0;
    while i < |events|
      invariant 0 <= i <= |events| && r.Valid() && r.hist == events[..i]
      invariant fresh(r)
    {
      match events[i] {
        case Declare(x, text) => r.Declaration(x, text, i);
        case Refer(x) => r.Reference(x);
      }
      i := i + 1;
    }
    assert events[..i] == events;
    r.BlankUnreferenced();
    buf := r.buf;
  }
}
