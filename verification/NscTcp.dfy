/** The TCP module: its connection table, the sockets of the NSC stack behind it, and accept polling. */
module NscTcp {
  import opened TcpSocket

  /** Which sockets of the stack a connection holds. */
  datatype Conn = Conn(hasSocket: bool, isListening: bool)

  datatype Tcp = Tcp(conns: map<nat, Conn>, toAccept: seq<nat>)

  /** Why the simulation stops. */
  datatype Halt =
    | UsageError     // an error reported to the user
    | NotForking     // assertion: passive opens fork
    | SocketTwice    // assertion: no socket yet
    | NoSocket       // a null pointer is followed

  datatype Reply = Goes(tcp: Tcp) | Halts(why: Halt)

  /** A port stored in a 16-bit signed integer. */
  function Short(p: int): int {
    var m := p % 65536;
    if m >= 32768 then m - 65536 else m
  }

  /** The table with an entry for `id`: a new one holds no sockets. */
  function Found(t: Tcp, id: nat): map<nat, Conn> {
    if id in t.conns then t.conns else t.conns[id := Conn(false, false)]
  }

  function Handle(t: Tcp, c: Command): Reply {
    var conns := Found(t, c.id);
    var conn := conns[c.id];
    match c
    case OpenActive(id, _, _, ra, rp) =>
      if ra == 0 || Short(rp) == -1 then Halts(UsageError)
      else if conn.hasSocket then Halts(SocketTwice)
      else Goes(Tcp(conns[id := conn.(hasSocket := true)], t.toAccept))
    case OpenPassive(id, _, lp, fork) =>
      if !fork then Halts(NotForking)
      else if Short(lp) == -1 then Halts(UsageError)
      else if conn.hasSocket then Halts(SocketTwice)
      else Goes(Tcp(conns[id := conn.(isListening := true)], t.toAccept + [id]))
    case SendData(_, _) => if conn.hasSocket then Goes(Tcp(conns, t.toAccept)) else Halts(NoSocket)
    case _ => Goes(Tcp(conns, t.toAccept))
  }

  /** Port 65535 becomes -1 in a 16-bit integer, and only it: the module stops at a valid port that it takes for none. */
  lemma LastPortIsLost(t: Tcp, c: Command)
    ensures c.OpenActive? && c.remoteAddr != 0 && PortOk(c.remotePort) ==>
              (Handle(t, c) == Halts(UsageError) <==> c.remotePort == 65535)
    ensures c.OpenPassive? && c.fork && PortOk(c.localPort) ==>
              (Handle(t, c) == Halts(UsageError) <==> c.localPort == 65535)
  {
  }

  // ----- accept polling -----

  /** The connections that still wait after a round in which those of `got` were accepted. */
  function StillWaiting(ids: seq<nat>, got: set<nat>): seq<nat> {
    if ids == [] then []
    else if ids[0] in got then StillWaiting(ids[1..], got)
    else [ids[0]] + StillWaiting(ids[1..], got)
  }

  lemma {:induction false} WaitsUnlessAccepted(ids: seq<nat>, got: set<nat>, id: nat)
    ensures id in StillWaiting(ids, got) <==> id in ids && id !in got
  {
    if ids != [] {
      WaitsUnlessAccepted(ids[1..], got, id);
    }
  }

  function Accepted(conns: map<nat, Conn>, ids: seq<nat>, got: set<nat>): (r: map<nat, Conn>)
    ensures r.Keys == conns.Keys
  {
    map id | id in conns :: if id in ids && id in got then conns[id].(hasSocket := true) else conns[id]
  }

  function Poll(t: Tcp, got: set<nat>): Tcp {
    Tcp(Accepted(t.conns, t.toAccept, got), StillWaiting(t.toAccept, got))
  }

  lemma {:induction false} OneMoreWaiting(ids: seq<nat>, id: nat, got: set<nat>)
    ensures StillWaiting(ids + [id], got) == StillWaiting(ids, got) + (if id in got then [] else [id])
  {
    if ids == [] {
      assert (ids + [id])[1..] == [];
    } else {
      assert (ids + [id])[1..] == ids[1..] + [id];
      OneMoreWaiting(ids[1..], id, got);
    }
  }

  lemma OneMoreAccepted(conns: map<nat, Conn>, ids: seq<nat>, id: nat, got: set<nat>)
    requires id in conns
    ensures var c := Accepted(conns, ids, got);
            Accepted(conns, ids + [id], got) == if id in got then c[id := c[id].(hasSocket := true)] else c
  {
  }

  class Module {
    var conns: map<nat, Conn>
    var toAccept: seq<nat>

    function Value(): Tcp
      reads this
    {
      Tcp(conns, toAccept)
    }

    constructor ()
      ensures Value() == Tcp(map[], [])
    {
      conns, toAccept := map[], [];
    }

    /** A command from the application. */
    method ProcessAppCommand(c: Command) returns (r: Reply)
      modifies this
      ensures r == Handle(old(Value()), c)
      ensures r.Goes? ==> Value() == r.tcp
    {
      if c.id !in conns {
        conns := conns[c.id := Conn(false, false)];
      }
      var conn := conns[c.id];
      match c {
        case OpenActive(id, _, _, ra, rp) =>
          if ra == 0 || Short(rp) == -1 { return Halts(UsageError); }
          if conn.hasSocket { return Halts(SocketTwice); }
          conns := conns[id := conn.(hasSocket := true)];
        case OpenPassive(id, _, lp, fork) =>
          if !fork { return Halts(NotForking); }
          if Short(lp) == -1 { return Halts(UsageError); }
          if conn.hasSocket { return Halts(SocketTwice); }
          conns := conns[id := conn.(isListening := true)];
          toAccept := toAccept + [id];
        case SendData(_, _) =>
          if !conn.hasSocket { return Halts(NoSocket); }
        case CloseConn(_) =>
        case AbortConn(_) =>
      }
      return Goes(Value());
    }

    /** The list is walked and shortened at the same time; `got` are the connections the stack hands over now. */
    method PollAccepting(got: set<nat>)
      requires forall id :: id in toAccept ==> id in conns
      modifies this
      ensures Value() == Poll(old(Value()), got)
    {
      ghost var ids, conns0 := toAccept, conns;
      ghost var seen, kept, rest: seq<nat> := [], [], toAccept;
      var i := 0;
      assert conns == Accepted(conns0, [], got) && StillWaiting([], got) == [];
      hide Accepted, StillWaiting;
      while i < |toAccept|
        invariant ids == seen + rest && toAccept == kept + rest && i == |kept|
        invariant kept == StillWaiting(seen, got) && conns == Accepted(conns0, seen, got)
        decreases |rest|
      {
        var id := toAccept[i];
        assert id == rest[0] == ids[|seen|];
        OneMoreWaiting(seen, id, got);
        OneMoreAccepted(conns0, seen, id, got);
        if id in got {
          Erase(kept, rest);
          toAccept := toAccept[..i] + toAccept[i + 1..];
          conns := conns[id := conns[id].(hasSocket := true)];
        } else {
          Shift(kept, rest, toAccept);
          kept, i := kept + [id], i + 1;
        }
        Shift(seen, rest, ids);
        seen, rest := seen + [id], rest[1..];
      }
      assert rest == [] && seen == ids;
    }
  }

  lemma Erase(kept: seq<nat>, rest: seq<nat>)
    requires rest != []
    ensures (kept + rest)[..|kept|] + (kept + rest)[|kept| + 1..] == kept + rest[1..]
  {
  }

  lemma Shift(a: seq<nat>, b: seq<nat>, c: seq<nat>)
    requires b != [] && c == a + b
    ensures c == a + [b[0]] + b[1..]
  {
  }
}
