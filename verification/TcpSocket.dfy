/** The application's end of a TCP connection: a socket object that turns calls into commands. */
module TcpSocket {

  datatype State =
    NotBound | Bound | Listening | Connecting | Connected | PeerClosed | LocallyClosed | Closed | SockError

  /** Addresses are numbers here; 0 is the unspecified address. */
  type Addr = nat

  datatype Sock = Sock(connId: nat, state: State, localAddr: Addr, localPort: int, remoteAddr: Addr, remotePort: int)

  /** What a socket sends to TCP. */
  datatype Command =
    | OpenActive(id: nat, localAddr: Addr, localPort: int, remoteAddr: Addr, remotePort: int)
    | OpenPassive(id: nat, localAddr: Addr, localPort: int, fork: bool)
    | SendData(id: nat, bytes: nat)
    | CloseConn(id: nat)
    | AbortConn(id: nat)

  predicate IsOpen(c: Command) {
    c.OpenActive? || c.OpenPassive?
  }

  /** What TCP sends to a socket. */
  datatype Indication =
    | Data | UrgentData
    | Established(localAddr: Addr, localPort: int, remoteAddr: Addr, remotePort: int)
    | PeerClosedI | ClosedI | Refused | Reset | TimedOut | StatusI
    | OtherKind

  datatype Call =
    | Bind(port: int)
    | BindTo(addr: Addr, port: int)
    | Listen(fork: bool)
    | Connect(addr: Addr, port: int)
    | Send(bytes: nat)
    | Close
    | Abort
    | Renew
    | Process(ind: Indication)

  /** A call changes the socket and sends at most one command, or stops the simulation with an error. */
  datatype Effect = Effect(sock: Sock, sent: seq<Command>) | Error

  function NewSock(id: nat): Sock {
    Sock(id, NotBound, 0, -1, 0, -1)
  }

  predicate PortOk(p: int) {
    0 <= p <= 65535
  }

  function OnIndication(s: Sock, i: Indication): Effect {
    match i
    case Established(la, lp, ra, rp) => Effect(Sock(s.connId, Connected, la, lp, ra, rp), [])
    case PeerClosedI => Effect(s.(state := if s.state == Connected then PeerClosed else Closed), [])
    case ClosedI => Effect(s.(state := Closed), [])
    case Refused => Effect(s.(state := SockError), [])
    case Reset => Effect(s.(state := SockError), [])
    case TimedOut => Effect(s.(state := SockError), [])
    case OtherKind => Error
    case _ => Effect(s, [])
  }

  /** One call; `unique` is the unique number the simulator hands out next. */
  function Do(s: Sock, c: Call, unique: nat): Effect {
    match c
    case Bind(p) =>
      if s.state != NotBound || !PortOk(p) then Error else Effect(s.(localPort := p, state := Bound), [])
    case BindTo(a, p) =>
      if s.state != NotBound || (!PortOk(p) && p != -1) then Error
      else Effect(s.(localAddr := a, localPort := p, state := Bound), [])
    case Listen(fork) =>
      if s.state != Bound then Error
      else Effect(s.(state := Listening), [OpenPassive(s.connId, s.localAddr, s.localPort, fork)])
    case Connect(a, p) =>
      if (s.state != NotBound && s.state != Bound) || !PortOk(p) then Error
      else Effect(s.(remoteAddr := a, remotePort := p, state := Connecting),
                  [OpenActive(s.connId, s.localAddr, s.localPort, a, p)])
    case Send(n) =>
      if s.state != Connected && s.state != Connecting && s.state != PeerClosed then Error
      else Effect(s, [SendData(s.connId, n)])
    case Close =>
      if s.state != Connected && s.state != PeerClosed && s.state != Connecting && s.state != Listening then Error
      else Effect(s.(state := if s.state == Connected then LocallyClosed else Closed), [CloseConn(s.connId)])
    case Abort =>
      Effect(s.(state := Closed),
             if s.state != NotBound && s.state != Bound && s.state != Closed && s.state != SockError
             then [AbortConn(s.connId)] else [])
    case Renew => Effect(NewSock(unique), [])
    case Process(i) => OnIndication(s, i)
  }

  // ----- one socket, any calls, any indications -----

  /** Everything a socket sends; every renewal takes the next unique number. */
  function Sent(s: Sock, calls: seq<Call>, unique: nat): seq<Command>
    decreases |calls|
  {
    if calls == [] then []
    else match Do(s, calls[0], unique)
      case Error => []
      case Effect(s', cs) => cs + Sent(s', calls[1..], if calls[0].Renew? then unique + 1 else unique)
  }

  function Opens(cs: seq<Command>, id: nat): nat {
    if cs == [] then 0 else (if IsOpen(cs[0]) && cs[0].id == id then 1 else 0) + Opens(cs[1..], id)
  }

  lemma {:induction false} OpensAppend(a: seq<Command>, b: seq<Command>, id: nat)
    ensures Opens(a + b, id) == Opens(a, id) + Opens(b, id)
  {
    if a == [] {
      assert a + b == b;
    } else {
      assert (a + b)[1..] == a[1..] + b;
      OpensAppend(a[1..], b, id);
    }
  }

  /** A socket can still open its connection. */
  predicate CanOpen(s: Sock) {
    s.state == NotBound || s.state == Bound
  }

  /**
   Whatever TCP indicates and whatever the application calls, a socket sends at most
   one OPEN for each connection number, none for a number it has not got yet.
   */
  lemma {:induction false} OneOpenPerConnection(s: Sock, calls: seq<Call>, unique: nat, id: nat)
    requires s.connId < unique
    ensures Opens(Sent(s, calls, unique), id) <=
            if id == s.connId then (if CanOpen(s) then 1 else 0) else if id >= unique then 1 else 0
    decreases |calls|
  {
    if calls != [] && Do(s, calls[0], unique).Effect? {
      var e, unique' := Do(s, calls[0], unique), if calls[0].Renew? then unique + 1 else unique;
      OneOpenPerConnection(e.sock, calls[1..], unique', id);
      OpensAppend(e.sent, Sent(e.sock, calls[1..], unique'), id);
      DoOpens(s, calls[0], unique, id);
    }
  }

  lemma DoOpens(s: Sock, c: Call, unique: nat, id: nat)
    requires Do(s, c, unique).Effect?
    ensures var e := Do(s, c, unique);
            && Opens(e.sent, id) <= (if id == s.connId && CanOpen(s) && !CanOpen(e.sock) then 1 else 0)
            && (!c.Renew? ==> e.sock.connId == s.connId && (CanOpen(e.sock) ==> CanOpen(s)))
  {
    var e := Do(s, c, unique);
    assert Opens([], id) == 0;
    if e.sent != [] {
      assert e.sent[1..] == [];
    }
  }

  // ----- the object -----

  class TCPSocket {
    var connId: nat
    var sockstate: State
    var localAddr: Addr
    var localPrt: int
    var remoteAddr: Addr
    var remotePrt: int
    var toTcp: seq<Command>   // what went through the output gate

    function Value(): Sock
      reads this
    {
      Sock(connId, sockstate, localAddr, localPrt, remoteAddr, remotePrt)
    }

    constructor (id: nat)
      ensures Value() == NewSock(id) && toTcp == []
    {
      connId, sockstate, localAddr, localPrt, remoteAddr, remotePrt, toTcp := id, NotBound, 0, -1, 0, -1, [];
    }

    method BindPort(lPort: int) returns (ok: bool)
      modifies this`localPrt, this`sockstate
      ensures Does(old(Value()), Bind(lPort), 0, ok, Value(), old(toTcp), toTcp)
    {
      if sockstate != NotBound || lPort < 0 || lPort > 65535 { return false; }
      localPrt, sockstate := lPort, Bound;
      return true;
    }

    method BindAddress(lAddr: Addr, lPort: int) returns (ok: bool)
      modifies this`localAddr, this`localPrt, this`sockstate
      ensures Does(old(Value()), BindTo(lAddr, lPort), 0, ok, Value(), old(toTcp), toTcp)
    {
      if sockstate != NotBound { return false; }
      if (lPort < 0 || lPort > 65535) && lPort != -1 { return false; }
      localAddr, localPrt, sockstate := lAddr, lPort, Bound;
      return true;
    }

    method StartListening(fork: bool) returns (ok: bool)
      modifies this`sockstate, this`toTcp
      ensures Does(old(Value()), Listen(fork), 0, ok, Value(), old(toTcp), toTcp)
    {
      if sockstate != Bound { return false; }
      toTcp := toTcp + [OpenPassive(connId, localAddr, localPrt, fork)];
      sockstate := Listening;
      return true;
    }

    method ConnectTo(remoteAddress: Addr, remotePort: int) returns (ok: bool)
      modifies this`sockstate, this`remoteAddr, this`remotePrt, this`toTcp
      ensures Does(old(Value()), Connect(remoteAddress, remotePort), 0, ok, Value(), old(toTcp), toTcp)
    {
      if sockstate != NotBound && sockstate != Bound { return false; }
      if remotePort < 0 || remotePort > 65535 { return false; }
      remoteAddr, remotePrt := remoteAddress, remotePort;
      toTcp := toTcp + [OpenActive(connId, localAddr, localPrt, remoteAddr, remotePrt)];
      sockstate := Connecting;
      return true;
    }

    method SendBytes(n: nat) returns (ok: bool)
      modifies this`toTcp
      ensures Does(old(Value()), Send(n), 0, ok, Value(), old(toTcp), toTcp)
    {
      if sockstate != Connected && sockstate != Connecting && sockstate != PeerClosed { return false; }
      toTcp := toTcp + [SendData(connId, n)];
      return true;
    }

    method CloseSocket() returns (ok: bool)
      modifies this`sockstate, this`toTcp
      ensures Does(old(Value()), Close, 0, ok, Value(), old(toTcp), toTcp)
    {
      if sockstate != Connected && sockstate != PeerClosed && sockstate != Connecting && sockstate != Listening { return false; }
      toTcp := toTcp + [CloseConn(connId)];
      sockstate := if sockstate == Connected then LocallyClosed else Closed;
      return true;
    }

    method AbortSocket()
      modifies this`sockstate, this`toTcp
      ensures Does(old(Value()), Abort, 0, true, Value(), old(toTcp), toTcp)
    {
      if sockstate != NotBound && sockstate != Bound && sockstate != Closed && sockstate != SockError {
        toTcp := toTcp + [AbortConn(connId)];
      }
      sockstate := Closed;
    }

    method RenewSocket(unique: nat)
      modifies this`connId, this`sockstate, this`localAddr, this`localPrt, this`remoteAddr, this`remotePrt
      ensures Does(old(Value()), Renew, unique, true, Value(), old(toTcp), toTcp)
    {
      connId := unique;
      remoteAddr, localAddr := 0, 0;
      remotePrt, localPrt := -1, -1;
      sockstate := NotBound;
    }

    method ProcessMessage(kind: Indication) returns (ok: bool)
      modifies this`sockstate, this`localAddr, this`localPrt, this`remoteAddr, this`remotePrt
      ensures Does(old(Value()), Process(kind), 0, ok, Value(), old(toTcp), toTcp)
    {
      ok := true;
      match kind {
        case Data =>
        case UrgentData =>
        case Established(la, lp, ra, rp) =>
          sockstate := Connected;
          localAddr, remoteAddr, localPrt, remotePrt := la, ra, lp, rp;
        case PeerClosedI => sockstate := if sockstate == Connected then PeerClosed else Closed;
        case ClosedI => sockstate := Closed;
        case Refused => sockstate := SockError;
        case Reset => sockstate := SockError;
        case TimedOut => sockstate := SockError;
        case StatusI =>
        case OtherKind => ok := false;
      }
    }
  }

  /** Makes one call on the object. */
  method Perform(s: TCPSocket, c: Call, unique: nat) returns (ok: bool)
    modifies s
    ensures Does(old(s.Value()), c, unique, ok, s.Value(), old(s.toTcp), s.toTcp)
  {
    ok := true;
    match c {
      case Bind(p) => ok := s.BindPort(p);
      case BindTo(a, p) => ok := s.BindAddress(a, p);
      case Listen(fork) => ok := s.StartListening(fork);
      case Connect(a, p) => ok := s.ConnectTo(a, p);
      case Send(n) => ok := s.SendBytes(n);
      case Close => ok := s.CloseSocket();
      case Abort => s.AbortSocket();
      case Renew => s.RenewSocket(unique);
      case Process(i) => ok := s.ProcessMessage(i);
    }
  }

  /** An application at work on one object, until it is done or a call fails. */
  method PerformAll(s: TCPSocket, calls: seq<Call>, first: nat) returns (ok: bool)
    modifies s
    ensures s.toTcp == old(s.toTcp) + Sent(old(s.Value()), calls, first)
    ensures old(s.toTcp) == [] && old(s.connId) < first ==> OpensOnce(s.toTcp)
  {
    ok := true;
    var i: nat, unique: nat := 0, first;
    assert calls[0..] == calls;
    ghost var out0, all := s.toTcp, Sent(s.Value(), calls, first);
    assert [] + all == all;
    ghost var out: seq<Command> := [];
    EachOpensOnce(s.Value(), calls, first);
    hide Do, Sent, OpensOnce;
    while i < |calls|
      invariant 0 <= i <= |calls|
      invariant s.toTcp == out0 + out && out + Sent(s.Value(), calls[i..], unique) == all
    {
      SentStep(s.Value(), calls, i, unique, out);
      ghost var e := Do(s.Value(), calls[i], unique);
      ok := Perform(s, calls[i], unique);
      if !ok { return; }
      Regroup(out0, out, e.sent);
      out := out + e.sent;
      unique := if calls[i].Renew? then unique + 1 else unique;
      i := i + 1;
    }
    NothingSent(s.Value(), calls[i..], unique);
  }

  lemma Regroup(a: seq<Command>, b: seq<Command>, c: seq<Command>)
    ensures a + b + c == a + (b + c)
  {
  }

  /** No connection number is opened twice. */
  ghost predicate OpensOnce(cs: seq<Command>) {
    forall n: nat :: Opens(cs, n) <= 1
  }

  lemma EachOpensOnce(s: Sock, calls: seq<Call>, unique: nat)
    ensures s.connId < unique ==> OpensOnce(Sent(s, calls, unique))
  {
    if s.connId < unique {
      var cs := Sent(s, calls, unique);
      forall n: nat ensures Opens(cs, n) <= 1 {
        OneOpenPerConnection(s, calls, unique, n);
      }
    }
  }

  lemma NothingSent(s: Sock, calls: seq<Call>, unique: nat)
    requires calls == []
    ensures Sent(s, calls, unique) == []
  {
  }

  lemma SentStep(s: Sock, calls: seq<Call>, i: nat, unique: nat, out: seq<Command>)
    requires i < |calls|
    ensures out + Sent(s, calls[i..], unique) ==
            match Do(s, calls[i], unique)
            case Error => out
            case Effect(s', cs) => out + cs + Sent(s', calls[i + 1..], if calls[i].Renew? then unique + 1 else unique)
  {
    hide Do;
    assert calls[i..][1..] == calls[i + 1..];
  }

  /** A method did what the call does: an error changes nothing. */
  predicate Does(before: Sock, c: Call, unique: nat, ok: bool, after: Sock, out: seq<Command>, out': seq<Command>) {
    match Do(before, c, unique)
    case Error => !ok && after == before && out' == out
    case Effect(s, cs) => ok && after == s && out' == out + cs
  }
}
