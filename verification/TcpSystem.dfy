module TcpSystem {
  // Applications with any number of sockets, first-in first-out gates to one TCP module,
  // and packets from the network: every interleaving of their steps.  The module sends no
  // indication but DATA, status requests and forked sockets do not occur.

  import opened Common
  import opened TcpSocket
  import opened NscTcp

  /** A socket and the gate it sends through. */
  datatype Owner = Owner(sock: Sock, gate: nat)

  /** `handled` are the commands the module has dealt with; `gateOf` is the gate of each connection number. */
  datatype Sys = Sys(owners: seq<Owner>, queues: map<nat, seq<Command>>, tcp: Tcp, handled: seq<Command>,
                     gateOf: map<nat, nat>, next: nat)

  datatype Step =
    | NewSocket(gate: nat)
    | AppCall(i: nat, call: Call)
    | Deliver(gate: nat)
    | Packet(got: set<nat>)

  datatype Result = Running(s: Sys) | Stopped(why: Halt)

  function Queue(s: Sys, g: nat): seq<Command> {
    if g in s.queues then s.queues[g] else []
  }

  /** DATA is the only indication a socket gets. */
  predicate Possible(s: Sys, step: Step) {
    match step
    case NewSocket(_) => true
    case AppCall(i, call) => i < |s.owners| && (call.Process? ==> call.ind == Data)
    case Deliver(g) => Queue(s, g) != []
    case Packet(_) => true
  }

  function Next(s: Sys, step: Step): Result
    requires Possible(s, step)
  {
    match step
    case NewSocket(g) =>
      Running(s.(owners := s.owners + [Owner(NewSock(s.next), g)], gateOf := s.gateOf[s.next := g], next := s.next + 1))
    case AppCall(i, call) =>
      var o := s.owners[i];
      (match Do(o.sock, call, s.next)
       case Error => Stopped(UsageError)
       case Effect(sock, sent) =>
         var s' := s.(owners := s.owners[i := Owner(sock, o.gate)], queues := s.queues[o.gate := Queue(s, o.gate) + sent]);
         Running(if call.Renew? then s'.(gateOf := s.gateOf[s.next := o.gate], next := s.next + 1) else s'))
    case Deliver(g) =>
      var c := Queue(s, g)[0];
      (match Handle(s.tcp, c)
       case Halts(why) => Stopped(why)
       case Goes(tcp) => Running(s.(queues := s.queues[g := Queue(s, g)[1..]], tcp := tcp, handled := s.handled + [c])))
    case Packet(got) => Running(s.(tcp := Poll(s.tcp, got)))
  }

  const Init := Sys([], map[], Tcp(map[], []), [], map[], 0)

  // ----- the commands of one connection -----

  function Of(cs: seq<Command>, id: nat): seq<Command> {
    if cs == [] then [] else if cs[0].id == id then [cs[0]] + Of(cs[1..], id) else Of(cs[1..], id)
  }

  lemma {:induction false} OfAppend(a: seq<Command>, b: seq<Command>, id: nat)
    ensures Of(a + b, id) == Of(a, id) + Of(b, id)
  {
    if a == [] {
      assert a + b == b;
    } else {
      assert (a + b)[1..] == a[1..] + b;
      OfAppend(a[1..], b, id);
    }
  }

  /** All commands ever sent for `id`, handled or still under way. */
  function Emitted(s: Sys, id: nat): seq<Command> {
    Of(s.handled, id) + (if id in s.gateOf then Of(Queue(s, s.gateOf[id]), id) else [])
  }

  /** One OPEN, at the beginning; data only after an active one. */
  predicate WellOpened(cs: seq<Command>) {
    && (cs != [] ==> IsOpen(cs[0]))
    && (forall i :: 0 < i < |cs| ==> !IsOpen(cs[i]) && (cs[i].SendData? ==> cs[0].OpenActive?))
  }

  /** What the table knows about a connection, from the commands handled for it. */
  predicate Mirrors(t: Tcp, id: nat, done: seq<Command>) {
    && (id in t.conns <==> done != [])
    && (id in t.toAccept ==> id in t.conns && t.conns[id].isListening && !t.conns[id].hasSocket)
    && (id in t.conns && done[0].OpenActive? ==> t.conns[id].hasSocket)
  }

  predicate GoodId(s: Sys, id: nat) {
    && WellOpened(Emitted(s, id))
    && Mirrors(s.tcp, id, Of(s.handled, id))
    && (id !in s.gateOf ==> Emitted(s, id) == [])
    && (id in s.gateOf ==> id < s.next)
  }

  /** The state of a socket fits what it has sent for its connection. */
  predicate SockFits(sock: Sock, sofar: seq<Command>) {
    && sock.state in {NotBound, Bound, Listening, Connecting, Closed}
    && (CanOpen(sock) ==> sofar == [])
    && (!CanOpen(sock) && sock.state != Closed ==> sofar != [])
    && (sock.state == Connecting ==> sofar != [] && sofar[0].OpenActive?)
  }

  predicate GoodOwner(s: Sys, i: nat)
    requires i < |s.owners|
  {
    var o := s.owners[i];
    && o.sock.connId in s.gateOf && s.gateOf[o.sock.connId] == o.gate
    && SockFits(o.sock, Emitted(s, o.sock.connId))
  }

  /** Commands go through the gate of their connection. */
  predicate Routed(s: Sys) {
    forall g, k :: g in s.queues && 0 <= k < |s.queues[g]| ==> s.queues[g][k].id in s.gateOf && s.gateOf[s.queues[g][k].id] == g
  }

  predicate OwnNumbers(s: Sys) {
    forall i, j :: 0 <= i < j < |s.owners| ==> s.owners[i].sock.connId != s.owners[j].sock.connId
  }

  ghost predicate Inv(s: Sys) {
    && (forall id: nat :: GoodId(s, id))
    && (forall i: nat :: i < |s.owners| ==> GoodOwner(s, i))
    && Routed(s) && OwnNumbers(s) && Distinct(s.tcp.toAccept)
  }

  lemma InitInv()
    ensures Inv(Init)
  {
  }

  // ----- steps -----

  /** What one call of a socket may send, as far as its connection is concerned. */
  lemma CallKeepsOpened(sock: Sock, call: Call, unique: nat, sofar: seq<Command>)
    requires WellOpened(sofar) && Do(sock, call, unique).Effect? && (call.Process? ==> call.ind == Data)
    requires SockFits(sock, sofar)
    ensures var e := Do(sock, call, unique);
            && WellOpened(sofar + e.sent)
            && (forall k :: 0 <= k < |e.sent| ==> e.sent[k].id == sock.connId)
            && (if call.Renew? then e.sock == NewSock(unique) && e.sent == []
                else e.sock.connId == sock.connId && SockFits(e.sock, sofar + e.sent))
  {
  }

  lemma {:induction false} OfNone(cs: seq<Command>, id: nat)
    requires forall k :: 0 <= k < |cs| ==> cs[k].id != id
    ensures Of(cs, id) == []
  {
    if cs != [] {
      OfNone(cs[1..], id);
    }
  }

  lemma {:induction false} OfAll(cs: seq<Command>, id: nat)
    requires forall k :: 0 <= k < |cs| ==> cs[k].id == id
    ensures Of(cs, id) == cs
  {
    if cs != [] {
      OfAll(cs[1..], id);
    }
  }

  /** A number whose commands are nowhere in a queue of another gate. */
  lemma OtherGate(s: Sys, g: nat, id: nat)
    requires Routed(s) && !(id in s.gateOf && s.gateOf[id] == g)
    ensures Of(Queue(s, g), id) == []
  {
    OfNone(Queue(s, g), id);
  }

  /** Sending through a gate lengthens the sender's commands and nobody else's. */
  lemma SendEmits(s: Sys, s': Sys, g: nat, sent: seq<Command>, owner: nat, id: nat)
    requires Routed(s) && owner in s.gateOf && s.gateOf[owner] == g
    requires forall k :: 0 <= k < |sent| ==> sent[k].id == owner
    requires s'.handled == s.handled && s'.queues == s.queues[g := Queue(s, g) + sent]
    requires id in s.gateOf ==> id in s'.gateOf && s'.gateOf[id] == s.gateOf[id]
    requires id in s'.gateOf && id !in s.gateOf ==> Emitted(s, id) == []
    ensures Emitted(s', id) == if id == owner then Emitted(s, id) + sent else Emitted(s, id)
  {
    OfAppend(Queue(s, g), sent, id);
    if id == owner { OfAll(sent, id); } else { OfNone(sent, id); }
    if id !in s.gateOf {
      OtherGate(s, g, id);
      if id in s'.gateOf {
        OtherGate(s, s'.gateOf[id], id);
      }
    }
  }

  /** Handling moves a command from the queue to the handled ones. */
  lemma DeliverEmits(s: Sys, s': Sys, g: nat, id: nat)
    requires Routed(s) && Queue(s, g) != []
    requires s'.gateOf == s.gateOf && s'.queues == s.queues[g := Queue(s, g)[1..]] && s'.handled == s.handled + [Queue(s, g)[0]]
    ensures Emitted(s', id) == Emitted(s, id)
    ensures Of(s'.handled, id) == if id == Queue(s, g)[0].id then Of(s.handled, id) + [Queue(s, g)[0]] else Of(s.handled, id)
  {
    var q := Queue(s, g);
    var c, x := q[0], if q[0].id == id then [q[0]] else [];
    assert c.id in s.gateOf && s.gateOf[c.id] == g;
    OfBehind(s.handled, c, id);
    OfFront(q, id);
    hide Of, Routed;
    var h := Of(s.handled, id);
    if id in s.gateOf && s.gateOf[id] == g {
      assert Queue(s', g) == q[1..];
      assert h + x + Of(q[1..], id) == h + (x + Of(q[1..], id));
    } else {
      assert h + [] == h;
    }
  }

  lemma OfFront(cs: seq<Command>, id: nat)
    requires cs != []
    ensures Of(cs, id) == (if cs[0].id == id then [cs[0]] else []) + Of(cs[1..], id)
  {
  }

  lemma OfBehind(cs: seq<Command>, c: Command, id: nat)
    ensures Of(cs + [c], id) == Of(cs, id) + (if c.id == id then [c] else [])
  {
    OfAppend(cs, [c], id);
    assert [c][1..] == [] && Of([], id) == [];
  }

  /** A command is handled as its place among the commands of its connection demands. */
  lemma HandleKeeps(t: Tcp, c: Command, done: seq<Command>, rest: seq<Command>)
    requires Mirrors(t, c.id, done) && WellOpened(done + [c] + rest)
    ensures match Handle(t, c)
            case Halts(why) => why == UsageError || why == NotForking
            case Goes(t') => Mirrors(t', c.id, done + [c])
    ensures Handle(t, c).Goes? ==>
            && (forall id :: id != c.id ==> (id in Handle(t, c).tcp.conns <==> id in t.conns))
            && (forall id :: id != c.id && id in t.conns ==> Handle(t, c).tcp.conns[id] == t.conns[id])
            && Handle(t, c).tcp.toAccept == t.toAccept + (if c.OpenPassive? then [c.id] else [])
            && (c.OpenPassive? ==> c.id !in t.toAccept)
  {
    var all := done + [c] + rest;
    assert all[|done|] == c;
    if done != [] {
      assert all[0] == done[0];
    } else {
      assert all[0] == c;
    }
  }

  lemma DeliverKeepsInv(s: Sys, g: nat)
    requires Inv(s) && Queue(s, g) != []
    ensures match Next(s, Deliver(g))
            case Stopped(why) => why == UsageError || why == NotForking
            case Running(s') => Inv(s')
  {
    var c := Queue(s, g)[0];
    assert GoodId(s, c.id);
    assert c.id in s.gateOf && s.gateOf[c.id] == g;
    HandleKeeps(s.tcp, c, Of(s.handled, c.id), Of(Queue(s, g)[1..], c.id)) by {
      assert Of(s.handled, c.id) + Of(Queue(s, g), c.id) == Of(s.handled, c.id) + [c] + Of(Queue(s, g)[1..], c.id);
    }
    if Handle(s.tcp, c).Goes? {
      var s' := Next(s, Deliver(g)).s;
      forall id: nat ensures Emitted(s', id) == Emitted(s, id) {
        DeliverEmits(s, s', g, id);
      }
      hide Emitted, Handle, WellOpened;
      forall id: nat ensures GoodId(s', id) {
        assert GoodId(s, id);
        DeliverEmits(s, s', g, id);
      }
      forall i: nat | i < |s'.owners| ensures GoodOwner(s', i) {
        assert GoodOwner(s, i);
      }
    }
  }

  lemma PacketKeepsInv(s: Sys, got: set<nat>)
    requires Inv(s)
    ensures Inv(s.(tcp := Poll(s.tcp, got)))
  {
    var s' := s.(tcp := Poll(s.tcp, got));
    assert forall id: nat :: Emitted(s', id) == Emitted(s, id);
    hide Emitted, WellOpened;
    forall id: nat ensures GoodId(s', id) {
      assert GoodId(s, id);
      WaitsUnlessAccepted(s.tcp.toAccept, got, id);
    }
    forall i: nat | i < |s'.owners| ensures GoodOwner(s', i) {
      assert GoodOwner(s, i);
    }
    StaysDistinct(s.tcp.toAccept, got);
  }

  lemma {:induction false} StaysDistinct(ids: seq<nat>, got: set<nat>)
    requires Distinct(ids)
    ensures Distinct(StillWaiting(ids, got))
  {
    if ids != [] {
      StaysDistinct(ids[1..], got);
      WaitsUnlessAccepted(ids[1..], got, ids[0]);
    }
  }

  lemma NewSocketKeepsInv(s: Sys, g: nat)
    requires Inv(s)
    ensures Inv(Next(s, NewSocket(g)).s)
  {
    var s' := Next(s, NewSocket(g)).s;
    assert GoodId(s, s.next);
    forall id: nat ensures Emitted(s', id) == Emitted(s, id) {
      assert GoodId(s, id);
      if id == s.next { OtherGate(s, g, id); }
    }
    hide Emitted, WellOpened;
    forall id: nat ensures GoodId(s', id) {
      assert GoodId(s, id);
    }
    forall i: nat | i < |s'.owners| ensures GoodOwner(s', i) {
      if i < |s.owners| { assert GoodOwner(s, i); }
    }
    forall i | 0 <= i < |s.owners| ensures s.owners[i].sock.connId != s.next {
      assert GoodOwner(s, i);
      assert GoodId(s, s.owners[i].sock.connId);
    }
  }

  /** How a call changes the system. */
  predicate Called(s: Sys, s': Sys, i: nat, sock: Sock, sent: seq<Command>, renew: bool)
    requires i < |s.owners|
  {
    var o := s.owners[i];
    && s'.owners == s.owners[i := Owner(sock, o.gate)] && s'.queues == s.queues[o.gate := Queue(s, o.gate) + sent]
    && s'.tcp == s.tcp && s'.handled == s.handled
    && s'.gateOf == (if renew then s.gateOf[s.next := o.gate] else s.gateOf)
    && s'.next == (if renew then s.next + 1 else s.next)
  }

  lemma CallEmits(s: Sys, s': Sys, i: nat, sock: Sock, sent: seq<Command>, renew: bool, id: nat)
    requires Inv(s) && i < |s.owners| && Called(s, s', i, sock, sent, renew)
    requires forall k :: 0 <= k < |sent| ==> sent[k].id == s.owners[i].sock.connId
    ensures Emitted(s', id) == if id == s.owners[i].sock.connId then Emitted(s, id) + sent else Emitted(s, id)
  {
    assert GoodOwner(s, i) && GoodId(s, s.next) && GoodId(s, id);
    SendEmits(s, s', s.owners[i].gate, sent, s.owners[i].sock.connId, id);
  }

  lemma CallId(s: Sys, s': Sys, i: nat, sock: Sock, sent: seq<Command>, renew: bool, id: nat)
    requires Inv(s) && i < |s.owners| && Called(s, s', i, sock, sent, renew)
    requires forall k :: 0 <= k < |sent| ==> sent[k].id == s.owners[i].sock.connId
    requires WellOpened(Emitted(s, s.owners[i].sock.connId) + sent)
    ensures GoodId(s', id)
  {
    CallEmits(s, s', i, sock, sent, renew, id);
    hide Emitted, WellOpened, Routed, OwnNumbers, Mirrors, SockFits;
    assert GoodOwner(s, i) && GoodId(s, id);
  }

  lemma CallOwner(s: Sys, s': Sys, i: nat, sock: Sock, sent: seq<Command>, renew: bool, j: nat)
    requires Inv(s) && i < |s.owners| && j < |s.owners| && Called(s, s', i, sock, sent, renew)
    requires forall k :: 0 <= k < |sent| ==> sent[k].id == s.owners[i].sock.connId
    requires var me := s.owners[i].sock.connId;
             if renew then sock == NewSock(s.next) && sent == []
             else sock.connId == me && SockFits(sock, Emitted(s, me) + sent)
    ensures GoodOwner(s', j)
  {
    assert GoodOwner(s, i) && GoodOwner(s, j);
    assert GoodId(s, s.next) && GoodId(s, s.owners[j].sock.connId);
    CallEmits(s, s', i, sock, sent, renew, if j == i then sock.connId else s.owners[j].sock.connId);
    hide Emitted, WellOpened, Routed, Mirrors;
  }

  lemma CallKeepsInv(s: Sys, i: nat, call: Call)
    requires Inv(s) && Possible(s, AppCall(i, call)) && Next(s, AppCall(i, call)).Running?
    ensures Inv(Next(s, AppCall(i, call)).s)
  {
    var s' := Next(s, AppCall(i, call)).s;
    var o := s.owners[i];
    var e := Do(o.sock, call, s.next);
    assert GoodOwner(s, i) && GoodId(s, o.sock.connId);
    CallKeepsOpened(o.sock, call, s.next, Emitted(s, o.sock.connId));
    CallRoutes(s, s', i, call);
    assert Called(s, s', i, e.sock, e.sent, call.Renew?);
    hide Emitted, WellOpened, Do, Next, Routed, OwnNumbers, SockFits, GoodId, GoodOwner;
    forall id: nat ensures GoodId(s', id) {
      CallId(s, s', i, e.sock, e.sent, call.Renew?, id);
    }
    forall j: nat | j < |s'.owners| ensures GoodOwner(s', j) {
      CallOwner(s, s', i, e.sock, e.sent, call.Renew?, j);
    }
  }

  lemma CallRoutes(s: Sys, s': Sys, i: nat, call: Call)
    requires Inv(s) && Possible(s, AppCall(i, call)) && Next(s, AppCall(i, call)) == Running(s')
    requires forall k :: 0 <= k < |Do(s.owners[i].sock, call, s.next).sent| ==>
               Do(s.owners[i].sock, call, s.next).sent[k].id == s.owners[i].sock.connId
    ensures Routed(s') && OwnNumbers(s')
  {
    hide Emitted, WellOpened;
    assert GoodOwner(s, i);
    forall j | 0 <= j < |s.owners| ensures s.owners[j].sock.connId < s.next {
      assert GoodOwner(s, j);
      assert GoodId(s, s.owners[j].sock.connId);
    }
    forall id | id in s.gateOf ensures id < s.next {
      assert GoodId(s, id);
    }
  }

  /**
   Every step of every interleaving keeps the invariant, and a simulation only stops for
   an error of use: the assertions that a connection has no socket yet hold, and a SEND
   finds the socket of its connection.
   */
  lemma StepKeepsInv(s: Sys, step: Step)
    requires Inv(s) && Possible(s, step)
    ensures match Next(s, step)
            case Stopped(why) => why == UsageError || why == NotForking
            case Running(s') => Inv(s')
  {
    hide Inv;
    match step
    case NewSocket(g) => NewSocketKeepsInv(s, g);
    case AppCall(i, call) => if Next(s, step).Running? { CallKeepsInv(s, i, call); }
    case Deliver(g) => DeliverKeepsInv(s, g);
    case Packet(got) => PacketKeepsInv(s, got);
  }

  // ----- runs -----

  /** The result of a run that takes the possible ones of `steps` in order. */
  function Run(s: Sys, steps: seq<Step>): Result
    decreases |steps|
  {
    if steps == [] then Running(s)
    else if !Possible(s, steps[0]) then Run(s, steps[1..])
    else match Next(s, steps[0])
      case Stopped(why) => Stopped(why)
      case Running(s') => Run(s', steps[1..])
  }

  lemma {:induction false} RunsKeepInv(s: Sys, steps: seq<Step>)
    requires Inv(s)
    ensures match Run(s, steps)
            case Stopped(why) => why == UsageError || why == NotForking
            case Running(s') => Inv(s')
    decreases |steps|
  {
    hide Inv, Next, Possible;
    if steps != [] {
      if Possible(s, steps[0]) {
        StepKeepsInv(s, steps[0]);
        if Next(s, steps[0]).Running? {
          RunsKeepInv(Next(s, steps[0]).s, steps[1..]);
        }
      } else {
        RunsKeepInv(s, steps[1..]);
      }
    }
  }

  /** Whole runs from the empty system. */
  lemma SystemIsSafe(steps: seq<Step>)
    ensures match Run(Init, steps)
            case Stopped(why) => why != SocketTwice && why != NoSocket
            case Running(s) =>
              && Distinct(s.tcp.toAccept)
              && (forall id :: id in s.tcp.toAccept ==>
                    id in s.tcp.conns && s.tcp.conns[id].isListening && !s.tcp.conns[id].hasSocket)
              && (forall id: nat :: Opens(Emitted(s, id), id) <= 1)
  {
    InitInv();
    RunsKeepInv(Init, steps);
    var r := Run(Init, steps);
    if r.Running? {
      var s := r.s;
      forall id: nat ensures Opens(Emitted(s, id), id) <= 1 {
        assert GoodId(s, id);
        OneOpen(Emitted(s, id), id);
      }
      forall id | id in s.tcp.toAccept
        ensures id in s.tcp.conns && s.tcp.conns[id].isListening && !s.tcp.conns[id].hasSocket
      {
        assert GoodId(s, id);
      }
    }
  }

  lemma OneOpen(cs: seq<Command>, id: nat)
    requires WellOpened(cs)
    ensures Opens(cs, id) <= 1
  {
    if cs != [] {
      NoOpen(cs[1..], id);
    }
  }

  lemma {:induction false} NoOpen(cs: seq<Command>, id: nat)
    requires forall i :: 0 <= i < |cs| ==> !IsOpen(cs[i])
    ensures Opens(cs, id) == 0
  {
    if cs != [] {
      NoOpen(cs[1..], id);
    }
  }
}
