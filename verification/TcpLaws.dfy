module TcpLaws {
  // What the sockets send and what becomes of it, by the calls alone: which command each
  // call sends, with which addresses and ports, and that a connection asked for is opened.

  import opened Common
  import opened TcpSocket
  import opened NscTcp
  import opened TcpSystem

  type End = (Addr, int)

  const NoEnd: End := (0, -1)

  /** The local address and port after a call: bound, unbound by a renewal, or as before. */
  function Rebound(e: End, c: Call): End {
    match c
    case Bind(p) => (e.0, p)
    case BindTo(a, p) => (a, p)
    case Renew => NoEnd
    case _ => e
  }

  /** After the last bind since the last renewal. */
  function LocalEnd(e: End, calls: seq<Call>): End
    decreases |calls|
  {
    if calls == [] then e else LocalEnd(Rebound(e, calls[0]), calls[1..])
  }

  /** The connection number, and the next one, after some calls. */
  function NumberAfter(id: nat, unique: nat, calls: seq<Call>): nat
    decreases |calls|
  {
    if calls == [] then id
    else if calls[0].Renew? then NumberAfter(unique, unique + 1, calls[1..])
    else NumberAfter(id, unique, calls[1..])
  }

  /** What one successful call sends for connection `id` from the local end `e`. */
  predicate Fits(c: Call, id: nat, e: End, sent: seq<Command>) {
    match c
    case Connect(a, p) => sent == [OpenActive(id, e.0, e.1, a, p)]
    case Listen(fork) => sent == [OpenPassive(id, e.0, e.1, fork)]
    case Send(n) => sent == [SendData(id, n)]
    case Close => sent == [CloseConn(id)]
    case Abort => sent == [] || sent == [AbortConn(id)]
    case _ => sent == []
  }

  function Concat(parts: seq<seq<Command>>): seq<Command> {
    if parts == [] then [] else parts[0] + Concat(parts[1..])
  }

  /** A socket that can still open knows the end it was bound to. */
  predicate KnowsEnd(s: Sock, e: End) {
    CanOpen(s) ==> (s.localAddr, s.localPort) == e
  }

  lemma CallLaw(s: Sock, c: Call, unique: nat, e: End)
    requires KnowsEnd(s, e) && Do(s, c, unique).Effect?
    ensures var r := Do(s, c, unique);
            && Fits(c, s.connId, e, r.sent) && KnowsEnd(r.sock, Rebound(e, c))
            && r.sock.connId == (if c.Renew? then unique else s.connId)
  {
  }

  ghost predicate PartsFit(calls: seq<Call>, id: nat, unique: nat, e: End, parts: seq<seq<Command>>) {
    |parts| <= |calls| &&
    forall i :: 0 <= i < |parts| ==>
      Fits(calls[i], NumberAfter(id, unique, calls[..i]), LocalEnd(e, calls[..i]), parts[i])
  }

  lemma PartsCons(calls: seq<Call>, id: nat, unique: nat, e: End, part: seq<Command>, rest: seq<seq<Command>>)
    requires calls != [] && Fits(calls[0], id, e, part)
    requires var r := calls[0].Renew?;
             PartsFit(calls[1..], if r then unique else id, if r then unique + 1 else unique, Rebound(e, calls[0]), rest)
    ensures PartsFit(calls, id, unique, e, [part] + rest)
  {
    var parts := [part] + rest;
    forall i | 0 <= i < |parts|
      ensures Fits(calls[i], NumberAfter(id, unique, calls[..i]), LocalEnd(e, calls[..i]), parts[i])
    {
      if i > 0 {
        assert calls[..i][0] == calls[0] && calls[..i][1..] == calls[1..][..i - 1];
        assert calls[i] == calls[1..][i - 1] && parts[i] == rest[i - 1];
      }
    }
  }

  /**
   Whatever is called and indicated: what a socket sends is, call by call up to the first
   that fails, what the call asks for, with the number and the local end the socket has then.
   */
  lemma {:induction false} SentByCalls(s: Sock, calls: seq<Call>, unique: nat, e: End) returns (parts: seq<seq<Command>>)
    requires KnowsEnd(s, e)
    ensures Sent(s, calls, unique) == Concat(parts) && PartsFit(calls, s.connId, unique, e, parts)
    decreases |calls|
  {
    parts := [];
    if calls != [] {
      var r := Do(s, calls[0], unique);
      if r.Effect? {
        CallLaw(s, calls[0], unique, e);
        hide Do, Fits, KnowsEnd;
        var unique' := if calls[0].Renew? then unique + 1 else unique;
        var rest := SentByCalls(r.sock, calls[1..], unique', Rebound(e, calls[0]));
        PartsCons(calls, s.connId, unique, e, r.sent, rest);
        parts := [r.sent] + rest;
        assert parts[1..] == rest;
      }
    }
  }

  lemma {:induction false} FromPart(parts: seq<seq<Command>>, c: Command) returns (i: nat)
    requires c in Concat(parts)
    ensures i < |parts| && c in parts[i]
  {
    if c in parts[0] {
      i := 0;
    } else {
      i := FromPart(parts[1..], c);
      i := i + 1;
    }
  }

  /** The call that asks for a command, and the ends the command carries. */
  predicate AskedBy(c: Command, call: Call, e: End) {
    match c
    case OpenActive(_, la, lp, ra, rp) => call == Connect(ra, rp) && (la, lp) == e
    case OpenPassive(_, la, lp, fork) => call == Listen(fork) && (la, lp) == e
    case SendData(_, n) => call == Send(n)
    case CloseConn(_) => call == Close
    case AbortConn(_) => call == Abort
  }

  lemma FitsAsked(call: Call, id: nat, e: End, sent: seq<Command>, c: Command)
    requires Fits(call, id, e, sent) && c in sent
    ensures AskedBy(c, call, e) && c.id == id
  {
  }

  /** Every command of a new socket carries the ends of the call that sent it and of the last bind before. */
  lemma CommandsAreAsked(id: nat, calls: seq<Call>, c: Command) returns (i: nat)
    requires c in Sent(NewSock(id), calls, id + 1)
    ensures i < |calls| && AskedBy(c, calls[i], LocalEnd(NoEnd, calls[..i])) && c.id == NumberAfter(id, id + 1, calls[..i])
  {
    var parts := SentByCalls(NewSock(id), calls, id + 1, NoEnd);
    hide Fits, AskedBy, Sent;
    i := FromPart(parts, c);
    FitsAsked(calls[i], NumberAfter(id, id + 1, calls[..i]), LocalEnd(NoEnd, calls[..i]), parts[i], c);
  }

  // ----- which calls succeed -----

  /** The life of a socket, by what each state allows. */
  lemma CallsAllowed(s: Sock, unique: nat, a: Addr, p: int, n: nat, fork: bool)
    ensures Do(s, Bind(p), unique).Effect? <==> s.state == NotBound && 0 <= p <= 65535
    ensures Do(s, BindTo(a, p), unique).Effect? <==> s.state == NotBound && -1 <= p <= 65535
    ensures Do(s, Listen(fork), unique).Effect? <==> s.state == Bound
    ensures Do(s, Connect(a, p), unique).Effect? <==> s.state in {NotBound, Bound} && 0 <= p <= 65535
    ensures Do(s, Send(n), unique).Effect? <==> s.state in {Connected, Connecting, PeerClosed}
    ensures Do(s, Close, unique).Effect? <==> s.state in {Connected, Connecting, PeerClosed, Listening}
    ensures Do(s, Abort, unique).Effect? && Do(s, Renew, unique).Effect?
  {
  }

  /** What each indication makes of a socket; none makes it send anything. */
  lemma IndicationLaw(s: Sock, i: Indication, unique: nat)
    ensures Do(s, Process(i), unique) == Error <==> i == OtherKind
    ensures i != OtherKind ==>
              var s' := Do(s, Process(i), unique).sock;
              && Do(s, Process(i), unique).sent == [] && s'.connId == s.connId
              && (i.Established? ==> s'.state == Connected && (s'.localAddr, s'.localPort, s'.remoteAddr, s'.remotePort)
                                       == (i.localAddr, i.localPort, i.remoteAddr, i.remotePort))
              && (i in {Data, UrgentData, StatusI} ==> s' == s)
              && (i in {Refused, Reset, TimedOut} ==> s' == s.(state := SockError))
              && (i == ClosedI ==> s' == s.(state := Closed))
  {
  }

  /** A connection that the peer has closed can still send. */
  lemma HalfClosed(s: Sock, n: nat, unique: nat)
    requires s.state == Connected
    ensures Sent(s, [Process(PeerClosedI), Send(n)], unique) == [SendData(s.connId, n)]
  {
    var half, close, send := s.(state := PeerClosed), Process(PeerClosedI), Send(n);
    SentOnce(s, close, [send], unique);
    SentOnce(half, send, [], unique);
    NothingSent(half, [], unique);
    hide Sent, Do;
    assert [close] + [send] == [close, send] && [send] + [] == [send];
    assert [] + [SendData(s.connId, n)] == [SendData(s.connId, n)] && [SendData(s.connId, n)] + [] == [SendData(s.connId, n)];
  }

  /** When it is closed from here, it cannot. */
  lemma FullyClosed(s: Sock, n: nat, unique: nat)
    requires s.state == Connected
    ensures Sent(s, [Process(PeerClosedI), Close, Send(n)], unique) == [CloseConn(s.connId)]
  {
    var half, done := s.(state := PeerClosed), s.(state := Closed);
    var close, send := Process(PeerClosedI), Send(n);
    SentOnce(s, close, [Close, send], unique);
    SentOnce(half, Close, [send], unique);
    SentOnce(done, send, [], unique);
    hide Sent, Do;
    assert [close] + [Close, send] == [close, Close, send] && [Close] + [send] == [Close, send] && [send] + [] == [send];
    assert [] + [CloseConn(s.connId)] == [CloseConn(s.connId)] && [CloseConn(s.connId)] + [] == [CloseConn(s.connId)];
  }

  /** Closed a second time from there, it cannot. */
  lemma ClosedTwice(s: Sock, n: nat, unique: nat)
    requires s.state == Connected
    ensures Sent(s, [Process(PeerClosedI), Process(PeerClosedI), Send(n)], unique) == []
  {
    var half, done := s.(state := PeerClosed), s.(state := Closed);
    var close, send := Process(PeerClosedI), Send(n);
    SentOnce(s, close, [close, send], unique);
    SentOnce(half, close, [send], unique);
    SentOnce(done, send, [], unique);
    hide Sent, Do;
    assert [close] + [close, send] == [close, close, send] && [close] + [send] == [close, send] && [send] + [] == [send];
  }

  /** One call and those after it. */
  lemma SentOnce(s: Sock, c: Call, rest: seq<Call>, unique: nat)
    requires !c.Renew?
    ensures Do(s, c, unique).Error? ==> Sent(s, [c] + rest, unique) == []
    ensures Do(s, c, unique).Effect? ==>
              Sent(s, [c] + rest, unique) == Do(s, c, unique).sent + Sent(Do(s, c, unique).sock, rest, unique)
  {
    hide Do;
    assert ([c] + rest)[1..] == rest;
  }

  /** Neither an answer of the peer nor a renewal. */
  predicate Quiet(c: Call) {
    !c.Renew? && !(c.Process? && c.ind.Established?)
  }

  predicate Over(s: Sock) {
    s.state in {LocallyClosed, Closed, SockError}
  }

  /** A socket that was closed or aborted sends nothing more, except an abort, until it is renewed or its peer answers late. */
  lemma {:induction false} OverIsOver(s: Sock, calls: seq<Call>, unique: nat)
    requires Over(s) && forall i :: 0 <= i < |calls| ==> Quiet(calls[i])
    ensures forall c :: c in Sent(s, calls, unique) ==> c == AbortConn(s.connId)
    decreases |calls|
  {
    if calls != [] && Do(s, calls[0], unique).Effect? {
      var r := Do(s, calls[0], unique);
      assert Over(r.sock) && r.sock.connId == s.connId;
      assert forall c :: c in r.sent ==> c == AbortConn(s.connId);
      OverIsOver(r.sock, calls[1..], unique);
    }
  }

  lemma ClosingEnds(s: Sock, unique: nat)
    ensures Do(s, Close, unique).Effect? ==> Over(Do(s, Close, unique).sock)
    ensures Over(Do(s, Abort, unique).sock)
    ensures Do(s, Abort, unique).sent == [AbortConn(s.connId)] <==> s.state !in {NotBound, Bound, Closed, SockError}
  {
  }

  // ----- the system -----

  /** The local end of each socket, from the steps alone. */
  function Track(ends: seq<End>, step: Step): seq<End> {
    match step
    case NewSocket(_) => ends + [NoEnd]
    case AppCall(i, c) => if i < |ends| then ends[i := Rebound(ends[i], c)] else ends
    case _ => ends
  }

  function Ends(ends: seq<End>, steps: seq<Step>): seq<End> {
    if steps == [] then ends else Track(Ends(ends, steps[..|steps| - 1]), steps[|steps| - 1])
  }

  ghost predicate Tracked(s: Sys, ends: seq<End>) {
    |ends| == |s.owners| &&
    forall i :: 0 <= i < |ends| ==> (s.owners[i].sock.localAddr, s.owners[i].sock.localPort) == ends[i]
  }

  /** Everything on its way or handled. */
  predicate Somewhere(s: Sys, c: Command) {
    c in s.handled || exists g :: g in s.queues && c in s.queues[g]
  }

  lemma CallTracked(s: Sys, i: nat, call: Call, ends: seq<End>)
    requires Tracked(s, ends) && Possible(s, AppCall(i, call)) && Next(s, AppCall(i, call)).Running?
    ensures Tracked(Next(s, AppCall(i, call)).s, Track(ends, AppCall(i, call)))
    ensures forall c :: Somewhere(Next(s, AppCall(i, call)).s, c) ==> Somewhere(s, c) || AskedBy(c, call, ends[i])
  {
    var o := s.owners[i];
    assert KnowsEnd(o.sock, ends[i]);
    CallLaw(o.sock, call, s.next, ends[i]);
    LocalTracked(o.sock, call, s.next);
    var r := Do(o.sock, call, s.next);
    hide Do, Fits, AskedBy;
    var s' := Next(s, AppCall(i, call)).s;
    forall c | Somewhere(s', c) ensures Somewhere(s, c) || AskedBy(c, call, ends[i]) {
      if c !in s'.handled {
        var g :| g in s'.queues && c in s'.queues[g];
        if g == o.gate && c in r.sent {
          FitsAsked(call, o.sock.connId, ends[i], r.sent, c);
        } else if g == o.gate {
          assert c in Queue(s, g);
        } else {
          assert s'.queues[g] == s.queues[g];
        }
      }
    }
  }

  lemma LocalTracked(s: Sock, call: Call, unique: nat)
    requires Do(s, call, unique).Effect? && (call.Process? ==> call.ind == Data)
    ensures var s' := Do(s, call, unique).sock;
            (s'.localAddr, s'.localPort) == Rebound((s.localAddr, s.localPort), call)
  {
  }

  lemma StepTracked(s: Sys, step: Step, ends: seq<End>)
    requires Tracked(s, ends) && Possible(s, step) && Next(s, step).Running?
    ensures var s' := Next(s, step).s;
            && Tracked(s', Track(ends, step))
            && forall c :: Somewhere(s', c) ==>
                 Somewhere(s, c) || (step.AppCall? && step.i < |ends| && AskedBy(c, step.call, ends[step.i]))
  {
    match step
    case AppCall(i, call) => CallTracked(s, i, call, ends);
    case NewSocket(_) => hide AskedBy;
    case Packet(_) => hide AskedBy, Poll;
    case Deliver(g) =>
      hide AskedBy, Handle;
      var s' := Next(s, step).s;
      forall c | Somewhere(s', c) ensures Somewhere(s, c) {
        Delivered(s, s', g, c);
      }
  }

  lemma Delivered(s: Sys, s': Sys, g: nat, c: Command)
    requires Queue(s, g) != [] && s'.queues == s.queues[g := Queue(s, g)[1..]] && s'.handled == s.handled + [Queue(s, g)[0]]
    requires Somewhere(s', c)
    ensures Somewhere(s, c)
  {
    assert g in s.queues;
    if c !in s.handled {
      if c == s.queues[g][0] {
        assert c in s.queues[g];
      } else {
        var k :| k in s'.queues && c in s'.queues[k];
        assert c in s.queues[k];
      }
    }
  }

  /** Some step of the run asks for the command, from the end its socket has then. */
  ghost predicate Asked(steps: seq<Step>, c: Command) {
    exists n :: 0 <= n < |steps| && AskedAt(steps, n, c)
  }

  predicate AskedAt(steps: seq<Step>, n: nat, c: Command)
    requires n < |steps|
  {
    var ends := Ends([], steps[..n]);
    steps[n].AppCall? && steps[n].i < |ends| && AskedBy(c, steps[n].call, ends[steps[n].i])
  }

  lemma {:induction false} RunAppend(s: Sys, a: seq<Step>, step: Step)
    ensures Run(s, a + [step]) ==
            match Run(s, a)
            case Stopped(why) => Stopped(why)
            case Running(s1) => if !Possible(s1, step) then Running(s1) else Next(s1, step)
    decreases |a|
  {
    hide Next, Possible;
    if a == [] {
      assert [step][1..] == [] && a + [step] == [step];
      OneStep(s, step);
    } else {
      assert (a + [step])[0] == a[0] && (a + [step])[1..] == a[1..] + [step];
      if !Possible(s, a[0]) {
        RunAppend(s, a[1..], step);
      } else if Next(s, a[0]).Running? {
        RunAppend(Next(s, a[0]).s, a[1..], step);
      }
    }
  }

  lemma OneStep(s: Sys, step: Step)
    ensures Run(s, [step]) == if !Possible(s, step) then Running(s) else Next(s, step)
  {
    hide Next, Possible;
    assert [step][1..] == [];
    assert forall s': Sys :: Run(s', []) == Running(s');
  }

  lemma AskedBefore(steps: seq<Step>, step: Step, c: Command)
    requires Asked(steps, c)
    ensures Asked(steps + [step], c)
  {
    hide AskedBy, Ends;
    var n :| 0 <= n < |steps| && AskedAt(steps, n, c);
    assert (steps + [step])[..n] == steps[..n] && (steps + [step])[n] == steps[n];
    assert AskedAt(steps + [step], n, c);
  }

  /**
   In every run each command on its way or handled was asked for by a call: an active OPEN
   carries the address and port of its `Connect`, a passive one the `fork` of its `Listen`,
   and both the local end of the last bind of their socket since its last renewal.
   */
  lemma {:induction false} RunCommandsAreAsked(steps: seq<Step>)
    ensures match Run(Init, steps)
            case Stopped(_) => true
            case Running(s) => Tracked(s, Ends([], steps)) && forall c :: Somewhere(s, c) ==> Asked(steps, c)
    decreases |steps|
  {
    if steps == [] {
    } else {
      var n := |steps| - 1;
      var init, step := steps[..n], steps[n];
      assert steps == init + [step];
      RunCommandsAreAsked(init);
      RunAppend(Init, init, step);
      hide Run, Next, Possible, AskedBy, Tracked, Somewhere, Asked;
      if Run(Init, init).Running? {
        var s, ends := Run(Init, init).s, Ends([], init);
        if Possible(s, step) {
          if Next(s, step).Running? {
            StepTracked(s, step, ends);
            var s' := Next(s, step).s;
            forall c | Somewhere(s', c) ensures Asked(steps, c) {
              NewlyAsked(s, init, step, ends, c);
            }
          }
        } else {
          NothingTracked(s, step, ends);
          forall c | Somewhere(s, c) ensures Asked(steps, c) {
            AskedBefore(init, step, c);
          }
        }
      }
    }
  }

  lemma NewlyAsked(s: Sys, init: seq<Step>, step: Step, ends: seq<End>, c: Command)
    requires ends == Ends([], init) && (Somewhere(s, c) ==> Asked(init, c))
    requires Somewhere(s, c) || (step.AppCall? && step.i < |ends| && AskedBy(c, step.call, ends[step.i]))
    ensures Asked(init + [step], c)
  {
    hide AskedBy, Ends, Somewhere;
    if Asked(init, c) {
      AskedBefore(init, step, c);
    } else {
      assert (init + [step])[..|init|] == init;
      assert AskedAt(init + [step], |init|, c);
    }
  }

  /** An impossible step is no call of a socket there is, except an indication that does not occur. */
  lemma NothingTracked(s: Sys, step: Step, ends: seq<End>)
    requires Tracked(s, ends) && !Possible(s, step)
    ensures Tracked(s, Track(ends, step))
  {
    if step.AppCall? && step.i < |ends| {
      assert ends[step.i := ends[step.i]] == ends;
    }
  }

  // ----- a connection is opened -----

  /** A first `Connect` to a given address and a port that fits, sent through an empty gate, opens the connection. */
  lemma ConnectOpens(s: Sys, i: nat, a: Addr, p: int)
    requires Inv(s) && i < |s.owners| && CanOpen(s.owners[i].sock) && Queue(s, s.owners[i].gate) == []
    requires a != 0 && 0 <= p < 65535
    ensures var o := s.owners[i];
            var id := o.sock.connId;
            match Run(s, [AppCall(i, Connect(a, p)), Deliver(o.gate)])
            case Stopped(_) => false
            case Running(s') =>
              && s'.handled == s.handled + [OpenActive(id, o.sock.localAddr, o.sock.localPort, a, p)]
              && id in s'.tcp.conns && s'.tcp.conns[id].hasSocket
  {
    var o, call := s.owners[i], AppCall(i, Connect(a, p));
    var id := o.sock.connId;
    var c := OpenActive(id, o.sock.localAddr, o.sock.localPort, a, p);
    LastPortIsLost(s.tcp, c);
    assert GoodOwner(s, i) && GoodId(s, id);
    var s1 := Next(s, call).s;
    CallKeepsInv(s, i, Connect(a, p));
    assert [] + [c] == [c];
    assert Queue(s1, o.gate) == [c];
    DeliverKeepsInv(s1, o.gate);
    OpenServed(s1.tcp, c);
    assert [call, Deliver(o.gate)][1..] == [Deliver(o.gate)];
    OneStep(s1, Deliver(o.gate));
  }

  lemma OpenServed(t: Tcp, c: Command)
    requires c.OpenActive? && c.remoteAddr != 0 && 0 <= c.remotePort < 65535
    ensures match Handle(t, c)
            case Halts(why) => why == SocketTwice
            case Goes(t') => c.id in t'.conns && t'.conns[c.id].hasSocket
  {
    LastPortIsLost(t, c);
  }

  /** In every run a connection whose active OPEN was handled has its socket, whatever came in between. */
  lemma OpenedHaveSockets(steps: seq<Step>, c: Command)
    requires Run(Init, steps).Running? && c in Run(Init, steps).s.handled && c.OpenActive?
    ensures var t := Run(Init, steps).s.tcp; c.id in t.conns && t.conns[c.id].hasSocket
  {
    InitInv();
    RunsKeepInv(Init, steps);
    var s := Run(Init, steps).s;
    assert GoodId(s, c.id);
    OfHolds(s.handled, c);
    var mine := Of(s.handled, c.id);
    var k :| 0 <= k < |mine| && mine[k] == c;
    assert Emitted(s, c.id)[k] == c;
  }

  lemma {:induction false} OfHolds(cs: seq<Command>, c: Command)
    requires c in cs
    ensures c in Of(cs, c.id)
  {
    if cs[0] != c {
      OfHolds(cs[1..], c);
    }
  }

  // ----- what the module does with a command -----

  predicate HasSocket(t: Tcp, id: nat) {
    id in t.conns && t.conns[id].hasSocket
  }

  /** For every command: when the module stops, and why. */
  lemma HandleHalts(t: Tcp, c: Command)
    ensures c.SendData? ==> if HasSocket(t, c.id) then Handle(t, c).Goes? else Handle(t, c) == Halts(NoSocket)
    ensures c.OpenActive? && c.remoteAddr == 0 ==> Handle(t, c) == Halts(UsageError)
    ensures c.OpenActive? && c.remoteAddr != 0 && 0 <= c.remotePort < 65535 ==>
              if HasSocket(t, c.id) then Handle(t, c) == Halts(SocketTwice) else Handle(t, c).Goes?
    ensures c.OpenPassive? && !c.fork ==> Handle(t, c) == Halts(NotForking)
    ensures c.OpenPassive? && c.fork && 0 <= c.localPort < 65535 ==>
              if HasSocket(t, c.id) then Handle(t, c) == Halts(SocketTwice) else Handle(t, c).Goes?
    ensures c.OpenPassive? && c.fork && c.localPort == -1 ==> Handle(t, c) == Halts(UsageError)
    ensures c.CloseConn? || c.AbortConn? ==> Handle(t, c).Goes?
  {
  }

  /** And otherwise, what it knows of the connection then. */
  lemma HandleEntry(t: Tcp, c: Command)
    requires Handle(t, c).Goes?
    ensures var t' := Handle(t, c).tcp;
            && t'.conns.Keys == t.conns.Keys + {c.id}
            && (t'.conns[c.id].hasSocket <==> HasSocket(t, c.id) || c.OpenActive?)
            && (t'.conns[c.id].isListening <==> (c.id in t.conns && t.conns[c.id].isListening) || c.OpenPassive?)
            && (forall id :: id != c.id && id in t.conns ==> t'.conns[id] == t.conns[id])
            && t'.toAccept == t.toAccept + (if c.OpenPassive? then [c.id] else [])
  {
  }

  // ----- accept polling -----

  /** Exactly the waiting connections that are handed over get a socket, and they wait no longer. */
  lemma PollLaw(t: Tcp, got: set<nat>, id: nat)
    ensures id in Poll(t, got).conns <==> id in t.conns
    ensures id in t.conns ==>
              && Poll(t, got).conns[id].isListening == t.conns[id].isListening
              && (Poll(t, got).conns[id].hasSocket <==> t.conns[id].hasSocket || (id in t.toAccept && id in got))
    ensures id in Poll(t, got).toAccept <==> id in t.toAccept && id !in got
  {
    WaitsUnlessAccepted(t.toAccept, got, id);
  }
}
