module TcpSimulation {
  // The simulation on its objects: sockets, gates and the TCP module, each changed in place
  // by its own methods.  It runs in step with `TcpSystem`, so what holds of every run there
  // holds of the objects.

  import opened Common
  import opened TcpSocket
  import opened NscTcp
  import opened TcpSystem

  class Simulation {
    var sockets: seq<TCPSocket>
    var gates: seq<nat>                      // the gate of each socket
    var queues: map<nat, seq<Command>>       // what is under way through each gate
    var tcp: Module
    var next: nat                            // the next connection number
    ghost var model: Sys

    ghost function Repr(): set<object>
      reads this
    {
      {this, tcp} + set s | s in sockets
    }

    ghost predicate Valid()
      reads Repr()
    {
      && |sockets| == |gates| == |model.owners|
      && (forall i, j :: 0 <= i < j < |sockets| ==> sockets[i] != sockets[j])
      && (forall i :: 0 <= i < |sockets| ==> model.owners[i] == Owner(sockets[i].Value(), gates[i]))
      && queues == model.queues && next == model.next && tcp.Value() == model.tcp
      && Inv(model)
    }

    constructor ()
      ensures Valid() && fresh(Repr()) && model == Init
    {
      sockets, gates, queues, next, model := [], [], map[], 0, Init;
      tcp := new Module();
      new;
      InitInv();
    }

    method AddSocket(gate: nat)
      requires Valid()
      modifies this`sockets, this`gates, this`next, this`model
      ensures Valid() && fresh(Repr() - old(Repr()))
      ensures Running(model) == Next(old(model), NewSocket(gate))
    {
      StepKeepsInv(model, NewSocket(gate));
      var s := new TCPSocket(next);
      sockets, gates, next := sockets + [s], gates + [gate], next + 1;
      model := Next(model, NewSocket(gate)).s;
    }

    method CallSocket(i: nat, call: Call) returns (ok: bool)
      requires Valid() && Possible(model, AppCall(i, call))
      modifies this`queues, this`next, this`model, sockets[i]
      ensures sockets == old(sockets)
      ensures !ok ==> Next(old(model), AppCall(i, call)) == Stopped(UsageError)
      ensures ok ==> Valid() && Repr() == old(Repr()) && Running(model) == Next(old(model), AppCall(i, call))
    {
      hide Inv, Do;
      StepKeepsInv(model, AppCall(i, call));
      var s := sockets[i];
      var sentBefore := |s.toTcp|;
      ok := Perform(s, call, next);
      if !ok { return; }
      var queue := if gates[i] in queues then queues[gates[i]] else [];
      queues := queues[gates[i] := queue + s.toTcp[sentBefore..]];
      if call.Renew? { next := next + 1; }
      model := Next(model, AppCall(i, call)).s;
    }

    method DeliverCommand(gate: nat) returns (r: Reply)
      requires Valid() && Possible(model, Deliver(gate))
      modifies this`queues, this`model, tcp
      ensures tcp == old(tcp) && sockets == old(sockets)
      ensures r.Halts? ==> Next(old(model), Deliver(gate)) == Stopped(r.why)
      ensures r.Goes? ==> Valid() && Repr() == old(Repr()) && Running(model) == Next(old(model), Deliver(gate))
    {
      StepKeepsInv(model, Deliver(gate));
      r := tcp.ProcessAppCommand(queues[gate][0]);
      if r.Halts? { return; }
      queues := queues[gate := queues[gate][1..]];
      model := Next(model, Deliver(gate)).s;
    }

    method ReceivePacket(got: set<nat>)
      requires Valid()
      modifies this`model, tcp
      ensures tcp == old(tcp) && sockets == old(sockets)
      ensures Valid() && Running(model) == Next(old(model), Packet(got))
    {
      StepKeepsInv(model, Packet(got));
      WaitingAreKnown(model);
      tcp.PollAccepting(got);
      model := Next(model, Packet(got)).s;
    }

    /** One step, if it is possible. */
    method Advance(step: Step) returns (halt: Option<Halt>)
      requires Valid()
      modifies Repr()
      ensures !Possible(old(model), step) ==> halt == None && model == old(model) && Repr() == old(Repr())
      ensures Possible(old(model), step) ==>
                match Next(old(model), step)
                case Stopped(why) => halt == Some(why)
                case Running(s) => halt == None && model == s
      ensures halt == None ==> Valid() && fresh(Repr() - old(Repr()))
    {
      hide Next, Inv;
      match step {
        case NewSocket(gate) => AddSocket(gate);
        case AppCall(i, call) =>
          if i < |sockets| && (call.Process? ==> call.ind == Data) {
            assert sockets[i] in sockets;
            var ok := CallSocket(i, call);
            if !ok { return Some(UsageError); }
          }
        case Deliver(gate) =>
          if gate in queues && queues[gate] != [] {
            var r := DeliverCommand(gate);
            if r.Halts? { return Some(r.why); }
          }
        case Packet(got) => ReceivePacket(got);
      }
      halt := None;
    }
  }

  lemma WaitingAreKnown(s: Sys)
    requires Inv(s)
    ensures forall id :: id in s.tcp.toAccept ==> id in s.tcp.conns
  {
    forall id | id in s.tcp.toAccept ensures id in s.tcp.conns {
      assert GoodId(s, id);
    }
  }

  /** A whole simulation: the possible ones of some steps, in order, until one of them stops it. */
  method Simulate(steps: seq<Step>) returns (sim: Simulation, halt: Option<Halt>)
    ensures match Run(Init, steps)
            case Stopped(why) => halt == Some(why) && why != SocketTwice && why != NoSocket
            case Running(s) =>
              && halt == None && sim.Valid() && sim.model == s
              && Distinct(sim.tcp.toAccept)
              && (forall i :: 0 <= i < |sim.sockets| ==> s.owners[i].sock == sim.sockets[i].Value())
  {
    SystemIsSafe(steps);
    sim := new Simulation();
    var k := 0;
    assert steps[0..] == steps;
    hide Next, Inv, Run;
    while k < |steps|
      invariant 0 <= k <= |steps| && sim.Valid() && fresh(sim.Repr())
      invariant Run(sim.model, steps[k..]) == Run(Init, steps)
    {
      RunStep(sim.model, steps, k);
      halt := sim.Advance(steps[k]);
      if halt.Some? { return; }
      k := k + 1;
    }
    halt := None;
  }

  lemma RunStep(s: Sys, steps: seq<Step>, k: nat)
    requires k < |steps|
    ensures Run(s, steps[k..]) ==
            if !Possible(s, steps[k]) then Run(s, steps[k + 1..])
            else match Next(s, steps[k])
              case Stopped(why) => Stopped(why)
              case Running(s') => Run(s', steps[k + 1..])
  {
    assert steps[k..][1..] == steps[k + 1..];
  }
}
