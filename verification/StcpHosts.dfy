/**
 Two hosts that run STCP: contexts updated in place, applications that write, read and close, and two packet channels.
 Whatever the schedule, their state is that of the run of the model, so what is proved of runs holds of the hosts.
 */
module StcpHosts {
  import opened Base
  import opened Stcp
  import opened StcpContext
  import opened StcpProtocol
  import opened StcpTheorems
  import PQ = PacketQueue

  class Host {
    const ctx: Context
    var closed: bool        // the application has called myclose
    var read: seq<byte>     // everything the application has read
    var written: seq<byte>  // everything it has written
    ghost var h: History

    /** Packets reach the context when it takes them. */
    ghost predicate Valid()
      reads this, ctx
    {
      h.closeCalled == closed && h.read == read && h.written == written && ctx.networkRecvQueue == []
    }

    ghost function State(): Node
      reads this, ctx
    {
      Node(ctx.View(), h)
    }

    constructor (isActive: bool, isn: nat, ghost base: nat)
      requires isn < 256
      ensures Valid() && State() == Start(isActive, isn, base) && fresh(ctx)
    {
      ctx := new Context(isActive, isn);
      closed, read, written := false, [], [];
      h := Start(isActive, isn, base).h;
    }

    /** `inbound` is the channel to this host; `y` and `xy` are the other host and the channel to it. */
    method HandshakeAct(inbound: seq<Packet>, ghost y: Node, ghost xy: seq<Packet>)
        returns (out: seq<Packet>, taken: bool)
      requires Valid()
      modifies ctx
      ensures Valid() && (taken ==> inbound != [])
      ensures System(State(), y, xy + out, if taken then inbound[1..] else inbound) ==
              HandshakeStep(System(old(State()), y, xy, inbound))
    {
      hide OnSyn, OnSynAck, OnHandshakeAck, SendSyn;
      var before := |ctx.sent|;
      taken := false;
      if ctx.phase == Begin && ctx.isActive {
        ctx.ActiveOpen();
      } else if ctx.phase != Loop && inbound != [] {
        taken := true;
        ctx.networkRecvQueue := [inbound[0]];
        assert ctx.View() == old(ctx.View());
        if ctx.phase == Begin {
          ctx.ReceiveSyn();
        } else if ctx.phase == AwaitSynAck {
          ctx.ReceiveSynAck();
        } else {
          ctx.ReceiveHandshakeAck();
        }
      }
      out := ctx.sent[before..];
      assert out == [] ==> xy + out == xy;
      assert OnHandshakeAck(old(ctx.View()), if inbound == [] then SynPacket(0) else inbound[0]).1 == [] by {
        NothingSent(old(ctx.View()), if inbound == [] then SynPacket(0) else inbound[0]);
      }
    }

    /** A pass of the loop, when some event is ready. */
    method LoopAct(arrived: bool, inbound: seq<Packet>, ghost y: Node, ghost xy: seq<Packet>) returns (out: seq<Packet>)
      requires Valid() && (arrived ==> inbound != []) && Ready(ctx.View(), arrived)
      modifies this`h, ctx
      ensures Valid()
      ensures System(State(), y, xy + out, if arrived then inbound[1..] else inbound) ==
              LoopStep(System(old(State()), y, xy, inbound), arrived)
    {
      hide Iteration, Record, RecordFin;
      var before := |ctx.sent|;
      if arrived {
        ctx.networkRecvQueue := [inbound[0]];
      }
      ghost var e, net := ctx.View(), ctx.Arrived();
      assert e == old(ctx.View());
      ctx.LoopBody();
      ghost var h1 := if arrived then Record(h, inbound[0]) else h;
      h := if WaitForEvent(e, arrived).closeRequested then RecordFin(h1, Iteration(e, net).0) else h1;
      RecordKeeps(old(h), if arrived then inbound[0] else SynPacket(0), Iteration(e, net).0);
      RecordKeeps(h1, SynPacket(0), Iteration(e, net).0);
      out := ctx.sent[before..];
    }

    method IterateAct(arrived: bool, inbound: seq<Packet>, ghost y: Node, ghost xy: seq<Packet>)
        returns (out: seq<Packet>, taken: bool)
      requires Valid()
      modifies this`h, ctx
      ensures Valid() && (taken ==> inbound != [])
      ensures System(State(), y, xy + out, if taken then inbound[1..] else inbound) ==
              DoX(System(old(State()), y, xy, inbound), Iterate(arrived))
    {
      hide LoopStep;
      out, taken := [], false;
      var pending := ctx.appRecvQueue != [] || arrived || ctx.closeRequested;
      if (arrived ==> inbound != []) && ctx.phase == Loop && !ctx.done && pending {
        taken := arrived;
        out := LoopAct(arrived, inbound, y, xy);
      } else {
        assert xy + out == xy;
      }
    }

    /** Calls of the application; once it has closed it makes none. */
    method AppAct(act: Action, ghost y: Node, ghost xy: seq<Packet>, ghost inbound: seq<Packet>)
      requires Valid() && (act.Write? || act.Read? || act.Close?)
      modifies this, ctx
      ensures Valid()
      ensures System(State(), y, xy, inbound) == DoX(System(old(State()), y, xy, inbound), act)
    {
      hide PQ.Taken, PQ.Left;
      if ctx.phase == Loop && !closed {
        if act.Write? {
          ctx.AppWrite(act.data);
          written := written + act.data;
          h := h.(written := written);
        } else if act.Close? {
          ctx.AppClose();
          closed := true;
          h := h.(closeCalled := true);
        } else if act.maxLen > 0 && ctx.appSendQueue != [] && !ctx.eof {
          var data := ctx.AppRead(act.maxLen);
          read := read + data;
          h := h.(read := read);
        }
      }
    }

    method Act(act: Action, inbound: seq<Packet>, ghost y: Node, ghost xy: seq<Packet>)
        returns (out: seq<Packet>, rest: seq<Packet>)
      requires Valid()
      modifies this, ctx
      ensures Valid()
      ensures System(State(), y, xy + out, rest) == DoX(System(old(State()), y, xy, inbound), act)
    {
      hide LoopStep, HandshakeStep;
      var taken := false;
      out := [];
      if act.Handshake? {
        out, taken := HandshakeAct(inbound, y, xy);
      } else if act.Iterate? {
        hide DoX;
        out, taken := IterateAct(act.arrived, inbound, y, xy);
      } else {
        AppAct(act, y, xy, inbound);
        assert xy + out == xy;
      }
      rest := if taken then inbound[1..] else inbound;
    }
  }

  lemma NothingSent(e: Endpoint, p: Packet)
    ensures OnHandshakeAck(e, p).1 == []
  {
  }

  /** Any schedule of the two hosts and their applications is a run of the model. */
  method RunHosts(isnX: nat, isnY: nat, steps: seq<Step>) returns (x: Host, y: Host, xy: seq<Packet>, yx: seq<Packet>)
    requires isnX < 256 && isnY < 256
    ensures x.Valid() && y.Valid() && System(x.State(), y.State(), xy, yx) == Run(Initial(isnX, isnY), steps)
  {
    hide DoX;
    x := new Host(true, isnX, isnX + 2);
    y := new Host(false, isnY, isnY + 1);
    xy, yx := [], [];
    for n := 0 to |steps|
      invariant fresh(x) && fresh(y) && fresh(x.ctx) && fresh(y.ctx) && x != y && x.ctx != y.ctx
      invariant x.Valid() && y.Valid()
      invariant System(x.State(), y.State(), xy, yx) == Run(Initial(isnX, isnY), steps[..n])
    {
      assert steps[..n + 1][..n] == steps[..n];
      var out;
      match steps[n] {
        case ByX(act) =>
          out, yx := x.Act(act, yx, y.State(), xy);
          xy := xy + out;
        case ByY(act) =>
          out, xy := y.Act(act, xy, x.State(), yx);
          yx := yx + out;
      }
    }
    assert steps[..|steps|] == steps;
  }

  /** What the applications of two hosts have written and read after a schedule: each reads a prefix of the other's. */
  method Converse(isnX: nat, isnY: nat, steps: seq<Step>)
      returns (writtenX: seq<byte>, writtenY: seq<byte>, readX: seq<byte>, readY: seq<byte>)
    requires isnX < 256 && isnY < 256
    ensures var s := Run(Initial(isnX, isnY), steps); writtenX == s.x.h.written && writtenY == s.y.h.written
    ensures var s := Run(Initial(isnX, isnY), steps); readX == s.x.h.read && readY == s.y.h.read
    ensures readY <= writtenX && readX <= writtenY
  {
    var x, y, xy, yx := RunHosts(isnX, isnY, steps);
    writtenX, writtenY, readX, readY := x.written, y.written, x.read, y.read;
    ghost var s := Run(Initial(isnX, isnY), steps);
    hide Run, Initial;
    assert Fresh(Initial(isnX, isnY));
    assert Reachable(s);
    DeliveredInOrder(s);
  }
}
