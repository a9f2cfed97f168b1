/** The invariant holds in every run of two STCP endpoints, from the first SYN on. */
module StcpProtocol {
  import opened Base
  import opened Stcp
  import opened StcpStreams
  import opened StcpInvariant
  import PQ = PacketQueue

  /** An endpoint still in its handshake. */
  predicate Quiet(n: Node) {
    && n.e.isn < 256
    && n.h == History(n.e.isn + (if n.e.isActive then 2 else 1), [], [], [], false, false, false, false, false, 0)
    && n.e == Endpoint(n.e.isActive, n.e.phase, false, n.e.isn, n.e.isn + (if n.e.phase == Begin then 0 else 1),
                       0, 0, Established, false, false, [], [], false)
  }

  /** The stages of the three-way handshake; `a` is the active end. */
  ghost predicate Shake(a: Node, p: Node, ap: seq<Packet>, pa: seq<Packet>) {
    && a.e.isActive && !p.e.isActive
    && (a.e.phase != Loop ==> Quiet(a))
    && (p.e.phase != Loop ==> Quiet(p))
    && match (a.e.phase, p.e.phase)
       case (Begin, Begin) => ap == [] && pa == []
       case (AwaitSynAck, Begin) => ap == [SynPacket(a.e.isn)] && pa == []
       case (AwaitSynAck, AwaitAck) => ap == [] && pa == [SynAckPacket(p.e.isn, Wrap(a.e.isn + 1))]
       case (Loop, AwaitAck) => ap != [] && ap[0] == HandshakeAck(Wrap(a.e.isn + 1), Wrap(p.e.isn + 1)) && pa == []
       case (Loop, Loop) => true
       case _ => false
  }

  /** The part of a channel that the receiver's loop will read. */
  function Live(s: Node, d: Node, c: seq<Packet>): seq<Packet> {
    if d.e.phase == Loop then c
    else if s.e.phase == Loop && c != [] then c[1..]
    else []
  }

  ghost predicate Inv(s: System) {
    && (if s.x.e.isActive then Shake(s.x, s.y, s.xy, s.yx) else Shake(s.y, s.x, s.yx, s.xy))
    && Core(s.x, s.y, Live(s.x, s.y, s.xy), Live(s.y, s.x, s.yx))
    && CloseOnce(s.x) && CloseOnce(s.y)
    && !s.x.e.refused && !s.y.e.refused
  }

  lemma InvFlip(s: System)
    requires Inv(s)
    ensures Inv(Flip(s))
  {
    hide Local, Direction, Conserved;
  }

  lemma CoreQuiet(x: Node, y: Node)
    requires x.h == Start(x.e.isActive, 0, x.h.base).h && y.h == Start(y.e.isActive, 0, y.h.base).h
    requires x.h.base <= 257 && y.h.base <= 257
    requires x.e.appRecv == [] && y.e.appRecv == [] && x.e.appSend == [] && y.e.appSend == []
    requires x.e.state == Established && y.e.state == Established
    requires !x.e.done && !y.e.done && !x.e.eof && !y.e.eof
    requires x.e.phase == Loop ==> Numbers(x)
    requires y.e.phase == Loop ==> Numbers(y)
    ensures Core(x, y, [], [])
  {
  }

  lemma InitialInv(isnX: nat, isnY: nat)
    requires isnX < 256 && isnY < 256
    ensures Inv(Initial(isnX, isnY))
  {
    var s := Initial(isnX, isnY);
    CoreQuiet(s.x, s.y);
  }

  lemma HandshakeInv(s: System)
    requires Inv(s)
    ensures Inv(HandshakeStep(s))
  {
    if s.x.e.phase == AwaitAck && s.yx != [] {
      HandshakeAckInv(s);
    } else if HandshakeStep(s) != s {
      HandshakeEarlyInv(s);
    }
  }

  /** Up to the third message neither end has a stream. */
  lemma HandshakeEarlyInv(s: System)
    requires Inv(s) && s.x.e.phase != AwaitAck && HandshakeStep(s) != s
    ensures Inv(HandshakeStep(s))
  {
    hide Core, Wrap;
    var s' := HandshakeStep(s);
    assert Quiet(s.x) && Quiet(s.y);
    WrapSmall(s.x.e.isn + 1);
    WrapSmall(s.x.e.isn + 2);
    CoreQuiet(s'.x, s'.y);
    assert Live(s'.x, s'.y, s'.xy) == [] && Live(s'.y, s'.x, s'.yx) == [];
  }

  /** The passive end enters its loop; the active end may already have sent data behind its ACK. */
  lemma HandshakeAckInv(s: System)
    requires Inv(s) && s.x.e.phase == AwaitAck && s.yx != []
    ensures Inv(HandshakeStep(s))
  {
    hide Carries, Acknowledges, Payload, PQ.Stream;
    var s' := HandshakeStep(s);
    assert s.xy == [] && s.xy + [] == [];
    assert Live(s.x, s.y, s.xy) == [] == Live(s'.x, s'.y, s'.xy);
    assert Live(s.y, s.x, s.yx) == s.yx[1..] == Live(s'.y, s'.x, s'.yx);
    assert Numbers(s'.x);
    assert Local(s'.x);
    assert Direction(s'.x, s.y, [], s.yx[1..]) && Direction(s.y, s'.x, s.yx[1..], []);
  }

  lemma IteratedCloseOnce(n: Node, net: Option<Packet>)
    requires CloseOnce(n)
    ensures CloseOnce(Iterated(n, net))
    ensures Iterated(n, net).e.isActive == n.e.isActive && Iterated(n, net).e.refused == n.e.refused
    ensures Iterated(n, net).e.phase == n.e.phase && Iterated(n, net).e.isn == n.e.isn
    ensures Iterated(n, net).h.base == n.h.base
  {
    hide Window, NetworkPart, DataPart, Wrap;
    var n0 := n.(e := Woken(n.e, net.Some?));
    var ev := WaitForEvent(n.e, net.Some?);
    NetworkKeeps(n0, net);
    DataKeeps(NetworkPart(n0.e, net).0, ev.appData, Window(n0.e));
  }

  lemma IterateInv(s: System, arrived: bool)
    requires Inv(s) && (arrived ==> s.yx != []) && s.x.e.phase == Loop && !s.x.e.done
    ensures Inv(LoopStep(s, arrived))
  {
    hide Core, Iteration, CloseOnce;
    var net := if arrived then Some(s.yx[0]) else None;
    var s' := LoopStep(s, arrived);
    var out := Iteration(s.x.e, net).1;
    assert s'.x == Iterated(s.x, net);
    IteratedCloseOnce(s.x, net);
    assert Live(s.y, s.x, s.yx) == s.yx && Live(s'.y, s'.x, s'.yx) == s'.yx;
    assert Live(s'.x, s.y, s.xy + out) == Live(s.x, s.y, s.xy) + out;
    IterateCore(s.x, s.y, Live(s.x, s.y, s.xy), s.yx, arrived);
  }

  /** x's endpoint changes only in what its own application does. */
  lemma AppInv(s: System, x': Node)
    requires Inv(s) && s.x.e.phase == Loop
    requires x'.e.isActive == s.x.e.isActive && x'.e.phase == Loop && x'.e.isn == s.x.e.isn && !x'.e.refused
    requires Core(x', s.y, Live(s.x, s.y, s.xy), Live(s.y, s.x, s.yx)) && CloseOnce(x')
    ensures Inv(s.(x := x'))
  {
    hide Core, CloseOnce;
  }

  lemma WriteCore(x: Node, y: Node, xy: seq<Packet>, yx: seq<Packet>, data: seq<byte>)
    requires Core(x, y, xy, yx) && CloseOnce(x) && AppActive(x)
    ensures Core(Node(x.e.(appRecv := x.e.appRecv + [data]), x.h.(written := x.h.written + data)), y, xy, yx)
  {
    hide Carries, Acknowledges, PQ.Stream, Wrap;
    var x' := Node(x.e.(appRecv := x.e.appRecv + [data]), x.h.(written := x.h.written + data));
    FlattenAppend(x.e.appRecv, [data]);
    FlattenSingle(data);
    assert Sent(x') == Sent(x);
    Concat(Payload(xy), Flatten(x.e.appRecv), data);
    Concat(y.h.received, Payload(xy) + Flatten(x.e.appRecv), data);
    assert Local(x');
    assert Direction(x', y, xy, yx) && Direction(y, x', yx, xy);
  }

  lemma ReadCore(x: Node, y: Node, xy: seq<Packet>, yx: seq<Packet>, n: nat)
    requires Core(x, y, xy, yx) && n > 0 && x.e.appSend != [] && !x.e.eof
    ensures Core(ReadStep(x, n), y, xy, yx)
  {
    hide Carries, Acknowledges, Payload, Wrap;
    var x' := ReadStep(x, n);
    PQ.StreamTake(x.e.appSend, n);
    Concat(x.h.read, PQ.Taken(x.e.appSend, n), PQ.Stream(x'.e.appSend));
    assert ReadSide(x');
    assert Local(x');
    assert Direction(x', y, xy, yx) && Direction(y, x', yx, xy);
  }

  lemma CloseCore(x: Node, y: Node, xy: seq<Packet>, yx: seq<Packet>)
    requires Core(x, y, xy, yx)
    ensures Core(Node(x.e.(closeRequested := true), x.h.(closeCalled := true)), y, xy, yx)
  {
    hide Carries, Acknowledges, Payload, Wrap, PQ.Stream;
    var x' := Node(x.e.(closeRequested := true), x.h.(closeCalled := true));
    assert Local(x');
    assert Direction(x', y, xy, yx) && Direction(y, x', yx, xy);
  }

  lemma DoXInv(s: System, act: Action)
    requires Inv(s)
    ensures Inv(DoX(s, act))
  {
    hide Core, Shake, LoopStep, HandshakeStep;
    var xy, yx := Live(s.x, s.y, s.xy), Live(s.y, s.x, s.yx);
    if DoX(s, act) != s {
      match act
      case Handshake => HandshakeInv(s);
      case Iterate(arrived) => IterateInv(s, arrived);
      case Write(data) =>
        WriteCore(s.x, s.y, xy, yx, data);
        AppInv(s, DoX(s, act).x);
      case Read(n) =>
        ReadCore(s.x, s.y, xy, yx, n);
        AppInv(s, DoX(s, act).x);
      case Close =>
        CloseCore(s.x, s.y, xy, yx);
        AppInv(s, DoX(s, act).x);
    }
  }

  lemma DoInv(s: System, step: Step)
    requires Inv(s)
    ensures Inv(Do(s, step))
  {
    hide Inv, DoX;
    match step
    case ByX(act) => DoXInv(s, act);
    case ByY(act) =>
      InvFlip(s);
      DoXInv(Flip(s), act);
      InvFlip(DoX(Flip(s), act));
  }

  lemma {:induction false} RunInv(s: System, steps: seq<Step>)
    requires Inv(s)
    ensures Inv(Run(s, steps))
  {
    hide Inv, Do;
    if steps != [] {
      RunInv(s, steps[..|steps| - 1]);
      DoInv(Run(s, steps[..|steps| - 1]), steps[|steps| - 1]);
    }
  }

  /** Two fresh endpoints, x being the active one or the passive one. */
  ghost predicate Fresh(s: System) {
    exists isnX: nat, isnY: nat ::
      isnX < 256 && isnY < 256 && (s == Initial(isnX, isnY) || s == Flip(Initial(isnX, isnY)))
  }

  /** The states that two STCP endpoints can reach. In such a state x may be either end. */
  ghost predicate Reachable(s: System) {
    exists s0: System, steps: seq<Step> :: Fresh(s0) && s == Run(s0, steps)
  }

  function Mirror(step: Step): Step {
    match step
    case ByX(act) => ByY(act)
    case ByY(act) => ByX(act)
  }

  function MirrorAll(steps: seq<Step>): (r: seq<Step>)
    ensures |r| == |steps|
  {
    seq(|steps|, i requires 0 <= i < |steps| => Mirror(steps[i]))
  }

  lemma {:induction false} RunFlip(s: System, steps: seq<Step>)
    ensures Run(Flip(s), MirrorAll(steps)) == Flip(Run(s, steps))
  {
    hide DoX;
    if steps != [] {
      var n := |steps| - 1;
      assert MirrorAll(steps)[..n] == MirrorAll(steps[..n]);
      RunFlip(s, steps[..n]);
    }
  }

  /** Nothing distinguishes the two ends but the handshake: every result about x holds of y. */
  lemma ReachableEither(s: System)
    requires Reachable(s)
    ensures Reachable(Flip(s))
  {
    hide Run, Initial;
    var s0: System, steps :| Fresh(s0) && s == Run(s0, steps);
    RunFlip(s0, steps);
    assert Flip(Flip(s0)) == s0;
    assert Fresh(Flip(s0));
  }

  lemma FreshInv(s: System)
    requires Fresh(s)
    ensures Inv(s)
  {
    hide Inv, Initial;
    var isnX: nat, isnY: nat :|
      isnX < 256 && isnY < 256 && (s == Initial(isnX, isnY) || s == Flip(Initial(isnX, isnY)));
    InitialInv(isnX, isnY);
    InvFlip(Initial(isnX, isnY));
  }

  lemma ReachableInv(s: System)
    requires Reachable(s)
    ensures Inv(s)
  {
    hide Inv, Run;
    var s0: System, steps :| Fresh(s0) && s == Run(s0, steps);
    FreshInv(s0);
    RunInv(s0, steps);
  }
}
