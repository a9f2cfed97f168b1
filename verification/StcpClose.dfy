/**
 When a close completes. The assignment says that a connection is closed once both sides have sent FINs and had
 them acknowledged; the code meets this exactly when the FINs do not cross.
 */
module StcpClose {
  import opened Base
  import opened Stcp
  import opened StcpStreams
  import opened StcpInvariant
  import opened StcpProtocol
  import opened StcpTheorems
  import opened StcpProgress
  import PQ = PacketQueue

  predicate InFinWait(n: Node) { n.e.state == FinWait1 || n.e.state == FinWait2 }

  /** Both FINs were sent in the established state, each before its sender had seen the other: they crossed. */
  predicate Crossed(s: System) { s.x.h.finFirst && s.y.h.finFirst }

  // ---- the order of FIN and acknowledgement in a channel ----

  /** No acknowledgement of that number comes before a FIN. */
  predicate FinBeforeAck(c: seq<Packet>, num: Seq32) {
    c == [] || (if c[0].isAck then c[0].ackNum != num && FinBeforeAck(c[1..], num)
                else c[0].isFin || FinBeforeAck(c[1..], num))
  }

  /** No FIN comes before an acknowledgement of that number. */
  predicate AckBeforeFin(c: seq<Packet>, num: Seq32) {
    c == [] || (if c[0].isAck then c[0].ackNum == num || AckBeforeFin(c[1..], num)
                else !c[0].isFin && AckBeforeFin(c[1..], num))
  }

  lemma {:induction false} FinBeforeMore(c: seq<Packet>, d: seq<Packet>, num: Seq32, base: nat, p: nat, sent: nat)
    requires FinBeforeAck(c, num) && Carries(c, base, p, sent, true) && p <= sent
    ensures FinBeforeAck(c + d, num)
  {
    assert (c + d)[1..] == c[1..] + d;
    if c[0].isAck {
      FinBeforeMore(c[1..], d, num, base, p, sent);
    } else if !c[0].isFin {
      FinBeforeMore(c[1..], d, num, base, p + |c[0].payload|, sent);
    }
  }

  /** Positions beyond those acknowledged are not acknowledged, whatever their number wraps to. */
  lemma {:induction false} NotYetAcked(c: seq<Packet>, d: seq<Packet>, base: nat, a: nat, p: nat, q: nat)
    requires Acknowledges(c, base, a, p) && p < q < a + MODULUS
    requires forall i :: 0 <= i < |d| ==> !d[i].isAck
    ensures FinBeforeAck(c + d, Wrap(base + q))
  {
    hide Wrap, Advance;
    if c == [] {
      NoAcks(d, Wrap(base + q));
      assert c + d == d;
    } else {
      assert (c + d)[1..] == c[1..] + d;
      if c[0].isAck {
        var a' := Advance(base, a, c[0].ackNum);
        AdvanceEncodes(base, a, c[0].ackNum);
        AcknowledgesBounds(c[1..], base, a', p);
        if c[0].ackNum == Wrap(base + q) {
          WrapDecides(base, a', q);
          assert false;
        }
        NotYetAcked(c[1..], d, base, a', p, q);
      } else {
        NotYetAcked(c[1..], d, base, a, p, q);
      }
    }
  }

  lemma {:induction false} NoAcks(d: seq<Packet>, num: Seq32)
    requires forall i :: 0 <= i < |d| ==> !d[i].isAck
    ensures FinBeforeAck(d, num)
  {
    if d != [] {
      NoAcks(d[1..], num);
    }
  }

  /** What is acknowledged last is found, and a FIN added behind it comes after it. */
  lemma {:induction false} AckedBeforeFin(
    c: seq<Packet>, fin: Packet, base: nat, a: nat, p: nat, base': nat, p': nat, sent: nat)
    requires Acknowledges(c, base, a, p) && a < p && Carries(c, base', p', sent, false)
    ensures AckBeforeFin(c + [fin], Wrap(base + p))
  {
    hide Wrap, Advance;
    assert (c + [fin])[1..] == c[1..] + [fin];
    if c[0].isAck {
      var a' := Advance(base, a, c[0].ackNum);
      AdvanceEncodes(base, a, c[0].ackNum);
      if a' < p {
        AckedBeforeFin(c[1..], fin, base, a', p, base', p', sent);
      } else {
        AcknowledgesBounds(c[1..], base, a', p);
      }
    } else {
      AckedBeforeFin(c[1..], fin, base, a, p, base', p' + |c[0].payload|, sent);
    }
  }

  // ---- the invariant ----

  /** In FIN_WAIT_1 the FIN is not acknowledged yet. */
  predicate Unacked(n: Node) {
    n.e.state == FinWait1 ==> n.h.acked < SentPos(n)
  }

  /** Crossed FINs: x will meet the peer's FIN before the acknowledgement of its own. */
  predicate Crossing(x: Node, y: Node, yx: seq<Packet>) {
    InFinWait(x) && InFinWait(y) && !x.h.finReceived ==> x.e.state == FinWait1 && FinBeforeAck(yx, x.e.finAck)
  }

  /** A closed peer: its FIN is still to come, after the acknowledgement. */
  predicate Finishing(x: Node, y: Node, yx: seq<Packet>) {
    InFinWait(x) && y.e.state == Closed ==>
      !x.h.finReceived && (x.e.state == FinWait1 ==> AckBeforeFin(yx, x.e.finAck))
  }

  predicate SentFirst(n: Node) {
    (n.h.finFirst ==> n.h.finSent) && (InFinWait(n) ==> n.h.finFirst)
  }

  /** Endpoints whose FINs crossed never get further than FIN_WAIT_2. */
  predicate Stuck(x: Node, y: Node) {
    x.h.finFirst && y.h.finFirst ==> InFinWait(x) && InFinWait(y)
  }

  predicate Closing(x: Node, y: Node, xy: seq<Packet>, yx: seq<Packet>) {
    && SentFirst(x) && SentFirst(y) && Stuck(x, y)
    && Unacked(x) && Unacked(y)
    && Crossing(x, y, yx) && Crossing(y, x, xy)
    && Finishing(x, y, yx) && Finishing(y, x, xy)
  }

  // ---- x processes a packet ----

  lemma ReceiveUnacked(x: Node, y: Node, xy: seq<Packet>, yx: seq<Packet>)
    requires Core(x, y, xy, yx) && x.e.phase == Loop && !x.e.done && yx != [] && Unacked(x)
    ensures Unacked(Received(x, yx[0]))
  {
    assert Local(x) && Direction(x, y, xy, yx);
    hide Core, Direction, ReadSide, Wrap, Advance, Copied, Flatten;
    if yx[0].isAck {
      ReceiveAckBounds(x, y, xy, yx);
      AckedOrWaiting(x, yx[0]);
    } else {
      OtherUnacked(x, yx[0]);
    }
  }

  /** In FIN_WAIT_1 an acknowledgement of everything sent is one of the FIN. */
  lemma AckedOrWaiting(x: Node, p: Packet)
    requires Local(x) && x.e.phase == Loop && p.isAck && Wrap(x.h.base + Received(x, p).h.acked) == p.ackNum
    requires Received(x, p).h.acked <= SentPos(x)
    ensures Unacked(Received(x, p))
  {
    hide ReadSide, Wrap, Advance, Flatten;
  }

  lemma OtherUnacked(x: Node, p: Packet)
    requires Unacked(x) && !p.isAck
    ensures Unacked(Received(x, p))
  {
    hide Copied, Flatten, Wrap;
  }

  /** A FIN is still to be processed as long as it has not been. */
  lemma ReceiveFinFresh(x: Node, y: Node, xy: seq<Packet>, yx: seq<Packet>)
    requires Core(x, y, xy, yx) && yx != [] && !yx[0].isAck
    ensures !x.h.finReceived
  {
    hide Acknowledges, ReadSide, Conserved, Wrap;
    CarriesBounds(yx, y.h.base, SeenPos(x), Sent(y), y.h.finSent);
  }

  lemma ReceiveClosing(x: Node, y: Node, xy: seq<Packet>, yx: seq<Packet>)
    requires Core(x, y, xy, yx) && x.e.phase == Loop && !x.e.done && yx != [] && Closing(x, y, xy, yx)
    ensures Closing(Received(x, yx[0]), y, xy + ProcessPacket(x.e, yx[0]).1, yx[1..])
  {
    hide Core, Carries, FinBeforeAck, AckBeforeFin, ProcessPacket, Received, SentPos, SeenPos, Unacked;
    var p, out := yx[0], ProcessPacket(x.e, yx[0]).1;
    CoreStates(x, y, xy, yx);
    ReceiveUnacked(x, y, xy, yx);
    if !p.isAck {
      ReceiveFinFresh(x, y, xy, yx);
    }
    if InFinWait(y) && InFinWait(x) && !y.h.finReceived {
      SentFinAhead(x, y, xy, yx);
      FinBeforeMore(xy, out, y.e.finAck, x.h.base, SeenPos(y), Sent(x));
    }
    StateAfter(x, p);
    ReceiveCrossing(x, y, yx);
    ReceiveFinishing(x, y, yx);
  }

  /** What processing a packet does to the states of a close. */
  lemma StateAfter(x: Node, p: Packet)
    ensures var x' := Received(x, p);
            && x'.e.finAck == x.e.finAck && x'.h.finSent == x.h.finSent && x'.h.finFirst == x.h.finFirst
            && x'.h.finReceived == (x.h.finReceived || (!p.isAck && p.isFin))
            && x'.e.state ==
                 if p.isAck then if p.ackNum == x.e.finAck && x.e.state == FinWait1 then FinWait2 else x.e.state
                 else if p.isFin then OnFin(x.e.state) else x.e.state
  {
    hide Wrap, Copied, AppSend, OnFin, Advance;
  }

  /** x's FIN is in the channel while y has not processed it. */
  lemma SentFinAhead(x: Node, y: Node, xy: seq<Packet>, yx: seq<Packet>)
    requires Core(x, y, xy, yx) && x.h.finSent && !y.h.finReceived
    ensures Carries(xy, x.h.base, SeenPos(y), Sent(x), true) && SeenPos(y) <= Sent(x)
  {
    hide Carries, Acknowledges, ReadSide, Wrap, Numbers;
  }

  lemma ReceiveCrossing(x: Node, y: Node, yx: seq<Packet>)
    requires yx != [] && Crossing(x, y, yx) && States(x) && States(y) && !x.e.done
    requires !yx[0].isAck ==> !x.h.finReceived
    ensures Crossing(Received(x, yx[0]), y, yx[1..])
    ensures InFinWait(x) && InFinWait(y) ==> InFinWait(Received(x, yx[0]))
  {
    hide Received;
    StateAfter(x, yx[0]);
  }

  lemma ReceiveFinishing(x: Node, y: Node, yx: seq<Packet>)
    requires yx != [] && Finishing(x, y, yx) && States(x) && States(y) && !x.e.done
    ensures Finishing(Received(x, yx[0]), y, yx[1..])
  {
    hide Received;
    StateAfter(x, yx[0]);
  }

  // ---- x sends ----

  /** Before its FIN an endpoint is in neither case. */
  lemma DataClosing(x: Node, x': Node, y: Node, xy: seq<Packet>, xy': seq<Packet>, yx: seq<Packet>)
    requires Closing(x, y, xy, yx) && States(x) && !x.h.finSent && x'.e.state == x.e.state && x'.h == x.h
    ensures Closing(x', y, xy', yx)
  {
    hide FinBeforeAck, AckBeforeFin, SentPos;
  }

  /** What x has not processed it has not acknowledged. */
  lemma FinUnseen(x: Node, y: Node, xy: seq<Packet>, yx: seq<Packet>)
    requires Core(x, y, xy, yx) && y.h.finSent && !x.h.finReceived
    ensures y.h.acked <= SeenPos(x) < SentPos(y) < y.h.acked + MODULUS && y.e.state != FinWait2
  {
    hide Carries, Acknowledges, ReadSide, Wrap;
    AckBounds(y, x, yx, xy);
    SentFinAhead(y, x, yx, xy);
  }

  lemma FinNumber(n: Node)
    requires Local(n) && n.h.finSent && n.e.phase == Loop
    ensures n.e.finAck == Wrap(n.h.base + SentPos(n))
  {
    hide ReadSide, Wrap;
  }

  /** x closes first, the peer may have too. */
  lemma FinFirstClosing(x: Node, y: Node, xy: seq<Packet>, yx: seq<Packet>)
    requires Core(x, y, xy, yx) && Closing(x, y, xy, yx) && x.e.phase == Loop
    requires x.e.appRecv == [] && !x.h.finSent && x.e.state == Established
    requires y.h.finSent ==> y.e.phase == Loop
    ensures Closing(FinSent(x), y, xy + SendFin(x.e).1, yx)
  {
    var x' := FinSent(x);
    AckBounds(x, y, xy, yx);
    SendTheFin(x, y, xy, yx);
    assert !y.h.finReceived && !x.h.finReceived && y.e.state != Closed;
    if InFinWait(y) {
      FinUnseen(x, y, xy, yx);
      NotYetAcked(xy, SendFin(x.e).1, y.h.base, y.h.acked, SeenPos(x), SentPos(y));
      assert yx + [] == yx;
      FinNumber(y);
      FinNumber(x');
      NotYetAcked(yx, [], x.h.base, x.h.acked, SeenPos(y), SentPos(x'));
    }
  }

  /** An endpoint in CLOSE_WAIT has seen all of its peer's stream, and the peer not its FIN. */
  lemma SecondFacts(x: Node, y: Node, xy: seq<Packet>, yx: seq<Packet>)
    requires Core(x, y, xy, yx) && x.e.phase == Loop && !x.h.finSent && x.e.state != Established
    ensures x.e.state == CloseWait && x.h.finReceived && !y.h.finReceived && !x.e.done && 0 <= Sent(x)
    ensures SeenPos(x) == SentPos(y) && Local(y) && y.h.finSent
    ensures Acknowledges(xy, y.h.base, y.h.acked, SeenPos(x)) && Carries(xy, x.h.base, SeenPos(y), Sent(x), false)
  {
    hide Carries, Acknowledges, ReadSide, Wrap, Conserved;
  }

  /** x closes after its peer. */
  lemma FinSecondClosing(x: Node, y: Node, xy: seq<Packet>, yx: seq<Packet>)
    requires Core(x, y, xy, yx) && Closing(x, y, xy, yx) && x.e.phase == Loop
    requires x.e.appRecv == [] && !x.h.finSent && x.e.state != Established
    requires y.h.finSent ==> y.e.phase == Loop
    ensures Closing(FinSent(x), y, xy + SendFin(x.e).1, yx)
  {
    hide Core, Carries, Acknowledges, Local, FinBeforeAck, AckBeforeFin, Wrap, SentPos, SeenPos;
    SecondFacts(x, y, xy, yx);
    if y.e.state == FinWait1 {
      FinNumber(y);
      AckedBeforeFin(xy, FinPacket(x.e.cur), y.h.base, y.h.acked, SeenPos(x), x.h.base, SeenPos(y), Sent(x));
    }
  }

  // ---- a whole iteration, a whole run ----

  /** What the invariant looks at. */
  predicate SameClose(n: Node, m: Node) {
    && n.e.state == m.e.state && n.e.finAck == m.e.finAck && n.h.finReceived == m.h.finReceived
    && n.h.acked == m.h.acked && SentPos(n) == SentPos(m)
    && n.h.finSent == m.h.finSent && n.h.finFirst == m.h.finFirst
  }

  lemma SameClosing(x: Node, x': Node, y: Node, xy: seq<Packet>, yx: seq<Packet>)
    requires Closing(x, y, xy, yx) && SameClose(x, x')
    ensures Closing(x', y, xy, yx)
  {
    hide FinBeforeAck, AckBeforeFin, SentPos;
  }

  lemma DataPartClosing(x: Node, y: Node, xy: seq<Packet>, yx: seq<Packet>, window: int)
    requires Closing(x, y, xy, yx) && States(x)
    ensures var r := DataPart(x.e, x.e.appRecv != [], window);
            Closing(x.(e := r.0), y, xy + r.1, yx) && r.0.state == x.e.state
  {
    hide Closing, Segments, Wrap;
    var r := DataPart(x.e, x.e.appRecv != [], window);
    if r == (x.e, []) {
      assert xy + [] == xy;
    } else {
      DataClosing(x, x.(e := r.0), y, xy, xy + r.1, yx);
    }
  }

  lemma ClosePartClosing(x: Node, y: Node, xy: seq<Packet>, yx: seq<Packet>, close: bool)
    requires Core(x, y, xy, yx) && Closing(x, y, xy, yx) && x.e.phase == Loop
    requires close ==> x.e.appRecv == [] && !x.h.finSent
    requires y.h.finSent ==> y.e.phase == Loop
    ensures var r := ClosePart(x.e, close);
            Closing(Node(r.0, if close then RecordFin(x.h, r.0) else x.h), y, xy + r.1, yx)
  {
    hide Closing, Core, SendFin;
    if !close {
      assert xy + [] == xy;
    } else if x.e.state == Established {
      FinFirstClosing(x, y, xy, yx);
    } else {
      FinSecondClosing(x, y, xy, yx);
    }
  }

  lemma ReceivePartClosing(x: Node, y: Node, xy: seq<Packet>, yx: seq<Packet>, arrived: bool)
    requires Core(x, y, xy, yx) && Closing(x, y, xy, yx) && x.e.phase == Loop && !x.e.done && (arrived ==> yx != [])
    ensures var net := if arrived then Some(yx[0]) else None;
            Closing(if arrived then Received(x, yx[0]) else x, y, xy + NetworkPart(x.e, net).1,
                    if arrived then yx[1..] else yx)
  {
    hide Closing, Core, ProcessPacket;
    if arrived {
      ReceiveClosing(x, y, xy, yx);
    } else {
      assert xy + [] == xy;
    }
  }

  lemma CoreStates(x: Node, y: Node, xy: seq<Packet>, yx: seq<Packet>)
    requires Core(x, y, xy, yx)
    ensures States(x) && States(y)
  {
    hide States, Direction, Conserved, Numbers, ReadSide;
  }

  lemma IterateClosing(x: Node, y: Node, xy: seq<Packet>, yx: seq<Packet>, arrived: bool)
    requires Core(x, y, xy, yx) && CloseOnce(x) && (arrived ==> yx != []) && x.e.phase == Loop && !x.e.done
    requires Closing(x, y, xy, yx)
    requires y.h.finSent ==> y.e.phase == Loop
    ensures var net := if arrived then Some(yx[0]) else None;
            Closing(Iterated(x, net), y, xy + Iteration(x.e, net).1, if arrived then yx[1..] else yx)
  {
    hide Core, Closing, States, Window, InFlight, ProcessPacket, SendAppData, SendFin, Record;
    var net := if arrived then Some(yx[0]) else None;
    var yx' := if arrived then yx[1..] else yx;
    var ev := WaitForEvent(x.e, arrived);
    var x0 := x.(e := Woken(x.e, arrived));
    WokenCore(x, y, xy, yx, arrived);
    assert SameClose(x, x0);
    SameClosing(x, x0, y, xy, yx);
    CoreWindow(x0, y, xy, yx);
    var r1 := NetworkPart(x0.e, net);
    var x1 := if arrived then Received(x0, yx[0]) else x0;
    ReceivePart(x0, y, xy, yx, arrived);
    ReceivePartClosing(x0, y, xy, yx, arrived);
    NetworkKeeps(x0, net);
    CoreStates(x1, y, xy + r1.1, yx');
    var r2 := DataPart(x1.e, ev.appData, Window(x0.e));
    DataPartCore(x1, y, xy + r1.1, yx', Window(x0.e));
    DataPartClosing(x1, y, xy + r1.1, yx', Window(x0.e));
    var x2 := x1.(e := r2.0);
    assert ev.closeRequested ==> r2 == (x1.e, []);
    DataKeeps(x1.e, ev.appData, Window(x0.e));
    ClosePartClosing(x2, y, xy + r1.1 + r2.1, yx', ev.closeRequested);
    var r3 := ClosePart(x2.e, ev.closeRequested);
    assert xy + (r1.1 + r2.1 + r3.1) == xy + r1.1 + r2.1 + r3.1;
  }

  ghost predicate CloseInv(s: System) {
    Inv(s) && Closing(s.x, s.y, Live(s.x, s.y, s.xy), Live(s.y, s.x, s.yx))
  }

  lemma CloseInvFlip(s: System)
    requires CloseInv(s)
    ensures CloseInv(Flip(s))
  {
    InvFlip(s);
    hide Inv, Live, FinBeforeAck, AckBeforeFin, SentPos;
  }

  lemma SentFromLoop(s: System)
    requires Inv(s)
    ensures s.x.h.finSent ==> s.x.e.phase == Loop
    ensures s.y.h.finSent ==> s.y.e.phase == Loop
  {
    hide Core;
  }

  lemma LoopStepClosing(s: System, arrived: bool)
    requires CloseInv(s) && (arrived ==> s.yx != []) && s.x.e.phase == Loop && !s.x.e.done
    ensures var s' := LoopStep(s, arrived);
            Closing(s'.x, s'.y, Live(s'.x, s'.y, s'.xy), Live(s'.y, s'.x, s'.yx))
  {
    hide Core, Closing, Iteration, CloseOnce;
    var net := if arrived then Some(s.yx[0]) else None;
    var s' := LoopStep(s, arrived);
    var out := Iteration(s.x.e, net).1;
    assert s'.x == Iterated(s.x, net);
    IteratedCloseOnce(s.x, net);
    assert Live(s.y, s.x, s.yx) == s.yx && Live(s'.y, s'.x, s'.yx) == s'.yx;
    assert Live(s'.x, s.y, s.xy + out) == Live(s.x, s.y, s.xy) + out;
    SentFromLoop(s);
    IterateClosing(s.x, s.y, Live(s.x, s.y, s.xy), s.yx, arrived);
  }

  lemma HandshakeClosing(s: System)
    requires CloseInv(s)
    ensures var s' := HandshakeStep(s);
            Closing(s'.x, s'.y, Live(s'.x, s'.y, s'.xy), Live(s'.y, s'.x, s'.yx))
  {
    hide Core, FinBeforeAck, AckBeforeFin, SentPos, Wrap;
  }

  lemma AppClosing(s: System, act: Action)
    requires CloseInv(s) && (act.Write? || act.Read? || act.Close?)
    ensures var s' := DoX(s, act);
            Closing(s'.x, s'.y, Live(s'.x, s'.y, s'.xy), Live(s'.y, s'.x, s'.yx))
  {
    hide Core, Closing;
    var s' := DoX(s, act);
    if act.Write? {
      FlattenAppend(s.x.e.appRecv, [act.data]);
      FlattenSingle(act.data);
    }
    assert SameClose(s.x, s'.x);
    SameClosing(s.x, s'.x, s.y, Live(s.x, s.y, s.xy), Live(s.y, s.x, s.yx));
  }

  lemma DoXCloseInv(s: System, act: Action)
    requires CloseInv(s)
    ensures CloseInv(DoX(s, act))
  {
    DoXInv(s, act);
    hide Inv, Closing, Live, LoopStep, HandshakeStep;
    if DoX(s, act) != s {
      match act
      case Handshake => HandshakeClosing(s);
      case Iterate(arrived) => LoopStepClosing(s, arrived);
      case _ => AppClosing(s, act);
    }
  }

  lemma DoCloseInv(s: System, step: Step)
    requires CloseInv(s)
    ensures CloseInv(Do(s, step))
  {
    hide CloseInv, DoX;
    match step
    case ByX(act) => DoXCloseInv(s, act);
    case ByY(act) =>
      CloseInvFlip(s);
      DoXCloseInv(Flip(s), act);
      CloseInvFlip(DoX(Flip(s), act));
  }

  lemma {:induction false} RunCloseInv(s: System, steps: seq<Step>)
    requires CloseInv(s)
    ensures CloseInv(Run(s, steps))
  {
    hide CloseInv, Do;
    if steps != [] {
      RunCloseInv(s, steps[..|steps| - 1]);
      DoCloseInv(Run(s, steps[..|steps| - 1]), steps[|steps| - 1]);
    }
  }

  lemma ReachableCloseInv(s: System)
    requires Reachable(s)
    ensures CloseInv(s)
  {
    hide Inv, Run;
    var s0: System, steps :| Fresh(s0) && s == Run(s0, steps);
    FreshInv(s0);
    assert CloseInv(s0);
    RunCloseInv(s0, steps);
  }

  // ---- what becomes of a close ----

  /** Whether the FIN was sent, and whether it was sent first, is settled when it is sent. */
  lemma FinSettledX(s: System, act: Action)
    requires Inv(s) && s.x.h.finSent
    ensures DoX(s, act).x.h.finSent && DoX(s, act).x.h.finFirst == s.x.h.finFirst && DoX(s, act).y == s.y
  {
    hide Iteration, Core, Shake, OnSyn, OnSynAck, OnHandshakeAck, SendSyn, Copied, Advance;
  }

  lemma {:induction false} FinSettled(s: System, steps: seq<Step>)
    requires Inv(s) && s.x.h.finSent && s.y.h.finSent
    ensures Run(s, steps).x.h.finSent && Run(s, steps).y.h.finSent
    ensures Run(s, steps).x.h.finFirst == s.x.h.finFirst && Run(s, steps).y.h.finFirst == s.y.h.finFirst
  {
    hide Inv, DoX;
    if steps != [] {
      var s1 := Run(s, steps[..|steps| - 1]);
      FinSettled(s, steps[..|steps| - 1]);
      RunInv(s, steps[..|steps| - 1]);
      match steps[|steps| - 1]
      case ByX(act) => FinSettledX(s1, act);
      case ByY(act) =>
        InvFlip(s1);
        FinSettledX(Flip(s1), act);
    }
  }

  lemma CrossedUnfinished(s: System)
    requires CloseInv(s) && Crossed(s)
    ensures !s.x.e.done && !s.y.e.done && s.x.h.finSent && s.y.h.finSent
  {
    hide Shake, Direction, Conserved, ReadSide, Numbers, Crossing, Finishing, Unacked;
  }

  /** Once the FINs have crossed, neither endpoint ever finishes, whatever happens next. */
  lemma CrossedForever(s: System, steps: seq<Step>)
    requires Reachable(s) && Crossed(s)
    ensures Crossed(Run(s, steps)) && !Run(s, steps).x.e.done && !Run(s, steps).y.e.done
  {
    hide Run, Reachable, CloseInv, Inv;
    ReachableInv(s);
    ReachableCloseInv(s);
    CrossedUnfinished(s);
    FinSettled(s, steps);
    RunCloseInv(s, steps);
    CrossedUnfinished(Run(s, steps));
  }

  /** Settled but not done, both sides closed: the peer has not finished either, and both sent first. */
  lemma UnfinishedCrossed(s: System)
    requires CloseInv(s) && AllSettled(s) && s.x.h.closeCalled && s.y.h.closeCalled && !s.x.e.done
    ensures Crossed(s)
  {
    hide Shake, Acknowledges, ReadSide, Conserved, Numbers, Unacked, Crossing, AckBeforeFin;
    if s.y.e.done && !s.x.h.finReceived {
      SentFinAhead(s.y, s.x, s.yx, s.xy);
    }
  }

  /**
   The outcome of a close: when both applications have closed and both endpoints have nothing left to do, each is
   done if and only if the FINs did not cross, that is, not both of them were sent in the established state.
   */
  lemma CloseOutcome(s: System)
    requires Reachable(s) && AllSettled(s) && s.x.h.closeCalled && s.y.h.closeCalled
    ensures s.x.e.done <==> !Crossed(s)
    ensures s.y.e.done <==> !Crossed(s)
  {
    hide CloseInv, AllSettled, Reachable;
    ReachableCloseInv(s);
    CloseInvFlip(s);
    if !s.x.e.done {
      UnfinishedCrossed(s);
    }
    if !s.y.e.done {
      assert AllSettled(Flip(s)) by { FlipSettled(s); }
      UnfinishedCrossed(Flip(s));
    }
    if Crossed(s) {
      CrossedUnfinished(s);
    }
  }

  lemma FlipSettled(s: System)
    requires AllSettled(s)
    ensures AllSettled(Flip(s))
  {
  }

  lemma FinMeansClose(s: System)
    requires Inv(s)
    ensures s.x.h.finSent ==> s.x.h.closeCalled
    ensures s.y.h.finSent ==> s.y.h.closeCalled
  {
    hide Core, Shake;
  }

  /**
   The outcome is decided as soon as both FINs have been sent: under every fair schedule both endpoints are done in
   the end, with everything delivered, if and only if the FINs had not crossed then.
   */
  lemma CloseDecided(s: System, rounds: seq<seq<Step>>)
    requires Reachable(s) && s.x.h.finSent && s.y.h.finSent
    requires |rounds| >= Work(s) && forall i :: 0 <= i < |rounds| ==> FairRound(rounds[i])
    ensures var t := Run(s, Flatten(rounds));
            && (t.x.e.done <==> !Crossed(s)) && (t.y.e.done <==> !Crossed(s))
            && t.y.h.received == s.x.h.written && t.x.h.received == s.y.h.written
  {
    hide Inv, Run, Work, Reachable, AllSettled, FairRound;
    ReachableInv(s);
    EventualDelivery(s, rounds);
    var t := Run(s, Flatten(rounds));
    FinSettled(s, Flatten(rounds));
    RunReachable(s, Flatten(rounds));
    ReachableInv(t);
    FinMeansClose(t);
    CloseOutcome(t);
  }

  /** The crossing happens: both applications close before either endpoint reads a packet. */
  lemma CrossingHappens() returns (s: System)
    ensures Reachable(s) && Crossed(s) && s.x.h.closeCalled && s.y.h.closeCalled
  {
    s := Initial(0, 0);
    assert s == Run(s, []);
    assert Reachable(s);
    s := Connect(s);
    var s1 := CloseOnly(s);
    CloseEffect(s);
    var s2 := CloseOnly(Flip(s1));
    CloseEffect(Flip(s1));
    ReachableStep(s, ByX(Close));
    ReachableStep(Do(s, ByX(Close)), ByX(Iterate(false)));
    ReachableStep(s1, ByY(Close));
    ReachableStep(Do(s1, ByY(Close)), ByY(Iterate(false)));
    s := Flip(s2);
  }

  function CloseOnly(s: System): System { DoX(DoX(s, Close), Iterate(false)) }

  lemma CloseEffect(s: System)
    requires Idle(s.x)
    ensures CloseOnly(s).y == s.y
    ensures CloseOnly(s).x.e.state == FinWait1 && CloseOnly(s).x.h.closeCalled
  {
    hide Wrap, Window;
  }

  /** An endpoint that is up and idle. */
  predicate Idle(n: Node) {
    n.e.phase == Loop && !n.h.closeCalled && !n.e.done && n.e.appRecv == [] && n.e.state == Established
  }

  lemma Connect(s: System) returns (t: System)
    requires Reachable(s) && s == Initial(0, 0)
    ensures Reachable(t) && Idle(t.x) && Idle(t.y)
  {
    hide Reachable;
    var s1 := Do(s, ByX(Handshake));
    ReachableStep(s, ByX(Handshake));
    var s2 := Do(s1, ByY(Handshake));
    ReachableStep(s1, ByY(Handshake));
    var s3 := Do(s2, ByX(Handshake));
    ReachableStep(s2, ByX(Handshake));
    t := Do(s3, ByY(Handshake));
    ReachableStep(s3, ByY(Handshake));
  }

  // ---- closing after the peer ----

  /** The endpoint has seen its peer's FIN and not yet sent its own, or has finished. */
  predicate ClosesSecond(n: Node) { SecondState(n.e) }

  predicate SecondState(e: Endpoint) { e.state == CloseWait || e.state == Closed }

  lemma SecondReceives(e: Endpoint, net: Option<Packet>)
    requires SecondState(e)
    ensures var e' := NetworkPart(e, net).0; e'.phase == e.phase && e'.appRecv == e.appRecv && SecondState(e')
  {
    hide ProcessPacket;
    if net.Some? {
      ProcessKeeps(e, net.value);
      SecondProcesses(e, net.value);
    }
  }

  lemma SecondProcesses(e: Endpoint, p: Packet)
    requires SecondState(e)
    ensures SecondState(ProcessPacket(e, p).0)
  {
    hide Wrap, Copied, AppSend;
  }

  lemma SecondSends(e: Endpoint, appData: bool, window: int, close: bool)
    requires SecondState(e) && (appData ==> e.appRecv != [])
    ensures DataPart(e, appData, window).0.phase == e.phase && SecondState(DataPart(e, appData, window).0)
    ensures ClosePart(e, close).0.phase == e.phase && SecondState(ClosePart(e, close).0)
  {
    hide Wrap, Segments, PQ.Taken, PQ.Left;
  }

  lemma SecondIteration(e: Endpoint, net: Option<Packet>)
    requires SecondState(e)
    ensures Iteration(e, net).0.phase == e.phase && SecondState(Iteration(e, net).0)
  {
    hide NetworkPart, DataPart, ClosePart, Window, SecondState;
    var ev := WaitForEvent(e, net.Some?);
    var e0 := Woken(e, net.Some?);
    assert SecondState(e0) by { SecondWoken(e, net.Some?); }
    SecondReceives(e0, net);
    var e1 := NetworkPart(e0, net).0;
    SecondSends(e1, ev.appData, Window(e0), false);
    SecondSends(DataPart(e1, ev.appData, Window(e0)).0, false, 0, ev.closeRequested);
  }

  lemma SecondWoken(e: Endpoint, arrived: bool)
    requires SecondState(e)
    ensures SecondState(Woken(e, arrived))
  {
  }

  lemma SecondX(s: System, act: Action)
    requires ClosesSecond(s.x) && s.x.e.phase == Loop
    ensures ClosesSecond(DoX(s, act).x) && DoX(s, act).x.e.phase == Loop && DoX(s, act).y == s.y
  {
    hide Iteration, Record, OnSyn, OnSynAck, OnHandshakeAck, SendSyn, Ready;
    if act.Iterate? && DoX(s, act) != s {
      SecondIteration(s.x.e, if act.arrived then Some(s.yx[0]) else None);
    }
  }

  lemma {:induction false} SecondRun(s: System, steps: seq<Step>)
    requires ClosesSecond(s.x) && s.x.e.phase == Loop
    ensures ClosesSecond(Run(s, steps).x) && Run(s, steps).x.e.phase == Loop
  {
    hide DoX;
    if steps != [] {
      var s1 := Run(s, steps[..|steps| - 1]);
      SecondRun(s, steps[..|steps| - 1]);
      match steps[|steps| - 1]
      case ByX(act) => SecondX(s1, act);
      case ByY(act) => DoXGrows(Flip(s1), act);
    }
  }

  lemma {:induction false} CallsKept(s: System, steps: seq<Step>)
    requires s.x.h.closeCalled && s.y.h.closeCalled
    ensures Run(s, steps).x.h.closeCalled && Run(s, steps).y.h.closeCalled
  {
    hide DoX;
    if steps != [] {
      var s1 := Run(s, steps[..|steps| - 1]);
      CallsKept(s, steps[..|steps| - 1]);
      match steps[|steps| - 1]
      case ByX(act) => CallKept(s1, act);
      case ByY(act) => CallKept(Flip(s1), act);
    }
  }

  lemma CallKept(s: System, act: Action)
    requires s.x.h.closeCalled
    ensures DoX(s, act).x.h.closeCalled && DoX(s, act).y == s.y
  {
    hide Iteration, OnSyn, OnSynAck, OnHandshakeAck, SendSyn, Copied, Advance, Ready;
  }

  lemma {:induction false} RunReachable(s: System, steps: seq<Step>)
    requires Reachable(s)
    ensures Reachable(Run(s, steps))
  {
    hide Reachable, Do;
    if steps != [] {
      RunReachable(s, steps[..|steps| - 1]);
      ReachableStep(Run(s, steps[..|steps| - 1]), steps[|steps| - 1]);
    }
  }

  /**
   Closing after the peer avoids the crossing: with both applications closed and one endpoint past the other's
   FIN in CLOSE_WAIT, or finished, every fair schedule finishes both endpoints, with everything delivered.
   */
  lemma CloseAfterPeerFinishes(s: System, rounds: seq<seq<Step>>)
    requires Reachable(s) && s.x.h.closeCalled && s.y.h.closeCalled && ClosesSecond(s.x)
    requires |rounds| >= Work(s) && forall i :: 0 <= i < |rounds| ==> FairRound(rounds[i])
    ensures var t := Run(s, Flatten(rounds));
            && t.x.e.done && t.y.e.done
            && t.y.h.received == s.x.h.written && t.x.h.received == s.y.h.written
  {
    hide Reachable, Inv, AllSettled, Run, Work, FairRound, CloseInv;
    ReachableInv(s);
    assert s.x.e.phase == Loop by { SecondInLoop(s); }
    EventualDelivery(s, rounds);
    var t := Run(s, Flatten(rounds));
    RunReachable(s, Flatten(rounds));
    CallsKept(s, Flatten(rounds));
    SecondRun(s, Flatten(rounds));
    CloseOutcome(t);
    ReachableCloseInv(t);
    if Crossed(t) {
      assert InFinWait(t.x) by { CrossedWaits(t); }
    }
  }

  lemma CrossedWaits(s: System)
    requires CloseInv(s) && Crossed(s)
    ensures InFinWait(s.x) && InFinWait(s.y)
  {
    hide Inv, Crossing, Finishing, Unacked, SentFirst;
  }

  lemma SecondInLoop(s: System)
    requires Inv(s) && ClosesSecond(s.x)
    ensures s.x.e.phase == Loop
  {
    hide Core;
  }
}
