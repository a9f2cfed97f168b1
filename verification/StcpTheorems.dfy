/**
 What two STCP endpoints guarantee, in every state that any run can reach. Reachability does not tell the ends apart
 (`StcpProtocol.ReachableEither`), so what is said of x holds of the active end as of the passive one.
 */
module StcpTheorems {
  import opened Base
  import opened Stcp
  import opened StcpStreams
  import opened StcpInvariant
  import opened StcpProtocol
  import PQ = PacketQueue

  lemma ReachableFlip(s: System)
    requires Reachable(s)
    ensures Inv(s) && Inv(Flip(s))
  {
    ReachableInv(s);
    InvFlip(s);
  }

  // ---- delivery ----

  /** Received and not yet read by the application. */
  function Unread(n: Node): seq<byte> {
    if n.e.eof then [] else PQ.Stream(n.e.appSend)
  }

  /** Read, readable, in the channel and still queued, in this order, are the bytes written. */
  ghost predicate StreamIntact(s: Node, d: Node, c: seq<Packet>) {
    && d.h.read + Unread(d) + Payload(c) + Flatten(s.e.appRecv) == s.h.written
    && forall i :: 0 <= i < |c| && !c[i].isAck ==> |c[i].payload| <= STCP_MSS
  }

  lemma {:induction false} CarriesSmall(c: seq<Packet>, base: nat, p: nat, sent: nat, fin: bool)
    requires Carries(c, base, p, sent, fin)
    ensures forall i :: 0 <= i < |c| && !c[i].isAck ==> |c[i].payload| <= STCP_MSS
  {
    if c != [] {
      CarriesSmall(c[1..], base,
                   if c[0].isAck then p else if c[0].isFin then p + 1 else p + |c[0].payload|, sent, fin);
      forall i | 0 <= i < |c| && !c[i].isAck
        ensures |c[i].payload| <= STCP_MSS
      {
        assert i > 0 ==> c[i] == c[1..][i - 1];
      }
    }
  }

  lemma StreamIntactX(s: System)
    requires Inv(s)
    ensures StreamIntact(s.x, s.y, s.xy)
  {
    hide Inv, Live, Carries, Conserved, Unread, Local;
    var live := Live(s.x, s.y, s.xy);
    InvParts(s);
    CarriesSmall(live, s.x.h.base, SeenPos(s.y), Sent(s.x), s.x.h.finSent);
    LivePayload(s);
    ReadIsReceived(s.y);
    ConservedWritten(s.x, s.y, live);
    Concat(s.y.h.received, Payload(s.xy), Flatten(s.x.e.appRecv));
  }

  lemma ConservedWritten(x: Node, y: Node, c: seq<Packet>)
    requires Conserved(x, y, c)
    ensures y.h.received + (Payload(c) + Flatten(x.e.appRecv)) == x.h.written
  {
  }

  lemma InvParts(s: System)
    requires Inv(s)
    ensures Local(s.y) && 0 <= Sent(s.x) && Conserved(s.x, s.y, Live(s.x, s.y, s.xy))
    ensures Carries(Live(s.x, s.y, s.xy), s.x.h.base, SeenPos(s.y), Sent(s.x), s.x.h.finSent)
  {
    hide Shake, Live, Carries, Acknowledges, Local, Conserved;
  }

  /** The packet that the loop will not read is empty. */
  lemma LivePayload(s: System)
    requires Inv(s)
    requires forall i :: 0 <= i < |Live(s.x, s.y, s.xy)| && !Live(s.x, s.y, s.xy)[i].isAck ==>
               |Live(s.x, s.y, s.xy)[i].payload| <= STCP_MSS
    ensures Payload(s.xy) == Payload(Live(s.x, s.y, s.xy))
    ensures forall i :: 0 <= i < |s.xy| && !s.xy[i].isAck ==> |s.xy[i].payload| <= STCP_MSS
  {
    hide Core, Wrap;
    var live := Live(s.x, s.y, s.xy);
    if live != s.xy {
      assert s.xy[1..] == live && s.xy[0].payload == [];
      forall i | 0 < i < |s.xy|
        ensures s.xy[i] == live[i - 1]
      {
        FromAt(s.xy, 1, i);
      }
    }
  }

  lemma ReadIsReceived(n: Node)
    requires Local(n)
    ensures n.h.read + Unread(n) == n.h.received
  {
    hide Numbers, States;
  }

  /**
   In-order delivery: in every run, in both directions, no byte is lost, duplicated, reordered or made
   up, and no segment is longer than the 556-byte receive can take.
   */
  lemma DeliveredInOrder(s: System)
    requires Reachable(s)
    ensures StreamIntact(s.x, s.y, s.xy) && StreamIntact(s.y, s.x, s.yx)
  {
    hide Inv;
    ReachableFlip(s);
    StreamIntactX(s);
    StreamIntactX(Flip(s));
  }

  /** An application that has seen end of file has read everything its peer wrote, and the peer closed. */
  lemma EofMeansComplete(s: System)
    requires Reachable(s) && s.x.e.eof
    ensures s.x.h.read == s.y.h.written && s.y.h.closeCalled
  {
    ReachableInv(s);
    CarriesBounds(Live(s.y, s.x, s.yx), s.y.h.base, SeenPos(s.x), Sent(s.y), s.y.h.finSent);
  }

  // ---- acknowledgements and the window ----

  function Acks(c: seq<Packet>): seq<Seq32> {
    if c == [] then [] else (if c[0].isAck then [c[0].ackNum] else []) + Acks(c[1..])
  }

  function AckPositions(c: seq<Packet>, base: nat, a: nat): seq<nat> {
    if c == [] then []
    else if c[0].isAck then
      var a' := Advance(base, a, c[0].ackNum);
      [a'] + AckPositions(c[1..], base, a')
    else AckPositions(c[1..], base, a)
  }

  /** `pos` lists the stream positions that the numbers `acks` stand for, upwards from `a`, up to `p`. */
  ghost predicate InOrder(acks: seq<Seq32>, pos: seq<nat>, base: nat, a: nat, p: nat) {
    && |acks| == |pos|
    && (forall i :: 0 <= i < |pos| ==> a < pos[i] <= p && acks[i] == Wrap(base + pos[i]))
    && (forall i, j :: 0 <= i < j < |pos| ==> pos[i] < pos[j])
    && p == (if pos == [] then a else pos[|pos| - 1])
  }

  lemma InOrderCons(ack: Seq32, acks: seq<Seq32>, pos: seq<nat>, base: nat, a: nat, a': nat, p: nat)
    requires InOrder(acks, pos, base, a', p) && a < a' <= p && ack == Wrap(base + a')
    ensures InOrder([ack] + acks, [a'] + pos, base, a, p)
  {
  }

  lemma NoneInOrder(base: nat, a: nat)
    ensures InOrder([], [], base, a, a)
  {
  }

  lemma {:induction false} AcksInOrder(c: seq<Packet>, base: nat, a: nat, p: nat)
    requires Acknowledges(c, base, a, p)
    ensures InOrder(Acks(c), AckPositions(c, base, a), base, a, p)
  {
    hide InOrder, Wrap, Advance;
    if c == [] {
      NoneInOrder(base, a);
    } else {
      if c[0].isAck {
        var a' := Advance(base, a, c[0].ackNum);
        AcksInOrder(c[1..], base, a', p);
        AdvanceEncodes(base, a, c[0].ackNum);
        InOrderCons(c[0].ackNum, Acks(c[1..]), AckPositions(c[1..], base, a'), base, a, a', p);
      } else {
        AcksInOrder(c[1..], base, a, p);
        assert [] + Acks(c[1..]) == Acks(c[1..]);
      }
    }
  }

  /**
   Acknowledgements are sound and in order: those in the channel and the recorded one number positions
   (a byte, or the FIN) the peer has processed, strictly increasing, the newest being the latest one.
   The unacknowledged range, taken modulo 2^32, stays within the window, so the read from the
   application fits its 3072-byte buffer.
   */
  lemma AcksSound(s: System)
    requires Reachable(s) && s.x.e.phase == Loop
    ensures InOrder(Acks(s.yx), AckPositions(s.yx, s.x.h.base, s.x.h.acked),
                    s.x.h.base, s.x.h.acked, SeenPos(s.y))
    ensures s.x.h.acked <= SeenPos(s.y) <= SentPos(s.x)
    ensures s.x.h.ackSeen ==> s.x.e.ackNum == Wrap(s.x.h.base + s.x.h.acked) && s.x.h.acked > 0
    ensures Wrap(s.x.e.cur - s.x.e.ackNum) <= SENDER_WINDOW + Unit(s.x.h.finSent)
    ensures Window(s.x.e) <= SENDER_WINDOW
  {
    hide Reachable, Core, InOrder, Window, Wrap, AckPositions, Acks, CloseOnce;
    ReachableInv(s);
    AcksSoundCore(s.x, s.y, Live(s.x, s.y, s.xy), s.yx);
  }

  lemma AcksSoundCore(x: Node, y: Node, xy: seq<Packet>, yx: seq<Packet>)
    requires Core(x, y, xy, yx) && x.e.phase == Loop
    ensures InOrder(Acks(yx), AckPositions(yx, x.h.base, x.h.acked), x.h.base, x.h.acked, SeenPos(y))
    ensures x.h.acked <= SeenPos(y) <= SentPos(x)
    ensures x.h.ackSeen ==> x.e.ackNum == Wrap(x.h.base + x.h.acked) && x.h.acked > 0
    ensures Wrap(x.e.cur - x.e.ackNum) <= SENDER_WINDOW + Unit(x.h.finSent)
    ensures Window(x.e) <= SENDER_WINDOW
  {
    CoreWindow(x, y, xy, yx);
    assert Acknowledges(yx, x.h.base, x.h.acked, SeenPos(y));
    hide Carries, Acknowledges, InOrder, ReadSide, States, Conserved, Window, AckPositions, Acks;
    AcksInOrder(yx, x.h.base, x.h.acked, SeenPos(y));
    OutstandingBound(x);
  }

  lemma OutstandingBound(n: Node)
    requires Local(n) && n.e.phase == Loop && n.h.acked <= SentPos(n)
    ensures Wrap(n.e.cur - n.e.ackNum) <= SENDER_WINDOW + Unit(n.h.finSent)
  {
    hide ReadSide, States;
    WrapDifference(n.h.base + SentPos(n), if n.h.ackSeen then n.h.base + n.h.acked else 0);
  }

  predicate HasSegment(c: seq<Packet>) { exists i :: 0 <= i < |c| && !c[i].isAck }
  predicate HasAck(c: seq<Packet>) { exists i :: 0 <= i < |c| && c[i].isAck }

  lemma {:induction false} NoSegment(c: seq<Packet>, base: nat, p: nat, sent: nat, fin: bool)
    requires Carries(c, base, p, sent, fin) && !HasSegment(c)
    ensures p == sent + Unit(fin)
  {
    if c != [] {
      assert c[0].isAck;
      assert !HasSegment(c[1..]) by {
        assert forall i :: 0 <= i < |c[1..]| ==> c[1..][i] == c[i + 1];
      }
      NoSegment(c[1..], base, p, sent, fin);
    }
  }

  lemma {:induction false} NoAck(c: seq<Packet>, base: nat, a: nat, p: nat)
    requires Acknowledges(c, base, a, p) && !HasAck(c)
    ensures a == p
  {
    if c != [] {
      assert !c[0].isAck;
      assert !HasAck(c[1..]) by {
        assert forall i :: 0 <= i < |c[1..]| ==> c[1..][i] == c[i + 1];
      }
      NoAck(c[1..], base, a, p);
    }
  }

  /**
   The window never closes for good: whenever it is shut before the FIN, a segment or an
   acknowledgement that will open it is on its way.
   */
  lemma WindowReopens(s: System)
    requires Reachable(s) && s.x.e.phase == Loop && !s.x.h.finSent && Window(s.x.e) <= 0
    ensures HasSegment(s.xy) || HasAck(s.yx)
  {
    hide Reachable, Core, Window, CloseOnce;
    ReachableInv(s);
    var live := Live(s.x, s.y, s.xy);
    WindowReopensCore(s.x, s.y, live, s.yx);
    if HasSegment(live) {
      var i :| 0 <= i < |live| && !live[i].isAck;
      assert !s.xy[if live == s.xy then i else i + 1].isAck;
    }
  }

  lemma WindowReopensCore(x: Node, y: Node, xy: seq<Packet>, yx: seq<Packet>)
    requires Core(x, y, xy, yx) && x.e.phase == Loop && !x.h.finSent && Window(x.e) <= 0
    ensures HasSegment(xy) || HasAck(yx)
  {
    hide Carries, Acknowledges, Window;
    CoreWindow(x, y, xy, yx);
    if !HasSegment(xy) && !HasAck(yx) {
      NoSegment(xy, x.h.base, SeenPos(y), Sent(x), x.h.finSent);
      NoAck(yx, x.h.base, x.h.acked, SeenPos(y));
      assert false;
    }
  }

  // ---- closing ----

  /** FIN_WAIT_2 means the peer has processed the FIN, and with it every byte written. */
  lemma FinWait2Sound(s: System)
    requires Reachable(s) && s.x.e.state == FinWait2
    ensures s.y.h.finReceived && s.y.h.received == s.x.h.written
  {
    ReachableInv(s);
    FinWait2Core(s.x, s.y, Live(s.x, s.y, s.xy), Live(s.y, s.x, s.yx));
  }

  lemma FinWait2Core(x: Node, y: Node, xy: seq<Packet>, yx: seq<Packet>)
    requires Core(x, y, xy, yx) && x.e.state == FinWait2
    ensures y.h.finReceived && y.h.received == x.h.written
  {
    hide Carries, Acknowledges, ReadSide;
    AckBounds(x, y, xy, yx);
    ConservedBound(x, y, xy);
    CarriesBounds(xy, x.h.base, SeenPos(y), Sent(x), x.h.finSent);
    assert Payload(xy) == [] && Flatten(x.e.appRecv) == [];
  }

  lemma ConservedBound(x: Node, y: Node, xy: seq<Packet>)
    requires Conserved(x, y, xy)
    ensures |y.h.received| <= Sent(x)
  {
  }

  /** A closed endpoint has received its peer's whole stream, whichever way it closed. */
  lemma ClosedReceivedAll(s: System)
    requires Reachable(s) && s.x.e.state == Closed
    ensures s.x.h.finReceived && s.x.h.received == s.y.h.written
  {
    ReachableInv(s);
    CarriesBounds(Live(s.y, s.x, s.yx), s.y.h.base, SeenPos(s.x), Sent(s.y), s.y.h.finSent);
  }

  /** A close completed from FIN_WAIT_2 leaves both directions completely delivered. */
  lemma ClosedFromFinWait2(s: System, act: Action)
    requires Reachable(s) && s.x.e.state == FinWait2 && DoX(s, act).x.e.state == Closed
    ensures var s' := DoX(s, act);
            && s'.y.h.received == s'.x.h.written && s'.y.h.finReceived
            && s'.x.h.received == s'.y.h.written && s'.x.h.finReceived
  {
    hide Inv;
    var s' := DoX(s, act);
    FinWait2Sound(s);
    ReachableStep(s, ByX(act));
    ClosedReceivedAll(s');
    assert s'.y == s.y && s'.x.h.written == s.x.h.written by { FinWait2Frame(s, act); }
  }

  lemma FinWait2Frame(s: System, act: Action)
    requires DoX(s, act).x.e.state != s.x.e.state && s.x.e.state == FinWait2
    ensures DoX(s, act).y == s.y && DoX(s, act).x.h.written == s.x.h.written
  {
    hide Iteration, Record, RecordFin, OnSyn, OnSynAck, OnHandshakeAck, SendSyn, Ready;
    if act.Iterate? && (act.arrived ==> s.yx != []) {
      var net := if act.arrived then Some(s.yx[0]) else None;
      var e' := Iteration(s.x.e, net).0;
      RecordKeeps(s.x.h, if act.arrived then s.yx[0] else SynPacket(0), e');
      RecordKeeps(if act.arrived then Record(s.x.h, s.yx[0]) else s.x.h, SynPacket(0), e');
    }
  }

  lemma RecordKeeps(h: History, p: Packet, e: Endpoint)
    ensures Record(h, p).closeCalled == h.closeCalled == RecordFin(h, e).closeCalled
    ensures Record(h, p).written == h.written == RecordFin(h, e).written
    ensures Record(h, p).read == h.read == RecordFin(h, e).read
  {
  }

  lemma ReachableStep(s: System, step: Step)
    requires Reachable(s)
    ensures Reachable(Do(s, step))
  {
    hide Do;
    var s0: System, steps :| Fresh(s0) && s == Run(s0, steps);
    hide Fresh;
    var more := steps + [step];
    assert more[..|more| - 1] == steps;
    assert Do(s, step) == Run(s0, more);
  }

  /** What follows a FIN in a channel is acknowledgements only; the FIN itself is numbered past the bytes. */
  lemma {:induction false} FinIsLast(c: seq<Packet>, base: nat, p: nat, sent: nat, fin: bool, i: nat)
    requires Carries(c, base, p, sent, fin) && i < |c| && !c[i].isAck && c[i].isFin
    ensures fin && c[i].seqNum == Wrap(base + sent)
    ensures forall j :: i < j < |c| ==> c[j].isAck
  {
    if i > 0 {
      assert c[i] == c[1..][i - 1];
      FinIsLast(c[1..], base,
                if c[0].isAck then p else if c[0].isFin then p + 1 else p + |c[0].payload|, sent, fin, i - 1);
      assert forall j :: i < j < |c| ==> c[j] == c[1..][j - 1];
    } else {
      PastFin(c[1..], base, p + 1, sent, fin);
      assert forall j :: 0 < j < |c| ==> c[j] == c[1..][j - 1];
    }
  }

  lemma {:induction false} PastFin(c: seq<Packet>, base: nat, p: nat, sent: nat, fin: bool)
    requires Carries(c, base, p, sent, fin) && p == sent + 1
    ensures forall j :: 0 <= j < |c| ==> c[j].isAck
  {
    if c != [] {
      PastFin(c[1..], base, p, sent, fin);
      assert forall j :: 0 < j < |c| ==> c[j] == c[1..][j - 1];
    }
  }

  /** What the loop will not read is at most one packet, and no FIN. */
  lemma LiveSuffix(s: System)
    requires Inv(s)
    ensures var live := Live(s.x, s.y, s.xy);
            && |live| <= |s.xy| <= |live| + 1 && s.xy[|s.xy| - |live|..] == live
            && (|live| < |s.xy| ==> !s.xy[0].isFin)
  {
    hide Core, CloseOnce;
  }

  lemma LiveCarries(s: System)
    requires Inv(s)
    ensures 0 <= Sent(s.x)
    ensures Carries(Live(s.x, s.y, s.xy), s.x.h.base, SeenPos(s.y), Sent(s.x), s.x.h.finSent)
    ensures s.x.h.finSent ==> s.x.h.closeCalled && s.x.e.appRecv == []
  {
    hide Shake, Live, Carries, Acknowledges, ReadSide, Conserved, Numbers;
  }

  /** The FIN is numbered after the last byte ever written, and no segment follows it. */
  lemma FinEndsStream(s: System, i: nat)
    requires Reachable(s) && i < |s.xy| && !s.xy[i].isAck && s.xy[i].isFin
    ensures s.x.h.closeCalled && s.x.e.appRecv == []
    ensures s.xy[i].seqNum == Wrap(s.x.h.base + |s.x.h.written|)
    ensures forall j :: i < j < |s.xy| ==> s.xy[j].isAck
  {
    hide Reachable, Inv, Carries, Live, SeenPos, Wrap;
    ReachableInv(s);
    LiveSuffix(s);
    LiveCarries(s);
    var live := Live(s.x, s.y, s.xy);
    var k := |s.xy| - |live|;
    FromAt(s.xy, k, i);
    FinIsLast(live, s.x.h.base, SeenPos(s.y), Sent(s.x), s.x.h.finSent, i - k);
    forall j | i < j < |s.xy|
      ensures s.xy[j].isAck
    {
      FromAt(s.xy, k, j);
    }
  }

  lemma FromAt<T>(s: seq<T>, k: nat, i: nat)
    requires k <= i < |s|
    ensures s[k..][i - k] == s[i]
  {
  }

  /**
   The close event is never reported with application data, only when every byte written has been sent,
   and at most once: it leaves `finSent` set, and no later iteration reports it or sends anything but
   acknowledgements.
   */
  lemma CloseReportedOnce(s: System, arrived: bool)
    requires Reachable(s) && s.x.e.phase == Loop && !s.x.e.done && (arrived ==> s.yx != [])
    ensures var ev := WaitForEvent(s.x.e, arrived);
            && (ev.closeRequested ==>
                  !ev.appData && s.x.h.closeCalled && !s.x.h.finSent && Sent(s.x) == |s.x.h.written|)
            && (ev.closeRequested ==> LoopStep(s, arrived).x.h.finSent)
            && (s.x.h.finSent ==> !ev.closeRequested && !ev.appData && LoopStep(s, arrived).x.h.finSent)
    ensures s.x.h.finSent ==>
              forall p :: p in Iteration(s.x.e, if arrived then Some(s.yx[0]) else None).1 ==> p.isAck
  {
    ReachableInv(s);
  }

  /** The handshake of two such endpoints never refuses, and the passive end is up only after the active. */
  lemma HandshakeSucceeds(s: System)
    requires Reachable(s) && s.x.e.isActive
    ensures !s.x.e.refused && !s.y.e.refused && !s.y.e.isActive
    ensures s.y.e.phase == Loop ==> s.x.e.phase == Loop
  {
    hide Core, Quiet;
    ReachableInv(s);
  }

  predicate Grows(h: History, h': History) {
    h.acked <= h'.acked && h.received <= h'.received && h.read <= h'.read && h.written <= h'.written
  }

  lemma RecordGrows(h: History, p: Packet)
    ensures Grows(h, Record(h, p))
  {
  }

  lemma DoXGrows(s: System, act: Action)
    ensures Grows(s.x.h, DoX(s, act).x.h) && DoX(s, act).y == s.y
  {
    hide Iteration, Record, OnSyn, OnSynAck, OnHandshakeAck, SendSyn;
    if s.yx != [] {
      RecordGrows(s.x.h, s.yx[0]);
    }
  }

  lemma HistoryGrows(s: System, step: Step)
    ensures Grows(s.x.h, Do(s, step).x.h) && Grows(s.y.h, Do(s, step).y.h)
  {
    hide DoX;
    match step
    case ByX(act) => DoXGrows(s, act);
    case ByY(act) => DoXGrows(Flip(s), act);
  }

  lemma PartsAckNum(e: Endpoint, net: Option<Packet>, appData: bool, window: int, close: bool)
    requires appData ==> e.appRecv != []
    ensures NetworkPart(e, net).0.ackNum == if net.Some? && net.value.isAck then net.value.ackNum else e.ackNum
    ensures DataPart(e, appData, window).0.ackNum == e.ackNum
    ensures ClosePart(e, close).0.ackNum == e.ackNum
  {
    hide Wrap, Copied, AppSend, OnFin, Segments, PQ.Taken, PQ.Left;
  }

  lemma IterationAckNum(e: Endpoint, net: Option<Packet>)
    ensures Iteration(e, net).0.ackNum == if net.Some? && net.value.isAck then net.value.ackNum else e.ackNum
  {
    hide NetworkPart, DataPart, ClosePart, Window;
    var ev := WaitForEvent(e, net.Some?);
    var e0 := Woken(e, net.Some?);
    var e1 := NetworkPart(e0, net).0;
    assert e1.appRecv == e0.appRecv by { NetworkKeeps(Node(e0, Start(true, 0, 0).h), net); }
    PartsAckNum(e0, net, false, 0, false);
    PartsAckNum(e1, None, ev.appData, Window(e0), false);
    PartsAckNum(DataPart(e1, ev.appData, Window(e0)).0, None, false, 0, ev.closeRequested);
  }

  /** The recorded number stays, or becomes that of the acknowledgement processed. */
  lemma AckNumAfter(s: System, act: Action)
    ensures DoX(s, act).x.e.ackNum == s.x.e.ackNum
         || (act == Iterate(true) && s.yx != [] && s.yx[0].isAck && DoX(s, act).x.e.ackNum == s.yx[0].ackNum)
  {
    hide Iteration, Record, OnSyn, OnHandshakeAck, OnSynAck, SendSyn, RecordFin;
    if act.Iterate? && (act.arrived ==> s.yx != []) {
      IterationAckNum(s.x.e, if act.arrived then Some(s.yx[0]) else None);
    } else if act.Handshake? {
      HandshakeAckNum(s.x.e, if s.yx != [] then s.yx[0] else SynPacket(0));
    }
  }

  lemma HandshakeAckNum(e: Endpoint, p: Packet)
    ensures SendSyn(e).0.ackNum == e.ackNum && OnSyn(e, p).0.ackNum == e.ackNum
    ensures OnSynAck(e, p).0.ackNum == e.ackNum && OnHandshakeAck(e, p).0.ackNum == e.ackNum
  {
  }

  lemma AckForwardX(s: System, act: Action)
    requires Inv(s) && s.x.h.ackSeen && s.x.e.phase == Loop
    ensures Wrap(DoX(s, act).x.e.ackNum - s.x.e.ackNum) <= Wrap(s.x.e.cur - s.x.e.ackNum) <= SENDER_WINDOW + 1
  {
    var xy := Live(s.x, s.y, s.xy);
    assert Local(s.x) && Direction(s.x, s.y, xy, s.yx) by { hide Local, Direction, Conserved; }
    hide Local, Direction, Inv, DoX, Wrap;
    AckNumAfter(s, act);
    AckForwardTo(s.x, s.y, xy, s.yx, DoX(s, act).x.e.ackNum);
  }

  lemma AckForwardTo(x: Node, y: Node, xy: seq<Packet>, yx: seq<Packet>, num: Seq32)
    requires Local(x) && Direction(x, y, xy, yx) && x.h.ackSeen && x.e.phase == Loop
    requires num == x.e.ackNum || (yx != [] && yx[0].isAck && num == yx[0].ackNum)
    ensures Wrap(num - x.e.ackNum) <= Wrap(x.e.cur - x.e.ackNum) <= SENDER_WINDOW + 1
  {
    hide Local, Direction, Wrap, Advance, Received;
    AckBounds(x, y, xy, yx);
    OutstandingBound(x);
    if num == x.e.ackNum {
      assert x.e.ackNum == Wrap(x.h.base + x.h.acked) by { RecordedNumber(x); }
      AckDistance(x, x.h.acked, x.h.acked);
    } else {
      ReceiveAckBounds(x, y, xy, yx);
      AckDistance(x, x.h.acked, Received(x, yx[0]).h.acked);
    }
  }

  lemma RecordedNumber(n: Node)
    requires Local(n) && n.e.phase == Loop && n.h.ackSeen
    ensures n.e.ackNum == Wrap(n.h.base + n.h.acked) && n.e.cur == Wrap(n.h.base + SentPos(n))
    ensures SentPos(n) - n.h.acked <= SENDER_WINDOW + 1
  {
    hide ReadSide, States;
  }

  /** Distances of sequence numbers in the unacknowledged range are distances of positions. */
  lemma AckDistance(n: Node, a: nat, b: nat)
    requires Local(n) && n.e.phase == Loop && n.h.ackSeen && a == n.h.acked && a <= b <= SentPos(n)
    ensures Wrap(Wrap(n.h.base + b) - n.e.ackNum) == b - a
    ensures Wrap(n.e.cur - n.e.ackNum) == SentPos(n) - a
  {
    hide Local, SentPos, Wrap;
    RecordedNumber(n);
    WrapDifference(n.h.base + b, n.h.base + a);
    WrapDifference(n.h.base + SentPos(n), n.h.base + a);
    WrapSmall(b - a);
    WrapSmall(SentPos(n) - a);
  }

  /**
   No step takes back what an endpoint has received, read or written, and after the first acknowledgement none
   moves `ack_num` backwards or past what was sent: the new number lies in the unacknowledged range, which is at
   most 3073 numbers long in wrapping arithmetic.
   */
  lemma NeverBackwards(s: System, step: Step)
    requires Reachable(s)
    ensures Grows(s.x.h, Do(s, step).x.h)
    ensures s.x.h.ackSeen ==>
              Wrap(Do(s, step).x.e.ackNum - s.x.e.ackNum) <= Wrap(s.x.e.cur - s.x.e.ackNum) <= SENDER_WINDOW + 1
  {
    hide Inv, DoX, Wrap, Reachable;
    ReachableInv(s);
    HistoryGrows(s, step);
    if s.x.h.ackSeen {
      AckedInLoop(s);
      AckForwardX(s, Read(0));
      match step
      case ByX(act) => AckForwardX(s, act);
      case ByY(act) =>
        DoXGrows(Flip(s), act);
        assert Do(s, step).x == s.x;
        assert Wrap(0) == 0 by { WrapSmall(0); }
    }
  }

  lemma AckedInLoop(s: System)
    requires Inv(s) && s.x.h.ackSeen
    ensures s.x.e.phase == Loop
  {
    hide Core;
  }

  // ---- where the code does not do what the assignment asks ----

  lemma DataNotAck(e: Endpoint, appData: bool, window: int, close: bool)
    requires appData ==> e.appRecv != []
    ensures forall p :: p in DataPart(e, appData, window).1 ==> !p.isAck
    ensures forall p :: p in ClosePart(e, close).1 ==> !p.isAck
  {
    hide Wrap, Segments, PQ.Left;
    if appData && window > 0 {
      assert Wrap(0 + e.cur) == e.cur by { assert Wrap(e.cur) == e.cur by { WrapSmall(e.cur); } }
      SegmentsCarry(0, e.cur, PQ.Taken(e.appRecv, window));
    }
  }

  /** The acknowledgements of an iteration are numbered 0. */
  lemma LoopAckNumber(e: Endpoint, net: Option<Packet>, p: Packet)
    requires p in Iteration(e, net).1 && p.isAck
    ensures p.seqNum == 0
  {
    hide DataPart, ClosePart, Window;
    var ev := WaitForEvent(e, net.Some?);
    var e0 := Woken(e, net.Some?);
    var e1 := NetworkPart(e0, net).0;
    assert e1.appRecv == e0.appRecv by { NetworkKeeps(Node(e0, Start(true, 0, 0).h), net); }
    DataNotAck(e1, ev.appData, Window(e0), false);
    DataNotAck(DataPart(e1, ev.appData, Window(e0)).0, false, 0, ev.closeRequested);
    assert p in NetworkPart(e0, net).1;
  }

  /** No data, and neither SYN nor FIN. */
  predicate PureAck(p: Packet) { p.isAck && !p.isSyn && !p.isFin && p.payload == [] }

  lemma HandshakeAckNumber(s: System, p: Packet)
    requires s.xy <= HandshakeStep(s).xy && p in HandshakeStep(s).xy[|s.xy|..] && PureAck(p)
    ensures p.seqNum == s.x.e.cur
  {
    hide Wrap;
  }

  lemma SentByX(s: System, act: Action)
    ensures s.xy <= DoX(s, act).xy
    ensures act.Iterate? && DoX(s, act).xy != s.xy ==>
              DoX(s, act).xy[|s.xy|..] == Iteration(s.x.e, if act.arrived then Some(s.yx[0]) else None).1
  {
    hide Iteration, Record, RecordFin, OnSyn, OnSynAck, OnHandshakeAck, SendSyn;
  }

  /**
   A pure acknowledgement should carry the next unsent sequence number. Of all that an endpoint ever sends, exactly
   those do that are sent in the handshake or when that number is 0: in the loop they always carry 0.
   */
  lemma PureAckNumber(s: System, act: Action, p: Packet)
    requires |s.xy| <= |DoX(s, act).xy| && p in DoX(s, act).xy[|s.xy|..] && PureAck(p)
    ensures p.seqNum == s.x.e.cur <==> act.Handshake? || s.x.e.cur == 0
  {
    SentByX(s, act);
    hide Iteration, LoopStep;
    if act.Handshake? {
      HandshakeAckNumber(s, p);
    } else if act.Iterate? {
      LoopAckNumber(s.x.e, if act.arrived then Some(s.yx[0]) else None, p);
    }
  }

  // ---- where numbering starts ----

  /** The number of an endpoint's first byte. */
  function FirstNumber(e: Endpoint): nat { e.isn + (if e.isActive then 2 else 1) }

  predicate Based(n: Node) { n.h.base == FirstNumber(n.e) }

  lemma BasedX(s: System, act: Action)
    requires Inv(s) && Based(s.x)
    ensures Based(DoX(s, act).x) && DoX(s, act).y == s.y
  {
    hide Core, Shake, Iteration, OnSyn, OnSynAck, OnHandshakeAck, SendSyn, Record, RecordFin, Copied;
    if act.Iterate? && DoX(s, act) != s {
      var net := if act.arrived then Some(s.yx[0]) else None;
      IteratedCloseOnce(s.x, net);
      assert LoopStep(s, act.arrived).x == Iterated(s.x, net);
    } else if act.Handshake? {
      HandshakeKeeps(s.x.e, if s.yx != [] then s.yx[0] else SynPacket(0));
    }
  }

  lemma HandshakeKeeps(e: Endpoint, p: Packet)
    ensures FirstNumber(SendSyn(e).0) == FirstNumber(e) && FirstNumber(OnSyn(e, p).0) == FirstNumber(e)
    ensures FirstNumber(OnSynAck(e, p).0) == FirstNumber(e) && FirstNumber(OnHandshakeAck(e, p).0) == FirstNumber(e)
  {
  }

  lemma {:induction false} RunBased(s: System, steps: seq<Step>)
    requires Inv(s) && Based(s.x) && Based(s.y)
    ensures Based(Run(s, steps).x) && Based(Run(s, steps).y)
  {
    hide Inv, DoX, Based;
    if steps != [] {
      var s1 := Run(s, steps[..|steps| - 1]);
      RunBased(s, steps[..|steps| - 1]);
      RunInv(s, steps[..|steps| - 1]);
      match steps[|steps| - 1]
      case ByX(act) => BasedX(s1, act);
      case ByY(act) =>
        InvFlip(s1);
        BasedX(Flip(s1), act);
    }
  }

  /** Every endpoint numbers its stream from its initial sequence number: two past it if active, one if passive. */
  lemma NumberedFromInitial(s: System)
    requires Reachable(s)
    ensures s.x.h.base == FirstNumber(s.x.e) && s.y.h.base == FirstNumber(s.y.e)
  {
    hide Inv, Run;
    var s0: System, steps :| Fresh(s0) && s == Run(s0, steps);
    FreshInv(s0);
    RunBased(s0, steps);
  }

  /** The first packet in a channel that is not an acknowledgement. */
  predicate LeadsChannel(c: seq<Packet>, i: nat) {
    i < |c| && !c[i].isAck && forall j :: 0 <= j < i ==> c[j].isAck
  }

  lemma {:induction false} FirstSegment(c: seq<Packet>, base: nat, p: nat, sent: nat, fin: bool, i: nat)
    requires Carries(c, base, p, sent, fin) && i < |c| && !c[i].isAck
    requires forall j :: 0 <= j < i ==> c[j].isAck
    ensures c[i].seqNum == Wrap(base + p)
  {
    if i > 0 {
      assert forall j :: 0 <= j < i - 1 ==> c[1..][j] == c[j + 1];
      FirstSegment(c[1..], base, p, sent, fin, i - 1);
    }
  }

  /**
   The byte after the SYN should be numbered one past it. In every run the first segment of an endpoint, as long as its
   peer has processed nothing, carries the number one past the initial one if and only if the endpoint is passive.
   */
  lemma FirstByteNumber(s: System, i: nat)
    requires Reachable(s) && s.x.e.phase == Loop && SeenPos(s.y) == 0
    requires LeadsChannel(s.xy, i)
    ensures s.xy[i].seqNum == Wrap(FirstNumber(s.x.e))
    ensures s.xy[i].seqNum == Wrap(s.x.e.isn + 1) <==> !s.x.e.isActive
  {
    hide Reachable, Inv, SeenPos, Wrap, LeadsChannel;
    ReachableInv(s);
    NumberedFromInitial(s);
    FirstInChannel(s, i);
    OnePast(s.x.e.isn);
  }

  lemma FirstInChannel(s: System, i: nat)
    requires Inv(s) && s.x.e.phase == Loop && SeenPos(s.y) == 0
    requires LeadsChannel(s.xy, i)
    ensures s.xy[i].seqNum == Wrap(s.x.h.base)
  {
    hide Inv, Carries, Live, SeenPos, Wrap, Sent;
    LiveCarries(s);
    LiveCases(s);
    var live := Live(s.x, s.y, s.xy);
    if live == s.xy {
      FirstSegment(s.xy, s.x.h.base, 0, Sent(s.x), s.x.h.finSent, i);
    } else {
      hide LeadsChannel;
      FirstSegmentFrom(s.xy, s.x.h.base, Sent(s.x), s.x.h.finSent, i);
    }
  }

  /** What the peer's loop will not read is an acknowledgement. */
  lemma LiveCases(s: System)
    requires Inv(s) && s.x.e.phase == Loop
    ensures var live := Live(s.x, s.y, s.xy);
            live == s.xy || (s.xy != [] && s.xy[0].isAck && live == s.xy[1..])
  {
    hide Core;
  }

  lemma FirstSegmentFrom(c: seq<Packet>, base: nat, sent: nat, fin: bool, i: nat)
    requires LeadsChannel(c, i) && c[0].isAck && Carries(c[1..], base, 0, sent, fin)
    ensures c[i].seqNum == Wrap(base)
  {
    hide Carries, Wrap;
    assert c[1..][i - 1] == c[i];
    assert forall j :: 0 <= j < i - 1 ==> c[1..][j] == c[j + 1];
    FirstSegment(c[1..], base, 0, sent, fin, i - 1);
  }

  /** One past and two past are different numbers. */
  lemma OnePast(isn: Seq32)
    ensures Wrap(isn + 1) != Wrap(isn + 2)
  {
  }

  /**
   A receiver should be able to take data together with a FIN. It queues the end marker first, so the application
   can read the data, and the acknowledgement covers them, exactly when there are none.
   */
  lemma FinWithData(e: Endpoint, p: Packet)
    requires p.isFin && !p.isAck && !PQ.Ended(e.appSend) && |p.payload| < MODULUS
    ensures PQ.Stream(ProcessPacket(e, p).0.appSend) == PQ.Stream(e.appSend) + Copied(p.payload) <==> p.payload == []
    ensures ProcessPacket(e, p).1[0].ackNum == Wrap(p.seqNum + |p.payload| + 1) <==> p.payload == []
  {
    var q := e.appSend + [[]];
    PQ.StreamAppend(e.appSend, []);
    PQ.StreamAppend(q, Copied(p.payload));
    if Wrap(p.seqNum + 1) == Wrap(p.seqNum + |p.payload| + 1) {
      WrapDecides(p.seqNum + 1, 0, |p.payload|);
    }
    assert PQ.Stream(e.appSend) + [] == PQ.Stream(e.appSend);
  }

  // ---- what the handshake refuses ----

  /**
   The active end, waiting for the SYN-ACK: any packet ends the wait and is acknowledged; the connection is refused
   exactly when it is not a SYN-ACK of the number after the SYN's, and then the number 1 is acknowledged.
   */
  lemma SynAckJudged(s: System)
    requires s.x.e.phase == AwaitSynAck && s.yx != []
    ensures var s', p := DoX(s, Handshake), s.yx[0];
            var good := p.isSyn && p.isAck && p.ackNum == s.x.e.cur;
            && s'.yx == s.yx[1..] && s'.x.e.phase == Loop && (s'.x.e.refused <==> !good)
            && s'.xy == s.xy + [Packet(s.x.e.cur, if good then Wrap(p.seqNum + 1) else 1, false, true, false, [])]
            && s'.x.e.cur == Wrap(s.x.e.cur + 1)
  {
    assert Wrap(0 + 1) == 1;
    hide Wrap;
  }

  /** The passive end, waiting for the SYN: the same, with any SYN accepted. */
  lemma SynJudged(s: System)
    requires s.x.e.phase == Begin && !s.x.e.isActive && s.yx != []
    ensures var s', p := DoX(s, Handshake), s.yx[0];
            && s'.yx == s.yx[1..] && s'.x.e.phase == AwaitAck && (s'.x.e.refused <==> !p.isSyn)
            && s'.xy == s.xy + [Packet(s.x.e.cur, if p.isSyn then Wrap(p.seqNum + 1) else 1, true, true, false, [])]
            && s'.x.e.cur == Wrap(s.x.e.cur + 1)
  {
    assert Wrap(0 + 1) == 1;
    hide Wrap;
  }
}
