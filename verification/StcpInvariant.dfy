/** The invariant of two STCP endpoints, and its preservation by every step. */
module StcpInvariant {
  import opened Base
  import opened Stcp
  import opened StcpStreams
  import PQ = PacketQueue

  function Unit(b: bool): nat { if b then 1 else 0 }

  /** Bytes of the own stream handed to the network. */
  function Sent(n: Node): int { |n.h.written| - |Flatten(n.e.appRecv)| }

  /** Positions of the own stream handed to the network. */
  function SentPos(n: Node): int { Sent(n) + Unit(n.h.finSent) }

  /** Positions of the peer's stream processed. */
  function SeenPos(n: Node): nat { |n.h.received| + Unit(n.h.finReceived) }

  /** What the code measures as unacknowledged; before the first acknowledgement it counts from 0. */
  function InFlight(n: Node): int {
    if n.h.ackSeen then SentPos(n) - n.h.acked else n.h.base + SentPos(n)
  }

  ghost predicate Numbers(n: Node) {
    && n.e.cur == Wrap(n.h.base + SentPos(n))
    && n.e.ackNum == (if n.h.ackSeen then Wrap(n.h.base + n.h.acked) else 0)
  }

  ghost predicate States(n: Node) {
    var (e, h) := (n.e, n.h);
    && (h.finSent <==> e.state == FinWait1 || e.state == FinWait2 || e.state == Closed)
    && (h.finSent ==> e.appRecv == [] && e.finAck == e.cur)
    && (e.state == Established ==> !h.finReceived)
    && (e.state == CloseWait || e.state == Closed ==> h.finReceived)
    && (e.done <==> e.state == Closed)
  }

  /** A close request is pending or has been turned into a FIN, never both. */
  predicate CloseOnce(n: Node) {
    && (n.h.closeCalled <==> n.e.closeRequested || n.h.finSent)
    && !(n.e.closeRequested && n.h.finSent)
  }

  /** What the application has read and can still read is what was received. */
  ghost predicate ReadSide(n: Node) {
    if n.e.eof then n.h.finReceived && n.h.read == n.h.received
    else
      && n.h.read + PQ.Stream(n.e.appSend) == n.h.received
      && (PQ.Ended(n.e.appSend) <==> n.h.finReceived)
  }

  ghost predicate Local(n: Node) {
    && n.h.base <= 257
    && 0 <= Sent(n)
    && (n.h.ackSeen <==> n.h.acked > 0)
    && InFlight(n) <= SENDER_WINDOW + Unit(n.h.finSent)
    && (n.e.phase == Loop ==> Numbers(n))
    && States(n)
    && ReadSide(n)
  }

  /** Conservation: delivered, in the channel, still queued. */
  ghost predicate Conserved(s: Node, d: Node, c: seq<Packet>) {
    d.h.received + (Payload(c) + Flatten(s.e.appRecv)) == s.h.written
  }

  /** The stream from `s` to `d`: segments in `c`, acknowledgements in `r`. */
  ghost predicate Direction(s: Node, d: Node, c: seq<Packet>, r: seq<Packet>) {
    && 0 <= Sent(s)
    && Carries(c, s.h.base, SeenPos(d), Sent(s), s.h.finSent)
    && Acknowledges(r, s.h.base, s.h.acked, SeenPos(d))
    && (d.h.finReceived ==> s.h.finSent && |d.h.received| == Sent(s))
    && (s.e.state == FinWait2 ==> s.h.acked == SentPos(s))
  }

  ghost predicate Core(x: Node, y: Node, xy: seq<Packet>, yx: seq<Packet>) {
    && Local(x) && Local(y)
    && Direction(x, y, xy, yx)
    && Direction(y, x, yx, xy)
    && Conserved(x, y, xy) && Conserved(y, x, yx)
  }

  // ---- the pieces of one iteration ----

  function Received(n: Node, p: Packet): Node {
    Node(ProcessPacket(n.e, p).0, Record(n.h, p))
  }

  function DataSent(n: Node, window: nat): Node
    requires n.e.appRecv != []
  {
    n.(e := SendAppData(n.e, window).0)
  }

  function FinSent(n: Node): Node {
    Node(SendFin(n.e).0, RecordFin(n.h, SendFin(n.e).0))
  }

  lemma WrapDifference(a: int, b: int)
    ensures Wrap(Wrap(a) - Wrap(b)) == Wrap(a - b)
  {
  }

  /** Equal numbers mean equal positions when fewer than 2^32 positions are in flight. */
  lemma WrapDecides(base: int, p: int, q: int)
    requires 0 <= q - p < MODULUS && Wrap(base + p) == Wrap(base + q)
    ensures p == q
  {
    assert q - p == Wrap((base + q) - (base + p));
  }

  lemma AdvanceEncodes(base: nat, a: nat, ack: Seq32)
    ensures Wrap(base + Advance(base, a, ack)) == ack
  {
    WrapAdd(ack - (base + a), base + a);
  }

  lemma AckBounds(x: Node, y: Node, xy: seq<Packet>, yx: seq<Packet>)
    requires Local(x) && Direction(x, y, xy, yx)
    ensures x.h.acked <= SeenPos(y) <= SentPos(x)
  {
    AcknowledgesBounds(yx, x.h.base, x.h.acked, SeenPos(y));
    CarriesBounds(xy, x.h.base, SeenPos(y), Sent(x), x.h.finSent);
  }

  lemma ReceiveAckBounds(x: Node, y: Node, xy: seq<Packet>, yx: seq<Packet>)
    requires Local(x) && Direction(x, y, xy, yx)
    requires yx != [] && yx[0].isAck
    ensures x.h.acked < Received(x, yx[0]).h.acked <= SeenPos(y) <= SentPos(x)
    ensures x.e.state != FinWait2
    ensures Acknowledges(yx[1..], x.h.base, Received(x, yx[0]).h.acked, SeenPos(y))
    ensures Wrap(x.h.base + Received(x, yx[0]).h.acked) == yx[0].ackNum
  {
    hide ReadSide, States;
    var a' := Advance(x.h.base, x.h.acked, yx[0].ackNum);
    AcknowledgesBounds(yx[1..], x.h.base, a', SeenPos(y));
    CarriesBounds(xy, x.h.base, SeenPos(y), Sent(x), x.h.finSent);
    AdvanceEncodes(x.h.base, x.h.acked, yx[0].ackNum);
  }

  lemma ReceiveAckOut(x: Node, y: Node, xy: seq<Packet>, yx: seq<Packet>)
    requires Local(x) && Direction(x, y, xy, yx) && x.e.phase == Loop && !x.e.done
    requires yx != [] && yx[0].isAck
    ensures Local(Received(x, yx[0])) && Direction(Received(x, yx[0]), y, xy, yx[1..])
    ensures InFlight(Received(x, yx[0])) <= InFlight(x)
  {
    hide Carries, Acknowledges, Advance, PQ.Stream;
    var x' := Received(x, yx[0]);
    ReceiveAckBounds(x, y, xy, yx);
    if x.e.state == FinWait1 && yx[0].ackNum == x.e.finAck {
      // the number decides the position, so the FIN itself has been acknowledged
      WrapDecides(x.h.base, x'.h.acked, SentPos(x));
    }
  }

  lemma ReceiveReadSide(x: Node, p: Packet)
    requires ReadSide(x) && !p.isAck && !x.h.finReceived
    requires if p.isFin then p.payload == [] else 1 <= |p.payload| <= STCP_MSS
    ensures ReadSide(Received(x, p))
  {
    CopiedWhole(p.payload);
    hide PQ.Stream, PQ.Ended, Copied, Wrap, OnFin;
    PQ.StreamAppend(x.e.appSend, p.payload);
    Concat(x.h.read, PQ.Stream(x.e.appSend), p.payload);
    assert x.h.received + [] == x.h.received;
  }

  lemma CopiedWhole(payload: seq<byte>)
    requires |payload| <= STCP_MSS
    ensures Copied(payload) == payload
  {
  }

  lemma ReceiveLocal(x: Node, p: Packet)
    requires Local(x) && x.e.phase == Loop && !x.e.done && !p.isAck && !x.h.finReceived
    requires if p.isFin then p.payload == [] else 1 <= |p.payload| <= STCP_MSS
    ensures Local(Received(x, p))
    ensures InFlight(Received(x, p)) == InFlight(x)
  {
    hide ReadSide;
    ReceiveReadSide(x, p);
  }

  /** The stream into x: the head segment is counted as seen and acknowledged. */
  lemma ReceiveIn(x: Node, y: Node, xy: seq<Packet>, yx: seq<Packet>)
    requires Local(y) && Direction(y, x, yx, xy)
    requires yx != [] && !yx[0].isAck
    ensures !x.h.finReceived
    ensures if yx[0].isFin then yx[0].payload == [] else 1 <= |yx[0].payload| <= STCP_MSS
    ensures Direction(y, Received(x, yx[0]), yx[1..], xy + ProcessPacket(x.e, yx[0]).1)
  {
    hide Local, Wrap, ReadSide;
    var p := yx[0];
    CarriesBounds(yx, y.h.base, SeenPos(x), Sent(y), y.h.finSent);
    if x.h.finReceived {
      assert false;
    }
    hide Carries, Acknowledges, Direction;
    ReceiveInParts(x, y, xy, yx);
  }

  /** The head segment of the stream into x. */
  lemma ReceiveInParts(x: Node, y: Node, xy: seq<Packet>, yx: seq<Packet>)
    requires Local(y) && Direction(y, x, yx, xy) && !x.h.finReceived
    requires yx != [] && !yx[0].isAck
    ensures if yx[0].isFin then yx[0].payload == [] else 1 <= |yx[0].payload| <= STCP_MSS
    ensures Direction(y, Received(x, yx[0]), yx[1..], xy + ProcessPacket(x.e, yx[0]).1)
  {
    var p := yx[0];
    hide Local, Wrap;
    assert p.isFin ==> p.payload == [];
    assert p.seqNum == Wrap(y.h.base + SeenPos(x));
    SegmentSeen(x, p);
    var x' := Received(x, p);
    var n := SeenPos(x') - SeenPos(x);
    assert Carries(yx[1..], y.h.base, SeenPos(x'), Sent(y), y.h.finSent);
    CarriesBounds(yx[1..], y.h.base, SeenPos(x'), Sent(y), y.h.finSent);
    hide Carries, ProcessPacket, Received;
    WrapAdd(y.h.base + SeenPos(x), n);
    AcknowledgesBounds(xy, y.h.base, y.h.acked, SeenPos(x));
    SeenWithinWindow(y, SeenPos(x'));
    AcknowledgesAppend(xy, AckPacket(Wrap(p.seqNum + n)), y.h.base, y.h.acked, SeenPos(x), SeenPos(x'));
  }

  /** What is not acknowledged fits the window, so far fewer than 2^32 positions. */
  lemma SeenWithinWindow(y: Node, p: nat)
    requires Local(y) && p <= SentPos(y)
    ensures p < y.h.acked + MODULUS
  {
    hide Numbers, States, ReadSide;
  }

  /** A segment moves the seen position by its length, which the acknowledgement counts. */
  lemma SegmentSeen(x: Node, p: Packet)
    requires !p.isAck && !x.h.finReceived && if p.isFin then p.payload == [] else 1 <= |p.payload| <= STCP_MSS
    ensures var n := if p.isFin then 1 else |p.payload|;
            && SeenPos(Received(x, p)) == SeenPos(x) + n
            && |Received(x, p).h.received| == |x.h.received| + |p.payload|
            && Received(x, p).h.finReceived == p.isFin
            && ProcessPacket(x.e, p).1 == [AckPacket(Wrap(p.seqNum + n))]
  {
    CopiedWhole(p.payload);
    hide Copied, Wrap, AppSend, OnFin;
  }

  /** The stream out of x is only joined by an acknowledgement. */
  lemma ReceiveOut(x: Node, y: Node, xy: seq<Packet>, yx: seq<Packet>)
    requires Local(x) && Direction(x, y, xy, yx)
    requires yx != [] && !yx[0].isAck
    requires Local(Received(x, yx[0]))
    ensures Direction(Received(x, yx[0]), y, xy + ProcessPacket(x.e, yx[0]).1, yx[1..])
  {
    var ack := ProcessPacket(x.e, yx[0]).1[0];
    assert ProcessPacket(x.e, yx[0]).1 == [ack];
    CarriesAppendAck(xy, ack, x.h.base, SeenPos(y), Sent(x), x.h.finSent);
  }

  /** No byte is lost or made up when x takes the head packet. */
  lemma ReceiveConserves(x: Node, y: Node, xy: seq<Packet>, yx: seq<Packet>)
    requires yx != [] && Conserved(x, y, xy) && Conserved(y, x, yx)
    requires !yx[0].isAck ==> |yx[0].payload| <= STCP_MSS && (yx[0].isFin ==> yx[0].payload == [])
    ensures Conserved(Received(x, yx[0]), y, xy + ProcessPacket(x.e, yx[0]).1)
    ensures Conserved(y, Received(x, yx[0]), yx[1..])
  {
    var p := yx[0];
    var x', out := Received(x, p), ProcessPacket(x.e, p).1;
    var bytes := if p.isAck then [] else p.payload;
    assert Payload(yx) == bytes + Payload(yx[1..]);
    ReceiveBytes(x, p);
    hide Received, ProcessPacket, Payload;
    PayloadAppend(xy, out);
    assert Payload(xy) + [] == Payload(xy);
    Concat(bytes, Payload(yx[1..]), Flatten(y.e.appRecv));
    Concat(x.h.received, bytes, Payload(yx[1..]) + Flatten(y.e.appRecv));
  }

  /** What processing a packet adds to the bytes received; what is sent back carries none. */
  lemma ReceiveBytes(x: Node, p: Packet)
    requires !p.isAck ==> |p.payload| <= STCP_MSS && (p.isFin ==> p.payload == [])
    ensures var x' := Received(x, p);
            && x'.e.appRecv == x.e.appRecv && x'.h.written == x.h.written
            && x'.h.received == x.h.received + (if p.isAck then [] else p.payload)
    ensures Payload(ProcessPacket(x.e, p).1) == []
  {
    CopiedWhole(if p.isAck then [] else p.payload);
    hide Copied, Wrap, AppSend, OnFin, Advance;
    assert x.h.received + [] == x.h.received;
  }

  /** Processing one packet from the channel keeps the invariant and never raises what is in flight. */
  lemma Receive(x: Node, y: Node, xy: seq<Packet>, yx: seq<Packet>)
    requires Core(x, y, xy, yx) && x.e.phase == Loop && !x.e.done && yx != []
    ensures Core(Received(x, yx[0]), y, xy + ProcessPacket(x.e, yx[0]).1, yx[1..])
    ensures InFlight(Received(x, yx[0])) <= InFlight(x)
  {
    hide Local, Conserved, InFlight;
    if yx[0].isAck {
      ReceiveAckOut(x, y, xy, yx);
      assert xy + [] == xy;
    } else {
      ReceiveIn(x, y, xy, yx);
      ReceiveLocal(x, yx[0]);
      ReceiveOut(x, y, xy, yx);
    }
    ReceiveConserves(x, y, xy, yx);
  }

  /** The stream into x does not notice segments that x sends. */
  lemma SendIn(x: Node, x': Node, y: Node, xy: seq<Packet>, yx: seq<Packet>, out: seq<Packet>)
    requires Local(y) && Direction(y, x, yx, xy)
    requires x'.h.received == x.h.received && x'.h.finReceived == x.h.finReceived
    requires forall i :: 0 <= i < |out| ==> !out[i].isAck
    ensures Direction(y, x', yx, xy + out)
  {
    AcknowledgesAppendOther(xy, out, y.h.base, y.h.acked, SeenPos(x));
  }

  lemma SendDataLocal(x: Node, window: nat)
    requires Local(x) && x.e.phase == Loop
    requires x.e.appRecv != [] && window <= SENDER_WINDOW - InFlight(x)
    ensures Local(DataSent(x, window)) && !x.h.finSent
    ensures Sent(DataSent(x, window)) == Sent(x) + |PQ.Taken(x.e.appRecv, window)|
  {
    PQ.TakeFlatten(x.e.appRecv, window);
    WrapAdd(x.h.base + Sent(x), |PQ.Taken(x.e.appRecv, window)|);
  }

  lemma SendDataOut(x: Node, y: Node, xy: seq<Packet>, yx: seq<Packet>, window: nat)
    requires Local(x) && Direction(x, y, xy, yx) && x.e.phase == Loop
    requires x.e.appRecv != [] && !x.h.finSent
    requires Sent(DataSent(x, window)) == Sent(x) + |PQ.Taken(x.e.appRecv, window)|
    ensures Direction(DataSent(x, window), y, xy + SendAppData(x.e, window).1, yx)
  {
    hide Carries, Acknowledges, ReadSide, Wrap, Segments, PQ.Taken, PQ.Left, Flatten;
    var data := PQ.Taken(x.e.appRecv, window);
    SegmentsCarry(x.h.base, Sent(x), data);
    CarriesAppend(xy, Segments(x.e.cur, data), x.h.base, SeenPos(y), Sent(x), Sent(x) + |data|, false);
  }

  lemma SendDataConserves(x: Node, y: Node, xy: seq<Packet>, window: nat)
    requires Conserved(x, y, xy) && x.e.appRecv != [] && x.e.cur == Wrap(x.h.base + Sent(x)) && 0 <= Sent(x)
    ensures Conserved(DataSent(x, window), y, xy + SendAppData(x.e, window).1)
  {
    var data := PQ.Taken(x.e.appRecv, window);
    var out := Segments(x.e.cur, data);
    SegmentsCarry(x.h.base, Sent(x), data);
    PayloadAppend(xy, out);
    PQ.TakeFlatten(x.e.appRecv, window);
    Concat(Payload(xy), data, Flatten(PQ.Left(x.e.appRecv, window)));
  }

  lemma SendData(x: Node, y: Node, xy: seq<Packet>, yx: seq<Packet>, window: nat)
    requires Core(x, y, xy, yx) && x.e.phase == Loop
    requires x.e.appRecv != [] && window <= SENDER_WINDOW - InFlight(x)
    ensures Core(DataSent(x, window), y, xy + SendAppData(x.e, window).1, yx)
  {
    hide Local, InFlight, Direction, Conserved, Segments, Wrap, PQ.Taken, PQ.Left;
    SendDataLocal(x, window);
    NextNumber(x);
    ConservedFrame(y, x, DataSent(x, window), yx);
    SendDataOut(x, y, xy, yx, window);
    SegmentsCarry(x.h.base, Sent(x), PQ.Taken(x.e.appRecv, window));
    SendIn(x, DataSent(x, window), y, xy, yx, SendAppData(x.e, window).1);
    SendDataConserves(x, y, xy, window);
  }

  lemma ConservedFrame(s: Node, d: Node, d': Node, c: seq<Packet>)
    requires Conserved(s, d, c) && d'.h == d.h
    ensures Conserved(s, d', c)
  {
  }

  lemma NextNumber(x: Node)
    requires Local(x) && x.e.phase == Loop && !x.h.finSent
    ensures 0 <= Sent(x) && x.e.cur == Wrap(x.h.base + Sent(x))
  {
    hide ReadSide, States, Wrap;
  }

  lemma SendFinLocal(x: Node)
    requires Local(x) && x.e.phase == Loop && !x.e.done
    requires x.e.appRecv == [] && !x.h.finSent
    ensures Local(FinSent(x))
  {
    WrapAdd(x.h.base + Sent(x), 1);
  }

  lemma SendFinOut(x: Node, y: Node, xy: seq<Packet>, yx: seq<Packet>)
    requires Local(x) && Direction(x, y, xy, yx) && x.e.phase == Loop && !x.h.finSent
    ensures Direction(FinSent(x), y, xy + SendFin(x.e).1, yx)
  {
    var fin := FinPacket(x.e.cur);
    assert Carries([fin], x.h.base, Sent(x), Sent(x), true) by {
      assert [fin][1..] == [];
    }
    CarriesAppend(xy, [fin], x.h.base, SeenPos(y), Sent(x), Sent(x), true);
  }

  lemma SendTheFin(x: Node, y: Node, xy: seq<Packet>, yx: seq<Packet>)
    requires Core(x, y, xy, yx) && x.e.phase == Loop && !x.e.done
    requires x.e.appRecv == [] && !x.h.finSent
    ensures Core(FinSent(x), y, xy + SendFin(x.e).1, yx)
  {
    SendFinLocal(x);
    SendFinOut(x, y, xy, yx);
    SendIn(x, FinSent(x), y, xy, yx, SendFin(x.e).1);
    PayloadAppend(xy, SendFin(x.e).1);
    assert Payload(SendFin(x.e).1) == [];
  }

  // ---- the whole iteration ----

  /** The window the code computes is exact: wrapping and conversion to `int` lose nothing. */
  lemma WindowExact(n: Node)
    requires Local(n) && n.e.phase == Loop && n.h.acked <= SentPos(n)
    ensures Window(n.e) == SENDER_WINDOW - InFlight(n)
    ensures -1 <= Window(n.e) <= SENDER_WINDOW
  {
    WindowArithmetic(n.e, n.h.base + SentPos(n), if n.h.ackSeen then n.h.base + n.h.acked else 0);
  }

  lemma WindowArithmetic(e: Endpoint, c: int, a: int)
    requires e.cur == Wrap(c) && e.ackNum == Wrap(a) && 0 <= c - a <= SENDER_WINDOW + 1
    ensures Window(e) == SENDER_WINDOW - (c - a)
  {
    WrapDifference(c, a);
    assert Wrap(c - a) == c - a;
  }

  function Iterated(n: Node, net: Option<Packet>): Node {
    Node(Iteration(n.e, net).0,
         var h1 := if net.Some? then Record(n.h, net.value) else n.h;
         if WaitForEvent(n.e, net.Some?).closeRequested then RecordFin(h1, Iteration(n.e, net).0) else h1)
  }

  lemma ReceivePart(x: Node, y: Node, xy: seq<Packet>, yx: seq<Packet>, arrived: bool)
    requires Core(x, y, xy, yx) && x.e.phase == Loop && !x.e.done && (arrived ==> yx != [])
    ensures var net := if arrived then Some(yx[0]) else None;
            var x1 := if arrived then Received(x, yx[0]) else x;
            && x1.e == NetworkPart(x.e, net).0
            && Core(x1, y, xy + NetworkPart(x.e, net).1, if arrived then yx[1..] else yx)
            && InFlight(x1) <= InFlight(x)
  {
    if arrived {
      Receive(x, y, xy, yx);
    } else {
      assert xy + [] == xy;
    }
  }

  lemma DataPartCore(x: Node, y: Node, xy: seq<Packet>, yx: seq<Packet>, window: int)
    requires Core(x, y, xy, yx) && x.e.phase == Loop && window <= SENDER_WINDOW - InFlight(x)
    ensures var r := DataPart(x.e, x.e.appRecv != [], window);
            Core(x.(e := r.0), y, xy + r.1, yx)
  {
    if x.e.appRecv != [] && window > 0 {
      SendData(x, y, xy, yx, window);
    } else {
      assert xy + [] == xy;
    }
  }

  lemma ClosePartCore(x: Node, y: Node, xy: seq<Packet>, yx: seq<Packet>, close: bool)
    requires Core(x, y, xy, yx) && x.e.phase == Loop
    requires close ==> x.e.appRecv == [] && !x.h.finSent
    ensures var r := ClosePart(x.e, close);
            Core(Node(r.0, if close then RecordFin(x.h, r.0) else x.h), y, xy + r.1, yx)
  {
    if close {
      SendTheFin(x, y, xy, yx);
    } else {
      assert xy + [] == xy;
    }
  }

  predicate SameIdentity(e: Endpoint, f: Endpoint) {
    && e.isActive == f.isActive && e.refused == f.refused && e.phase == f.phase && e.isn == f.isn
    && e.closeRequested == f.closeRequested
  }

  lemma ProcessKeeps(e: Endpoint, p: Packet)
    ensures ProcessPacket(e, p).0.appRecv == e.appRecv && SameIdentity(ProcessPacket(e, p).0, e)
  {
    hide Copied, Wrap;
  }

  /** The parts of an iteration leave alone what the later parts depend on. */
  lemma NetworkKeeps(n: Node, net: Option<Packet>)
    ensures var n1 := if net.Some? then Received(n, net.value) else n;
            && n1.e == NetworkPart(n.e, net).0
            && n1.e.appRecv == n.e.appRecv && SameIdentity(n1.e, n.e)
            && n1.h.finSent == n.h.finSent && n1.h.closeCalled == n.h.closeCalled && n1.h.base == n.h.base
  {
    hide ProcessPacket, Copied, Advance;
    if net.Some? {
      ProcessKeeps(n.e, net.value);
    }
  }

  lemma DataKeeps(e: Endpoint, appData: bool, window: int)
    requires appData ==> e.appRecv != []
    ensures SameIdentity(DataPart(e, appData, window).0, e)
  {
    hide Segments, Wrap;
  }

  lemma WokenCore(x: Node, y: Node, xy: seq<Packet>, yx: seq<Packet>, arrived: bool)
    requires Core(x, y, xy, yx)
    ensures Core(x.(e := Woken(x.e, arrived)), y, xy, yx)
  {
    hide Carries, Acknowledges, Payload, Wrap, PQ.Stream;
    var x0 := x.(e := Woken(x.e, arrived));
    assert Local(x0);
    assert Direction(x0, y, xy, yx) && Direction(y, x0, yx, xy);
    assert Conserved(x0, y, xy) && Conserved(y, x0, yx);
  }

  lemma CoreWindow(x: Node, y: Node, xy: seq<Packet>, yx: seq<Packet>)
    requires Core(x, y, xy, yx) && x.e.phase == Loop
    ensures x.h.acked <= SeenPos(y) <= SentPos(x)
    ensures Window(x.e) == SENDER_WINDOW - InFlight(x) && -1 <= Window(x.e) <= SENDER_WINDOW
  {
    AckBounds(x, y, xy, yx);
    WindowExact(x);
  }

  /** One iteration of the loop keeps the invariant. */
  lemma IterateCore(x: Node, y: Node, xy: seq<Packet>, yx: seq<Packet>, arrived: bool)
    requires Core(x, y, xy, yx) && CloseOnce(x) && (arrived ==> yx != []) && x.e.phase == Loop && !x.e.done
    ensures var net := if arrived then Some(yx[0]) else None;
            Core(Iterated(x, net), y, xy + Iteration(x.e, net).1, if arrived then yx[1..] else yx)
  {
    hide Core, Window, InFlight, ProcessPacket, SendAppData, SendFin, Record;
    var net := if arrived then Some(yx[0]) else None;
    var yx' := if arrived then yx[1..] else yx;
    var ev := WaitForEvent(x.e, arrived);
    var x0 := x.(e := Woken(x.e, arrived));
    WokenCore(x, y, xy, yx, arrived);
    CoreWindow(x0, y, xy, yx);
    var r1 := NetworkPart(x0.e, net);
    var x1 := if arrived then Received(x0, yx[0]) else x0;
    ReceivePart(x0, y, xy, yx, arrived);
    NetworkKeeps(x0, net);
    var r2 := DataPart(x1.e, ev.appData, Window(x0.e));
    DataPartCore(x1, y, xy + r1.1, yx', Window(x0.e));
    var x2 := x1.(e := r2.0);
    assert ev.closeRequested ==> r2 == (x1.e, []);
    DataKeeps(x1.e, ev.appData, Window(x0.e));
    ClosePartCore(x2, y, xy + r1.1 + r2.1, yx', ev.closeRequested);
    var r3 := ClosePart(x2.e, ev.closeRequested);
    assert xy + (r1.1 + r2.1 + r3.1) == xy + r1.1 + r2.1 + r3.1;
  }
}
