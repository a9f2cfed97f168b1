/**
 The STCP endpoint of TCP/src/transport1.c over the interfaces of TCP/src/stcp_api.c, as functions on
 values, and the system of two such endpoints joined by reliable first-in first-out channels.
 */
module Stcp {
  import opened Base
  import PQ = PacketQueue

  const MODULUS: int := 0x1_0000_0000
  const SENDER_WINDOW: int := 3072
  const STCP_MSS: int := 536

  /** `tcp_seq`: sequence numbers live modulo 2^32. */
  type Seq32 = x: int | 0 <= x < 0x1_0000_0000

  function Wrap(x: int): Seq32 { x % MODULUS }

  /** Conversion of an unsigned 32-bit value to `int`. */
  function ToInt32(x: Seq32): int { if x < 0x8000_0000 then x else x - MODULUS }

  /** The header fields the transport layer uses, and the payload. */
  datatype Packet = Packet(seqNum: Seq32, ackNum: Seq32, isSyn: bool, isAck: bool, isFin: bool, payload: seq<byte>)

  function SynPacket(n: Seq32): Packet { Packet(n, 0, true, false, false, []) }
  function SynAckPacket(n: Seq32, a: Seq32): Packet { Packet(n, a, true, true, false, []) }
  function HandshakeAck(n: Seq32, a: Seq32): Packet { Packet(n, a, false, true, false, []) }
  function AckPacket(a: Seq32): Packet { Packet(0, a, false, true, false, []) }
  function FinPacket(n: Seq32): Packet { Packet(n, 0, false, false, true, []) }
  function DataPacket(n: Seq32, data: seq<byte>): Packet { Packet(n, 0, false, false, false, data) }

  /** Where `transport_init` stands: not begun, blocked on a handshake packet, or in `control_loop`. */
  datatype Phase = Begin | AwaitSynAck | AwaitAck | Loop

  datatype ConnState = Established | FinWait1 | FinWait2 | CloseWait | Closed

  /** `context_t` together with the socket fields it works on. */
  datatype Endpoint = Endpoint(
    isActive: bool,
    phase: Phase,
    refused: bool,                 // errno set to ECONNREFUSED during the handshake
    isn: Seq32,
    cur: Seq32,                    // current_sequence_num
    ackNum: Seq32,
    finAck: Seq32,                 // fin_ack_sequence_num
    state: ConnState,
    done: bool,
    closeRequested: bool,
    appRecv: seq<seq<byte>>,       // written by the application, not yet sent
    appSend: seq<seq<byte>>,       // received from the peer, not yet read
    eof: bool)

  // ---- the handshake ----

  function SendSyn(e: Endpoint): (Endpoint, seq<Packet>) {
    (e.(cur := Wrap(e.cur + 1), phase := AwaitSynAck), [SynPacket(e.isn)])
  }

  function OnSynAck(e: Endpoint, p: Packet): (Endpoint, seq<Packet>) {
    var ok := p.isAck && p.isSyn && p.ackNum == e.cur;
    var opp := if ok then p.seqNum else 0;
    (e.(refused := !ok, cur := Wrap(e.cur + 1), phase := Loop, state := Established),
     [HandshakeAck(e.cur, Wrap(opp + 1))])
  }

  function OnSyn(e: Endpoint, p: Packet): (Endpoint, seq<Packet>) {
    var opp := if p.isSyn then p.seqNum else 0;
    (e.(refused := !p.isSyn, cur := Wrap(e.cur + 1), phase := AwaitAck),
     [SynAckPacket(e.cur, Wrap(opp + 1))])
  }

  /** The outcome of the check on the third message only sets fields that are never read. */
  function OnHandshakeAck(e: Endpoint, p: Packet): (Endpoint, seq<Packet>) {
    (e.(phase := Loop, state := Established), [])
  }

  // ---- one iteration of control_loop ----

  datatype Events = Events(appData: bool, networkData: bool, closeRequested: bool)

  /** `stcp_wait_for_event`, given whether a packet has arrived. */
  function WaitForEvent(e: Endpoint, arrived: bool): Events {
    Events(e.appRecv != [], arrived, e.closeRequested && e.appRecv == [])
  }

  /** `current_sender_window`: unsigned subtraction, then conversion to `int`. */
  function Window(e: Endpoint): int {
    ToInt32(Wrap(SENDER_WINDOW - Wrap(e.cur - e.ackNum)))
  }

  /** The copy that a receive into STCP_MSS + 20 bytes makes of a payload. */
  function Copied(payload: seq<byte>): seq<byte> {
    payload[..Min(|payload|, STCP_MSS)]
  }

  /** `stcp_app_send` drops empty buffers. */
  function AppSend(q: seq<seq<byte>>, data: seq<byte>): seq<seq<byte>> {
    if data == [] then q else q + [data]
  }

  /** The reaction of the connection state to a FIN from the peer. */
  function OnFin(s: ConnState): ConnState {
    match s
    case Established => CloseWait
    case FinWait2 => Closed
    case _ => s
  }

  function ProcessPacket(e: Endpoint, p: Packet): (Endpoint, seq<Packet>) {
    if p.isAck then
      (e.(ackNum := p.ackNum,
          state := if p.ackNum == e.finAck && e.state == FinWait1 then FinWait2 else e.state),
       [])
    else if p.isFin then
      (e.(appSend := AppSend(e.appSend + [[]], Copied(p.payload)),
          state := OnFin(e.state),
          done := e.done || e.state == FinWait2),
       [AckPacket(Wrap(p.seqNum + 1))])
    else
      (e.(appSend := AppSend(e.appSend, Copied(p.payload))),
       [AckPacket(Wrap(p.seqNum + |p.payload|))])
  }

  /** The segmentation loop. */
  function Segments(seqNum: Seq32, data: seq<byte>): seq<Packet>
    decreases |data|
  {
    if data == [] then []
    else
      var n := Min(|data|, STCP_MSS);
      [DataPacket(seqNum, data[..n])] + Segments(Wrap(seqNum + n), data[n..])
  }

  function SendAppData(e: Endpoint, window: nat): (Endpoint, seq<Packet>)
    requires e.appRecv != []
  {
    var data := PQ.Taken(e.appRecv, window);
    (e.(appRecv := PQ.Left(e.appRecv, window), cur := Wrap(e.cur + |data|)), Segments(e.cur, data))
  }

  function SendFin(e: Endpoint): (Endpoint, seq<Packet>) {
    (e.(cur := Wrap(e.cur + 1), finAck := Wrap(e.cur + 1),
        state := if e.state == Established then FinWait1 else Closed,
        done := e.done || e.state != Established),
     [FinPacket(e.cur)])
  }

  function NetworkPart(e: Endpoint, net: Option<Packet>): (Endpoint, seq<Packet>) {
    if net.Some? then ProcessPacket(e, net.value) else (e, [])
  }

  function DataPart(e: Endpoint, appData: bool, window: int): (Endpoint, seq<Packet>)
    requires appData ==> e.appRecv != []
  {
    if appData && window > 0 then SendAppData(e, window) else (e, [])
  }

  function ClosePart(e: Endpoint, closeRequested: bool): (Endpoint, seq<Packet>) {
    if closeRequested then SendFin(e) else (e, [])
  }

  /** The wait clears a close request as it reports it. */
  function Woken(e: Endpoint, arrived: bool): Endpoint {
    if WaitForEvent(e, arrived).closeRequested then e.(closeRequested := false) else e
  }

  /** One pass of the loop: the window is computed before the packet is read. */
  function Iteration(e: Endpoint, net: Option<Packet>): (Endpoint, seq<Packet>) {
    var ev := WaitForEvent(e, net.Some?);
    var e0 := Woken(e, net.Some?);
    var r1 := NetworkPart(e0, net);
    var r2 := DataPart(r1.0, ev.appData, Window(e0));
    var r3 := ClosePart(r2.0, ev.closeRequested);
    (r3.0, r1.1 + r2.1 + r3.1)
  }

  predicate Ready(e: Endpoint, arrived: bool) {
    var ev := WaitForEvent(e, arrived);
    e.phase == Loop && !e.done && (ev.appData || ev.networkData || ev.closeRequested)
  }

  // ---- two endpoints ----

  /**
   What has happened to an endpoint so far. No step of the endpoint depends on it: it is there to state
   properties, and `closeCalled` to say that the application stops using a socket once it closes it.
   `base` is the sequence number of the first byte; `acked` counts the bytes (and FIN) of the own
   stream covered by the last acknowledgement processed, if `ackSeen`; `finFirst` says that the FIN was
   sent in the established state, before the peer's FIN was seen.
   */
  datatype History = History(
    base: nat,
    written: seq<byte>,
    received: seq<byte>,
    read: seq<byte>,
    finSent: bool,
    finFirst: bool,
    finReceived: bool,
    closeCalled: bool,
    ackSeen: bool,
    acked: nat)

  datatype Node = Node(e: Endpoint, h: History)

  /** `xy` holds the packets sent by x that y has not processed yet, oldest first. */
  datatype System = System(x: Node, y: Node, xy: seq<Packet>, yx: seq<Packet>)

  datatype Action =
    | Handshake
    | Iterate(arrived: bool)
    | Write(data: seq<byte>)
    | Read(maxLen: nat)
    | Close

  datatype Step = ByX(act: Action) | ByY(act: Action)

  function Flip(s: System): System { System(s.y, s.x, s.yx, s.xy) }

  /** The stream position an acknowledgement number stands for, at or after position `a`. */
  function Advance(base: nat, a: nat, ack: Seq32): nat {
    a + Wrap(ack - (base + a))
  }

  function Record(h: History, p: Packet): History {
    if p.isAck then h.(ackSeen := true, acked := Advance(h.base, h.acked, p.ackNum))
    else if p.isFin then h.(finReceived := true)
    else h.(received := h.received + Copied(p.payload))
  }

  /** The FIN has been sent; `e` is the endpoint after that. */
  function RecordFin(h: History, e: Endpoint): History {
    h.(finSent := true, finFirst := e.state == FinWait1)
  }

  function HandshakeStep(s: System): System {
    var e := s.x.e;
    match e.phase
    case Begin =>
      if e.isActive then
        var (e', out) := SendSyn(e);
        s.(x := s.x.(e := e'), xy := s.xy + out)
      else if s.yx == [] then s
      else
        var (e', out) := OnSyn(e, s.yx[0]);
        s.(x := s.x.(e := e'), xy := s.xy + out, yx := s.yx[1..])
    case AwaitSynAck =>
      if s.yx == [] then s
      else
        var (e', out) := OnSynAck(e, s.yx[0]);
        s.(x := s.x.(e := e'), xy := s.xy + out, yx := s.yx[1..])
    case AwaitAck =>
      if s.yx == [] then s
      else
        var (e', out) := OnHandshakeAck(e, s.yx[0]);
        s.(x := s.x.(e := e'), xy := s.xy + out, yx := s.yx[1..])
    case Loop => s
  }

  function LoopStep(s: System, arrived: bool): System
    requires arrived ==> s.yx != []
  {
    var net := if arrived then Some(s.yx[0]) else None;
    var (e', out) := Iteration(s.x.e, net);
    var h1 := if arrived then Record(s.x.h, s.yx[0]) else s.x.h;
    var h2 := if WaitForEvent(s.x.e, arrived).closeRequested then RecordFin(h1, e') else h1;
    s.(x := Node(e', h2), xy := s.xy + out, yx := if arrived then s.yx[1..] else s.yx)
  }

  /** The application runs once the connection is up, and stops using the socket at `myclose`. */
  predicate AppActive(n: Node) {
    n.e.phase == Loop && !n.h.closeCalled
  }

  function ReadStep(n: Node, maxLen: nat): Node
    requires n.e.appSend != [] && !n.e.eof
  {
    var data := PQ.Taken(n.e.appSend, maxLen);
    Node(n.e.(appSend := PQ.Left(n.e.appSend, maxLen), eof := data == []), n.h.(read := n.h.read + data))
  }

  /** A step by x; a step that cannot be taken (a blocked call, a finished endpoint) changes nothing. */
  function DoX(s: System, act: Action): System {
    match act
    case Handshake => HandshakeStep(s)
    case Iterate(arrived) =>
      if (arrived ==> s.yx != []) && Ready(s.x.e, arrived) then LoopStep(s, arrived) else s
    case Write(data) =>
      if AppActive(s.x) then
        s.(x := Node(s.x.e.(appRecv := s.x.e.appRecv + [data]), s.x.h.(written := s.x.h.written + data)))
      else s
    case Read(n) =>
      if AppActive(s.x) && n > 0 && s.x.e.appSend != [] && !s.x.e.eof then s.(x := ReadStep(s.x, n)) else s
    case Close =>
      if AppActive(s.x) then
        s.(x := Node(s.x.e.(closeRequested := true), s.x.h.(closeCalled := true)))
      else s
  }

  function Do(s: System, step: Step): System {
    match step
    case ByX(act) => DoX(s, act)
    case ByY(act) => Flip(DoX(Flip(s), act))
  }

  function Run(s: System, steps: seq<Step>): System {
    if steps == [] then s else Do(Run(s, steps[..|steps| - 1]), steps[|steps| - 1])
  }

  /** A connection attempt: x active, y passive, initial sequence numbers between 0 and 255. */
  function Initial(isnX: nat, isnY: nat): System
    requires isnX < 256 && isnY < 256
  {
    System(Start(true, isnX, isnX + 2), Start(false, isnY, isnY + 1), [], [])
  }

  function Start(isActive: bool, isn: nat, base: nat): Node
    requires isn < 256
  {
    Node(Endpoint(isActive, Begin, false, isn, isn, 0, 0, Established, false, false, [], [], false),
         History(base, [], [], [], false, false, false, false, false, 0))
  }
}
