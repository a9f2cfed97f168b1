/**
 The transport layer of TCP/src/transport1.c as it runs: a context whose fields are updated in place,
 proved to do what the functions of module Stcp say.
 */
module StcpContext {
  import opened Base
  import opened Stcp
  import PQ = PacketQueue

  class Context {
    const isActive: bool
    const isn: Seq32
    var phase: Phase
    var refused: bool
    var currentSequenceNum: Seq32
    var ackNum: Seq32
    var finAckSequenceNum: Seq32
    var connectionState: ConnState
    var done: bool
    var closeRequested: bool
    var appRecvQueue: seq<seq<byte>>
    var appSendQueue: seq<seq<byte>>
    var eof: bool
    var networkRecvQueue: seq<Packet>  // arrived packets
    var sent: seq<Packet>              // everything passed to stcp_network_send

    ghost function View(): Endpoint
      reads this
    {
      Endpoint(isActive, phase, refused, isn, currentSequenceNum, ackNum, finAckSequenceNum, connectionState,
               done, closeRequested, appRecvQueue, appSendQueue, eof)
    }

    ghost function Arrived(): Option<Packet>
      reads this
    {
      if networkRecvQueue == [] then None else Some(networkRecvQueue[0])
    }

    /** A fresh context; `generate_initial_seq_num` draws `isn` between 0 and 255. */
    constructor (isActive: bool, isn: nat)
      requires isn < 256
      ensures View() == Start(isActive, isn, 0).e && networkRecvQueue == [] && sent == []
    {
      this.isActive, this.isn := isActive, isn;
      phase, refused, currentSequenceNum, ackNum, finAckSequenceNum := Begin, false, isn, 0, 0;
      connectionState, done, closeRequested := Established, false, false;
      appRecvQueue, appSendQueue, eof, networkRecvQueue, sent := [], [], false, [], [];
    }

    // ---- transport_init, cut at its blocking receives ----

    method ActiveOpen()
      modifies this
      ensures View() == SendSyn(old(View())).0 && sent == old(sent) + SendSyn(old(View())).1
      ensures networkRecvQueue == old(networkRecvQueue)
    {
      var syn := SynPacket(isn);
      currentSequenceNum := Wrap(currentSequenceNum + 1);
      sent := sent + [syn];
      phase := AwaitSynAck;
    }

    method ReceiveSynAck()
      requires networkRecvQueue != []
      modifies this
      ensures View() == OnSynAck(old(View()), old(networkRecvQueue)[0]).0
      ensures sent == old(sent) + OnSynAck(old(View()), old(networkRecvQueue)[0]).1
      ensures networkRecvQueue == old(networkRecvQueue)[1..]
    {
      hide Wrap;
      var p := networkRecvQueue[0];
      networkRecvQueue := networkRecvQueue[1..];
      var oppSequenceNum: Seq32 := 0;
      refused := false;
      if p.isAck && p.isSyn && p.ackNum == currentSequenceNum {
        oppSequenceNum := p.seqNum;
      } else {
        refused := true;
      }
      var ack := HandshakeAck(currentSequenceNum, Wrap(oppSequenceNum + 1));
      currentSequenceNum := Wrap(currentSequenceNum + 1);
      sent := sent + [ack];
      connectionState := Established;
      phase := Loop;
    }

    method ReceiveSyn()
      requires networkRecvQueue != []
      modifies this
      ensures View() == OnSyn(old(View()), old(networkRecvQueue)[0]).0
      ensures sent == old(sent) + OnSyn(old(View()), old(networkRecvQueue)[0]).1
      ensures networkRecvQueue == old(networkRecvQueue)[1..]
    {
      hide Wrap;
      var p := networkRecvQueue[0];
      networkRecvQueue := networkRecvQueue[1..];
      var oppSequenceNum: Seq32 := 0;
      refused := false;
      if p.isSyn {
        oppSequenceNum := p.seqNum;
      } else {
        refused := true;
      }
      var synAck := SynAckPacket(currentSequenceNum, Wrap(oppSequenceNum + 1));
      currentSequenceNum := Wrap(currentSequenceNum + 1);
      sent := sent + [synAck];
      phase := AwaitAck;
    }

    method ReceiveHandshakeAck()
      requires networkRecvQueue != []
      modifies this
      ensures View() == OnHandshakeAck(old(View()), old(networkRecvQueue)[0]).0
      ensures sent == old(sent) && networkRecvQueue == old(networkRecvQueue)[1..]
    {
      networkRecvQueue := networkRecvQueue[1..];
      connectionState := Established;
      phase := Loop;
    }

    // ---- the application's calls ----

    method AppWrite(data: seq<byte>)
      modifies this`appRecvQueue
      ensures View() == old(View()).(appRecv := old(appRecvQueue) + [data])
    {
      appRecvQueue := appRecvQueue + [data];
    }

    /** Called when there is something to read; otherwise the call blocks or returns nothing. */
    method AppRead(maxLen: nat) returns (data: seq<byte>)
      requires appSendQueue != [] && !eof
      modifies this`appSendQueue, this`eof
      ensures data == PQ.Taken(old(appSendQueue), maxLen)
      ensures View() == old(View()).(appSend := PQ.Left(old(appSendQueue), maxLen), eof := data == [])
    {
      data := PQ.Taken(appSendQueue, maxLen);
      appSendQueue := PQ.Left(appSendQueue, maxLen);
      eof := data == [];
    }

    method AppClose()
      modifies this`closeRequested
      ensures View() == old(View()).(closeRequested := true)
    {
      closeRequested := true;
    }

    // ---- control_loop ----

    /** Called when some event is ready; otherwise the call blocks. */
    method WaitEvent() returns (ev: Events)
      modifies this`closeRequested
      ensures ev == WaitForEvent(old(View()), networkRecvQueue != [])
      ensures View() == Woken(old(View()), networkRecvQueue != [])
    {
      ev := Events(false, false, false);
      if appRecvQueue != [] {
        ev := ev.(appData := true);
      }
      if networkRecvQueue != [] {
        ev := ev.(networkData := true);
      }
      if closeRequested && appRecvQueue == [] {
        closeRequested := false;
        ev := ev.(closeRequested := true);
      }
    }

    method HandleAck(p: Packet)
      requires p.isAck
      modifies this`ackNum, this`connectionState
      ensures View() == ProcessPacket(old(View()), p).0 && ProcessPacket(old(View()), p).1 == []
    {
      ackNum := p.ackNum;
      if p.ackNum == finAckSequenceNum {
        if connectionState == FinWait1 {
          connectionState := FinWait2;
        }
      }
    }

    method HandleFin(p: Packet)
      requires !p.isAck && p.isFin
      modifies this`appSendQueue, this`connectionState, this`done, this`sent
      ensures View() == ProcessPacket(old(View()), p).0
      ensures sent == old(sent) + ProcessPacket(old(View()), p).1
    {
      assert p.payload == [] ==> Copied(p.payload) == [];
      hide Wrap, Copied;
      appSendQueue := appSendQueue + [[]];
      if |p.payload| > 0 {
        appSendQueue := AppSend(appSendQueue, Copied(p.payload));
      }
      sent := sent + [AckPacket(Wrap(p.seqNum + 1))];
      if connectionState == Established {
        connectionState := CloseWait;
      } else if connectionState == FinWait2 {
        connectionState := Closed;
        done := true;
      }
    }

    method HandleData(p: Packet)
      requires !p.isAck && !p.isFin
      modifies this`appSendQueue, this`sent
      ensures View() == ProcessPacket(old(View()), p).0
      ensures sent == old(sent) + ProcessPacket(old(View()), p).1
    {
      hide Wrap, Copied;
      appSendQueue := AppSend(appSendQueue, Copied(p.payload));
      sent := sent + [AckPacket(Wrap(p.seqNum + |p.payload|))];
    }

    method HandlePacket()
      requires networkRecvQueue != []
      modifies this
      ensures View() == ProcessPacket(old(View()), old(networkRecvQueue)[0]).0
      ensures sent == old(sent) + ProcessPacket(old(View()), old(networkRecvQueue)[0]).1
      ensures networkRecvQueue == old(networkRecvQueue)[1..]
    {
      hide ProcessPacket;
      var p := networkRecvQueue[0];
      networkRecvQueue := networkRecvQueue[1..];
      assert View() == old(View());
      if p.isAck {
        HandleAck(p);
      } else if p.isFin {
        HandleFin(p);
      } else {
        HandleData(p);
      }
    }

    /** Sends the data in segments of at most STCP_MSS bytes. */
    method SendInSegments(data: seq<byte>)
      modifies this`sent, this`currentSequenceNum
      ensures sent == old(sent) + Segments(old(currentSequenceNum), data)
      ensures currentSequenceNum == Wrap(old(currentSequenceNum) + |data|)
    {
      hide Segments, Wrap;
      var payload := data;
      while |payload| > 0
        invariant sent + Segments(currentSequenceNum, payload) == old(sent) + Segments(old(currentSequenceNum), data)
        invariant Wrap(currentSequenceNum + |payload|) == Wrap(old(currentSequenceNum) + |data|)
        decreases |payload|
      {
        var pktSize := if |payload| > STCP_MSS then STCP_MSS else |payload|;
        SegmentsStep(currentSequenceNum, payload, pktSize);
        WrapTwice(currentSequenceNum, pktSize, |payload| - pktSize);
        Concat(sent, [DataPacket(currentSequenceNum, payload[..pktSize])],
               Segments(Wrap(currentSequenceNum + pktSize), payload[pktSize..]));
        sent := sent + [DataPacket(currentSequenceNum, payload[..pktSize])];
        currentSequenceNum := Wrap(currentSequenceNum + pktSize);
        payload := payload[pktSize..];
      }
      SegmentsDone(currentSequenceNum);
      WrapTwice(currentSequenceNum, 0, 0);
    }

    method HandleAppData(ev: Events, window: int)
      requires ev.appData ==> appRecvQueue != []
      modifies this`sent, this`currentSequenceNum, this`appRecvQueue
      ensures View() == DataPart(old(View()), ev.appData, window).0
      ensures sent == old(sent) + DataPart(old(View()), ev.appData, window).1
    {
      hide Segments, Wrap;
      if ev.appData && window > 0 {
        var payload := PQ.Taken(appRecvQueue, window);
        appRecvQueue := PQ.Left(appRecvQueue, window);
        SendInSegments(payload);
      }
    }

    method HandleClose(ev: Events)
      modifies this`sent, this`currentSequenceNum, this`connectionState, this`done, this`finAckSequenceNum
      ensures View() == ClosePart(old(View()), ev.closeRequested).0
      ensures sent == old(sent) + ClosePart(old(View()), ev.closeRequested).1
    {
      hide Wrap;
      if ev.closeRequested {
        sent := sent + [FinPacket(currentSequenceNum)];
        currentSequenceNum := Wrap(currentSequenceNum + 1);
        if connectionState == Established {
          connectionState := FinWait1;
        } else {
          done := true;
          connectionState := Closed;
        }
        finAckSequenceNum := currentSequenceNum;
      }
    }

    /** One pass of the loop, entered when `stcp_wait_for_event` returns. */
    method LoopBody()
      requires Ready(View(), networkRecvQueue != [])
      modifies this
      ensures View() == Iteration(old(View()), old(Arrived())).0
      ensures sent == old(sent) + Iteration(old(View()), old(Arrived())).1
      ensures networkRecvQueue == if old(networkRecvQueue) == [] then [] else old(networkRecvQueue)[1..]
    {
      hide DataPart, ClosePart, ProcessPacket, Wrap, ToInt32;
      ghost var e, net, was := View(), Arrived(), sent;
      var ev := WaitEvent();
      ghost var e0 := View();
      var currentSenderWindow := ToInt32(Wrap(SENDER_WINDOW - Wrap(currentSequenceNum - ackNum)));
      assert currentSenderWindow == Window(e0);
      if ev.networkData {
        HandlePacket();
      }
      ghost var r1 := NetworkPart(e0, net);
      assert View() == r1.0 && sent == was + r1.1;
      assert View().appRecv == e0.appRecv by { KeepsAppRecv(e0, net); }
      HandleAppData(ev, currentSenderWindow);
      ghost var r2 := DataPart(r1.0, ev.appData, Window(e0));
      assert View() == r2.0 && sent == was + r1.1 + r2.1;
      HandleClose(ev);
      ghost var r3 := ClosePart(r2.0, ev.closeRequested);
      assert View() == r3.0 && sent == was + r1.1 + r2.1 + r3.1;
      assert was + r1.1 + r2.1 + r3.1 == was + (r1.1 + r2.1 + r3.1);
    }
  }

  lemma SegmentsStep(seqNum: Seq32, data: seq<byte>, n: nat)
    requires data != [] && n == Min(|data|, STCP_MSS)
    ensures Segments(seqNum, data) == [DataPacket(seqNum, data[..n])] + Segments(Wrap(seqNum + n), data[n..])
  {
  }

  lemma WrapTwice(n: Seq32, a: nat, b: nat)
    ensures Wrap(Wrap(n + a) + b) == Wrap(n + a + b)
    ensures Wrap(n) == n
  {
  }

  lemma SegmentsDone(seqNum: Seq32)
    ensures Segments(seqNum, []) == []
  {
  }

  lemma KeepsAppRecv(e: Endpoint, net: Option<Packet>)
    ensures NetworkPart(e, net).0.appRecv == e.appRecv
  {
  }
}
