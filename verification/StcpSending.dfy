/** How much one iteration of the loop sends, told from the packets and the queue alone. */
module StcpSending {
  import opened Base
  import opened Stcp
  import opened StcpStreams
  import opened StcpInvariant
  import opened StcpTheorems
  import StcpProtocol
  import PQ = PacketQueue

  /** Positions sent and not acknowledged, as the code counts them modulo 2^32. */
  function Unacked(e: Endpoint): nat { (e.cur - e.ackNum) % 0x1_0000_0000 }

  /** Every packet that carries data is full but the last, and is numbered on from `cur`. */
  predicate Packed(out: seq<Packet>, cur: Seq32) {
    forall i :: 0 <= i < |out| && !out[i].isAck ==>
      && |out[i].payload| <= 536
      && (i + 1 < |out| ==> |out[i].payload| == 536)
      && out[i].seqNum == (cur + |Payload(out[..i])|) % 0x1_0000_0000
  }

  lemma {:induction false} SegmentsPacked(cur: Seq32, data: seq<byte>)
    ensures Payload(Segments(cur, data)) == data && Packed(Segments(cur, data), cur)
    decreases |data|
  {
    if data == [] {
    } else {
      var n := Min(|data|, STCP_MSS);
      var first, rest := DataPacket(cur, data[..n]), Segments(Wrap(cur + n), data[n..]);
      SegmentsPacked(Wrap(cur + n), data[n..]);
      assert Segments(cur, data) == [first] + rest;
      assert |data| > STCP_MSS ==> n == 536;
      assert data[n..] == [] ==> rest == [];
      hide Segments;
      PackedCons(first, rest, cur, n);
      Cons(first, rest);
      SplitAt(data, n);
    }
  }

  lemma PackedCons(first: Packet, rest: seq<Packet>, cur: Seq32, n: nat)
    requires !first.isAck && first.seqNum == cur && |first.payload| == n <= 536 && (rest != [] ==> n == 536)
    requires Packed(rest, Wrap(cur + n))
    ensures Packed([first] + rest, cur)
  {
    var out := [first] + rest;
    forall i | 0 <= i < |out| && !out[i].isAck
      ensures |out[i].payload| <= 536 && (i + 1 < |out| ==> |out[i].payload| == 536)
      ensures out[i].seqNum == (cur + |Payload(out[..i])|) % 0x1_0000_0000
    {
      if i == 0 {
        assert Payload(out[..0]) == [];
        WrapSmall(cur);
      } else {
        assert out[i] == rest[i - 1];
        assert out[..i] == [first] + rest[..i - 1];
        PayloadCons(first, rest[..i - 1]);
        WrapAdd(cur + n, |Payload(rest[..i - 1])|);
      }
    }
  }

  lemma PayloadCons(first: Packet, rest: seq<Packet>)
    ensures |Payload([first] + rest)| == (if first.isAck then 0 else |first.payload|) + |Payload(rest)|
  {
    Cons(first, rest);
  }

  /** An acknowledgement in front changes nothing for the data. */
  lemma AckInFront(ack: Packet, out: seq<Packet>, cur: Seq32)
    requires ack.isAck && Packed(out, cur)
    ensures Packed([ack] + out, cur) && Payload([ack] + out) == Payload(out)
  {
    Cons(ack, out);
    var all := [ack] + out;
    forall i | 0 <= i < |all| && !all[i].isAck
      ensures |all[i].payload| <= 536 && (i + 1 < |all| ==> |all[i].payload| == 536)
      ensures all[i].seqNum == (cur + |Payload(all[..i])|) % 0x1_0000_0000
    {
      assert all[i] == out[i - 1];
      assert all[..i] == [ack] + out[..i - 1];
      PayloadCons(ack, out[..i - 1]);
    }
  }

  /** What one data part does. */
  lemma DataPartSends(e: Endpoint, window: int)
    ensures var r := DataPart(e, e.appRecv != [], window);
            && Packed(r.1, e.cur)
            && (if e.appRecv != [] && window > 0 then
                  var head, n := e.appRecv[0], Min(|e.appRecv[0]|, window);
                  && Payload(r.1) == head[..n]
                  && r.0.appRecv == (if n == |head| then e.appRecv[1..] else [head[n..]] + e.appRecv[1..])
                else
                  r == (e, []))
  {
    if e.appRecv != [] && window > 0 {
      SegmentsPacked(e.cur, PQ.Taken(e.appRecv, window));
      hide Segments, Wrap, Packed, Payload;
    } else {
      assert Payload([]) == [];
    }
  }

  lemma ClosePartSends(e: Endpoint, close: bool)
    ensures Packed(ClosePart(e, close).1, e.cur) && Payload(ClosePart(e, close).1) == []
    ensures ClosePart(e, close).0.appRecv == e.appRecv && (!close ==> ClosePart(e, close) == (e, []))
  {
    if close {
      var fin := FinPacket(e.cur);
      assert [fin][..0] == [] && [fin][1..] == [];
      WrapSmall(e.cur);
    }
  }

  lemma NetworkPartSends(e: Endpoint, net: Option<Packet>)
    ensures var r := NetworkPart(e, net);
            && r.0.appRecv == e.appRecv && r.0.cur == e.cur
            && (r.1 == [] || (|r.1| == 1 && r.1[0].isAck))
  {
    hide Wrap, Copied, AppSend, OnFin;
  }

  /** The window that the code computes. */
  lemma WindowIs(e: Endpoint)
    requires Unacked(e) <= 0x8000_0000
    ensures Window(e) == 3072 - Unacked(e)
  {
    var u := Unacked(e);
    assert Wrap(e.cur - e.ackNum) == u;
    assert Wrap(3072 - u) == if u <= 3072 then 3072 - u else 3072 - u + MODULUS;
  }

  /**
   The data sent are the first bytes of the head buffer, as many as the window of 3072 leaves after what is
   unacknowledged, and the queue keeps the rest; nothing if the window is shut or nothing is queued.
   */
  predicate SendsWindow(e: Endpoint, e': Endpoint, out: seq<Packet>) {
    && Packed(out, e.cur)
    && if e.appRecv != [] && Unacked(e) < 3072 then
         var head, n := e.appRecv[0], Min(|e.appRecv[0]|, 3072 - Unacked(e));
         && Payload(out) == head[..n]
         && e'.appRecv == (if n == |head| then e.appRecv[1..] else [head[n..]] + e.appRecv[1..])
       else
         Payload(out) == [] && e'.appRecv == e.appRecv
  }

  /**
   One iteration sends exactly the first bytes of the head buffer, as many as the window of 3072 leaves after what is
   unacknowledged, in segments of 536 bytes but the last, numbered on from the current number; the queue keeps the
   rest. With a shut window or nothing queued it sends no data and leaves the queue alone.
   */
  lemma IterationSends(e: Endpoint, net: Option<Packet>)
    requires Unacked(e) <= 0x8000_0000
    ensures SendsWindow(e, Iteration(e, net).0, Iteration(e, net).1)
  {
    hide NetworkPart, DataPart, ClosePart, Window, Packed, Payload, Unacked;
    var ev := WaitForEvent(e, net.Some?);
    var e0 := Woken(e, net.Some?);
    assert Window(e0) == 3072 - Unacked(e) by {
      WindowIs(e);
      WokenWindow(e, net.Some?);
    }
    var r1 := NetworkPart(e0, net);
    NetworkPartSends(e0, net);
    var r2 := DataPart(r1.0, ev.appData, Window(e0));
    DataPartSends(r1.0, Window(e0));
    var r3 := ClosePart(r2.0, ev.closeRequested);
    ClosePartSends(r2.0, ev.closeRequested);
    var rest := r2.1 + r3.1;
    assert r2.1 == [] ==> rest == r3.1;
    assert r3.1 == [] ==> rest == r2.1;
    assert r1.1 + r2.1 + r3.1 == r1.1 + rest;
    if r1.1 == [] {
      assert r1.1 + rest == rest;
    } else {
      assert r1.1 == [r1.1[0]];
      AckInFront(r1.1[0], rest, e.cur);
    }
  }

  lemma WokenWindow(e: Endpoint, arrived: bool)
    ensures Window(Woken(e, arrived)) == Window(e)
  {
    hide Window;
    assert Woken(e, arrived).cur == e.cur && Woken(e, arrived).ackNum == e.ackNum;
    SameWindow(e, Woken(e, arrived));
  }

  lemma SameWindow(e: Endpoint, f: Endpoint)
    requires e.cur == f.cur && e.ackNum == f.ackNum
    ensures Window(e) == Window(f)
  {
  }

  /** In every reachable state at most 3073 numbers are unacknowledged, so this says what every iteration sends. */
  lemma ReachableSends(s: System, arrived: bool)
    requires StcpProtocol.Reachable(s) && s.x.e.phase == Loop && (arrived ==> s.yx != [])
    ensures SendsWindow(s.x.e, LoopStep(s, arrived).x.e, LoopStep(s, arrived).xy[|s.xy|..])
  {
    hide StcpProtocol.Reachable, Iteration, Packed, Payload;
    AcksSound(s);
    IterationSends(s.x.e, if arrived then Some(s.yx[0]) else None);
  }
}
