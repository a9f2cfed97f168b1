/**
 What a channel carries: the segments of one stream, in order and without gaps, and the
 acknowledgements of the other. A stream has one position for each byte and one for the FIN.
 */
module StcpStreams {
  import opened Base
  import opened Stcp

  /** The bytes of the data segments in a channel. */
  function Payload(c: seq<Packet>): seq<byte> {
    if c == [] then [] else (if c[0].isAck then [] else c[0].payload) + Payload(c[1..])
  }

  /**
   The channel holds exactly the positions from `p` up to what was sent: `sent` bytes, then the FIN if
   `fin`. Each segment is numbered from `base` modulo 2^32 and carries 1 to STCP_MSS bytes.
   */
  predicate Carries(c: seq<Packet>, base: nat, p: nat, sent: nat, fin: bool) {
    if c == [] then p == sent + (if fin then 1 else 0)
    else if c[0].isAck then Carries(c[1..], base, p, sent, fin)
    else if c[0].isFin then
      && fin && p == sent && c[0].payload == []
      && c[0].seqNum == Wrap(base + p)
      && Carries(c[1..], base, p + 1, sent, fin)
    else
      && 1 <= |c[0].payload| <= STCP_MSS
      && c[0].seqNum == Wrap(base + p)
      && p + |c[0].payload| <= sent
      && Carries(c[1..], base, p + |c[0].payload|, sent, fin)
  }

  /** The acknowledgements in a channel, from position `a` strictly upwards, the last one at `p`. */
  predicate Acknowledges(c: seq<Packet>, base: nat, a: nat, p: nat) {
    if c == [] then a == p
    else if !c[0].isAck then Acknowledges(c[1..], base, a, p)
    else
      var a' := Advance(base, a, c[0].ackNum);
      a < a' <= p && Acknowledges(c[1..], base, a', p)
  }

  lemma WrapAdd(a: int, n: int)
    ensures Wrap(Wrap(a) + n) == Wrap(a + n)
  {
  }

  lemma WrapSmall(n: nat)
    requires n < MODULUS
    ensures Wrap(n) == n
  {
  }

  lemma {:induction false} PayloadAppend(c: seq<Packet>, d: seq<Packet>)
    ensures Payload(c + d) == Payload(c) + Payload(d)
  {
    if c == [] {
      assert c + d == d;
    } else {
      PayloadAppend(c[1..], d);
      assert (c + d)[1..] == c[1..] + d && (c + d)[0] == c[0];
      Concat(if c[0].isAck then [] else c[0].payload, Payload(c[1..]), Payload(d));
    }
  }

  lemma {:induction false} CarriesBounds(c: seq<Packet>, base: nat, p: nat, sent: nat, fin: bool)
    requires Carries(c, base, p, sent, fin)
    ensures p <= sent + (if fin then 1 else 0)
    ensures p <= sent ==> p + |Payload(c)| == sent
    ensures p == sent + 1 ==> Payload(c) == []
  {
    if c != [] {
      if c[0].isAck {
        CarriesBounds(c[1..], base, p, sent, fin);
      } else {
        CarriesBounds(c[1..], base, p + (if c[0].isFin then 1 else |c[0].payload|), sent, fin);
      }
    }
  }

  /** New packets that continue the stream keep the channel well formed. */
  lemma {:induction false} CarriesAppend(
    c: seq<Packet>, d: seq<Packet>, base: nat, p: nat, sent: nat, sent': nat, fin: bool)
    requires Carries(c, base, p, sent, false)
    requires sent <= sent' && Carries(d, base, sent, sent', fin)
    ensures Carries(c + d, base, p, sent', fin)
  {
    if c == [] {
      assert c + d == d;
    } else {
      assert (c + d)[1..] == c[1..] + d;
      if c[0].isAck {
        CarriesAppend(c[1..], d, base, p, sent, sent', fin);
      } else {
        CarriesAppend(c[1..], d, base, p + |c[0].payload|, sent, sent', fin);
      }
    }
  }

  lemma {:induction false} CarriesAppendAck(c: seq<Packet>, ack: Packet, base: nat, p: nat, sent: nat, fin: bool)
    requires Carries(c, base, p, sent, fin) && ack.isAck
    ensures Carries(c + [ack], base, p, sent, fin)
  {
    if c == [] {
      assert c + [ack] == [ack];
    } else {
      assert (c + [ack])[1..] == c[1..] + [ack];
      if c[0].isAck {
        CarriesAppendAck(c[1..], ack, base, p, sent, fin);
      } else {
        CarriesAppendAck(c[1..], ack, base, p + (if c[0].isFin then 1 else |c[0].payload|), sent, fin);
      }
    }
  }

  lemma {:induction false} AcknowledgesBounds(c: seq<Packet>, base: nat, a: nat, p: nat)
    requires Acknowledges(c, base, a, p)
    ensures a <= p
  {
    if c != [] {
      AcknowledgesBounds(c[1..], base, if c[0].isAck then Advance(base, a, c[0].ackNum) else a, p);
    }
  }

  /** Serial-number arithmetic decodes a position less than 2^32 ahead. */
  lemma AdvanceDecodes(base: nat, a: nat, p: nat)
    requires a <= p < a + MODULUS
    ensures Advance(base, a, Wrap(base + p)) == p
  {
    var d := Wrap(base + p) - (base + a);
    assert Wrap(d) == Wrap(p - a);
  }

  lemma {:induction false} AcknowledgesAppend(c: seq<Packet>, ack: Packet, base: nat, a: nat, p: nat, p': nat)
    requires Acknowledges(c, base, a, p)
    requires p < p' < a + MODULUS
    requires ack.isAck && ack.ackNum == Wrap(base + p')
    ensures Acknowledges(c + [ack], base, a, p')
  {
    if c == [] {
      AdvanceDecodes(base, a, p');
      assert c + [ack] == [ack];
      assert [ack][1..] == [];
    } else {
      assert (c + [ack])[1..] == c[1..] + [ack];
      AcknowledgesAppend(c[1..], ack, base, if c[0].isAck then Advance(base, a, c[0].ackNum) else a, p, p');
    }
  }

  lemma {:induction false} AcknowledgesAppendOther(c: seq<Packet>, d: seq<Packet>, base: nat, a: nat, p: nat)
    requires Acknowledges(c, base, a, p)
    requires forall i :: 0 <= i < |d| ==> !d[i].isAck
    ensures Acknowledges(c + d, base, a, p)
  {
    if c == [] {
      assert c + d == d;
      if d != [] {
        assert d[0] == (c + d)[0] && [] + d[1..] == d[1..];
        AcknowledgesAppendOther([], d[1..], base, a, p);
      }
    } else {
      assert (c + d)[1..] == c[1..] + d;
      AcknowledgesAppendOther(c[1..], d, base, if c[0].isAck then Advance(base, a, c[0].ackNum) else a, p);
    }
  }

  lemma {:induction false} SegmentsAreData(seqNum: Seq32, data: seq<byte>)
    ensures |Segments(seqNum, data)| <= |data|
    ensures forall q :: q in Segments(seqNum, data) ==> !q.isAck && !q.isFin && 1 <= |q.payload| <= STCP_MSS
    decreases |data|
  {
    hide Wrap;
    if data != [] {
      var n := Min(|data|, STCP_MSS);
      SegmentsAreData(Wrap(seqNum + n), data[n..]);
    }
  }

  /** The segmentation loop cuts its data into consecutive segments and drops nothing. */
  lemma {:induction false} SegmentsCarry(base: nat, p: nat, data: seq<byte>)
    ensures Carries(Segments(Wrap(base + p), data), base, p, p + |data|, false)
    ensures Payload(Segments(Wrap(base + p), data)) == data
    ensures |Segments(Wrap(base + p), data)| <= |data|
    ensures forall q :: q in Segments(Wrap(base + p), data) ==> !q.isAck && !q.isFin && 1 <= |q.payload| <= STCP_MSS
    decreases |data|
  {
    hide Wrap;
    SegmentsAreData(Wrap(base + p), data);
    if data != [] {
      var n := Min(|data|, STCP_MSS);
      WrapAdd(base + p, n);
      SegmentsCarry(base, p + n, data[n..]);
      var first, rest := DataPacket(Wrap(base + p), data[..n]), Segments(Wrap(base + (p + n)), data[n..]);
      assert Segments(Wrap(base + p), data) == [first] + rest;
      hide Segments;
      Cons(first, rest);
      SplitAt(data, n);
    }
  }
}
