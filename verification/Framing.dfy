/**
 The packet channel of TCP/src/network_io_tcp.c: packets sent over a byte stream, each behind its length as
 two octets in network order, through reads and writes that may be short.
 */
module Framing {
  import opened Base

  const MAX_IP_PAYLOAD_LEN: int := 1500

  /** What `_network_send_packet` writes; the length is a `uint16_t`. */
  function Frame(p: seq<byte>): seq<byte> {
    var len := |p| % 65536;
    [(len / 256) as byte, (len % 256) as byte] + p
  }

  function Frames(ps: seq<seq<byte>>): seq<byte> {
    if ps == [] then [] else Frame(ps[0]) + Frames(ps[1..])
  }

  function Length(s: seq<byte>): nat
    requires |s| >= 2
  {
    256 * s[0] as int + s[1] as int
  }

  /** A receive: the return code, the octets stored, and what is left of the stream. */
  datatype Received = Received(rc: int, data: seq<byte>, rest: seq<byte>)

  /** `_network_recv_packet` with room for `maxLen` octets, the writer having closed after `s`. */
  function Recv(s: seq<byte>, maxLen: nat): Received {
    if |s| < 2 then Received(0, [], [])
    else
      var len := Length(s);
      var want := Min(len, maxLen);
      var body := s[2..];
      if want == 0 then Received(0, [], body)
      else if |body| < want then Received(0, [], [])
      else Received(len, body[..want], body[Min(len, |body|)..])
  }

  /** The first octet of a frame is the upper half of the length, which is sent modulo 65536. */
  lemma FrameOctets(p: seq<byte>)
    ensures var f := Frame(p);
            |f| == |p| + 2 && f[2..] == p && 256 * f[0] as int + f[1] as int == |p| % 65536
  {
    var n := |p| % 65536;
    assert 256 * (n / 256) + n % 256 == n;
  }

  lemma FrameLength(p: seq<byte>, rest: seq<byte>)
    requires |p| < 65536
    ensures Length(Frame(p) + rest) == |p| && (Frame(p) + rest)[2..] == p + rest
  {
    var n := |p|;
    var hi, lo := (n / 256) as byte, (n % 256) as byte;
    HeaderLength([hi, lo], p, rest);
    assert n % 65536 == n && Frame(p) == [hi, lo] + p;
    assert 256 * (n / 256) + n % 256 == n;
  }

  lemma HeaderLength(h: seq<byte>, p: seq<byte>, rest: seq<byte>)
    requires |h| == 2
    ensures Length(h + p + rest) == 256 * h[0] as int + h[1] as int && (h + p + rest)[2..] == p + rest
  {
  }

  /** Any packet leaves the stream in step; it arrives whole exactly when it fits. */
  lemma RecvFrame(p: seq<byte>, rest: seq<byte>, maxLen: nat)
    requires 0 < |p| < 65536 && 0 < maxLen
    ensures Recv(Frame(p) + rest, maxLen) == Received(|p|, p[..Min(|p|, maxLen)], rest)
    ensures Recv(Frame(p) + rest, maxLen).data == p <==> |p| <= maxLen
  {
    FrameLength(p, rest);
    hide Frame, Length;
    assert (p + rest)[..Min(|p|, maxLen)] == p[..Min(|p|, maxLen)];
    assert (p + rest)[|p|..] == rest;
  }

  /** An empty packet cannot be told from the end of the stream. */
  lemma EmptyPacketEndsReceiving(rest: seq<byte>, maxLen: nat)
    ensures Recv(Frame([]) + rest, maxLen).rc == 0
  {
    var s := Frame([]) + rest;
    assert s[0] == 0 && s[1] == 0;
  }

  // ---- receiving a whole stream ----

  /** What a receiver gets that calls `_network_recv_packet` until it returns 0. */
  function Receives(s: seq<byte>): seq<seq<byte>>
    decreases |s|
  {
    var r := Recv(s, MAX_IP_PAYLOAD_LEN);
    if r.rc <= 0 then [] else [r.data] + Receives(r.rest)
  }

  predicate Sendable(ps: seq<seq<byte>>) {
    forall i :: 0 <= i < |ps| ==> 0 < |ps[i]| <= 1500
  }

  lemma ReceivesFrame(p: seq<byte>, rest: seq<byte>)
    requires 0 < |p| <= MAX_IP_PAYLOAD_LEN
    ensures Receives(Frame(p) + rest) == [p] + Receives(rest)
  {
    hide Frame, Recv;
    RecvFrame(p, rest, MAX_IP_PAYLOAD_LEN);
  }

  /** A frame cut short is not received. */
  lemma CutFrame(p: seq<byte>, s: seq<byte>)
    requires 0 < |p| <= MAX_IP_PAYLOAD_LEN && s <= Frame(p) && s != Frame(p)
    ensures Receives(s) == []
  {
    assert |s| >= 2 ==> s[0] == Frame(p)[0] && s[1] == Frame(p)[1];
    assert |s| >= 2 ==> Length(s) == |p|;
  }

  /** Wherever the stream is cut, the packets received are a prefix of those sent. */
  lemma {:induction false} ReceivesPrefix(s: seq<byte>, ps: seq<seq<byte>>)
    requires s <= Frames(ps) && Sendable(ps)
    ensures Receives(s) <= ps
    ensures s == Frames(ps) ==> Receives(s) == ps
    decreases |ps|
  {
    hide Frame, Recv, Receives;
    if ps != [] {
      var f := Frame(ps[0]);
      if |s| >= |f| {
        var t := s[|f|..];
        assert s[..|f|] == Frames(ps)[..|f|] == f;
        assert s == f + t;
        assert t <= Frames(ps[1..]) by { assert Frames(ps)[|f|..] == Frames(ps[1..]); }
        ReceivesFrame(ps[0], t);
        ReceivesPrefix(t, ps[1..]);
      } else {
        assert s == Frames(ps)[..|s|] == f[..|s|];
        CutFrame(ps[0], s);
      }
    } else {
      NothingReceived();
    }
  }

  lemma NothingReceived()
    ensures Receives([]) == []
  {
  }

  // ---- every schedule of short reads and writes ----

  /**
   A connection in use: what the sender has still to write, what is in the stream, and the receiver, which has got
   part of a frame and may be waiting for the rest; `ended` once a receive has returned 0.
   */
  datatype Wire = Wire(toWrite: seq<byte>, stream: seq<byte>, got: seq<byte>, packets: seq<seq<byte>>, ended: bool)

  datatype Step = WriteSome(n: nat) | ReadSome(n: nat)

  predicate Complete(got: seq<byte>) { |got| >= 2 && |got| >= 2 + Length(got) }

  /** How much the receive under way still asks for: the length first, then the packet. */
  function Wanted(got: seq<byte>): nat
    requires !Complete(got)
  {
    if |got| < 2 then 2 - |got| else 2 + Length(got) - |got|
  }

  /** A complete frame is what `Recv` makes of it. */
  function Deliver(w: Wire): Wire {
    if !Complete(w.got) then w
    else
      var r := Recv(w.got, MAX_IP_PAYLOAD_LEN);
      if r.rc <= 0 then w.(got := [], ended := true) else w.(got := [], packets := w.packets + [r.data])
  }

  /** One call of write(2) or read(2), taking any part of what is asked for; a read of an empty stream waits. */
  function Do(w: Wire, step: Step): Wire {
    match step
    case WriteSome(n) =>
      var k := Min(n, |w.toWrite|);
      w.(toWrite := w.toWrite[k..], stream := w.stream + w.toWrite[..k])
    case ReadSome(n) =>
      if w.ended || Complete(w.got) then w
      else
        var k := Min(Min(n, Wanted(w.got)), |w.stream|);
        Deliver(w.(stream := w.stream[k..], got := w.got + w.stream[..k]))
  }

  function Run(w: Wire, steps: seq<Step>): Wire {
    if steps == [] then w else Do(Run(w, steps[..|steps| - 1]), steps[|steps| - 1])
  }

  /** The packets received are the first ones sent; the rest is on its way, the next frame perhaps in part here. */
  ghost predicate InStep(w: Wire, ps: seq<seq<byte>>) {
    && w.packets <= ps && !w.ended && !Complete(w.got)
    && w.got + w.stream + w.toWrite == Frames(ps[|w.packets|..])
  }

  /** What the receiver has of the next frame. */
  lemma NextFrame(got: seq<byte>, rest: seq<byte>, ps: seq<seq<byte>>)
    requires got + rest == Frames(ps) && Sendable(ps) && got != []
    ensures ps != []
    ensures |got| <= |Frame(ps[0])| ==> got <= Frame(ps[0]) && rest == Frame(ps[0])[|got|..] + Frames(ps[1..])
    ensures |got| >= 2 ==> Length(got) == |ps[0]|
  {
    assert ps != [];
    var f := Frame(ps[0]);
    assert Frames(ps) == f + Frames(ps[1..]);
    FrameLength(ps[0], Frames(ps[1..]));
    assert |got| >= 2 ==> got[0] == Frames(ps)[0] && got[1] == Frames(ps)[1];
    if |got| <= |f| {
      assert got == Frames(ps)[..|got|] == f[..|got|];
      assert rest == Frames(ps)[|got|..] == f[|got|..] + Frames(ps[1..]);
    }
  }

  lemma WriteInStep(w: Wire, n: nat, ps: seq<seq<byte>>)
    requires InStep(w, ps)
    ensures InStep(Do(w, WriteSome(n)), ps)
  {
    hide Frames, Complete;
    var k := Min(n, |w.toWrite|);
    assert w.toWrite == w.toWrite[..k] + w.toWrite[k..];
    Concat(w.got, w.stream, w.toWrite[..k]);
    Concat(w.got + w.stream, w.toWrite[..k], w.toWrite[k..]);
  }

  /** A complete frame is the next packet. */
  lemma DeliverInStep(w: Wire, ps: seq<seq<byte>>)
    requires w.packets <= ps && !w.ended && Complete(w.got) && |w.got| == 2 + Length(w.got) && Sendable(ps)
    requires w.got + w.stream + w.toWrite == Frames(ps[|w.packets|..])
    ensures InStep(Deliver(w), ps)
  {
    var qs := ps[|w.packets|..];
    Concat(w.got, w.stream, w.toWrite);
    NextFrame(w.got, w.stream + w.toWrite, qs);
    var p := qs[0];
    assert |w.got| == |Frame(p)| && w.got == Frame(p) && Frame(p)[|w.got|..] == [];
    assert Frame(p) + [] == Frame(p);
    RecvFrame(p, [], MAX_IP_PAYLOAD_LEN);
    hide Frame, Recv, Length;
    assert [] + Frames(qs[1..]) == Frames(qs[1..]);
    assert ps[|w.packets| + 1..] == qs[1..];
    assert [] + w.stream == w.stream;
  }

  lemma ReadInStep(w: Wire, n: nat, ps: seq<seq<byte>>)
    requires InStep(w, ps) && Sendable(ps)
    ensures InStep(Do(w, ReadSome(n)), ps)
  {
    var k := Min(Min(n, Wanted(w.got)), |w.stream|);
    var w' := w.(stream := w.stream[k..], got := w.got + w.stream[..k]);
    MoreGot(w.got, w.stream[..k]);
    hide Frames, Recv, Complete, Wanted, Length;
    SplitAt(w.stream, k);
    Concat(w.got, w.stream[..k], w.stream[k..]);
    if Complete(w'.got) {
      if |w'.got| == 2 {
        EmptyNotSent(w', ps);
      }
      DeliverInStep(w', ps);
    }
  }

  /** A receive under way gets no more than the frame. */
  lemma MoreGot(got: seq<byte>, more: seq<byte>)
    requires !Complete(got) && |more| <= Wanted(got)
    ensures Complete(got + more) ==> |got + more| == 2 || |got + more| == 2 + Length(got + more)
  {
    if |got| >= 2 {
      assert (got + more)[0] == got[0] && (got + more)[1] == got[1];
    }
  }

  /** The length of a sendable packet is not zero, so two octets are not yet a frame. */
  lemma EmptyNotSent(w: Wire, ps: seq<seq<byte>>)
    requires |w.got| == 2 && w.packets <= ps && Sendable(ps)
    requires w.got + w.stream + w.toWrite == Frames(ps[|w.packets|..])
    ensures !Complete(w.got)
  {
    Concat(w.got, w.stream, w.toWrite);
    NextFrame(w.got, w.stream + w.toWrite, ps[|w.packets|..]);
  }

  /**
   For every list of non-empty packets of at most 1500 octets and every schedule of short reads and writes, the
   receiver has got packets that were sent, in order; once everything is written and read it has got all of them.
   */
  lemma {:induction false} FramingRoundTrip(ps: seq<seq<byte>>, steps: seq<Step>)
    requires Sendable(ps)
    ensures var w := Run(Wire(Frames(ps), [], [], [], false), steps);
            && InStep(w, ps)
            && (w.stream == [] && w.toWrite == [] ==> w.packets == ps && w.got == [])
  {
    var w0 := Wire(Frames(ps), [], [], [], false);
    if steps == [] {
      assert ps[0..] == ps && [] + [] + Frames(ps) == Frames(ps);
    } else {
      hide Do, Frames;
      FramingRoundTrip(ps, steps[..|steps| - 1]);
      var w := Run(w0, steps[..|steps| - 1]);
      match steps[|steps| - 1]
      case WriteSome(n) => WriteInStep(w, n, ps);
      case ReadSome(n) => ReadInStep(w, n, ps);
    }
    var w1 := Run(w0, steps);
    if w1.stream == [] && w1.toWrite == [] {
      AllReceived(w1, ps);
    }
  }

  lemma AllReceived(w: Wire, ps: seq<seq<byte>>)
    requires InStep(w, ps) && Sendable(ps) && w.stream == [] && w.toWrite == []
    ensures w.packets == ps && w.got == []
  {
    var qs := ps[|w.packets|..];
    assert w.got + [] + [] == w.got == w.got + [];
    if w.got != [] {
      NextFrame(w.got, [], qs);
      assert false;
    }
    assert qs == [];
  }

  // ---- the loops ----

  /** A connected socket; `schedule` decides how short each call is. */
  class Socket {
    var stream: seq<byte>
    var schedule: seq<nat>

    constructor (schedule: seq<nat>)
      ensures stream == [] && this.schedule == schedule
    {
      stream, this.schedule := [], schedule;
    }

    method Amount(count: nat) returns (n: nat)
      requires count > 0
      modifies this`schedule
      ensures 1 <= n <= count
    {
      n := 1;
      if schedule != [] {
        n := 1 + schedule[0] % count;
        schedule := schedule[1..];
      }
    }

    /** write(2): takes a non-empty prefix. */
    method Write(data: seq<byte>) returns (n: nat)
      requires data != []
      modifies this
      ensures 1 <= n <= |data| && stream == old(stream) + data[..n]
    {
      n := Amount(|data|);
      stream := stream + data[..n];
    }

    /** read(2): a non-empty prefix, or nothing once the writer has closed. */
    method Read(count: nat) returns (data: seq<byte>)
      requires count > 0
      modifies this
      ensures data + stream == old(stream) && |data| <= count && (data == [] <==> old(stream) == [])
    {
      data := [];
      if stream != [] {
        var n := Amount(Min(count, |stream|));
        data := stream[..n];
        stream := stream[n..];
      }
    }

    /** `_tcp_io` with write. */
    method WriteAll(data: seq<byte>)
      modifies this
      ensures stream == old(stream) + data
    {
      var rest := data;
      while |rest| > 0
        invariant stream + rest == old(stream) + data
        decreases |rest|
      {
        var n := Write(rest);
        assert rest == rest[..n] + rest[n..];
        rest := rest[n..];
      }
    }

    /** `_tcp_io` with read; `rc` is the count, or 0 when the stream ends first or nothing was asked for. */
    method ReadAll(count: nat) returns (rc: nat, data: seq<byte>)
      modifies this
      ensures rc == (if |old(stream)| < count then 0 else count)
      ensures |old(stream)| >= count ==> data == old(stream)[..count] && stream == old(stream)[count..]
      ensures |old(stream)| < count ==> stream == []
    {
      data := [];
      while |data| < count
        invariant data + stream == old(stream) && |data| <= count
        decreases count - |data|
      {
        var chunk := Read(count - |data|);
        if chunk == [] {
          return 0, data;
        }
        data := data + chunk;
      }
      return count, data;
    }

    method SendPacket(packet: seq<byte>)
      modifies this
      ensures stream == old(stream) + Frame(packet)
    {
      var len := |packet| % 65536;
      WriteAll([(len / 256) as byte, (len % 256) as byte]);
      WriteAll(packet);
    }

    method RecvPacket(maxLen: nat) returns (rc: int, dst: seq<byte>)
      modifies this
      ensures rc == Recv(old(stream), maxLen).rc
      ensures rc > 0 ==> dst == Recv(old(stream), maxLen).data
      ensures stream == Recv(old(stream), maxLen).rest
    {
      ghost var s := stream;
      var n, header := ReadAll(2);
      if n == 0 {
        return 0, [];
      }
      var len := 256 * header[0] as int + header[1] as int;
      assert stream == s[2..] && len == Length(s);
      var m;
      m, dst := ReadAll(Min(len, maxLen));
      if m == 0 {
        return 0, [];
      }
      if len > maxLen {
        assert stream == s[2..][maxLen..];
        var _, _ := ReadAll(len - maxLen);
      }
      return len, dst;
    }

    /** Sends every packet of a list. */
    method SendAll(ps: seq<seq<byte>>)
      modifies this
      ensures stream == old(stream) + Frames(ps)
    {
      var rest := ps;
      assert stream + Frames(rest) == old(stream) + Frames(ps);
      while rest != []
        invariant stream + Frames(rest) == old(stream) + Frames(ps)
        decreases |rest|
      {
        Concat(stream, Frame(rest[0]), Frames(rest[1..]));
        SendPacket(rest[0]);
        rest := rest[1..];
      }
      assert stream + [] == stream;
    }

    /** Receives until the connection has ended. */
    method ReceiveAll() returns (ps: seq<seq<byte>>)
      modifies this
      ensures ps == Receives(old(stream))
    {
      hide Recv;
      ps := [];
      while true
        invariant ps + Receives(stream) == Receives(old(stream))
        decreases |stream|
      {
        ghost var before := stream;
        var rc, dst := RecvPacket(MAX_IP_PAYLOAD_LEN);
        RecvShrinks(before, MAX_IP_PAYLOAD_LEN);
        if rc <= 0 {
          assert ps + [] == ps;
          break;
        }
        Concat(ps, [dst], Receives(stream));
        ps := ps + [dst];
      }
    }
  }

  lemma RecvShrinks(s: seq<byte>, maxLen: nat)
    ensures Recv(s, maxLen).rc > 0 ==> |Recv(s, maxLen).rest| < |s|
  {
  }

  /** The whole path through the code: whatever the schedule of short calls, what is sent is received. */
  method Transfer(ps: seq<seq<byte>>, schedule: seq<nat>) returns (out: seq<seq<byte>>)
    requires Sendable(ps)
    ensures out == ps
  {
    var socket := new Socket(schedule);
    socket.SendAll(ps);
    assert [] + Frames(ps) == Frames(ps);
    out := socket.ReceiveAll();
    ReceivesPrefix(Frames(ps), ps);
  }
}
