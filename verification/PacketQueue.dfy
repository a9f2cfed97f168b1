/**
 The packet queues of TCP/src/mysock.c: a linked list of buffers, filled one buffer at a time and
 drained by whole or partial reads, and the end-of-file rule of `myread` on top of it.
 */
module PacketQueue {
  import opened Base

  type Buffers<T> = seq<seq<T>>

  /** What `_mysock_dequeue_buffer` copies out when it may split the head buffer. */
  function Taken<T>(q: Buffers<T>, maxLen: nat): seq<T>
    requires q != []
  {
    q[0][..Min(|q[0]|, maxLen)]
  }

  /** What it leaves behind. */
  function Left<T>(q: Buffers<T>, maxLen: nat): Buffers<T>
    requires q != []
  {
    if |q[0]| > maxLen then [q[0][maxLen..]] + q[1..] else q[1..]
  }

  lemma TakenFits<T>(q: Buffers<T>, maxLen: nat)
    requires q != []
    ensures |Taken(q, maxLen)| <= maxLen
  {
  }

  lemma TakeFlatten<T>(q: Buffers<T>, maxLen: nat)
    requires q != []
    ensures Taken(q, maxLen) + Flatten(Left(q, maxLen)) == Flatten(q)
  {
    if |q[0]| > maxLen {
      Cons(q[0][maxLen..], q[1..]);
      SplitAt(q[0], maxLen);
      Concat(q[0][..maxLen], q[0][maxLen..], Flatten(q[1..]));
    } else {
      assert q[0][..|q[0]|] == q[0];
    }
  }

  // ---- the byte stream that a reader sees ----

  /** The bytes before the first empty buffer, which marks the end of the stream. */
  function Stream<T>(q: Buffers<T>): seq<T> {
    if q == [] || q[0] == [] then [] else q[0] + Stream(q[1..])
  }

  predicate Ended<T>(q: Buffers<T>) {
    exists i :: 0 <= i < |q| && q[i] == []
  }

  lemma {:induction false} StreamAppend<T>(q: Buffers<T>, buf: seq<T>)
    ensures Stream(q + [buf]) == if Ended(q) then Stream(q) else Stream(q) + buf
    ensures Ended(q + [buf]) <==> Ended(q) || buf == []
  {
    if q == [] {
      assert q + [buf] == [buf];
      assert (q + [buf])[0] == buf;
    } else {
      assert (q + [buf])[1..] == q[1..] + [buf];
      StreamAppend(q[1..], buf);
      EndedTail(q);
      EndedTail(q + [buf]);
    }
  }

  lemma EndedTail<T>(q: Buffers<T>)
    requires q != []
    ensures Ended(q) <==> q[0] == [] || Ended(q[1..])
  {
    if Ended(q) && q[0] != [] {
      var i :| 0 <= i < |q| && q[i] == [];
      assert q[1..][i - 1] == [];
    }
    if Ended(q[1..]) {
      var i :| 0 <= i < |q[1..]| && q[1..][i] == [];
      assert q[i + 1] == [];
    }
  }

  /** One read of a positive size takes a prefix of the stream and nothing else. */
  lemma StreamTake<T>(q: Buffers<T>, maxLen: nat)
    requires q != [] && maxLen > 0
    ensures q[0] != [] ==> Taken(q, maxLen) + Stream(Left(q, maxLen)) == Stream(q)
    ensures q[0] != [] ==> (Ended(Left(q, maxLen)) <==> Ended(q))
    ensures Taken(q, maxLen) == [] <==> q[0] == []
    ensures q[0] == [] ==> Stream(q) == [] && Ended(q)
  {
    EndedTail(q);
    if |q[0]| > maxLen {
      SplitHead(q, q[0][..maxLen], q[0][maxLen..]);
    } else {
      assert q[0][..|q[0]|] == q[0];
    }
  }

  lemma SplitHead<T>(q: Buffers<T>, front: seq<T>, back: seq<T>)
    requires q != [] && q[0] == front + back && back != []
    ensures front + Stream([back] + q[1..]) == Stream(q)
    ensures Ended([back] + q[1..]) <==> Ended(q)
  {
    var r := [back] + q[1..];
    EndedTail(q);
    EndedTail(r);
    assert r[1..] == q[1..];
  }

  // ---- runs of a writer and a reader ----

  datatype Op<T> = Enqueue(buf: seq<T>) | Read(maxLen: nat)

  /** A socket's read side: queue and `eof` flag, with everything enqueued and everything read. */
  datatype Reader<T> = Reader(queue: Buffers<T>, eof: bool, enqueued: Buffers<T>, out: seq<T>)

  /** One `_mysock_enqueue_buffer` or one `myread`; a read of an empty queue blocks. */
  function Do<T>(r: Reader<T>, op: Op<T>): Reader<T> {
    match op
    case Enqueue(buf) => r.(queue := r.queue + [buf], enqueued := r.enqueued + [buf])
    case Read(n) =>
      if r.eof || r.queue == [] then r
      else r.(queue := Left(r.queue, n), out := r.out + Taken(r.queue, n), eof := Taken(r.queue, n) == [])
  }

  function RunOps<T>(r: Reader<T>, ops: seq<Op<T>>): Reader<T> {
    if ops == [] then r else Do(RunOps(r, ops[..|ops| - 1]), ops[|ops| - 1])
  }

  function Fresh<T>(): Reader<T> { Reader([], false, [], []) }

  /** The bytes read so far and the bytes still queued make up the stream that was enqueued. */
  ghost predicate InStep<T>(r: Reader<T>) {
    if r.eof then Ended(r.enqueued) && r.out == Stream(r.enqueued)
    else r.out + Stream(r.queue) == Stream(r.enqueued) && (Ended(r.queue) <==> Ended(r.enqueued))
  }

  lemma DoInStep<T>(r: Reader<T>, op: Op<T>)
    requires InStep(r)
    requires op.Read? ==> op.maxLen > 0
    ensures InStep(Do(r, op))
  {
    hide Stream, Ended, Taken, Left;
    match op
    case Enqueue(buf) =>
      StreamAppend(r.enqueued, buf);
      StreamAppend(r.queue, buf);
      Concat(r.out, Stream(r.queue), buf);
    case Read(n) =>
      if !r.eof && r.queue != [] {
        StreamTake(r.queue, n);
        Concat(r.out, Taken(r.queue, n), Stream(Left(r.queue, n)));
        assert r.out + [] == r.out;
      }
  }

  /**
   The queue refines a byte stream with an end marker: in every run of enqueues and non-zero-size
   reads, the reader gets exactly a prefix of the bytes enqueued before the first empty buffer, in
   order; once a read has returned nothing it has had all of them, and the marker was enqueued.
   */
  lemma {:induction false} ReadsFollowStream<T>(ops: seq<Op<T>>)
    requires forall i :: 0 <= i < |ops| && ops[i].Read? ==> ops[i].maxLen > 0
    ensures InStep(RunOps(Fresh(), ops))
    ensures RunOps(Fresh(), ops).out <= Stream(RunOps(Fresh(), ops).enqueued)
  {
    if ops != [] {
      ReadsFollowStream(ops[..|ops| - 1]);
      DoInStep(RunOps(Fresh(), ops[..|ops| - 1]), ops[|ops| - 1]);
    }
  }

  /** End of file is final: whatever happens later, nothing more is ever read. */
  lemma {:induction false} EofIsForever<T>(r: Reader<T>, ops: seq<Op<T>>)
    requires r.eof
    ensures RunOps(r, ops).eof && RunOps(r, ops).out == r.out
  {
    if ops != [] {
      EofIsForever(r, ops[..|ops| - 1]);
    }
  }

  /**
   The size must not be zero: for every reader at a non-empty head buffer, a zero-size read sets
   `eof` with the stream unread. Reads of any other size set it exactly at the marker.
   */
  lemma EofExactlyAtMarker<T>(r: Reader<T>, n: nat)
    requires !r.eof && r.queue != []
    ensures Do(r, Read(n)).eof <==> r.queue[0] == [] || n == 0
    ensures n == 0 && r.queue[0] != [] ==> Stream(Do(r, Read(n)).queue) == Stream(r.queue)
  {
    if n == 0 && r.queue[0] != [] {
      assert r.queue[0][0..] == r.queue[0];
      assert Left(r.queue, 0) == r.queue;
    } else if r.queue[0] != [] {
      StreamTake(r.queue, n);
    }
  }

  // ---- the linked list ----

  class Node<T> {
    var data: seq<T>
    var next: Node?<T>

    constructor (data: seq<T>)
      ensures this.data == data && next == null
    {
      this.data := data;
      next := null;
    }
  }

  class Queue<T> {
    var head: Node?<T>
    var tail: Node?<T>
    ghost var nodes: seq<Node<T>>

    /** `nodes` is the chain from `head` to `tail`. */
    ghost predicate Valid()
      reads this, nodes
    {
      && (nodes == [] ==> head == null && tail == null)
      && (nodes != [] ==> head == nodes[0] && tail == nodes[|nodes| - 1] && tail.next == null)
      && (forall i :: 0 <= i < |nodes| - 1 ==> nodes[i].next == nodes[i + 1])
      && (forall i, j :: 0 <= i < j < |nodes| ==> nodes[i] != nodes[j])
    }

    ghost function Contents(): Buffers<T>
      reads this, nodes
    {
      seq(|nodes|, i requires 0 <= i < |nodes| reads this, nodes => nodes[i].data)
    }

    constructor ()
      ensures Valid() && Contents() == [] && nodes == []
    {
      head, tail, nodes := null, null, [];
    }

    method Enqueue(packet: seq<T>)
      requires Valid()
      modifies this, nodes
      ensures Valid() && Contents() == old(Contents()) + [packet]
      ensures nodes != [] && nodes == old(nodes) + [nodes[|nodes| - 1]] && fresh(nodes[|nodes| - 1])
    {
      var node := new Node(packet);
      if head == null {
        assert nodes == [];
        head := node;
        tail := node;
      } else {
        tail.next := node;
        tail := node;
      }
      nodes := nodes + [node];
    }

    /** `removePartial` false is the network side: a packet is never split, only its copy is cut. */
    method Dequeue(maxLen: nat, removePartial: bool) returns (dst: seq<T>, packetLen: nat)
      requires Valid() && nodes != []
      modifies this, nodes
      ensures nodes == old(nodes) || nodes == old(nodes)[1..]
      ensures Valid()
      ensures dst == Taken(old(Contents()), maxLen)
      ensures removePartial ==> Contents() == Left(old(Contents()), maxLen) && packetLen == |dst|
      ensures !removePartial ==> Contents() == old(Contents())[1..] && packetLen == |old(Contents())[0]|
    {
      var node := head;
      if |node.data| > maxLen && removePartial {
        dst := node.data[..maxLen];
        node.data := node.data[maxLen..];
        packetLen := maxLen;
      } else {
        assert |nodes| > 1 ==> nodes[0].next == nodes[1];
        head := node.next;
        if head == null {
          tail := null;
        }
        nodes := nodes[1..];
        dst := node.data[..Min(maxLen, |node.data|)];
        packetLen := |node.data|;
      }
    }
  }
}
