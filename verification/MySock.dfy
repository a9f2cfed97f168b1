/**
 The application side of a socket, TCP/src/mysock_api.c: two linked packet queues, the end-of-file flag and
 the close request. Reads are proved to be the reads of PacketQueue's runs.
 */
module MySock {
  import opened Base
  import PQ = PacketQueue

  class Socket {
    const listening: bool
    var closeRequested: bool
    var eof: bool
    const appRecvQueue: PQ.Queue<byte>  // from the application to the transport layer
    const appSendQueue: PQ.Queue<byte>  // from the transport layer to the application

    ghost predicate Valid()
      reads this, appRecvQueue, appRecvQueue.nodes, appSendQueue, appSendQueue.nodes
    {
      && appRecvQueue != appSendQueue
      && appRecvQueue.Valid() && appSendQueue.Valid()
      && Apart(appRecvQueue.nodes, appSendQueue.nodes)
    }

    ghost function Written(): PQ.Buffers<byte>
      reads this, appRecvQueue, appRecvQueue.nodes
    {
      appRecvQueue.Contents()
    }

    ghost function Readable(): PQ.Buffers<byte>
      reads this, appSendQueue, appSendQueue.nodes
    {
      appSendQueue.Contents()
    }

    /** The read side, with what was enqueued and read before. */
    ghost function ReadSide(enqueued: PQ.Buffers<byte>, out: seq<byte>): PQ.Reader<byte>
      reads this, appSendQueue, appSendQueue.nodes
    {
      PQ.Reader(Readable(), eof, enqueued, out)
    }

    constructor (listening: bool)
      ensures Valid() && this.listening == listening && !closeRequested
      ensures Written() == [] && ReadSide([], []) == PQ.Fresh()
    {
      this.listening, closeRequested, eof := listening, false, false;
      appRecvQueue := new PQ.Queue();
      appSendQueue := new PQ.Queue();
    }

    /** Queues everything, whatever the sender window; None is EINVAL. */
    method MyWrite(buf: seq<byte>) returns (n: Option<nat>)
      requires Valid() && !closeRequested
      modifies appRecvQueue, appRecvQueue.nodes
      ensures Valid() && Readable() == old(Readable())
      ensures listening ==> n == None && Written() == old(Written())
      ensures !listening ==> n == Some(|buf|) && Written() == old(Written()) + [buf]
    {
      if listening {
        return None;
      }
      appRecvQueue.Enqueue(buf);
      return Some(|buf|);
    }

    /** Called when the queue is not empty or the end was seen; otherwise the call blocks. */
    method MyRead(bufLen: nat, ghost enqueued: PQ.Buffers<byte>, ghost out: seq<byte>) returns (data: Option<seq<byte>>)
      requires Valid() && !closeRequested
      requires listening || eof || appSendQueue.nodes != []
      modifies this`eof, appSendQueue, appSendQueue.nodes
      ensures Valid() && Written() == old(Written())
      ensures listening ==> data == None && Readable() == old(Readable()) && eof == old(eof)
      ensures !listening ==> data.Some?
      ensures !listening ==>
                ReadSide(enqueued, out + data.value) == PQ.Do(old(ReadSide(enqueued, out)), PQ.Read(bufLen))
    {
      hide PQ.Taken, PQ.Left;
      if listening {
        return None;
      }
      if eof {
        return Some([]);
      }
      var dst, len := appSendQueue.Dequeue(bufLen, true);
      if len == 0 {
        eof := true;
      }
      return Some(dst);
    }

    /** The request that `myclose` leaves for the transport layer. */
    method MyClose()
      requires Valid()
      modifies this`closeRequested
      ensures Valid() && closeRequested && Written() == old(Written()) && Readable() == old(Readable())
    {
      closeRequested := true;
    }

    /** `stcp_app_send`: passes data up, unless there is none. */
    method AppSend(src: seq<byte>, ghost enqueued: PQ.Buffers<byte>, ghost out: seq<byte>)
      requires Valid()
      modifies appSendQueue, appSendQueue.nodes
      ensures Valid() && Written() == old(Written())
      ensures src == [] ==> ReadSide(enqueued, out) == old(ReadSide(enqueued, out))
      ensures src != [] ==> ReadSide(enqueued + [src], out) == PQ.Do(old(ReadSide(enqueued, out)), PQ.Enqueue(src))
    {
      if |src| > 0 {
        appSendQueue.Enqueue(src);
      }
    }

    /** `stcp_fin_received`: an empty buffer marks the end of the stream. */
    method FinReceived(ghost enqueued: PQ.Buffers<byte>, ghost out: seq<byte>)
      requires Valid()
      modifies appSendQueue, appSendQueue.nodes
      ensures Valid() && Written() == old(Written())
      ensures ReadSide(enqueued + [[]], out) == PQ.Do(old(ReadSide(enqueued, out)), PQ.Enqueue([]))
    {
      appSendQueue.Enqueue([]);
    }

    /** `stcp_app_recv`: the transport layer takes at most `maxLen` bytes of one buffer. */
    method AppRecv(maxLen: nat) returns (dst: seq<byte>)
      requires Valid() && appRecvQueue.nodes != []
      modifies appRecvQueue, appRecvQueue.nodes
      ensures Valid() && Readable() == old(Readable())
      ensures |dst| <= maxLen && dst == PQ.Taken(old(Written()), maxLen) && Written() == PQ.Left(old(Written()), maxLen)
      ensures dst + Flatten(Written()) == old(Flatten(Written()))
    {
      hide PQ.Taken, PQ.Left, Flatten;
      var n;
      ghost var was := Written();
      dst, n := appRecvQueue.Dequeue(maxLen, true);
      PQ.TakenFits(was, maxLen);
      PQ.TakeFlatten(was, maxLen);
    }
  }

  ghost predicate Apart<T>(a: seq<PQ.Node<T>>, b: seq<PQ.Node<T>>) {
    forall i, j :: 0 <= i < |a| && 0 <= j < |b| ==> a[i] != b[j]
  }
}
