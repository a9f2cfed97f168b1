/**
 The listen backlog of TCP/src/connection_demux.c, with the descriptor table of TCP/src/mysock.c it draws
 new sockets from. Each locked operation is one step.
 */
module Demux {
  import opened Base

  const MAX_NUM_CONNECTIONS: int := 64

  /** A peer address; the all-zero one never belongs to a peer. */
  type Peer = nat
  const NO_PEER: Peer := 0

  /** A slot of connection_queue; `id` numbers the connections as they are queued. */
  datatype Slot = Slot(peer: Peer, sd: int, id: nat)
  const FREE := Slot(NO_PEER, -1, 0)

  // ---- the searches of the source ----

  function FirstFree(s: seq<Slot>): nat { FirstIndex(s, (slot: Slot) => slot.sd < 0) }

  function FirstWith(s: seq<Slot>, sd: int): nat { FirstIndex(s, (slot: Slot) => slot.sd == sd) }

  predicate Pending(s: seq<Slot>, peer: Peer) { exists k :: 0 <= k < |s| && s[k].peer == peer }

  function Occupied(s: seq<Slot>): nat {
    if s == [] then 0 else (if s[0].sd >= 0 then 1 else 0) + Occupied(s[1..])
  }

  /** The lowest free descriptor, or -1 when the table is full. */
  function NewDescriptor(open: set<int>): (sd: int)
    ensures -1 <= sd < MAX_NUM_CONNECTIONS && sd !in open - {-1}
    ensures sd == -1 <==> forall k :: 0 <= k < MAX_NUM_CONNECTIONS ==> k in open
    ensures sd >= 0 ==> sd !in open && forall k :: 0 <= k < sd ==> k in open
  {
    NewFrom(open, 0)
  }

  function NewFrom(open: set<int>, k: nat): (sd: int)
    requires k <= MAX_NUM_CONNECTIONS && forall j :: 0 <= j < k ==> j in open
    ensures -1 <= sd < MAX_NUM_CONNECTIONS && sd !in open - {-1}
    ensures sd == -1 <==> forall j :: 0 <= j < MAX_NUM_CONNECTIONS ==> j in open
    ensures sd >= 0 ==> sd !in open && forall j :: 0 <= j < sd ==> j in open
    decreases MAX_NUM_CONNECTIONS - k
  {
    if k == MAX_NUM_CONNECTIONS then -1 else if k !in open then k else NewFrom(open, k + 1)
  }

  // ---- the operations ----

  /** `open` is the set of descriptors in use; `completions` and `accepted` record what happened. */
  datatype Backlog = Backlog(
    slots: seq<Slot>, curLen: nat, completed: seq<nat>,
    open: set<int>, next: nat, completions: seq<Slot>, accepted: seq<Slot>)

  datatype Step = Syn(peer: Peer, wellFormed: bool) | Complete(sd: int) | Accept | Socket | Close(sd: int)

  /** `_mysock_enqueue_connection`. */
  function Enqueue(b: Backlog, peer: Peer, wellFormed: bool): Backlog {
    if !wellFormed || Pending(b.slots, peer) || b.curLen >= |b.slots| then b
    else
      var k := FirstFree(b.slots);
      var sd := NewDescriptor(b.open);
      if k == |b.slots| || sd < 0 then b
      else b.(slots := b.slots[k := Slot(peer, sd, b.next)], curLen := b.curLen + 1,
              open := b.open + {sd}, next := b.next + 1)
  }

  /** `_mysock_passive_connection_complete`. */
  function Completed(b: Backlog, sd: int): Backlog {
    var k := FirstWith(b.slots, sd);
    if k == |b.slots| then b
    else b.(completed := b.completed + [k], completions := b.completions + [b.slots[k]])
  }

  /** `_mysock_dequeue_connection`, when some connection has completed. */
  function Accepted(b: Backlog): Backlog
    requires b.completed != [] && b.completed[0] < |b.slots| && b.curLen > 0
  {
    var k := b.completed[0];
    b.(slots := b.slots[k := FREE], curLen := b.curLen - 1, completed := b.completed[1..],
       accepted := b.accepted + [b.slots[k]])
  }

  /** A connection completes once; sockets are closed only by the applications that own them. */
  predicate Enabled(b: Backlog, step: Step) {
    match step
    case Syn(peer, _) => peer != NO_PEER
    case Complete(sd) =>
      sd >= 0 && (exists k :: 0 <= k < |b.slots| && b.slots[k].sd == sd && k !in b.completed)
    case Accept => b.completed != []
    case Socket => true
    case Close(sd) => sd in b.open && forall k :: 0 <= k < |b.slots| ==> b.slots[k].sd != sd
  }

  /** Free slots are blank; occupied ones have distinct peers, descriptors and numbers. */
  predicate SlotsApart(s: seq<Slot>, next: nat) {
    && (forall k :: 0 <= k < |s| ==> if s[k].sd >= 0 then s[k].peer != NO_PEER && s[k].id < next else s[k] == FREE)
    && (forall j, k :: 0 <= j < k < |s| && s[j].sd >= 0 ==>
          s[j].peer != s[k].peer && s[j].sd != s[k].sd && (s[k].sd >= 0 ==> s[j].id != s[k].id))
  }

  predicate DescriptorsOpen(s: seq<Slot>, open: set<int>) {
    forall k :: 0 <= k < |s| && s[k].sd >= 0 ==> s[k].sd in open
  }

  /** Completed entries point at distinct occupied slots. */
  predicate CompletedPoint(s: seq<Slot>, completed: seq<nat>) {
    && (forall i :: 0 <= i < |completed| ==> completed[i] < |s| && s[completed[i]].sd >= 0)
    && (forall i, j :: 0 <= i < j < |completed| ==> completed[i] != completed[j])
  }

  ghost predicate Inv(b: Backlog) {
    && b.curLen == Occupied(b.slots)
    && SlotsApart(b.slots, b.next)
    && DescriptorsOpen(b.slots, b.open)
    && CompletedPoint(b.slots, b.completed)
  }

  /** The completed queue holds, in completion order, exactly the connections not yet accepted. */
  ghost predicate Ordered(b: Backlog) {
    HandedOut(b) && OnceEach(b.completions, b.next) && NotYet(b)
  }

  ghost predicate HandedOut(b: Backlog) {
    && |b.completions| == |b.accepted| + |b.completed|
    && b.accepted <= b.completions
    && (forall i :: 0 <= i < |b.completed| ==>
          b.completed[i] < |b.slots| && b.slots[b.completed[i]] == b.completions[|b.accepted| + i])
  }

  ghost predicate OnceEach(completions: seq<Slot>, next: nat) {
    && (forall i, j :: 0 <= i < j < |completions| ==> completions[i].id != completions[j].id)
    && (forall i :: 0 <= i < |completions| ==> completions[i].id < next)
  }

  /** What has not completed is not among the completions. */
  ghost predicate NotYet(b: Backlog) {
    forall k, i :: 0 <= k < |b.slots| && b.slots[k].sd >= 0 && k !in b.completed && 0 <= i < |b.completions| ==>
      b.completions[i].id != b.slots[k].id
  }

  function Do(b: Backlog, step: Step): Backlog {
    if !Enabled(b, step) then b else
    match step
    case Syn(peer, ok) => Enqueue(b, peer, ok)
    case Complete(sd) => Completed(b, sd)
    case Accept => if b.completed[0] < |b.slots| && b.curLen > 0 then Accepted(b) else b
    case Socket => var sd := NewDescriptor(b.open); if sd < 0 then b else b.(open := b.open + {sd})
    case Close(sd) => b.(open := b.open - {sd})
  }

  function Run(b: Backlog, steps: seq<Step>): Backlog {
    if steps == [] then b else Do(Run(b, steps[..|steps| - 1]), steps[|steps| - 1])
  }

  /** `_mysock_set_backlog` on a new listening socket: one slot more than asked for. */
  function Listening(backlog: nat, open: set<int>): Backlog {
    Backlog(seq(backlog + 1, _ => FREE), 0, [], open, 0, [], [])
  }

  // ---- counting ----

  lemma {:induction false} OccupiedUpdate(s: seq<Slot>, k: nat, x: Slot)
    requires k < |s|
    ensures Occupied(s[k := x]) ==
            Occupied(s) - (if s[k].sd >= 0 then 1 else 0) + (if x.sd >= 0 then 1 else 0)
  {
    if k == 0 {
      assert s[0 := x][1..] == s[1..];
    } else {
      assert s[k := x][1..] == s[1..][k - 1 := x];
      OccupiedUpdate(s[1..], k - 1, x);
    }
  }

  /** The pigeonhole: while fewer slots are occupied than there are, one is free. */
  lemma {:induction false} FreeSlotExists(s: seq<Slot>)
    ensures Occupied(s) <= |s|
    ensures Occupied(s) < |s| <==> FirstFree(s) < |s|
  {
    if s != [] {
      FreeSlotExists(s[1..]);
    }
  }

  lemma {:induction false} OccupiedPositive(s: seq<Slot>, k: nat)
    requires k < |s| && s[k].sd >= 0
    ensures Occupied(s) > 0
  {
    if k > 0 {
      OccupiedPositive(s[1..], k - 1);
    }
  }

  // ---- every step keeps the invariant ----

  lemma EnqueueInv(b: Backlog, peer: Peer, ok: bool)
    requires Inv(b) && peer != NO_PEER
    ensures Inv(Enqueue(b, peer, ok))
  {
    var k, sd := FirstFree(b.slots), NewDescriptor(b.open);
    if Enqueue(b, peer, ok) != b {
      OccupiedUpdate(b.slots, k, Slot(peer, sd, b.next));
    }
  }

  lemma EnqueueOrdered(b: Backlog, peer: Peer, ok: bool)
    requires Inv(b) && Ordered(b)
    ensures Ordered(Enqueue(b, peer, ok))
  {
    hide Occupied, SlotsApart, DescriptorsOpen, Pending, NewDescriptor;
    var k := FirstFree(b.slots);
    if k < |b.slots| {
      assert b.slots[k].sd < 0;
      assert k !in b.completed;
    }
  }

  lemma CompleteFinds(b: Backlog, sd: int)
    requires Inv(b) && Enabled(b, Complete(sd))
    ensures var k := FirstWith(b.slots, sd); k < |b.slots| && k !in b.completed && b.slots[k].sd == sd >= 0
  {
    var k :| 0 <= k < |b.slots| && b.slots[k].sd == sd && k !in b.completed;
    assert FirstWith(b.slots, sd) == k;
  }

  lemma CompleteInv(b: Backlog, sd: int)
    requires Inv(b) && Enabled(b, Complete(sd))
    ensures Inv(Completed(b, sd))
  {
    CompleteFinds(b, sd);
    hide Enabled;
    assert forall i :: 0 <= i < |b.completed| ==> b.completed[i] in b.completed;
  }

  lemma CompleteOrdered(b: Backlog, sd: int)
    requires Inv(b) && Ordered(b) && Enabled(b, Complete(sd))
    ensures Ordered(Completed(b, sd))
  {
    CompleteFinds(b, sd);
    hide Inv, Enabled, FirstWith;
    var k := FirstWith(b.slots, sd);
    var b' := Completed(b, sd);
    assert b'.completions == b.completions + [b.slots[k]];
  }

  /** Opening and closing other sockets does not touch the queue. */
  lemma TableInv(b: Backlog, open: set<int>)
    requires Inv(b) && Ordered(b) && DescriptorsOpen(b.slots, open)
    ensures Inv(b.(open := open)) && Ordered(b.(open := open))
  {
    hide SlotsApart, DescriptorsOpen, CompletedPoint;
  }

  lemma AcceptReady(b: Backlog)
    requires Inv(b) && b.completed != []
    ensures b.completed[0] < |b.slots| && b.slots[b.completed[0]].sd >= 0 && b.curLen > 0
  {
    OccupiedPositive(b.slots, b.completed[0]);
  }

  lemma AcceptInv(b: Backlog)
    requires Inv(b) && b.completed != []
    ensures b.completed[0] < |b.slots| && b.curLen > 0 && Inv(Accepted(b))
  {
    AcceptReady(b);
    var k := b.completed[0];
    OccupiedUpdate(b.slots, k, FREE);
    assert forall i :: 0 <= i < |b.completed[1..]| ==> b.completed[1..][i] == b.completed[i + 1];
  }

  lemma AcceptOrdered(b: Backlog)
    requires Inv(b) && Ordered(b) && b.completed != [] && b.completed[0] < |b.slots| && b.curLen > 0
    ensures Ordered(Accepted(b))
  {
    AcceptHandsOut(b);
    AcceptNotYet(b);
    hide Inv, HandedOut, OnceEach, NotYet;
  }

  lemma AcceptHandsOut(b: Backlog)
    requires Inv(b) && HandedOut(b) && b.completed != [] && b.completed[0] < |b.slots| && b.curLen > 0
    ensures HandedOut(Accepted(b))
  {
    hide Occupied, SlotsApart, DescriptorsOpen;
    var b', n := Accepted(b), |b.accepted|;
    assert b.slots[b.completed[0]] == b.completions[n];
    assert b'.accepted == b.completions[..n + 1];
    forall i | 0 <= i < |b'.completed|
      ensures b'.completed[i] < |b'.slots| && b'.slots[b'.completed[i]] == b'.completions[|b'.accepted| + i]
    {
      assert b'.completed[i] == b.completed[i + 1] != b.completed[0];
    }
  }

  lemma AcceptNotYet(b: Backlog)
    requires NotYet(b) && b.completed != [] && b.completed[0] < |b.slots| && b.curLen > 0
    ensures NotYet(Accepted(b))
  {
    var b' := Accepted(b);
    forall k, i | 0 <= k < |b'.slots| && b'.slots[k].sd >= 0 && k !in b'.completed && 0 <= i < |b'.completions|
      ensures b'.completions[i].id != b'.slots[k].id
    {
      assert k != b.completed[0] && b'.slots[k] == b.slots[k];
      assert k !in b.completed;
    }
  }

  lemma DoInv(b: Backlog, step: Step)
    requires Inv(b) && Ordered(b)
    ensures Inv(Do(b, step)) && Ordered(Do(b, step))
  {
    if Enabled(b, step) {
      match step
      case Syn(peer, ok) =>
        hide Inv, Ordered, Enqueue;
        EnqueueInv(b, peer, ok);
        EnqueueOrdered(b, peer, ok);
      case Complete(sd) =>
        hide Inv, Ordered, Completed;
        CompleteInv(b, sd);
        CompleteOrdered(b, sd);
      case Accept =>
        hide Inv, Ordered, Accepted;
        AcceptInv(b);
        AcceptOrdered(b);
      case Socket =>
        assert DescriptorsOpen(b.slots, b.open + {NewDescriptor(b.open)});
        hide Inv, Ordered, DescriptorsOpen;
        TableInv(b, b.open + {NewDescriptor(b.open)});
      case Close(sd) =>
        assert DescriptorsOpen(b.slots, b.open - {sd});
        hide Inv, Ordered, DescriptorsOpen;
        TableInv(b, b.open - {sd});
    }
  }

  /**
   With the backlog set once, in every run: cur_len counts the occupied slots, pending peers are distinct,
   completed entries point at distinct occupied slots, and accepts hand out each connection once, in
   completion order.
   */
  lemma {:induction false} BacklogInvariant(backlog: nat, open: set<int>, steps: seq<Step>)
    ensures Inv(Run(Listening(backlog, open), steps)) && Ordered(Run(Listening(backlog, open), steps))
  {
    hide Do;
    if steps == [] {
      NoneOccupied(backlog + 1);
    } else {
      hide Inv, Ordered;
      BacklogInvariant(backlog, open, steps[..|steps| - 1]);
      DoInv(Run(Listening(backlog, open), steps[..|steps| - 1]), steps[|steps| - 1]);
    }
  }

  lemma {:induction false} NoneOccupied(n: nat)
    ensures Occupied(seq(n, _ => FREE)) == 0
  {
    if n > 0 {
      assert seq(n, _ => FREE)[1..] == seq(n - 1, _ => FREE);
      NoneOccupied(n - 1);
    }
  }

  /** In every run the assertions of the source hold: a free slot, the completed connection, a counter above zero. */
  lemma AssertionsHold(backlog: nat, open: set<int>, steps: seq<Step>)
    ensures var b := Run(Listening(backlog, open), steps);
            && (b.curLen < |b.slots| ==> FirstFree(b.slots) < |b.slots|)
            && (b.completed != [] ==>
                  b.curLen > 0 && b.completed[0] < |b.slots| && b.slots[b.completed[0]].sd in b.open)
            && (forall sd :: Enabled(b, Complete(sd)) ==> FirstWith(b.slots, sd) < |b.slots|)
  {
    var b := Run(Listening(backlog, open), steps);
    BacklogInvariant(backlog, open, steps);
    hide Run;
    FreeSlotExists(b.slots);
    if b.completed != [] {
      AcceptReady(b);
    }
  }

  // ---- the tables as they are updated in place ----

  class DescriptorTable {
    const inUse: array<bool>

    ghost predicate Valid() { inUse.Length == MAX_NUM_CONNECTIONS }

    ghost function Open(): set<int>
      reads inUse
      requires Valid()
    {
      set k | 0 <= k < MAX_NUM_CONNECTIONS && inUse[k]
    }

    constructor ()
      ensures Valid() && Open() == {} && fresh(inUse)
    {
      inUse := new bool[MAX_NUM_CONNECTIONS](i => false);
    }

    /** `_mysock_new_mysocket`: the first free descriptor, or -1. */
    method New() returns (sd: int)
      requires Valid()
      modifies inUse
      ensures sd == NewDescriptor(old(Open()))
      ensures Open() == if sd < 0 then old(Open()) else old(Open()) + {sd}
    {
      ghost var open := Open();
      for k := 0 to MAX_NUM_CONNECTIONS
        invariant Open() == open
        invariant forall j :: 0 <= j < k ==> inUse[j]
      {
        assert k in open <==> inUse[k];
        assert forall j :: 0 <= j < k ==> j in open;
        if !inUse[k] {
          assert NewDescriptor(open) == k;
          inUse[k] := true;
          return k;
        }
      }
      return -1;
    }

    /** The table entry is cleared by `_mysock_free_context`. */
    method Release(sd: int)
      requires Valid() && 0 <= sd < MAX_NUM_CONNECTIONS
      modifies inUse
      ensures Open() == old(Open()) - {sd}
    {
      inUse[sd] := false;
    }
  }

  class ListenQueue {
    const connectionQueue: array<Slot>
    var curLen: nat
    var completedQueue: seq<nat>
    var nextId: nat

    ghost function View(open: set<int>, completions: seq<Slot>, accepted: seq<Slot>): Backlog
      reads this, connectionQueue
    {
      Backlog(connectionQueue[..], curLen, completedQueue, open, nextId, completions, accepted)
    }

    constructor (backlog: nat)
      ensures View({}, [], []) == Listening(backlog, {}) && fresh(connectionQueue)
    {
      connectionQueue := new Slot[backlog + 1](i => FREE);
      curLen, completedQueue, nextId := 0, [], 0;
    }

    /** `c` and `a` are the records of completions and accepts so far, here and below. */
    method EnqueueConnection(
      peer: Peer, wellFormed: bool, table: DescriptorTable, ghost c: seq<Slot>, ghost a: seq<Slot>)
        returns (queued: bool)
      requires table.Valid() && Inv(View(table.Open(), c, a))
      modifies this`curLen, this`nextId, connectionQueue, table.inUse
      ensures View(table.Open(), c, a) == Enqueue(old(View(table.Open(), c, a)), peer, wellFormed)
      ensures queued <==> wellFormed && !old(Pending(connectionQueue[..], peer))
                          && old(curLen) < connectionQueue.Length && NewDescriptor(old(table.Open())) >= 0
    {
      if !wellFormed {
        return false;
      }
      var k := 0;
      while k < connectionQueue.Length
        invariant 0 <= k <= connectionQueue.Length
        invariant forall j :: 0 <= j < k ==> connectionQueue[j].peer != peer
      {
        if connectionQueue[k].peer == peer {
          assert connectionQueue[..][k].peer == peer;
          return false;
        }
        k := k + 1;
      }
      if curLen >= connectionQueue.Length {
        return false;
      }
      FreeSlotExists(connectionQueue[..]);
      k := 0;
      while connectionQueue[k].sd >= 0
        invariant 0 <= k <= FirstFree(connectionQueue[..])
        decreases connectionQueue.Length - k
      {
        assert connectionQueue[..][k].sd >= 0;
        k := k + 1;
      }
      assert k == FirstFree(connectionQueue[..]) by {
        assert connectionQueue[..][k].sd < 0;
      }
      var sd := table.New();
      if sd < 0 {
        return false;
      }
      ghost var before := connectionQueue[..];
      curLen := curLen + 1;
      connectionQueue[k] := Slot(peer, sd, nextId);
      nextId := nextId + 1;
      assert connectionQueue[..] == before[k := Slot(peer, sd, nextId - 1)];
      return true;
    }

    method PassiveConnectionComplete(sd: int, ghost open: set<int>, ghost c: seq<Slot>, ghost a: seq<Slot>)
      requires Inv(View(open, c, a)) && Enabled(View(open, c, a), Complete(sd))
      modifies this`completedQueue
      ensures var b := Completed(old(View(open, c, a)), sd); View(open, b.completions, a) == b
    {
      CompleteFinds(View(open, c, a), sd);
      var k := 0;
      while connectionQueue[k].sd != sd
        invariant 0 <= k <= FirstWith(connectionQueue[..], sd)
        decreases connectionQueue.Length - k
      {
        assert connectionQueue[..][k].sd != sd;
        k := k + 1;
      }
      assert k == FirstWith(connectionQueue[..], sd) by {
        assert connectionQueue[..][k].sd == sd;
      }
      completedQueue := completedQueue + [k];
    }

    /** Called when some connection has completed; otherwise the call blocks. */
    method DequeueConnection(ghost open: set<int>, ghost c: seq<Slot>, ghost a: seq<Slot>) returns (sd: int)
      requires Inv(View(open, c, a)) && completedQueue != []
      modifies this`completedQueue, this`curLen, connectionQueue
      ensures old(completedQueue)[0] < connectionQueue.Length && old(curLen) > 0
      ensures sd == old(connectionQueue[..])[old(completedQueue)[0]].sd && sd in open
      ensures var b := Accepted(old(View(open, c, a)));
              View(open, c, b.accepted) == b && sd == b.accepted[|b.accepted| - 1].sd
    {
      AcceptReady(View(open, c, a));
      var k := completedQueue[0];
      completedQueue := completedQueue[1..];
      sd := connectionQueue[k].sd;
      ghost var before := connectionQueue[..];
      connectionQueue[k] := FREE;
      assert connectionQueue[..] == before[k := FREE];
      curLen := curLen - 1;
    }
  }

  // ---- runs of the objects ----

  /** A listening socket, its queue and the descriptor table, with what has completed and been accepted. */
  class Listener {
    const queue: ListenQueue
    const table: DescriptorTable
    ghost var completions: seq<Slot>
    ghost var accepted: seq<Slot>

    ghost predicate Valid() { table.Valid() && queue.connectionQueue as object != table.inUse }

    ghost function View(): Backlog
      reads this, queue, queue.connectionQueue, table, table.inUse
      requires Valid()
    {
      queue.View(table.Open(), completions, accepted)
    }

    constructor (backlog: nat)
      ensures Valid() && View() == Listening(backlog, {})
      ensures fresh(queue) && fresh(table) && fresh(queue.connectionQueue) && fresh(table.inUse)
    {
      queue := new ListenQueue(backlog);
      table := new DescriptorTable();
      completions, accepted := [], [];
    }

    method Close(sd: int)
      requires Valid()
      modifies table.inUse
      ensures View() == Do(old(View()), Step.Close(sd))
    {
      var inUse := 0 <= sd < MAX_NUM_CONNECTIONS && table.inUse[sd];
      assert inUse <==> sd in table.Open();
      var pending := exists k :: 0 <= k < queue.connectionQueue.Length && queue.connectionQueue[k].sd == sd;
      assert forall k :: 0 <= k < |View().slots| ==> View().slots[k] == queue.connectionQueue[k];
      if inUse && !pending {
        table.Release(sd);
      }
    }

    method Complete(sd: int)
      requires Valid() && Inv(View())
      modifies this`completions, queue`completedQueue
      ensures View() == Do(old(View()), Step.Complete(sd))
    {
      hide Inv;
      var on := sd >= 0 && exists k :: 0 <= k < queue.connectionQueue.Length && queue.connectionQueue[k].sd == sd
                                       && k !in queue.completedQueue;
      assert on <==> Enabled(View(), Step.Complete(sd));
      if on {
        ghost var b := Completed(View(), sd);
        queue.PassiveConnectionComplete(sd, table.Open(), completions, accepted);
        completions := b.completions;
      }
    }

    /** An accept with nothing completed blocks, which is no step. */
    method Accept() returns (sd: Option<int>)
      requires Valid() && Inv(View())
      modifies this`accepted, queue`completedQueue, queue`curLen, queue.connectionQueue
      ensures View() == Do(old(View()), Step.Accept)
      ensures sd.Some? <==> old(queue.completedQueue) != []
      ensures sd.Some? ==> accepted != [] && sd.value == accepted[|accepted| - 1].sd && sd.value in table.Open()
    {
      sd := None;
      if queue.completedQueue != [] {
        AcceptReady(View());
        hide Inv;
        ghost var b := Accepted(View());
        var d := queue.DequeueConnection(table.Open(), completions, accepted);
        accepted := b.accepted;
        sd := Some(d);
      }
    }

    method Syn(peer: Peer, wellFormed: bool)
      requires Valid() && Inv(View())
      modifies queue`curLen, queue`nextId, queue.connectionQueue, table.inUse
      ensures View() == Do(old(View()), Step.Syn(peer, wellFormed))
    {
      hide Inv, Enqueue;
      if peer != NO_PEER {
        var _ := queue.EnqueueConnection(peer, wellFormed, table, completions, accepted);
      }
    }
  }

  /** Whatever happens to a listening socket, its state is that of the run, and what is proved of runs holds of it. */
  method RunListener(backlog: nat, steps: seq<Step>) returns (l: Listener)
    ensures l.Valid() && l.View() == Run(Listening(backlog, {}), steps) && Inv(l.View()) && Ordered(l.View())
  {
    l := new Listener(backlog);
    for n := 0 to |steps|
      invariant l.Valid() && fresh(l) && fresh(l.queue) && fresh(l.table)
      invariant fresh(l.queue.connectionQueue) && fresh(l.table.inUse)
      invariant l.View() == Run(Listening(backlog, {}), steps[..n])
    {
      BacklogInvariant(backlog, {}, steps[..n]);
      ghost var b := l.View();
      assert steps[..n + 1][..n] == steps[..n];
      hide Inv, Ordered, Enqueue;
      match steps[n] {
        case Syn(peer, ok) => l.Syn(peer, ok);
        case Complete(sd) => l.Complete(sd);
        case Accept => var _ := l.Accept();
        case Socket => var _ := l.table.New();
        case Close(sd) => l.Close(sd);
      }
      assert l.View() == Do(b, steps[n]);
    }
    assert steps[..|steps|] == steps;
    BacklogInvariant(backlog, {}, steps);
  }
}
