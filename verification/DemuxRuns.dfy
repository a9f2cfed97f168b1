/** What becomes of a connection request in every run of a listening socket, told from its states alone. */
module DemuxRuns {
  import opened Base
  import opened Demux

  /**
   The request of `peer` is queued: it goes into the first free slot with the lowest free descriptor and a fresh number,
   and the counter rises by one.
   */
  predicate Queued(b: Backlog, b': Backlog, peer: Peer, k: nat, d: int) {
    && k < |b.slots| && b.slots[k].sd < 0 && (forall j :: 0 <= j < k ==> b.slots[j].sd >= 0)
    && 0 <= d < 64 && d !in b.open && (forall j :: 0 <= j < d ==> j in b.open)
    && b' == b.(slots := b.slots[k := Slot(peer, d, b.next)], curLen := b.curLen + 1,
                open := b.open + {d}, next := b.next + 1)
  }

  predicate NotPending(b: Backlog, peer: Peer) { forall k :: 0 <= k < |b.slots| ==> b.slots[k].peer != peer }

  predicate HasFreeSlot(b: Backlog) { exists k :: 0 <= k < |b.slots| && b.slots[k].sd < 0 }

  predicate HasFreeDescriptor(b: Backlog) { exists d :: 0 <= d < 64 && d !in b.open }

  /** A well-formed SYN of a new peer is queued if there is a slot and a descriptor; otherwise nothing changes. */
  lemma SynQueues(b: Backlog, peer: Peer, wellFormed: bool)
    requires Inv(b) && peer != NO_PEER
    ensures var b' := Do(b, Syn(peer, wellFormed));
            if wellFormed && NotPending(b, peer) && HasFreeSlot(b) && HasFreeDescriptor(b) then
              exists k, d :: Queued(b, b', peer, k, d)
            else b' == b
  {
    FreeSlotExists(b.slots);
    var k, d := FirstFree(b.slots), NewDescriptor(b.open);
    hide Inv, Occupied;
    assert b.curLen == Occupied(b.slots) by { CountIs(b); }
    assert HasFreeSlot(b) <==> k < |b.slots| by {
      assert k < |b.slots| ==> b.slots[k].sd < 0;
    }
    assert HasFreeDescriptor(b) <==> d >= 0;
    assert NotPending(b, peer) <==> !Pending(b.slots, peer);
    if wellFormed && NotPending(b, peer) && HasFreeSlot(b) && HasFreeDescriptor(b) {
      assert Queued(b, Do(b, Syn(peer, wellFormed)), peer, k, d);
    }
  }

  lemma CountIs(b: Backlog)
    requires Inv(b)
    ensures b.curLen == Occupied(b.slots)
  {
  }

  /** A listening socket keeps one slot more than its backlog, in every run. */
  lemma {:induction false} SlotCount(backlog: nat, open: set<int>, steps: seq<Step>)
    ensures |Run(Listening(backlog, open), steps).slots| == backlog + 1
  {
    if steps != [] {
      hide Enabled, FirstFree, FirstWith, NewDescriptor, Pending;
      SlotCount(backlog, open, steps[..|steps| - 1]);
    }
  }

  /** Another socket takes the lowest free descriptor, if there is one; closing one gives its descriptor back. */
  lemma OtherSockets(b: Backlog, sd: int)
    ensures if HasFreeDescriptor(b) then
              exists d :: 0 <= d < 64 && d !in b.open && (forall j :: 0 <= j < d ==> j in b.open)
                          && Do(b, Socket) == b.(open := b.open + {d})
            else Do(b, Socket) == b
    ensures Do(b, Close(sd)) ==
            if sd in b.open && (forall k :: 0 <= k < |b.slots| ==> b.slots[k].sd != sd) then b.(open := b.open - {sd})
            else b
  {
    var d := NewDescriptor(b.open);
    assert HasFreeDescriptor(b) <==> d >= 0;
  }

  // ---- from the request to the accept ----

  /** The connection sits in its slot, or has been accepted. */
  predicate Tracked(b: Backlog, x: Slot) {
    x in b.slots || x in b.accepted
  }

  lemma TrackedStep(b: Backlog, x: Slot, step: Step)
    requires Inv(b) && Tracked(b, x) && x.sd >= 0
    ensures Tracked(Do(b, step), x)
  {
    hide Inv, Pending, NewDescriptor;
    var b' := Do(b, step);
    if x in b.accepted {
      assert x in b'.accepted;
    } else if b' != b {
      var k :| 0 <= k < |b.slots| && b.slots[k] == x;
      if k < |b'.slots| && b'.slots[k] == x {
        assert x in b'.slots;
      } else {
        assert x in b'.accepted;
      }
    }
  }

  lemma {:induction false} TrackedRun(b: Backlog, x: Slot, steps: seq<Step>)
    requires Inv(b) && Ordered(b) && Tracked(b, x) && x.sd >= 0
    ensures Inv(Run(b, steps)) && Ordered(Run(b, steps)) && Tracked(Run(b, steps), x)
  {
    if steps != [] {
      hide Inv, Ordered, Tracked, Do;
      TrackedRun(b, x, steps[..|steps| - 1]);
      var b1 := Run(b, steps[..|steps| - 1]);
      DoInv(b1, steps[|steps| - 1]);
      TrackedStep(b1, x, steps[|steps| - 1]);
    }
  }

  /** After its completion is reported a connection is among the completed ones. */
  lemma CompletionRecorded(b: Backlog, x: Slot)
    requires Inv(b) && Ordered(b) && Tracked(b, x) && x.sd >= 0
    ensures x in Do(b, Complete(x.sd)).completions
  {
    hide OnceEach, NotYet, Occupied, DescriptorsOpen;
    if x in b.accepted {
      assert x in b.completions;
    } else {
      var k :| 0 <= k < |b.slots| && b.slots[k] == x;
      if k in b.completed {
        var i :| 0 <= i < |b.completed| && b.completed[i] == k;
        assert b.completions[|b.accepted| + i] == x;
      } else {
        JustCompleted(b, k);
      }
    }
  }

  lemma JustCompleted(b: Backlog, k: nat)
    requires Inv(b) && k < |b.slots| && b.slots[k].sd >= 0 && k !in b.completed
    ensures Do(b, Complete(b.slots[k].sd)).completions == b.completions + [b.slots[k]]
  {
    assert Enabled(b, Complete(b.slots[k].sd));
    CompleteFinds(b, b.slots[k].sd);
    assert FirstWith(b.slots, b.slots[k].sd) == k;
    hide Inv, Enabled, FirstWith;
  }

  function Accepts(steps: seq<Step>): nat {
    if steps == [] then 0
    else Accepts(steps[..|steps| - 1]) + (if steps[|steps| - 1] == Accept then 1 else 0)
  }

  lemma AcceptStep(b: Backlog, step: Step)
    requires Inv(b) && Ordered(b)
    ensures var b' := Do(b, step);
            && b.completions <= b'.completions && |b'.accepted| >= |b.accepted|
            && (step == Accept && b.completed != [] ==> |b'.accepted| == |b.accepted| + 1)
  {
    if b.completed != [] {
      AcceptReady(b);
    }
    hide Inv, Ordered, Pending, NewDescriptor, FirstWith, FirstFree;
  }

  lemma OrderedParts(b: Backlog)
    requires Ordered(b)
    ensures |b.completions| == |b.accepted| + |b.completed| && b.accepted <= b.completions
  {
  }

  /** Accepts drain what has completed. */
  lemma {:induction false} AcceptsDrain(b: Backlog, steps: seq<Step>)
    requires Inv(b) && Ordered(b)
    ensures var t := Run(b, steps);
            && Inv(t) && Ordered(t) && b.completions <= t.completions
            && |t.accepted| >= |b.accepted| + Min(Accepts(steps), |b.completed|)
  {
    hide Inv, Ordered, Do;
    OrderedParts(b);
    if steps != [] {
      AcceptsDrain(b, steps[..|steps| - 1]);
      var b1 := Run(b, steps[..|steps| - 1]);
      DoInv(b1, steps[|steps| - 1]);
      AcceptStep(b1, steps[|steps| - 1]);
      OrderedParts(b1);
    }
  }

  /**
   Every queued connection is handed out: once its completion has been reported, whatever happened before, enough
   accepts return it, with the descriptor it was given, whatever else happens in between.
   */
  lemma SynIsAccepted(b: Backlog, peer: Peer, k: nat, d: int, between: seq<Step>, after: seq<Step>)
    requires Inv(b) && Ordered(b) && peer != NO_PEER
    requires Queued(b, Do(b, Syn(peer, true)), peer, k, d)
    requires var b1 := Do(b, Syn(peer, true));
             Accepts(after) >= |Do(Run(b1, between), Complete(d)).completed|
    ensures var b1 := Do(b, Syn(peer, true));
            Slot(peer, d, b.next) in Run(Do(Run(b1, between), Complete(d)), after).accepted
  {
    var x, b1 := Slot(peer, d, b.next), Do(b, Syn(peer, true));
    assert b1.slots[k] == x;
    hide Inv, Ordered, Do, Run, Queued, Accepts;
    DoInv(b, Syn(peer, true));
    TrackedRun(b1, x, between);
    var b2 := Run(b1, between);
    var b3 := Do(b2, Complete(d));
    CompletionRecorded(b2, x);
    DoInv(b2, Complete(d));
    AcceptsDrain(b3, after);
    var b4 := Run(b3, after);
    OrderedParts(b3);
    OrderedParts(b4);
    var i :| 0 <= i < |b3.completions| && b3.completions[i] == x;
    assert b4.accepted[i] == b4.completions[i] == x;
  }
}
