/** What each step does to the ARP cache and the request queue, told from the states before and after. */
module ArpSteps {
  import opened Base
  import opened Arp

  // ---- the cache ----

  /** A reply is stored in the first invalid entry; a full table stays as it is. */
  lemma ReplyStores(c: Cache, mac: seq<byte>, ip: nat, now: int)
    ensures var es, es' := c.entries, Do(c, Reply(mac, ip, now)).entries;
            if forall i :: 0 <= i < |es| ==> es[i].valid then es' == es
            else exists i :: 0 <= i < |es| && !es[i].valid && (forall j :: 0 <= j < i ==> es[j].valid)
                             && es' == es[i := Entry(mac, ip, now, true)]
  {
    var i := FirstInvalid(c.entries);
    hide IndexOf;
  }

  /** A pass of the timeout thread invalidates exactly the entries more than 15 seconds old. */
  lemma TickExpires(c: Cache, now: int, clocks: Clocks)
    ensures var es, es' := c.entries, Do(c, Tick(now, clocks)).entries;
            && |es'| == |es|
            && forall i :: 0 <= i < |es| ==>
                 es'[i] == if es[i].valid && now - es[i].added > 15 then es[i].(valid := false) else es[i]
  {
    SweepKeepsEntries(c.(entries := ExpireAll(c.entries, now)), 0, 0, clocks);
  }

  lemma {:induction false} SweepKeepsEntries(c: Cache, k: nat, n: nat, clocks: Clocks)
    requires k <= |c.requests|
    ensures SweepFrom(c, k, n, clocks).entries == c.entries
    decreases |c.requests| - k
  {
    if k < |c.requests| {
      var gone := Kept(c.requests[k], clocks(n)) == [];
      SweepKeepsEntries(Handle(c, k, clocks(n)), if gone then k else k + 1, n + 1, clocks);
    }
  }

  lemma SendKeepsEntries(c: Cache, ip: nat, packet: Option<Packet>, clock: Clock)
    ensures Do(c, Send(ip, packet, clock)).entries == c.entries
  {
    hide IndexOf, Kept, Sends;
  }

  /** The table always has 100 entries. */
  lemma {:induction false} TableSize(steps: seq<Step>)
    ensures |Run(Empty(), steps).entries| == 100
  {
    if |steps| > 0 {
      TableSize(steps[..|steps| - 1]);
      var c := Run(Empty(), steps[..|steps| - 1]);
      hide Run;
      match steps[|steps| - 1]
      case Send(ip, packet, clock) => SendKeepsEntries(c, ip, packet, clock);
      case Reply(mac, ip, now) => ReplyStores(c, mac, ip, now);
      case Tick(now, clocks) => TickExpires(c, now, clocks);
    }
  }

  /** `e` is in the table, the only valid entry of its address. */
  predicate Sole(es: seq<Entry>, e: Entry) {
    exists k :: 0 <= k < |es| && es[k] == e && e.valid && forall j :: 0 <= j < |es| && j != k ==> !Maps(es[j], e.ip)
  }

  predicate Unmapped(es: seq<Entry>, ip: nat) {
    forall j :: 0 <= j < |es| ==> !Maps(es[j], ip)
  }

  predicate RepliesFor(step: Step, ip: nat) { step.Reply? && step.ip == ip }

  predicate Expires(step: Step, e: Entry) { step.Tick? && step.now - e.added > 15 }

  lemma SoleFound(es: seq<Entry>, e: Entry)
    ensures Sole(es, e) ==> LastValid(es, e.ip) == Some(e)
    ensures Unmapped(es, e.ip) ==> LastValid(es, e.ip) == None
  {
    LastValidIs(es, e.ip);
  }

  /** A mapping stays until it is too old; once gone it stays away until another reply. */
  lemma MappingStep(c: Cache, e: Entry, step: Step)
    requires !RepliesFor(step, e.ip)
    ensures Sole(c.entries, e) ==>
              if Expires(step, e) then Unmapped(Do(c, step).entries, e.ip) else Sole(Do(c, step).entries, e)
    ensures Unmapped(c.entries, e.ip) ==> Unmapped(Do(c, step).entries, e.ip)
  {
    match step
    case Send(ip, packet, clock) => SendKeepsEntries(c, ip, packet, clock);
    case Reply(mac, ip, now) =>
      ReplyStores(c, mac, ip, now);
      hide Do;
      ReplyElsewhere(c.entries, Do(c, step).entries, Entry(mac, ip, now, true), e);
    case Tick(now, clocks) =>
      TickExpires(c, now, clocks);
      hide Do;
      ExpiryElsewhere(c.entries, Do(c, step).entries, now, e);
  }

  lemma ReplyElsewhere(es: seq<Entry>, es': seq<Entry>, f: Entry, e: Entry)
    requires f.ip != e.ip
    requires es' == es || exists i :: 0 <= i < |es| && !es[i].valid && es' == es[i := f]
    ensures Sole(es, e) ==> Sole(es', e)
    ensures Unmapped(es, e.ip) ==> Unmapped(es', e.ip)
  {
    if Sole(es, e) {
      var k :| 0 <= k < |es| && es[k] == e && e.valid && forall j :: 0 <= j < |es| && j != k ==> !Maps(es[j], e.ip);
      assert es'[k] == e;
    }
  }

  lemma ExpiryElsewhere(es: seq<Entry>, es': seq<Entry>, now: int, e: Entry)
    requires |es'| == |es|
    requires forall i :: 0 <= i < |es| ==>
               es'[i] == if es[i].valid && now - es[i].added > 15 then es[i].(valid := false) else es[i]
    ensures Sole(es, e) ==> if now - e.added > 15 then Unmapped(es', e.ip) else Sole(es', e)
    ensures Unmapped(es, e.ip) ==> Unmapped(es', e.ip)
  {
    if Sole(es, e) {
      var k :| 0 <= k < |es| && es[k] == e && e.valid && forall j :: 0 <= j < |es| && j != k ==> !Maps(es[j], e.ip);
      if now - e.added <= 15 {
        assert es'[k] == e;
      }
    }
  }

  predicate SomeExpires(steps: seq<Step>, e: Entry) { exists i :: 0 <= i < |steps| && Expires(steps[i], e) }

  predicate NoReplyFor(steps: seq<Step>, ip: nat) { forall i :: 0 <= i < |steps| ==> !RepliesFor(steps[i], ip) }

  lemma SomeExpiresLast(steps: seq<Step>, e: Entry)
    requires |steps| > 0
    ensures var n := |steps| - 1;
            SomeExpires(steps, e) <==> SomeExpires(steps[..n], e) || Expires(steps[n], e)
  {
    var n := |steps| - 1;
    if SomeExpires(steps[..n], e) {
      var i :| 0 <= i < n && Expires(steps[..n][i], e);
      assert Expires(steps[i], e);
    }
    if SomeExpires(steps, e) {
      var i :| 0 <= i < |steps| && Expires(steps[i], e);
      assert i < n ==> Expires(steps[..n][i], e);
    }
  }

  lemma {:induction false} MappingRun(c: Cache, e: Entry, steps: seq<Step>)
    requires Sole(c.entries, e) && NoReplyFor(steps, e.ip)
    ensures var es := Run(c, steps).entries;
            if SomeExpires(steps, e) then Unmapped(es, e.ip) else Sole(es, e)
  {
    if |steps| > 0 {
      var n := |steps| - 1;
      assert NoReplyFor(steps[..n], e.ip) && !RepliesFor(steps[n], e.ip);
      hide Do, Sole, Unmapped, Expires, NoReplyFor;
      SomeExpiresLast(steps, e);
      hide SomeExpires;
      MappingRun(c, e, steps[..n]);
      MappingStep(Run(c, steps[..n]), e, steps[n]);
    } else {
      assert !SomeExpires(steps, e);
    }
  }

  /**
   A learned address is found until it is 15 seconds old: after a reply with room in the table and no valid entry of
   the address, and whatever happens then short of another reply for it, a lookup finds exactly that entry until a
   timeout pass more than 15 seconds later, and nothing afterwards.
   */
  lemma LearnedUntilExpiry(c: Cache, mac: seq<byte>, ip: nat, now: int, steps: seq<Step>)
    requires Unmapped(c.entries, ip) && exists i :: 0 <= i < |c.entries| && !c.entries[i].valid
    requires NoReplyFor(steps, ip)
    ensures var e := Entry(mac, ip, now, true);
            LastValid(Run(Do(c, Reply(mac, ip, now)), steps).entries, ip) ==
              if SomeExpires(steps, e) then None else Some(e)
  {
    var e, c' := Entry(mac, ip, now, true), Do(c, Reply(mac, ip, now));
    ReplyStores(c, mac, ip, now);
    hide Do, Run;
    var k :| 0 <= k < |c.entries| && !c.entries[k].valid && c'.entries == c.entries[k := e];
    assert c'.entries[k] == e;
    assert Sole(c'.entries, e);
    hide Sole, Unmapped;
    MappingRun(c', e, steps);
    SoleFound(Run(c', steps).entries, e);
  }

  // ---- the requests ----

  /** What becomes of one request at a clock: nothing within a second, the end after five broadcasts, or another one. */
  predicate Treated(r: Request, clock: Clock, kept: seq<Request>, sent: seq<Event>) {
    if clock.tested - r.sent <= 1 then kept == [r] && sent == []
    else if r.timesSent >= 5 then
      kept == [] && |sent| == |r.packets| && forall i :: 0 <= i < |sent| ==> sent[i] == Unreachable(r.packets[i])
    else
      && kept == [Request(r.id, r.ip, clock.stored, r.timesSent + 1, r.packets)]
      && sent == [Broadcast(r.id, r.ip, clock)]
  }

  lemma HandleTreats(c: Cache, k: nat, clock: Clock)
    requires k < |c.requests|
    ensures Treated(c.requests[k], clock, Kept(c.requests[k], clock), Sends(c.requests[k], clock))
  {
  }

  /** The request of an address, or the one that would be created for it. */
  predicate IsRequestOf(c: Cache, ip: nat, r: Request) {
    || (r in c.requests && r.ip == ip)
    || (r == Request(c.next, ip, 0, 0, []) && forall q :: q in c.requests ==> q.ip != ip)
  }

  /**
   A packet to send joins the request of its own address, ahead of those already waiting, and that request is treated at
   once; no other request changes.
   */
  lemma SendJoins(c: Cache, ip: nat, packet: Option<Packet>, clock: Clock, r: Request)
    requires Distinct(c.requests, c.next) && IsRequestOf(c, ip, r)
    ensures var c' := Do(c, Send(ip, packet, clock));
            var joined := r.(packets := (if packet.Some? then [packet.value] else []) + r.packets);
            && (exists kept, sent :: Treated(joined, clock, kept, sent) && c'.log == c.log + sent
                                     && (forall q :: q in c'.requests && q.ip == ip <==> q in kept))
            && (forall q: Request :: q.ip != ip ==> (q in c'.requests <==> q in c.requests))
  {
    var joined := r.(packets := (if packet.Some? then [packet.value] else []) + r.packets);
    var c1 := Queue(c, ip, packet);
    var k := IndexOf(c1.requests, ip);
    QueueDistinct(c, ip, packet);
    QueueJoins(c, ip, packet, r);
    HandleTreats(c1, k, clock);
    HandleMembers(c1, k, clock);
    hide Treated, Kept, Sends, Queue, IndexOf, Distinct;
    assert Do(c, Send(ip, packet, clock)) == Handle(c1, k, clock);
    assert Treated(joined, clock, Kept(joined, clock), Sends(joined, clock));
  }

  lemma QueueJoins(c: Cache, ip: nat, packet: Option<Packet>, r: Request)
    requires Distinct(c.requests, c.next) && IsRequestOf(c, ip, r)
    ensures var c1 := Queue(c, ip, packet);
            var k := IndexOf(c1.requests, ip);
            && c1.log == c.log && k < |c1.requests|
            && c1.requests[k] == r.(packets := (if packet.Some? then [packet.value] else []) + r.packets)
            && (forall q: Request :: q.ip != ip ==> (q in c1.requests <==> q in c.requests))
  {
    var k0 := IndexOf(c.requests, ip);
    var first := if k0 < |c.requests| then c.requests else [Request(c.next, ip, 0, 0, [])] + c.requests;
    var j := if k0 < |c.requests| then k0 else 0;
    var joined := r.(packets := (if packet.Some? then [packet.value] else []) + r.packets);
    assert [] + r.packets == r.packets;
    assert first[j] == r;
    QueueIs(c, ip, packet);
    QueueDistinct(c, ip, packet);
    hide Queue;
    assert Queue(c, ip, packet).requests == first[j := joined];
    assert IndexOf(first[j := joined], ip) == j;
    hide IndexOf, Distinct;
    UpdateMembers(first, j, joined);
    NewMember(r, c.requests);
  }

  lemma QueueIs(c: Cache, ip: nat, packet: Option<Packet>)
    ensures var k := IndexOf(c.requests, ip);
            var first := if k < |c.requests| then c.requests else [Request(c.next, ip, 0, 0, [])] + c.requests;
            var j := if k < |c.requests| then k else 0;
            var r := first[j];
            && Queue(c, ip, packet).log == c.log
            && Queue(c, ip, packet).requests ==
                 first[j := r.(packets := (if packet.Some? then [packet.value] else []) + r.packets)]
  {
    var k := IndexOf(c.requests, ip);
    if packet.None? {
      var first := if k < |c.requests| then c.requests else [Request(c.next, ip, 0, 0, [])] + c.requests;
      var j := if k < |c.requests| then k else 0;
      assert [] + first[j].packets == first[j].packets;
      assert first[j := first[j]] == first;
    }
  }

  lemma UpdateMembers(rs: seq<Request>, k: nat, r: Request)
    requires k < |rs| && r.ip == rs[k].ip
    ensures forall q: Request :: q.ip != r.ip ==> (q in rs[k := r] <==> q in rs)
  {
    forall q: Request | q.ip != r.ip
      ensures q in rs[k := r] <==> q in rs
    {
      if q in rs {
        var i :| 0 <= i < |rs| && rs[i] == q;
        assert rs[k := r][i] == q;
      }
    }
  }

  lemma NewMember(r: Request, rs: seq<Request>)
    ensures forall q: Request :: q.ip != r.ip ==> (q in [r] + rs <==> q in rs)
  {
  }

  lemma HandleMembers(c: Cache, k: nat, clock: Clock)
    requires Distinct(c.requests, c.next) && k < |c.requests|
    ensures var ip := c.requests[k].ip;
            && (forall q :: q in Handle(c, k, clock).requests && q.ip == ip <==> q in Kept(c.requests[k], clock))
            && (forall q: Request :: q.ip != ip ==> (q in Handle(c, k, clock).requests <==> q in c.requests))
            && Handle(c, k, clock).log == c.log + Sends(c.requests[k], clock)
  {
    var a, d := c.requests[..k], c.requests[k + 1..];
    var kept := Kept(c.requests[k], clock);
    assert forall q :: q in kept ==> q.ip == c.requests[k].ip;
    assert forall q :: q in a + kept + d <==> q in a || q in kept || q in d;
    assert c.requests == a + [c.requests[k]] + d;
    assert forall q :: q in a || q in d ==> q.ip != c.requests[k].ip;
  }

  /** A sweep treats every request once, in order, each at its own clock. */
  lemma {:induction false} SweepTreats(c: Cache, k: nat, n: nat, clocks: Clocks)
    requires k <= |c.requests|
    ensures var c' := SweepFrom(c, k, n, clocks);
            && c'.requests == c.requests[..k] + AllKept(c.requests[k..], n, clocks)
            && c'.log == c.log + AllSent(c.requests[k..], n, clocks)
    decreases |c.requests| - k
  {
    if k == |c.requests| {
      assert c.requests[..k] + [] == c.requests && c.log + [] == c.log;
    } else {
      var r, clock := c.requests[k], clocks(n);
      var rest := c.requests[k + 1..];
      var c1 := Handle(c, k, clock);
      var k1 := if Kept(r, clock) == [] then k else k + 1;
      HandleRequests(c, k, clock);
      hide Kept, Sends;
      SweepTreats(c1, k1, n + 1, clocks);
      Cons(r, rest);
      assert c.requests[k..] == [r] + rest;
      assert c1.requests[k1..] == rest && c1.requests[..k1] == c.requests[..k] + Kept(r, clock);
      Concat(c.requests[..k], Kept(r, clock), AllKept(rest, n + 1, clocks));
      Concat(c.log, Sends(r, clock), AllSent(rest, n + 1, clocks));
    }
  }

  function AllKept(rs: seq<Request>, n: nat, clocks: Clocks): seq<Request> {
    if rs == [] then [] else Kept(rs[0], clocks(n)) + AllKept(rs[1..], n + 1, clocks)
  }

  function AllSent(rs: seq<Request>, n: nat, clocks: Clocks): seq<Event> {
    if rs == [] then [] else Sends(rs[0], clocks(n)) + AllSent(rs[1..], n + 1, clocks)
  }

  lemma {:induction false} AllKeptHas(rs: seq<Request>, n: nat, clocks: Clocks, i: nat)
    requires i < |rs| && rs[i].timesSent < 5
    ensures exists q :: q in AllKept(rs, n, clocks) && q.id == rs[i].id
  {
    if i == 0 {
      HandleKeeps(rs[0], clocks(n));
      assert Kept(rs[0], clocks(n))[0] in AllKept(rs, n, clocks);
    } else {
      AllKeptHas(rs[1..], n + 1, clocks, i - 1);
    }
  }

  lemma HandleKeeps(r: Request, clock: Clock)
    requires r.timesSent < 5
    ensures |Kept(r, clock)| == 1 && Kept(r, clock)[0].id == r.id
  {
  }

  predicate Present(c: Cache, id: nat) { exists q :: q in c.requests && q.id == id }

  lemma SendKeepsRequest(c: Cache, ip: nat, packet: Option<Packet>, clock: Clock, r: Request)
    requires Distinct(c.requests, c.next) && r in c.requests && r.timesSent < 5
    ensures Present(Do(c, Send(ip, packet, clock)), r.id)
  {
    var c' := Do(c, Send(ip, packet, clock));
    var q0 := if exists q :: q in c.requests && q.ip == ip then Some(Found(c, ip)) else None;
    var q := if q0.Some? then q0.value else Request(c.next, ip, 0, 0, []);
    SendJoins(c, ip, packet, clock, q);
    hide Do;
    if r.ip == ip {
      assert r == q;
      var joined := r.(packets := (if packet.Some? then [packet.value] else []) + r.packets);
      var kept, sent :| Treated(joined, clock, kept, sent) && c'.log == c.log + sent
                        && (forall q :: q in c'.requests && q.ip == ip <==> q in kept);
      assert kept[0] in kept;
    } else {
      assert r in c'.requests;
    }
  }

  /** The pending request of an address. */
  ghost function Found(c: Cache, ip: nat): (r: Request)
    requires exists q :: q in c.requests && q.ip == ip
    ensures r in c.requests && r.ip == ip
  {
    var q :| q in c.requests && q.ip == ip;
    q
  }

  /** Without a reply, a request leaves the queue only after exactly five broadcasts. */
  lemma GivenUpAfterFive(steps: seq<Step>, step: Step, r: Request)
    requires var c := Run(Empty(), steps); r in c.requests && !Present(Do(c, step), r.id)
    requires !RepliesFor(step, r.ip)
    ensures |Times(Run(Empty(), steps).log, r.id)| == 5
  {
    var c := Run(Empty(), steps);
    ArpInvariant(steps);
    hide Run, Empty;
    var i :| 0 <= i < |c.requests| && c.requests[i] == r;
    FiveAtMost(c, i);
    if r.timesSent < 5 {
      hide Times;
      match step
      case Send(ip, packet, clock) =>
        SendKeepsRequest(c, ip, packet, clock, r);
        assert false;
      case Reply(mac, ip, now) =>
        ReplyKeepsRequest(c, mac, ip, now, r);
        assert false;
      case Tick(now, clocks) =>
        TickKeepsRequest(c, now, clocks, i);
        assert false;
    }
  }

  lemma FiveAtMost(c: Cache, i: nat)
    requires Inv(c) && i < |c.requests|
    ensures |Times(c.log, c.requests[i].id)| == c.requests[i].timesSent <= 5
  {
    hide Times, Distinct, Conserved;
    assert Spaced(Times(c.log, c.requests[i].id)) && OnSchedule(c.requests[i], c.log);
  }

  lemma ReplyKeepsRequest(c: Cache, mac: seq<byte>, ip: nat, now: int, r: Request)
    requires r in c.requests && r.ip != ip
    ensures Present(Do(c, Reply(mac, ip, now)), r.id)
  {
    hide Insert;
    InsertParts(c, mac, ip, now);
    var k := IndexOf(c.requests, ip);
    if k < |c.requests| {
      hide IndexOf;
      OthersStay(c.requests, k, r);
    }
  }

  lemma OthersStay(rs: seq<Request>, k: nat, r: Request)
    requires k < |rs| && r in rs && r != rs[k]
    ensures r in rs[..k] + rs[k + 1..]
  {
    assert rs == rs[..k] + [rs[k]] + rs[k + 1..];
  }

  lemma TickKeepsRequest(c: Cache, now: int, clocks: Clocks, i: nat)
    requires i < |c.requests| && c.requests[i].timesSent < 5
    ensures Present(Do(c, Tick(now, clocks)), c.requests[i].id)
  {
    var c1 := c.(entries := ExpireAll(c.entries, now));
    SweepTreats(c1, 0, 0, clocks);
    assert c1.requests[0..] == c.requests && c1.requests[..0] == [];
    AllKeptHas(c.requests, 0, clocks, i);
    hide SweepFrom, AllKept;
    assert [] + AllKept(c.requests, 0, clocks) == AllKept(c.requests, 0, clocks);
  }

  /** A lookup in a cache that has gone through any steps. */
  method LookupAfter(steps: seq<Step>, ip: nat) returns (r: Option<Entry>)
    ensures r == LastValid(Run(Empty(), steps).entries, ip)
  {
    var cache, handed, queued := RunCache(steps);
    r := cache.Lookup(ip);
  }
}
