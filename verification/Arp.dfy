/**
 The ARP cache and request queue of Router/src/router/sr_arpcache.c. Sending an ARP or ICMP packet is an entry
 in an event log; clock readings, in whole seconds, are inputs.
 */
module Arp {
  import opened Base

  const SR_ARPCACHE_SZ: int := 100
  const SR_ARPCACHE_TO: int := 15
  const MAX_SENDS: int := 5

  type Packet = seq<byte>

  datatype Entry = Entry(mac: seq<byte>, ip: nat, added: int, valid: bool)

  /** `id` numbers the requests as they are created. */
  datatype Request = Request(id: nat, ip: nat, sent: int, timesSent: nat, packets: seq<Packet>)

  /** `handle_arpreq` reads the clock twice: the first reading is stored, the second one is tested. */
  datatype Readings = Readings(stored: int, tested: int)
  type Clock = r: Readings | r.stored <= r.tested witness Readings(0, 0)

  datatype Event = Broadcast(id: nat, ip: nat, at: Clock) | Unreachable(packet: Packet)

  /** `log`, `queued` and `handed` record what was sent, queued and handed back by an insertion. */
  datatype Cache = Cache(
    entries: seq<Entry>, requests: seq<Request>,
    next: nat, log: seq<Event>, queued: seq<Packet>, handed: seq<Packet>)

  // ---- searches ----

  function IndexOf(rs: seq<Request>, ip: nat): nat { FirstIndex(rs, (r: Request) => r.ip == ip) }

  function FirstInvalid(es: seq<Entry>): nat { FirstIndex(es, (e: Entry) => !e.valid) }

  // ---- operations ----

  /** `sr_arpcache_queuereq`: requests and packets are pushed at the front. */
  function Queue(c: Cache, ip: nat, packet: Option<Packet>): Cache {
    var k := IndexOf(c.requests, ip);
    var c1 :=
      if k < |c.requests| then c
      else c.(requests := [Request(c.next, ip, 0, 0, [])] + c.requests, next := c.next + 1);
    var j := if k < |c.requests| then k else 0;
    if packet.None? then c1
    else
      var r := c1.requests[j];
      c1.(requests := c1.requests[j := r.(packets := [packet.value] + r.packets)], queued := c.queued + [packet.value])
  }

  function Unreachables(ps: seq<Packet>): seq<Event> {
    seq(|ps|, i requires 0 <= i < |ps| => Unreachable(ps[i]))
  }

  predicate Due(r: Request, now: Clock) { now.tested - r.sent > 1 }

  /** What `handle_arpreq` leaves of a request: nothing if it is given up. */
  function Kept(r: Request, now: Clock): seq<Request> {
    if !Due(r, now) then [r]
    else if r.timesSent >= MAX_SENDS then []
    else [r.(sent := now.stored, timesSent := r.timesSent + 1)]
  }

  /** What it sends. */
  function Sends(r: Request, now: Clock): seq<Event> {
    if !Due(r, now) then []
    else if r.timesSent >= MAX_SENDS then Unreachables(r.packets)
    else [Broadcast(r.id, r.ip, now)]
  }

  function Handle(c: Cache, k: nat, now: Clock): Cache
    requires k < |c.requests|
  {
    c.(requests := c.requests[..k] + Kept(c.requests[k], now) + c.requests[k + 1..],
       log := c.log + Sends(c.requests[k], now))
  }

  /** `sr_arpcache_insert`: the request is handed back even when the table is full. */
  function Insert(c: Cache, mac: seq<byte>, ip: nat, now: int): Cache {
    var k := IndexOf(c.requests, ip);
    var c1 :=
      if k == |c.requests| then c
      else c.(requests := c.requests[..k] + c.requests[k + 1..], handed := c.handed + c.requests[k].packets);
    var i := FirstInvalid(c.entries);
    if i == |c.entries| then c1 else c1.(entries := c.entries[i := Entry(mac, ip, now, true)])
  }

  function Expired(e: Entry, now: int): Entry {
    if e.valid && now - e.added > SR_ARPCACHE_TO then e.(valid := false) else e
  }

  function ExpireAll(es: seq<Entry>, now: int): (r: seq<Entry>)
    ensures |r| == |es| && forall i :: 0 <= i < |es| ==> r[i] == Expired(es[i], now)
  {
    seq(|es|, i requires 0 <= i < |es| => Expired(es[i], now))
  }

  /** The clock as each request of a sweep finds it. */
  type Clocks = nat -> Clock

  /** `sr_arpcache_sweepreqs` from request `k` on, the `n`-th one handled; requests leave the list on the way. */
  function SweepFrom(c: Cache, k: nat, n: nat, clocks: Clocks): Cache
    requires k <= |c.requests|
    decreases |c.requests| - k
  {
    if k == |c.requests| then c
    else
      var gone := Kept(c.requests[k], clocks(n)) == [];
      SweepFrom(Handle(c, k, clocks(n)), if gone then k else k + 1, n + 1, clocks)
  }

  /** One pass of the timeout thread. */
  function Sweep(c: Cache, now: int, clocks: Clocks): Cache {
    SweepFrom(c.(entries := ExpireAll(c.entries, now)), 0, 0, clocks)
  }

  datatype Step =
    | Send(ip: nat, packet: Option<Packet>, clock: Clock)
    | Reply(mac: seq<byte>, ip: nat, now: int)
    | Tick(now: int, clocks: Clocks)

  function Do(c: Cache, step: Step): Cache {
    match step
    case Send(ip, packet, clock) =>
      var c1 := Queue(c, ip, packet);
      var k := IndexOf(c1.requests, ip);
      if k < |c1.requests| then Handle(c1, k, clock) else c1
    case Reply(mac, ip, now) => Insert(c, mac, ip, now)
    case Tick(now, clocks) => Sweep(c, now, clocks)
  }

  function Run(c: Cache, steps: seq<Step>): Cache {
    if |steps| == 0 then c else Do(Run(c, steps[..|steps| - 1]), steps[|steps| - 1])
  }

  function Empty(): Cache {
    Cache(seq(SR_ARPCACHE_SZ, _ => Entry([], 0, 0, false)), [], 0, [], [], [])
  }

  // ---- at most one request per address ----

  predicate Distinct(rs: seq<Request>, next: nat) {
    && (forall i, j :: 0 <= i < j < |rs| ==> rs[i].ip != rs[j].ip && rs[i].id != rs[j].id)
    && (forall i :: 0 <= i < |rs| ==> rs[i].id < next)
  }

  // ---- broadcasts ----

  /** The clock at each broadcast of request `id`. */
  function Times(log: seq<Event>, id: nat): seq<Clock> {
    if log == [] then []
    else
      var last := log[|log| - 1];
      Times(log[..|log| - 1], id) + (if last.Broadcast? && last.id == id then [last.at] else [])
  }

  /** At most five, each tested more than a second after the time stored for the one before. */
  predicate Spaced(ts: seq<Clock>) {
    |ts| <= MAX_SENDS && forall i :: 0 <= i && i + 1 < |ts| ==> ts[i + 1].tested - ts[i].stored > 1
  }

  ghost predicate OnSchedule(r: Request, log: seq<Event>) {
    var ts := Times(log, r.id);
    |ts| == r.timesSent && (ts != [] ==> r.sent == ts[|ts| - 1].stored)
  }

  ghost predicate Schedule(c: Cache) {
    && (forall id :: Spaced(Times(c.log, id)))
    && (forall id :: id >= c.next ==> Times(c.log, id) == [])
    && (forall i :: 0 <= i < |c.requests| ==> OnSchedule(c.requests[i], c.log))
  }

  // ---- packets ----

  /** The packets of all pending requests. */
  function Waiting(rs: seq<Request>): seq<Packet> {
    if rs == [] then [] else rs[0].packets + Waiting(rs[1..])
  }

  /** The packets reported unreachable. */
  function Reported(log: seq<Event>): seq<Packet> {
    if log == [] then []
    else
      var last := log[|log| - 1];
      Reported(log[..|log| - 1]) + (if last.Unreachable? then [last.packet] else [])
  }

  /** Counting repetitions, the packets of `q` are those of the three others together. */
  ghost predicate Balanced(q: seq<Packet>, waiting: seq<Packet>, handed: seq<Packet>, reported: seq<Packet>) {
    multiset(q) == multiset(waiting) + multiset(handed) + multiset(reported)
  }

  /** Every packet queued is in exactly one place. */
  ghost predicate Conserved(c: Cache) {
    Balanced(c.queued, Waiting(c.requests), c.handed, Reported(c.log))
  }

  ghost predicate Inv(c: Cache) {
    Distinct(c.requests, c.next) && Schedule(c) && Conserved(c)
  }

  lemma {:induction false} TimesAppend(log: seq<Event>, more: seq<Event>, id: nat)
    ensures Times(log + more, id) == Times(log, id) + Times(more, id)
  {
    if more == [] {
      assert log + more == log;
    } else {
      var n := |more| - 1;
      assert (log + more)[..|log + more| - 1] == log + more[..n];
      TimesAppend(log, more[..n], id);
      Concat(Times(log, id), Times(more[..n], id),
             if more[n].Broadcast? && more[n].id == id then [more[n].at] else []);
    }
  }

  lemma {:induction false} NoTimes(more: seq<Event>, id: nat)
    requires forall e :: e in more ==> e.Unreachable?
    ensures Times(more, id) == []
  {
    if more != [] {
      NoTimes(more[..|more| - 1], id);
      assert more[|more| - 1] in more;
    }
  }

  lemma OneTime(e: Event, id: nat)
    ensures Times([e], id) == if e.Broadcast? && e.id == id then [e.at] else []
  {
    assert [e][..0] == [];
  }

  lemma SendTimes(r: Request, now: Clock, id: nat)
    ensures Times(Sends(r, now), id) == if Due(r, now) && r.timesSent < MAX_SENDS && r.id == id then [now] else []
  {
    if Due(r, now) {
      if r.timesSent >= MAX_SENDS {
        NoTimes(Unreachables(r.packets), id);
      } else {
        OneTime(Broadcast(r.id, r.ip, now), id);
      }
    }
  }

  lemma {:induction false} WaitingAppend(rs: seq<Request>, more: seq<Request>)
    ensures Waiting(rs + more) == Waiting(rs) + Waiting(more)
  {
    if rs == [] {
      assert rs + more == more;
    } else {
      WaitingAppend(rs[1..], more);
      assert (rs + more)[1..] == rs[1..] + more;
      Concat(rs[0].packets, Waiting(rs[1..]), Waiting(more));
    }
  }

  lemma WaitingSplit(rs: seq<Request>, k: nat)
    requires k < |rs|
    ensures Waiting(rs) == Waiting(rs[..k]) + (rs[k].packets + Waiting(rs[k + 1..]))
  {
    assert rs == rs[..k] + rs[k..];
    WaitingAppend(rs[..k], rs[k..]);
    assert rs[k..][1..] == rs[k + 1..];
  }

  lemma {:induction false} ReportedAppend(log: seq<Event>, more: seq<Event>)
    ensures Reported(log + more) == Reported(log) + Reported(more)
  {
    if more == [] {
      assert log + more == log;
    } else {
      var n := |more| - 1;
      assert (log + more)[..|log + more| - 1] == log + more[..n];
      ReportedAppend(log, more[..n]);
      Concat(Reported(log), Reported(more[..n]), if more[n].Unreachable? then [more[n].packet] else []);
    }
  }

  lemma {:induction false} ReportedAll(ps: seq<Packet>)
    ensures Reported(Unreachables(ps)) == ps
  {
    if ps != [] {
      var n := |ps| - 1;
      assert Unreachables(ps)[..n] == Unreachables(ps[..n]);
      ReportedAll(ps[..n]);
      assert ps == ps[..n] + [ps[n]];
    }
  }

  // ---- handling one request ----

  /** A request's packets stay with it or are all reported. */
  lemma KeptOrReported(r: Request, now: Clock)
    ensures (Waiting(Kept(r, now)) == r.packets && Reported(Sends(r, now)) == []) ||
            (Waiting(Kept(r, now)) == [] && Reported(Sends(r, now)) == r.packets)
  {
    ReportedAll(r.packets);
    var ks, es := Kept(r, now), Sends(r, now);
    assert ks != [] ==> ks[1..] == [];
    assert es != [] && es[0].Broadcast? ==> es[..0] == [];
  }

  lemma HandleConserves(c: Cache, k: nat, now: Clock)
    requires Conserved(c) && k < |c.requests|
    ensures Conserved(Handle(c, k, now))
  {
    hide Kept, Sends, Waiting, Reported, Balanced;
    var r := c.requests[k];
    var a, d := c.requests[..k], c.requests[k + 1..];
    WaitingSplit(c.requests, k);
    WaitingAppend(a, Kept(r, now));
    WaitingAppend(a + Kept(r, now), d);
    ReportedAppend(c.log, Sends(r, now));
    KeptOrReported(r, now);
    KeepBalance(c.queued, Waiting(a), r.packets, Waiting(d), c.handed, Reported(c.log));
    assert Waiting(a) + [] == Waiting(a) && Reported(c.log) + [] == Reported(c.log);
  }

  lemma BagMove<T>(a: multiset<T>, b: multiset<T>, c: multiset<T>, d: multiset<T>, e: multiset<T>)
    ensures (a + (b + c)) + d + e == (a + c) + (d + b) + e
    ensures (a + (b + c)) + d + e == (a + c) + d + (e + b)
    ensures (a + (b + c)) + d + e == ((a + b) + c) + d + e
  {
  }

  /** Packets in the middle of the waiting ones may stay, be handed over or be reported. */
  lemma KeepBalance(q: seq<Packet>, a: seq<Packet>, b: seq<Packet>, d: seq<Packet>, h: seq<Packet>, u: seq<Packet>)
    requires Balanced(q, a + (b + d), h, u)
    ensures Balanced(q, a + b + d, h, u) && Balanced(q, a + d, h + b, u) && Balanced(q, a + d, h, u + b)
  {
    BagMove(multiset(a), multiset(b), multiset(d), multiset(h), multiset(u));
  }

  lemma AddToBalance(
    q: seq<Packet>, p: Packet, a: seq<Packet>, b: seq<Packet>, d: seq<Packet>, h: seq<Packet>, u: seq<Packet>)
    requires Balanced(q, a + (b + d), h, u)
    ensures Balanced(q + [p], a + (([p] + b) + d), h, u)
  {
    BagMove(multiset{p}, multiset(a), multiset(b) + multiset(d), multiset(h), multiset(u));
    assert multiset(a + (([p] + b) + d)) == multiset(a) + (multiset{p} + multiset(b) + multiset(d));
  }

  /** The requests after one has been handled: the same ones, or all but that one. */
  lemma HandleRequests(c: Cache, k: nat, now: Clock)
    requires k < |c.requests|
    ensures var rs, ks := Handle(c, k, now).requests, Kept(c.requests[k], now);
            if ks == [] then rs == c.requests[..k] + c.requests[k + 1..]
            else rs == c.requests[k := ks[0]] && ks[0].ip == c.requests[k].ip && ks[0].id == c.requests[k].id
  {
    var ks := Kept(c.requests[k], now);
    if ks != [] {
      assert ks == [ks[0]];
      assert c.requests[..k] + [ks[0]] + c.requests[k + 1..] == c.requests[k := ks[0]];
    } else {
      assert c.requests[..k] + [] == c.requests[..k];
    }
  }

  lemma RemoveDistinct(rs: seq<Request>, next: nat, k: nat)
    requires Distinct(rs, next) && k < |rs|
    ensures Distinct(rs[..k] + rs[k + 1..], next)
  {
  }

  lemma HandleDistinct(c: Cache, k: nat, now: Clock)
    requires Distinct(c.requests, c.next) && k < |c.requests|
    ensures Distinct(Handle(c, k, now).requests, c.next)
  {
    HandleRequests(c, k, now);
    hide Handle, Kept;
    RemoveDistinct(c.requests, c.next, k);
  }

  lemma LogTimes(c: Cache, k: nat, now: Clock, id: nat)
    requires k < |c.requests|
    ensures var r := c.requests[k];
            Times(Handle(c, k, now).log, id) ==
              Times(c.log, id) + (if Due(r, now) && r.timesSent < MAX_SENDS && r.id == id then [now] else [])
  {
    TimesAppend(c.log, Sends(c.requests[k], now), id);
    SendTimes(c.requests[k], now, id);
  }

  lemma HandleSpaced(c: Cache, k: nat, now: Clock, id: nat)
    requires Schedule(c) && k < |c.requests|
    ensures Spaced(Times(Handle(c, k, now).log, id))
  {
    LogTimes(c, k, now, id);
    hide Times, Handle;
    var r, ts := c.requests[k], Times(c.log, id);
    assert Spaced(ts) && OnSchedule(r, c.log);
  }

  lemma SentOnSchedule(r: Request, log: seq<Event>, log': seq<Event>, now: Clock)
    requires OnSchedule(r, log) && Times(log', r.id) == Times(log, r.id) + [now]
    ensures OnSchedule(r.(sent := now.stored, timesSent := r.timesSent + 1), log')
  {
    hide Times;
  }

  lemma KeptOnSchedule(c: Cache, k: nat, now: Clock)
    requires Schedule(c) && k < |c.requests| && Kept(c.requests[k], now) != []
    ensures OnSchedule(Kept(c.requests[k], now)[0], Handle(c, k, now).log)
  {
    var r := c.requests[k];
    assert OnSchedule(r, c.log);
    hide Times, Handle, Schedule;
    LogTimes(c, k, now, r.id);
    if Due(r, now) {
      hide OnSchedule;
      SentOnSchedule(r, c.log, Handle(c, k, now).log, now);
    } else {
      assert Times(c.log, r.id) + [] == Times(c.log, r.id);
    }
  }

  lemma OtherOnSchedule(c: Cache, k: nat, now: Clock, r: Request)
    requires k < |c.requests| && r.id != c.requests[k].id && OnSchedule(r, c.log)
    ensures OnSchedule(r, Handle(c, k, now).log)
  {
    LogTimes(c, k, now, r.id);
    assert Times(c.log, r.id) + [] == Times(c.log, r.id);
  }

  lemma HandledOnSchedule(c: Cache, k: nat, now: Clock, i: nat)
    requires Distinct(c.requests, c.next) && Schedule(c) && k < |c.requests| && i < |Handle(c, k, now).requests|
    ensures OnSchedule(Handle(c, k, now).requests[i], Handle(c, k, now).log)
  {
    hide Times, OnSchedule, Spaced;
    HandleRequests(c, k, now);
    hide Handle;
    var ks := Kept(c.requests[k], now);
    if ks != [] && i == k {
      KeptOnSchedule(c, k, now);
    } else {
      var j := if ks == [] && i >= k then i + 1 else i;
      assert Handle(c, k, now).requests[i] == c.requests[j];
      OtherOnSchedule(c, k, now, c.requests[j]);
    }
  }

  lemma HandleSchedule(c: Cache, k: nat, now: Clock)
    requires Distinct(c.requests, c.next) && Schedule(c) && k < |c.requests|
    ensures Schedule(Handle(c, k, now))
  {
    hide Times, OnSchedule, Spaced;
    var c' := Handle(c, k, now);
    forall id: nat
      ensures Spaced(Times(c'.log, id))
    {
      HandleSpaced(c, k, now, id);
    }
    forall id: nat | id >= c.next
      ensures Times(c'.log, id) == []
    {
      LogTimes(c, k, now, id);
    }
    forall i | 0 <= i < |c'.requests|
      ensures OnSchedule(c'.requests[i], c'.log)
    {
      HandledOnSchedule(c, k, now, i);
    }
  }

  lemma HandleInv(c: Cache, k: nat, now: Clock)
    requires Inv(c) && k < |c.requests|
    ensures Inv(Handle(c, k, now))
  {
    hide Distinct, Schedule, Conserved;
    HandleDistinct(c, k, now);
    HandleSchedule(c, k, now);
    HandleConserves(c, k, now);
  }

  lemma {:induction false} SweepInv(c: Cache, k: nat, n: nat, clocks: Clocks)
    requires Inv(c) && k <= |c.requests|
    ensures Inv(SweepFrom(c, k, n, clocks))
    decreases |c.requests| - k
  {
    hide Inv;
    if k < |c.requests| {
      HandleInv(c, k, clocks(n));
      SweepInv(Handle(c, k, clocks(n)), if Kept(c.requests[k], clocks(n)) == [] then k else k + 1, n + 1, clocks);
    }
  }

  // ---- queueing and replies ----

  lemma QueueConserves(c: Cache, ip: nat, packet: Option<Packet>)
    requires Conserved(c)
    ensures Conserved(Queue(c, ip, packet))
  {
    var k := IndexOf(c.requests, ip);
    var rs := if k < |c.requests| then c.requests else [Request(c.next, ip, 0, 0, [])] + c.requests;
    var j := if k < |c.requests| then k else 0;
    assert Waiting(rs) == Waiting(c.requests) by {
      if k == |c.requests| {
        Cons(Request(c.next, ip, 0, 0, []), c.requests);
      }
    }
    if packet.Some? {
      var r := rs[j].(packets := [packet.value] + rs[j].packets);
      WaitingSplit(rs, j);
      WaitingSplit(rs[j := r], j);
      assert rs[j := r][..j] == rs[..j] && rs[j := r][j + 1..] == rs[j + 1..];
      hide Waiting, Reported, Balanced;
      AddToBalance(
        c.queued, packet.value, Waiting(rs[..j]), rs[j].packets, Waiting(rs[j + 1..]), c.handed, Reported(c.log));
    }
  }

  predicate Inherited(rs: seq<Request>, r: Request) {
    exists m :: 0 <= m < |rs| && rs[m].id == r.id && rs[m].timesSent == r.timesSent && rs[m].sent == r.sent
  }

  /** Queueing creates one fresh request or only adds a packet to one. */
  lemma QueueFrom(c: Cache, ip: nat, packet: Option<Packet>, i: nat)
    requires i < |Queue(c, ip, packet).requests|
    ensures var r := Queue(c, ip, packet).requests[i];
            (r.id == c.next && r.timesSent == 0) || Inherited(c.requests, r)
  {
    var r := Queue(c, ip, packet).requests[i];
    var found := IndexOf(c.requests, ip) < |c.requests|;
    if found || i > 0 {
      var m := if found then i else i - 1;
      assert c.requests[m].id == r.id && c.requests[m].timesSent == r.timesSent && c.requests[m].sent == r.sent;
    }
  }

  lemma QueueDistinct(c: Cache, ip: nat, packet: Option<Packet>)
    requires Distinct(c.requests, c.next)
    ensures Distinct(Queue(c, ip, packet).requests, Queue(c, ip, packet).next)
    ensures IndexOf(Queue(c, ip, packet).requests, ip) < |Queue(c, ip, packet).requests|
  {
    var c' := Queue(c, ip, packet);
    var k := IndexOf(c.requests, ip);
    if k < |c.requests| {
      assert c'.requests[k].ip == ip;
      assert |c'.requests| == |c.requests| && c'.next == c.next;
      assert forall i :: 0 <= i < |c.requests| ==>
               c'.requests[i].ip == c.requests[i].ip && c'.requests[i].id == c.requests[i].id;
    } else {
      assert c'.requests[0].ip == ip && c'.requests[0].id == c.next && c'.next == c.next + 1;
      assert |c'.requests| == |c.requests| + 1 && c'.requests[1..] == c.requests;
      assert forall i :: 0 < i < |c'.requests| ==> c'.requests[i] == c.requests[i - 1];
    }
    hide Queue;
  }

  lemma QueuedOnSchedule(c: Cache, ip: nat, packet: Option<Packet>, i: nat)
    requires Schedule(c) && i < |Queue(c, ip, packet).requests|
    ensures OnSchedule(Queue(c, ip, packet).requests[i], c.log)
  {
    hide Times, Spaced;
    QueueFrom(c, ip, packet, i);
    var r := Queue(c, ip, packet).requests[i];
    hide Queue;
    if r.id == c.next && r.timesSent == 0 {
      assert Times(c.log, c.next) == [];
    } else {
      var m :| 0 <= m < |c.requests| && c.requests[m].id == r.id
               && c.requests[m].timesSent == r.timesSent && c.requests[m].sent == r.sent;
      assert OnSchedule(c.requests[m], c.log);
    }
  }

  lemma QueueSchedule(c: Cache, ip: nat, packet: Option<Packet>)
    requires Schedule(c)
    ensures Schedule(Queue(c, ip, packet))
  {
    hide Times, Spaced, OnSchedule;
    forall i | 0 <= i < |Queue(c, ip, packet).requests|
      ensures OnSchedule(Queue(c, ip, packet).requests[i], c.log)
    {
      QueuedOnSchedule(c, ip, packet, i);
    }
  }

  lemma InsertParts(c: Cache, mac: seq<byte>, ip: nat, now: int)
    ensures var (c', k) := (Insert(c, mac, ip, now), IndexOf(c.requests, ip));
            && c'.queued == c.queued && c'.log == c.log && c'.next == c.next
            && c'.requests == (if k == |c.requests| then c.requests else c.requests[..k] + c.requests[k + 1..])
            && c'.handed == (if k == |c.requests| then c.handed else c.handed + c.requests[k].packets)
  {
  }

  lemma InsertConserves(c: Cache, mac: seq<byte>, ip: nat, now: int)
    requires Conserved(c)
    ensures Conserved(Insert(c, mac, ip, now))
  {
    hide Insert, Waiting, Reported, Balanced;
    InsertParts(c, mac, ip, now);
    var k := IndexOf(c.requests, ip);
    if k < |c.requests| {
      var a, ps, d := c.requests[..k], c.requests[k].packets, c.requests[k + 1..];
      WaitingSplit(c.requests, k);
      WaitingAppend(a, d);
      KeepBalance(c.queued, Waiting(a), ps, Waiting(d), c.handed, Reported(c.log));
    }
  }

  lemma InsertSchedule(c: Cache, mac: seq<byte>, ip: nat, now: int)
    requires Distinct(c.requests, c.next) && Schedule(c)
    ensures Distinct(Insert(c, mac, ip, now).requests, c.next) && Schedule(Insert(c, mac, ip, now))
  {
    hide Insert, Times, Spaced, OnSchedule;
    InsertParts(c, mac, ip, now);
    var k := IndexOf(c.requests, ip);
    if k < |c.requests| {
      RemoveDistinct(c.requests, c.next, k);
    }
  }

  lemma QueueInv(c: Cache, ip: nat, packet: Option<Packet>)
    requires Inv(c)
    ensures Inv(Queue(c, ip, packet))
    ensures IndexOf(Queue(c, ip, packet).requests, ip) < |Queue(c, ip, packet).requests|
  {
    hide Distinct, Schedule, Conserved, Queue, IndexOf;
    QueueConserves(c, ip, packet);
    QueueSchedule(c, ip, packet);
    QueueDistinct(c, ip, packet);
  }

  lemma InsertInv(c: Cache, mac: seq<byte>, ip: nat, now: int)
    requires Inv(c)
    ensures Inv(Insert(c, mac, ip, now))
  {
    hide Distinct, Schedule, Conserved;
    InsertConserves(c, mac, ip, now);
    InsertSchedule(c, mac, ip, now);
  }

  lemma DoInv(c: Cache, step: Step)
    requires Inv(c)
    ensures Inv(Do(c, step))
  {
    hide Inv, Queue, Handle, Insert, SweepFrom, IndexOf;
    match step
    case Send(ip, packet, clock) =>
      QueueInv(c, ip, packet);
      var c1 := Queue(c, ip, packet);
      HandleInv(c1, IndexOf(c1.requests, ip), clock);
    case Reply(mac, ip, now) =>
      InsertInv(c, mac, ip, now);
    case Tick(now, clocks) =>
      var c1 := c.(entries := ExpireAll(c.entries, now));
      EntriesApart(c, c1.entries);
      SweepInv(c1, 0, 0, clocks);
  }

  lemma EntriesApart(c: Cache, es: seq<Entry>)
    requires Inv(c)
    ensures Inv(c.(entries := es))
  {
  }

  /**
   In every run of queueing, replies and sweeps: at most one pending request per address; every request is
   broadcast at most five times, each time when the second clock reading is more than one second past the first
   reading of the time before; and every packet queued is still pending, was handed back once, or was reported
   unreachable once.
   */
  lemma {:induction false} ArpInvariant(steps: seq<Step>)
    ensures Inv(Run(Empty(), steps))
  {
    if |steps| > 0 {
      hide Inv, Do;
      ArpInvariant(steps[..|steps| - 1]);
      DoInv(Run(Empty(), steps[..|steps| - 1]), steps[|steps| - 1]);
    }
  }

  // ---- how far apart the recorded broadcasts are ----

  /** The two readings of one call are at most `lag` seconds apart. */
  predicate Prompt(clock: Clock, lag: nat) { clock.tested - clock.stored <= lag }

  ghost predicate PromptStep(step: Step, lag: nat) {
    match step
    case Send(_, _, clock) => Prompt(clock, lag)
    case Reply(_, _, _) => true
    case Tick(_, clocks) => forall n: nat :: Prompt(clocks(n), lag)
  }

  ghost predicate PromptRun(steps: seq<Step>, lag: nat) {
    forall i :: 0 <= i < |steps| ==> PromptStep(steps[i], lag)
  }

  predicate PromptLog(log: seq<Event>, lag: nat) {
    forall i :: 0 <= i < |log| && log[i].Broadcast? ==> Prompt(log[i].at, lag)
  }

  /** Consecutive recorded times of each request are more than `gap` seconds apart. */
  ghost predicate Apart(log: seq<Event>, gap: int) {
    forall id, i :: 0 <= i && i + 1 < |Times(log, id)| ==> Times(log, id)[i + 1].stored - Times(log, id)[i].stored > gap
  }

  lemma SendsPrompt(log: seq<Event>, r: Request, now: Clock, lag: nat)
    requires PromptLog(log, lag) && Prompt(now, lag)
    ensures PromptLog(log + Sends(r, now), lag)
  {
  }

  lemma {:induction false} SweepPrompt(c: Cache, k: nat, n: nat, clocks: Clocks, lag: nat)
    requires k <= |c.requests| && PromptLog(c.log, lag) && forall m: nat :: Prompt(clocks(m), lag)
    ensures PromptLog(SweepFrom(c, k, n, clocks).log, lag)
    decreases |c.requests| - k
  {
    hide PromptLog;
    if k < |c.requests| {
      SendsPrompt(c.log, c.requests[k], clocks(n), lag);
      var next := if Kept(c.requests[k], clocks(n)) == [] then k else k + 1;
      SweepPrompt(Handle(c, k, clocks(n)), next, n + 1, clocks, lag);
    }
  }

  lemma {:induction false} RunPrompt(steps: seq<Step>, lag: nat)
    requires PromptRun(steps, lag)
    ensures PromptLog(Run(Empty(), steps).log, lag)
  {
    if |steps| > 0 {
      var c := Run(Empty(), steps[..|steps| - 1]);
      RunPrompt(steps[..|steps| - 1], lag);
      assert PromptStep(steps[|steps| - 1], lag);
      hide PromptLog, Sends, Kept;
      match steps[|steps| - 1]
      case Send(ip, packet, clock) =>
        var c1 := Queue(c, ip, packet);
        var k := IndexOf(c1.requests, ip);
        if k < |c1.requests| {
          SendsPrompt(c1.log, c1.requests[k], clock, lag);
        }
      case Reply(mac, ip, now) =>
      case Tick(now, clocks) =>
        SweepPrompt(c.(entries := ExpireAll(c.entries, now)), 0, 0, clocks, lag);
    }
  }

  lemma {:induction false} TimesPrompt(log: seq<Event>, id: nat, lag: nat)
    requires PromptLog(log, lag)
    ensures forall i :: 0 <= i < |Times(log, id)| ==> Prompt(Times(log, id)[i], lag)
  {
    if log != [] {
      TimesPrompt(log[..|log| - 1], id, lag);
    }
  }

  /** With readings at most `lag` apart, recorded broadcasts are more than 1 - `lag` seconds apart. */
  lemma SpacingBound(steps: seq<Step>, lag: nat)
    requires PromptRun(steps, lag)
    ensures Apart(Run(Empty(), steps).log, 1 - lag)
  {
    var c := Run(Empty(), steps);
    ArpInvariant(steps);
    RunPrompt(steps, lag);
    hide Run, Times, Distinct, Conserved, OnSchedule;
    forall id: nat, i | 0 <= i && i + 1 < |Times(c.log, id)|
      ensures Times(c.log, id)[i + 1].stored - Times(c.log, id)[i].stored > 1 - lag
    {
      TimesPrompt(c.log, id, lag);
      assert Spaced(Times(c.log, id));
      assert Prompt(Times(c.log, id)[i + 1], lag);
    }
  }

  /** A second that passes between the two readings is a second less between recorded broadcasts. */
  function LateRun(): seq<Step> { [Send(1, None, Readings(10, 10)), Send(1, None, Readings(11, 12))] }

  /** A first or a repeated broadcast for the only pending request. */
  lemma SendOnce(c: Cache, r: Request, clock: Clock)
    requires (c.requests == [] && r == Request(c.next, r.ip, 0, 0, [])) || c.requests == [r]
    requires Due(r, clock) && r.timesSent < MAX_SENDS
    ensures var c' := Do(c, Send(r.ip, None, clock));
            && c'.requests == [r.(sent := clock.stored, timesSent := r.timesSent + 1)]
            && c'.log == c.log + [Broadcast(r.id, r.ip, clock)]
  {
    var c1 := Queue(c, r.ip, None);
    assert c1.requests == [r] && c1.log == c.log;
    assert IndexOf(c1.requests, r.ip) == 0;
    hide Queue, IndexOf;
    assert c1.requests[..0] == [] && c1.requests[1..] == [];
  }

  lemma RunTwo(c: Cache, a: Step, b: Step)
    ensures Run(c, [a, b]) == Do(Do(c, a), b)
  {
    hide Do;
    assert [a, b][..1] == [a] && [a][..0] == [];
    assert Run(c, [a]) == Do(Run(c, []), a);
  }

  lemma LateDue(a: Clock, b: Clock)
    requires a == Readings(10, 10) && b == Readings(11, 12)
    ensures Due(Request(0, 1, 0, 0, []), a) && Due(Request(0, 1, 10, 1, []), b)
  {
  }

  lemma LatePrompt(lag: nat)
    requires lag >= 1
    ensures PromptRun(LateRun(), lag)
  {
  }

  lemma LateLog(c: Cache, a: Clock, b: Clock)
    requires c.requests == [] && c.log == [] && c.next == 0 && a.stored == 10
    requires Due(Request(0, 1, 0, 0, []), a) && Due(Request(0, 1, 10, 1, []), b)
    ensures Do(Do(c, Send(1, None, a)), Send(1, None, b)).log == [Broadcast(0, 1, a)] + [Broadcast(0, 1, b)]
  {
    hide Do, Due;
    SendOnce(c, Request(0, 1, 0, 0, []), a);
    SendOnce(Do(c, Send(1, None, a)), Request(0, 1, 10, 1, []), b);
    assert [] + [Broadcast(0, 1, a)] == [Broadcast(0, 1, a)];
  }

  lemma LateSpacing()
    ensures Times(Run(Empty(), LateRun()).log, 0) == [Readings(10, 10), Readings(11, 12)]
  {
    var a, b: Clock := Readings(10, 10), Readings(11, 12);
    var c := Empty();
    assert c.requests == [] && c.log == [] && c.next == 0;
    hide Do, Run, Times, Empty, Due;
    LateDue(a, b);
    RunTwo(c, Send(1, None, a), Send(1, None, b));
    LateLog(c, a, b);
    var e, f := Broadcast(0, 1, a), Broadcast(0, 1, b);
    OneTime(e, 0);
    OneTime(f, 0);
    TimesAppend([e], [f], 0);
  }

  /**
   Recorded broadcasts of a request are more than a second apart in all runs if and only if no time passes between
   the two clock readings of a call.
   */
  lemma SpacingExactly(lag: nat)
    ensures (forall steps :: PromptRun(steps, lag) ==> Apart(Run(Empty(), steps).log, 1)) <==> lag == 0
  {
    if lag == 0 {
      forall steps | PromptRun(steps, lag)
        ensures Apart(Run(Empty(), steps).log, 1)
      {
        SpacingBound(steps, lag);
      }
    } else {
      LateSpacing();
      hide Run, Times;
      var ts := Times(Run(Empty(), LateRun()).log, 0);
      LatePrompt(lag);
      assert ts[0 + 1].stored - ts[0].stored == 1;
      assert !Apart(Run(Empty(), LateRun()).log, 1);
    }
  }

  // ---- the cache as it is updated in place ----

  predicate Maps(e: Entry, ip: nat) { e.valid && e.ip == ip }

  /** What a lookup finds: the last valid entry of the address. */
  function LastValid(es: seq<Entry>, ip: nat): Option<Entry> {
    if es == [] then None
    else if Maps(es[|es| - 1], ip) then Some(es[|es| - 1])
    else LastValid(es[..|es| - 1], ip)
  }

  lemma {:induction false} LastValidIs(es: seq<Entry>, ip: nat)
    ensures LastValid(es, ip).None? <==> forall i :: 0 <= i < |es| ==> !Maps(es[i], ip)
    ensures forall i :: 0 <= i < |es| && Maps(es[i], ip) && (forall j :: i < j < |es| ==> !Maps(es[j], ip)) ==>
              LastValid(es, ip) == Some(es[i])
  {
    if es != [] {
      var n := |es| - 1;
      LastValidIs(es[..n], ip);
    }
  }

  class ArpCache {
    const entries: array<Entry>
    var requests: seq<Request>
    var next: nat
    var log: seq<Event>

    /** The cache with given records of the packets queued and handed back. */
    ghost function View(queued: seq<Packet>, handed: seq<Packet>): Cache
      reads this, entries
    {
      Cache(entries[..], requests, next, log, queued, handed)
    }

    constructor ()
      ensures View([], []) == Empty() && fresh(entries)
    {
      entries := new Entry[SR_ARPCACHE_SZ](i => Entry([], 0, 0, false));
      requests, next, log := [], 0, [];
    }

    /** The last valid entry with the address wins. */
    method Lookup(ip: nat) returns (r: Option<Entry>)
      ensures r == LastValid(entries[..], ip)
      ensures r.Some? ==> Maps(r.value, ip) && r.value in entries[..]
      ensures r.None? <==> forall i :: 0 <= i < entries.Length ==> !Maps(entries[i], ip)
    {
      r := None;
      for i := 0 to entries.Length
        invariant r == LastValid(entries[..i], ip)
        invariant r.Some? ==> Maps(r.value, ip) && r.value in entries[..i]
        invariant r.None? <==> forall j :: 0 <= j < i ==> !Maps(entries[j], ip)
      {
        assert entries[..i + 1][..i] == entries[..i];
        if entries[i].valid && entries[i].ip == ip {
          r := Some(entries[i]);
        }
      }
      assert entries[..entries.Length] == entries[..];
    }

    method FindRequest(ip: nat) returns (k: nat)
      ensures k == IndexOf(requests, ip)
    {
      k := 0;
      while k < |requests| && requests[k].ip != ip
        invariant 0 <= k <= IndexOf(requests, ip)
      {
        k := k + 1;
      }
    }

    method QueueReq(ip: nat, packet: Option<Packet>, ghost queued: seq<Packet>, ghost handed: seq<Packet>)
        returns (k: nat)
      modifies this`requests, this`next
      ensures var c := Queue(old(View(queued, handed)), ip, packet);
              View(c.queued, handed) == c
      ensures k < |requests| && k == IndexOf(requests, ip)
    {
      k := FindRequest(ip);
      if k == |requests| {
        requests := [Request(next, ip, 0, 0, [])] + requests;
        next := next + 1;
        k := 0;
      }
      if packet.Some? {
        requests := requests[k := requests[k].(packets := [packet.value] + requests[k].packets)];
      }
      assert requests[k].ip == ip && forall j :: 0 <= j < k ==> requests[j].ip != ip;
    }

    method HandleArpReq(k: nat, now: Clock, ghost queued: seq<Packet>, ghost handed: seq<Packet>)
      requires k < |requests|
      modifies this`requests, this`log
      ensures View(queued, handed) == Handle(old(View(queued, handed)), k, now)
    {
      var r := requests[k];
      ghost var before := log;
      if now.tested - r.sent > 1 {
        if r.timesSent >= 5 {
          for i := 0 to |r.packets|
            invariant log == before + Unreachables(r.packets)[..i]
            invariant requests == old(requests)
          {
            log := log + [Unreachable(r.packets[i])];
            assert Unreachables(r.packets)[..i + 1] == Unreachables(r.packets)[..i] + [Unreachable(r.packets[i])];
          }
          assert Unreachables(r.packets)[..|r.packets|] == Unreachables(r.packets);
          requests := requests[..k] + requests[k + 1..];
          assert old(requests)[..k] + [] == old(requests)[..k];
        } else {
          log := log + [Broadcast(r.id, r.ip, now)];
          requests := requests[k := r.(sent := now.stored, timesSent := r.timesSent + 1)];
        }
      }
      HandleRequests(old(View(queued, handed)), k, now);
    }

    /** The next request is found before the current one may leave the list. */
    method SweepReqs(clocks: Clocks, ghost queued: seq<Packet>, ghost handed: seq<Packet>)
      modifies this`requests, this`log
      ensures View(queued, handed) == SweepFrom(old(View(queued, handed)), 0, 0, clocks)
    {
      var k, n := 0, 0;
      while k < |requests|
        invariant 0 <= k <= |requests|
        invariant SweepFrom(View(queued, handed), k, n, clocks) == SweepFrom(old(View(queued, handed)), 0, 0, clocks)
        decreases |requests| - k
      {
        var before := |requests|;
        HandleRequests(View(queued, handed), k, clocks(n));
        HandleArpReq(k, clocks(n), queued, handed);
        k := if |requests| < before then k else k + 1;
        n := n + 1;
      }
    }

    /** Takes the request out of the queue and stores the mapping in the first invalid entry, if any. */
    method InsertMapping(mac: seq<byte>, ip: nat, now: int, ghost queued: seq<Packet>, ghost handed: seq<Packet>)
        returns (req: Option<Request>)
      modifies this`requests, entries
      ensures var c := Insert(old(View(queued, handed)), mac, ip, now);
              && View(queued, c.handed) == c
              && c.handed == handed + (if req.Some? then req.value.packets else [])
      ensures req.Some? <==> IndexOf(old(requests), ip) < |old(requests)|
    {
      var k := FindRequest(ip);
      req := None;
      if k < |requests| {
        req := Some(requests[k]);
        requests := requests[..k] + requests[k + 1..];
      }
      var i := 0;
      while i < entries.Length && entries[i].valid
        invariant 0 <= i <= FirstInvalid(entries[..])
      {
        assert entries[..][i].valid;
        i := i + 1;
      }
      assert i == FirstInvalid(entries[..]) by {
        assert i < entries.Length ==> !entries[..][i].valid;
      }
      ghost var before := entries[..];
      if i != entries.Length {
        entries[i] := Entry(mac, ip, now, true);
        assert entries[..] == before[i := Entry(mac, ip, now, true)];
      }
    }

    /** One pass of the timeout thread. */
    method TimeoutPass(now: int, clocks: Clocks, ghost queued: seq<Packet>, ghost handed: seq<Packet>)
      modifies this`requests, this`log, entries
      ensures View(queued, handed) == Sweep(old(View(queued, handed)), now, clocks)
    {
      for i := 0 to entries.Length
        invariant forall j :: 0 <= j < i ==> entries[j] == Expired(old(entries[..])[j], now)
        invariant forall j :: i <= j < entries.Length ==> entries[j] == old(entries[..])[j]
        invariant requests == old(requests) && log == old(log)
      {
        if entries[i].valid && now - entries[i].added > SR_ARPCACHE_TO {
          entries[i] := entries[i].(valid := false);
        }
      }
      assert entries[..] == ExpireAll(old(entries[..]), now);
      SweepReqs(clocks, queued, handed);
    }
  }

  /**
   Any sequence of sends, replies and timeout passes leaves a cache in the state of the run, so everything proved of
   runs holds of it.
   */
  method RunCache(steps: seq<Step>) returns (cache: ArpCache, handed: seq<Packet>, ghost queued: seq<Packet>)
    ensures cache.View(queued, handed) == Run(Empty(), steps) && Inv(cache.View(queued, handed))
  {
    cache := new ArpCache();
    handed := [];
    queued := [];
    for n := 0 to |steps|
      invariant fresh(cache) && fresh(cache.entries)
      invariant cache.View(queued, handed) == Run(Empty(), steps[..n])
    {
      hide Queue, Handle, Insert, SweepFrom, Inv, Empty;
      ghost var c := cache.View(queued, handed);
      assert steps[..n + 1][..n] == steps[..n];
      match steps[n] {
        case Send(ip, packet, clock) =>
          ghost var c1 := Queue(c, ip, packet);
          var k := cache.QueueReq(ip, packet, queued, handed);
          queued := c1.queued;
          cache.HandleArpReq(k, clock, queued, handed);
        case Reply(mac, ip, now) =>
          var req := cache.InsertMapping(mac, ip, now, queued, handed);
          if req.Some? {
            handed := handed + req.value.packets;
          }
        case Tick(now, clocks) =>
          cache.TimeoutPass(now, clocks, queued, handed);
      }
      assert cache.View(queued, handed) == Do(c, steps[n]);
    }
    assert steps[..|steps|] == steps;
    ArpInvariant(steps);
  }
}
