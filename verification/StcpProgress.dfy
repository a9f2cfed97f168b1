/**
 Two STCP endpoints left alone by their applications finish their work: under every fair schedule, everything
 written is delivered after finitely many rounds.
 */
module StcpProgress {
  import opened Base
  import opened Stcp
  import opened StcpStreams
  import opened StcpInvariant
  import opened StcpProtocol
  import opened StcpTheorems
  import PQ = PacketQueue

  // ---- the work left ----

  /** A segment costs 2: one step to process it, one for the acknowledgement it causes. */
  function Load(c: seq<Packet>): nat {
    if c == [] then 0 else (if c[0].isAck then 1 else 2) + Load(c[1..])
  }

  function Queued(e: Endpoint): nat {
    3 * (|Flatten(e.appRecv)| + |e.appRecv|) + (if e.closeRequested then 3 else 0)
  }

  function PhasesLeft(e: Endpoint): nat {
    match e.phase
    case Begin => 2
    case AwaitSynAck => 1
    case AwaitAck => 1
    case Loop => 0
  }

  function Work(s: System): nat {
    Queued(s.x.e) + Queued(s.y.e) + Load(Live(s.x, s.y, s.xy)) + Load(Live(s.y, s.x, s.yx))
    + PhasesLeft(s.x.e) + PhasesLeft(s.y.e)
  }

  lemma {:induction false} LoadAppend(c: seq<Packet>, d: seq<Packet>)
    ensures Load(c + d) == Load(c) + Load(d)
  {
    if c == [] {
      assert c + d == d;
    } else {
      LoadAppend(c[1..], d);
      assert (c + d)[1..] == c[1..] + d;
    }
  }

  lemma {:induction false} LoadBound(c: seq<Packet>)
    ensures Load(c) <= 2 * |c|
  {
    if c != [] {
      LoadBound(c[1..]);
    }
  }

  // ---- what one iteration does to it ----

  lemma NetworkWork(e: Endpoint, p: Packet)
    ensures Queued(ProcessPacket(e, p).0) == Queued(e)
    ensures Load(ProcessPacket(e, p).1) < (if p.isAck then 1 else 2)
  {
    hide Copied, Wrap;
    ProcessKeeps(e, p);
    var out := ProcessPacket(e, p).1;
    assert out != [] ==> out[1..] == [];
  }

  lemma SegmentsBound(seqNum: Seq32, data: seq<byte>)
    ensures Load(Segments(seqNum, data)) <= 2 * |data|
  {
    SegmentsCarry(seqNum, 0, data);
    LoadBound(Segments(seqNum, data));
  }

  lemma DataWork(e: Endpoint, window: int)
    ensures var r := DataPart(e, e.appRecv != [], window);
            if e.appRecv != [] && window > 0 then Queued(r.0) + Load(r.1) < Queued(e)
            else r == (e, [])
  {
    hide Load, Segments, Wrap, Flatten, PQ.Taken, PQ.Left;
    if e.appRecv != [] && window > 0 {
      PQ.TakeFlatten(e.appRecv, window);
      TakesSome(e.appRecv, window);
      SegmentsBound(e.cur, PQ.Taken(e.appRecv, window));
    }
  }

  /** A read takes a buffer off the queue or a byte off a buffer. */
  lemma TakesSome(q: seq<seq<byte>>, window: nat)
    requires q != [] && window > 0
    ensures |PQ.Left(q, window)| + |PQ.Taken(q, window)| > |PQ.Left(q, window)| == |q|
         || |PQ.Left(q, window)| < |q|
  {
  }

  lemma CloseWork(e: Endpoint, close: bool)
    ensures var r := ClosePart(e, close);
            Queued(r.0) == Queued(e) && Load(r.1) == (if close then 2 else 0)
  {
    hide Wrap;
    if close {
      assert SendFin(e).1[1..] == [];
    }
  }

  /** An iteration that has something to do. */
  predicate Productive(e: Endpoint, arrived: bool) {
    arrived || (e.appRecv != [] && Window(e) > 0) || (e.closeRequested && e.appRecv == [])
  }

  lemma IterationWork(e: Endpoint, net: Option<Packet>)
    ensures var r := Iteration(e, net);
            var gain := if net.None? then 0 else if net.value.isAck then 1 else 2;
            && Queued(r.0) + Load(r.1) <= Queued(e) + gain
            && (Productive(e, net.Some?) ==> Queued(r.0) + Load(r.1) < Queued(e) + gain)
  {
    hide Queued, Load, ProcessPacket, SendAppData, SendFin, Window;
    var ev := WaitForEvent(e, net.Some?);
    var e0 := Woken(e, net.Some?);
    WokenWork(e, net.Some?);
    var r1 := NetworkPart(e0, net);
    var gain := if net.None? then 0 else if net.value.isAck then 1 else 2;
    assert r1.0.appRecv == e0.appRecv && Queued(r1.0) == Queued(e0)
           && Load(r1.1) + (if net.None? then 0 else 1) <= gain by {
      if net.Some? {
        NetworkWork(e0, net.value);
        ProcessKeeps(e0, net.value);
      }
      NoLoad();
    }
    var r2 := DataPart(r1.0, ev.appData, Window(e0));
    DataWork(r1.0, Window(e0));
    var r3 := ClosePart(r2.0, ev.closeRequested);
    CloseWork(r2.0, ev.closeRequested);
    LoadAppend(r1.1, r2.1);
    LoadAppend(r1.1 + r2.1, r3.1);
    NoLoad();
  }

  lemma NoLoad()
    ensures Load([]) == 0
  {
  }

  lemma WokenWork(e: Endpoint, arrived: bool)
    ensures Queued(Woken(e, arrived)) + (if WaitForEvent(e, arrived).closeRequested then 3 else 0) == Queued(e)
    ensures Window(Woken(e, arrived)) == Window(e)
  {
  }

  lemma IterateWork(s: System, arrived: bool)
    requires Inv(s) && (arrived ==> s.yx != []) && s.x.e.phase == Loop
    ensures Work(LoopStep(s, arrived)) <= Work(s)
    ensures Productive(s.x.e, arrived) ==> Work(LoopStep(s, arrived)) < Work(s)
  {
    hide Core, Iteration, Queued, Productive;
    var net := if arrived then Some(s.yx[0]) else None;
    var s' := LoopStep(s, arrived);
    var out := Iteration(s.x.e, net).1;
    IterationWork(s.x.e, net);
    assert s'.x == Iterated(s.x, net);
    IteratedCloseOnce(s.x, net);
    assert Live(s'.x, s.y, s.xy + out) == Live(s.x, s.y, s.xy) + out;
    LoadAppend(Live(s.x, s.y, s.xy), out);
  }

  /** Left alone by the applications, no step adds work. */
  lemma LoopNeverAddsWork(s: System, arrived: bool)
    requires Inv(s)
    ensures Work(DoX(s, Iterate(arrived))) <= Work(s)
  {
    hide Inv, Work, LoopStep;
    if (arrived ==> s.yx != []) && Ready(s.x.e, arrived) {
      IterateWork(s, arrived);
    }
  }

  // ---- there is always someone who can go on ----

  /** Nothing left for this endpoint to do. */
  predicate Settled(n: Node, inbound: seq<Packet>) {
    n.e.phase == Loop && (n.e.done || (inbound == [] && n.e.appRecv == [] && !n.e.closeRequested))
  }

  predicate AllSettled(s: System) {
    Settled(s.x, s.yx) && Settled(s.y, s.xy)
  }

  predicate Alone(step: Step) {
    step.act.Iterate? || step.act.Handshake?
  }

  lemma WorkFlip(s: System)
    ensures Work(Flip(s)) == Work(s)
  {
    hide Queued, Load, Live;
  }

  lemma StuckOnWindow(x: Node, y: Node, xy: seq<Packet>)
    requires Core(x, y, xy, []) && x.e.phase == Loop && x.e.appRecv != [] && Window(x.e) <= 0
    ensures xy != [] && !y.e.done
  {
    hide Window, Carries, Acknowledges;
    assert !x.h.finSent;
    WindowReopensCore(x, y, xy, []);
    assert !HasAck([]);
  }

  /** x is in its loop and has something to do: some step of x or y reduces the work. */
  lemma LoopProgress(s: System) returns (step: Step)
    requires Inv(s) && s.x.e.phase == Loop && s.y.e.phase == Loop && !Settled(s.x, s.yx)
    ensures Alone(step) && Work(Do(s, step)) < Work(s)
  {
    hide Core, Work, LoopStep, Window;
    if s.yx != [] {
      step := ByX(Iterate(true));
      IterateWork(s, true);
    } else if s.x.e.appRecv == [] || Window(s.x.e) > 0 {
      step := ByX(Iterate(false));
      IterateWork(s, false);
    } else {
      StuckOnWindow(s.x, s.y, s.xy);
      step := ByY(Iterate(true));
      InvFlip(s);
      IterateWork(Flip(s), true);
      WorkFlip(s);
      WorkFlip(LoopStep(Flip(s), true));
    }
  }

  lemma HandshakeProgress(s: System) returns (step: Step)
    requires Inv(s) && s.x.e.isActive && !(s.x.e.phase == Loop && s.y.e.phase == Loop)
    ensures Alone(step) && Work(Do(s, step)) < Work(s)
  {
    hide Core;
    if s.x.e.phase == Begin || (s.x.e.phase == AwaitSynAck && s.y.e.phase == AwaitAck) {
      step := ByX(Handshake);
      var s' := HandshakeStep(s);
      assert Live(s'.x, s'.y, s'.xy) == [] && Live(s'.y, s'.x, s'.yx) == [];
    } else {
      step := ByY(Handshake);
      var s' := Flip(HandshakeStep(Flip(s)));
      assert s'.yx == s.yx || s.x.e.phase != Loop;
      assert Live(s'.x, s'.y, s'.xy) == Live(s.x, s.y, s.xy) && Live(s'.y, s'.x, s'.yx) == Live(s.y, s.x, s.yx);
    }
  }

  lemma WorkByOther(s: System, step: Step) returns (other: Step)
    requires Alone(step) && Work(Do(Flip(s), step)) < Work(Flip(s))
    ensures Alone(other) && Work(Do(s, other)) < Work(s)
  {
    hide Work, DoX;
    other := if step.ByX? then ByY(step.act) else ByX(step.act);
    assert Do(s, other) == Flip(Do(Flip(s), step));
    WorkFlip(s);
    WorkFlip(Do(Flip(s), step));
  }

  /** No deadlock: unless both ends are settled, some iteration is enabled that reduces the work left. */
  lemma Progress(s: System) returns (step: Step)
    requires Inv(s) && !AllSettled(s)
    ensures Alone(step) && Work(Do(s, step)) < Work(s)
  {
    hide Core, Work, DoX, Quiet, Shake;
    InvFlip(s);
    if s.x.e.phase == Loop && s.y.e.phase == Loop {
      if !Settled(s.x, s.yx) {
        step := LoopProgress(s);
      } else {
        step := LoopProgress(Flip(s));
        step := WorkByOther(s, step);
      }
    } else {
      OneIsActive(s);
      if s.x.e.isActive {
        step := HandshakeProgress(s);
      } else {
        step := HandshakeProgress(Flip(s));
        step := WorkByOther(s, step);
      }
    }
  }

  lemma OneIsActive(s: System)
    requires Inv(s)
    ensures s.x.e.isActive <==> !s.y.e.isActive
  {
    hide Core;
  }

  /** The applications' writes are not touched by steps they do not take. */
  lemma AloneKeepsWritten(s: System, step: Step)
    requires Alone(step)
    ensures Do(s, step).x.h.written == s.x.h.written && Do(s, step).y.h.written == s.y.h.written
  {
    hide DoX;
    match step
    case ByX(act) => AloneX(s, act);
    case ByY(act) => AloneX(Flip(s), act);
  }

  lemma AloneX(s: System, act: Action)
    requires act.Iterate? || act.Handshake?
    ensures DoX(s, act).x.h.written == s.x.h.written && DoX(s, act).y == s.y
  {
    hide Iteration, Record, RecordFin, OnSyn, OnSynAck, OnHandshakeAck, SendSyn, Ready;
    if act.Iterate? && (act.arrived ==> s.yx != []) {
      var net := if act.arrived then Some(s.yx[0]) else None;
      var e' := Iteration(s.x.e, net).0;
      RecordKeeps(s.x.h, if act.arrived then s.yx[0] else SynPacket(0), e');
      RecordKeeps(if act.arrived then Record(s.x.h, s.yx[0]) else s.x.h, SynPacket(0), e');
    }
  }

  /** Both ends settled: everything written has been received, in both directions. */
  lemma SettledDelivered(s: System)
    requires Inv(s) && AllSettled(s)
    ensures s.y.h.received == s.x.h.written && s.x.h.received == s.y.h.written
  {
    hide Inv, Settled;
    InvFlip(s);
    SettledX(s);
    SettledX(Flip(s));
  }

  lemma SettledX(s: System)
    requires Inv(s) && AllSettled(s)
    ensures s.y.h.received == s.x.h.written
  {
    hide Acknowledges, ReadSide;
    CarriesBounds(s.xy, s.x.h.base, SeenPos(s.y), Sent(s.x), s.x.h.finSent);
    assert s.x.e.appRecv == [] && Flatten(s.x.e.appRecv) == [];
    assert Payload(s.xy) == [];
  }

  // ---- every fair schedule finishes ----

  lemma IdleIteration(e: Endpoint)
    requires !Productive(e, false)
    ensures Iteration(e, None) == (e, []) && !WaitForEvent(e, false).closeRequested
  {
    hide Window;
    assert Woken(e, false) == e;
    assert DataPart(e, e.appRecv != [], Window(e)) == (e, []);
    var none: seq<Packet> := [];
    assert none + none + none == none;
    assert Iteration(e, None) == (e, none + none + none);
  }

  lemma IterateOrIdle(s: System, arrived: bool)
    requires Inv(s)
    ensures DoX(s, Iterate(arrived)) == s || Work(DoX(s, Iterate(arrived))) < Work(s)
  {
    hide Inv, Work, Iteration, Productive;
    if (arrived ==> s.yx != []) && Ready(s.x.e, arrived) {
      if Productive(s.x.e, arrived) {
        IterateWork(s, arrived);
      } else {
        assert !arrived by { ProductivePacket(s.x.e, arrived); }
        IdleIteration(s.x.e);
        assert s.xy + [] == s.xy;
      }
    }
  }

  lemma ProductivePacket(e: Endpoint, arrived: bool)
    ensures arrived ==> Productive(e, arrived)
  {
  }

  lemma HandshakeWork(s: System)
    requires Inv(s)
    ensures HandshakeStep(s) == s || Work(HandshakeStep(s)) < Work(s)
  {
    hide Core, Wrap;
    var s' := HandshakeStep(s);
    if s' != s {
      assert Queued(s'.x.e) == Queued(s.x.e) && s'.y == s.y;
      assert Live(s'.x, s'.y, s'.xy) == Live(s.x, s.y, s.xy) && Live(s'.y, s'.x, s'.yx) == Live(s.y, s.x, s.yx);
      hide Queued, Load, Live;
    }
  }

  lemma AloneXWork(s: System, act: Action)
    requires Inv(s) && (act.Iterate? || act.Handshake?)
    ensures DoX(s, act) == s || Work(DoX(s, act)) < Work(s)
  {
    if act.Handshake? {
      hide Inv, Work, HandshakeStep;
      HandshakeWork(s);
    } else {
      hide Inv, Work, DoX;
      IterateOrIdle(s, act.arrived);
    }
  }

  /** A step of the endpoints either changes nothing or reduces the work left. */
  lemma AloneWork(s: System, step: Step)
    requires Inv(s) && Alone(step)
    ensures Do(s, step) == s || Work(Do(s, step)) < Work(s)
  {
    hide Inv, Work, DoX;
    match step
    case ByX(act) => AloneXWork(s, act);
    case ByY(act) =>
      InvFlip(s);
      AloneXWork(Flip(s), act);
      WorkFlip(s);
      WorkFlip(DoX(Flip(s), act));
  }

  lemma {:induction false} AloneRun(s: System, steps: seq<Step>)
    requires Inv(s) && forall i :: 0 <= i < |steps| ==> Alone(steps[i])
    ensures Inv(Run(s, steps))
    ensures Run(s, steps).x.h.written == s.x.h.written && Run(s, steps).y.h.written == s.y.h.written
    ensures Work(Run(s, steps)) < Work(s)
         || (Run(s, steps) == s && forall i :: 0 <= i < |steps| ==> Do(s, steps[i]) == s)
  {
    hide Inv, Work, Do;
    if steps != [] {
      var n := |steps| - 1;
      var s1 := Run(s, steps[..n]);
      AloneRun(s, steps[..n]);
      DoInv(s1, steps[n]);
      AloneKeepsWritten(s1, steps[n]);
      AloneWork(s1, steps[n]);
    }
  }

  /** A round offers each endpoint its handshake and both kinds of iteration, in any order and as often as it likes. */
  ghost predicate FairRound(round: seq<Step>) {
    forall step :: Alone(step) <==> step in round
  }

  function OneRound(): (r: seq<Step>)
    ensures FairRound(r)
  {
    [ByX(Handshake), ByX(Iterate(true)), ByX(Iterate(false)), ByY(Handshake), ByY(Iterate(true)), ByY(Iterate(false))]
  }

  lemma RoundWork(s: System, round: seq<Step>)
    requires Inv(s) && FairRound(round)
    ensures Inv(Run(s, round))
    ensures Run(s, round).x.h.written == s.x.h.written && Run(s, round).y.h.written == s.y.h.written
    ensures if AllSettled(s) then Run(s, round) == s else Work(Run(s, round)) < Work(s)
  {
    assert forall i :: 0 <= i < |round| ==> round[i] in round;
    hide Inv, Work, Do, Run, AllSettled;
    AloneRun(s, round);
    if !AllSettled(s) {
      var step := Progress(s);
      assert step in round;
      var i :| 0 <= i < |round| && round[i] == step;
    } else {
      SettledRun(s, round);
    }
  }

  lemma SettledX0(s: System, act: Action)
    requires AllSettled(s) && (act.Iterate? || act.Handshake?)
    ensures DoX(s, act) == s
  {
    hide LoopStep;
  }

  lemma {:induction false} SettledRun(s: System, steps: seq<Step>)
    requires AllSettled(s) && forall i :: 0 <= i < |steps| ==> Alone(steps[i])
    ensures Run(s, steps) == s
  {
    if steps != [] {
      hide DoX;
      SettledRun(s, steps[..|steps| - 1]);
      SettledX0(s, steps[|steps| - 1].act);
      SettledX0(Flip(s), steps[|steps| - 1].act);
    }
  }

  lemma {:induction false} RunConcat(s: System, a: seq<Step>, b: seq<Step>)
    ensures Run(s, a + b) == Run(Run(s, a), b)
  {
    hide Do;
    if b == [] {
      assert a + b == a;
    } else {
      assert (a + b)[..|a + b| - 1] == a + b[..|b| - 1];
      RunConcat(s, a, b[..|b| - 1]);
    }
  }

  /**
   Eventual delivery: left alone by their applications, the endpoints have nothing left to do after as many fair
   rounds as there is work, whatever the schedule, and then both directions are completely delivered.
   */
  lemma {:induction false} FairRunSettles(s: System, rounds: seq<seq<Step>>)
    requires Inv(s) && |rounds| >= Work(s) && forall i :: 0 <= i < |rounds| ==> FairRound(rounds[i])
    ensures Inv(Run(s, Flatten(rounds))) && AllSettled(Run(s, Flatten(rounds)))
    ensures Run(s, Flatten(rounds)).y.h.received == s.x.h.written
    ensures Run(s, Flatten(rounds)).x.h.received == s.y.h.written
    decreases |rounds|
  {
    hide Inv, Work, Do, FairRound, AllSettled;
    if rounds == [] {
      if !AllSettled(s) {
        var step := Progress(s);
      }
      assert Run(s, []) == s;
      SettledDelivered(s);
    } else {
      RoundWork(s, rounds[0]);
      RunConcat(s, rounds[0], Flatten(rounds[1..]));
      if AllSettled(s) && |rounds| - 1 < Work(s) {
        SettledRounds(s, rounds[1..]);
        SettledDelivered(s);
      } else {
        FairRunSettles(Run(s, rounds[0]), rounds[1..]);
      }
    }
  }

  lemma {:induction false} SettledRounds(s: System, rounds: seq<seq<Step>>)
    requires Inv(s) && AllSettled(s) && forall i :: 0 <= i < |rounds| ==> FairRound(rounds[i])
    ensures Run(s, Flatten(rounds)) == s
  {
    hide Inv, Do, FairRound, AllSettled;
    if rounds != [] {
      RoundWork(s, rounds[0]);
      RunConcat(s, rounds[0], Flatten(rounds[1..]));
      SettledRounds(s, rounds[1..]);
    }
  }

  /** The same, said of reachable states. */
  lemma EventualDelivery(s: System, rounds: seq<seq<Step>>)
    requires Reachable(s) && |rounds| >= Work(s) && forall i :: 0 <= i < |rounds| ==> FairRound(rounds[i])
    ensures AllSettled(Run(s, Flatten(rounds)))
    ensures Run(s, Flatten(rounds)).y.h.received == s.x.h.written
    ensures Run(s, Flatten(rounds)).x.h.received == s.y.h.written
  {
    hide Inv, Work, Do, FairRound, AllSettled, Reachable;
    ReachableInv(s);
    FairRunSettles(s, rounds);
  }

  /** There always is such a schedule. */
  lemma FairScheduleExists(s: System) returns (rounds: seq<seq<Step>>)
    requires Reachable(s)
    ensures |rounds| == Work(s) && forall i :: 0 <= i < |rounds| ==> FairRound(rounds[i])
    ensures AllSettled(Run(s, Flatten(rounds)))
  {
    hide Work, Reachable, AllSettled, FairRound, Run;
    rounds := seq(Work(s), _ => OneRound());
    EventualDelivery(s, rounds);
  }
}
