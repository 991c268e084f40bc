/** What connections of others can do to bootstrapping, exactly: the joining peer's accepting loop blocks
    on a full channel, and on a handshake that never ends. */
module BootstrapCapacity {
  import opened Types
  import opened Bootstrap
  import opened BootstrapSafety
  import opened BootstrapProgress
  import L = Listeners

  /** A fault-free run from `start` to `w`. */
  ghost predicate Leads(g: Setting, start: World, w: World, run: seq<World>, steps: seq<Step>) {
    && IsRun(g, run, steps)
    && FaultFree(run, steps)
    && run[0] == start
    && run[|steps|] == w
  }

  ghost predicate CanReach(g: Setting, start: World, w: World) {
    exists run, steps :: Leads(g, start, w, run, steps)
  }

  /** Nothing can happen any more, except for a fault. */
  ghost predicate Stuck(g: Setting, w: World) {
    forall step, v :: Next(g, w, v, step) ==> IsFault(w, step)
  }

  lemma Goes(g: Setting, start: World, w: World, v: World, step: Step)
    requires CanReach(g, start, w) && Next(g, w, v, step) && !IsFault(w, step)
    ensures CanReach(g, start, v)
  {
    hide Next, Init, IsFault;
    var run, steps :| Leads(g, start, w, run, steps);
    var run', steps' := run + [v], steps + [step];
    forall i | 0 <= i < |steps'|
      ensures Next(g, run'[i], run'[i + 1], steps'[i]) && !IsFault(run'[i], steps'[i])
    {
      if i < |steps| {
        assert Next(g, run[i], run[i + 1], steps[i]) && !IsFault(run[i], steps[i]);
      }
    }
    assert Leads(g, start, v, run', steps');
  }

  lemma ReachedInv(g: Setting, start: World, w: World)
    requires CanReach(g, start, w)
    ensures g.Valid() && Inv(g, w)
  {
    hide Inv, Next, Init;
    var run, steps :| Leads(g, start, w, run, steps);
    RunsKeepInv(g, run, steps, |steps|);
  }

  // ----- a stalled world ----------------------------------------------------------------------

  /** The dial-back waits behind a blocked accepting loop. */
  ghost predicate Stalled(g: Setting, w: World) {
    && w.joiner.phase == VerifyWait
    && w.mail.verifyReply.None?
    && Blocked(w.incoming)
    && Unanswered(g, w.contact, w.incoming)
  }

  /** The loop waits for room in a channel that nobody empties, or for a peer that has gone silent. */
  predicate Blocked(n: Incoming) {
    || (n.loop.Pushing? && Queued(n) >= STANDARD_CHANNEL_SIZE)
    || (n.loop.Shaking? && n.loop.arrival.traffic.handshake.Silent?)
  }

  ghost predicate Unanswered(g: Setting, c: Contact, n: Incoming) {
    && c.mine.Some? && c.mine.value < |c.dialBacks|
    && (var d := c.dialBacks[c.mine.value];
        d.stage.Awaiting? && !d.stage.foreign && g.reaches(d.addr) && !Took(n, d.stage.conn))
  }

  lemma BlockedStays(g: Setting, j: Joiner, c: Contact, n: Incoming, m: Incoming, step: Step)
    requires Blocked(n) && IncomingMove(g, j, c, n, m, step) && !step.HandshakeTimesOut?
    ensures Blocked(m) && forall id: nat :: Took(m, id) ==> Took(n, id)
  {
    hide L.Next, Sent, Opened;
    if step.Serve? {
      assert forall i :: 0 <= i < |m.taken| ==> m.taken[i].id == n.taken[i].id;
    }
  }

  lemma DialBackStaysStalled(g: Setting, w: World, v: World, step: Step)
    requires Stalled(g, w) && DialBackStep(g, w, v, step) && !IsFault(w, step)
    ensures Stalled(g, v)
  {
    hide NestedEcho;
    if step.k == w.contact.mine.value {
      assert false;
    }
  }

  /** Nothing but a fault ends the wait. */
  lemma StalledStays(g: Setting, w: World, v: World, step: Step)
    requires Stalled(g, w) && Next(g, w, v, step) && !IsFault(w, step)
    ensures Stalled(g, v)
  {
    if DialBackStep(g, w, v, step) {
      hide *;
      DialBackStaysStalled(g, w, v, step);
    } else {
      hide DialBackStep, IncomingMove, Took, Blocked, Resolve;
      if IncomingStep(g, w, v, step) {
        BlockedStays(g, w.joiner, w.contact, w.incoming, v.incoming, step);
      }
    }
  }

  /** A run without faults goes on until it is stuck, and stays stalled if it ever is. */
  lemma {:induction false} StalledToTheEnd(g: Setting, start: World, w: World) returns (v: World)
    requires CanReach(g, start, w) && Stalled(g, w)
    ensures CanReach(g, start, v) && Stalled(g, v) && Stuck(g, v)
    decreases Measure(g, w)
  {
    hide CanReach, Stalled, Next, IsFault, Measure, Inv;
    if Stuck(g, w) {
      v := w;
    } else {
      var step, u :| Next(g, w, u, step) && !IsFault(w, step);
      ReachedInv(g, start, w);
      StepDecreasesMeasure(g, w, u, step);
      Goes(g, start, w, u, step);
      StalledStays(g, w, u, step);
      v := StalledToTheEnd(g, start, u);
    }
  }

  // ----- a run that gets there ----------------------------------------------------------------

  /** About to ask for verification of `addr`, with nothing on the way. */
  ghost predicate Ready(w: World, addr: SocketAddr) {
    && w.joiner.phase == VerifyOpen && w.joiner.public == Some(addr) && w.joiner.listening
    && w.mail.verifyReply.None? && w.contact.mine.None?
    && w.incoming.arriving == []
    && (forall i :: 0 <= i < |w.incoming.taken| ==> w.incoming.taken[i].id < w.incoming.nextConn)
  }

  lemma JoinerGoes(g: Setting, start: World, w: World, j: Joiner, m: Mail, step: Step)
    requires CanReach(g, start, w) && JoinerMove(g, w.joiner, w.mail, j, m, step)
    requires !step.ConnectFails? && !step.GiveUp? && !step.DialBackFails? && !step.HandshakeTimesOut?
    ensures CanReach(g, start, w.(joiner := j, mail := m))
  {
    hide CanReach, JoinerMove;
    Goes(g, start, w, w.(joiner := j, mail := m), step);
  }

  lemma IncomingGoes(g: Setting, start: World, w: World, n: Incoming, step: Step)
    requires CanReach(g, start, w) && !step.HandshakeTimesOut?
    requires IncomingMove(g, w.joiner, w.contact, w.incoming, n, step)
    ensures CanReach(g, start, w.(incoming := n))
  {
    hide *;
    MoveIsNext(g, w, n, step);
    Goes(g, start, w, w.(incoming := n), step);
  }

  lemma EchoComes(g: Setting, start: World) returns (w: World)
    requires g.Valid() && Init(g, start) && g.contacts != {}
    ensures CanReach(g, start, w)
    ensures w == World(Joiner(EchoWait, true, None, None, false),
                       Mail(true, Some(g.observed), None, None), start.contact, start.incoming)
  {
    assert Leads(g, start, start, [start], []);
    hide CanReach, Resolve, Next;
    var i :| i in g.contacts;
    var j, m := Joiner(EchoOpen, true, None, None, false), Mail(true, None, None, None);
    JoinerGoes(g, start, start, j, start.mail, Connect(i));
    w := start.(joiner := j);
    JoinerGoes(g, start, w, j.(phase := EchoWait), m, AskEcho);
    w := w.(joiner := j.(phase := EchoWait), mail := m);
    AnswerGoes(g, start, w, m.(echoReply := Some(g.observed)));
    w := w.(mail := m.(echoReply := Some(g.observed)));
  }

  /** As far as listening, the joining peer can get by itself. */
  lemma GetsReady(g: Setting, start: World) returns (w: World)
    requires g.Valid() && Init(g, start) && g.contacts != {}
    ensures CanReach(g, start, w) && Ready(w, Resolve(g.cfg, Some(g.observed), g.local))
    ensures w.incoming == start.incoming && w.contact == start.contact
  {
    hide CanReach, Resolve, Next, IncomingMove, DialBackStep, Setting.Valid;
    w := EchoComes(g, start);
    var m, public := w.mail, Resolve(g.cfg, Some(g.observed), g.local);
    var j := Joiner(Forwarding, true, Some(g.observed), Some(public), false);
    JoinerGoes(g, start, w, j, m, GetEcho);
    w := w.(joiner := j, mail := m);
    JoinerGoes(g, start, w, j.(phase := Listening), m, Forward);
    w := w.(joiner := j.(phase := Listening), mail := m);
    JoinerGoes(g, start, w, j.(phase := VerifyOpen, listening := true), m, StartListening);
    w := w.(joiner := j.(phase := VerifyOpen, listening := true), mail := m);
  }

  lemma AnswerGoes(g: Setting, start: World, w: World, m: Mail)
    requires CanReach(g, start, w) && w.mail.echoAsked && w.mail.echoReply.None?
    requires m == w.mail.(echoReply := Some(g.observed))
    ensures CanReach(g, start, w.(mail := m))
  {
    hide CanReach, JoinerStep, IncomingStep, DialBackStep;
    Goes(g, start, w, w.(mail := m), AnswerEcho);
  }

  /** A new request, and the dial it leads to. */
  lemma RequestGoes(g: Setting, start: World, w: World, addr: SocketAddr, step: Step) returns (v: World)
    requires CanReach(g, start, w) && g.reaches(addr)
    requires || (step == ReceiveVerify && w.mail.verifyAsked == Some(addr) && w.contact.mine.None?)
             || (step == OtherAsks(addr) && w.contact.others > 0)
    ensures CanReach(g, start, v)
    ensures v.joiner == w.joiner && v.mail == w.mail && v.incoming == Routed(g, w.incoming, addr)
    ensures |v.contact.dialBacks| == |w.contact.dialBacks| + 1
    ensures v.contact.dialBacks[|w.contact.dialBacks|].addr == addr
    ensures v.contact.dialBacks[|w.contact.dialBacks|].stage.Connected?
    ensures v.contact.dialBacks[|w.contact.dialBacks|].stage.conn == w.incoming.nextConn
    ensures v.contact.mine == if step.ReceiveVerify? then Some(|w.contact.dialBacks|) else w.contact.mine
    ensures v.contact.others == if step.OtherAsks? then w.contact.others - 1 else w.contact.others
  {
    hide CanReach, JoinerStep, IncomingStep, NestedEcho;
    var k := |w.contact.dialBacks|;
    var c := NewRequest(w.contact, addr);
    c := if step.ReceiveVerify? then c.(mine := Some(k)) else c.(others := w.contact.others - 1);
    var u := w.(contact := c);
    assert RequestStep(g, w, u, step);
    Goes(g, start, w, u, step);
    var s;
    s, v := ContactMoves(g, u, k);
    Goes(g, start, u, v, s);
  }

  ghost predicate HasSilent(strangers: seq<Traffic>) {
    exists i :: 0 <= i < |strangers| && strangers[i].handshake.Silent?
  }

  /** What is still to come from others is enough to block the loop. */
  ghost predicate Jams(strangers: seq<Traffic>, others: nat, taken: nat) {
    Sum(strangers, IfFinishes) + others + taken > STANDARD_CHANNEL_SIZE || HasSilent(strangers)
  }

  ghost predicate JamsAt(w: World, taken: nat) {
    Jams(w.incoming.strangers, w.contact.others, taken)
  }

  /** One stranger more or less makes no difference, unless it is the silent one. */
  lemma JamStays(strangers: seq<Traffic>, others: nat, taken: nat)
    requires strangers != [] && !strangers[0].handshake.Silent? && Jams(strangers, others, taken)
    ensures Jams(strangers[1..], others, taken + IfFinishes(strangers[0]))
  {
    SumTail(strangers, IfFinishes);
    if HasSilent(strangers) {
      var i :| 0 <= i < |strangers| && strangers[i].handshake.Silent?;
      assert strangers[1..][i - 1] == strangers[i];
    }
  }

  /** The accepting loop has the connection `a` of somebody else in its hands. */
  ghost predicate Handles(w: World, addr: SocketAddr, a: Arrival) {
    && Ready(w, addr)
    && w.incoming.loop == Shaking(a) && a.id < w.incoming.nextConn
    && (a.traffic.handshake.Silent? || JamsAt(w, |w.incoming.taken| + IfFinishes(a.traffic)))
  }

  function ToCome(w: World): nat {
    |w.incoming.strangers| + w.contact.others
  }

  lemma ArrivedIsTaken(g: Setting, start: World, w: World, a: Arrival) returns (v: World)
    requires CanReach(g, start, w) && w.joiner.listening && w.incoming.loop.Waiting?
    requires w.incoming.arriving == [a]
    ensures v == w.(incoming := w.incoming.(arriving := [], loop := Shaking(a)))
    ensures CanReach(g, start, v)
  {
    hide CanReach;
    var n := w.incoming.(arriving := w.incoming.arriving[1..], loop := Shaking(a));
    IncomingGoes(g, start, w, n, TakeNext);
    v := w.(incoming := n);
  }

  lemma StrangerComes(g: Setting, start: World, w: World, addr: SocketAddr) returns (v: World, a: Arrival)
    requires CanReach(g, start, w) && Ready(w, addr) && w.incoming.loop.Waiting?
    requires JamsAt(w, |w.incoming.taken|) && w.incoming.strangers != []
    ensures CanReach(g, start, v) && Handles(v, addr, a)
    ensures v.incoming.taken == w.incoming.taken && ToCome(v) < ToCome(w)
  {
    hide CanReach, Jams;
    var n := w.incoming;
    a := Arrival(n.nextConn, n.strangers[0]);
    var m := n.(strangers := n.strangers[1..], nextConn := n.nextConn + 1, arriving := n.arriving + [a]);
    IncomingGoes(g, start, w, m, StrangerArrives);
    v := ArrivedIsTaken(g, start, w.(incoming := m), a);
    if !a.traffic.handshake.Silent? {
      JamStays(n.strangers, w.contact.others, |n.taken|);
    }
  }

  lemma OtherComes(g: Setting, start: World, w: World, addr: SocketAddr) returns (v: World, a: Arrival)
    requires CanReach(g, start, w) && Ready(w, addr) && w.incoming.loop.Waiting? && g.reaches(addr)
    requires JamsAt(w, |w.incoming.taken|) && w.incoming.strangers == []
    requires |w.incoming.taken| <= STANDARD_CHANNEL_SIZE
    ensures CanReach(g, start, v) && Handles(v, addr, a)
    ensures v.incoming.taken == w.incoming.taken && ToCome(v) < ToCome(w)
  {
    hide CanReach, EchoRequest;
    var u := RequestGoes(g, start, w, addr, OtherAsks(addr));
    a := Arrival(w.incoming.nextConn, NestedEcho(g));
    assert u.incoming.arriving == [a];
    v := ArrivedIsTaken(g, start, u, a);
  }

  /** The loop establishes the connection and waits for room. */
  lemma Established(g: Setting, start: World, w: World, addr: SocketAddr, a: Arrival) returns (v: World)
    requires CanReach(g, start, w) && Handles(w, addr, a) && a.traffic.handshake.Finishes?
    ensures CanReach(g, start, v) && Ready(v, addr) && v.incoming.loop.Pushing?
    ensures |v.incoming.taken| == |w.incoming.taken| + 1 && ToCome(v) == ToCome(w)
    ensures JamsAt(v, |v.incoming.taken|)
  {
    hide CanReach, Opened, Jams;
    var n := w.incoming;
    var m := n.(loop := Pushing, taken := n.taken + [Link(a.id, Opened(a.traffic))]);
    IncomingGoes(g, start, w, m, Establish);
    v := w.(incoming := m);
  }

  lemma LoopGoesOn(g: Setting, start: World, w: World, addr: SocketAddr, step: Step) returns (v: World)
    requires CanReach(g, start, w) && Ready(w, addr) && JamsAt(w, |w.incoming.taken|)
    requires step == Discard || step == PushAccepted
    requires IncomingMove(g, w.joiner, w.contact, w.incoming, w.incoming.(loop := Waiting), step)
    ensures CanReach(g, start, v) && Ready(v, addr) && v.incoming.loop.Waiting?
    ensures v.incoming.taken == w.incoming.taken && ToCome(v) == ToCome(w)
    ensures JamsAt(v, |v.incoming.taken|)
  {
    hide CanReach, Jams, IncomingMove;
    IncomingGoes(g, start, w, w.incoming.(loop := Waiting), step);
    v := w.(incoming := w.incoming.(loop := Waiting));
  }

  /** One after the other they come, until the accepting loop blocks. */
  lemma {:induction false} FillsUp(g: Setting, start: World, w: World, addr: SocketAddr) returns (v: World)
    requires CanReach(g, start, w) && Ready(w, addr) && g.reaches(addr)
    requires w.incoming.loop.Waiting? && |w.incoming.taken| <= STANDARD_CHANNEL_SIZE
    requires JamsAt(w, |w.incoming.taken|)
    ensures CanReach(g, start, v) && Ready(v, addr) && Blocked(v.incoming)
    decreases ToCome(w)
  {
    hide CanReach, Ready, Jams;
    var a;
    if w.incoming.strangers != [] {
      v, a := StrangerComes(g, start, w, addr);
    } else {
      v, a := OtherComes(g, start, w, addr);
    }
    if a.traffic.handshake.Finishes? {
      v := Established(g, start, v, addr, a);
      if !Blocked(v.incoming) {
        v := LoopGoesOn(g, start, v, addr, PushAccepted);
        v := FillsUp(g, start, v, addr);
      }
    } else if a.traffic.handshake.Fails? {
      v := LoopGoesOn(g, start, v, addr, Discard);
      v := FillsUp(g, start, v, addr);
    }
  }

  /** The joining peer asks now: its dial-back comes too late. */
  lemma AsksTooLate(g: Setting, start: World, w: World, addr: SocketAddr) returns (v: World)
    requires CanReach(g, start, w) && Ready(w, addr) && g.reaches(addr) && Blocked(w.incoming)
    ensures CanReach(g, start, v) && Stalled(g, v)
  {
    var j, m := w.joiner.(phase := VerifyWait), w.mail.(verifyAsked := Some(addr));
    JoinerGoes(g, start, w, j, m, AskVerify);
    var w1 := w.(joiner := j, mail := m);
    var w2 := RequestGoes(g, start, w1, addr, ReceiveVerify);
    hide CanReach;
    var step;
    step, v := ContactMoves(g, w2, w2.contact.mine.value);
    Goes(g, start, w2, v, step);
  }

  /** A run without faults that cannot go on. */
  ghost predicate Complete(g: Setting, start: World, run: seq<World>, steps: seq<Step>) {
    && IsRun(g, run, steps)
    && FaultFree(run, steps)
    && run[0] == start
    && Stuck(g, run[|steps|])
  }

  /** One rival too many, or one silent stranger, can keep the peer from joining: there is a run without
      faults that stops, with nothing but a fault possible, before the peer has joined. */
  lemma BusyLoopCanStall(g: Setting, start: World) returns (run: seq<World>, steps: seq<Step>)
    requires g.Valid() && Reachable(g) && Init(g, start) && !Roomy(start)
    ensures Complete(g, start, run, steps) && run[|steps|].joiner.phase == VerifyWait
  {
    var addr := Resolve(g.cfg, Some(g.observed), g.local);
    var w := GetsReady(g, start);
    assert JamsAt(w, 0) by {
      hide CanReach, Ready, Resolve;
      if Rivals(start) <= STANDARD_CHANNEL_SIZE {
        var i :| 0 <= i < |start.incoming.strangers| && start.incoming.strangers[i].handshake.Silent?;
      }
    }
    hide IsRun, Stuck, Next, Unanswered, Blocked, Ready, Resolve, Jams;
    w := FillsUp(g, start, w, addr);
    w := AsksTooLate(g, start, w, addr);
    w := StalledToTheEnd(g, start, w);
    run, steps :| Leads(g, start, w, run, steps);
  }

  /** A single stranger is enough: one that opens a connection and goes silent. */
  lemma OneSilentStrangerStalls(g: Setting, start: World, t: Traffic) returns (run: seq<World>, steps: seq<Step>)
    requires g.Valid() && Reachable(g) && Init(g, start)
    requires start.incoming.strangers == [t] && t.handshake.Silent? && start.contact.others == 0
    ensures Rivals(start) == 0
    ensures Complete(g, start, run, steps) && run[|steps|].joiner.phase == VerifyWait
  {
    assert Rivals(start) == 0 by {
      SumTail([t], IfFinishes);
      assert Sum([t][1..], IfFinishes) == 0;
    }
    assert !NobodySilent(start.incoming) by {
      assert start.incoming.strangers[0].handshake.Silent?;
    }
    hide Init, Reachable, NobodySilent, Rivals, Complete;
    run, steps := BusyLoopCanStall(g, start);
  }

  ghost predicate EndsJoined(run: seq<World>) {
    run != [] && run[|run| - 1].joiner.phase == Done(Joined)
  }

  /** The exact condition: with contacts and a reachable address, every run without faults that cannot go
      on has joined, if and only if no more connections can be established by others than the channel has
      room for, and nobody who connects goes silent. */
  lemma JoinsIffNobodyKeepsTheLoop(g: Setting, start: World)
    requires g.Valid() && Reachable(g) && Init(g, start)
    ensures (forall run, steps :: Complete(g, start, run, steps) ==> EndsJoined(run))
            <==> && Sum(start.incoming.strangers, IfFinishes) + start.contact.others <= 10_000
                 && !HasSilent(start.incoming.strangers)
  {
    assert Roomy(start) <==> && Rivals(start) <= STANDARD_CHANNEL_SIZE
                             && !HasSilent(start.incoming.strangers);
    hide IsRun, Next, Init, IsFault, Reachable, Measure, Roomy, HasSilent;
    if Roomy(start) {
      forall run, steps | Complete(g, start, run, steps)
        ensures EndsJoined(run)
      {
        FaultFreeRunsJoin(g, run, steps);
      }
    } else {
      var run, steps := BusyLoopCanStall(g, start);
      assert !EndsJoined(run);
    }
  }
}
