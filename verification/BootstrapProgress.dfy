/** Why bootstrapping cannot get stuck: the joining peer listens before it asks to be dialled back,
    and a connection that nobody has taken from its queue yet is served all the same. */
module BootstrapProgress {
  import opened Types
  import opened Bootstrap
  import opened BootstrapSafety
  import S = Listening
  import L = Listeners
  import R = ListenerProgress

  // ----- every run is finite ------------------------------------------------------------------

  function PhaseRank(p: Phase): nat {
    match p
    case Connecting(pending) => 10 + |pending|
    case EchoOpen => 9
    case EchoWait => 8
    case Forwarding => 7
    case Listening => 6
    case VerifyOpen => 5
    case VerifyWait => 4
    case Done(_) => 0
  }

  function StageRank(d: DialBack): nat {
    match d.stage
    case Dialling => 5
    case Connected(_, _) => 4
    case Awaiting(_, _, foreign) => if foreign then 2 else 3
    case Answering(_, _) => 1
    case Answered(_, _) => 0
  }

  function IfDialling(d: DialBack): nat {
    if d.stage.Dialling? then 1 else 0
  }

  /** How many dials the contact may still make. */
  function Undialled(c: Contact): nat {
    c.others + (if c.mine.None? then 1 else 0) + Sum(c.dialBacks, IfDialling)
  }

  function TrafficRank(t: Traffic): nat {
    4 + R.Work(Opened(t))
  }

  function ArrivalRank(a: Arrival): nat {
    3 + R.Work(Opened(a.traffic))
  }

  function LoopRank(l: Loop): nat {
    match l
    case Waiting => 0
    case Shaking(a) => 2 + R.Work(Opened(a.traffic))
    case Pushing => 1
  }

  function LinkRank(l: Link): nat {
    R.Work(l.conn)
  }

  function IncomingRank(n: Incoming): nat {
    Sum(n.strangers, TrafficRank) + Sum(n.arriving, ArrivalRank) + LoopRank(n.loop) + Sum(n.taken, LinkRank)
  }

  /** `dial` is what one dial may cause at the joining peer. */
  function ContactRank(c: Contact, dial: nat): nat {
    Sum(c.dialBacks, StageRank) + 6 * c.others + (if c.mine.None? then 6 else 0) + Undialled(c) * dial
  }

  function DialCost(g: Setting): nat {
    3 + R.Work(Opened(NestedEcho(g)))
  }

  /** How much can still happen. */
  function Measure(g: Setting, w: World): nat {
    PhaseRank(w.joiner.phase) + (if w.mail.echoReply.None? then 1 else 0)
    + ContactRank(w.contact, DialCost(g)) + IncomingRank(w.incoming)
  }

  lemma JoinerMoveRanks(g: Setting, j: Joiner, m: Mail, j': Joiner, m': Mail, step: Step)
    requires JoinerMove(g, j, m, j', m', step)
    ensures PhaseRank(j'.phase) < PhaseRank(j.phase) && m'.echoReply == m.echoReply
  {
    hide Resolve;
    if step.ConnectFails? {
      assert |j.phase.pending - {step.i}| == |j.phase.pending| - 1;
    }
  }

  lemma IncomingMoveRanks(g: Setting, j: Joiner, c: Contact, n: Incoming, m: Incoming, step: Step)
    requires LinksInv(g, j, n) && IncomingMove(g, j, c, n, m, step)
    ensures IncomingRank(m) < IncomingRank(n)
  {
    hide L.Inv, L.Next, Sent, Opened, R.Work, Queued, Sum;
    if step.TakeNext? {
      SumTail(n.arriving, ArrivalRank);
    } else if step.Establish? {
      SumSnoc(n.taken, Link(n.loop.arrival.id, Opened(n.loop.arrival.traffic)), LinkRank);
    } else if step.Serve? {
      var i := step.i;
      assert LinkInv(g, j.phase.Done?, n.nextConn, n.taken[i]);
      R.StepWorks(g.codec, n.taken[i].conn, m.taken[i].conn, step.step);
      SumUpdate(n.taken, i, Link(n.taken[i].id, m.taken[i].conn), LinkRank);
    } else if step.StrangerArrives? {
      SumTail(n.strangers, TrafficRank);
      SumSnoc(n.arriving, Arrival(n.nextConn, n.strangers[0]), ArrivalRank);
    }
  }

  lemma SumTail<T>(s: seq<T>, f: T -> nat)
    requires s != []
    ensures Sum(s, f) == f(s[0]) + Sum(s[1..], f)
  {
  }

  lemma RequestRanks(c: Contact, c': Contact, addr: SocketAddr, dial: nat)
    requires || (c'.mine.Some? && c.mine.None? && c'.others == c.others)
             || (c'.mine == c.mine && c'.others + 1 == c.others)
    requires c'.dialBacks == NewRequest(c, addr).dialBacks
    ensures ContactRank(c', dial) < ContactRank(c, dial)
    ensures Undialled(c') == Undialled(c)
  {
    hide Sum;
    var d := DialBack(addr, |c.history|, Dialling);
    SumSnoc(c.dialBacks, d, StageRank);
    SumSnoc(c.dialBacks, d, IfDialling);
  }

  lemma MovedRanks(g: Setting, n: Incoming, c: Contact, k: nat, stage: Stage, events: seq<Event>,
                   step: Step, dial: nat)
    requires k < |c.dialBacks| && StageMove(g, n, k, c.dialBacks[k], |c.history|, stage, events, step)
    ensures var c' := Moved(c, k, stage, events);
            && ContactRank(c', dial) + (if step.Dial? then dial else 0) < ContactRank(c, dial)
            && Undialled(c') + (if step.Dial? then 1 else 0) <= Undialled(c)
  {
    hide Sum, Served;
    var d := c.dialBacks[k].(stage := stage);
    SumUpdate(c.dialBacks, k, d, StageRank);
    SumUpdate(c.dialBacks, k, d, IfDialling);
    var u, u' := Undialled(c), Undialled(Moved(c, k, stage, events));
    if step.Dial? {
      TimesLess(u', u, dial);
    } else {
      TimesAtMost(u', u, dial);
    }
  }

  lemma TimesLess(a: nat, b: nat, d: nat)
    requires a + 1 == b
    ensures a * d + d == b * d
  {
  }

  lemma TimesAtMost(a: nat, b: nat, d: nat)
    requires a <= b
    ensures a * d <= b * d
  {
  }

  lemma RoutedRanks(g: Setting, n: Incoming, addr: SocketAddr)
    ensures IncomingRank(Routed(g, n, addr)) <= IncomingRank(n) + DialCost(g)
  {
    hide Sum, R.Work, Opened;
    SumSnoc(n.arriving, Arrival(n.nextConn, NestedEcho(g)), ArrivalRank);
  }

  lemma DialBackStepRanks(g: Setting, w: World, v: World, step: Step)
    requires DialBackStep(g, w, v, step)
    ensures Measure(g, v) < Measure(g, w)
  {
    hide ContactRank, IncomingRank, DialCost, StageMove, Moved, Routed, Undialled;
    var k, c := step.k, w.contact;
    var stage, events := v.contact.dialBacks[k].stage, v.contact.history[|c.history|..];
    MovedRanks(g, w.incoming, c, k, stage, events, step, DialCost(g));
    RoutedRanks(g, w.incoming, c.dialBacks[k].addr);
  }

  /** Every step, faults included, uses something up. */
  lemma StepDecreasesMeasure(g: Setting, w: World, v: World, step: Step)
    requires Inv(g, w) && Next(g, w, v, step)
    ensures Measure(g, v) < Measure(g, w)
  {
    hide JoinerMove, IncomingMove, DialBackStep, ContactRank, IncomingRank, PhaseRank, DialCost,
      Undialled, JoinerInv, MineInv, LinksInv, HistoryInv, DialBacksInv;
    if JoinerStep(g, w, v, step) {
      JoinerMoveRanks(g, w.joiner, w.mail, v.joiner, v.mail, step);
    } else if IncomingStep(g, w, v, step) {
      IncomingMoveRanks(g, w.joiner, w.contact, w.incoming, v.incoming, step);
    } else if RequestStep(g, w, v, step) {
      if step.ReceiveVerify? {
        RequestRanks(w.contact, v.contact, w.mail.verifyAsked.value, DialCost(g));
      } else if step.OtherAsks? {
        RequestRanks(w.contact, v.contact, step.addr, DialCost(g));
      }
    } else {
      DialBackStepRanks(g, w, v, step);
    }
  }

  lemma {:induction false} RunsAreBounded(g: Setting, run: seq<World>, steps: seq<Step>, i: nat)
    requires IsRun(g, run, steps) && i < |run|
    ensures Measure(g, run[i]) + i <= Measure(g, run[0])
  {
    hide Next, Measure, Inv;
    if i > 0 {
      RunsAreBounded(g, run, steps, i - 1);
      RunsKeepInv(g, run, steps, i - 1);
      StepDecreasesMeasure(g, run[i - 1], run[i], steps[i - 1]);
    }
  }

  // ----- without faults -----------------------------------------------------------------------

  /** There are contacts, and the address that the joining peer will ask to be verified leads back to
      it. */
  ghost predicate Reachable(g: Setting) {
    && g.contacts != {}
    && g.reaches(Resolve(g.cfg, Some(g.observed), g.local))
  }

  function IfFinishes(t: Traffic): nat {
    if t.handshake.Finishes? then 1 else 0
  }

  function IfEstablishes(a: Arrival): nat {
    IfFinishes(a.traffic)
  }

  /** Connections that others may establish with the joining peer: by opening them, or by having the
      contact dial it. */
  function Rivals(w: World): nat {
    Sum(w.incoming.strangers, IfFinishes) + w.contact.others
  }

  /** Nobody who connects leaves the accepting loop waiting for a handshake. */
  ghost predicate NobodySilent(n: Incoming) {
    && (forall i :: 0 <= i < |n.strangers| ==> !n.strangers[i].handshake.Silent?)
    && (forall i :: 0 <= i < |n.arriving| ==> !n.arriving[i].traffic.handshake.Silent?)
    && (n.loop.Shaking? ==> !n.loop.arrival.traffic.handshake.Silent?)
  }

  /** Nobody keeps the accepting loop from getting to the dial-back: no more rivals than the channel has
      room for, and no handshake that never ends. */
  ghost predicate Roomy(w: World) {
    Rivals(w) <= STANDARD_CHANNEL_SIZE && NobodySilent(w.incoming)
  }

  /** Connections taken, or that will be. */
  function IncomingLoad(n: Incoming): nat {
    |n.taken| + (if n.loop.Shaking? then IfEstablishes(n.loop.arrival) else 0)
    + Sum(n.arriving, IfEstablishes) + Sum(n.strangers, IfFinishes)
  }

  function Load(w: World): nat {
    IncomingLoad(w.incoming) + Undialled(w.contact)
  }

  /** What holds in addition when nothing has failed. */
  ghost predicate Live(g: Setting, w: World) {
    && (w.joiner.phase.Connecting? ==> w.joiner.phase.pending == g.contacts)
    && (!w.joiner.phase.Connecting? ==> w.joiner.contact)
    && w.joiner.phase != Done(NotJoined)
    && Load(w) <= STANDARD_CHANNEL_SIZE + 1
    && NobodySilent(w.incoming)
    && (w.contact.mine.Some? ==> MineSucceeds(w.contact))
  }

  predicate MineSucceeds(c: Contact)
    requires c.mine.Some?
  {
    && c.mine.value < |c.dialBacks|
    && (var s := c.dialBacks[c.mine.value].stage;
        s.Answering? || s.Answered? ==> s.valid)
  }

  lemma JoinerStepKeepsLive(g: Setting, w: World, v: World, step: Step)
    requires Reachable(g) && MineInv(w.mail, w.contact) && Live(g, w)
    requires JoinerStep(g, w, v, step) && !IsFault(w, step)
    ensures Live(g, v)
  {
    hide Resolve, Undialled, IncomingLoad, NobodySilent;
  }

  lemma IncomingKeepsLoad(g: Setting, j: Joiner, c: Contact, n: Incoming, m: Incoming, step: Step)
    requires IncomingMove(g, j, c, n, m, step)
    ensures IncomingLoad(m) <= IncomingLoad(n)
    ensures NobodySilent(n) ==> NobodySilent(m)
  {
    hide L.Next, Sent, Opened, Sum;
    if step.TakeNext? {
      SumTail(n.arriving, IfEstablishes);
    } else if step.StrangerArrives? {
      SumTail(n.strangers, IfFinishes);
      SumSnoc(n.arriving, Arrival(n.nextConn, n.strangers[0]), IfEstablishes);
    }
  }

  lemma RoutedKeepsLoad(g: Setting, n: Incoming, addr: SocketAddr)
    ensures IncomingLoad(Routed(g, n, addr)) <= IncomingLoad(n) + 1
    ensures NobodySilent(n) ==> NobodySilent(Routed(g, n, addr))
  {
    hide Sum, EchoRequest;
    SumSnoc(n.arriving, Arrival(n.nextConn, NestedEcho(g)), IfEstablishes);
  }

  lemma IncomingStepKeepsLive(g: Setting, w: World, v: World, step: Step)
    requires Live(g, w) && IncomingStep(g, w, v, step)
    ensures Live(g, v)
  {
    hide Undialled, IncomingMove, IncomingLoad, NobodySilent, MineSucceeds;
    IncomingKeepsLoad(g, w.joiner, w.contact, w.incoming, v.incoming, step);
  }

  lemma RequestStepKeepsLive(g: Setting, w: World, v: World, step: Step)
    requires Live(g, w) && RequestStep(g, w, v, step)
    ensures Live(g, v)
  {
    hide Undialled, ContactRank, IncomingLoad, NobodySilent;
    if step.ReceiveVerify? {
      RequestRanks(w.contact, v.contact, w.mail.verifyAsked.value, 0);
    } else if step.OtherAsks? {
      RequestRanks(w.contact, v.contact, step.addr, 0);
    }
  }

  lemma DialBackStepKeepsLive(g: Setting, w: World, v: World, step: Step)
    requires Live(g, w) && DialBackStep(g, w, v, step) && !IsFault(w, step)
    ensures Live(g, v)
  {
    var k, c := step.k, w.contact;
    var stage, events := v.contact.dialBacks[k].stage, v.contact.history[|c.history|..];
    MovedRanks(g, w.incoming, c, k, stage, events, step, 0);
    RoutedKeepsLoad(g, w.incoming, c.dialBacks[k].addr);
    hide Undialled, ContactRank, Served, IncomingLoad, NobodySilent, Routed;
  }

  ghost predicate FaultFree(run: seq<World>, steps: seq<Step>) {
    |run| == |steps| + 1 && forall j :: 0 <= j < |steps| ==> !IsFault(run[j], steps[j])
  }

  lemma StepKeepsLive(g: Setting, w: World, v: World, step: Step)
    requires Reachable(g) && Inv(g, w) && Live(g, w) && Next(g, w, v, step) && !IsFault(w, step)
    ensures Live(g, v)
  {
    hide Live, JoinerStep, IncomingStep, RequestStep, DialBackStep, IsFault, Reachable,
      JoinerInv, MineInv, LinksInv, HistoryInv, DialBacksInv;
    if JoinerStep(g, w, v, step) {
      JoinerStepKeepsLive(g, w, v, step);
    } else if IncomingStep(g, w, v, step) {
      IncomingStepKeepsLive(g, w, v, step);
    } else if RequestStep(g, w, v, step) {
      RequestStepKeepsLive(g, w, v, step);
    } else {
      DialBackStepKeepsLive(g, w, v, step);
    }
  }

  /** With no more rivals than the channel has room for, and nobody silent, a run without faults stays
      live. */
  lemma {:induction false} FaultFreeRunsStayLive(g: Setting, run: seq<World>, steps: seq<Step>, i: nat)
    requires IsRun(g, run, steps) && FaultFree(run, steps) && i < |run|
    requires Reachable(g) && Roomy(run[0])
    ensures Live(g, run[i])
  {
    hide Inv, Next, IsFault, Reachable;
    if i > 0 {
      hide Live;
      FaultFreeRunsStayLive(g, run, steps, i - 1);
      RunsKeepInv(g, run, steps, i - 1);
      StepKeepsLive(g, run[i - 1], run[i], steps[i - 1]);
    }
  }

  // ----- somebody can move --------------------------------------------------------------------

  /** A connection with a nested echo request that it has not answered yet can go on by itself. */
  lemma EchoMoves(g: Setting, s: L.Conn) returns (step: L.Step, t: L.Conn)
    requires g.Valid() && L.Inv(g.codec, s) && s.incoming
    requires s.biInput == NestedEcho(g).bi && !EchoAnswered(s)
    ensures step.BiAccept? || step.BiRead?
    ensures L.Next(g.codec, s, t, step)
  {
    hide *;
    EchoIsServiceable(g);
    AnsweredMeansEcho(g, s);
    step, t := R.ServiceMoves(g.codec, s, 0, S.DialTimedOut);
  }

  lemma EchoIsServiceable(g: Setting)
    requires g.Valid()
    ensures R.Serviceable(g.codec, NestedEcho(g).bi, 0)
  {
    EchoRequestReads(g);
    hide L.BiSpec, L.RequestsOf, EchoRequest, Setting.Valid;
  }

  lemma AnsweredMeansEcho(g: Setting, s: L.Conn)
    requires g.Valid() && s.biInput == NestedEcho(g).bi
    ensures R.Answered(g.codec, s, 0) ==> EchoAnswered(s)
  {
    EchoRequestReads(g);
    hide L.BiSpec, L.RequestsOf, EchoRequest;
    if R.Answered(g.codec, s, 0) {
      assert L.Asked(s.handlers[0].served)[0] == EndpointEchoReq;
      assert L.RightReply(s.handlers[0].served[0], s.peer);
    }
  }

  /** What the joining peer's dial-back needs to go on. */
  ghost predicate AwaitsEcho(g: Setting, w: World, conn: nat) {
    && w.contact.mine.Some? && w.contact.mine.value < |w.contact.dialBacks|
    && (var d := w.contact.dialBacks[w.contact.mine.value];
        d.stage.Awaiting? && d.stage.conn == conn && g.reaches(d.addr))
  }

  /** Its nested echo request is out: no dial-back uses the same connection. */
  lemma RequestIsOut(g: Setting, w: World, conn: nat)
    requires Inv(g, w) && AwaitsEcho(g, w, conn)
    ensures Sent(w.contact, conn)
  {
    hide JoinerInv, MineInv, LinksInv, Belongs, Proven;
    var c, m := w.contact, w.contact.mine.value;
    assert DialBackInv(g, c.history, w.incoming, m, c.dialBacks[m]);
    OnlyDial(c, w.incoming.nextConn, c.dialBacks[m].stage.dialledAt);
    forall k | 0 <= k < |c.dialBacks| && c.dialBacks[k].stage.Connected?
      ensures c.dialBacks[k].stage.conn != conn
    {
      assert DialBackInv(g, c.history, w.incoming, k, c.dialBacks[k]);
    }
  }

  lemma WaitingConn(g: Setting, w: World, conn: nat)
    requires Inv(g, w) && AwaitsEcho(g, w, conn)
    ensures Known(w.incoming, conn) && Carries(g, w.incoming, conn)
  {
    hide JoinerInv, MineInv, LinksInv, HistoryInv, Known, Carries, Proven;
    var c, m := w.contact, w.contact.mine.value;
    assert DialBackInv(g, c.history, w.incoming, m, c.dialBacks[m]);
  }

  lemma ServeIsMove(g: Setting, j: Joiner, c: Contact, n: Incoming, i: nat, step: L.Step, t: L.Conn)
    requires i < |n.taken| && (step.BiAccept? || step.BiRead?) && Sent(c, n.taken[i].id)
    requires L.Next(g.codec, n.taken[i].conn, t, step)
    ensures IncomingMove(g, j, c, n, n.(taken := n.taken[i := Link(n.taken[i].id, t)]), Serve(i, step))
  {
    hide L.Next, Sent;
  }

  lemma MoveIsNext(g: Setting, w: World, n: Incoming, step: Step)
    requires IncomingMove(g, w.joiner, w.contact, w.incoming, n, step)
    ensures Next(g, w, w.(incoming := n), step) && (step.HandshakeTimesOut? <==> IsFault(w, step))
  {
    hide L.Next, Sent, Opened;
  }

  lemma TakenLink(g: Setting, j: Joiner, n: Incoming, id: nat) returns (i: nat)
    requires LinksInv(g, j, n) && Carries(g, n, id) && Took(n, id) && !Served(n, id) && !j.phase.Done?
    ensures i < |n.taken| && n.taken[i].id == id && n.taken[i].conn.biInput == NestedEcho(g).bi
    ensures L.Inv(g.codec, n.taken[i].conn) && n.taken[i].conn.incoming && !EchoAnswered(n.taken[i].conn)
  {
    hide L.Inv, NestedEcho, EchoAnswered;
    i :| 0 <= i < |n.taken| && n.taken[i].id == id;
    assert LinkInv(g, false, n.nextConn, n.taken[i]);
  }

  /** A dial-back that was taken from the network is served by its own listeners. */
  lemma TakenMoves(g: Setting, w: World, conn: nat) returns (step: Step, v: World)
    requires g.Valid() && Inv(g, w) && AwaitsEcho(g, w, conn)
    requires Took(w.incoming, conn) && !Served(w.incoming, conn) && !w.joiner.phase.Done?
    ensures !IsFault(w, step) && Next(g, w, v, step)
  {
    assert LinksInv(g, w.joiner, w.incoming);
    hide *;
    RequestIsOut(g, w, conn);
    WaitingConn(g, w, conn);
    var n := w.incoming;
    var i := TakenLink(g, w.joiner, n, conn);
    var s, t := EchoMoves(g, n.taken[i].conn);
    var m := n.(taken := n.taken[i := Link(conn, t)]);
    ServeIsMove(g, w.joiner, w.contact, n, i, s, t);
    step, v := Serve(i, s), w.(incoming := m);
    MoveIsNext(g, w, m, step);
  }

  lemma {:induction false} SumHas<T>(s: seq<T>, i: nat, f: T -> nat)
    requires i < |s|
    ensures f(s[i]) <= Sum(s, f)
  {
    if i > 0 {
      SumHas(s[1..], i - 1, f);
    }
  }

  /** A dial-back that is still on its way has a place among the connections that will be taken. */
  lemma ComingRoom(g: Setting, n: Incoming, conn: nat)
    requires Carries(g, n, conn) && Coming(n, conn)
    ensures |n.taken| < IncomingLoad(n)
    ensures n.arriving != [] || n.loop.Shaking?
  {
    hide EchoRequest, Sum;
    if !(n.loop.Shaking? && n.loop.arrival.id == conn) {
      var i :| 0 <= i < |n.arriving| && n.arriving[i].id == conn;
      SumHas(n.arriving, i, IfEstablishes);
    }
  }

  lemma LoopMoves(g: Setting, j: Joiner, c: Contact, n: Incoming) returns (step: Step, m: Incoming)
    requires j.listening && (n.arriving != [] || n.loop.Shaking?)
    requires |n.taken| <= STANDARD_CHANNEL_SIZE && NobodySilent(n)
    ensures IncomingMove(g, j, c, n, m, step) && !step.HandshakeTimesOut?
  {
    hide Opened, L.Next, Sent;
    match n.loop
    case Waiting =>
      step, m := TakeNext, n.(arriving := n.arriving[1..], loop := Shaking(n.arriving[0]));
    case Shaking(a) =>
      if a.traffic.handshake.Finishes? {
        step, m := Establish, n.(loop := Pushing, taken := n.taken + [Link(a.id, Opened(a.traffic))]);
      } else {
        step, m := Discard, n.(loop := Waiting);
      }
    case Pushing =>
      step, m := PushAccepted, n.(loop := Waiting);
  }

  lemma LiveRoom(g: Setting, w: World)
    requires Live(g, w) && |w.incoming.taken| < IncomingLoad(w.incoming)
    ensures |w.incoming.taken| <= STANDARD_CHANNEL_SIZE && NobodySilent(w.incoming)
  {
    hide Undialled, IncomingLoad, NobodySilent;
  }

  /** A dial-back on its way can be taken, or something before it moved out of the way. */
  lemma ArrivingMoves(g: Setting, w: World, conn: nat) returns (step: Step, v: World)
    requires Inv(g, w) && Live(g, w) && AwaitsEcho(g, w, conn) && w.joiner.listening
    requires !Took(w.incoming, conn)
    ensures !IsFault(w, step) && Next(g, w, v, step)
  {
    assert Known(w.incoming, conn) && !Took(w.incoming, conn) ==> Coming(w.incoming, conn);
    hide *;
    WaitingConn(g, w, conn);
    ComingRoom(g, w.incoming, conn);
    LiveRoom(g, w);
    var s, m := LoopMoves(g, w.joiner, w.contact, w.incoming);
    step, v := s, w.(incoming := m);
    MoveIsNext(g, w, m, step);
  }

  function DialBackStepKind(s: Stage, k: nat): Step
    requires !s.Answered?
  {
    match s
    case Dialling => Dial(k)
    case Connected(_, _) => AskNested(k)
    case Awaiting(_, _, _) => GetNested(k)
    case Answering(_, _) => Reply(k)
  }

  function NextStage(n: Incoming, d: DialBack, at: nat): Stage
    requires !d.stage.Answered?
  {
    match d.stage
    case Dialling => Connected(n.nextConn, at)
    case Connected(conn, dialledAt) => Awaiting(conn, dialledAt, false)
    case Awaiting(conn, dialledAt, _) => Answering(true, Some(Evidence(conn, d.receivedAt, dialledAt, at)))
    case Answering(valid, evidence) => Answered(valid, evidence)
  }

  function NextEvents(n: Incoming, d: DialBack, k: nat): seq<Event> {
    match d.stage
    case Dialling => [Dialled(k, d.addr, n.nextConn)]
    case Awaiting(conn, _, _) => [Echoed(k, conn)]
    case _ => []
  }

  /** The contact goes on with a dial-back that does not wait for an echo. */
  lemma ContactMoves(g: Setting, w: World, k: nat) returns (step: Step, v: World)
    requires k < |w.contact.dialBacks| && !w.contact.dialBacks[k].stage.Answered?
    requires var s := w.contact.dialBacks[k].stage; s.Awaiting? ==> Served(w.incoming, s.conn)
    ensures step == DialBackStepKind(w.contact.dialBacks[k].stage, k)
    ensures !IsFault(w, step) && DialBackStep(g, w, v, step)
    ensures v.contact.dialBacks == w.contact.dialBacks[k := v.contact.dialBacks[k]]
    ensures v.contact.dialBacks[k]
            == w.contact.dialBacks[k].(stage := NextStage(w.incoming, w.contact.dialBacks[k], |w.contact.history|))
  {
    hide Served, NestedEcho;
    var c, n, d := w.contact, w.incoming, w.contact.dialBacks[k];
    step := DialBackStepKind(d.stage, k);
    var stage, events := NextStage(n, d, |c.history|), NextEvents(n, d, k);
    v := World(w.joiner,
               if step.Reply? && c.mine == Some(k) then w.mail.(verifyReply := Some(stage.valid)) else w.mail,
               Moved(c, k, stage, events),
               if step.Dial? then Routed(g, n, d.addr) else n);
    assert v.contact.history[|c.history|..] == events;
  }

  /** Once the request is out, somebody can always make the next move towards the answer. */
  lemma VerificationMoves(g: Setting, w: World) returns (step: Step, v: World)
    requires g.Valid() && Reachable(g) && Inv(g, w) && Live(g, w) && w.joiner.phase == VerifyWait
    ensures !IsFault(w, step) && Next(g, w, v, step)
  {
    hide LinksInv, HistoryInv, DialBacksInv, Served, Took, IncomingStep, DialBackStep, Undialled, Resolve;
    var c := w.contact;
    if c.mine.None? {
      step := ReceiveVerify;
      v := w.(contact := NewRequest(c, w.mail.verifyAsked.value).(mine := Some(|c.dialBacks|)));
    } else {
      var k, d := c.mine.value, c.dialBacks[c.mine.value];
      if d.stage.Answered? {
        step, v := GetReply, w.(joiner := w.joiner.(phase := Done(Joined)));
      } else if d.stage.Awaiting? && !Served(w.incoming, d.stage.conn) {
        if Took(w.incoming, d.stage.conn) {
          step, v := TakenMoves(g, w, d.stage.conn);
        } else {
          step, v := ArrivingMoves(g, w, d.stage.conn);
        }
      } else {
        step, v := ContactMoves(g, w, k);
      }
    }
  }

  lemma EarlyMoves(g: Setting, j: Joiner, m: Mail) returns (step: Step, j': Joiner, m': Mail)
    requires JoinerInv(g, j, m) && !j.phase.VerifyWait? && !j.phase.Done?
    requires j.phase.Connecting? ==> j.phase.pending != {}
    requires j.phase.EchoWait? ==> m.echoReply.Some?
    ensures JoinerMove(g, j, m, j', m', step)
    ensures !step.ConnectFails? && !step.GiveUp? && !step.DialBackFails? && !step.HandshakeTimesOut?
  {
    hide Resolve;
    j', m' := j, m;
    match j.phase
    case Connecting(pending) =>
      var i :| i in pending;
      step, j' := Connect(i), j.(phase := EchoOpen, contact := true);
    case EchoOpen =>
      step, j', m' := AskEcho, j.(phase := EchoWait), m.(echoAsked := true);
    case EchoWait =>
      step := GetEcho;
      j' := j.(phase := Forwarding, visible := m.echoReply,
               public := Some(Resolve(g.cfg, m.echoReply, g.local)));
    case Forwarding =>
      step, j' := Forward, j.(phase := Listening);
    case Listening =>
      step := StartListening;
      j' := j.(listening := true, phase := if j.contact then VerifyOpen else Done(Joined));
    case VerifyOpen =>
      step, j', m' := AskVerify, j.(phase := VerifyWait), m.(verifyAsked := j.public);
  }

  /** As long as nothing has failed and the peer has not joined, some step other than a fault is
      possible. */
  lemma SomebodyMoves(g: Setting, w: World) returns (step: Step, v: World)
    requires g.Valid() && Reachable(g) && Inv(g, w) && Live(g, w) && w.joiner.phase != Done(Joined)
    ensures !IsFault(w, step) && Next(g, w, v, step)
  {
    if w.joiner.phase == VerifyWait {
      hide *;
      step, v := VerificationMoves(g, w);
    } else {
      hide JoinerInv, JoinerMove, MineInv, LinksInv, HistoryInv, DialBacksInv, IncomingStep, DialBackStep, Undialled;
      if w.joiner.phase == EchoWait && w.mail.echoReply.None? {
        EchoWasAsked(g, w.joiner, w.mail);
        step, v := AnswerEcho, w.(mail := w.mail.(echoReply := Some(g.observed)));
      } else {
        TwoOutcomes(w.joiner.phase);
        var s, j, m := EarlyMoves(g, w.joiner, w.mail);
        step, v := s, w.(joiner := j, mail := m);
      }
    }
  }

  lemma TwoOutcomes(p: Phase)
    ensures p.Done? ==> p == Done(Joined) || p == Done(NotJoined)
  {
    if p.Done? {
      match p.outcome
      case Joined =>
      case NotJoined =>
    }
  }

  lemma EchoWasAsked(g: Setting, j: Joiner, m: Mail)
    requires JoinerInv(g, j, m) && j.phase == EchoWait
    ensures m.echoAsked
  {
  }

  /** Bootstrap progress: without faults, with the resolved address leading back to the joining peer
      and nobody keeping its accepting loop busy for ever, every run is bounded, never fails, and can stop
      only when the peer has joined, whatever the order in which the parties move. */
  lemma FaultFreeRunsJoin(g: Setting, run: seq<World>, steps: seq<Step>)
    requires IsRun(g, run, steps) && FaultFree(run, steps)
    requires Reachable(g) && Roomy(run[0])
    ensures |steps| <= Measure(g, run[0])
    ensures run[|steps|].joiner.phase != Done(NotJoined)
    ensures || run[|steps|].joiner.phase == Done(Joined)
            || exists step, v :: Next(g, run[|steps|], v, step) && !IsFault(run[|steps|], step)
  {
    hide Inv, Next, Measure, IsFault, Reachable;
    RunsAreBounded(g, run, steps, |steps|);
    FaultFreeRunsStayLive(g, run, steps, |steps|);
    RunsKeepInv(g, run, steps, |steps|);
    if run[|steps|].joiner.phase != Done(Joined) {
      var step, v := SomebodyMoves(g, run[|steps|]);
    }
  }
}
