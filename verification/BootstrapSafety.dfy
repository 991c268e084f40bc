/** What a successful `new_peer` means, in every run and whatever fails. */
module BootstrapSafety {
  import opened Types
  import opened Wire
  import opened WireProofs
  import opened Bootstrap
  import S = Listening
  import L = Listeners
  import P = ListenerProofs
  import BiHandler
  import R = ListenerProgress

  // ----- what connections do ------------------------------------------------------------------

  /** On its way to the accepting loop, or in its hands. */
  ghost predicate Coming(n: Incoming, id: nat) {
    || (n.loop.Shaking? && n.loop.arrival.id == id)
    || exists i :: 0 <= i < |n.arriving| && n.arriving[i].id == id
  }

  ghost predicate Known(n: Incoming, id: nat) {
    Took(n, id) || Coming(n, id)
  }

  /** Whatever goes by this name carries the nested echo of a dial-back. */
  ghost predicate Carries(g: Setting, n: Incoming, id: nat) {
    && (n.loop.Shaking? && n.loop.arrival.id == id ==> n.loop.arrival.traffic == NestedEcho(g))
    && (forall i :: 0 <= i < |n.arriving| && n.arriving[i].id == id ==>
          n.arriving[i].traffic == NestedEcho(g))
    && (forall i :: 0 <= i < |n.taken| && n.taken[i].id == id ==>
          n.taken[i].conn.biInput == NestedEcho(g).bi && n.taken[i].conn.peer == g.contactAddr)
  }

  /** Dial-backs stay what they are: known or not, answered once they are. */
  ghost predicate Keeps(g: Setting, n: Incoming, m: Incoming, id: nat) {
    && (Took(n, id) ==> Took(m, id))
    && (Served(n, id) ==> Served(m, id))
    && (Carries(g, n, id) ==> Carries(g, m, id) && (Known(m, id) <==> Known(n, id)))
  }

  ghost predicate Evolves(g: Setting, n: Incoming, m: Incoming) {
    && n.nextConn <= m.nextConn
    && forall id: nat :: id < n.nextConn ==> Keeps(g, n, m, id)
  }

  lemma TakeKeeps(g: Setting, n: Incoming, m: Incoming, id: nat)
    requires n.arriving != [] && n.loop.Waiting?
    requires m == n.(arriving := n.arriving[1..], loop := Shaking(n.arriving[0]))
    ensures Keeps(g, n, m, id)
  {
    hide NestedEcho, EchoAnswered;
    if i :| 0 <= i < |n.arriving| && n.arriving[i].id == id {
      if i > 0 {
        assert m.arriving[i - 1] == n.arriving[i];
      }
    }
    assert forall i :: 0 <= i < |m.arriving| ==> m.arriving[i] == n.arriving[i + 1];
  }

  lemma EstablishKeeps(g: Setting, n: Incoming, m: Incoming, id: nat)
    requires n.loop.Shaking?
    requires var a := n.loop.arrival;
             m == n.(loop := Pushing, taken := n.taken + [Link(a.id, Opened(a.traffic))])
    ensures Keeps(g, n, m, id)
  {
    hide EchoRequest, EchoAnswered;
    assert m.taken[|n.taken|].id == n.loop.arrival.id;
    if Took(n, id) {
      var i :| 0 <= i < |n.taken| && n.taken[i].id == id;
      assert m.taken[i] == n.taken[i];
    }
    if Served(n, id) {
      var i :| 0 <= i < |n.taken| && n.taken[i].id == id && EchoAnswered(n.taken[i].conn);
      assert m.taken[i] == n.taken[i];
    }
  }

  /** A connection that is given up is none of a dial-back. */
  lemma DiscardKeeps(g: Setting, n: Incoming, m: Incoming, id: nat)
    requires n.loop.Pushing? || (n.loop.Shaking? && !n.loop.arrival.traffic.handshake.Finishes?)
    requires m == n.(loop := Waiting)
    ensures Keeps(g, n, m, id)
  {
    hide EchoRequest, EchoAnswered;
  }

  lemma ServeKeeps(g: Setting, n: Incoming, m: Incoming, i: nat, step: L.Step, id: nat)
    requires i < |n.taken| && i < |m.taken|
    requires L.Next(g.codec, n.taken[i].conn, m.taken[i].conn, step)
    requires m == n.(taken := n.taken[i := Link(n.taken[i].id, m.taken[i].conn)])
    ensures Keeps(g, n, m, id)
  {
    hide L.Next, NestedEcho;
    R.AnswersStay(g.codec, n.taken[i].conn, m.taken[i].conn, step);
    assert forall j :: 0 <= j < |n.taken| ==> m.taken[j].id == n.taken[j].id;
    if Served(n, id) {
      var j :| 0 <= j < |n.taken| && n.taken[j].id == id && EchoAnswered(n.taken[j].conn);
      assert EchoAnswered(m.taken[j].conn);
    }
  }

  lemma AddKeeps(g: Setting, n: Incoming, m: Incoming, id: nat)
    requires m.taken == n.taken && m.loop == n.loop && id < n.nextConn
    requires m.arriving == n.arriving
             || exists t: Traffic :: m.arriving == n.arriving + [Arrival(n.nextConn, t)]
    ensures Keeps(g, n, m, id)
  {
    hide NestedEcho;
    assert forall i :: 0 <= i < |n.arriving| ==> m.arriving[i] == n.arriving[i];
  }

  lemma IncomingEvolves(g: Setting, j: Joiner, c: Contact, n: Incoming, m: Incoming, step: Step)
    requires IncomingMove(g, j, c, n, m, step)
    ensures Evolves(g, n, m)
  {
    hide Keeps, Opened, L.Next, Sent, NestedEcho;
    forall id: nat | id < n.nextConn
      ensures Keeps(g, n, m, id)
    {
      if step.TakeNext? {
        TakeKeeps(g, n, m, id);
      } else if step.Establish? {
        EstablishKeeps(g, n, m, id);
      } else if step.Serve? {
        ServeKeeps(g, n, m, step.i, step.step, id);
      } else if step.StrangerArrives? {
        AddKeeps(g, n, m, id);
      } else {
        DiscardKeeps(g, n, m, id);
      }
    }
  }

  lemma RoutedEvolves(g: Setting, n: Incoming, addr: SocketAddr)
    ensures Evolves(g, n, Routed(g, n, addr))
  {
    hide Keeps, NestedEcho;
    forall id: nat | id < n.nextConn
      ensures Keeps(g, n, Routed(g, n, addr), id)
    {
      AddKeeps(g, n, Routed(g, n, addr), id);
    }
  }

  lemma SameEvolves(g: Setting, n: Incoming)
    ensures Evolves(g, n, n)
  {
  }

  /** Every connection taken is a run of the listeners, with its receiving half alive as long as
      `new_peer` has not returned. */
  ghost predicate LinksInv(g: Setting, j: Joiner, n: Incoming) {
    && (n.loop.Pushing? ==> n.taken != [])
    && (n.loop.Shaking? ==> n.loop.arrival.id < n.nextConn)
    && (forall i :: 0 <= i < |n.arriving| ==> n.arriving[i].id < n.nextConn)
    && (forall i :: 0 <= i < |n.taken| ==> LinkInv(g, j.phase.Done?, n.nextConn, n.taken[i]))
  }

  ghost predicate LinkInv(g: Setting, done: bool, nextConn: nat, l: Link) {
    && l.id < nextConn
    && L.Inv(g.codec, l.conn)
    && (!done ==> l.conn.incoming)
  }

  lemma OpenedInv(g: Setting, t: Traffic)
    ensures L.Inv(g.codec, Opened(t)) && Opened(t).incoming
  {
    hide L.Inv;
    P.InitInv(g.codec, Opened(t));
  }

  lemma ServedLinkInv(g: Setting, done: bool, nextConn: nat, l: Link, conn: L.Conn, step: L.Step, phase: Phase)
    requires LinkInv(g, done, nextConn, l) && L.Next(g.codec, l.conn, conn, step)
    requires MayStep(phase, step) && done == phase.Done?
    ensures LinkInv(g, done, nextConn, Link(l.id, conn))
  {
    hide L.Inv, L.Next;
    P.StepKeepsInv(g.codec, l.conn, conn, step);
    if !done {
      KeepsIncoming(g.codec, l.conn, conn, step);
    }
  }

  lemma KeepsIncoming(c: Codec, s: L.Conn, t: L.Conn, step: L.Step)
    requires L.Next(c, s, t, step) && !step.DropIncoming?
    ensures t.incoming == s.incoming
  {
    hide S.Pull, Parse, L.StopAll, S.IsLossItem, L.Task.Stopped, L.Task.Sent, L.Task.Holding, L.Handler.AfterRead;
  }

  lemma IncomingKeepsLinks(g: Setting, j: Joiner, c: Contact, n: Incoming, m: Incoming, step: Step)
    requires LinksInv(g, j, n) && IncomingMove(g, j, c, n, m, step)
    ensures LinksInv(g, j, m)
  {
    hide L.Inv, L.Next, Sent, Opened, MayStep;
    if step.Establish? {
      OpenedInv(g, n.loop.arrival.traffic);
    } else if step.Serve? {
      ServedLinkInv(g, j.phase.Done?, n.nextConn, n.taken[step.i], m.taken[step.i].conn, step.step, j.phase);
    }
  }

  // ----- what the contact does ----------------------------------------------------------------

  /** For this request the contact received `addr`, then dialled it over a new connection, and then
      got an echo response over that connection. */
  predicate Justifies(e: Evidence, id: nat, addr: SocketAddr, h: seq<Event>) {
    && e.receivedAt < e.dialledAt < e.echoedAt < |h|
    && h[e.receivedAt] == Received(id, addr)
    && h[e.dialledAt] == Dialled(id, addr, e.conn)
    && h[e.echoedAt] == Echoed(id, e.conn)
  }

  /** The connection of a dial-back goes to the joining peer if and only if the address does. */
  ghost predicate Belongs(g: Setting, n: Incoming, addr: SocketAddr, conn: nat) {
    && conn < n.nextConn
    && Carries(g, n, conn)
    && (Known(n, conn) <==> g.reaches(addr))
  }

  ghost predicate OnConn(g: Setting, h: seq<Event>, n: Incoming, k: nat, d: DialBack, conn: nat, at: nat) {
    && d.receivedAt < at < |h|
    && h[at] == Dialled(k, d.addr, conn)
    && Belongs(g, n, d.addr, conn)
  }

  ghost predicate Proven(g: Setting, h: seq<Event>, n: Incoming, k: nat, d: DialBack, e: Evidence) {
    && Justifies(e, k, d.addr, h)
    && e.receivedAt == d.receivedAt
    && Belongs(g, n, d.addr, e.conn)
    && (g.reaches(d.addr) ==> Served(n, e.conn))
  }

  ghost predicate StageInv(g: Setting, h: seq<Event>, n: Incoming, k: nat, d: DialBack) {
    match d.stage
    case Dialling => true
    case Connected(conn, at) => OnConn(g, h, n, k, d, conn, at)
    case Awaiting(conn, at, foreign) => OnConn(g, h, n, k, d, conn, at) && (foreign ==> !g.reaches(d.addr))
    case Answering(valid, e) => valid ==> e.Some? && Proven(g, h, n, k, d, e.value)
    case Answered(valid, e) => valid ==> e.Some? && Proven(g, h, n, k, d, e.value)
  }

  ghost predicate DialBackInv(g: Setting, h: seq<Event>, n: Incoming, k: nat, d: DialBack) {
    && d.receivedAt < |h|
    && h[d.receivedAt] == Received(k, d.addr)
    && StageInv(g, h, n, k, d)
  }

  /** No two dials share a connection, and every request was received once. */
  ghost predicate HistoryInv(c: Contact, nextConn: nat) {
    && (forall j :: 0 <= j < |c.history| && c.history[j].Dialled? ==> c.history[j].conn < nextConn)
    && (forall i, j :: 0 <= i < j < |c.history| && c.history[i].Dialled? && c.history[j].Dialled? ==>
          c.history[i].conn != c.history[j].conn)
    && (forall j :: 0 <= j < |c.history| && c.history[j].Received? ==>
          c.history[j].id < |c.dialBacks| && c.dialBacks[c.history[j].id].receivedAt == j)
  }

  ghost predicate DialBacksInv(g: Setting, c: Contact, n: Incoming) {
    forall k :: 0 <= k < |c.dialBacks| ==> DialBackInv(g, c.history, n, k, c.dialBacks[k])
  }

  /** What was proven stays proven. */
  lemma DialBackStays(g: Setting, h: seq<Event>, n: Incoming, k: nat, d: DialBack, h': seq<Event>, n': Incoming)
    requires DialBackInv(g, h, n, k, d) && h <= h' && Evolves(g, n, n')
    ensures DialBackInv(g, h', n', k, d)
  {
    hide Known, Took, Served, Carries;
    match d.stage
    case Dialling =>
    case Connected(conn, _) => assert Keeps(g, n, n', conn);
    case Awaiting(conn, _, _) => assert Keeps(g, n, n', conn);
    case Answering(valid, e) => if valid { assert Keeps(g, n, n', e.value.conn); }
    case Answered(valid, e) => if valid { assert Keeps(g, n, n', e.value.conn); }
  }

  lemma DialBacksStay(g: Setting, c: Contact, n: Incoming, n': Incoming)
    requires DialBacksInv(g, c, n) && Evolves(g, n, n')
    ensures DialBacksInv(g, c, n')
  {
    hide DialBackInv, Evolves;
    forall k | 0 <= k < |c.dialBacks|
      ensures DialBackInv(g, c.history, n', k, c.dialBacks[k])
    {
      DialBackStays(g, c.history, n, k, c.dialBacks[k], c.history, n');
    }
  }

  lemma NewRequestInv(g: Setting, c: Contact, n: Incoming, addr: SocketAddr)
    requires DialBacksInv(g, c, n) && HistoryInv(c, n.nextConn)
    ensures DialBacksInv(g, NewRequest(c, addr), n) && HistoryInv(NewRequest(c, addr), n.nextConn)
  {
    var c' := NewRequest(c, addr);
    hide StageInv, Evolves;
    SameEvolves(g, n);
    forall k | 0 <= k < |c'.dialBacks|
      ensures DialBackInv(g, c'.history, n, k, c'.dialBacks[k])
    {
      if k < |c.dialBacks| {
        DialBackStays(g, c.history, n, k, c.dialBacks[k], c'.history, n);
      } else {
        DiallingInv(g, c'.history, n, k, c'.dialBacks[k]);
      }
    }
  }

  lemma DiallingInv(g: Setting, h: seq<Event>, n: Incoming, k: nat, d: DialBack)
    requires d.stage.Dialling?
    ensures StageInv(g, h, n, k, d)
  {
  }

  /** A dial gets a name that nothing known has, so that its connection is the joining peer's if and
      only if the address leads there. */
  lemma DialBelongs(g: Setting, j: Joiner, n: Incoming, addr: SocketAddr)
    requires LinksInv(g, j, n)
    ensures Belongs(g, Routed(g, n, addr), addr, n.nextConn)
  {
    hide L.Inv, NestedEcho;
    var m := Routed(g, n, addr);
    if g.reaches(addr) {
      assert m.arriving[|n.arriving|].id == n.nextConn;
    }
  }

  lemma MovedStageInv(g: Setting, j: Joiner, h: seq<Event>, n: Incoming, n': Incoming, k: nat, d: DialBack,
                      stage: Stage, events: seq<Event>, step: Step)
    requires DialBackInv(g, h, n, k, d) && LinksInv(g, j, n)
    requires StageMove(g, n, k, d, |h|, stage, events, step)
    requires n' == if step.Dial? then Routed(g, n, d.addr) else n
    ensures DialBackInv(g, h + events, n', k, d.(stage := stage))
  {
    hide Served, LinksInv, Evolves, Carries, Known;
    SameEvolves(g, n);
    DialBackStays(g, h, n, k, d, h + events, n);
    if step.Dial? {
      DialBelongs(g, j, n, d.addr);
    } else if step.GetNested? {
      KnownIffReached(g, h, n, k, d);
    }
  }

  lemma KnownIffReached(g: Setting, h: seq<Event>, n: Incoming, k: nat, d: DialBack)
    requires DialBackInv(g, h, n, k, d) && d.stage.Awaiting? && (d.stage.foreign || Served(n, d.stage.conn))
    ensures g.reaches(d.addr) ==> Served(n, d.stage.conn)
  {
  }

  lemma DialBackStepInv(g: Setting, w: World, v: World, step: Step)
    requires DialBacksInv(g, w.contact, w.incoming) && HistoryInv(w.contact, w.incoming.nextConn)
    requires LinksInv(g, w.joiner, w.incoming) && DialBackStep(g, w, v, step)
    ensures DialBacksInv(g, v.contact, v.incoming) && HistoryInv(v.contact, v.incoming.nextConn)
    ensures Evolves(g, w.incoming, v.incoming)
  {
    hide StageMove, DialBackInv, LinksInv, Evolves;
    var k, c, n, n' := step.k, w.contact, w.incoming, v.incoming;
    var stage, events := v.contact.dialBacks[k].stage, v.contact.history[|c.history|..];
    SameEvolves(g, n);
    RoutedEvolves(g, n, c.dialBacks[k].addr);
    forall i | 0 <= i < |v.contact.dialBacks|
      ensures DialBackInv(g, v.contact.history, n', i, v.contact.dialBacks[i])
    {
      if i == k {
        MovedStageInv(g, w.joiner, c.history, n, n', k, c.dialBacks[k], stage, events, step);
      } else {
        DialBackStays(g, c.history, n, i, c.dialBacks[i], v.contact.history, n');
      }
    }
    EventsOf(g, n, k, c.dialBacks[k], |c.history|, stage, events, step);
    HistoryGrows(c, v.contact, n.nextConn, n'.nextConn, events);
  }

  /** The events of a move: at most one, a dial only over the next connection, never a request. */
  lemma EventsOf(g: Setting, n: Incoming, k: nat, d: DialBack, at: nat, stage: Stage, events: seq<Event>, step: Step)
    requires StageMove(g, n, k, d, at, stage, events, step)
    ensures |events| <= 1
    ensures |events| == 1 ==> !events[0].Received?
    ensures |events| == 1 && events[0].Dialled? ==> step.Dial? && events[0].conn == n.nextConn
  {
    hide Served;
  }

  lemma HistoryGrows(c: Contact, c': Contact, nextConn: nat, nextConn': nat, events: seq<Event>)
    requires HistoryInv(c, nextConn) && nextConn <= nextConn'
    requires c'.history == c.history + events && |c'.dialBacks| == |c.dialBacks|
    requires forall i :: 0 <= i < |c.dialBacks| ==> c'.dialBacks[i].receivedAt == c.dialBacks[i].receivedAt
    requires |events| <= 1 && (|events| == 1 ==> !events[0].Received?)
    requires |events| == 1 && events[0].Dialled? ==> events[0].conn == nextConn < nextConn'
    ensures HistoryInv(c', nextConn')
  {
  }

  // ----- what the joining peer knows ----------------------------------------------------------

  /** What each phase of `new_peer` knows. */
  predicate PhaseInv(j: Joiner, m: Mail) {
    match j.phase
    case Connecting(_) => !j.contact && j.public.None? && !j.listening && m.verifyAsked.None? && !m.echoAsked
    case EchoOpen => j.contact && j.public.None? && !m.echoAsked && !j.listening && m.verifyAsked.None?
    case EchoWait => j.contact && j.public.None? && m.echoAsked && !j.listening && m.verifyAsked.None?
    case Forwarding => j.public.Some? && !j.listening && m.verifyAsked.None?
    case Listening => j.public.Some? && !j.listening && m.verifyAsked.None?
    case VerifyOpen => j.contact && j.public.Some? && j.listening && m.verifyAsked.None?
    case VerifyWait => j.contact && j.public.Some? && j.listening && m.verifyAsked == j.public
    case Done(Joined) =>
      && j.public.Some? && j.listening
      && (j.contact ==> m.verifyAsked == j.public && m.verifyReply == Some(true))
    case Done(NotJoined) => true
  }

  ghost predicate JoinerInv(g: Setting, j: Joiner, m: Mail) {
    && PhaseInv(j, m)
    && (m.echoReply.Some? ==> m.echoAsked && m.echoReply.value == g.observed)
    && (m.echoAsked ==> j.contact)
    && (j.visible.Some? ==> j.public.Some? && j.visible.value == g.observed)
    && (j.public.Some? ==>
          && j.contact == j.visible.Some?
          && j.public.value == Resolve(g.cfg, j.visible, g.local))
    && (m.verifyAsked.Some? ==> j.contact && m.verifyAsked == j.public)
  }

  /** The joining peer's request, and the answer to it. */
  predicate MineInv(m: Mail, c: Contact) {
    match c.mine
    case None => m.verifyReply.None?
    case Some(k) =>
      && k < |c.dialBacks|
      && m.verifyAsked == Some(c.dialBacks[k].addr)
      && m.verifyReply == if c.dialBacks[k].stage.Answered? then Some(c.dialBacks[k].stage.valid) else None
  }

  ghost predicate Inv(g: Setting, w: World) {
    && JoinerInv(g, w.joiner, w.mail)
    && MineInv(w.mail, w.contact)
    && LinksInv(g, w.joiner, w.incoming)
    && HistoryInv(w.contact, w.incoming.nextConn)
    && DialBacksInv(g, w.contact, w.incoming)
  }

  lemma JoinerKeepsInv(g: Setting, j: Joiner, m: Mail, j': Joiner, m': Mail, step: Step)
    requires JoinerInv(g, j, m) && JoinerMove(g, j, m, j', m', step)
    ensures JoinerInv(g, j', m')
    ensures m'.verifyReply == m.verifyReply
    ensures m.verifyAsked.Some? ==> m'.verifyAsked == m.verifyAsked
    ensures j.phase.Done? ==> j'.phase.Done?
  {
    hide Resolve;
  }

  lemma JoinerStepKeepsInv(g: Setting, w: World, v: World, step: Step)
    requires Inv(g, w) && JoinerStep(g, w, v, step)
    ensures Inv(g, v)
  {
    hide JoinerInv, JoinerMove, HistoryInv, DialBacksInv, L.Inv;
    JoinerKeepsInv(g, w.joiner, w.mail, v.joiner, v.mail, step);
  }

  lemma IncomingStepKeepsInv(g: Setting, w: World, v: World, step: Step)
    requires Inv(g, w) && IncomingStep(g, w, v, step)
    ensures Inv(g, v)
  {
    hide JoinerInv, MineInv, IncomingMove, LinksInv, DialBacksInv, Keeps;
    IncomingEvolves(g, w.joiner, w.contact, w.incoming, v.incoming, step);
    IncomingKeepsLinks(g, w.joiner, w.contact, w.incoming, v.incoming, step);
    DialBacksStay(g, w.contact, w.incoming, v.incoming);
  }

  lemma RequestStepKeepsInv(g: Setting, w: World, v: World, step: Step)
    requires Inv(g, w) && RequestStep(g, w, v, step)
    ensures Inv(g, v)
  {
    hide LinksInv, HistoryInv, DialBacksInv, Resolve;
    if step.ReceiveVerify? {
      NewRequestInv(g, w.contact, w.incoming, w.mail.verifyAsked.value);
      MineIsNoMatter(g, NewRequest(w.contact, w.mail.verifyAsked.value), v.contact, w.incoming);
    } else if step.OtherAsks? {
      NewRequestInv(g, w.contact, w.incoming, step.addr);
      MineIsNoMatter(g, NewRequest(w.contact, step.addr), v.contact, w.incoming);
    }
  }

  lemma MineIsNoMatter(g: Setting, c: Contact, c': Contact, n: Incoming)
    requires c'.dialBacks == c.dialBacks && c'.history == c.history
    ensures HistoryInv(c, n.nextConn) ==> HistoryInv(c', n.nextConn)
    ensures DialBacksInv(g, c, n) ==> DialBacksInv(g, c', n)
  {
    hide DialBackInv;
  }

  lemma RoutedKeepsLinks(g: Setting, j: Joiner, n: Incoming, addr: SocketAddr)
    requires LinksInv(g, j, n)
    ensures LinksInv(g, j, Routed(g, n, addr))
  {
    hide L.Inv, NestedEcho;
  }

  lemma DialBackStepKeepsMine(g: Setting, w: World, v: World, step: Step)
    requires JoinerInv(g, w.joiner, w.mail) && MineInv(w.mail, w.contact) && DialBackStep(g, w, v, step)
    ensures JoinerInv(g, v.joiner, v.mail) && MineInv(v.mail, v.contact)
  {
    hide Resolve, Routed, Served;
  }

  lemma DialBackStepKeepsInv(g: Setting, w: World, v: World, step: Step)
    requires Inv(g, w) && DialBackStep(g, w, v, step)
    ensures Inv(g, v)
  {
    hide JoinerInv, MineInv, LinksInv, HistoryInv, DialBacksInv, StageMove, Routed, Evolves;
    DialBackStepInv(g, w, v, step);
    DialBackStepKeepsMine(g, w, v, step);
    RoutedKeepsLinks(g, w.joiner, w.incoming, w.contact.dialBacks[step.k].addr);
  }

  lemma StepKeepsInv(g: Setting, w: World, v: World, step: Step)
    requires Inv(g, w) && Next(g, w, v, step)
    ensures Inv(g, v)
  {
    hide Inv, JoinerStep, IncomingStep, RequestStep, DialBackStep;
    if JoinerStep(g, w, v, step) {
      JoinerStepKeepsInv(g, w, v, step);
    } else if IncomingStep(g, w, v, step) {
      IncomingStepKeepsInv(g, w, v, step);
    } else if RequestStep(g, w, v, step) {
      RequestStepKeepsInv(g, w, v, step);
    } else {
      DialBackStepKeepsInv(g, w, v, step);
    }
  }

  lemma {:induction false} RunsKeepInv(g: Setting, run: seq<World>, steps: seq<Step>, i: nat)
    requires IsRun(g, run, steps) && i < |run|
    ensures Inv(g, run[i])
  {
    if i > 0 {
      hide Inv, Next;
      RunsKeepInv(g, run, steps, i - 1);
      StepKeepsInv(g, run[i - 1], run[i], steps[i - 1]);
    }
  }

  // ----- the theorem --------------------------------------------------------------------------

  /** The listeners of the joining peer answered the nested echo request on the connection. */
  ghost predicate EchoServed(g: Setting, n: Incoming, id: nat) {
    exists i :: 0 <= i < |n.taken| && n.taken[i].id == id && AnsweredWith(n.taken[i].conn, g.contactAddr)
  }

  predicate AnsweredWith(s: L.Conn, peer: SocketAddr) {
    && |s.handlers| == 1
    && |s.handlers[0].served| == 1
    && s.handlers[0].served[0].request == EndpointEchoReq
    && s.handlers[0].served[0].reply == EndpointEchoResp(peer)
  }

  /** Request `id` for the public address was received once; the contact dialled the address for it
      later, over a connection that no other dial of any request used, and got an echo response over
      that connection for it. The connection is the joining peer's own, and was answered by its
      listeners, if and only if the address leads back to it. */
  ghost predicate VerifiedBy(g: Setting, w: World, addr: SocketAddr, id: nat, e: Evidence) {
    var h := w.contact.history;
    && Justifies(e, id, addr, h)
    && (forall j :: 0 <= j < |h| && h[j].Received? && h[j].id == id ==> j == e.receivedAt)
    && (forall j :: 0 <= j < |h| && h[j].Dialled? && h[j].conn == e.conn ==> j == e.dialledAt)
    && (Took(w.incoming, e.conn) <==> g.reaches(addr))
    && (EchoServed(g, w.incoming, e.conn) <==> g.reaches(addr))
  }

  /** Reading the nested echo request. */
  lemma EchoRequestReads(g: Setting)
    requires g.Valid()
    ensures Parse(g.codec, EchoRequest(g.codec)) == Parsed(Ok(Some(EndpointEchoReq)), [])
    ensures L.BiSpec(g.codec, EchoRequest(g.codec)) == []
    ensures L.RequestsOf(g.codec, EchoRequest(g.codec)) == [EndpointEchoReq]
  {
    var stream := EchoRequest(g.codec);
    BiHandler.ServiceWritable(g.codec, EndpointEchoReq);
    FrameRoundTrip(g.codec, EndpointEchoReq, []);
    assert stream + [] == stream;
    hide Parse, Frame, L.BiSpec, L.RequestsOf, EchoRequest;
    P.BiSpecStep(g.codec, stream);
    P.BiSpecStep(g.codec, []);
    P.RequestsStep(g.codec, stream);
    P.RequestsStep(g.codec, []);
  }

  /** A connection with a nested echo request gives exactly the one answer. */
  lemma EchoAnsweredRight(g: Setting, s: L.Conn)
    requires g.Valid() && L.Inv(g.codec, s) && s.biInput == NestedEcho(g).bi && EchoAnswered(s)
    ensures AnsweredWith(s, s.peer)
  {
    EchoRequestReads(g);
    hide L.HandlesInv, L.ChannelInv, L.UniInv, L.BiSpec, L.RequestsOf, L.Of, L.TaskInv, EchoRequest;
    assert L.HandlerInv(g.codec, s, 0);
    var h := s.handlers[0];
    assert L.HandlerInv(g.codec, s, |s.handlers| - 1);
    assert L.Asked(h.served) <= [EndpointEchoReq];
    assert L.Asked(h.served)[0] == EndpointEchoReq;
    assert L.RightReply(h.served[0], s.peer);
  }

  lemma ServedMeansEchoServed(g: Setting, j: Joiner, n: Incoming, id: nat)
    requires g.Valid() && LinksInv(g, j, n) && Carries(g, n, id) && Served(n, id)
    ensures EchoServed(g, n, id) && Took(n, id)
  {
    hide L.Inv, EchoAnswered, NestedEcho, AnsweredWith;
    var i :| 0 <= i < |n.taken| && n.taken[i].id == id && EchoAnswered(n.taken[i].conn);
    assert LinkInv(g, j.phase.Done?, n.nextConn, n.taken[i]);
    EchoAnsweredRight(g, n.taken[i].conn);
  }

  lemma OnlyDial(c: Contact, nextConn: nat, at: nat)
    requires HistoryInv(c, nextConn) && at < |c.history| && c.history[at].Dialled?
    ensures forall j :: 0 <= j < |c.history| && c.history[j].Dialled? && c.history[j].conn == c.history[at].conn
                        ==> j == at
  {
  }

  lemma ProvenMeansVerified(g: Setting, w: World, k: nat, e: Evidence)
    requires g.Valid() && Inv(g, w) && k < |w.contact.dialBacks|
    requires Proven(g, w.contact.history, w.incoming, k, w.contact.dialBacks[k], e)
    ensures VerifiedBy(g, w, w.contact.dialBacks[k].addr, k, e)
  {
    hide JoinerInv, MineInv, LinksInv, DialBacksInv, Carries, AnsweredWith;
    var c, d := w.contact, w.contact.dialBacks[k];
    OnlyDial(c, w.incoming.nextConn, e.dialledAt);
    if g.reaches(d.addr) {
      ServedMeansEchoServed(g, w.joiner, w.incoming, e.conn);
    }
  }

  /** Bootstrap safety: in every run, whatever fails and whatever other peers ask of the contact at
      the same time, in which `new_peer` succeeds through a contact: the endpoint's public address is
      the one that was sent for verification; each of its fields is the configured value, else the
      one the contact sees; and the answer rests on the peer's own request, a later dial for it over a
      connection no other dial-back used, and an echo over that connection, answered by the peer's own
      listeners if and only if the address leads back to it. Without a contact the fields fall back to
      the local address and nothing was asked. */
  lemma JoinedMeansVerified(g: Setting, run: seq<World>, steps: seq<Step>, i: nat)
    requires IsRun(g, run, steps) && i < |run| && run[i].joiner.phase == Done(Joined)
    ensures run[i].joiner.public.Some?
    ensures var public := run[i].joiner.public.value;
            && public.ip == (if g.cfg.externalIp.Some? then g.cfg.externalIp.value
                             else if run[i].joiner.contact then g.observed.ip else g.local.ip)
            && public.port == (if g.cfg.externalPort.Some? then g.cfg.externalPort.value
                               else if run[i].joiner.contact then g.observed.port else g.local.port)
    ensures run[i].joiner.contact ==>
              && run[i].mail.verifyAsked == run[i].joiner.public
              && run[i].contact.mine.Some?
              && exists e :: VerifiedBy(g, run[i], run[i].joiner.public.value, run[i].contact.mine.value, e)
    ensures !run[i].joiner.contact ==>
              run[i].mail.verifyAsked.None? && run[i].contact.mine.None?
  {
    hide VerifiedBy, LinksInv, HistoryInv, Proven, Next;
    RunsKeepInv(g, run, steps, i);
    var w := run[i];
    if w.joiner.contact {
      var k := w.contact.mine.value;
      assert DialBackInv(g, w.contact.history, w.incoming, k, w.contact.dialBacks[k]);
      ProvenMeansVerified(g, w, k, w.contact.dialBacks[k].stage.evidence.value);
    }
  }
}
