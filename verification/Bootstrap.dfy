/** Bootstrapping: `Endpoint::new_peer` of `src/endpoint.rs` joining through a contact, the contact's
    echo and verification services of `src/connection.rs` at work for any number of peers, and the
    joining peer's own loop for incoming connections with the listeners of every connection, all
    running concurrently over a network that may fail. */
module Bootstrap {
  import opened Types
  import opened Wire
  import S = Listening
  import L = Listeners

  const STANDARD_CHANNEL_SIZE := 10_000

  datatype Config = Config(externalIp: Option<IpAddr>, externalPort: Option<U16>, forwardPort: bool)

  function OrElse<T>(a: Option<T>, b: T): T {
    if a.Some? then a.value else b
  }

  /** Each field of the public address: as configured, else as the contact sees it, else local. */
  function Resolve(cfg: Config, visible: Option<SocketAddr>, local: SocketAddr): SocketAddr {
    SocketAddr(OrElse(cfg.externalIp, if visible.Some? then visible.value.ip else local.ip),
               OrElse(cfg.externalPort, if visible.Some? then visible.value.port else local.port))
  }

  /** What the run is given: the codec of the service messages, the joining peer's configuration and
      address, its contacts, the address a contact sees, the contact's own address, and which
      addresses lead back to the joining peer. */
  datatype Setting = Setting(
    codec: Codec,
    cfg: Config,
    local: SocketAddr,
    contacts: set<nat>,
    observed: SocketAddr,
    contactAddr: SocketAddr,
    reaches: SocketAddr -> bool)
  {
    ghost predicate Valid() {
      codec.Valid()
    }
  }

  // ----- connections of the joining peer ------------------------------------------------------

  /** What comes of a handshake that the accepting loop waits for. A silent peer says nothing more, so
      that only a timeout ends the wait. */
  datatype Handshake = Finishes | Fails | Silent

  /** Everything a peer sends over a connection, and where it comes from. */
  datatype Traffic = Traffic(handshake: Handshake, uni: seq<S.Accept>, bi: seq<S.Accept>, peer: SocketAddr)

  /** The bytes of an echo request. */
  function EchoRequest(c: Codec): seq<Sym> {
    match Frame(c, EndpointEchoReq)
    case Ok(frame) => Symbols(frame)
    case Err(_) => []
  }

  /** What a contact sends when it dials back: one bi-stream with an echo request. */
  function NestedEcho(g: Setting): Traffic {
    Traffic(Finishes, [], [S.Accepted(EchoRequest(g.codec))], g.contactAddr)
  }

  datatype Arrival = Arrival(id: nat, traffic: Traffic)

  /** A connection that was accepted, with its handles, its channel and its listeners. */
  datatype Link = Link(id: nat, conn: L.Conn)

  /** Where the accepting loop is: it waits for the next connection, for the handshake of one, or for
      room in the channel for the last one taken. */
  datatype Loop = Waiting | Shaking(arrival: Arrival) | Pushing

  datatype Incoming = Incoming(
    arriving: seq<Arrival>,        // not looked at yet
    loop: Loop,
    taken: seq<Link>,              // accepted, in order, none of them seen by the application yet
    strangers: seq<Traffic>,       // connections others may still open
    nextConn: nat)                 // names for new connections, here and elsewhere

  /** How many connections are in the channel. */
  function Queued(n: Incoming): int {
    |n.taken| - (if n.loop.Pushing? then 1 else 0)
  }

  function Opened(t: Traffic): L.Conn {
    L.Start(t.uni, t.bi, t.peer)
  }

  /** The listeners of the connection have answered the echo request it carries. */
  predicate EchoAnswered(s: L.Conn) {
    && |s.handlers| > 0
    && s.handlers[0].served != []
    && s.handlers[0].served[0].reply.EndpointEchoResp?
  }

  ghost predicate Took(n: Incoming, id: nat) {
    exists i :: 0 <= i < |n.taken| && n.taken[i].id == id
  }

  ghost predicate Served(n: Incoming, id: nat) {
    exists i :: 0 <= i < |n.taken| && n.taken[i].id == id && EchoAnswered(n.taken[i].conn)
  }

  // ----- the joining peer ---------------------------------------------------------------------

  datatype Outcome = Joined | NotJoined

  /** How far `new_peer` has got. */
  datatype Phase =
    | Connecting(pending: set<nat>)   // attempts still under way
    | EchoOpen
    | EchoWait
    | Forwarding                      // the public address is resolved
    | Listening                       // about to listen for incoming connections
    | VerifyOpen
    | VerifyWait
    | Done(outcome: Outcome)

  datatype Joiner = Joiner(
    phase: Phase,
    contact: bool,                    // connected to a contact
    visible: Option<SocketAddr>,
    public: Option<SocketAddr>,
    listening: bool)

  /** The two requests of the joining peer to the contact, and the answers. */
  datatype Mail = Mail(
    echoAsked: bool,
    echoReply: Option<SocketAddr>,
    verifyAsked: Option<SocketAddr>,
    verifyReply: Option<bool>)

  // ----- the contact --------------------------------------------------------------------------

  /** What happened at the contact, in order, each event with the verification request it is for. */
  datatype Event =
    | Received(id: nat, addr: SocketAddr)
    | Dialled(id: nat, addr: SocketAddr, conn: nat)     // over a new connection
    | Echoed(id: nat, conn: nat)                        // an echo response

  /** Positions in the contact's history that justify a positive answer. */
  datatype Evidence = Evidence(conn: nat, receivedAt: nat, dialledAt: nat, echoedAt: nat)

  datatype Stage =
    | Dialling
    | Connected(conn: nat, dialledAt: nat)
    | Awaiting(conn: nat, dialledAt: nat, foreign: bool)   // whether some other peer has answered
    | Answering(valid: bool, evidence: Option<Evidence>)
    | Answered(valid: bool, evidence: Option<Evidence>)

  /** The handling of one verification request. */
  datatype DialBack = DialBack(addr: SocketAddr, receivedAt: nat, stage: Stage)

  datatype Contact = Contact(
    dialBacks: seq<DialBack>,     // one per request received, from whomever; the index names it
    mine: Option<nat>,            // the request of the joining peer
    history: seq<Event>,
    others: nat)                  // requests that other peers may still send

  function NewRequest(c: Contact, addr: SocketAddr): Contact {
    c.(dialBacks := c.dialBacks + [DialBack(addr, |c.history|, Dialling)],
       history := c.history + [Received(|c.dialBacks|, addr)])
  }

  function Moved(c: Contact, k: nat, stage: Stage, events: seq<Event>): Contact
    requires k < |c.dialBacks|
  {
    c.(dialBacks := c.dialBacks[k := c.dialBacks[k].(stage := stage)],
       history := c.history + events)
  }

  // ----- the world ----------------------------------------------------------------------------

  datatype World = World(joiner: Joiner, mail: Mail, contact: Contact, incoming: Incoming)

  ghost predicate Init(g: Setting, w: World) {
    && w.joiner == Joiner(Connecting(g.contacts), false, None, None, false)
    && w.mail == Mail(false, None, None, None)
    && w.contact == Contact([], None, [], w.contact.others)
    && w.incoming == Incoming([], Waiting, [], w.incoming.strangers, 0)
  }

  datatype Step =
    // the joining peer
    | Connect(i: nat)
    | ConnectFails(i: nat)
    | NoContact
    | AskEcho
    | GetEcho
    | Forward
    | StartListening
    | AskVerify
    | GetReply
    | GiveUp                           // an error, a timeout, an unexpected message, a failed port mapping
    // its incoming connections
    | TakeNext
    | Establish                        // the handshake has finished
    | Discard                          // the handshake has failed
    | HandshakeTimesOut
    | PushAccepted
    | Serve(i: nat, step: L.Step)      // a step of the connection itself
    | StrangerArrives
    // the contact
    | AnswerEcho
    | ReceiveVerify
    | OtherAsks(addr: SocketAddr)      // a verification request of another peer
    | Dial(k: nat)
    | AskNested(k: nat)
    | ForeignAnswer(k: nat)
    | GetNested(k: nat)
    | DialBackFails(k: nat)            // an error, a timeout, an unexpected message
    | Reply(k: nat)

  /** A failure that concerns the joining peer, or a timeout. */
  predicate IsFault(w: World, step: Step) {
    || step.ConnectFails?
    || step.GiveUp?
    || step.HandshakeTimesOut?
    || (step.DialBackFails? && w.contact.mine == Some(step.k))
  }

  ghost predicate JoinerMove(g: Setting, j: Joiner, m: Mail, j': Joiner, m': Mail, step: Step) {
    match step
    case Connect(i) =>
      && j.phase.Connecting?
      && i in j.phase.pending
      && j' == j.(phase := EchoOpen, contact := true) && m' == m
    case ConnectFails(i) =>
      && j.phase.Connecting?
      && i in j.phase.pending
      && j' == j.(phase := Connecting(j.phase.pending - {i})) && m' == m
    case NoContact =>
      && j.phase == Connecting({})
      && j' == j.(phase := Forwarding, public := Some(Resolve(g.cfg, None, g.local))) && m' == m
    case AskEcho =>
      j.phase == EchoOpen && j' == j.(phase := EchoWait) && m' == m.(echoAsked := true)
    case GetEcho =>
      && j.phase == EchoWait
      && m.echoReply.Some?
      && j' == j.(phase := Forwarding, visible := m.echoReply,
                  public := Some(Resolve(g.cfg, m.echoReply, g.local)))
      && m' == m
    case Forward =>
      j.phase == Forwarding && j' == j.(phase := Listening) && m' == m
    case StartListening =>
      && j.phase == Listening
      && j' == j.(listening := true, phase := if j.contact then VerifyOpen else Done(Joined))
      && m' == m
    case AskVerify =>
      j.phase == VerifyOpen && j' == j.(phase := VerifyWait) && m' == m.(verifyAsked := j.public)
    case GetReply =>
      && j.phase == VerifyWait
      && m.verifyReply.Some?
      && j' == j.(phase := Done(if m.verifyReply.value then Joined else NotJoined))
      && m' == m
    case GiveUp =>
      && (j.phase.EchoOpen? || j.phase.EchoWait? || j.phase.VerifyOpen? || j.phase.VerifyWait?
          || (j.phase.Forwarding? && g.cfg.forwardPort))
      && j' == j.(phase := Done(NotJoined)) && m' == m
    case _ => false
  }

  /** A connection serves its peer by itself. Only when `new_peer` has returned can anybody take its
      items, or drop it: with the channel that `new_peer` gives up when it fails, or as it likes. */
  predicate MayStep(phase: Phase, step: L.Step) {
    if step.DropHandle? || step.DropIncoming? || step.Receive? then phase.Done?
    else !step.CloneHandle? && !step.ReceiveNone?
  }

  /** The nested echo request of a dial-back is there to be accepted once it was sent. */
  ghost predicate Sent(c: Contact, id: nat) {
    forall k :: 0 <= k < |c.dialBacks| && c.dialBacks[k].stage.Connected? ==>
      c.dialBacks[k].stage.conn != id
  }

  ghost predicate IncomingMove(g: Setting, j: Joiner, c: Contact, n: Incoming, n': Incoming, step: Step) {
    match step
    case TakeNext =>
      && j.listening && n.loop.Waiting? && n.arriving != []
      && n' == n.(arriving := n.arriving[1..], loop := Shaking(n.arriving[0]))
    case Establish =>
      && n.loop.Shaking? && n.loop.arrival.traffic.handshake.Finishes?
      && n' == n.(loop := Pushing,
                  taken := n.taken + [Link(n.loop.arrival.id, Opened(n.loop.arrival.traffic))])
    case Discard =>
      && n.loop.Shaking? && n.loop.arrival.traffic.handshake.Fails?
      && n' == n.(loop := Waiting)
    case HandshakeTimesOut =>
      && n.loop.Shaking? && n.loop.arrival.traffic.handshake.Silent?
      && n' == n.(loop := Waiting)
    case PushAccepted =>
      && n.loop.Pushing?
      && Queued(n) < STANDARD_CHANNEL_SIZE
      && n' == n.(loop := Waiting)
    case Serve(i, step) =>
      && i < |n.taken| && i < |n'.taken|
      && MayStep(j.phase, step)
      && (step.BiAccept? ==> Sent(c, n.taken[i].id))
      && L.Next(g.codec, n.taken[i].conn, n'.taken[i].conn, step)
      && n' == n.(taken := n.taken[i := Link(n.taken[i].id, n'.taken[i].conn)])
    case StrangerArrives =>
      && n.strangers != []
      && n' == n.(strangers := n.strangers[1..], nextConn := n.nextConn + 1,
                  arriving := n.arriving + [Arrival(n.nextConn, n.strangers[0])])
    case _ => false
  }

  /** A dial leads to the joining peer or elsewhere. */
  function Routed(g: Setting, n: Incoming, addr: SocketAddr): Incoming {
    n.(nextConn := n.nextConn + 1,
       arriving := if g.reaches(addr) then n.arriving + [Arrival(n.nextConn, NestedEcho(g))] else n.arriving)
  }

  /** How one dial-back moves on, and what it adds to the contact's history. */
  ghost predicate StageMove(g: Setting, n: Incoming, k: nat, d: DialBack, at: nat,
                            stage: Stage, events: seq<Event>, step: Step) {
    match step
    case Dial(_) =>
      && d.stage.Dialling?
      && stage == Connected(n.nextConn, at)
      && events == [Dialled(k, d.addr, n.nextConn)]
    case AskNested(_) =>
      && d.stage.Connected?
      && stage == Awaiting(d.stage.conn, d.stage.dialledAt, false)
      && events == []
    case ForeignAnswer(_) =>
      && d.stage.Awaiting? && !d.stage.foreign && !g.reaches(d.addr)
      && stage == d.stage.(foreign := true)
      && events == []
    case GetNested(_) =>
      && d.stage.Awaiting? && (d.stage.foreign || Served(n, d.stage.conn))
      && stage == Answering(true, Some(Evidence(d.stage.conn, d.receivedAt, d.stage.dialledAt, at)))
      && events == [Echoed(k, d.stage.conn)]
    case DialBackFails(_) =>
      && (d.stage.Dialling? || d.stage.Connected? || d.stage.Awaiting?)
      && stage == Answering(false, None)
      && events == []
    case Reply(_) =>
      && d.stage.Answering?
      && stage == Answered(d.stage.valid, d.stage.evidence)
      && events == []
    case _ => false
  }

  predicate IsDialBackStep(step: Step) {
    step.Dial? || step.AskNested? || step.ForeignAnswer? || step.GetNested? || step.DialBackFails? || step.Reply?
  }

  ghost predicate DialBackStep(g: Setting, w: World, v: World, step: Step) {
    && IsDialBackStep(step)
    && step.k < |w.contact.dialBacks| && step.k < |v.contact.dialBacks|
    && |w.contact.history| <= |v.contact.history|
    && (var k, d := step.k, w.contact.dialBacks[step.k];
        var stage, events := v.contact.dialBacks[k].stage, v.contact.history[|w.contact.history|..];
        && StageMove(g, w.incoming, k, d, |w.contact.history|, stage, events, step)
        && v.contact == Moved(w.contact, k, stage, events)
        && v.joiner == w.joiner
        && v.incoming == (if step.Dial? then Routed(g, w.incoming, d.addr) else w.incoming)
        && v.mail == (if step.Reply? && w.contact.mine == Some(k)
                      then w.mail.(verifyReply := Some(stage.valid)) else w.mail))
  }

  ghost predicate RequestStep(g: Setting, w: World, v: World, step: Step) {
    match step
    case AnswerEcho =>
      && w.mail.echoAsked && w.mail.echoReply.None?
      && v == w.(mail := w.mail.(echoReply := Some(g.observed)))
    case ReceiveVerify =>
      && w.mail.verifyAsked.Some? && w.contact.mine.None?
      && v == w.(contact := NewRequest(w.contact, w.mail.verifyAsked.value)
                            .(mine := Some(|w.contact.dialBacks|)))
    case OtherAsks(addr) =>
      && w.contact.others > 0
      && v == w.(contact := NewRequest(w.contact, addr).(others := w.contact.others - 1))
    case _ => false
  }

  ghost predicate JoinerStep(g: Setting, w: World, v: World, step: Step) {
    && JoinerMove(g, w.joiner, w.mail, v.joiner, v.mail, step)
    && v.contact == w.contact && v.incoming == w.incoming
  }

  ghost predicate IncomingStep(g: Setting, w: World, v: World, step: Step) {
    && IncomingMove(g, w.joiner, w.contact, w.incoming, v.incoming, step)
    && v.joiner == w.joiner && v.mail == w.mail && v.contact == w.contact
  }

  ghost predicate Next(g: Setting, w: World, v: World, step: Step) {
    || JoinerStep(g, w, v, step)
    || IncomingStep(g, w, v, step)
    || RequestStep(g, w, v, step)
    || DialBackStep(g, w, v, step)
  }

  ghost predicate IsRun(g: Setting, run: seq<World>, steps: seq<Step>) {
    && g.Valid()
    && |run| == |steps| + 1
    && Init(g, run[0])
    && forall i :: 0 <= i < |steps| ==> Next(g, run[i], run[i + 1], steps[i])
  }
}
