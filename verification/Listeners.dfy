/** One connection of `src/connection.rs` at work: its handles, the channel to the application, the
    uni-stream listener, and the bi-stream listener with one handler per stream, all running
    concurrently. */
module Listeners {
  import opened Types
  import opened Errors
  import opened Wire
  import opened Listening

  const INCOMING_MESSAGE_BUFFER_LEN := 10_000

  datatype Source = Uni | Bi(index: nat)

  /** An item in the channel, with the listener or handler it comes from. */
  datatype Tagged = Tagged(source: Source, item: Item)

  // ----- tasks --------------------------------------------------------------------------------

  /** Whether a task still runs, ran to its natural end, or was stopped before. */
  datatype Fate = Running | Finished | Cut

  /** A task that sends items to the application. `made` is everything it has decoded so far;
      `held` is the item it is blocked on; `dropped` is what it had to give up. */
  datatype Task = Task(made: seq<Item>, held: Option<Item>, dropped: seq<Item>, fate: Fate)
  {
    predicate CanRead() {
      fate == Running && held.None?
    }

    function HeldItems(): seq<Item> {
      if held.Some? then [held.value] else []
    }

    function Holding(item: Item): Task {
      this.(made := made + [item], held := Some(item))
    }

    /** The channel took the held item; a connection loss is the last thing a task sends. */
    function Sent(): Task
      requires held.Some?
    {
      this.(held := None, fate := if IsLossItem(held.value) then Finished else Running)
    }

    /** Stopping a task: by a refused send, or from outside. */
    function Stopped(): Task {
      if fate == Running then
        this.(held := None, dropped := dropped + HeldItems(), fate := Cut)
      else
        this
    }

    function Ended(): Task {
      this.(fate := Finished)
    }
  }

  const NewTask := Task([], None, [], Running)

  datatype UniTask = UniTask(task: Task, flatten: Flatten)

  /** A request answered on a bi-stream; for a verification request with the dial-back it took. */
  datatype Exchange = Exchange(request: WireMsg, outcome: Dial, reply: WireMsg)

  /** The handler of one bi-stream: the stream as it was accepted, what is left of it, and the
      requests answered so far. */
  datatype Handler = Handler(task: Task, stream: seq<Sym>, left: seq<Sym>, served: seq<Exchange>)
  {
    /** The effect of one read; `outcome` is how the dial-back ends, if the read asks for one. */
    function AfterRead(p: Parsed, outcome: Dial, peer: SocketAddr): Handler {
      var task' := if p.result == Ok(None) then task.Ended()
                   else if MakesItem(p.result) then task.Holding(ItemOf(p.result))
                   else task;
      var served' := if IsEchoReq(p.result) then
                       [Exchange(EndpointEchoReq, outcome, EndpointEchoResp(peer))]
                     else if IsVerificationReq(p.result) then
                       [Exchange(p.result.value.value, outcome, EndpointVerificationResp(outcome.Verified()))]
                     else
                       [];
      Handler(task', stream, p.rest, served + served')
    }
  }

  datatype BiPhase =
    | Accepting    // taking new streams
    | Draining     // no more streams, waiting for the handlers
    | BiDone       // all handlers have ended
    | BiFailed     // accepting failed, the handlers were dropped
    | BiGone       // all handles were dropped, and the handlers with them

  // ----- the connection -----------------------------------------------------------------------

  datatype Conn = Conn(
    handles: nat,              // live clones of the sending API
    incoming: bool,            // whether the receiving API is live
    aliveRefs: nat,            // references to the alive marker
    queue: seq<Tagged>,        // items in the channel
    senders: nat,              // live sending halves of the channel
    enqueued: seq<Tagged>,     // every item the channel ever took
    delivered: seq<Tagged>,    // every item the application got
    ended: bool,               // the application was told there is nothing more
    uni: UniTask,
    phase: BiPhase,
    accepts: seq<Accept>,      // bi-streams still to be accepted
    handlers: seq<Handler>,    // one per bi-stream, in the order of acceptance
    uniInput: seq<Accept>,     // all uni-streams of the run
    biInput: seq<Accept>,      // all bi-streams of the run
    peer: SocketAddr)          // the remote address when the connection was made

  /** A connection just made: one handle, the receiving half, both listeners started. */
  function Start(uniInput: seq<Accept>, biInput: seq<Accept>, peer: SocketAddr): Conn {
    Conn(1, true, 2, [], 2, [], [], false,
         UniTask(NewTask, Flatten(None, uniInput)),
         Accepting, biInput, [], uniInput, biInput, peer)
  }

  ghost predicate Init(s: Conn) {
    s == Start(s.uniInput, s.biInput, s.peer)
  }

  predicate BiLive(s: Conn) {
    s.phase.Accepting? || s.phase.Draining?
  }

  function StopAll(hs: seq<Handler>): (r: seq<Handler>)
    ensures |r| == |hs|
    ensures forall i :: 0 <= i < |hs| ==> r[i] == hs[i].(task := hs[i].task.Stopped())
  {
    seq(|hs|, i requires 0 <= i < |hs| => hs[i].(task := hs[i].task.Stopped()))
  }

  datatype Step =
    | CloneHandle
    | DropHandle
    | DropIncoming
    | Receive
    | ReceiveNone
    | UniPull
    | UniSend
    | UniRefused
    | UniHandlesGone
    | BiAccept
    | BiDrained
    | BiHandlesGone
    | BiRead(i: nat, outcome: Dial)
    | BiSend(i: nat)
    | BiRefused(i: nat)

  function WithUni(s: Conn, task: Task): Conn {
    s.(uni := s.uni.(task := task))
  }

  function WithHandler(s: Conn, i: nat, h: Handler): Conn
    requires i < |s.handlers|
  {
    s.(handlers := s.handlers[i := h])
  }

  function Enqueue(s: Conn, m: Tagged): Conn {
    s.(queue := s.queue + [m], enqueued := s.enqueued + [m])
  }

  predicate HasRoom(s: Conn) {
    s.incoming && |s.queue| < INCOMING_MESSAGE_BUFFER_LEN
  }

  /** One less sending half, when a listener returns. */
  function LessSender(s: Conn): Conn {
    s.(senders := if s.senders > 0 then s.senders - 1 else 0)
  }

  ghost predicate HandleStep(s: Conn, t: Conn, step: Step) {
    match step
    case CloneHandle =>
      s.handles > 0 && t == s.(handles := s.handles + 1, aliveRefs := s.aliveRefs + 1)
    case DropHandle =>
      s.handles > 0 && s.aliveRefs > 0
      && t == s.(handles := s.handles - 1, aliveRefs := s.aliveRefs - 1)
    case DropIncoming =>
      s.incoming && s.aliveRefs > 0
      && t == s.(incoming := false, aliveRefs := s.aliveRefs - 1, queue := [])
    case Receive =>
      s.incoming && s.queue != []
      && t == s.(queue := s.queue[1..], delivered := s.delivered + [s.queue[0]])
    case ReceiveNone =>
      s.incoming && s.queue == [] && s.senders == 0 && t == s.(ended := true)
    case _ => false
  }

  ghost predicate UniStep(c: Codec, s: Conn, t: Conn, step: Step) {
    var task := s.uni.task;
    match step
    case UniPull =>
      && task.CanRead()
      && (var p := Pull(c, s.uni.flatten);
          match p.item
          case Some(item) => t == s.(uni := UniTask(task.Holding(item), p.next))
          case None => t == LessSender(WithUni(s, task.Ended())))
    case UniSend =>
      && task.held.Some?
      && HasRoom(s)
      && (var after := Enqueue(WithUni(s, task.Sent()), Tagged(Uni, task.held.value));
          t == if task.Sent().fate == Running then after else LessSender(after))
    case UniRefused =>
      task.held.Some? && !s.incoming && t == LessSender(WithUni(s, task.Stopped()))
    case UniHandlesGone =>
      task.CanRead() && s.aliveRefs == 0 && t == LessSender(WithUni(s, task.Stopped()))
    case _ => false
  }

  ghost predicate BiListenerStep(s: Conn, t: Conn, step: Step) {
    match step
    case BiAccept =>
      && s.phase.Accepting?
      && (if s.accepts == [] then t == s.(phase := Draining)
          else
            match s.accepts[0]
            case Accepted(stream) =>
              t == s.(accepts := s.accepts[1..],
                      handlers := s.handlers + [Handler(NewTask, stream, stream, [])])
            case AcceptFailed(e) =>
              if FromQuinn(e).IsBenign() then t == s.(phase := Draining)
              else t == LessSender(s.(phase := BiFailed, handlers := StopAll(s.handlers))))
    case BiDrained =>
      && s.phase.Draining?
      && (forall i :: 0 <= i < |s.handlers| ==> s.handlers[i].task.fate != Running)
      && t == LessSender(s.(phase := BiDone))
    case BiHandlesGone =>
      && BiLive(s)
      && s.aliveRefs == 0
      && t == LessSender(s.(phase := BiGone, handlers := StopAll(s.handlers)))
    case _ => false
  }

  ghost predicate HandlerStep(c: Codec, s: Conn, t: Conn, step: Step) {
    match step
    case BiRead(i, outcome) =>
      && BiLive(s)
      && i < |s.handlers|
      && s.handlers[i].task.CanRead()
      && t == WithHandler(s, i, s.handlers[i].AfterRead(Parse(c, s.handlers[i].left), outcome, s.peer))
    case BiSend(i) =>
      && BiLive(s)
      && i < |s.handlers|
      && (var h := s.handlers[i];
          && h.task.held.Some?
          && HasRoom(s)
          && t == Enqueue(WithHandler(s, i, h.(task := h.task.Sent())),
                          Tagged(Bi(i), h.task.held.value)))
    case BiRefused(i) =>
      && BiLive(s)
      && i < |s.handlers|
      && (var h := s.handlers[i];
          && h.task.held.Some?
          && !s.incoming
          && t == WithHandler(s, i, h.(task := h.task.Stopped())))
    case _ => false
  }

  ghost predicate Next(c: Codec, s: Conn, t: Conn, step: Step) {
    || HandleStep(s, t, step)
    || UniStep(c, s, t, step)
    || BiListenerStep(s, t, step)
    || HandlerStep(c, s, t, step)
  }

  ghost predicate IsRun(c: Codec, run: seq<Conn>, steps: seq<Step>) {
    && |run| == |steps| + 1
    && Init(run[0])
    && forall i :: 0 <= i < |steps| ==> Next(c, run[i], run[i + 1], steps[i])
  }

  // ----- what each task is meant to say -------------------------------------------------------

  function UniSpec(c: Codec, s: Conn): seq<Item> {
    CutAtLoss(FlatItems(c, s.uniInput))
  }

  function BiSpec(c: Codec, stream: seq<Sym>): seq<Item> {
    BiItems(ReadAll(c, stream))
  }

  function RequestsOf(c: Codec, stream: seq<Sym>): seq<WireMsg> {
    Requests(MessagesIn(ReadAll(c, stream)))
  }

  function Asked(served: seq<Exchange>): (ms: seq<WireMsg>)
    ensures |ms| == |served|
    ensures forall i :: 0 <= i < |ms| ==> ms[i] == served[i].request
  {
    seq(|served|, i requires 0 <= i < |served| => served[i].request)
  }

  /** The reply is the right one: the peer's own address, or the outcome of the dial-back. */
  predicate RightReply(x: Exchange, peer: SocketAddr) {
    match x.request
    case EndpointEchoReq => x.reply == EndpointEchoResp(peer)
    case EndpointVerificationReq(_) => x.reply == EndpointVerificationResp(x.outcome.Verified())
    case _ => false
  }

  /** The items of one source, in order. */
  function Of(log: seq<Tagged>, source: Source): seq<Item> {
    if log == [] then []
    else
      Of(log[..|log| - 1], source)
      + (if log[|log| - 1].source == source then [log[|log| - 1].item] else [])
  }

  // ----- the invariant ------------------------------------------------------------------------

  predicate HandlesInv(s: Conn) {
    && s.aliveRefs == s.handles + (if s.incoming then 1 else 0)
    && s.senders == (if s.uni.task.fate == Running then 1 else 0) + (if BiLive(s) then 1 else 0)
  }

  predicate ChannelInv(s: Conn) {
    && |s.queue| <= INCOMING_MESSAGE_BUFFER_LEN
    && s.delivered <= s.enqueued
    && (s.incoming ==> s.enqueued == s.delivered + s.queue)
    && (!s.incoming ==> s.queue == [])
    && (s.ended ==> s.senders == 0 && s.delivered == s.enqueued)
  }

  /** Conservation: everything a task decoded is in the channel's record, in its hands, or given
      up, in this order. `lossy` says whether anything may have been given up at all. */
  predicate TaskInv(t: Task, enqueued: seq<Item>, lossy: bool) {
    && t.made == enqueued + t.HeldItems() + t.dropped
    && (t.held.Some? ==> t.fate == Running)
    && (t.dropped != [] ==> t.fate == Cut)
    && |t.dropped| <= 1
    && (t.fate == Cut ==> lossy)
  }

  /** Refinement: what a task decoded is a prefix of `spec`, and all of it once it has finished;
      `ahead` is what it has still to decode. */
  predicate Follows(t: Task, ahead: seq<Item>, spec: seq<Item>) {
    KeepsUp(t, t.made, ahead, spec)
  }

  /** `done` is a prefix of `all`, and all of it once there is nothing more to read. */
  predicate KeepsUp<T(==)>(t: Task, done: seq<T>, ahead: seq<T>, all: seq<T>) {
    match t.fate
    case Running => if t.held.Some? && IsLossItem(t.held.value) then done == all
                    else done + ahead == all
    case Finished => done == all
    case Cut => done <= all
  }

  ghost predicate UniInv(c: Codec, s: Conn) {
    && TaskInv(s.uni.task, Of(s.enqueued, Uni), !s.incoming)
    && Follows(s.uni.task, CutAtLoss(Pending(c, s.uni.flatten)), UniSpec(c, s))
  }

  ghost predicate HandlerInv(c: Codec, s: Conn, i: nat)
    requires i < |s.handlers|
  {
    var h := s.handlers[i];
    && i < |s.biInput|
    && s.biInput[i] == Accepted(h.stream)
    && TaskInv(h.task, Of(s.enqueued, Bi(i)), !s.incoming || s.phase == BiFailed)
    && Follows(h.task, BiSpec(c, h.left), BiSpec(c, h.stream))
    && KeepsUp(h.task, Asked(h.served), RequestsOf(c, h.left), RequestsOf(c, h.stream))
    && (forall j :: 0 <= j < |h.served| ==> RightReply(h.served[j], s.peer))
    && (!BiLive(s) ==> h.task.fate != Running)
  }

  /** What follows the streams accepted so far is a failure that is not benign. */
  predicate FailsNext(s: Conn) {
    && |s.handlers| < |s.biInput|
    && s.biInput[|s.handlers|].AcceptFailed?
    && !FromQuinn(s.biInput[|s.handlers|].error).IsBenign()
  }

  ghost predicate BiInv(c: Codec, s: Conn) {
    && (s.phase.BiGone? ==> !s.incoming)
    && (s.phase.Accepting? ==> |s.handlers| <= |s.biInput| && s.accepts == s.biInput[|s.handlers|..])
    && (s.phase.Draining? || s.phase.BiDone? ==>
          || |s.handlers| == |s.biInput|
          || (|s.handlers| < |s.biInput| && s.biInput[|s.handlers|].AcceptFailed?))
    && (s.phase.BiFailed? ==> FailsNext(s))
    && (forall i :: 0 <= i < |s.handlers| ==> HandlerInv(c, s, i))
    && (forall i :: i >= |s.handlers| ==> Of(s.enqueued, Bi(i)) == [])
  }

  ghost predicate Inv(c: Codec, s: Conn) {
    HandlesInv(s) && ChannelInv(s) && UniInv(c, s) && BiInv(c, s)
  }
}
