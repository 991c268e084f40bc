/** Every step of a connection keeps its invariant. */
module ListenerProofs {
  import opened Types
  import opened Wire
  import opened Listening
  import opened Listeners
  import UniListener
  import BiHandler

  // ----- one task -----------------------------------------------------------------------------

  lemma HoldingKeeps(t: Task, item: Item, enqueued: seq<Item>, lossy: bool,
                     ahead: seq<Item>, ahead': seq<Item>, spec: seq<Item>)
    requires t.CanRead() && TaskInv(t, enqueued, lossy) && Follows(t, ahead, spec)
    requires if IsLossItem(item) then ahead == [item] else ahead == [item] + ahead'
    ensures TaskInv(t.Holding(item), enqueued, lossy)
    ensures Follows(t.Holding(item), ahead', spec)
  {
    assert t.made + ([item] + ahead') == t.made + [item] + ahead';
  }

  lemma SentKeeps(t: Task, enqueued: seq<Item>, lossy: bool, ahead: seq<Item>, spec: seq<Item>)
    requires t.held.Some? && TaskInv(t, enqueued, lossy) && Follows(t, ahead, spec)
    ensures TaskInv(t.Sent(), enqueued + [t.held.value], lossy)
    ensures Follows(t.Sent(), ahead, spec)
  {
  }

  lemma StoppedKeeps(t: Task, enqueued: seq<Item>, lossy: bool, ahead: seq<Item>, spec: seq<Item>)
    requires TaskInv(t, enqueued, lossy) && Follows(t, ahead, spec)
    ensures TaskInv(t.Stopped(), enqueued, true)
    ensures t.fate == Finished ==> t.Stopped() == t
    ensures Follows(t.Stopped(), ahead, spec)
    ensures t.Stopped().fate != Running
  {
  }

  // ----- the channel's record -----------------------------------------------------------------

  lemma OfSnoc(log: seq<Tagged>, m: Tagged, source: Source)
    ensures Of(log + [m], source) == Of(log, source) + (if m.source == source then [m.item] else [])
  {
    assert (log + [m])[..|log|] == log;
  }

  /** A handler is untouched by a step that leaves its own state and its items alone. */
  lemma HandlerFrame(c: Codec, s: Conn, t: Conn, i: nat)
    requires i < |s.handlers| && i < |t.handlers| && HandlerInv(c, s, i)
    requires t.handlers[i] == s.handlers[i] && t.biInput == s.biInput && t.peer == s.peer
    requires Of(t.enqueued, Bi(i)) == Of(s.enqueued, Bi(i))
    requires (!s.incoming || s.phase == BiFailed) ==> (!t.incoming || t.phase == BiFailed)
    requires BiLive(s) == BiLive(t) || t.handlers[i].task.fate != Running
    ensures HandlerInv(c, t, i)
  {
    hide BiSpec, RequestsOf, Of;
  }

  // ----- handles and the application ----------------------------------------------------------

  /** Handles and the channel's receiving end leave the listeners alone. */
  lemma HandleStepFrame(s: Conn, t: Conn, step: Step)
    requires HandlesInv(s) && ChannelInv(s) && HandleStep(s, t, step)
    ensures HandlesInv(t) && ChannelInv(t)
    ensures t.enqueued == s.enqueued && t.handlers == s.handlers && t.uni == s.uni && t.phase == s.phase
    ensures t.uniInput == s.uniInput && t.biInput == s.biInput && t.accepts == s.accepts && t.peer == s.peer
    ensures t.incoming ==> s.incoming
  {
  }

  lemma HandleStepKeepsInv(c: Codec, s: Conn, t: Conn, step: Step)
    requires Inv(c, s) && HandleStep(s, t, step)
    ensures Inv(c, t)
  {
    hide Of, UniInv, HandlerInv, HandlesInv, ChannelInv, HandleStep;
    HandleStepFrame(s, t, step);
    UniUntouched(c, s, t);
    forall i | 0 <= i < |t.handlers|
      ensures HandlerInv(c, t, i)
    {
      HandlerFrame(c, s, t, i);
    }
  }

  // ----- the uni-stream listener --------------------------------------------------------------

  /** A step of the uni listener that keeps the rest of the connection as it was. */
  lemma UniFrame(c: Codec, s: Conn, t: Conn)
    requires Inv(c, s)
    requires t.incoming == s.incoming && t.phase == s.phase && t.accepts == s.accepts
    requires t.handlers == s.handlers && t.biInput == s.biInput && t.peer == s.peer
    requires forall i: nat :: Of(t.enqueued, Bi(i)) == Of(s.enqueued, Bi(i))
    ensures BiInv(c, t)
  {
    hide Of, BiSpec, RequestsOf;
    forall i | 0 <= i < |t.handlers|
      ensures HandlerInv(c, t, i)
    {
      HandlerFrame(c, s, t, i);
    }
  }

  lemma UniPullKeepsInv(c: Codec, s: Conn, t: Conn)
    requires Inv(c, s) && UniStep(c, s, t, UniPull)
    ensures Inv(c, t)
  {
    hide Of, BiSpec, RequestsOf, Pending, CutAtLoss, Pull, FlatItems;
    UniFrame(c, s, t);
    UniListener.PullCut(c, s.uni.flatten);
    var p := Pull(c, s.uni.flatten);
    if p.item.Some? {
      HoldingKeeps(s.uni.task, p.item.value, Of(s.enqueued, Uni), !s.incoming,
                   CutAtLoss(Pending(c, s.uni.flatten)), CutAtLoss(Pending(c, p.next)), UniSpec(c, s));
    }
  }

  lemma UniSendKeepsInv(c: Codec, s: Conn, t: Conn)
    requires Inv(c, s) && UniStep(c, s, t, UniSend)
    ensures Inv(c, t)
  {
    hide Of, BiSpec, RequestsOf, Pending, CutAtLoss, Pull, FlatItems;
    var m := Tagged(Uni, s.uni.task.held.value);
    forall source: Source
      ensures Of(t.enqueued, source)
              == Of(s.enqueued, source) + (if source == Uni then [m.item] else [])
    {
      OfSnoc(s.enqueued, m, source);
    }
    UniFrame(c, s, t);
    SentKeeps(s.uni.task, Of(s.enqueued, Uni), !s.incoming,
              CutAtLoss(Pending(c, s.uni.flatten)), UniSpec(c, s));
    assert s.delivered + s.queue + [m] == s.delivered + (s.queue + [m]);
  }

  lemma UniStopKeepsInv(c: Codec, s: Conn, t: Conn, step: Step)
    requires Inv(c, s) && UniStep(c, s, t, step) && (step.UniRefused? || step.UniHandlesGone?)
    ensures Inv(c, t)
  {
    hide Of, BiSpec, RequestsOf, Pending, CutAtLoss, Pull, FlatItems;
    UniFrame(c, s, t);
    StoppedKeeps(s.uni.task, Of(s.enqueued, Uni), !s.incoming,
                 CutAtLoss(Pending(c, s.uni.flatten)), UniSpec(c, s));
  }

  // ----- the bi-stream listener ---------------------------------------------------------------

  lemma UniUntouched(c: Codec, s: Conn, t: Conn)
    requires UniInv(c, s)
    requires t.uni == s.uni && (t.incoming ==> s.incoming) && t.uniInput == s.uniInput
    requires Of(t.enqueued, Uni) == Of(s.enqueued, Uni)
    ensures UniInv(c, t)
  {
    hide Of, Pending, CutAtLoss, FlatItems;
  }

  /** A new handler starts with everything ahead of it. */
  lemma NewHandlerInv(c: Codec, s: Conn, i: nat)
    requires i < |s.handlers| && i < |s.biInput| && BiLive(s)
    requires s.biInput[i].Accepted?
    requires s.handlers[i] == Handler(NewTask, s.biInput[i].content, s.biInput[i].content, [])
    requires Of(s.enqueued, Bi(i)) == []
    ensures HandlerInv(c, s, i)
  {
    hide BiSpec, RequestsOf, Of;
    assert [] + BiSpec(c, s.handlers[i].stream) == BiSpec(c, s.handlers[i].stream);
    assert [] + RequestsOf(c, s.handlers[i].stream) == RequestsOf(c, s.handlers[i].stream);
  }

  lemma StopAllKeeps(c: Codec, s: Conn, t: Conn)
    requires BiInv(c, s)
    requires (t.phase.BiFailed? && FailsNext(s)) || (t.phase.BiGone? && !t.incoming)
    requires t.incoming == s.incoming && t.enqueued == s.enqueued && t.biInput == s.biInput
    requires t.peer == s.peer
    requires t.handlers == StopAll(s.handlers)
    ensures BiInv(c, t)
  {
    hide BiSpec, RequestsOf, Of;
    forall i | 0 <= i < |t.handlers|
      ensures HandlerInv(c, t, i)
    {
      var h := s.handlers[i];
      assert HandlerInv(c, s, i);
      StoppedKeeps(h.task, Of(s.enqueued, Bi(i)), !s.incoming || s.phase == BiFailed,
                   BiSpec(c, h.left), BiSpec(c, h.stream));
    }
  }

  /** Ending the acceptance of streams, or the listener, leaves the handlers alone. */
  lemma PhaseChangeKeeps(c: Codec, s: Conn, t: Conn)
    requires BiInv(c, s) && BiLive(s)
    requires t.phase.Draining? || t.phase.BiDone?
    requires t.incoming == s.incoming && t.enqueued == s.enqueued && t.biInput == s.biInput
    requires t.peer == s.peer
    requires t.handlers == s.handlers
    requires || s.phase.Draining?
             || |s.handlers| == |s.biInput|
             || (|s.handlers| < |s.biInput| && s.biInput[|s.handlers|].AcceptFailed?)
    requires t.phase.BiDone? ==>
               forall i :: 0 <= i < |s.handlers| ==> s.handlers[i].task.fate != Running
    ensures BiInv(c, t)
  {
    hide BiSpec, RequestsOf, Of;
    forall i | 0 <= i < |t.handlers|
      ensures HandlerInv(c, t, i)
    {
      HandlerFrame(c, s, t, i);
    }
  }

  lemma NewStreamKeeps(c: Codec, s: Conn, t: Conn)
    requires BiInv(c, s) && s.phase.Accepting? && s.accepts != [] && s.accepts[0].Accepted?
    requires var stream := s.accepts[0].content;
             t == s.(accepts := s.accepts[1..],
                     handlers := s.handlers + [Handler(NewTask, stream, stream, [])])
    ensures BiInv(c, t)
  {
    hide BiSpec, RequestsOf, Of;
    forall i | 0 <= i < |t.handlers|
      ensures HandlerInv(c, t, i)
    {
      if i < |s.handlers| {
        HandlerFrame(c, s, t, i);
      } else {
        NewHandlerInv(c, t, i);
      }
    }
  }

  lemma BiListenerStepKeepsInv(c: Codec, s: Conn, t: Conn, step: Step)
    requires Inv(c, s) && BiListenerStep(s, t, step)
    ensures Inv(c, t)
  {
    hide Of, UniInv, HandlerInv;
    UniUntouched(c, s, t);
    if t.phase.BiFailed? || t.phase.BiGone? {
      StopAllKeeps(c, s, t);
    } else if t.phase.Accepting? {
      NewStreamKeeps(c, s, t);
    } else {
      PhaseChangeKeeps(c, s, t);
    }
  }

  // ----- the handlers -------------------------------------------------------------------------

  /** A step of handler `i` alone. */
  lemma OnlyHandler(c: Codec, s: Conn, t: Conn, i: nat)
    requires Inv(c, s) && i < |s.handlers| == |t.handlers|
    requires t.incoming == s.incoming && t.phase == s.phase && t.accepts == s.accepts
    requires t.biInput == s.biInput && t.uniInput == s.uniInput && t.uni == s.uni && t.peer == s.peer
    requires forall j :: 0 <= j < |s.handlers| && j != i ==> t.handlers[j] == s.handlers[j]
    requires forall source: Source :: source != Bi(i) ==> Of(t.enqueued, source) == Of(s.enqueued, source)
    requires HandlerInv(c, t, i)
    ensures BiInv(c, t) && UniInv(c, t)
  {
    hide Of, BiSpec, RequestsOf, UniSpec, Pending, CutAtLoss;
    UniUntouched(c, s, t);
    forall j | 0 <= j < |t.handlers|
      ensures HandlerInv(c, t, j)
    {
      if j != i {
        HandlerFrame(c, s, t, j);
      }
    }
  }

  /** What one read takes off a bi-stream's items. */
  lemma BiSpecStep(c: Codec, s: seq<Sym>)
    ensures var p := Parse(c, s);
            BiSpec(c, s) ==
            if p.result == Ok(None) then []
            else if !MakesItem(p.result) then BiSpec(c, p.rest)
            else if IsLossItem(ItemOf(p.result)) then [ItemOf(p.result)]
            else [ItemOf(p.result)] + BiSpec(c, p.rest)
  {
    hide Parse, ReadAll;
    BiHandler.ReadAllStep(c, s);
    var p := Parse(c, s);
    assert [p.result][1..] == [];
    assert BiItems([]) == [];
    assert ([p.result] + ReadAll(c, p.rest))[1..] == ReadAll(c, p.rest);
  }

  /** What one read takes off a bi-stream's requests. */
  lemma RequestsStep(c: Codec, s: seq<Sym>)
    ensures var p := Parse(c, s);
            RequestsOf(c, s) ==
            if EndsReading(p.result) then []
            else if IsEchoReq(p.result) || IsVerificationReq(p.result) then
              [p.result.value.value] + RequestsOf(c, p.rest)
            else RequestsOf(c, p.rest)
  {
    hide Parse, ReadAll, Requests, MessagesIn;
    BiHandler.ReadAllStep(c, s);
    var p := Parse(c, s);
    if EndsReading(p.result) {
      assert [p.result] == [p.result] + [];
      RequestsCons(p.result, []);
      NoRequests();
    } else {
      RequestsCons(p.result, ReadAll(c, p.rest));
    }
  }

  lemma NoRequests()
    ensures Requests(MessagesIn([])) == []
  {
  }

  lemma RequestsCons(r: ReadResult, rs: seq<ReadResult>)
    ensures Requests(MessagesIn([r] + rs))
            == if IsEchoReq(r) || IsVerificationReq(r) then [r.value.value] + Requests(MessagesIn(rs))
               else Requests(MessagesIn(rs))
  {
    ConsParts(r, rs);
    if r.Ok? && r.value.Some? {
      ConsParts(r.value.value, MessagesIn(rs));
    } else {
      assert [] + MessagesIn(rs) == MessagesIn(rs);
    }
  }

  lemma ServedKeeps(c: Codec, h: Handler, outcome: Dial, peer: SocketAddr)
    requires h.task.CanRead()
    requires KeepsUp(h.task, Asked(h.served), RequestsOf(c, h.left), RequestsOf(c, h.stream))
    requires forall j :: 0 <= j < |h.served| ==> RightReply(h.served[j], peer)
    ensures var h' := h.AfterRead(Parse(c, h.left), outcome, peer);
            && KeepsUp(h'.task, Asked(h'.served), RequestsOf(c, h'.left), RequestsOf(c, h'.stream))
            && forall j :: 0 <= j < |h'.served| ==> RightReply(h'.served[j], peer)
  {
    hide Parse, RequestsOf;
    RequestsStep(c, h.left);
    var p := Parse(c, h.left);
    var h' := h.AfterRead(p, outcome, peer);
    if IsEchoReq(p.result) || IsVerificationReq(p.result) {
      assert Asked(h'.served) == Asked(h.served) + [p.result.value.value];
      Assoc(Asked(h.served), [p.result.value.value], RequestsOf(c, p.rest));
    } else {
      assert h'.served == h.served;
    }
  }

  lemma BiReadKeepsInv(c: Codec, s: Conn, t: Conn, i: nat, outcome: Dial)
    requires Inv(c, s) && HandlerStep(c, s, t, BiRead(i, outcome))
    ensures Inv(c, t)
  {
    hide Of, BiSpec, RequestsOf, UniSpec, Pending, CutAtLoss, Parse, KeepsUp, RightReply;
    var h := s.handlers[i];
    var p := Parse(c, h.left);
    assert HandlerInv(c, s, i);
    ServedKeeps(c, h, outcome, s.peer);
    BiReadItems(c, h.task, h.left, h.stream, Of(s.enqueued, Bi(i)), !s.incoming || s.phase == BiFailed);
    OnlyHandler(c, s, t, i);
  }

  lemma BiReadItems(c: Codec, task: Task, left: seq<Sym>, stream: seq<Sym>, enqueued: seq<Item>, lossy: bool)
    requires task.CanRead() && TaskInv(task, enqueued, lossy)
    requires Follows(task, BiSpec(c, left), BiSpec(c, stream))
    ensures var p := Parse(c, left);
            var task' := if p.result == Ok(None) then task.Ended()
                         else if MakesItem(p.result) then task.Holding(ItemOf(p.result))
                         else task;
            && TaskInv(task', enqueued, lossy)
            && Follows(task', BiSpec(c, p.rest), BiSpec(c, stream))
  {
    hide BiSpec, Parse;
    var p := Parse(c, left);
    BiSpecStep(c, left);
    if MakesItem(p.result) {
      HoldingKeeps(task, ItemOf(p.result), enqueued, lossy, BiSpec(c, left), BiSpec(c, p.rest),
                   BiSpec(c, stream));
    }
  }

  lemma BiSendKeepsInv(c: Codec, s: Conn, t: Conn, i: nat)
    requires Inv(c, s) && HandlerStep(c, s, t, BiSend(i))
    ensures Inv(c, t)
  {
    hide Of, BiSpec, RequestsOf, UniSpec, Pending, CutAtLoss, Parse;
    var h := s.handlers[i];
    var m := Tagged(Bi(i), h.task.held.value);
    assert HandlerInv(c, s, i);
    forall source: Source
      ensures Of(t.enqueued, source)
              == Of(s.enqueued, source) + (if source == Bi(i) then [m.item] else [])
    {
      OfSnoc(s.enqueued, m, source);
    }
    SentKeeps(h.task, Of(s.enqueued, Bi(i)), !s.incoming || s.phase == BiFailed,
              BiSpec(c, h.left), BiSpec(c, h.stream));
    OnlyHandler(c, s, t, i);
    assert s.delivered + s.queue + [m] == s.delivered + (s.queue + [m]);
  }

  lemma BiRefusedKeepsInv(c: Codec, s: Conn, t: Conn, i: nat)
    requires Inv(c, s) && HandlerStep(c, s, t, BiRefused(i))
    ensures Inv(c, t)
  {
    hide Of, BiSpec, RequestsOf, UniSpec, Pending, CutAtLoss, Parse;
    var h := s.handlers[i];
    assert HandlerInv(c, s, i);
    StoppedKeeps(h.task, Of(s.enqueued, Bi(i)), !s.incoming || s.phase == BiFailed,
                 BiSpec(c, h.left), BiSpec(c, h.stream));
    OnlyHandler(c, s, t, i);
  }

  // ----- runs ---------------------------------------------------------------------------------

  lemma InitInv(c: Codec, s: Conn)
    requires Init(s)
    ensures Inv(c, s)
  {
    hide FlatItems, CutAtLoss;
    assert [] + FlatItems(c, s.uniInput) == FlatItems(c, s.uniInput);
    assert [] + UniSpec(c, s) == UniSpec(c, s);
    assert s.biInput[0..] == s.biInput;
  }

  lemma StepKeepsInv(c: Codec, s: Conn, t: Conn, step: Step)
    requires Inv(c, s) && Next(c, s, t, step)
    ensures Inv(c, t)
    ensures t.uniInput == s.uniInput && t.biInput == s.biInput && t.peer == s.peer
  {
    hide Inv, Pull, Parse;
    match step
    case UniPull => UniPullKeepsInv(c, s, t);
    case UniSend => UniSendKeepsInv(c, s, t);
    case UniRefused => UniStopKeepsInv(c, s, t, step);
    case UniHandlesGone => UniStopKeepsInv(c, s, t, step);
    case BiRead(i, outcome) => BiReadKeepsInv(c, s, t, i, outcome);
    case BiSend(i) => BiSendKeepsInv(c, s, t, i);
    case BiRefused(i) => BiRefusedKeepsInv(c, s, t, i);
    case BiAccept => BiListenerStepKeepsInv(c, s, t, step);
    case BiDrained => BiListenerStepKeepsInv(c, s, t, step);
    case BiHandlesGone => BiListenerStepKeepsInv(c, s, t, step);
    case _ => HandleStepKeepsInv(c, s, t, step);
  }

  /** Every reachable state of every run satisfies the invariant. */
  lemma {:induction false} RunsKeepInv(c: Codec, run: seq<Conn>, steps: seq<Step>, i: nat)
    requires IsRun(c, run, steps) && i < |run|
    ensures Inv(c, run[i])
    ensures run[i].uniInput == run[0].uniInput && run[i].biInput == run[0].biInput
    ensures run[i].peer == run[0].peer
  {
    hide Inv, Next, Init;
    if i == 0 {
      InitInv(c, run[0]);
    } else {
      RunsKeepInv(c, run, steps, i - 1);
      StepKeepsInv(c, run[i - 1], run[i], steps[i - 1]);
    }
  }
}
