/** What holds of every run of a connection. */
module ListenerTheorems {
  import opened Types
  import opened Errors
  import opened Wire
  import opened WireProofs
  import opened Listening
  import opened Listeners
  import opened ListenerProofs
  import opened Origins

  // ----- what uni-streams say -----------------------------------------------------------------

  /** What a listener makes of the messages written on a uni-stream: user messages, up to the first
      that is empty or no user message at all, which is an error and ends the stream. */
  function UniView(ms: seq<WireMsg>): seq<Item> {
    if ms == [] then []
    else if ms[0] == UserMsg([]) then [Err(RecvSerialization(EmptyMessage))]
    else if ms[0].UserMsg? then [Ok(ms[0].payload)] + UniView(ms[1..])
    else [Err(RecvSerialization(Unexpected(Some(ms[0]))))]
  }

  lemma {:induction false} UniStreamOfMessages(c: Codec, ms: seq<WireMsg>)
    requires c.Valid() && AllWritable(c, ms)
    ensures StreamItems(c, Symbols(Frames(c, ms))) == UniView(ms)
  {
    if ms == [] {
      assert Symbols(Frames(c, ms)) == [];
    } else {
      hide Parse, Frame, Frames, AllWritable;
      FramesStep(c, ms);
      var f, rest := Frame(c, ms[0]).value, Frames(c, ms[1..]);
      assert Symbols(f + rest) == Symbols(f) + Symbols(rest);
      FrameRoundTrip(c, ms[0], Symbols(rest));
      if ms[0].UserMsg? && ms[0] != UserMsg([]) {
        UniStreamOfMessages(c, ms[1..]);
      }
    }
  }

  /** When accepting uni-streams fails after the streams `a`, the listener passes on what they hold;
      a benign failure adds nothing, any other adds itself and is the last thing it says. */
  lemma AcceptFailureEndsListening(c: Codec, a: seq<Accept>, e: QuinnConnectionError, b: seq<Accept>)
    requires forall i :: 0 <= i < |a| ==> a[i].Accepted?
    requires NoLoss(FlatItems(c, a))
    ensures CutAtLoss(FlatItems(c, a + ([AcceptFailed(e)] + b)))
            == FlatItems(c, a) + (if FromQuinn(e).IsBenign() then []
                                  else [Err(RecvConnectionLost(FromQuinn(e)))])
  {
    hide StreamItems;
    FlatItemsConcat(c, a, [AcceptFailed(e)] + b);
    ConsParts(AcceptFailed(e), b);
    CutAfter(FlatItems(c, a), FlatItems(c, [AcceptFailed(e)] + b));
  }

  // ----- resynchronisation --------------------------------------------------------------------

  /** What one complete frame contributes on a bi-stream. */
  function FrameItems(c: Codec, f: RawFrame): seq<Item>
    requires f.Valid()
  {
    match f.Decode(c)
    case Err(e) => [Err(e)]
    case Ok(UserMsg(payload)) => [Ok(payload)]
    case Ok(_) => []
  }

  lemma FrameOnBiStream(c: Codec, f: RawFrame, rest: seq<Sym>)
    requires f.Valid()
    ensures BiSpec(c, Symbols(f.header + f.body) + rest) == FrameItems(c, f) + BiSpec(c, rest)
  {
    hide Parse, BiSpec, DecodeBody, RawFrame.Valid;
    ParseRawFrame(c, f, rest);
    BiSpecStep(c, Symbols(f.header + f.body) + rest);
  }

  lemma {:induction false} RefusedFrameIsIsolated(c: Codec, before: seq<RawFrame>, f: RawFrame, rest: seq<Sym>)
    requires (forall i :: 0 <= i < |before| ==> before[i].Valid()) && f.Valid() && f.Decode(c).Err?
    ensures var items := BiSpec(c, Symbols(RawBytes(before)) + (Symbols(f.header + f.body) + rest));
            var without := BiSpec(c, Symbols(RawBytes(before)) + rest);
            var k := |without| - |BiSpec(c, rest)|;
            && 0 <= k
            && items == without[..k] + [Err(f.Decode(c).error)] + without[k..]
  {
    hide Parse, BiSpec, DecodeBody;
    var withFrame := Symbols(f.header + f.body) + rest;
    if before == [] {
      assert Symbols(RawBytes(before)) + withFrame == withFrame;
      assert Symbols(RawBytes(before)) + rest == rest;
      FrameOnBiStream(c, f, rest);
    } else {
      var b, later := before[0], before[1..];
      RefusedFrameIsIsolated(c, later, f, rest);
      FrameOnBiStream(c, b, Symbols(RawBytes(later)) + withFrame);
      FrameOnBiStream(c, b, Symbols(RawBytes(later)) + rest);
      RawBytesCons(before, withFrame);
      RawBytesCons(before, rest);
    }
  }

  /** Resynchronisation: a complete but malformed frame among others (an empty body, a body that does not
      decode, or an unknown kind of message) gives exactly one error, which says so, and changes nothing
      before or after it. */
  lemma MalformedFrameIsIsolated(c: Codec, before: seq<RawFrame>, f: RawFrame, rest: seq<Sym>)
    requires (forall i :: 0 <= i < |before| ==> before[i].Valid()) && f.Valid()
    requires f.body == [] || f.header[6] > 1 || (f.header[6] == 1 && c.decode(f.body).None?)
    ensures var items := BiSpec(c, Symbols(RawBytes(before)) + (Symbols(f.header + f.body) + rest));
            var without := BiSpec(c, Symbols(RawBytes(before)) + rest);
            var k := |without| - |BiSpec(c, rest)|;
            var kind := if f.body == [] then EmptyMessage
                        else if f.header[6] == 1 then Undecodable
                        else InvalidFlag(f.header[6]);
            && 0 <= k
            && items == without[..k] + [Err(RecvSerialization(kind))] + without[k..]
  {
    hide Parse, BiSpec, RawFrame.Valid, RawFrame.Decode, RawBytes;
    MalformedMeaning(c, f);
    RefusedFrameIsIsolated(c, before, f, rest);
  }

  lemma RawBytesCons(fs: seq<RawFrame>, rest: seq<Sym>)
    requires fs != []
    ensures Symbols(RawBytes(fs)) + rest
            == Symbols(fs[0].header + fs[0].body) + (Symbols(RawBytes(fs[1..])) + rest)
  {
  }

  // ----- runs ---------------------------------------------------------------------------------

  lemma {:induction false} OfConcat(a: seq<Tagged>, b: seq<Tagged>, source: Source)
    ensures Of(a + b, source) == Of(a, source) + Of(b, source)
  {
    if b == [] {
      assert a + b == a;
    } else {
      var n := |b| - 1;
      OfConcat(a, b[..n], source);
      assert (a + b)[..|a + b| - 1] == a + b[..n];
    }
  }

  lemma OfPrefix(a: seq<Tagged>, b: seq<Tagged>, source: Source)
    requires a <= b
    ensures Of(a, source) <= Of(b, source)
  {
    assert b == a + b[|a|..];
    OfConcat(a, b[|a|..], source);
  }

  /** An item is found among those of its source after the items of that source before it. */
  lemma OfPosition(log: seq<Tagged>, p: nat)
    requires p < |log|
    ensures var q := |Of(log[..p], log[p].source)|;
            q < |Of(log, log[p].source)| && Of(log, log[p].source)[q] == log[p].item
  {
    var upTo := log[..p + 1];
    assert upTo[..p] == log[..p];
    OfPrefix(upTo, log, log[p].source);
  }

  /** Channel conservation. As long as the application keeps its receiving half, every item a task
      decoded is in exactly one place: delivered, queued, in its hands, or given up, in this order. The
      uni listener gives up nothing, a bi-stream handler one item at most. The queue never exceeds its
      bound. */
  lemma ItemsAreConserved(c: Codec, run: seq<Conn>, steps: seq<Step>, k: nat, i: nat)
    requires IsRun(c, run, steps) && k < |run| && run[k].incoming
    ensures |run[k].queue| <= 10_000
    ensures run[k].uni.task.made
            == Of(run[k].delivered, Uni) + Of(run[k].queue, Uni) + run[k].uni.task.HeldItems()
    ensures i < |run[k].handlers| ==>
              var task := run[k].handlers[i].task;
              && task.made == Of(run[k].delivered, Bi(i)) + Of(run[k].queue, Bi(i))
                              + task.HeldItems() + task.dropped
              && |task.dropped| <= 1
  {
    hide IsRun, Of, BiSpec, RequestsOf, UniSpec, Pending, CutAtLoss;
    RunsKeepInv(c, run, steps, k);
    var s := run[k];
    OfConcat(s.delivered, s.queue, Uni);
    OfConcat(s.delivered, s.queue, Bi(i));
    if i < |s.handlers| {
      assert HandlerInv(c, s, i);
    }
  }

  // ----- what is lost when accepting fails ----------------------------------------------------

  /** Step `j` is the one at which accepting bi-streams fails for good. */
  ghost predicate FailsAt(run: seq<Conn>, steps: seq<Step>, j: nat)
    requires |run| == |steps| + 1
  {
    j < |steps| && run[j].phase.Accepting? && run[j + 1].phase.BiFailed?
  }

  /** Failing stops every handler and is final. */
  predicate FailureRule(s: Conn, t: Conn) {
    && (t.phase.BiFailed? && !s.phase.BiFailed? ==>
          s.phase.Accepting? && t.handlers == StopAll(s.handlers) && t.incoming == s.incoming)
    && (s.phase.BiFailed? ==> t.phase.BiFailed? && t.handlers == s.handlers)
    && (t.incoming ==> s.incoming)
  }

  lemma FailureRuleUni(c: Codec, s: Conn, t: Conn, step: Step)
    requires UniStep(c, s, t, step)
    ensures FailureRule(s, t)
  {
    hide Pull, StopAll, IsLossItem, Task.Stopped, Task.Sent, Task.Holding;
  }

  lemma FailureRuleHandler(c: Codec, s: Conn, t: Conn, step: Step)
    requires HandlerStep(c, s, t, step)
    ensures FailureRule(s, t)
  {
    hide Parse, StopAll, IsLossItem, Task.Stopped, Task.Sent, Handler.AfterRead;
  }

  lemma FailingStep(c: Codec, s: Conn, t: Conn, step: Step)
    requires Next(c, s, t, step)
    ensures FailureRule(s, t)
  {
    hide UniStep, HandlerStep, StopAll;
    if UniStep(c, s, t, step) {
      FailureRuleUni(c, s, t, step);
    } else if HandlerStep(c, s, t, step) {
      FailureRuleHandler(c, s, t, step);
    }
  }

  /** What the handlers had after the failure they have for ever. */
  lemma {:induction false} FailureIsFinal(c: Codec, run: seq<Conn>, steps: seq<Step>, j: nat, k: nat)
    requires IsRun(c, run, steps) && FailsAt(run, steps, j) && j < k < |run|
    ensures run[k].phase.BiFailed? && run[k].handlers == StopAll(run[j].handlers)
    ensures run[k].incoming ==> run[j].incoming
  {
    hide Next, StopAll;
    FailingStep(c, run[k - 1], run[k], steps[k - 1]);
    if k > j + 1 {
      FailureIsFinal(c, run, steps, j, k - 1);
    }
  }

  lemma {:induction false} FailureHappened(c: Codec, run: seq<Conn>, steps: seq<Step>, k: nat) returns (j: nat)
    requires IsRun(c, run, steps) && k < |run| && run[k].phase.BiFailed?
    ensures j < k && FailsAt(run, steps, j)
  {
    hide Next;
    FailingStep(c, run[k - 1], run[k], steps[k - 1]);
    if run[k - 1].phase.BiFailed? {
      j := FailureHappened(c, run, steps, k - 1);
    } else {
      j := k - 1;
    }
  }

  /** The exact condition for a loss: while the application keeps its receiving half, a handler has
      given something up if and only if it had an item in its hands at the step at which accepting
      bi-streams failed for good, and that item is what it gave up. Without such a step nothing is
      lost. */
  lemma LostIffHeldAtFailure(c: Codec, run: seq<Conn>, steps: seq<Step>, k: nat, i: nat)
    requires IsRun(c, run, steps) && k < |run| && run[k].incoming && i < |run[k].handlers|
    ensures run[k].phase.BiFailed? <==> exists j :: 0 <= j < k && FailsAt(run, steps, j)
    ensures !run[k].phase.BiFailed? ==> run[k].handlers[i].task.dropped == []
    ensures forall j :: 0 <= j < k && FailsAt(run, steps, j) ==>
              && i < |run[j].handlers|
              && run[k].handlers[i].task.dropped == run[j].handlers[i].task.HeldItems()
  {
    assert |run| == |steps| + 1;
    hide *;
    RunsKeepInv(c, run, steps, k);
    DropsNothing(c, run[k], i);
    if run[k].phase.BiFailed? {
      var j := FailureHappened(c, run, steps, k);
    }
    forall j | 0 <= j < k && FailsAt(run, steps, j)
      ensures run[k].phase.BiFailed?
      ensures i < |run[j].handlers|
      ensures run[k].handlers[i].task.dropped == run[j].handlers[i].task.HeldItems()
    {
      FailureIsFinal(c, run, steps, j, k);
      RunsKeepInv(c, run, steps, j);
      DropsHeld(c, run[j], i);
    }
  }

  lemma DropsNothing(c: Codec, s: Conn, i: nat)
    requires Inv(c, s) && s.incoming && i < |s.handlers|
    ensures !s.phase.BiFailed? ==> s.handlers[i].task.dropped == []
  {
    hide Of, BiSpec, RequestsOf, UniInv, Follows, KeepsUp, RightReply;
    assert HandlerInv(c, s, i);
  }

  lemma DropsHeld(c: Codec, s: Conn, i: nat)
    requires Inv(c, s) && s.incoming && s.phase.Accepting? && i < |s.handlers|
    ensures StopAll(s.handlers)[i].task.dropped == s.handlers[i].task.HeldItems()
  {
    hide Of, BiSpec, RequestsOf, UniInv, Follows, KeepsUp, RightReply;
    assert HandlerInv(c, s, i);
  }

  /** The uni listener refines a flatten: what the application got from it is a prefix of the items
      of the uni-streams taken one after the other, each up to its end or first error. Each bi-stream
      contributes a prefix of its own items. In both cases a connection loss comes last. */
  lemma DeliveryFollowsStreams(c: Codec, run: seq<Conn>, steps: seq<Step>, k: nat, i: nat)
    requires IsRun(c, run, steps) && k < |run|
    ensures Of(run[k].delivered, Uni) <= FlatItems(c, run[0].uniInput)
    ensures LossOnlyLast(Of(run[k].delivered, Uni)) && LossOnlyLast(run[k].uni.task.made)
    ensures i < |run[k].handlers| ==>
              && i < |run[0].biInput|
              && run[0].biInput[i] == Accepted(run[k].handlers[i].stream)
              && Of(run[k].delivered, Bi(i)) <= BiSpec(c, run[k].handlers[i].stream)
              && LossOnlyLast(Of(run[k].delivered, Bi(i)))
              && LossOnlyLast(run[k].handlers[i].task.made)
    ensures i >= |run[k].handlers| ==> Of(run[k].delivered, Bi(i)) == []
  {
    hide IsRun, Of, BiSpec, RequestsOf, FlatItems, Pending, CutAtLoss;
    RunsKeepInv(c, run, steps, k);
    var s := run[k];
    OfPrefix(s.delivered, s.enqueued, Uni);
    OfPrefix(s.delivered, s.enqueued, Bi(i));
    MadeIsPrefix(s.uni.task, Of(s.enqueued, Uni), !s.incoming,
                 CutAtLoss(Pending(c, s.uni.flatten)), UniSpec(c, s));
    CutAtLossShape(FlatItems(c, s.uniInput));
    LossOnlyLastPrefix(s.uni.task.made, UniSpec(c, s));
    LossOnlyLastPrefix(Of(s.delivered, Uni), UniSpec(c, s));
    if i < |s.handlers| {
      assert HandlerInv(c, s, i);
      var h := s.handlers[i];
      MadeIsPrefix(h.task, Of(s.enqueued, Bi(i)), !s.incoming || s.phase == BiFailed,
                   BiSpec(c, h.left), BiSpec(c, h.stream));
      BiLossOnlyLast(c, h.stream);
      LossOnlyLastPrefix(h.task.made, BiSpec(c, h.stream));
      LossOnlyLastPrefix(Of(s.delivered, Bi(i)), BiSpec(c, h.stream));
    }
  }

  lemma MadeIsPrefix(t: Task, enqueued: seq<Item>, lossy: bool, ahead: seq<Item>, spec: seq<Item>)
    requires TaskInv(t, enqueued, lossy) && Follows(t, ahead, spec)
    ensures t.made <= spec && enqueued <= spec
  {
  }

  lemma LossOnlyLastPrefix(items: seq<Item>, spec: seq<Item>)
    requires items <= spec && LossOnlyLast(spec)
    ensures LossOnlyLast(items)
  {
  }

  /** The application has everything there was to get: both listeners have stopped, the queue is empty,
      it got every item of the uni-streams up to the first connection loss, and, unless accepting
      bi-streams failed, every item of every bi-stream that was opened before the end. */
  ghost predicate HasEverything(c: Codec, uniInput: seq<Accept>, biInput: seq<Accept>, s: Conn) {
    && s.queue == [] && s.uni.task.fate == Finished && !BiLive(s)
    && Of(s.delivered, Uni) == CutAtLoss(FlatItems(c, uniInput))
    && (s.phase == BiFailed || s.phase == BiDone)
    && (s.phase == BiDone ==>
          && (forall i :: 0 <= i < |s.handlers| ==>
                i < |biInput|
                && biInput[i] == Accepted(s.handlers[i].stream)
                && Of(s.delivered, Bi(i)) == BiSpec(c, s.handlers[i].stream))
          && (|| |s.handlers| == |biInput|
              || (|s.handlers| < |biInput| && biInput[|s.handlers|].AcceptFailed?)))
  }

  /** The application is told that there is nothing more only when it has everything. */
  lemma NothingMoreMeansEverythingDelivered(c: Codec, run: seq<Conn>, steps: seq<Step>, k: nat)
    requires IsRun(c, run, steps) && k < |steps| && steps[k] == ReceiveNone
    ensures HasEverything(c, run[0].uniInput, run[0].biInput, run[k])
  {
    hide Of, BiSpec, RequestsOf, FlatItems, Pending, CutAtLoss, UniStep, BiListenerStep, HandlerStep, Init;
    RunsKeepInv(c, run, steps, k);
    var s := run[k];
    assert Next(c, s, run[k + 1], steps[k]);
    ReceiveNoneEnabled(c, s, run[k + 1]);
    assert s.delivered + [] == s.delivered;
    if s.phase == BiDone {
      forall i | 0 <= i < |s.handlers|
        ensures s.biInput[i] == Accepted(s.handlers[i].stream)
        ensures Of(s.delivered, Bi(i)) == BiSpec(c, s.handlers[i].stream)
      {
        assert HandlerInv(c, s, i);
      }
    }
  }

  lemma ReceiveNoneEnabled(c: Codec, s: Conn, t: Conn)
    requires Next(c, s, t, ReceiveNone)
    ensures s.incoming && s.queue == [] && s.senders == 0
  {
    hide Pull, Parse;
  }

  /** Handle lifetime. The alive marker counts the live handles exactly, so a listener that stops
      because the handles are gone does so when no clone of the sending API and no receiving API is
      left, and never while a connection waits in somebody's queue. */
  lemma StoppedOnlyWithoutHandles(c: Codec, run: seq<Conn>, steps: seq<Step>, k: nat)
    requires IsRun(c, run, steps) && k < |run|
    ensures run[k].aliveRefs == run[k].handles + (if run[k].incoming then 1 else 0)
    ensures k < |steps| && (steps[k] == UniHandlesGone || steps[k] == BiHandlesGone) ==>
              run[k].handles == 0 && !run[k].incoming
    ensures run[k].phase == BiGone || run[k].uni.task.fate == Cut ==> !run[k].incoming
  {
    hide Of, BiSpec, RequestsOf, FlatItems, Pending, CutAtLoss, Pull, Parse, HandlerInv;
    RunsKeepInv(c, run, steps, k);
    if k < |steps| {
      assert Next(c, run[k], run[k + 1], steps[k]);
    }
  }

  /** Request and response, in every interleaving: the requests answered on a bi-stream are, in order,
      the first so many of those it carries, and all of them when its handler has finished; an echo
      request is answered with the address the peer had when the connection was made, a verification
      request with the outcome of a dial-back. */
  lemma AnswersFollowRequests(c: Codec, run: seq<Conn>, steps: seq<Step>, k: nat, i: nat)
    requires IsRun(c, run, steps) && k < |run| && i < |run[k].handlers|
    ensures var h := run[k].handlers[i];
            && Asked(h.served) <= RequestsOf(c, h.stream)
            && (h.task.fate == Finished ==> Asked(h.served) == RequestsOf(c, h.stream))
            && forall j :: 0 <= j < |h.served| ==>
                 var x := h.served[j];
                 match x.request
                 case EndpointEchoReq => x.reply == EndpointEchoResp(run[0].peer)
                 case EndpointVerificationReq(_) => x.reply == EndpointVerificationResp(x.outcome.Verified())
                 case _ => false
  {
    hide IsRun, Of, BiSpec, RequestsOf, UniSpec, Pending, CutAtLoss;
    RunsKeepInv(c, run, steps, k);
    assert HandlerInv(c, run[k], i);
  }

  /** Back-pressure: an item goes into the channel exactly when the application is there and fewer than
      10,000 wait; and it is given up for want of a receiver exactly when the application is gone. */
  lemma ChannelTakesUpToItsBound(c: Codec, s: Conn)
    requires s.uni.task.held.Some?
    ensures (exists t :: Next(c, s, t, UniSend)) <==> s.incoming && |s.queue| < 10_000
    ensures (exists t :: Next(c, s, t, UniRefused)) <==> !s.incoming
  {
    hide BiListenerStep, HandlerStep, HandleStep, Pull, Enqueue;
    var task := s.uni.task;
    if HasRoom(s) {
      var after := Enqueue(WithUni(s, task.Sent()), Tagged(Uni, task.held.value));
      var t := if task.Sent().fate == Running then after else LessSender(after);
      assert UniStep(c, s, t, UniSend);
      assert Next(c, s, t, UniSend);
    }
    if !s.incoming {
      assert UniStep(c, s, LessSender(WithUni(s, task.Stopped())), UniRefused);
      assert Next(c, s, LessSender(WithUni(s, task.Stopped())), UniRefused);
    }
    forall t | Next(c, s, t, UniSend)
      ensures HasRoom(s)
    {
      OnlyUniSteps(c, s, t, UniSend);
    }
    forall t | Next(c, s, t, UniRefused)
      ensures !s.incoming
    {
      OnlyUniSteps(c, s, t, UniRefused);
    }
  }

  lemma OnlyUniSteps(c: Codec, s: Conn, t: Conn, step: Step)
    requires Next(c, s, t, step) && (step.UniSend? || step.UniRefused?)
    ensures UniStep(c, s, t, step)
  {
    hide UniStep;
  }

  /** Benign losses surface only mid-message: a benign connection loss that reaches the application
      is the loss the listener met on that very stream, after reading every frame before it, with at
      least one byte of the next frame read and the frame not complete. Benign losses between frames,
      and on the accepting side, leave no trace. For an item of the uni listener `q` is its place
      among the listener's items, and tells the stream. */
  lemma BenignLossSurfacesMidFrame(c: Codec, run: seq<Conn>, steps: seq<Step>, k: nat, p: nat)
    requires IsRun(c, run, steps) && k < |run|
    requires p < |run[k].delivered| && IsBenignItem(run[k].delivered[p].item)
    ensures var m := run[k].delivered[p];
            match m.source
            case Bi(i) =>
              && i < |run[0].biInput|
              && run[0].biInput[i].Accepted?
              && LostMidFrame(c, Bi(i), run[0].biInput[i].content, m.item.error)
            case Uni =>
              var input, q := run[0].uniInput, |Of(run[k].delivered[..p], Uni)|;
              && q < |FlatItems(c, input)|
              && FlatItems(c, input)[q] == m.item
              && (var j := OriginOf(c, input, q).stream;
                  input[j].Accepted? && LostMidFrame(c, Uni, input[j].content, m.item.error))
  {
    hide IsRun, Of, BiSpec, RequestsOf, FlatItems, LostMidFrame, LossOnlyLast, OriginOf, StreamItems;
    var m := run[k].delivered[p];
    OfPosition(run[k].delivered, p);
    if m.source == Uni {
      var input, q := run[0].uniInput, |Of(run[k].delivered[..p], Uni)|;
      DeliveryFollowsStreams(c, run, steps, k, 0);
      OriginMeaning(c, input, q);
      StreamLossIsMidFrame(c, input[OriginOf(c, input, q).stream].content, m.item);
    } else {
      var i := m.source.index;
      DeliveryFollowsStreams(c, run, steps, k, i);
      BiLossIsMidFrame(c, i, run[k].handlers[i].stream, m.item);
    }
  }

  /** Such losses do happen: when accepting bi-streams fails for a reason that is not benign, a
      handler that has decoded a message and not yet passed it on is dropped with the message,
      although the application is still there to receive it. */
  lemma AcceptFailureDropsMessage(c: Codec, payload: seq<Byte>, e: QuinnConnectionError, peer: SocketAddr)
    returns (run: seq<Conn>, steps: seq<Step>)
    requires c.Valid() && 0 < |payload| <= U32_MAX && !FromQuinn(e).IsBenign()
    ensures IsRun(c, run, steps)
    ensures var s := run[|steps|];
            && s.incoming && |s.handlers| == 1
            && s.handlers[0].task.made == [Ok(payload)]
            && s.handlers[0].task.dropped == [Ok(payload)]
            && s.enqueued == []
  {
    var stream := MessageStream(c, payload);
    var s0 := Conn(1, true, 2, [], 2, [], [], false, UniTask(NewTask, Flatten(None, [])),
                   Accepting, [Accepted(stream), AcceptFailed(e)], [],
                   [], [Accepted(stream), AcceptFailed(e)], peer);
    var s1 := s0.(accepts := [AcceptFailed(e)], handlers := [Handler(NewTask, stream, stream, [])]);
    var s2 := s1.(handlers := [Handler(NewTask.Holding(Ok(payload)), stream, [], [])]);
    var s3 := LessSender(s2.(phase := BiFailed, handlers := StopAll(s2.handlers)));
    run, steps := [s0, s1, s2, s3], [BiAccept, BiRead(0, DialTimedOut), BiAccept];
    assert BiListenerStep(s0, s1, BiAccept) by {
      assert s0.accepts[1..] == s1.accepts;
      assert [] + s1.handlers == s1.handlers;
    }
    assert HandlerStep(c, s1, s2, BiRead(0, DialTimedOut)) by {
      ReadingMessageStream(c, payload, s1, s2);
    }
    assert BiListenerStep(s2, s3, BiAccept);
    hide UniStep, BiListenerStep, HandlerStep, HandleStep;
    assert Next(c, run[0], run[1], steps[0]);
    assert Next(c, run[1], run[2], steps[1]);
    assert Next(c, run[2], run[3], steps[2]);
  }

  /** A finished stream with one message. */
  function MessageStream(c: Codec, payload: seq<Byte>): seq<Sym>
    requires |payload| <= U32_MAX
  {
    FitsFrame(c, payload);
    Symbols(Frame(c, UserMsg(payload)).value)
  }

  lemma ReadingMessageStream(c: Codec, payload: seq<Byte>, s: Conn, t: Conn)
    requires c.Valid() && 0 < |payload| <= U32_MAX && BiLive(s)
    requires var stream := MessageStream(c, payload);
             && s.handlers == [Handler(NewTask, stream, stream, [])]
             && t == s.(handlers := [Handler(NewTask.Holding(Ok(payload)), stream, [], [])])
    ensures HandlerStep(c, s, t, BiRead(0, DialTimedOut))
  {
    var m, stream := UserMsg(payload), MessageStream(c, payload);
    assert Parse(c, stream) == Parsed(Ok(Some(m)), []) by {
      FitsFrame(c, payload);
      FrameRoundTrip(c, m, []);
      assert stream + [] == stream;
    }
    hide Parse, MessageStream;
    assert t.handlers[0] == s.handlers[0].AfterRead(Parsed(Ok(Some(m)), []), DialTimedOut, s.peer);
    assert t.handlers == s.handlers[0 := t.handlers[0]];
  }

  lemma FitsFrame(c: Codec, payload: seq<Byte>)
    requires |payload| <= U32_MAX
    ensures Writable(c, UserMsg(payload))
  {
  }
}
