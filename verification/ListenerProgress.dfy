/** A connection comes to rest, and by then it has answered every request: nothing of this needs the
    application to look at the connection, only that its receiving half exists, if only in a queue. */
module ListenerProgress {
  import opened Types
  import opened Errors
  import opened Wire
  import opened Listening
  import opened Listeners
  import opened ListenerProofs
  import opened ListenerTheorems

  // ----- every step uses something up ---------------------------------------------------------

  function TaskWork(t: Task): nat {
    (if t.held.Some? then 2 else 0) + (if t.fate == Running then 1 else 0)
  }

  function HandlerWork(h: Handler): nat {
    3 * |h.left| + TaskWork(h.task)
  }

  function StreamWork(a: Accept): nat {
    if a.Accepted? then 3 * |a.content| + 2 else 0
  }

  function PhaseWork(p: BiPhase): nat {
    if p.Accepting? then 2 else if p.Draining? then 1 else 0
  }

  /** How much a connection can still do. */
  function Work(s: Conn): nat {
    3 * Weight(s.uni.flatten) + TaskWork(s.uni.task)
    + PhaseWork(s.phase) + Sum(s.accepts, StreamWork) + Sum(s.handlers, HandlerWork)
    + |s.queue| + s.handles + (if s.incoming then 1 else 0)
  }

  /** Steps of the listeners and their handlers, and steps by which the application takes an item or
      lets go of the connection. */
  predicate UsesUp(step: Step) {
    !step.CloneHandle? && !step.ReceiveNone?
  }

  /** Only a running task has an item in its hands. */
  predicate HeldRuns(s: Conn) {
    && (s.uni.task.held.Some? ==> s.uni.task.fate == Running)
    && (forall i :: 0 <= i < |s.handlers| && s.handlers[i].task.held.Some? ==>
          s.handlers[i].task.fate == Running)
  }

  lemma InvMeansHeldRuns(c: Codec, s: Conn)
    requires Inv(c, s)
    ensures HeldRuns(s)
  {
    hide HandlesInv, ChannelInv, Of, Follows, KeepsUp, RightReply;
    forall i | 0 <= i < |s.handlers| && s.handlers[i].task.held.Some?
      ensures s.handlers[i].task.fate == Running
    {
      assert HandlerInv(c, s, i);
    }
  }

  lemma HandleStepWorks(s: Conn, t: Conn, step: Step)
    requires HandleStep(s, t, step) && UsesUp(step)
    ensures Work(t) < Work(s)
  {
    hide Sum, Weight;
  }

  lemma UniStepWorks(c: Codec, s: Conn, t: Conn, step: Step)
    requires UniStep(c, s, t, step) && HeldRuns(s)
    ensures Work(t) < Work(s)
  {
    hide Sum, Weight, Pull, Pending, IsLossItem;
    PullIsHead(c, s.uni.flatten);
  }

  lemma {:induction false} StopAllWorks(hs: seq<Handler>)
    ensures Sum(StopAll(hs), HandlerWork) <= Sum(hs, HandlerWork)
  {
    if hs != [] {
      StopAllWorks(hs[1..]);
      assert StopAll(hs)[1..] == StopAll(hs[1..]);
    }
  }

  lemma SumCons(accepts: seq<Accept>)
    requires accepts != []
    ensures Sum(accepts, StreamWork) == StreamWork(accepts[0]) + Sum(accepts[1..], StreamWork)
  {
  }

  lemma StreamToHandler(a: Accept)
    requires a.Accepted?
    ensures HandlerWork(Handler(NewTask, a.content, a.content, [])) < StreamWork(a)
  {
  }

  lemma BiListenerStepWorks(s: Conn, t: Conn, step: Step)
    requires BiListenerStep(s, t, step)
    ensures Work(t) < Work(s)
  {
    hide Weight, StopAll, Sum, TaskWork, HandlerWork, StreamWork;
    StopAllWorks(s.handlers);
    if t.phase.Accepting? {
      var h := Handler(NewTask, s.accepts[0].content, s.accepts[0].content, []);
      SumSnoc(s.handlers, h, HandlerWork);
      SumCons(s.accepts);
      StreamToHandler(s.accepts[0]);
    }
  }

  lemma ReadWorks(c: Codec, h: Handler, outcome: Dial, peer: SocketAddr)
    requires h.task.CanRead()
    ensures HandlerWork(h.AfterRead(Parse(c, h.left), outcome, peer)) < HandlerWork(h)
  {
    hide Parse;
  }

  lemma HandlerStepWorks(c: Codec, s: Conn, t: Conn, step: Step)
    requires HandlerStep(c, s, t, step) && HeldRuns(s)
    ensures Work(t) < Work(s)
  {
    hide Sum, Weight, Parse, IsLossItem, Handler.AfterRead;
    if step.BiRead? {
      ReadWorks(c, s.handlers[step.i], step.outcome, s.peer);
    }
    SumUpdate(s.handlers, step.i, t.handlers[step.i], HandlerWork);
  }

  lemma StepWorks(c: Codec, s: Conn, t: Conn, step: Step)
    requires Inv(c, s) && Next(c, s, t, step) && UsesUp(step)
    ensures Work(t) < Work(s)
  {
    hide Inv, Work, HandleStep, UniStep, BiListenerStep, HandlerStep, HeldRuns;
    InvMeansHeldRuns(c, s);
    if HandleStep(s, t, step) {
      HandleStepWorks(s, t, step);
    } else if UniStep(c, s, t, step) {
      UniStepWorks(c, s, t, step);
    } else if BiListenerStep(s, t, step) {
      BiListenerStepWorks(s, t, step);
    } else {
      HandlerStepWorks(c, s, t, step);
    }
  }

  /** Every run in which no handle is cloned and nobody asks in vain is bounded by its input. */
  lemma {:induction false} RunsComeToRest(c: Codec, run: seq<Conn>, steps: seq<Step>, k: nat)
    requires IsRun(c, run, steps) && k < |run|
    requires forall j :: 0 <= j < k ==> UsesUp(steps[j])
    ensures Work(run[k]) + k <= Work(run[0])
  {
    hide Next, Work, UsesUp;
    if k > 0 {
      RunsComeToRest(c, run, steps, k - 1);
      RunsKeepInv(c, run, steps, k - 1);
      StepWorks(c, run[k - 1], run[k], steps[k - 1]);
    }
  }

  // ----- requests are answered ----------------------------------------------------------------

  /** Bi-stream `i` gets accepted, carries nothing but requests, and accepting never fails for good. */
  ghost predicate Serviceable(c: Codec, input: seq<Accept>, i: nat) {
    && i < |input|
    && (forall j :: 0 <= j <= i ==> input[j].Accepted?)
    && (forall j :: 0 <= j < |input| && input[j].AcceptFailed? ==> FromQuinn(input[j].error).IsBenign())
    && BiSpec(c, input[i].content) == []
  }

  /** All requests of bi-stream `i` have been answered, in order and with the right replies. */
  ghost predicate Answered(c: Codec, s: Conn, i: nat) {
    && i < |s.handlers| && i < |s.biInput| && s.biInput[i].Accepted?
    && Asked(s.handlers[i].served) == RequestsOf(c, s.biInput[i].content)
    && forall j :: 0 <= j < |s.handlers[i].served| ==> RightReply(s.handlers[i].served[j], s.peer)
  }

  lemma AcceptMoves(c: Codec, s: Conn, i: nat) returns (t: Conn)
    requires Inv(c, s) && s.incoming && Serviceable(c, s.biInput, i) && |s.handlers| <= i
    ensures Next(c, s, t, BiAccept)
  {
    hide HandlesInv, ChannelInv, UniInv, HandlerInv, Of, UniStep, HandlerStep;
    assert s.phase.Accepting?;
    assert s.accepts[0] == s.biInput[|s.handlers|];
    var stream := s.accepts[0].content;
    t := s.(accepts := s.accepts[1..],
            handlers := s.handlers + [Handler(NewTask, stream, stream, [])]);
  }

  lemma HandlerMoves(c: Codec, s: Conn, i: nat, outcome: Dial) returns (t: Conn)
    requires Inv(c, s) && s.incoming && Serviceable(c, s.biInput, i) && i < |s.handlers|
    requires !Answered(c, s, i)
    ensures Next(c, s, t, BiRead(i, outcome))
  {
    hide HandlesInv, ChannelInv, UniInv, Of, BiSpec, RequestsOf, RightReply, Parse, UniStep, BiListenerStep;
    assert HandlerInv(c, s, i);
    assert s.phase != BiFailed;
    var h := s.handlers[i];
    MadeIsPrefix(h.task, Of(s.enqueued, Bi(i)), false, BiSpec(c, h.left), BiSpec(c, h.stream));
    t := WithHandler(s, i, h.AfterRead(Parse(c, h.left), outcome, s.peer));
  }

  /** As long as the receiving half exists, a connection either has answered all requests of the
      stream or can make a step towards that by itself. */
  lemma ServiceMoves(c: Codec, s: Conn, i: nat, outcome: Dial) returns (step: Step, t: Conn)
    requires Inv(c, s) && s.incoming && Serviceable(c, s.biInput, i) && !Answered(c, s, i)
    ensures step == BiAccept || step == BiRead(i, outcome)
    ensures Next(c, s, t, step) && Work(t) < Work(s)
  {
    hide *;
    if i < |s.handlers| {
      step := BiRead(i, outcome);
      t := HandlerMoves(c, s, i, outcome);
    } else {
      step := BiAccept;
      t := AcceptMoves(c, s, i);
    }
    MovesUseUp(i, outcome);
    StepWorks(c, s, t, step);
  }

  lemma MovesUseUp(i: nat, outcome: Dial)
    ensures UsesUp(BiAccept) && UsesUp(BiRead(i, outcome))
  {
  }

  /** A connection that nobody has looked at is served. In a run of any interleaving that keeps the
      receiving half, if only in a queue: the run is bounded, and it can come to rest only when every
      request of the stream has been answered, in order and with the right replies. */
  lemma UnseenConnectionIsServed(c: Codec, run: seq<Conn>, steps: seq<Step>, i: nat, outcome: Dial)
    requires IsRun(c, run, steps) && run[|steps|].incoming && Serviceable(c, run[0].biInput, i)
    requires forall j :: 0 <= j < |steps| ==> UsesUp(steps[j])
    ensures |steps| <= Work(run[0])
    ensures || Answered(c, run[|steps|], i)
            || exists t :: Next(c, run[|steps|], t, BiAccept) || Next(c, run[|steps|], t, BiRead(i, outcome))
  {
    assert |run| == |steps| + 1;
    hide *;
    RunsComeToRest(c, run, steps, |steps|);
    RunsKeepInv(c, run, steps, |steps|);
    if !Answered(c, run[|steps|], i) {
      var step, t := ServiceMoves(c, run[|steps|], i, outcome);
    }
  }

  // ----- everything is delivered --------------------------------------------------------------

  /** The application takes an item, or a listener or handler moves. */
  predicate BringsOn(step: Step) {
    UsesUp(step) && !step.DropHandle? && !step.DropIncoming?
  }

  lemma UniMoves(c: Codec, s: Conn) returns (step: Step, t: Conn)
    requires s.uni.task.fate == Running && HasRoom(s)
    ensures BringsOn(step) && Next(c, s, t, step)
  {
    hide Pull, BiListenerStep, HandlerStep, HandleStep, Enqueue;
    var task := s.uni.task;
    if task.held.Some? {
      step := UniSend;
      var after := Enqueue(WithUni(s, task.Sent()), Tagged(Uni, task.held.value));
      t := if task.Sent().fate == Running then after else LessSender(after);
    } else {
      step := UniPull;
      var p := Pull(c, s.uni.flatten);
      t := if p.item.Some? then s.(uni := UniTask(task.Holding(p.item.value), p.next))
           else LessSender(WithUni(s, task.Ended()));
    }
    assert UniStep(c, s, t, step);
  }

  lemma RunningHandlerMoves(c: Codec, s: Conn, i: nat) returns (step: Step, t: Conn)
    requires BiLive(s) && i < |s.handlers| && s.handlers[i].task.fate == Running && HasRoom(s)
    ensures BringsOn(step) && Next(c, s, t, step)
  {
    hide Parse, BiListenerStep, UniStep, HandleStep, Enqueue, Handler.AfterRead;
    var h := s.handlers[i];
    if h.task.held.Some? {
      step := BiSend(i);
      t := Enqueue(WithHandler(s, i, h.(task := h.task.Sent())), Tagged(Bi(i), h.task.held.value));
    } else {
      step := BiRead(i, DialTimedOut);
      t := WithHandler(s, i, h.AfterRead(Parse(c, h.left), DialTimedOut, s.peer));
    }
    assert HandlerStep(c, s, t, step);
  }

  lemma BiListenerMoves(c: Codec, s: Conn) returns (step: Step, t: Conn)
    requires BiLive(s) && forall i :: 0 <= i < |s.handlers| ==> s.handlers[i].task.fate != Running
    ensures BringsOn(step) && Next(c, s, t, step)
  {
    hide UniStep, HandlerStep, HandleStep, StopAll;
    if s.phase.Draining? {
      step, t := BiDrained, LessSender(s.(phase := BiDone));
    } else {
      step := BiAccept;
      t := if s.accepts == [] then s.(phase := Draining)
           else match s.accepts[0]
                case Accepted(stream) =>
                  s.(accepts := s.accepts[1..],
                     handlers := s.handlers + [Handler(NewTask, stream, stream, [])])
                case AcceptFailed(e) =>
                  if FromQuinn(e).IsBenign() then s.(phase := Draining)
                  else LessSender(s.(phase := BiFailed, handlers := StopAll(s.handlers)));
    }
    assert BiListenerStep(s, t, step);
  }

  lemma ReceiveMoves(c: Codec, s: Conn) returns (t: Conn)
    requires s.incoming && s.queue != []
    ensures Next(c, s, t, Receive)
  {
    hide UniStep, BiListenerStep, HandlerStep;
    t := s.(queue := s.queue[1..], delivered := s.delivered + [s.queue[0]]);
  }

  lemma NothingMoreMoves(c: Codec, s: Conn) returns (t: Conn)
    requires Inv(c, s) && s.incoming && s.queue == [] && s.uni.task.fate != Running && !BiLive(s)
    ensures Next(c, s, t, ReceiveNone)
  {
    hide UniStep, BiListenerStep, HandlerStep, ChannelInv, UniInv, BiInv;
    t := s.(ended := true);
  }

  /** As long as the application keeps its receiving half, there is always something to take, something
      to be done, or nothing more. */
  lemma SomethingMoves(c: Codec, s: Conn) returns (step: Step, t: Conn)
    requires Inv(c, s) && s.incoming
    ensures step == ReceiveNone || BringsOn(step)
    ensures Next(c, s, t, step)
  {
    hide Inv, Next;
    if s.queue != [] {
      step := Receive;
      t := ReceiveMoves(c, s);
    } else if s.uni.task.fate == Running {
      step, t := UniMoves(c, s);
    } else if !BiLive(s) {
      step := ReceiveNone;
      t := NothingMoreMoves(c, s);
    } else if i :| 0 <= i < |s.handlers| && s.handlers[i].task.fate == Running {
      step, t := RunningHandlerMoves(c, s, i);
    } else {
      step, t := BiListenerMoves(c, s);
    }
  }

  /** An application that keeps receiving gets everything. In a run of any interleaving that keeps the
      receiving half: the run is bounded by its input, and it can come to rest only when the application
      has every item of every stream, up to a loss of the connection. */
  lemma ReceivingGetsEverything(c: Codec, run: seq<Conn>, steps: seq<Step>)
    requires IsRun(c, run, steps) && run[|steps|].incoming
    requires forall j :: 0 <= j < |steps| ==> UsesUp(steps[j])
    ensures |steps| <= Work(run[0])
    ensures || HasEverything(c, run[0].uniInput, run[0].biInput, run[|steps|])
            || exists step, t :: BringsOn(step) && Next(c, run[|steps|], t, step)
  {
    hide Next, Init, Inv, Work, UsesUp, BringsOn, HasEverything;
    RunsComeToRest(c, run, steps, |steps|);
    RunsKeepInv(c, run, steps, |steps|);
    var step, t := SomethingMoves(c, run[|steps|]);
    if step == ReceiveNone {
      var run', steps' := run + [t], steps + [ReceiveNone];
      forall i | 0 <= i < |steps'|
        ensures Next(c, run'[i], run'[i + 1], steps'[i])
      {
        if i < |steps| {
          assert Next(c, run[i], run[i + 1], steps[i]);
        }
      }
      NothingMoreMeansEverythingDelivered(c, run', steps', |steps|);
    }
  }

  // ----- what has been answered stays answered ------------------------------------------------

  ghost predicate ServedGrows(s: Conn, t: Conn) {
    && |s.handlers| <= |t.handlers|
    && (forall i :: 0 <= i < |s.handlers| ==> s.handlers[i].served <= t.handlers[i].served)
    && t.uniInput == s.uniInput && t.biInput == s.biInput && t.peer == s.peer
  }

  lemma ServedGrowsUni(c: Codec, s: Conn, t: Conn, step: Step)
    requires UniStep(c, s, t, step)
    ensures ServedGrows(s, t)
  {
    hide Pull, IsLossItem, Task.Stopped, Task.Sent, Task.Holding;
  }

  lemma ServedGrowsHandler(c: Codec, s: Conn, t: Conn, step: Step)
    requires HandlerStep(c, s, t, step)
    ensures ServedGrows(s, t)
  {
    hide Parse, IsLossItem, Task.Stopped, Task.Sent, Task.Holding;
  }

  lemma AnswersStay(c: Codec, s: Conn, t: Conn, step: Step)
    requires Next(c, s, t, step)
    ensures ServedGrows(s, t)
  {
    hide UniStep, HandlerStep, Task.Stopped;
    if UniStep(c, s, t, step) {
      ServedGrowsUni(c, s, t, step);
    } else if HandlerStep(c, s, t, step) {
      ServedGrowsHandler(c, s, t, step);
    }
  }
}
