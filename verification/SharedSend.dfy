/** The send half of a bi-stream, shared under a mutex by the handler of the stream and any number
    of writers in the application. A frame goes out in two writes, header then body, and each of these in
    pieces of any size; between any two pieces any other writer may run, or the writer be dropped: the
    handler with the listener, a writer of the application with its future. */
module SharedSend {
  import opened Types
  import opened Wire
  import opened WireProofs

  /** A message somebody set out to write, in which turn of the lock (counted from one) and by whom;
      and how many bytes of its frame went out before its writer was dropped, if it was. */
  datatype Entry = Entry(turn: nat, writer: nat, msg: WireMsg, cut: Option<nat>)

  /** The mutex: free, or held by a writer with these bytes of its current message still to go. */
  datatype Mutex = Free | Held(holder: nat, header: seq<Byte>, body: seq<Byte>)

  datatype State = State(
    mutex: Mutex,
    turns: seq<nat>,      // who got the lock, in order
    log: seq<Entry>,      // the messages started, in order
    written: seq<Byte>,   // the bytes given to the transport
    failed: bool)         // a write failed: the stream takes nothing more

  datatype Step =
    | Acquire(writer: nat)
    | Start(msg: WireMsg)
    | WritePiece(n: nat)
    | WriteFails(n: nat)
    | Release
    | Cancel              // the holder is dropped, and the lock with it

  ghost predicate Init(s: State) {
    s == State(Free, [], [], [], false)
  }

  /** The holder is between two messages. */
  predicate Idle(s: State) {
    s.mutex.Held? && s.mutex.header == [] && s.mutex.body == []
  }

  ghost predicate Next(c: Codec, s: State, t: State, step: Step) {
    match step
    case Acquire(writer) =>
      && s.mutex.Free?
      && t == s.(mutex := Held(writer, [], []), turns := s.turns + [writer])
    case Start(m) =>
      && Idle(s)
      && (match Frame(c, m)
          case Err(_) => t == s
          case Ok(f) =>
            if s.failed then t == s
            else
              var header := MsgHeader.New(Body(c, m), Flag(m)).value.ToBytes();
              t == s.(mutex := Held(s.mutex.holder, header, Body(c, m)),
                      log := s.log + [Entry(|s.turns|, s.mutex.holder, m, None)]))
    case WritePiece(n) =>
      && s.mutex.Held?
      && !s.failed
      && (if s.mutex.header != [] then
            && 0 < n <= |s.mutex.header|
            && t == s.(written := s.written + s.mutex.header[..n],
                       mutex := s.mutex.(header := s.mutex.header[n..]))
          else
            && 0 < n <= |s.mutex.body|
            && t == s.(written := s.written + s.mutex.body[..n],
                       mutex := s.mutex.(body := s.mutex.body[n..])))
    case WriteFails(n) =>
      && s.mutex.Held?
      && !Idle(s)
      && !s.failed
      && n <= |s.mutex.header + s.mutex.body|
      && t == s.(failed := true, mutex := Held(s.mutex.holder, [], []),
                 written := s.written + (s.mutex.header + s.mutex.body)[..n])
    case Release =>
      && Idle(s)
      && t == s.(mutex := Free)
    case Cancel =>
      && s.mutex.Held?
      && (if Idle(s) then t == s.(mutex := Free)
          else s.log != [] && t == s.(mutex := Free, log := CutLast(c, s.log, |InFlight(s)|)))
  }

  /** The last message started stays without the last `n` bytes of its frame. */
  function CutLast(c: Codec, log: seq<Entry>, n: nat): seq<Entry>
    requires log != []
  {
    var last := |log| - 1;
    var size := match Frame(c, log[last].msg) case Ok(f) => |f| case Err(_) => 0;
    log[last := log[last].(cut := Some(if n <= size then size - n else 0))]
  }

  ghost predicate IsRun(c: Codec, run: seq<State>, steps: seq<Step>) {
    && |run| == |steps| + 1
    && Init(run[0])
    && forall i :: 0 <= i < |steps| ==> Next(c, run[i], run[i + 1], steps[i])
  }

  function Messages(log: seq<Entry>): (ms: seq<WireMsg>)
    ensures |ms| == |log|
    ensures forall i :: 0 <= i < |log| ==> ms[i] == log[i].msg
  {
    seq(|log|, i requires 0 <= i < |log| => log[i].msg)
  }

  function InFlight(s: State): seq<Byte> {
    if s.mutex.Held? then s.mutex.header + s.mutex.body else []
  }

  ghost predicate InLockOrder(s: State) {
    && (forall i :: 0 <= i < |s.log| ==>
          0 < s.log[i].turn <= |s.turns| && s.turns[s.log[i].turn - 1] == s.log[i].writer)
    && (forall i, j :: 0 <= i < j < |s.log| ==> s.log[i].turn <= s.log[j].turn)
    && (s.mutex.Held? ==> |s.turns| > 0 && s.turns[|s.turns| - 1] == s.mutex.holder)
  }

  // ----- what the stream holds ----------------------------------------------------------------

  predicate Proper(c: Codec, e: Entry) {
    && Writable(c, e.msg)
    && (e.cut.Some? ==> e.cut.value < |Frame(c, e.msg).value|)
  }

  /** What a message leaves on the stream: its frame, or the part that went out. */
  function Piece(c: Codec, e: Entry): seq<Byte>
    requires Proper(c, e)
  {
    var f := Frame(c, e.msg).value;
    if e.cut.Some? then f[..e.cut.value] else f
  }

  ghost predicate AllProper(c: Codec, log: seq<Entry>) {
    forall i :: 0 <= i < |log| ==> Proper(c, log[i])
  }

  ghost function Pieces(c: Codec, log: seq<Entry>): seq<Byte>
    requires AllProper(c, log)
  {
    if log == [] then []
    else Pieces(c, log[..|log| - 1]) + Piece(c, log[|log| - 1])
  }

  /** The messages whose writer was not dropped before the last byte. */
  function Kept(log: seq<Entry>): seq<WireMsg> {
    if log == [] then []
    else Kept(log[..|log| - 1]) + (if log[|log| - 1].cut.None? then [log[|log| - 1].msg] else [])
  }

  /** Part of a frame went out, and not all of it. */
  predicate IsTorn(e: Entry) {
    e.cut.Some? && e.cut.value > 0
  }

  ghost predicate Torn(log: seq<Entry>) {
    exists i :: 0 <= i < |log| && IsTorn(log[i])
  }

  /** The message in flight is the last one started, and what is left of it the end of its frame. */
  ghost predicate FlightInv(c: Codec, s: State) {
    InFlight(s) != [] ==>
      && s.log != []
      && (var e := s.log[|s.log| - 1];
          && e.cut.None? && Writable(c, e.msg)
          && |InFlight(s)| <= |Frame(c, e.msg).value|
          && InFlight(s) == Frame(c, e.msg).value[|Frame(c, e.msg).value| - |InFlight(s)|..])
  }

  ghost predicate Inv(c: Codec, s: State) {
    && InLockOrder(s)
    && AllProper(c, s.log)
    && FlightInv(c, s)
    && (if s.failed then InFlight(s) == [] && s.written <= Pieces(c, s.log)
        else s.written + InFlight(s) == Pieces(c, s.log))
  }

  lemma {:induction false} FramesSnoc(c: Codec, ms: seq<WireMsg>, m: WireMsg)
    requires AllWritable(c, ms) && Writable(c, m)
    ensures AllWritable(c, ms + [m])
    ensures Frames(c, ms + [m]) == Frames(c, ms) + Frame(c, m).value
  {
    hide Frame;
    if ms == [] {
      assert ms + [m] == [m] && [m][1..] == [];
      assert Frames(c, []) == [];
    } else {
      FramesSnoc(c, ms[1..], m);
      assert (ms + [m])[1..] == ms[1..] + [m];
    }
  }

  lemma PiecesSnoc(c: Codec, log: seq<Entry>, e: Entry)
    requires AllProper(c, log) && Proper(c, e)
    ensures AllProper(c, log + [e])
    ensures Pieces(c, log + [e]) == Pieces(c, log) + Piece(c, e)
  {
    hide Proper, Piece;
    assert (log + [e])[..|log|] == log;
  }

  lemma StepKeepsLockOrder(c: Codec, s: State, t: State, step: Step)
    requires InLockOrder(s) && Next(c, s, t, step)
    ensures InLockOrder(t)
  {
    hide Next;
    LogKeepsTurns(c, s, t, step);
    forall i | 0 <= i < |t.log|
      ensures 0 < t.log[i].turn <= |t.turns| && t.turns[t.log[i].turn - 1] == t.log[i].writer
    {
      if i < |s.log| {
        assert 0 < s.log[i].turn <= |s.turns|;
      }
    }
    forall i, j | 0 <= i < j < |t.log|
      ensures t.log[i].turn <= t.log[j].turn
    {
      if j < |s.log| {
        assert s.log[i].turn <= s.log[j].turn;
      }
    }
  }

  /** Only the end of the log is added to, and only by the holder; turns are never forgotten. */
  lemma LogKeepsTurns(c: Codec, s: State, t: State, step: Step)
    requires Next(c, s, t, step)
    ensures s.turns <= t.turns && |s.log| <= |t.log| <= |s.log| + 1
    ensures forall i :: 0 <= i < |s.log| ==> t.log[i].turn == s.log[i].turn && t.log[i].writer == s.log[i].writer
    ensures |t.log| > |s.log| ==>
              && s.mutex.Held? && t.turns == s.turns
              && t.log[|s.log|].turn == |s.turns| && t.log[|s.log|].writer == s.mutex.holder
    ensures t.mutex.Held? ==>
              || (s.mutex.Held? && t.mutex.holder == s.mutex.holder && t.turns == s.turns)
              || t.turns == s.turns + [t.mutex.holder]
  {
    hide Frame, Body, InFlight;
  }

  lemma StartSendsFrame(c: Codec, s: State, t: State, m: WireMsg)
    requires Next(c, s, t, Start(m)) && t != s
    ensures Writable(c, m) && !s.failed && !t.failed && s.mutex.Held?
    ensures InFlight(s) == [] && InFlight(t) == Frame(c, m).value
    ensures t.written == s.written
    ensures t.log == s.log + [Entry(|s.turns|, s.mutex.holder, m, None)]
  {
  }

  lemma StartKeepsInv(c: Codec, s: State, t: State, m: WireMsg)
    requires Inv(c, s) && Next(c, s, t, Start(m)) && t != s && InLockOrder(t)
    ensures Inv(c, t)
  {
    StartSendsFrame(c, s, t, m);
    hide Next, Pieces, Frame, InFlight, InLockOrder, Body;
    PiecesSnoc(c, s.log, Entry(|s.turns|, s.mutex.holder, m, None));
    assert s.written + [] == s.written;
  }

  /** What a step does to the bytes of the writer and of the stream, when it neither starts a message
      nor cuts one. */
  predicate MovesBytes(s: State, t: State) {
    && t.log == s.log
    && (!t.failed ==> !s.failed && t.written + InFlight(t) == s.written + InFlight(s))
    && (t.failed && !s.failed ==> InFlight(t) == [] && t.written <= s.written + InFlight(s))
    && (s.failed ==> t.failed && t.written == s.written && (InFlight(s) == [] ==> InFlight(t) == []))
    && |InFlight(t)| <= |InFlight(s)|
    && InFlight(t) == InFlight(s)[|InFlight(s)| - |InFlight(t)|..]
  }

  lemma PieceMovesBytes(c: Codec, s: State, t: State, n: nat)
    requires Next(c, s, t, WritePiece(n))
    ensures MovesBytes(s, t)
  {
    var header, body := s.mutex.header, s.mutex.body;
    if header != [] {
      SplitAt(s.written, header, body, n);
    } else {
      SplitAt(s.written, body, [], n);
      assert header + body == body && body + [] == body;
      assert [] + body[n..] == body[n..];
    }
  }

  lemma SplitAt<T>(w: seq<T>, a: seq<T>, b: seq<T>, n: nat)
    requires n <= |a|
    ensures w + a[..n] + (a[n..] + b) == w + (a + b)
    ensures a[n..] + b == (a + b)[n..]
  {
    assert a == a[..n] + a[n..];
  }

  /** Every step but these two only moves bytes from the writer to the stream, or drops them. */
  lemma OtherStepsMoveBytes(c: Codec, s: State, t: State, step: Step)
    requires Next(c, s, t, step) && (step.Start? ==> t == s) && (step.Cancel? ==> Idle(s))
    ensures MovesBytes(s, t)
  {
    hide Frame, Body;
    if step.WritePiece? {
      hide Next;
      PieceMovesBytes(c, s, t, step.n);
    } else if step.WriteFails? {
      assert InFlight(s)[|InFlight(s)|..] == [];
    }
  }

  lemma OtherStepsKeepInv(c: Codec, s: State, t: State, step: Step)
    requires Inv(c, s) && Next(c, s, t, step) && InLockOrder(t)
    requires (step.Start? ==> t == s) && (step.Cancel? ==> Idle(s))
    ensures Inv(c, t)
  {
    InvParts(c, s);
    hide Next, Pieces, Frame, InFlight, InLockOrder, AllProper, FlightInv, Idle;
    OtherStepsMoveBytes(c, s, t, step);
    FlightShrinks(c, s, t);
  }

  lemma FlightShrinks(c: Codec, s: State, t: State)
    requires FlightInv(c, s) && t.log == s.log && |InFlight(t)| <= |InFlight(s)|
    requires InFlight(t) == InFlight(s)[|InFlight(s)| - |InFlight(t)|..]
    ensures FlightInv(c, t)
  {
    hide Frame, InFlight;
    if InFlight(t) != [] {
      SuffixOfSuffix(Frame(c, s.log[|s.log| - 1].msg).value, InFlight(s), InFlight(t));
    }
  }

  lemma SuffixOfSuffix<T>(a: seq<T>, b: seq<T>, c: seq<T>)
    requires |c| <= |b| <= |a|
    requires b == a[|a| - |b|..] && c == b[|b| - |c|..]
    ensures c == a[|a| - |c|..]
  {
  }

  /** Dropping a writer leaves the part of its frame that went out. */
  lemma CancelCuts(c: Codec, s: State, t: State)
    requires Next(c, s, t, Cancel) && !Idle(s) && FlightInv(c, s)
    ensures InFlight(s) != [] && InFlight(t) == [] && t.written == s.written && t.failed == s.failed
    ensures var e := s.log[|s.log| - 1];
            var size := |Frame(c, e.msg).value|;
            && |InFlight(s)| <= size
            && t.log == s.log[..|s.log| - 1] + [e.(cut := Some(size - |InFlight(s)|))]
  {
    hide Frame;
  }

  lemma CancelKeepsInv(c: Codec, s: State, t: State)
    requires Inv(c, s) && Next(c, s, t, Cancel) && InLockOrder(t) && !Idle(s)
    ensures Inv(c, t)
  {
    hide *;
    InvParts(c, s);
    CancelCuts(c, s, t);
    var before, e := s.log[..|s.log| - 1], s.log[|s.log| - 1];
    InFlightEntry(c, s);
    assert s.log == before + [e];
    CutPiece(c, e, |InFlight(s)|);
    var f := Frame(c, e.msg).value;
    PiecesSnoc(c, before, e);
    PiecesSnoc(c, before, e.(cut := Some(|f| - |InFlight(s)|)));
    DropSuffix(s.written, InFlight(s), Pieces(c, before), f);
    AfterCancel(c, t);
  }

  lemma InvParts(c: Codec, s: State)
    requires Inv(c, s)
    ensures InLockOrder(s) && AllProper(c, s.log) && FlightInv(c, s)
    ensures InFlight(s) != [] ==> !s.failed && s.written + InFlight(s) == Pieces(c, s.log)
  {
  }

  lemma InFlightEntry(c: Codec, s: State)
    requires FlightInv(c, s) && AllProper(c, s.log) && InFlight(s) != []
    ensures s.log != [] && s.log[|s.log| - 1].cut.None? && Proper(c, s.log[|s.log| - 1])
    ensures AllProper(c, s.log[..|s.log| - 1])
    ensures Frame(c, s.log[|s.log| - 1].msg).Ok?
  {
    hide Frame;
  }

  lemma CutPiece(c: Codec, e: Entry, n: nat)
    requires Proper(c, e) && e.cut.None? && 0 < n <= |Frame(c, e.msg).value|
    ensures var f := Frame(c, e.msg).value;
            var cut := e.(cut := Some(|f| - n));
            && Piece(c, e) == f
            && Proper(c, cut) && Piece(c, cut) == f[..|f| - n]
  {
    hide Frame;
  }

  lemma AfterCancel(c: Codec, t: State)
    requires InLockOrder(t) && AllProper(c, t.log) && InFlight(t) == [] && t.written == Pieces(c, t.log)
    ensures Inv(c, t)
  {
    assert t.written + [] == t.written;
  }

  lemma DropSuffix<T>(written: seq<T>, left: seq<T>, before: seq<T>, f: seq<T>)
    requires written + left == before + f && |left| <= |f|
    ensures written == before + f[..|f| - |left|]
  {
    assert written == (written + left)[..|written|];
  }

  lemma StepKeepsInv(c: Codec, s: State, t: State, step: Step)
    requires Inv(c, s) && Next(c, s, t, step)
    ensures Inv(c, t)
  {
    hide Next, Inv, InLockOrder, AllProper, FlightInv, InFlight, Pieces, Idle;
    InvParts(c, s);
    StepKeepsLockOrder(c, s, t, step);
    if step.Start? && t != s {
      StartKeepsInv(c, s, t, step.msg);
    } else if step.Cancel? && !Idle(s) {
      CancelKeepsInv(c, s, t);
    } else {
      OtherStepsKeepInv(c, s, t, step);
    }
  }

  lemma InitInv(c: Codec, s: State)
    requires Init(s)
    ensures Inv(c, s)
  {
    hide Proper, Frame;
  }

  lemma {:induction false} RunsKeepInv(c: Codec, run: seq<State>, steps: seq<Step>, i: nat)
    requires IsRun(c, run, steps) && i < |run|
    ensures Inv(c, run[i])
  {
    hide Inv, Next, Init;
    if i == 0 {
      InitInv(c, run[0]);
    } else {
      RunsKeepInv(c, run, steps, i - 1);
      StepKeepsInv(c, run[i - 1], run[i], steps[i - 1]);
    }
  }

  // ----- torn frames --------------------------------------------------------------------------

  /** The step drops a writer after the first byte of its frame and before the last. */
  predicate Tears(c: Codec, s: State, step: Step) {
    && step.Cancel? && InFlight(s) != [] && s.log != []
    && (match Frame(c, s.log[|s.log| - 1].msg)
        case Ok(f) => |InFlight(s)| < |f|
        case Err(_) => false)
  }

  lemma StepTears(c: Codec, s: State, t: State, step: Step)
    requires Inv(c, s) && Next(c, s, t, step)
    ensures Torn(t.log) <==> Torn(s.log) || Tears(c, s, step)
  {
    hide InLockOrder, AllProper, Pieces;
    if step.Start? && t != s {
      StartSendsFrame(c, s, t, step.msg);
      hide Next, InFlight;
      TornSnoc(s.log, t.log[|s.log|]);
    } else if step.Cancel? && !Idle(s) {
      CancelCuts(c, s, t);
      hide Next;
      var before, e := s.log[..|s.log| - 1], s.log[|s.log| - 1];
      assert s.log == before + [e];
      TornSnoc(before, e);
      TornSnoc(before, t.log[|before|]);
    } else {
      OtherStepsMoveBytes(c, s, t, step);
      hide Next;
    }
  }

  lemma TornSnoc(log: seq<Entry>, e: Entry)
    ensures Torn(log + [e]) <==> Torn(log) || IsTorn(e)
  {
    if Torn(log) {
      var i :| 0 <= i < |log| && IsTorn(log[i]);
      assert IsTorn((log + [e])[i]);
    }
    if IsTorn(e) {
      assert IsTorn((log + [e])[|log|]);
    }
  }

  ghost predicate TornBefore(c: Codec, run: seq<State>, steps: seq<Step>, i: nat)
    requires |run| == |steps| + 1 && i < |run|
  {
    exists j :: 0 <= j < i && Tears(c, run[j], steps[j])
  }

  lemma NothingTorn(c: Codec, run: seq<State>, steps: seq<Step>)
    requires IsRun(c, run, steps)
    ensures !Torn(run[0].log) && !TornBefore(c, run, steps, 0)
  {
    hide Next, Tears;
  }

  lemma RunStep(c: Codec, run: seq<State>, steps: seq<Step>, i: nat)
    requires IsRun(c, run, steps) && i < |steps|
    ensures Next(c, run[i], run[i + 1], steps[i])
  {
    hide Next, Init;
  }

  lemma TornBeforeStep(c: Codec, run: seq<State>, steps: seq<Step>, i: nat)
    requires |run| == |steps| + 1 && i < |steps|
    ensures TornBefore(c, run, steps, i + 1) <==> TornBefore(c, run, steps, i) || Tears(c, run[i], steps[i])
  {
    hide Tears;
  }

  lemma {:induction false} TornIffTears(c: Codec, run: seq<State>, steps: seq<Step>, i: nat)
    requires IsRun(c, run, steps) && i < |run|
    ensures Torn(run[i].log) <==> TornBefore(c, run, steps, i)
  {
    assert |run| == |steps| + 1;
    hide *;
    if i == 0 {
      NothingTorn(c, run, steps);
    } else {
      RunStep(c, run, steps, i - 1);
      TornBeforeStep(c, run, steps, i - 1);
      TornIffTears(c, run, steps, i - 1);
      RunsKeepInv(c, run, steps, i - 1);
      StepTears(c, run[i - 1], run[i], steps[i - 1]);
    }
  }

  /** Without a torn frame the stream holds the frames of the messages kept; with one it holds more. */
  lemma {:induction false} PiecesAreFrames(c: Codec, log: seq<Entry>)
    requires AllProper(c, log)
    ensures AllWritable(c, Kept(log))
    ensures !Torn(log) ==> Pieces(c, log) == Frames(c, Kept(log))
    ensures Torn(log) ==> |Pieces(c, log)| > |Frames(c, Kept(log))|
    ensures |Pieces(c, log)| >= |Frames(c, Kept(log))|
  {
    if log == [] {
      assert Kept(log) == [];
    } else {
      var before, e := log[..|log| - 1], log[|log| - 1];
      assert Proper(c, e);
      assert AllProper(c, before);
      PiecesAreFrames(c, before);
      assert log == before + [e];
      TornSnoc(before, e);
      hide Frame, Frames, AllProper, Torn, AllWritable;
      if e.cut.None? {
        FramesSnoc(c, Kept(before), e.msg);
      } else {
        assert Kept(log) == Kept(before);
      }
    }
  }

  /** Frame atomicity, and its exact condition. In every interleaving the bytes sent are, in the order
      in which the writers held the lock, the frames of the messages started, each as far as it went
      out. Whenever no write has failed and none is under way, they are the whole frames of the messages
      kept, if and only if no writer was ever dropped in the middle of a frame; and then the peer reads
      exactly those messages. */
  lemma FramesNeverInterleave(c: Codec, run: seq<State>, steps: seq<Step>, i: nat)
    requires c.Valid() && IsRun(c, run, steps) && i < |run|
    ensures var s := run[i];
            var ms := Kept(s.log);
            && InLockOrder(s)
            && AllProper(c, s.log)
            && AllWritable(c, ms)
            && s.written <= Pieces(c, s.log)
            && (!TornBefore(c, run, steps, i) ==> s.written <= Frames(c, ms))
            && (!s.failed && InFlight(s) == [] ==>
                  && s.written == Pieces(c, s.log)
                  && (s.written == Frames(c, ms) <==> !TornBefore(c, run, steps, i))
                  && (!TornBefore(c, run, steps, i) ==>
                        ReadAll(c, Symbols(s.written)) == ReadbackEach(ms) + [Ok(None)]))
  {
    RunsKeepInv(c, run, steps, i);
    TornIffTears(c, run, steps, i);
    var s := run[i];
    PiecesAreFrames(c, s.log);
    hide Frames, Parse, Next, Init, Pieces, Kept, Torn, TornBefore, InLockOrder, FlightInv, AllProper, AllWritable;
    var ms := Kept(s.log);
    SequenceRoundTrip(c, ms, []);
    assert Symbols(Frames(c, ms)) + [] == Symbols(Frames(c, ms));
    assert ReadAll(c, []) == [Ok(None)];
    assert s.written + [] == s.written;
  }

  /** A tear does no harm to what came before it: the peer still reads the messages kept up to there,
      whatever follows. */
  lemma IntactUpToTheTear(c: Codec, run: seq<State>, steps: seq<Step>, i: nat, n: nat)
    requires c.Valid() && IsRun(c, run, steps) && i < |run|
    requires !run[i].failed && InFlight(run[i]) == []
    requires n <= |run[i].log| && !Torn(run[i].log[..n])
    ensures var ms := Kept(run[i].log[..n]);
            && AllWritable(c, ms)
            && Frames(c, ms) <= run[i].written
            && ReadAll(c, Symbols(run[i].written))
               == ReadbackEach(ms) + ReadAll(c, Symbols(run[i].written[|Frames(c, ms)|..]))
  {
    RunsKeepInv(c, run, steps, i);
    var s := run[i];
    var before := s.log[..n];
    assert AllProper(c, before);
    PiecesAreFrames(c, before);
    hide Frames, Parse, Next, Init, Pieces, Kept, Torn, InLockOrder, FlightInv, Proper, AllWritable;
    PiecesPrefix(c, s.log, n);
    assert s.written + [] == s.written;
    var f := Frames(c, Kept(before));
    SymbolsSplit(f, s.written);
    SequenceRoundTrip(c, Kept(before), Symbols(s.written[|f|..]));
  }

  lemma SymbolsSplit(a: seq<Byte>, b: seq<Byte>)
    requires a <= b
    ensures Symbols(b) == Symbols(a) + Symbols(b[|a|..])
  {
  }

  lemma {:induction false} PiecesPrefix(c: Codec, log: seq<Entry>, n: nat)
    requires AllProper(c, log) && n <= |log|
    ensures AllProper(c, log[..n]) && Pieces(c, log[..n]) <= Pieces(c, log)
  {
    hide Proper, Piece;
    if n < |log| {
      var before := log[..|log| - 1];
      PiecesPrefix(c, before, n);
      assert before[..n] == log[..n];
    } else {
      assert log[..n] == log;
    }
  }

  /** A torn frame can make a message that nobody sent: a writer is dropped between the header and the
      body of its frame, and the next frame fills the gap. The peer reads one message, the bytes of that
      frame. */
  lemma TornFrameSwallowsNext(c: Codec, a: seq<Byte>, b: seq<Byte>) returns (run: seq<State>, steps: seq<Step>)
    requires c.Valid() && |a| == MSG_HEADER_LEN + |b| <= U32_MAX && b != []
    ensures IsRun(c, run, steps)
    ensures var s := run[|steps|];
            && !s.failed && s.mutex.Free?
            && Kept(s.log) == [UserMsg(b)]
            && Frame(c, UserMsg(b)).Ok?
            && ReadAll(c, Symbols(s.written)) == [Ok(Some(UserMsg(Frame(c, UserMsg(b)).value))), Ok(None)]
  {
    var ha, hb := UserHeader(c, a), UserHeader(c, b);
    var ea, eb := Entry(1, 0, UserMsg(a), None), Entry(2, 1, UserMsg(b), None);
    var cut := ea.(cut := Some(MSG_HEADER_LEN));
    var s1 := State(Held(0, [], []), [0], [], [], false);
    var s2 := State(Held(0, ha, a), [0], [ea], [], false);
    var s3 := State(Held(0, [], a), [0], [ea], ha, false);
    var s4 := State(Free, [0], [cut], ha, false);
    var s5 := State(Held(1, [], []), [0, 1], [cut], ha, false);
    var s6 := State(Held(1, hb, b), [0, 1], [cut, eb], ha, false);
    var s7 := State(Held(1, [], b), [0, 1], [cut, eb], ha + hb, false);
    var s8 := State(Held(1, [], []), [0, 1], [cut, eb], ha + hb + b, false);
    var s9 := s8.(mutex := Free);
    TornSteps(c, a, s1, s2, s3, s4);
    NextSteps(c, b, s5, s6, s7, s8);
    KeptPair(cut, eb);
    hide *;
    run, steps := EmptyRun(c);
    LockStep(c, run[0], s1, 0);
    run, steps := Grow(c, run, steps, s1, Acquire(0));
    run, steps := Grow(c, run, steps, s2, Start(UserMsg(a)));
    run, steps := Grow(c, run, steps, s3, WritePiece(MSG_HEADER_LEN));
    run, steps := Grow(c, run, steps, s4, Cancel);
    LockStep(c, s4, s5, 1);
    run, steps := Grow(c, run, steps, s5, Acquire(1));
    run, steps := Grow(c, run, steps, s6, Start(UserMsg(b)));
    run, steps := Grow(c, run, steps, s7, WritePiece(MSG_HEADER_LEN));
    run, steps := Grow(c, run, steps, s8, WritePiece(|b|));
    ReleaseStep(c, s8, s9);
    run, steps := Grow(c, run, steps, s9, Release);
    TornReading(c, a, b);
  }

  lemma EmptyRun(c: Codec) returns (run: seq<State>, steps: seq<Step>)
    ensures IsRun(c, run, steps) && run == [State(Free, [], [], [], false)] && steps == []
  {
    run, steps := [State(Free, [], [], [], false)], [];
  }

  lemma Grow(c: Codec, run: seq<State>, steps: seq<Step>, t: State, step: Step)
    returns (run': seq<State>, steps': seq<Step>)
    requires IsRun(c, run, steps) && run != [] && Next(c, run[|run| - 1], t, step)
    ensures IsRun(c, run', steps') && |run'| == |steps'| + 1 && run'[|run'| - 1] == t
  {
    hide Next;
    run', steps' := run + [t], steps + [step];
    forall i | 0 <= i < |steps'|
      ensures Next(c, run'[i], run'[i + 1], steps'[i])
    {
      if i < |steps| {
        assert run'[i] == run[i] && run'[i + 1] == run[i + 1];
      }
    }
  }

  lemma LockStep(c: Codec, s: State, t: State, writer: nat)
    requires s.mutex.Free? && t == s.(mutex := Held(writer, [], []), turns := s.turns + [writer])
    ensures Next(c, s, t, Acquire(writer))
  {
  }

  lemma ReleaseStep(c: Codec, s: State, t: State)
    requires s.mutex.Held? && s.mutex.header == [] && s.mutex.body == [] && t == s.(mutex := Free)
    ensures Next(c, s, t, Release)
  {
  }

  lemma KeptPair(x: Entry, y: Entry)
    requires x.cut.Some? && y.cut.None?
    ensures Kept([x, y]) == [y.msg]
  {
    assert [x, y][..1] == [x] && [x][..0] == [];
    assert Kept([x]) == [];
  }

  function UserHeader(c: Codec, m: seq<Byte>): (h: seq<Byte>)
    requires |m| <= U32_MAX
    ensures |h| == MSG_HEADER_LEN
  {
    MsgHeader.New(m, Flag(UserMsg(m))).value.ToBytes()
  }

  lemma UserFrame(c: Codec, m: seq<Byte>)
    requires |m| <= U32_MAX
    ensures Frame(c, UserMsg(m)) == Ok(UserHeader(c, m) + m)
    ensures Body(c, UserMsg(m)) == m
  {
  }

  lemma TornSteps(c: Codec, a: seq<Byte>, s1: State, s2: State, s3: State, s4: State)
    requires |a| <= U32_MAX && a != []
    requires s1 == State(Held(0, [], []), [0], [], [], false)
    requires s2 == State(Held(0, UserHeader(c, a), a), [0], [Entry(1, 0, UserMsg(a), None)], [], false)
    requires s3 == s2.(mutex := Held(0, [], a), written := UserHeader(c, a))
    requires s4 == s3.(mutex := Free, log := [Entry(1, 0, UserMsg(a), Some(MSG_HEADER_LEN))])
    ensures Next(c, s1, s2, Start(UserMsg(a)))
    ensures Next(c, s2, s3, WritePiece(MSG_HEADER_LEN))
    ensures Next(c, s3, s4, Cancel)
  {
    UserFrame(c, a);
    hide Frame;
    var h := UserHeader(c, a);
    assert h[..|h|] == h && h[|h|..] == [] && [] + h == h;
    assert [] + a == a;
    assert CutLast(c, s3.log, |a|) == s4.log;
  }

  lemma NextSteps(c: Codec, b: seq<Byte>, s5: State, s6: State, s7: State, s8: State)
    requires |b| <= U32_MAX && b != []
    requires s5.mutex == Held(1, [], []) && !s5.failed && |s5.turns| == 2
    requires s6 == s5.(mutex := Held(1, UserHeader(c, b), b), log := s5.log + [Entry(2, 1, UserMsg(b), None)])
    requires s7 == s6.(mutex := Held(1, [], b), written := s6.written + UserHeader(c, b))
    requires s8 == s7.(mutex := Held(1, [], []), written := s7.written + b)
    ensures Next(c, s5, s6, Start(UserMsg(b)))
    ensures Next(c, s6, s7, WritePiece(MSG_HEADER_LEN))
    ensures Next(c, s7, s8, WritePiece(|b|))
  {
    UserFrame(c, b);
    hide Frame;
    var h := UserHeader(c, b);
    assert h[..|h|] == h && h[|h|..] == [];
    assert b[..|b|] == b && b[|b|..] == [];
  }

  /** A header tells nothing of a message but its length, so the bytes are a frame. */
  lemma TornReading(c: Codec, a: seq<Byte>, b: seq<Byte>)
    requires c.Valid() && |a| == MSG_HEADER_LEN + |b| <= U32_MAX && b != []
    ensures Frame(c, UserMsg(b)).Ok?
    ensures ReadAll(c, Symbols(UserHeader(c, a) + UserHeader(c, b) + b))
            == [Ok(Some(UserMsg(Frame(c, UserMsg(b)).value))), Ok(None)]
  {
    UserFrame(c, b);
    var f := Frame(c, UserMsg(b)).value;
    UserFrame(c, f);
    var m := UserMsg(f);
    var written := UserHeader(c, a) + UserHeader(c, b) + b;
    assert written == Frame(c, m).value by {
      assert UserHeader(c, f) == UserHeader(c, a);
      Assoc(UserHeader(c, a), UserHeader(c, b), b);
    }
    hide Frame, Parse, UserHeader;
    FrameRoundTrip(c, m, []);
    assert Symbols(written) + [] == Symbols(written);
    assert ReadAll(c, []) == [Ok(None)];
  }
}
