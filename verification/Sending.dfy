/** `send_uni` and `send_with` of `src/connection.rs`: a message on a uni-stream of its own, retried
    on a new stream when an attempt fails, and what the listener at the other end makes of the
    streams. */
module Sending {
  import opened Types
  import opened Errors
  import opened Wire
  import opened WireProofs
  import opened Streams
  import opened Listening

  /** What the transport does with one attempt: it may refuse to open a stream, take only
      part of the bytes, or fail to finish the stream. */
  datatype Attempt =
    | OpenFails(error: ConnectionError)
    | Opens(credit: Option<nat>, writeFailure: WriteError, finish: Result<(), WriteError>)

  /** The attempts of one call: the result, and the bytes written on each stream opened. */
  datatype Sent = Sent(result: Result<(), SendError>, streams: seq<seq<Byte>>)

  /** The result of one attempt. A stream the peer has stopped counts as finished. */
  function AttemptResult(c: Codec, msg: seq<Byte>, a: Attempt): Result<(), SendError> {
    match a
    case OpenFails(e) => Err(SendConnectionLost(e))
    case Opens(credit, failure, finish) =>
      match Frame(c, UserMsg(msg))
      case Err(e) => Err(e)
      case Ok(f) =>
        if Taken(f, credit) != f then Err(FromWrite(failure))
        else if finish.Ok? || finish.error.WriteStopped? then Ok(())
        else Err(FromWrite(finish.error))
  }

  function AttemptStreams(c: Codec, msg: seq<Byte>, a: Attempt): seq<seq<Byte>> {
    match a
    case OpenFails(_) => []
    case Opens(credit, _, _) =>
      match Frame(c, UserMsg(msg))
      case Err(_) => [[]]
      case Ok(f) => [Taken(f, credit)]
  }

  /** What one attempt comes to. A message that is too long is refused, though its stream is opened; a
      stream that takes only part of the frame keeps that part; and once the whole frame is written, the
      attempt succeeds if and only if the stream finishes or was stopped by the peer. */
  lemma AttemptMeaning(c: Codec, msg: seq<Byte>, a: Attempt)
    ensures var r, streams := AttemptResult(c, msg, a), AttemptStreams(c, msg, a);
            match a
            case OpenFails(e) => r == Err(SendConnectionLost(e)) && streams == []
            case Opens(credit, failure, finish) =>
              if |msg| > 4_294_967_295 then
                r == Err(SendSerialization(TooLong(|msg|))) && streams == [[]]
              else
                && Frame(c, UserMsg(msg)).Ok?
                && (var f := Frame(c, UserMsg(msg)).value;
                    if credit.Some? && credit.value < |f| then
                      r == Err(FromWrite(failure)) && streams == [f[..credit.value]]
                    else
                      && streams == [f]
                      && (r.Ok? <==> finish.Ok? || finish.error.WriteStopped?)
                      && (r.Err? ==> r.error == FromWrite(finish.error)))
  {
    FrameBytes(c, UserMsg(msg));
    hide Frame;
  }

  method SendUni(c: Codec, msg: seq<Byte>, a: Attempt) returns (sent: Sent)
    ensures sent == Sent(AttemptResult(c, msg, a), AttemptStreams(c, msg, a))
  {
    match a {
      case OpenFails(e) =>
        return Sent(Err(SendConnectionLost(e)), []);
      case Opens(credit, failure, finish) =>
        var stream := new SendStream(credit, failure);
        var r := WriteToStream(c, UserMsg(msg), stream);
        if Frame(c, UserMsg(msg)).Ok? {
          assert stream.written == Taken(Frame(c, UserMsg(msg)).value, credit);
        }
        if r.Err? {
          return Sent(r, [stream.written]);
        }
        if finish.Err? {
          match FromWrite(finish.error) {
            case SendStreamLost(StreamStopped(_)) =>
            case error => return Sent(Err(error), [stream.written]);
          }
        }
        return Sent(Ok(()), [stream.written]);
    }
  }

  predicate IsPermanent(r: Result<(), SendError>) {
    r.Err? && r.error.SendConnectionLost?
  }

  /** Attempt after attempt until one succeeds, one fails for good, or the budget runs out. */
  function SentBy(c: Codec, msg: seq<Byte>, budget: seq<Attempt>): Sent
    requires budget != []
  {
    var r, streams := AttemptResult(c, msg, budget[0]), AttemptStreams(c, msg, budget[0]);
    if r.Ok? || IsPermanent(r) || |budget| == 1 then Sent(r, streams)
    else
      var later := SentBy(c, msg, budget[1..]);
      Sent(later.result, streams + later.streams)
  }

  lemma SentByStep(c: Codec, msg: seq<Byte>, budget: seq<Attempt>)
    requires budget != []
    ensures var r, streams := AttemptResult(c, msg, budget[0]), AttemptStreams(c, msg, budget[0]);
            if r.Ok? || IsPermanent(r) || |budget| == 1 then
              SentBy(c, msg, budget) == Sent(r, streams)
            else
              var later := SentBy(c, msg, budget[1..]);
              SentBy(c, msg, budget) == Sent(later.result, streams + later.streams)
  {
  }

  function StreamsOf(c: Codec, msg: seq<Byte>, attempts: seq<Attempt>): seq<seq<Byte>> {
    if attempts == [] then []
    else AttemptStreams(c, msg, attempts[0]) + StreamsOf(c, msg, attempts[1..])
  }

  /** The call made the first `n` of the attempts allowed: every one but the last failed with something
      else than the loss of the connection, and the last was the last allowed, succeeded, or lost the
      connection. Its result is that of the last, its streams are those of all. */
  ghost predicate MadeAttempts(c: Codec, msg: seq<Byte>, allowed: seq<Attempt>, sent: Sent, n: nat) {
    && 0 < n <= |allowed|
    && sent.result == AttemptResult(c, msg, allowed[n - 1])
    && sent.streams == StreamsOf(c, msg, allowed[..n])
    && (forall i :: 0 <= i < n - 1 ==>
          && AttemptResult(c, msg, allowed[i]).Err?
          && !AttemptResult(c, msg, allowed[i]).error.SendConnectionLost?)
    && (|| n == |allowed|
        || sent.result.Ok?
        || sent.result.error.SendConnectionLost?)
  }

  lemma MadeAtMost(c: Codec, msg: seq<Byte>, allowed: seq<Attempt>, sent: Sent, n: nat)
    requires MadeAttempts(c, msg, allowed, sent, n)
    ensures 0 < n <= |allowed|
  {
  }

  lemma {:induction false} SentByMeans(c: Codec, msg: seq<Byte>, budget: seq<Attempt>) returns (n: nat)
    requires budget != []
    ensures MadeAttempts(c, msg, budget, SentBy(c, msg, budget), n)
  {
    hide AttemptResult, AttemptStreams;
    var r := AttemptResult(c, msg, budget[0]);
    if r.Ok? || r.error.SendConnectionLost? || |budget| == 1 {
      n := 1;
      var streams := AttemptStreams(c, msg, budget[0]);
      assert budget[..1][1..] == [];
      assert streams + [] == streams;
      assert StreamsOf(c, msg, []) == [];
    } else {
      var k := SentByMeans(c, msg, budget[1..]);
      n := k + 1;
      assert budget[..n][0] == budget[0] && budget[..n][1..] == budget[1..][..k];
      assert budget[n - 1] == budget[1..][k - 1];
      forall i | 0 <= i < n - 1
        ensures AttemptResult(c, msg, budget[i]).Err?
        ensures !AttemptResult(c, msg, budget[i]).error.SendConnectionLost?
      {
        if i > 0 {
          assert budget[i] == budget[1..][i - 1];
        }
      }
    }
  }

  /** `budget` holds the attempts the retry configuration has time for; without such a
      configuration only the first is made. */
  method SendWith(c: Codec, msg: seq<Byte>, retry: bool, budget: seq<Attempt>) returns (sent: Sent)
    requires budget != []
    ensures retry ==> exists n :: MadeAttempts(c, msg, budget, sent, n)
    ensures !retry ==> MadeAttempts(c, msg, budget[..1], sent, 1)
    ensures sent == SentBy(c, msg, if retry then budget else budget[..1])
    ensures IsSendTrace(c, msg, sent)
  {
    hide AttemptResult, AttemptStreams, Frame, IsSendTrace, SentBy, MadeAttempts;
    ghost var allowed := if retry then budget else budget[..1];
    ghost var n := SentByMeans(c, msg, allowed);
    assert !retry ==> n == 1 by {
      MadeAtMost(c, msg, allowed, SentBy(c, msg, allowed), n);
    }
    SentIsTrace(c, msg, allowed);
    SentByStep(c, msg, allowed);
    sent := SendUni(c, msg, budget[0]);
    if retry {
      var i := 1;
      while i < |budget| && sent.result.Err? && !IsPermanent(sent.result)
        invariant 1 <= i <= |budget|
        invariant SentBy(c, msg, budget)
                  == (if sent.result.Ok? || IsPermanent(sent.result) || i == |budget| then sent
                      else
                        var later := SentBy(c, msg, budget[i..]);
                        Sent(later.result, sent.streams + later.streams))
        decreases |budget| - i
      {
        SentByStep(c, msg, budget[i..]);
        assert budget[i..][1..] == budget[i + 1..];
        var next := SendUni(c, msg, budget[i]);
        sent := Sent(next.result, sent.streams + next.streams);
        i := i + 1;
      }
    }
  }

  // ----- what a call leaves on its streams ----------------------------------------------------

  /** Each stream holds a prefix of the message's frame; on success the last holds all of it. For a
      message that cannot be framed no stream holds a byte and there is no success. */
  predicate IsSendTrace(c: Codec, msg: seq<Byte>, sent: Sent) {
    match Frame(c, UserMsg(msg))
    case Err(_) =>
      && sent.result.Err?
      && forall i :: 0 <= i < |sent.streams| ==> sent.streams[i] == []
    case Ok(f) =>
      && (forall i :: 0 <= i < |sent.streams| ==> sent.streams[i] <= f)
      && (sent.result.Ok? ==> sent.streams != [] && sent.streams[|sent.streams| - 1] == f)
  }

  lemma {:induction false} SentIsTrace(c: Codec, msg: seq<Byte>, budget: seq<Attempt>)
    requires budget != []
    ensures IsSendTrace(c, msg, SentBy(c, msg, budget))
    decreases |budget|
  {
    hide Frame;
    var r := AttemptResult(c, msg, budget[0]);
    if !(r.Ok? || IsPermanent(r) || |budget| == 1) {
      SentIsTrace(c, msg, budget[1..]);
    }
  }

  /** Oversized messages write nothing, however often they are retried, and never succeed. */
  lemma OversizedWritesNothing(c: Codec, msg: seq<Byte>, budget: seq<Attempt>)
    requires |msg| > U32_MAX && budget != []
    ensures var sent := SentBy(c, msg, budget);
            && sent.result.Err?
            && forall i :: 0 <= i < |sent.streams| ==> sent.streams[i] == []
  {
    SentIsTrace(c, msg, budget);
  }

  // ----- what the peer makes of it ------------------------------------------------------------

  /** How the peer sees a stream: the first `arrived` bytes, then the FIN or a fault. */
  datatype View = View(stream: nat, arrived: nat, tail: seq<Sym>)

  predicate IsView(v: View, streams: seq<seq<Byte>>) {
    && v.stream < |streams|
    && v.arrived <= |streams[v.stream]|
    && (v.tail == [] || v.tail[0].Fault?)
  }

  function Seen(v: View, streams: seq<seq<Byte>>): seq<Sym>
    requires IsView(v, streams)
  {
    Symbols(streams[v.stream][..v.arrived]) + v.tail
  }

  function UserMessages(items: seq<Item>): seq<seq<Byte>> {
    if items == [] then []
    else (if items[0].Ok? then [items[0].value] else []) + UserMessages(items[1..])
  }

  lemma {:induction false} UserMessagesConcat(a: seq<Item>, b: seq<Item>)
    ensures UserMessages(a + b) == UserMessages(a) + UserMessages(b)
  {
    if a == [] {
      assert a + b == b;
    } else {
      UserMessagesConcat(a[1..], b);
      ConcatParts(a, b);
      Assoc(if a[0].Ok? then [a[0].value] else [], UserMessages(a[1..]), UserMessages(b));
    }
  }

  lemma NoMessageAtEnd(c: Codec, tail: seq<Sym>)
    requires tail == [] || tail[0].Fault?
    ensures UserMessages(StreamItems(c, tail)) == []
  {
    if StreamItems(c, tail) != [] {
      assert StreamItems(c, tail)[1..] == [];
    }
  }

  lemma OneError(c: Codec, s: seq<Sym>, e: RecvError)
    requires Parse(c, s).result == Err(e)
    ensures StreamItems(c, s) == [Err(e)]
    ensures UserMessages(StreamItems(c, s)) == []
  {
    hide Parse;
    assert StreamItems(c, s)[1..] == [];
  }

  lemma WholeFrameYieldsMessage(c: Codec, msg: seq<Byte>, tail: seq<Sym>)
    requires c.Valid() && Writable(c, UserMsg(msg)) && (tail == [] || tail[0].Fault?)
    ensures UserMessages(StreamItems(c, Symbols(Frame(c, UserMsg(msg)).value) + tail))
            == if msg != [] then [msg] else []
  {
    hide Parse, Frame;
    var s := Symbols(Frame(c, UserMsg(msg)).value) + tail;
    FrameRoundTrip(c, UserMsg(msg), tail);
    if msg == [] {
      OneError(c, s, RecvSerialization(EmptyMessage));
    } else {
      NoMessageAtEnd(c, tail);
      assert StreamItems(c, s)[1..] == StreamItems(c, tail);
    }
  }

  /** An attempt's stream yields the message when the whole frame arrived and the message is not
      empty, and otherwise no message at all. */
  lemma StreamYieldsMessageOrNothing(c: Codec, msg: seq<Byte>, k: nat, tail: seq<Sym>)
    requires c.Valid() && Writable(c, UserMsg(msg)) && k <= |Frame(c, UserMsg(msg)).value|
    requires tail == [] || tail[0].Fault?
    ensures var f := Frame(c, UserMsg(msg)).value;
            UserMessages(StreamItems(c, Symbols(f[..k]) + tail))
            == if k == |f| && msg != [] then [msg] else []
  {
    var f := Frame(c, UserMsg(msg)).value;
    var s := Symbols(f[..k]) + tail;
    FrameHeader(c, UserMsg(msg));
    hide Parse, Frame, StreamItems, UserMessages, Body;
    if k == 0 {
      assert s == tail;
      NoMessageAtEnd(c, tail);
    } else if k < |f| {
      TruncatedFrameIsError(c, UserMsg(msg), k, tail);
      OneError(c, s, Parse(c, s).result.error);
    } else {
      assert f[..k] == f;
      WholeFrameYieldsMessage(c, msg, tail);
    }
  }

  /** The stream carries a message the peer will accept, and all of it arrived. */
  predicate FullyArrived(c: Codec, msg: seq<Byte>, v: View) {
    msg != [] && Frame(c, UserMsg(msg)).Ok? && v.arrived == |Frame(c, UserMsg(msg)).value|
  }

  function CountArrived(c: Codec, msg: seq<Byte>, views: seq<View>): nat {
    if views == [] then 0
    else (if FullyArrived(c, msg, views[0]) then 1 else 0) + CountArrived(c, msg, views[1..])
  }

  /** Every view is of another stream. */
  ghost predicate Distinct(views: seq<View>) {
    forall i, j :: 0 <= i < j < |views| ==> views[i].stream != views[j].stream
  }

  /** The streams that arrived in full, by their number in the call. */
  function ArrivedStreams(c: Codec, msg: seq<Byte>, views: seq<View>): (r: seq<nat>)
    ensures |r| == CountArrived(c, msg, views)
  {
    if views == [] then []
    else (if FullyArrived(c, msg, views[0]) then [views[0].stream] else []) + ArrivedStreams(c, msg, views[1..])
  }

  ghost predicate Different(s: seq<nat>) {
    forall i, j :: 0 <= i < j < |s| ==> s[i] != s[j]
  }

  lemma {:induction false} DifferentAndSmall(s: seq<nat>, n: nat)
    requires Different(s) && forall i :: 0 <= i < |s| ==> s[i] < n
    ensures |s| <= n
  {
    if s != [] {
      assert s[0] < n;
      if i :| 0 <= i < |s| && s[i] == n - 1 {
        DifferentAndSmall(s[..i] + s[i + 1..], n - 1);
      } else {
        DifferentAndSmall(s, n - 1);
      }
    }
  }

  lemma {:induction false} ArrivedStreamViewed(c: Codec, msg: seq<Byte>, views: seq<View>, x: nat)
    requires x in ArrivedStreams(c, msg, views)
    ensures exists i :: 0 <= i < |views| && views[i].stream == x
  {
    hide FullyArrived;
    if !(FullyArrived(c, msg, views[0]) && x == views[0].stream) {
      ArrivedStreamViewed(c, msg, views[1..], x);
      var i :| 0 <= i < |views[1..]| && views[1..][i].stream == x;
      assert views[i + 1].stream == x;
    }
  }

  lemma {:induction false} ArrivedStreamsDiffer(c: Codec, msg: seq<Byte>, views: seq<View>)
    requires Distinct(views)
    ensures Different(ArrivedStreams(c, msg, views))
  {
    hide FullyArrived;
    if views != [] {
      ArrivedStreamsDiffer(c, msg, views[1..]);
      if views[0].stream in ArrivedStreams(c, msg, views[1..]) {
        ArrivedStreamViewed(c, msg, views[1..], views[0].stream);
        assert false;
      }
    }
  }

  /** There are no more full streams than streams of the call. */
  lemma CountArrivedBound(c: Codec, msg: seq<Byte>, views: seq<View>, streams: seq<seq<Byte>>)
    requires Distinct(views) && forall i :: 0 <= i < |views| ==> IsView(views[i], streams)
    ensures CountArrived(c, msg, views) <= |streams|
  {
    var arrived := ArrivedStreams(c, msg, views);
    hide ArrivedStreams, CountArrived;
    ArrivedStreamsDiffer(c, msg, views);
    forall i | 0 <= i < |arrived|
      ensures arrived[i] < |streams|
    {
      ArrivedStreamViewed(c, msg, views, arrived[i]);
    }
    DifferentAndSmall(arrived, |streams|);
  }

  function Copies(msg: seq<Byte>, n: nat): seq<seq<Byte>> {
    seq(n, _ => msg)
  }

  function AcceptAll(views: seq<View>, streams: seq<seq<Byte>>): (r: seq<Accept>)
    requires forall i :: 0 <= i < |views| ==> IsView(views[i], streams)
    ensures |r| == |views|
    ensures forall i :: 0 <= i < |views| ==> r[i] == Accepted(Seen(views[i], streams))
  {
    seq(|views|, i requires 0 <= i < |views| => Accepted(Seen(views[i], streams)))
  }

  /** At least once, never corrupted: whichever of a call's streams reach the peer, in whatever
      order, however much of each and however they end, the listener decodes one copy of the
      message for each stream that arrived in full and nothing else. */
  lemma {:induction false} PeerGetsOneCopyPerFullStream(c: Codec, msg: seq<Byte>, sent: Sent,
                                                        views: seq<View>)
    requires c.Valid() && Writable(c, UserMsg(msg))
    requires IsSendTrace(c, msg, sent)
    requires forall i :: 0 <= i < |views| ==> IsView(views[i], sent.streams)
    ensures UserMessages(FlatItems(c, AcceptAll(views, sent.streams)))
            == Copies(msg, CountArrived(c, msg, views))
  {
    hide Parse, Frame, StreamItems;
    var accepts := AcceptAll(views, sent.streams);
    if views != [] {
      var v := views[0];
      PeerGetsOneCopyPerFullStream(c, msg, sent, views[1..]);
      assert accepts[1..] == AcceptAll(views[1..], sent.streams);
      var f := Frame(c, UserMsg(msg)).value;
      assert sent.streams[v.stream][..v.arrived] == f[..v.arrived];
      StreamYieldsMessageOrNothing(c, msg, v.arrived, v.tail);
      UserMessagesConcat(StreamItems(c, Seen(v, sent.streams)), FlatItems(c, accepts[1..]));
    }
  }

  lemma {:induction false} UserMessagesPrefix(a: seq<Item>, b: seq<Item>)
    requires a <= b
    ensures UserMessages(a) <= UserMessages(b)
  {
    PrefixRest(a, b);
    UserMessagesConcat(a, b[|a|..]);
  }

  /** The same for a listener that stopped early, be it for a lost connection, dropped handles or
      an application that went away: what it got through is copies of the message, no more than there
      were full streams, and no more than the call opened streams. */
  lemma ListenerNeverInvents(c: Codec, msg: seq<Byte>, sent: Sent, views: seq<View>, items: seq<Item>)
    requires c.Valid() && Writable(c, UserMsg(msg))
    requires IsSendTrace(c, msg, sent)
    requires forall i :: 0 <= i < |views| ==> IsView(views[i], sent.streams)
    requires items <= FlatItems(c, AcceptAll(views, sent.streams))
    ensures UserMessages(items) <= Copies(msg, CountArrived(c, msg, views))
    ensures Distinct(views) ==> CountArrived(c, msg, views) <= |sent.streams|
  {
    hide *;
    if Distinct(views) {
      CountArrivedBound(c, msg, views, sent.streams);
    }
    PeerGetsOneCopyPerFullStream(c, msg, sent, views);
    UserMessagesPrefix(items, FlatItems(c, AcceptAll(views, sent.streams)));
  }

  /** An empty message is sent with success, arrives in full and is never delivered. */
  lemma EmptyMessageIsLost(c: Codec, finish: Result<(), WriteError>, failure: WriteError)
    requires c.Valid() && finish.Ok?
    ensures var sent := SentBy(c, [], [Opens(None, failure, finish)]);
            && sent.result == Ok(())
            && |sent.streams| == 1
            && StreamItems(c, Symbols(sent.streams[0])) == [Err(RecvSerialization(EmptyMessage))]
  {
    hide Parse;
    var f := Frame(c, UserMsg([])).value;
    FrameRoundTrip(c, UserMsg([]), []);
    assert Symbols(f) + [] == Symbols(f);
    OneError(c, Symbols(f), RecvSerialization(EmptyMessage));
  }
}
