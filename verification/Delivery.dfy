/** The whole way of a message: from `send_with` at one peer, through whatever the transport does to
    its streams, to the application at the other. */
module Delivery {
  import opened Types
  import opened Wire
  import opened WireProofs
  import opened Listening
  import opened Listeners
  import opened ListenerTheorems
  import opened Origins
  import opened Sending

  /** Some of the uni-streams of the receiving connection are streams of the call, each another one, as
      the transport delivered them: `mine` says which. The others are arbitrary, and accepting may fail
      at any point. */
  ghost predicate Arrives(c: Codec, msg: seq<Byte>, sent: Sent, mine: seq<Option<View>>, input: seq<Accept>) {
    && Writable(c, UserMsg(msg))
    && IsSendTrace(c, msg, sent)
    && |mine| == |input|
    && (forall j :: 0 <= j < |mine| && mine[j].Some? ==>
          IsView(mine[j].value, sent.streams) && input[j] == Accepted(Seen(mine[j].value, sent.streams)))
    && (forall i, j :: 0 <= i < j < |mine| && mine[i].Some? && mine[j].Some? ==>
          mine[i].value.stream != mine[j].value.stream)
  }

  // ----- one stream ---------------------------------------------------------------------------

  lemma {:induction false} MessageMember(items: seq<Item>, p: nat)
    requires p < |items| && items[p].Ok?
    ensures items[p].value in UserMessages(items)
  {
    if p > 0 {
      MessageMember(items[1..], p - 1);
    }
  }

  /** With at most one message, and errors only at the end, the message comes first. */
  lemma OneMessageFirst(items: seq<Item>, p: nat)
    requires forall i :: 0 <= i < |items| && items[i].Err? ==> i == |items| - 1
    requires |UserMessages(items)| <= 1 && p < |items| && items[p].Ok?
    ensures p == 0 && UserMessages(items) == [items[0].value]
  {
    if p > 0 {
      MessageMember(items[1..], p - 1);
    }
  }

  /** A stream of the call gives one copy of the message, first, if it arrived in full, and otherwise
      no message. */
  lemma OwnStream(c: Codec, msg: seq<Byte>, sent: Sent, v: View)
    requires c.Valid() && Writable(c, UserMsg(msg)) && IsSendTrace(c, msg, sent) && IsView(v, sent.streams)
    ensures var items := StreamItems(c, Seen(v, sent.streams));
            && (forall p :: 0 <= p < |items| && items[p].Ok? ==>
                  p == 0 && items[p].value == msg && FullyArrived(c, msg, v))
            && (FullyArrived(c, msg, v) ==> items != [] && items[0] == Ok(msg))
  {
    hide Parse, Frame, StreamItems;
    var f, items := Frame(c, UserMsg(msg)).value, StreamItems(c, Seen(v, sent.streams));
    assert sent.streams[v.stream][..v.arrived] == f[..v.arrived];
    StreamYieldsMessageOrNothing(c, msg, v.arrived, v.tail);
    StreamErrorOnlyLast(c, Seen(v, sent.streams));
    hide UserMessages;
    forall p | 0 <= p < |items| && items[p].Ok?
      ensures p == 0 && items[p].value == msg && FullyArrived(c, msg, v)
    {
      OneMessageFirst(items, p);
    }
    if FullyArrived(c, msg, v) {
      SomeMessage(items);
      OneMessageFirst(items, 0);
    }
  }

  lemma SomeMessage(items: seq<Item>)
    requires forall i :: 0 <= i < |items| && items[i].Err? ==> i == |items| - 1
    requires UserMessages(items) != []
    ensures items != [] && items[0].Ok?
  {
  }

  // ----- the whole connection -----------------------------------------------------------------

  /** Item `p` of the uni listener is a message read from a stream of the call. */
  ghost predicate IsCopy(c: Codec, mine: seq<Option<View>>, input: seq<Accept>, p: nat)
    requires |mine| == |input|
  {
    && p < |FlatItems(c, input)|
    && FlatItems(c, input)[p].Ok?
    && mine[OriginOf(c, input, p).stream].Some?
  }

  /** The stream of the call it was read from. */
  ghost function StreamOf(c: Codec, mine: seq<Option<View>>, input: seq<Accept>, p: nat): View
    requires |mine| == |input| && IsCopy(c, mine, input, p)
  {
    mine[OriginOf(c, input, p).stream].value
  }

  lemma CopyMeans(c: Codec, msg: seq<Byte>, sent: Sent, mine: seq<Option<View>>, input: seq<Accept>, p: nat)
    requires c.Valid() && Arrives(c, msg, sent, mine, input) && IsCopy(c, mine, input, p)
    ensures FlatItems(c, input)[p] == Ok(msg) && OriginOf(c, input, p).pos == 0
    ensures FullyArrived(c, msg, StreamOf(c, mine, input, p))
    ensures StreamOf(c, mine, input, p).stream < |sent.streams|
  {
    hide Frame, StreamItems, FlatItems, OriginOf, Seen, FullyArrived, IsSendTrace;
    var v, o := StreamOf(c, mine, input, p), OriginOf(c, input, p);
    OriginMeaning(c, input, p);
    OwnStream(c, msg, sent, v);
    assert FlatItems(c, input)[p] == StreamItems(c, Seen(v, sent.streams))[o.pos];
  }

  lemma CopiesDiffer(c: Codec, msg: seq<Byte>, sent: Sent, mine: seq<Option<View>>, input: seq<Accept>,
                     p: nat, q: nat)
    requires c.Valid() && Arrives(c, msg, sent, mine, input) && p < q
    requires IsCopy(c, mine, input, p) && IsCopy(c, mine, input, q)
    ensures StreamOf(c, mine, input, p).stream != StreamOf(c, mine, input, q).stream
  {
    hide FlatItems, OriginOf, FullyArrived, IsSendTrace, IsView, Seen;
    CopyMeans(c, msg, sent, mine, input, p);
    CopyMeans(c, msg, sent, mine, input, q);
    OriginsDiffer(c, input, p, q);
  }

  /** The streams of the call that the messages among the first `n` items were read from, one entry per
      message. */
  ghost function CopyStreams(c: Codec, mine: seq<Option<View>>, input: seq<Accept>, n: nat): seq<nat>
    requires |mine| == |input|
  {
    if n == 0 then []
    else CopyStreams(c, mine, input, n - 1)
         + (if IsCopy(c, mine, input, n - 1) then [StreamOf(c, mine, input, n - 1).stream] else [])
  }

  /** A later copy comes from another stream. */
  lemma {:induction false} NewStream(c: Codec, msg: seq<Byte>, sent: Sent, mine: seq<Option<View>>,
                                     input: seq<Accept>, n: nat, p: nat)
    requires c.Valid() && Arrives(c, msg, sent, mine, input) && n <= p && IsCopy(c, mine, input, p)
    ensures StreamOf(c, mine, input, p).stream !in CopyStreams(c, mine, input, n)
  {
    assert |mine| == |input|;
    hide Arrives, IsCopy, StreamOf;
    if n > 0 {
      NewStream(c, msg, sent, mine, input, n - 1, p);
      if IsCopy(c, mine, input, n - 1) {
        CopiesDiffer(c, msg, sent, mine, input, n - 1, p);
      }
    }
  }

  lemma {:induction false} CopyStreamsDiffer(c: Codec, msg: seq<Byte>, sent: Sent, mine: seq<Option<View>>,
                                             input: seq<Accept>, n: nat)
    requires c.Valid() && Arrives(c, msg, sent, mine, input)
    ensures Different(CopyStreams(c, mine, input, n))
    ensures forall i :: 0 <= i < |CopyStreams(c, mine, input, n)| ==>
              CopyStreams(c, mine, input, n)[i] < |sent.streams|
  {
    assert |mine| == |input|;
    hide Arrives, IsCopy, StreamOf, FlatItems, OriginOf, FullyArrived;
    if n > 0 {
      CopyStreamsDiffer(c, msg, sent, mine, input, n - 1);
      if IsCopy(c, mine, input, n - 1) {
        NewStream(c, msg, sent, mine, input, n - 1, n - 1);
        CopyMeans(c, msg, sent, mine, input, n - 1);
      }
    }
  }

  lemma CopiesBound(c: Codec, msg: seq<Byte>, sent: Sent, mine: seq<Option<View>>, input: seq<Accept>, n: nat)
    requires c.Valid() && Arrives(c, msg, sent, mine, input)
    ensures |CopyStreams(c, mine, input, n)| <= |sent.streams|
  {
    assert |mine| == |input|;
    hide *;
    CopyStreamsDiffer(c, msg, sent, mine, input, n);
    DifferentAndSmall(CopyStreams(c, mine, input, n), |sent.streams|);
  }

  /** In every run of the receiving connection, at any moment, whatever else arrives on it: every
      message the application got from a stream of the call is the message, and that stream arrived in
      full; no stream gave two; and there are no more of them than the call opened streams. */
  lemma ApplicationGetsOnlyCopies(c: Codec, msg: seq<Byte>, sent: Sent, mine: seq<Option<View>>,
                                  run: seq<Conn>, steps: seq<Step>, k: nat)
    requires IsRun(c, run, steps) && k < |run|
    requires c.Valid() && Arrives(c, msg, sent, mine, run[0].uniInput)
    ensures var got, input := Of(run[k].delivered, Uni), run[0].uniInput;
            && got <= FlatItems(c, input)
            && (forall p :: 0 <= p < |got| && IsCopy(c, mine, input, p) ==>
                  got[p] == Ok(msg) && FullyArrived(c, msg, StreamOf(c, mine, input, p)))
            && (forall p, q :: 0 <= p < q < |got| && IsCopy(c, mine, input, p) && IsCopy(c, mine, input, q) ==>
                  StreamOf(c, mine, input, p).stream != StreamOf(c, mine, input, q).stream)
            && |CopyStreams(c, mine, input, |got|)| <= |sent.streams|
  {
    assert |mine| == |run[0].uniInput|;
    hide *;
    var got, input := Of(run[k].delivered, Uni), run[0].uniInput;
    DeliveryFollowsStreams(c, run, steps, k, 0);
    CopiesBound(c, msg, sent, mine, input, |got|);
    forall p | 0 <= p < |got| && IsCopy(c, mine, input, p)
      ensures got[p] == Ok(msg) && FullyArrived(c, msg, StreamOf(c, mine, input, p))
    {
      CopyMeans(c, msg, sent, mine, input, p);
    }
    forall p, q | 0 <= p < q < |got| && IsCopy(c, mine, input, p) && IsCopy(c, mine, input, q)
      ensures StreamOf(c, mine, input, p).stream != StreamOf(c, mine, input, q).stream
    {
      CopiesDiffer(c, msg, sent, mine, input, p, q);
    }
  }

  /** The application got the message from stream `j`. */
  ghost predicate GotFrom(c: Codec, input: seq<Accept>, got: seq<Item>, j: nat, msg: seq<Byte>) {
    exists p :: 0 <= p < |got| && p < |FlatItems(c, input)|
                && OriginOf(c, input, p) == Origin(j, 0) && got[p] == Ok(msg)
  }

  /** When the application is told that there is nothing more, a stream that arrived in full has
      delivered the message if and only if nothing accepted before it failed or ended with the loss of
      the connection. */
  lemma ApplicationGetsEveryCopy(c: Codec, msg: seq<Byte>, sent: Sent, mine: seq<Option<View>>,
                                 run: seq<Conn>, steps: seq<Step>, k: nat, j: nat)
    requires IsRun(c, run, steps) && k < |steps| && steps[k] == ReceiveNone
    requires c.Valid() && Arrives(c, msg, sent, mine, run[0].uniInput)
    requires j < |mine| && mine[j].Some? && FullyArrived(c, msg, mine[j].value)
    ensures GotFrom(c, run[0].uniInput, Of(run[k].delivered, Uni), j, msg) <==> Clear(c, run[0].uniInput, j)
  {
    var got, input, v := Of(run[k].delivered, Uni), run[0].uniInput, mine[j].value;
    assert input[j] == Accepted(Seen(v, sent.streams));
    OwnStream(c, msg, sent, v);
    NothingMoreMeansEverythingDelivered(c, run, steps, k);
    hide IsRun, Arrives, Of, Clear, FlatItems, OriginOf, CutAtLoss, StreamItems, Seen, FullyArrived;
    CutAtLossShape(FlatItems(c, input));
    if Clear(c, input, j) {
      var p := ClearMeansReached(c, input, j, 0);
      OriginMeaning(c, input, p);
    }
    if GotFrom(c, input, got, j, msg) {
      var p :| 0 <= p < |got| && p < |FlatItems(c, input)|
               && OriginOf(c, input, p) == Origin(j, 0) && got[p] == Ok(msg);
      ReachedMeansClear(c, input, p);
    }
  }
}
