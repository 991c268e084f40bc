/** The request and response discipline of a bi-stream, from the messages one side writes to the
    messages it got back. */
module RequestResponse {
  import opened Types
  import opened Errors
  import opened Wire
  import opened WireProofs
  import opened Listening
  import BiHandler

  /** The number of verification requests in `ms`: each costs one dial-back. */
  function DialBacks(ms: seq<WireMsg>): nat {
    if ms == [] then 0 else (if ms[0].EndpointVerificationReq? then 1 else 0) + DialBacks(ms[1..])
  }

  function UserItems(ms: seq<WireMsg>): seq<Item> {
    if ms == [] then []
    else
      (if ms[0] == UserMsg([]) then [Err(RecvSerialization(EmptyMessage))]
       else if ms[0].UserMsg? then [Ok(ms[0].payload)]
       else [])
      + UserItems(ms[1..])
  }

  /** `reply` answers `request`, when `k` dial-backs were made before. */
  predicate Answers(reply: WireMsg, request: WireMsg, peer: SocketAddr, dial: Dialler, k: nat) {
    match request
    case EndpointEchoReq => reply == EndpointEchoResp(peer)
    case EndpointVerificationReq(a) => reply == EndpointVerificationResp(dial(k, a).Verified())
    case _ => false
  }

  /** As many replies as requests, the `j`-th answering the `j`-th, each verification reply
      telling the outcome of its own dial-back. */
  ghost predicate Correspond(replies: seq<WireMsg>, requests: seq<WireMsg>, peer: SocketAddr,
                             dial: Dialler, k: nat)
  {
    && |replies| == |requests|
    && forall j :: 0 <= j < |replies| ==>
         Answers(replies[j], requests[j], peer, dial, k + DialBacks(requests[..j]))
  }

  lemma CorrespondCons(reply: WireMsg, request: WireMsg, replies: seq<WireMsg>,
                       requests: seq<WireMsg>, peer: SocketAddr, dial: Dialler, k: nat)
    requires Answers(reply, request, peer, dial, k)
    requires Correspond(replies, requests, peer, dial, k + DialBacks([request]))
    ensures Correspond([reply] + replies, [request] + requests, peer, dial, k)
  {
    var all, k' := [request] + requests, k + DialBacks([request]);
    assert all[..0] == [] && [request][1..] == [];
    forall j | 0 <= j < |all|
      ensures Answers(([reply] + replies)[j], all[j], peer, dial, k + DialBacks(all[..j]))
    {
      if j > 0 {
        assert all[..j][0] == request && all[..j][1..] == requests[..j - 1];
        assert Answers(replies[j - 1], requests[j - 1], peer, dial, k' + DialBacks(requests[..j - 1]));
      }
    }
  }

  /** One step of a bi-stream's replies, for a message that was read back. */
  lemma RepliesStep(m: WireMsg, rs: seq<ReadResult>, peer: SocketAddr, dial: Dialler, k: nat)
    ensures var all := BiReplies([Readback(m)] + rs, peer, dial, k);
            var later := BiReplies(rs, peer, dial, k + DialBacks([m]));
            if IsRequest(m) then
              all != [] && all == [all[0]] + later && Answers(all[0], m, peer, dial, k)
            else
              all == later && DialBacks([m]) == 0
  {
    assert ([Readback(m)] + rs)[1..] == rs;
  }

  lemma {:induction false} RepliesCorrespond(ms: seq<WireMsg>, tail: seq<ReadResult>,
                                             peer: SocketAddr, dial: Dialler, k: nat)
    requires tail == [Ok(None)]
    ensures Correspond(BiReplies(ReadbackEach(ms) + tail, peer, dial, k), Requests(ms), peer, dial, k)
  {
    hide *;
    if ms == [] {
      assert ReadbackEach(ms) + tail == tail;
      NoReplies(peer, dial, k);
    } else {
      var rest := ReadbackEach(ms[1..]) + tail;
      assert ReadbackEach(ms) + tail == [Readback(ms[0])] + rest;
      var all := BiReplies([Readback(ms[0])] + rest, peer, dial, k);
      RepliesStep(ms[0], rest, peer, dial, k);
      RequestsStep(ms);
      RepliesCorrespond(ms[1..], tail, peer, dial, k + DialBacks([ms[0]]));
      if IsRequest(ms[0]) {
        CorrespondCons(all[0], ms[0], all[1..], Requests(ms[1..]), peer, dial, k);
      }
    }
  }

  lemma NoReplies(peer: SocketAddr, dial: Dialler, k: nat)
    ensures Correspond(BiReplies([Ok(None)], peer, dial, k), Requests([]), peer, dial, k)
  {
    assert BiReplies([], peer, dial, k) == [];
  }

  lemma RequestsStep(ms: seq<WireMsg>)
    requires ms != []
    ensures Requests(ms) == if IsRequest(ms[0]) then [ms[0]] + Requests(ms[1..]) else Requests(ms[1..])
  {
  }

  lemma {:induction false} ItemsInOrder(ms: seq<WireMsg>, tail: seq<ReadResult>)
    requires tail == [Ok(None)]
    ensures BiItems(ReadbackEach(ms) + tail) == UserItems(ms)
  {
    var rs := ReadbackEach(ms) + tail;
    if ms == [] {
      assert rs == tail && tail[1..] == [];
      assert BiItems([]) == [];
    } else {
      assert rs[1..] == ReadbackEach(ms[1..]) + tail;
      ItemsInOrder(ms[1..], tail);
    }
  }

  lemma {:induction false} RepliesAreService(rs: seq<ReadResult>, peer: SocketAddr, dial: Dialler, k: nat)
    ensures forall j :: 0 <= j < |BiReplies(rs, peer, dial, k)| ==>
              !BiReplies(rs, peer, dial, k)[j].UserMsg?
  {
    if rs != [] {
      RepliesAreService(rs[1..], peer, dial, k);
      RepliesAreService(rs[1..], peer, dial, k + 1);
    }
  }

  /** A peer writes `ms` on a bi-stream and finishes it; nothing fails and the application takes
      every item. Then the application gets the user messages in order, and the peer got back
      exactly one answer per request, in order, and then the end. */
  lemma RequestsAnsweredInOrder(c: Codec, ms: seq<WireMsg>, peer: SocketAddr, dial: Dialler)
    requires c.Valid() && AllWritable(c, ms)
    ensures var got := ReadAll(c, Symbols(Frames(c, ms)));
            var replies := BiReplies(got, peer, dial, 0);
            && BiItems(got) == UserItems(ms)
            && Correspond(replies, Requests(ms), peer, dial, 0)
            && AllWritable(c, replies)
            && ReadAll(c, Symbols(Frames(c, replies))) == Delivered(replies) + [Ok(None)]
  {
    hide Parse, Frame, Frames, BiReplies, BiItems;
    var got := ReadAll(c, Symbols(Frames(c, ms)));
    SequenceRoundTrip(c, ms, []);
    assert Symbols(Frames(c, ms)) + [] == Symbols(Frames(c, ms));
    assert ReadAll(c, []) == [Ok(None)];
    RepliesCorrespond(ms, [Ok(None)], peer, dial, 0);
    ItemsInOrder(ms, [Ok(None)]);
    BiHandler.RepliesWritable(c, got, peer, dial, 0);
    RepliesAreService(got, peer, dial, 0);
    SequenceIntactIffNoEmpty(c, BiReplies(got, peer, dial, 0));
  }
}
