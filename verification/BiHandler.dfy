/** The handler that `listen_on_bi_streams` of `src/connection.rs` runs for each bi-stream, and the
    echo and verification services behind it. */
module BiHandler {
  import opened Types
  import opened Errors
  import opened Wire
  import opened WireProofs
  import opened Streams
  import opened Listening
  import opened Channel

  /** The stream got the frame of `m`, or as much of it as it takes, and the writer knows which. */
  ghost predicate Replied(c: Codec, m: WireMsg, written: seq<Byte>, credit: Option<nat>,
                          written': seq<Byte>, credit': Option<nat>, failure: WriteError,
                          r: Result<(), SendError>)
  {
    && Writable(c, m)
    && (var f := Frame(c, m).value;
        && written' == written + Taken(f, credit)
        && credit' == Spent(|f|, credit)
        && (r.Ok? <==> credit.None? || |f| <= credit.value)
        && (r.Err? ==> r.error == FromWrite(failure)))
  }

  method HandleEndpointEcho(c: Codec, send: SendStream, peer: SocketAddr)
    returns (r: Result<(), SendError>)
    requires c.Valid()
    modifies send
    ensures Replied(c, EndpointEchoResp(peer), old(send.written), old(send.credit),
                    send.written, send.credit, send.failure, r)
  {
    r := WriteToStream(c, EndpointEchoResp(peer), send);
  }

  /** What a dial-back meets: whether the connection and the stream get opened, how much of the
      request the stream takes, what comes back on it, and whether all that takes too long. */
  datatype Remote = Remote(connects: bool, opens: bool, credit: Option<nat>, failure: WriteError,
                           script: seq<Event>, tooLate: bool)

  /** The whole request was sent, and the first thing to come back was an echo response. */
  predicate Confirms(c: Codec, remote: Remote) {
    && !remote.tooLate && remote.connects && remote.opens
    && Frame(c, EndpointEchoReq).Ok?
    && (remote.credit.None? || |Frame(c, EndpointEchoReq).value| <= remote.credit.value)
    && (var r := Parse(c, Flat(remote.script)).result;
        r.Ok? && r.value.Some? && r.value.value.EndpointEchoResp?)
  }

  function DialOutcome(c: Codec, remote: Remote): Dial {
    if remote.tooLate then DialTimedOut
    else if !remote.connects then ConnectFailed
    else if !remote.opens then OpenFailed
    else
      match Frame(c, EndpointEchoReq)
      case Err(_) => RequestFailed
      case Ok(f) => if Taken(f, remote.credit) != f then RequestFailed
                    else Responded(Parse(c, Flat(remote.script)).result)
  }

  /** The outcomes of all dial-backs, given what each meets. */
  function Dials(c: Codec, remotes: (nat, SocketAddr) -> Remote): Dialler {
    (k: nat, addr: SocketAddr) => DialOutcome(c, remotes(k, addr))
  }

  lemma VerifiedIffConfirmed(c: Codec, remote: Remote)
    ensures DialOutcome(c, remote).Verified() <==> Confirms(c, remote)
    ensures Confirms(c, remote) <==>
              && !remote.tooLate && remote.connects && remote.opens
              && |c.encode(EndpointEchoReq)| <= 4_294_967_295
              && (remote.credit.None? || 9 + |c.encode(EndpointEchoReq)| <= remote.credit.value)
              && exists addr :: Parse(c, Flat(remote.script)).result == Ok(Some(EndpointEchoResp(addr)))
  {
    FrameBytes(c, EndpointEchoReq);
    hide Parse, Frame;
    var r := Parse(c, Flat(remote.script)).result;
    if Confirms(c, remote) {
      assert r == Ok(Some(EndpointEchoResp(r.value.value.addr)));
    }
  }

  /** Dials, asks for an echo and waits for the answer, unless that takes too long. */
  method DialBack(c: Codec, remote: Remote) returns (d: Dial)
    ensures d == DialOutcome(c, remote)
    ensures d.Verified() <==> Confirms(c, remote)
    ensures d.Verified() <==>
              && !remote.tooLate && remote.connects && remote.opens
              && |c.encode(EndpointEchoReq)| <= 4_294_967_295
              && (remote.credit.None? || 9 + |c.encode(EndpointEchoReq)| <= remote.credit.value)
              && exists addr :: Parse(c, Flat(remote.script)).result == Ok(Some(EndpointEchoResp(addr)))
  {
    VerifiedIffConfirmed(c, remote);
    hide Parse, Frame;
    if remote.tooLate {
      return DialTimedOut;
    }
    if !remote.connects {
      return ConnectFailed;
    }
    if !remote.opens {
      return OpenFailed;
    }
    var send := new SendStream(remote.credit, remote.failure);
    var recv := new RecvStream(remote.script);
    var sent := WriteToStream(c, EndpointEchoReq, send);
    if sent.Err? {
      return RequestFailed;
    }
    var response := ReadFromStream(c, recv);
    return Responded(response);
  }

  /** Answers with the outcome of the dial-back, whatever that was. */
  method HandleEndpointVerification(c: Codec, send: SendStream, remote: Remote)
    returns (r: Result<(), SendError>)
    requires c.Valid()
    modifies send
    ensures Replied(c, EndpointVerificationResp(Confirms(c, remote)), old(send.written),
                    old(send.credit), send.written, send.credit, send.failure, r)
    ensures Confirms(c, remote) == DialOutcome(c, remote).Verified()
    ensures Confirms(c, remote) <==>
              && !remote.tooLate && remote.connects && remote.opens
              && |c.encode(EndpointEchoReq)| <= 4_294_967_295
              && (remote.credit.None? || 9 + |c.encode(EndpointEchoReq)| <= remote.credit.value)
              && exists addr :: Parse(c, Flat(remote.script)).result == Ok(Some(EndpointEchoResp(addr)))
  {
    hide Frame, Parse, DialOutcome, Confirms;
    var d := DialBack(c, remote);
    ServiceWritable(c, EndpointVerificationResp(d.Verified()));
    r := WriteToStream(c, EndpointVerificationResp(d.Verified()), send);
  }

  lemma {:induction false} RepliesWritable(c: Codec, rs: seq<ReadResult>, peer: SocketAddr,
                                           dial: Dialler, k: nat)
    requires c.Valid()
    ensures AllWritable(c, BiReplies(rs, peer, dial, k))
  {
    if rs != [] {
      RepliesWritable(c, rs[1..], peer, dial, k);
      RepliesWritable(c, rs[1..], peer, dial, k + 1);
    }
  }

  lemma ServiceWritable(c: Codec, m: WireMsg)
    requires c.Valid() && !m.UserMsg?
    ensures Writable(c, m)
  {
  }

  lemma FramesCons(c: Codec, m: WireMsg, ms: seq<WireMsg>)
    requires Writable(c, m) && AllWritable(c, ms)
    ensures AllWritable(c, [m] + ms)
    ensures Frames(c, [m] + ms) == Frame(c, m).value + Frames(c, ms)
  {
    assert ([m] + ms)[1..] == ms;
  }

  lemma ProcessedStep(rs: seq<ReadResult>, n: nat)
    requires rs != []
    ensures !MakesItem(rs[0]) ==> Processed(rs, Some(n)) == [rs[0]] + Processed(rs[1..], Some(n))
    ensures MakesItem(rs[0]) && n == 0 ==> Processed(rs, Some(n)) == [rs[0]]
    ensures MakesItem(rs[0]) && n > 0 ==> Processed(rs, Some(n)) == [rs[0]] + Processed(rs[1..], Some(n - 1))
  {
  }

  lemma ItemsStep(r: ReadResult, rs: seq<ReadResult>)
    ensures BiItems([]) == []
    ensures |BiItems([r] + rs)| == |BiItems(rs)| + (if MakesItem(r) then 1 else 0)
  {
    ConsParts(r, rs);
  }

  /** The handler got through `ps` of `rs` and was refused the last item of `ps`, the `n`-th. */
  ghost predicate RefusedAt(rs: seq<ReadResult>, ps: seq<ReadResult>, n: nat) {
    ps != [] && ps <= rs && MakesItem(ps[|ps| - 1]) && |BiItems(ps)| == n
  }

  lemma RefusedLater(r: ReadResult, rs: seq<ReadResult>, ps: seq<ReadResult>, n: nat)
    requires RefusedAt(rs, ps, n)
    ensures RefusedAt([r] + rs, [r] + ps, n + (if MakesItem(r) then 1 else 0))
  {
    hide BiItems, MakesItem;
    ItemsStep(r, ps);
    assert ([r] + ps)[|ps|] == ps[|ps| - 1];
  }

  /** How far a handler gets when the application takes only `n` more items: through everything if there
      are no more than that, else up to the read that makes the next item, which is refused. */
  lemma {:induction false} ProcessedMeaning(rs: seq<ReadResult>, n: nat)
    ensures |BiItems(rs)| <= n ==> Processed(rs, Some(n)) == rs
    ensures |BiItems(rs)| > n ==> RefusedAt(rs, Processed(rs, Some(n)), n + 1)
    decreases |rs|
  {
    if rs == [] {
      ItemsStep(Ok(None), []);
    } else {
      var r, later := rs[0], rs[1..];
      ProcessedStep(rs, n);
      ItemsStep(r, later);
      ItemsStep(r, []);
      Uncons(rs);
      hide Processed, BiItems, RefusedAt, MakesItem;
      var left := if MakesItem(r) && n > 0 then n - 1 else n;
      ProcessedMeaning(later, left);
      if MakesItem(r) && n == 0 {
        RefusedNow(rs);
      } else if |BiItems(later)| > left {
        RefusedLater(r, later, Processed(later, Some(left)), left + 1);
      }
    }
  }

  lemma RefusedNow(rs: seq<ReadResult>)
    requires rs != [] && MakesItem(rs[0])
    ensures RefusedAt(rs, [rs[0]], 1)
  {
    ItemsStep(rs[0], []);
    assert [rs[0]] + [] == [rs[0]];
  }

  // What the application and the peer still get, given the reads to come.

  ghost function ItemsAhead(rs: seq<ReadResult>, room: Option<nat>): seq<Item> {
    Passed(BiItems(rs), room)
  }

  ghost function BytesAhead(c: Codec, rs: seq<ReadResult>, room: Option<nat>, peer: SocketAddr,
                            dial: Dialler, k: nat, credit: Option<nat>): seq<Byte>
    requires c.Valid()
  {
    var replies := BiReplies(Processed(rs, room), peer, dial, k);
    RepliesWritable(c, Processed(rs, room), peer, dial, k);
    Taken(Frames(c, replies), credit)
  }

  lemma AheadMeaning(c: Codec, rs: seq<ReadResult>, room: Option<nat>, peer: SocketAddr,
                     dial: Dialler, credit: Option<nat>)
    requires c.Valid()
    ensures ItemsAhead(rs, room) == Passed(BiItems(rs), room)
    ensures var replies := BiReplies(Processed(rs, room), peer, dial, 0);
            && AllWritable(c, replies)
            && BytesAhead(c, rs, room, peer, dial, 0, credit) == Taken(Frames(c, replies), credit)
  {
    RepliesWritable(c, Processed(rs, room), peer, dial, 0);
  }

  function OneLess(room: Option<nat>): Option<nat> {
    if room.Some? && room.value > 0 then Some(room.value - 1) else room
  }

  lemma ReadAllStep(c: Codec, s: seq<Sym>)
    ensures var p := Parse(c, s);
            && ReadAll(c, s) == (if EndsReading(p.result) then [p.result]
                                 else [p.result] + ReadAll(c, p.rest))
            && (!EndsReading(p.result) ==> s != [] && ReadAll(c, s)[1..] == ReadAll(c, p.rest))
  {
    hide Parse;
  }

  lemma NothingAhead(c: Codec, r: ReadResult, room: Option<nat>, peer: SocketAddr, dial: Dialler,
                     k: nat, credit: Option<nat>)
    requires c.Valid()
    ensures r == Ok(None) ==>
              ItemsAhead([r], room) == [] && BytesAhead(c, [r], room, peer, dial, k, credit) == []
    ensures MakesItem(r) && room != Some(0) ==>
              && ItemsAhead([r], room) == [ItemOf(r)]
              && BytesAhead(c, [r], room, peer, dial, k, credit) == []
  {
    assert [r][1..] == [];
    assert BiItems([]) == [];
    assert BiReplies([], peer, dial, k) == [];
    if MakesItem(r) {
      assert Processed([r], room) == [r];
    }
  }

  /** An item goes to the application; once it is refused, nothing more happens. */
  lemma ItemAhead(c: Codec, rs: seq<ReadResult>, room: Option<nat>, peer: SocketAddr,
                  dial: Dialler, k: nat, credit: Option<nat>)
    requires c.Valid() && rs != [] && MakesItem(rs[0])
    ensures room == Some(0) ==>
              ItemsAhead(rs, room) == [] && BytesAhead(c, rs, room, peer, dial, k, credit) == []
    ensures room != Some(0) ==>
              && ItemsAhead(rs, room) == [ItemOf(rs[0])] + ItemsAhead(rs[1..], OneLess(room))
              && BytesAhead(c, rs, room, peer, dial, k, credit)
                 == BytesAhead(c, rs[1..], OneLess(room), peer, dial, k, credit)
  {
    if room == Some(0) {
      assert Processed(rs, room) == [rs[0]];
      NothingAhead(c, rs[0], None, peer, dial, k, credit);
    } else {
      assert Processed(rs, room) == [rs[0]] + Processed(rs[1..], OneLess(room));
      SkipReply(rs[0], Processed(rs[1..], OneLess(room)), peer, dial, k);
    }
  }

  lemma SkipReply(r: ReadResult, rs: seq<ReadResult>, peer: SocketAddr, dial: Dialler, k: nat)
    requires !IsEchoReq(r) && !IsVerificationReq(r)
    ensures BiReplies([r] + rs, peer, dial, k) == BiReplies(rs, peer, dial, k)
  {
    assert ([r] + rs)[1..] == rs;
  }

  /** A request is answered in front of all later answers; anything else changes nothing. */
  lemma ReplyAhead(c: Codec, rs: seq<ReadResult>, room: Option<nat>, peer: SocketAddr,
                   dial: Dialler, k: nat, credit: Option<nat>)
    requires c.Valid() && rs != [] && !MakesItem(rs[0])
    ensures ItemsAhead(rs, room) == ItemsAhead(rs[1..], room)
    ensures var bytes := BytesAhead(c, rs, room, peer, dial, k, credit);
            if IsEchoReq(rs[0]) then
              AnsweredFirst(c, bytes, EndpointEchoResp(peer), rs[1..], room, peer, dial, k, credit)
            else if IsVerificationReq(rs[0]) then
              AnsweredFirst(c, bytes,
                      EndpointVerificationResp(dial(k, rs[0].value.value.target).Verified()),
                      rs[1..], room, peer, dial, k + 1, credit)
            else
              bytes == BytesAhead(c, rs[1..], room, peer, dial, k, credit)
  {
    hide Frame, Frames, Taken, Spent, Writable, AllWritable, Body, Passed;
    var later := Processed(rs[1..], room);
    assert Processed(rs, room) == [rs[0]] + later;
    ConsParts(rs[0], later);
    assert BiItems(rs) == BiItems(rs[1..]);
    if IsEchoReq(rs[0]) {
      AnswerAhead(c, EndpointEchoResp(peer), BiReplies(later, peer, dial, k), credit);
      RepliesWritable(c, later, peer, dial, k);
    } else if IsVerificationReq(rs[0]) {
      AnswerAhead(c, EndpointVerificationResp(dial(k, rs[0].value.value.target).Verified()),
                  BiReplies(later, peer, dial, k + 1), credit);
      RepliesWritable(c, later, peer, dial, k + 1);
    }
  }

  lemma AnswerAhead(c: Codec, m: WireMsg, ms: seq<WireMsg>, credit: Option<nat>)
    requires c.Valid() && !m.UserMsg?
    ensures Writable(c, m)
    ensures AllWritable(c, ms) ==>
              && AllWritable(c, [m] + ms)
              && Taken(Frames(c, [m] + ms), credit)
                 == Taken(Frame(c, m).value, credit)
                    + Taken(Frames(c, ms), Spent(|Frame(c, m).value|, credit))
  {
    ServiceWritable(c, m);
    if AllWritable(c, ms) {
      hide Frame, Frames, Taken, Spent, Writable, AllWritable;
      FramesCons(c, m, ms);
      TakenJoin(Frame(c, m).value, Frames(c, ms), credit);
    }
  }

  ghost predicate AnsweredFirst(c: Codec, bytes: seq<Byte>, m: WireMsg, rs: seq<ReadResult>,
                          room: Option<nat>, peer: SocketAddr, dial: Dialler, k: nat,
                          credit: Option<nat>)
    requires c.Valid()
  {
    && Writable(c, m)
    && bytes == Taken(Frame(c, m).value, credit)
                + BytesAhead(c, rs, room, peer, dial, k, Spent(|Frame(c, m).value|, credit))
  }

  /** Handles one read of the bi-stream: `rs` is this read and all to come. */
  method HandleRead(c: Codec, peer: SocketAddr, remotes: (nat, SocketAddr) -> Remote, dials: nat, r: ReadResult,
                    ghost rs: seq<ReadResult>, send: SendStream, tx: MessageTx)
    returns (stop: bool, dials': nat)
    requires c.Valid()
    requires rs != [] && rs[0] == r && (EndsReading(r) ==> rs == [r])
    modifies send, tx
    ensures var dial, sent := Dials(c, remotes), old(tx.sent) + ItemsAhead(rs, old(tx.room));
            var written := old(send.written)
                           + BytesAhead(c, rs, old(tx.room), peer, dial, dials, old(send.credit));
            if stop then
              tx.sent == sent && send.written == written
            else
              && !EndsReading(r)
              && tx.sent + ItemsAhead(rs[1..], tx.room) == sent
              && send.written + BytesAhead(c, rs[1..], tx.room, peer, dial, dials', send.credit) == written
  {
    hide ReadAll, Parse, Processed, BiItems, BiReplies, Frames, Frame, ItemsAhead, BytesAhead,
         Passed, Taken, Spent, Writable, AllWritable;
    ghost var dial := Dials(c, remotes);
    stop, dials' := false, dials;
    match r {
      case Err(error) =>
        ItemAhead(c, rs, tx.room, peer, dial, dials, send.credit);
        NothingAhead(c, r, tx.room, peer, dial, dials, send.credit);
        Assoc(tx.sent, [Err(error)], ItemsAhead(rs[1..], OneLess(tx.room)));
        if IsLoss(error) {
          stop := true;
        }
        var ok := tx.Send(Err(error));
        if !ok {
          stop := true;
        }
      case Ok(None) =>
        NothingAhead(c, r, tx.room, peer, dial, dials, send.credit);
        stop := true;
      case Ok(Some(UserMsg(payload))) =>
        ItemAhead(c, rs, tx.room, peer, dial, dials, send.credit);
        Assoc(tx.sent, [Ok(payload)], ItemsAhead(rs[1..], OneLess(tx.room)));
        var ok := tx.Send(Ok(payload));
        if !ok {
          stop := true;
        }
      case Ok(Some(EndpointEchoReq)) =>
        ReplyAhead(c, rs, tx.room, peer, dial, dials, send.credit);
        var _ := HandleEndpointEcho(c, send, peer);
      case Ok(Some(EndpointVerificationReq(target))) =>
        ReplyAhead(c, rs, tx.room, peer, dial, dials, send.credit);
        var _ := HandleEndpointVerification(c, send, remotes(dials, target));
        dials' := dials + 1;
      case Ok(_) =>
        ReplyAhead(c, rs, tx.room, peer, dial, dials, send.credit);
    }
  }

  /** Handles one bi-stream to its end.

      The application gets the errors and user messages of the stream, in order, as far as it
      takes them. The peer gets one answer per request, in order, as far as the stream takes them:
      its own address for an echo request, the outcome of the dial-back for a verification
      request. Failures to answer do not stop the handler; other messages leave no trace. */
  method HandleBiStream(c: Codec, peer: SocketAddr, remotes: (nat, SocketAddr) -> Remote,
                        recv: RecvStream, send: SendStream, tx: MessageTx)
    requires c.Valid()
    modifies recv, send, tx
    ensures var dial, rs := Dials(c, remotes), Processed(ReadAll(c, old(recv.Content())), old(tx.room));
            && AllWritable(c, BiReplies(rs, peer, dial, 0))
            && send.written
               == old(send.written) + Taken(Frames(c, BiReplies(rs, peer, dial, 0)), old(send.credit))
    ensures tx.sent == old(tx.sent) + Passed(BiItems(ReadAll(c, old(recv.Content()))), old(tx.room))
  {
    hide *;
    ghost var dial := Dials(c, remotes);
    AheadMeaning(c, ReadAll(c, recv.Content()), tx.room, peer, dial, send.credit);
    ghost var items := tx.sent + ItemsAhead(ReadAll(c, recv.Content()), tx.room);
    ghost var bytes := send.written + BytesAhead(c, ReadAll(c, recv.Content()), tx.room, peer, dial, 0,
                                                 send.credit);
    var dials := 0;
    while true
      invariant tx.sent + ItemsAhead(ReadAll(c, recv.Content()), tx.room) == items
      invariant send.written
                + BytesAhead(c, ReadAll(c, recv.Content()), tx.room, peer, dial, dials, send.credit)
                == bytes
      decreases |recv.Content()|
    {
      ghost var rs := ReadAll(c, recv.Content());
      ReadAllStep(c, recv.Content());
      var r := ReadFromStream(c, recv);
      var stop: bool;
      stop, dials := HandleRead(c, peer, remotes, dials, r, rs, send, tx);
      if stop {
        break;
      }
    }
  }
}
