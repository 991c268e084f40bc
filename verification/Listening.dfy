/** What the listeners of `src/connection.rs` make of the streams a peer opens, as functions of
    the streams alone. */
module Listening {
  import opened Types
  import opened Errors
  import opened Wire

  /** What the listeners hand to the application: a user message or an error. */
  type Item = Result<seq<Byte>, RecvError>

  predicate IsLossItem(i: Item) {
    i.Err? && IsLoss(i.error)
  }

  /** What comes out of the QUIC library's stream of incoming streams. */
  datatype Accept = Accepted(content: seq<Sym>) | AcceptFailed(error: QuinnConnectionError)

  // ----- uni-streams --------------------------------------------------------------------------

  /** On a uni-stream only user messages are expected. */
  function OnlyUser(r: ReadResult): Result<Option<seq<Byte>>, RecvError> {
    match r
    case Ok(Some(UserMsg(payload))) => Ok(Some(payload))
    case Ok(None) => Ok(None)
    case Ok(other) => Err(RecvSerialization(Unexpected(other)))
    case Err(e) => Err(e)
  }

  /** The items of one uni-stream: its user messages up to its end or first error, included. */
  function StreamItems(c: Codec, s: seq<Sym>): seq<Item>
    decreases |s|
  {
    var p := Parse(c, s);
    match OnlyUser(p.result)
    case Ok(None) => []
    case Ok(Some(payload)) => [Ok(payload)] + StreamItems(c, p.rest)
    case Err(e) => [Err(e)]
  }

  /** The items of all incoming uni-streams, one stream after the other in the order they were
      accepted. A benign failure to accept ends the sequence, any other is an item. */
  function FlatItems(c: Codec, accepts: seq<Accept>): seq<Item> {
    if accepts == [] then []
    else
      match accepts[0]
      case Accepted(s) => StreamItems(c, s) + FlatItems(c, accepts[1..])
      case AcceptFailed(q) =>
        if FromQuinn(q).IsBenign() then []
        else [Err(RecvConnectionLost(FromQuinn(q)))] + FlatItems(c, accepts[1..])
  }

  /** Everything up to and including the first connection loss. */
  function CutAtLoss(items: seq<Item>): seq<Item> {
    if items == [] then []
    else if IsLossItem(items[0]) then [items[0]]
    else [items[0]] + CutAtLoss(items[1..])
  }

  ghost predicate LossOnlyLast(items: seq<Item>) {
    forall i :: 0 <= i < |items| && IsLossItem(items[i]) ==> i == |items| - 1
  }

  /** The cut is a prefix, has a loss at most at its end, and leaves something out only after one. */
  lemma {:induction false} CutAtLossShape(items: seq<Item>)
    ensures CutAtLoss(items) <= items
    ensures LossOnlyLast(CutAtLoss(items))
    ensures CutAtLoss(items) == items
            || (CutAtLoss(items) != [] && IsLossItem(CutAtLoss(items)[|CutAtLoss(items)| - 1]))
  {
    if items != [] {
      CutAtLossShape(items[1..]);
    }
  }

  ghost predicate NoLoss(items: seq<Item>) {
    forall i :: 0 <= i < |items| ==> !IsLossItem(items[i])
  }

  lemma {:induction false} FlatItemsConcat(c: Codec, a: seq<Accept>, b: seq<Accept>)
    requires forall i :: 0 <= i < |a| ==> a[i].Accepted?
    ensures FlatItems(c, a + b) == FlatItems(c, a) + FlatItems(c, b)
  {
    hide Parse, StreamItems;
    if a == [] {
      assert a + b == b;
    } else {
      FlatItemsConcat(c, a[1..], b);
      ConcatParts(a, b);
      Assoc(StreamItems(c, a[0].content), FlatItems(c, a[1..]), FlatItems(c, b));
    }
  }

  /** The state of the flattened stream of messages: the stream being read and those to come. */
  datatype Flatten = Flatten(current: Option<seq<Sym>>, accepts: seq<Accept>)

  datatype Pulled = Pulled(item: Option<Item>, next: Flatten)

  /** Asking the flattened stream for its next item. */
  function Pull(c: Codec, f: Flatten): Pulled
    decreases |f.accepts|, f.current.Some?
  {
    match f.current
    case Some(s) =>
      var p := Parse(c, s);
      (match OnlyUser(p.result)
       case Ok(Some(payload)) => Pulled(Some(Ok(payload)), f.(current := Some(p.rest)))
       case Ok(None) => Pull(c, f.(current := None))
       case Err(e) => Pulled(Some(Err(e)), f.(current := None)))
    case None =>
      if f.accepts == [] then Pulled(None, f)
      else
        match f.accepts[0]
        case Accepted(s) => Pull(c, Flatten(Some(s), f.accepts[1..]))
        case AcceptFailed(q) =>
          var e := FromQuinn(q);
          Pulled(if e.IsBenign() then None else Some(Err(RecvConnectionLost(e))),
                 Flatten(None, f.accepts[1..]))
  }

  /** The items the flattened stream still has to give. */
  function Pending(c: Codec, f: Flatten): seq<Item> {
    (if f.current.Some? then StreamItems(c, f.current.value) else [])
    + FlatItems(c, f.accepts)
  }

  /** How much there is left to pull: bounds the number of items. */
  function Weight(f: Flatten): nat {
    (if f.current.Some? then |f.current.value| + 1 else 0) + AcceptWeight(f.accepts)
  }

  function AcceptWeight(accepts: seq<Accept>): nat {
    if accepts == [] then 0
    else (if accepts[0].Accepted? then |accepts[0].content| + 2 else 1) + AcceptWeight(accepts[1..])
  }

  /** Pulling one item at a time gives the flattened items in order. */
  lemma {:induction false} PullIsHead(c: Codec, f: Flatten)
    ensures var p := Pull(c, f);
            && Pending(c, f) == (if p.item.None? then [] else [p.item.value] + Pending(c, p.next))
            && (p.item.Some? ==> Weight(p.next) < Weight(f))
    decreases |f.accepts|, f.current.Some?
  {
    hide Parse;
    match f.current
    case Some(s) =>
      var p := Parse(c, s);
      match OnlyUser(p.result) {
        case Ok(None) =>
          PullIsHead(c, f.(current := None));
        case _ =>
      }
    case None =>
      if f.accepts != [] && f.accepts[0].Accepted? {
        PullIsHead(c, Flatten(Some(f.accepts[0].content), f.accepts[1..]));
      }
  }

  // ----- bi-streams ---------------------------------------------------------------------------

  /** How a dial-back ended. Only an echo response counts as success. */
  datatype Dial =
    | ConnectFailed
    | OpenFailed
    | RequestFailed
    | Responded(response: ReadResult)
    | DialTimedOut
  {
    predicate Verified() {
      && Responded?
      && response.Ok?
      && response.value.Some?
      && response.value.value.EndpointEchoResp?
    }
  }

  /** The outcome of the `k`-th dial-back, made to the given address. */
  type Dialler = (nat, SocketAddr) -> Dial

  predicate IsUser(r: ReadResult) {
    r.Ok? && r.value.Some? && r.value.value.UserMsg?
  }

  predicate IsEchoReq(r: ReadResult) {
    r == Ok(Some(EndpointEchoReq))
  }

  predicate IsVerificationReq(r: ReadResult) {
    r.Ok? && r.value.Some? && r.value.value.EndpointVerificationReq?
  }

  predicate MakesItem(r: ReadResult) {
    r.Err? || IsUser(r)
  }

  function ItemOf(r: ReadResult): Item
    requires MakesItem(r)
  {
    if r.Err? then Err(r.error) else Ok(r.value.value.payload)
  }

  /** The items a bi-stream contributes: every error and every user message, in order. */
  function BiItems(rs: seq<ReadResult>): seq<Item> {
    if rs == [] then []
    else (if MakesItem(rs[0]) then [ItemOf(rs[0])] else []) + BiItems(rs[1..])
  }

  predicate IsRequest(m: WireMsg) {
    m.EndpointEchoReq? || m.EndpointVerificationReq?
  }

  /** The requests among some messages, in order. */
  function Requests(ms: seq<WireMsg>): seq<WireMsg> {
    if ms == [] then [] else (if IsRequest(ms[0]) then [ms[0]] else []) + Requests(ms[1..])
  }

  /** The messages among the reads of a stream, in order. */
  function MessagesIn(rs: seq<ReadResult>): seq<WireMsg> {
    if rs == [] then []
    else (if rs[0].Ok? && rs[0].value.Some? then [rs[0].value.value] else []) + MessagesIn(rs[1..])
  }

  /** The answers given on a bi-stream: one per request, in order, `k` being the number of
      dial-backs made before. */
  function BiReplies(rs: seq<ReadResult>, peer: SocketAddr, dial: Dialler, k: nat): seq<WireMsg> {
    if rs == [] then []
    else if IsEchoReq(rs[0]) then
      [EndpointEchoResp(peer)] + BiReplies(rs[1..], peer, dial, k)
    else if IsVerificationReq(rs[0]) then
      [EndpointVerificationResp(dial(k, rs[0].value.value.target).Verified())]
      + BiReplies(rs[1..], peer, dial, k + 1)
    else
      BiReplies(rs[1..], peer, dial, k)
  }

  /** The reads a handler gets through when the application accepts only `room` more items: it
      stops with the read whose item was refused. */
  function Processed(rs: seq<ReadResult>, room: Option<nat>): (ps: seq<ReadResult>)
    ensures ps <= rs
    ensures room.None? ==> ps == rs
  {
    if rs == [] then []
    else if !MakesItem(rs[0]) || room.None? then [rs[0]] + Processed(rs[1..], room)
    else if room.value == 0 then [rs[0]]
    else [rs[0]] + Processed(rs[1..], Some(room.value - 1))
  }
}
