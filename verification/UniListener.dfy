/** `listen_on_uni_streams` of `src/connection.rs`: the flattened stream of messages and the loop
    that forwards them. */
module UniListener {
  import opened Types
  import opened Errors
  import opened Wire
  import opened Streams
  import opened Listening
  import opened Channel

  datatype Incoming = IncomingStream(script: seq<Event>) | IncomingFailed(error: QuinnConnectionError)

  function Abstract(i: Incoming): Accept {
    match i
    case IncomingStream(script) => Accepted(Flat(script))
    case IncomingFailed(e) => AcceptFailed(e)
  }

  function AbstractAll(ins: seq<Incoming>): seq<Accept> {
    if ins == [] then [] else [Abstract(ins[0])] + AbstractAll(ins[1..])
  }

  /** The streams of the peer flattened into one stream of messages. */
  class UniMessages {
    var current: RecvStream?
    var incoming: seq<Incoming>

    constructor (incoming: seq<Incoming>)
      ensures current == null && this.incoming == incoming
      ensures State() == Flatten(None, AbstractAll(incoming))
    {
      current := null;
      this.incoming := incoming;
    }

    ghost function State(): Flatten
      reads this, current
    {
      Flatten(if current == null then None else Some(current.Content()), AbstractAll(incoming))
    }

    method Next(c: Codec) returns (item: Option<Item>)
      modifies this, current
      ensures Pulled(item, State()) == Pull(c, old(State()))
      ensures current == null || current == old(current) || fresh(current)
    {
      hide Parse, Flat;
      while true
        invariant Pull(c, State()) == Pull(c, old(State()))
        invariant current == null || current == old(current) || fresh(current)
        decreases |incoming|, current != null
      {
        if current != null {
          var r := ReadFromStream(c, current);
          match OnlyUser(r) {
            case Ok(Some(payload)) =>
              return Some(Ok(payload));
            case Ok(None) =>
              current := null;
            case Err(e) =>
              current := null;
              return Some(Err(e));
          }
        } else if incoming == [] {
          return None;
        } else {
          var next := incoming[0];
          incoming := incoming[1..];
          match next {
            case IncomingStream(script) =>
              current := new RecvStream(script);
            case IncomingFailed(q) =>
              var e := FromQuinn(q);
              return if e.IsBenign() then None else Some(Err(RecvConnectionLost(e)));
          }
        }
      }
    }
  }

  /** Forwards messages until they run out, the connection is lost, the application drops its
      half, or, in round `dropAt`, all handles to the connection turn out to be gone.

      What the application gets is the flattened items of the streams, cut after the first
      connection loss, and of these the first so many that the two limits allow. */
  method ListenOnUniStreams(c: Codec, messages: UniMessages, tx: MessageTx, dropAt: Option<nat>)
    modifies messages, messages.current, tx
    ensures var items := Pending(c, old(messages.State()));
            var got := Passed(Passed(CutAtLoss(items), dropAt), old(tx.room));
            && tx.sent == old(tx.sent) + got
            && got <= items
            && LossOnlyLast(got)
  {
    hide *;
    ghost var items := Pending(c, messages.State());
    ghost var all := CutAtLoss(items);
    ghost var room, got := tx.room, [];
    var round := 0;
    while true
      invariant messages.current == null || messages.current == old(messages.current)
                || fresh(messages.current)
      invariant tx.sent == old(tx.sent) + got
      invariant round == |got| && got + CutAtLoss(Pending(c, messages.State())) == all
      invariant dropAt.Some? ==> round <= dropAt.value
      invariant room.Some? ==> round <= room.value
      invariant tx.room == if room.None? then None else Some(room.value - round)
      decreases Weight(messages.State())
    {
      PullCut(c, messages.State());
      var result: Option<Item> := None;
      if dropAt != Some(round) {
        result := messages.Next(c);
      }
      if result.None? {
        PassedPrefix(all, items, round, dropAt, room);
        break;
      }
      var break_ := false;
      if IsLossItem(result.value) {
        break_ := true;
      }
      Assoc(got, [result.value], CutAtLoss(Pending(c, messages.State())));
      Assoc(old(tx.sent), got, [result.value]);
      var ok := tx.Send(result.value);
      if ok {
        got := got + [result.value];
      } else {
        break_ := true;
      }
      if break_ {
        PassedPrefix(all, items, |got|, dropAt, room);
        break;
      }
      round := round + 1;
    }
  }

  /** What one pull takes off the items up to the first connection loss. */
  lemma PullCut(c: Codec, f: Flatten)
    ensures var p := Pull(c, f);
            var ahead := CutAtLoss(Pending(c, f));
            match p.item
            case None => ahead == []
            case Some(item) =>
              && Weight(p.next) < Weight(f)
              && ahead == if IsLossItem(item) then [item] else [item] + CutAtLoss(Pending(c, p.next))
  {
    hide Pull, Pending, CutAtLoss, Weight;
    PullIsHead(c, f);
    CutStep(Pending(c, f));
    var p := Pull(c, f);
    if p.item.Some? {
      ConsParts(p.item.value, Pending(c, p.next));
    }
  }

  lemma CutStep(items: seq<Item>)
    ensures items == [] ==> CutAtLoss(items) == []
    ensures items != [] && IsLossItem(items[0]) ==> CutAtLoss(items) == [items[0]]
    ensures items != [] && !IsLossItem(items[0]) ==>
              CutAtLoss(items) == [items[0]] + CutAtLoss(items[1..])
  {
  }

  lemma PassedPrefix(all: seq<Item>, items: seq<Item>, n: nat, dropAt: Option<nat>, room: Option<nat>)
    requires all == CutAtLoss(items) && n <= |all|
    requires dropAt.Some? ==> n <= dropAt.value
    requires room.Some? ==> n <= room.value
    requires n == |all| || dropAt == Some(n) || room == Some(n)
    ensures Passed(Passed(all, dropAt), room) == all[..n]
    ensures all[..n] <= items && LossOnlyLast(all[..n])
  {
    CutAtLossShape(items);
  }
}
