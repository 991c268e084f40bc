/** The sending half of the channel that carries items to the application, as one task sees it. */
module Channel {
  import opened Types
  import opened Listening

  /** With `room == Some(n)` the application takes `n` more items and then drops its half. */
  class MessageTx {
    var sent: seq<Item>
    var room: Option<nat>

    constructor (room: Option<nat>)
      ensures sent == [] && this.room == room
    {
      sent := [];
      this.room := room;
    }

    method Send(item: Item) returns (ok: bool)
      modifies this
      ensures ok <==> old(room) != Some(0)
      ensures sent == if ok then old(sent) + [item] else old(sent)
      ensures room == if old(room).Some? && ok then Some(old(room).value - 1) else old(room)
    {
      ok := room != Some(0);
      if ok {
        sent := sent + [item];
        if room.Some? {
          room := Some(room.value - 1);
        }
      }
    }
  }

  /** What gets through out of `items`. */
  function Passed(items: seq<Item>, room: Option<nat>): seq<Item> {
    if room.None? then items else Take(items, room.value)
  }
}
