/** The two halves of a QUIC stream as the library sees them, and `read_from_stream` and
    `write_to_stream` working on them in place.

    A receive stream is delivered in arbitrary pieces; a send stream takes bytes until, possibly,
    it fails for good. */
module Streams {
  import opened Types
  import opened Errors
  import opened Wire
  import opened WireProofs

  // ----- receiving ----------------------------------------------------------------------------

  datatype Event = Chunk(bytes: seq<Byte>) | Broken(error: ReadError)

  function EventSymbols(ev: Event): seq<Sym> {
    match ev
    case Chunk(bytes) => Symbols(bytes)
    case Broken(e) => [Fault(e)]
  }

  /** What a delivery script amounts to once the chunk boundaries are forgotten. */
  function Flat(script: seq<Event>): seq<Sym> {
    if script == [] then [] else EventSymbols(script[0]) + Flat(script[1..])
  }

  lemma SymbolsJoin(a: seq<Byte>, b: seq<Byte>, rest: seq<Sym>)
    ensures Symbols(a) + (Symbols(b) + rest) == Symbols(a + b) + rest
  {
  }

  lemma FlatHead(script: seq<Event>)
    ensures script == [] ==> Flat(script) == []
    ensures script != [] && script[0] == Chunk([]) ==> Flat(script) == Flat(script[1..])
    ensures script != [] && script[0].Broken? ==> Flat(script) == [Fault(script[0].error)] + Flat(script[1..])
  {
    assert [] + Flat(script) == Flat(script);
    if script != [] {
      assert Symbols([]) + Flat(script[1..]) == Flat(script[1..]);
    }
  }

  lemma FlatSplit(bytes: seq<Byte>, n: nat, rest: seq<Event>)
    requires n <= |bytes|
    ensures Flat([Chunk(bytes)] + rest)
            == Symbols(bytes[..n]) + Flat([Chunk(bytes[n..])] + rest)
  {
    var whole, left := [Chunk(bytes)] + rest, [Chunk(bytes[n..])] + rest;
    assert whole[1..] == rest && left[1..] == rest;
    assert bytes == bytes[..n] + bytes[n..];
    SymbolsJoin(bytes[..n], bytes[n..], Flat(rest));
  }

  method Fill(buf: array<Byte>, lo: nat, bytes: seq<Byte>)
    requires lo + |bytes| <= buf.Length
    modifies buf
    ensures buf[..lo] == old(buf[..lo])
    ensures buf[lo..lo + |bytes|] == bytes
  {
    forall i | 0 <= i < |bytes| {
      buf[lo + i] := bytes[i];
    }
  }

  class RecvStream {
    var script: seq<Event>

    constructor (script: seq<Event>)
      ensures this.script == script
    {
      this.script := script;
    }

    ghost function Content(): seq<Sym>
      reads this
    {
      Flat(script)
    }

    /** One short read into `buf[lo..]`: whatever part of the next chunk fits. */
    method Read(buf: array<Byte>, lo: nat) returns (r: Result<Option<nat>, ReadError>)
      requires lo < buf.Length
      modifies this, buf
      ensures buf[..lo] == old(buf[..lo])
      ensures r == Ok(None) ==> old(Content()) == [] == Content()
      ensures r.Err? ==> old(Content()) == [Fault(r.error)] + Content()
      ensures r.Ok? && r.value.Some? ==>
                && 0 < r.value.value <= buf.Length - lo
                && old(Content()) == Symbols(buf[lo..lo + r.value.value]) + Content()
    {
      hide Flat, EventSymbols, Symbols;
      while script != [] && script[0] == Chunk([])
        modifies this
        invariant Content() == old(Content())
        decreases |script|
      {
        FlatHead(script);
        script := script[1..];
      }
      FlatHead(script);
      if script == [] {
        return Ok(None);
      }
      match script[0] {
        case Broken(e) =>
          script := script[1..];
          return Err(e);
        case Chunk(bytes) =>
          assert script == [Chunk(bytes)] + script[1..];
          var n := Min(|bytes|, buf.Length - lo);
          FlatSplit(bytes, n, script[1..]);
          Fill(buf, lo, bytes[..n]);
          script := [Chunk(bytes[n..])] + script[1..];
          return Ok(Some(n));
      }
    }

    /** Reads until `buf[lo..]` is full. */
    method ReadExactly(buf: array<Byte>, lo: nat) returns (r: Result<(), ReadExactError>)
      requires lo <= buf.Length
      modifies this, buf
      ensures buf[..lo] == old(buf[..lo])
      ensures var e := ReadExact(buf.Length - lo, old(Content()));
              && Content() == e.rest
              && (if r.Ok? then e.got == Ok(buf[lo..]) else e.got == Err(r.error))
      decreases buf.Length - lo
    {
      hide *;
      ghost var s := Content();
      ReadExactStep(buf.Length - lo, s);
      if lo == buf.Length {
        assert buf[lo..] == [];
        return Ok(());
      }
      var got := Read(buf, lo);
      match got {
        case Err(e) =>
          return Err(ReadFailed(e));
        case Ok(None) =>
          return Err(FinishedEarly);
        case Ok(Some(n)) =>
          ghost var part := buf[lo..lo + n];
          ghost var front := buf[..lo + n];
          assert front[..lo] == buf[..lo] && front[lo..] == part;
          ExactOfSymbols(part, Content());
          ReadExactSplit(n, buf.Length - lo - n, s);
          r := ReadExactly(buf, lo + n);
          assert buf[..lo] == front[..lo];
          assert buf[lo..] == front[lo..] + buf[lo + n..];
      }
    }
  }

  datatype HeaderRead = Quiet | Failed(error: RecvError) | Full

  /** A short read of the header, topped up when it fell short; nothing at all, or a benign loss
      in the place of the first byte, is a quiet end. */
  method ReadHeader(recv: RecvStream, headerBytes: array<Byte>) returns (r: HeaderRead)
    requires headerBytes.Length == MSG_HEADER_LEN
    modifies recv, headerBytes
    ensures var s := old(recv.Content());
            if s == [] then
              r == Quiet && recv.Content() == []
            else if s[0].Fault? then
              var e := FromRead(s[0].e);
              && r == (if IsBenignLoss(e) then Quiet else Failed(e))
              && recv.Content() == s[1..]
            else
              var h := ReadExact(MSG_HEADER_LEN, s);
              && recv.Content() == h.rest
              && match h.got
                 case Ok(bytes) => r == Full && headerBytes[..] == bytes
                 case Err(e) => r == Failed(FromReadExact(e))
  {
    hide ReadExact;
    ghost var s := recv.Content();
    var first := recv.Read(headerBytes, 0);
    match first {
      case Err(error) =>
        var e := FromRead(error);
        return if IsBenignLoss(e) then Quiet else Failed(e);
      case Ok(None) =>
        return Quiet;
      case Ok(Some(len)) =>
        ghost var got := headerBytes[0..len];
        ExactOfSymbols(got, recv.Content());
        assert s[0] == Symbols(got)[0];
        if len < MSG_HEADER_LEN {
          ReadExactSplit(len, MSG_HEADER_LEN - len, s);
          assert headerBytes[..len] == got;
          var topUp := recv.ReadExactly(headerBytes, len);
          if topUp.Err? {
            return Failed(FromReadExact(topUp.error));
          }
          assert headerBytes[..] == got + headerBytes[len..];
        } else {
          assert headerBytes[..] == got;
        }
        return Full;
    }
  }

  lemma ExactOfSymbols(bytes: seq<Byte>, rest: seq<Sym>)
    ensures ReadExact(|bytes|, Symbols(bytes) + rest) == ExactRead(Ok(bytes), rest)
  {
    LeadOfSymbols(bytes, rest);
    ReadExactMeaning(|bytes|, Symbols(bytes) + rest);
  }

  /** Reads one message: the header, then as many body bytes as it claims. Whatever the chunks,
      this is `Parse` of the bytes they carry. */
  method ReadFromStream(c: Codec, recv: RecvStream) returns (r: ReadResult)
    modifies recv
    ensures Parsed(r, recv.Content()) == Parse(c, old(recv.Content()))
  {
    hide ReadExact, MsgHeader.FromBytes, DecodeBody;
    var headerBytes: array<Byte> := new Byte[MSG_HEADER_LEN](_ => 0);
    var h := ReadHeader(recv, headerBytes);
    if h.Quiet? {
      return Ok(None);
    } else if h.Failed? {
      return Err(h.error);
    }
    var msgHeader := MsgHeader.FromBytes(headerBytes[..]);
    var data: array<Byte> := new Byte[msgHeader.dataLen](_ => 0);
    var body := recv.ReadExactly(data, 0);
    if body.Err? {
      return Err(FromReadExact(body.error));
    }
    assert data[0..] == data[..];
    return Present(DecodeBody(c, msgHeader.usrMsgFlag, data[..]));
  }

  /** Reads a stream to its end or to the loss of its connection, as every consumer does. */
  method ReadToEnd(c: Codec, recv: RecvStream) returns (rs: seq<ReadResult>)
    modifies recv
    ensures rs == ReadAll(c, old(recv.Content()))
  {
    hide Parse;
    rs := [];
    while true
      invariant rs + ReadAll(c, recv.Content()) == ReadAll(c, old(recv.Content()))
      decreases |recv.Content()|
    {
      ghost var s := recv.Content();
      var r := ReadFromStream(c, recv);
      rs := rs + [r];
      if EndsReading(r) {
        assert ReadAll(c, s) == [r];
        return;
      }
      assert ReadAll(c, s) == [r] + ReadAll(c, recv.Content());
      assert s != [];
    }
  }

  /** Sequence round trip independent of chunking: however the frames of `ms` were cut up, reading
      the stream returns every message, an error in the place of each empty user message, and then
      the end. */
  method ReadMessages(c: Codec, recv: RecvStream, ghost ms: seq<WireMsg>) returns (rs: seq<ReadResult>)
    requires c.Valid() && AllWritable(c, ms)
    requires recv.Content() == Symbols(Frames(c, ms))
    modifies recv
    ensures rs == ReadbackEach(ms) + [Ok(None)]
    ensures UserMsg([]) !in ms ==> rs == Delivered(ms) + [Ok(None)]
  {
    SequenceRoundTrip(c, ms, []);
    SequenceIntactIffNoEmpty(c, ms);
    assert recv.Content() + [] == recv.Content();
    assert ReadAll(c, []) == [Ok(None)];
    rs := ReadToEnd(c, recv);
  }

  // ----- sending ------------------------------------------------------------------------------

  /** A send stream takes bytes in order. With `credit == Some(n)` it takes `n` more and then
      fails for good with `failure`. */
  class SendStream {
    var written: seq<Byte>
    var credit: Option<nat>
    const failure: WriteError

    constructor (credit: Option<nat>, failure: WriteError)
      ensures written == [] && this.credit == credit && this.failure == failure
    {
      written := [];
      this.credit := credit;
      this.failure := failure;
    }

    method WriteAll(bytes: seq<Byte>) returns (r: Result<(), WriteError>)
      modifies this
      ensures written == old(written) + Taken(bytes, old(credit))
      ensures credit == Spent(|bytes|, old(credit))
      ensures r == if Taken(bytes, old(credit)) == bytes then Ok(()) else Err(failure)
    {
      if credit.None? || |bytes| <= credit.value {
        written := written + bytes;
        credit := Spent(|bytes|, credit);
        return Ok(());
      }
      written := written + bytes[..credit.value];
      credit := Some(0);
      return Err(failure);
    }
  }

  /** How much of `bytes` reaches a stream with the given credit. */
  function Taken(bytes: seq<Byte>, credit: Option<nat>): (taken: seq<Byte>)
    ensures taken <= bytes
    ensures taken == bytes <==> credit.None? || |bytes| <= credit.value
  {
    if credit.None? then bytes else Take(bytes, credit.value)
  }

  function Spent(n: nat, credit: Option<nat>): Option<nat> {
    if credit.None? then None else if n <= credit.value then Some(credit.value - n) else Some(0)
  }

  /** Two writes in a row reach the stream as one. */
  lemma TakenJoin(a: seq<Byte>, b: seq<Byte>, credit: Option<nat>)
    ensures Taken(a + b, credit) == Taken(a, credit) + Taken(b, Spent(|a|, credit))
    ensures Spent(|a + b|, credit) == Spent(|b|, Spent(|a|, credit))
  {
  }

  /** Writes the header and then the body. A message that is too long is refused before any byte
      is written; otherwise the stream gets the frame, or as much of it as it takes. */
  method WriteToStream(c: Codec, m: WireMsg, send: SendStream) returns (r: Result<(), SendError>)
    modifies send
    ensures Frame(c, m).Err? ==>
              r == Err(Frame(c, m).error) && send.written == old(send.written)
              && send.credit == old(send.credit)
    ensures Frame(c, m).Ok? ==>
              var f := Frame(c, m).value;
              && send.written == old(send.written) + Taken(f, old(send.credit))
              && send.credit == Spent(|f|, old(send.credit))
              && r == if Taken(f, old(send.credit)) == f then Ok(())
                      else Err(FromWrite(send.failure))
  {
    var msgBytes := Body(c, m);
    var header := MsgHeader.New(msgBytes, Flag(m));
    if header.Err? {
      return Err(header.error);
    }
    var headerBytes := header.value.ToBytes();
    TakenJoin(headerBytes, msgBytes, send.credit);
    var first := send.WriteAll(headerBytes);
    if first.Err? {
      assert send.credit == Some(0);
      return Err(FromWrite(first.error));
    }
    var second := send.WriteAll(msgBytes);
    if second.Err? {
      return Err(FromWrite(second.error));
    }
    return Ok(());
  }
}
