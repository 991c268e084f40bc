/** The framing codec of `src/wire_msg.rs`, as pure functions.

    A receive stream is a sequence of symbols: bytes in order, possibly interrupted by faults; the
    end of the sequence is the peer's FIN. */
module Wire {
  import opened Types
  import opened Errors

  const MSG_HEADER_LEN := 9
  const MSG_PROTOCOL_VERSION: U16 := 1
  const USER_MSG_FLAG: Byte := 0
  const ECHO_SRVC_MSG_FLAG: Byte := 1

  // ----- big-endian integers ----------------------------------------------------------------

  ghost function Pow256(k: nat): nat {
    if k == 0 then 1 else 256 * Pow256(k - 1)
  }

  function ToBe(k: nat, x: nat): (s: seq<Byte>)
    ensures |s| == k
  {
    if k == 0 then [] else ToBe(k - 1, x / 256) + [x % 256]
  }

  function FromBe(s: seq<Byte>): nat {
    if s == [] then 0 else 256 * FromBe(s[..|s| - 1]) + s[|s| - 1]
  }

  lemma {:induction false} BeRoundTrip(k: nat, x: nat)
    requires x < Pow256(k)
    ensures FromBe(ToBe(k, x)) == x
  {
    if k > 0 {
      BeRoundTrip(k - 1, x / 256);
      assert ToBe(k, x)[..k - 1] == ToBe(k - 1, x / 256);
    }
  }

  lemma {:induction false} BeInverse(s: seq<Byte>)
    ensures FromBe(s) < Pow256(|s|)
    ensures ToBe(|s|, FromBe(s)) == s
  {
    if s != [] {
      BeInverse(s[..|s| - 1]);
      assert s == s[..|s| - 1] + [s[|s| - 1]];
    }
  }

  lemma Pow256Values()
    ensures Pow256(2) == 0x1_0000
    ensures Pow256(4) == 0x1_0000_0000
  {
    assert Pow256(1) == 256;
    assert Pow256(3) == 256 * Pow256(2);
  }

  // ----- message header ---------------------------------------------------------------------

  datatype MsgHeader =
    MsgHeader(version: U16, dataLen: U32, usrMsgFlag: Byte, reserved: (Byte, Byte))
  {
    function ToBytes(): (s: seq<Byte>)
      ensures |s| == MSG_HEADER_LEN
    {
      ToBe(2, version) + ToBe(4, dataLen) + [usrMsgFlag, 0, 0]
    }

    static function FromBytes(s: seq<Byte>): MsgHeader
      requires |s| == MSG_HEADER_LEN
    {
      BeInverse(s[..2]);
      BeInverse(s[2..6]);
      Pow256Values();
      MsgHeader(FromBe(s[..2]), FromBe(s[2..6]), s[6], (0, 0))
    }

    static function New(msg: seq<Byte>, flag: Byte): Result<MsgHeader, SendError> {
      if |msg| > U32_MAX then
        Err(SendSerialization(TooLong(|msg|)))
      else
        Ok(MsgHeader(MSG_PROTOCOL_VERSION, |msg|, flag, (0, 0)))
    }
  }

  /** The layout on the wire: version and length with the most significant byte first, the flag,
      and two zero bytes. */
  lemma HeaderLayout(h: MsgHeader)
    ensures var s := h.ToBytes();
            && (s[0] as int) * 0x100 + s[1] == h.version
            && (s[2] as int) * 0x100_0000 + (s[3] as int) * 0x1_0000 + (s[4] as int) * 0x100 + s[5]
               == h.dataLen
            && s[6] == h.usrMsgFlag && s[7] == 0 && s[8] == 0
  {
    var s := h.ToBytes();
    assert s[..2] == ToBe(2, h.version);
    assert s[2..6] == ToBe(4, h.dataLen);
    Pow256Values();
    BeRoundTrip(2, h.version);
    BeRoundTrip(4, h.dataLen);
    FromBeTwo(s[0], s[1]);
    assert s[..2] == [s[0], s[1]];
    FromBeFour(s[2], s[3], s[4], s[5]);
    assert s[2..6] == [s[2], s[3], s[4], s[5]];
  }

  lemma FromBeTwo(a: Byte, b: Byte)
    ensures FromBe([a, b]) == 256 * a + b
  {
    assert [a, b][..1] == [a];
    assert FromBe([a]) == a;
  }

  lemma FromBeFour(a: Byte, b: Byte, c: Byte, d: Byte)
    ensures FromBe([a, b, c, d]) == (a as int) * 0x100_0000 + (b as int) * 0x1_0000 + (c as int) * 0x100 + d
  {
    FromBeTwo(a, b);
    assert [a, b, c][..2] == [a, b];
    assert FromBe([a, b, c]) == 256 * FromBe([a, b]) + c;
    assert [a, b, c, d][..3] == [a, b, c];
  }

  /** Decoding an encoded header gives back everything but the reserved bytes, which come back
      as zero. */
  lemma HeaderRoundTrip(h: MsgHeader)
    ensures MsgHeader.FromBytes(h.ToBytes()) == h.(reserved := (0, 0))
    ensures MsgHeader.FromBytes(h.ToBytes()) == h <==> h.reserved == (0, 0)
  {
    var s := h.ToBytes();
    assert s[..2] == ToBe(2, h.version);
    assert s[2..6] == ToBe(4, h.dataLen);
    Pow256Values();
    BeRoundTrip(2, h.version);
    BeRoundTrip(4, h.dataLen);
  }

  /** Re-encoding a decoded header restores the bytes exactly when both reserved bytes are zero:
      any version is accepted and kept, the reserved bytes are dropped. */
  lemma HeaderReencode(s: seq<Byte>)
    requires |s| == MSG_HEADER_LEN
    ensures MsgHeader.FromBytes(s).ToBytes() == s <==> s[7] == 0 && s[8] == 0
  {
    BeInverse(s[..2]);
    BeInverse(s[2..6]);
    assert s == s[..2] + s[2..6] + [s[6], s[7], s[8]];
    var t := MsgHeader.FromBytes(s).ToBytes();
    assert t[7] == 0 && t[8] == 0;
  }

  // ----- the service-message codec ----------------------------------------------------------

  /** The serialiser used for every message that is not a user message. */
  datatype Codec = Codec(encode: WireMsg -> seq<Byte>, decode: seq<Byte> -> Option<WireMsg>)
  {
    /** Encoding a service message yields at least one byte and fits in a frame, and decoding
        undoes it. Nothing is promised of bytes that no encoder produced: these may even decode
        to a user message. */
    ghost predicate Valid() {
      forall m: WireMsg :: !m.UserMsg? ==>
        && 0 < |encode(m)| <= U32_MAX
        && decode(encode(m)) == Some(m)
    }
  }

  // ----- writing ----------------------------------------------------------------------------

  function Body(c: Codec, m: WireMsg): seq<Byte> {
    if m.UserMsg? then m.payload else c.encode(m)
  }

  function Flag(m: WireMsg): Byte {
    if m.UserMsg? then USER_MSG_FLAG else ECHO_SRVC_MSG_FLAG
  }

  /** The bytes of one message on the wire, or the reason nothing is written. */
  function Frame(c: Codec, m: WireMsg): Result<seq<Byte>, SendError> {
    var body := Body(c, m);
    match MsgHeader.New(body, Flag(m))
    case Err(e) => Err(e)
    case Ok(header) => Ok(header.ToBytes() + body)
  }

  // ----- reading ----------------------------------------------------------------------------

  datatype Sym = Data(b: Byte) | Fault(e: ReadError)

  function Symbols(bytes: seq<Byte>): (s: seq<Sym>)
    ensures |s| == |bytes|
    ensures forall i :: 0 <= i < |s| ==> s[i] == Data(bytes[i])
  {
    seq(|bytes|, i requires 0 <= i < |bytes| => Data(bytes[i]))
  }

  datatype ExactRead = ExactRead(got: Result<seq<Byte>, ReadExactError>, rest: seq<Sym>)

  /** The library's `read_exact`: `n` bytes, or the fault or FIN met before them. */
  function ReadExact(n: nat, s: seq<Sym>): (r: ExactRead)
    ensures r.got.Ok? ==> |r.got.value| == n && n + |r.rest| == |s|
    ensures |r.rest| <= |s|
    ensures r.got.Err? && s != [] ==> |r.rest| < |s|
    decreases n, s
  {
    if n == 0 then
      ExactRead(Ok([]), s)
    else if s == [] then
      ExactRead(Err(FinishedEarly), [])
    else
      match s[0]
      case Fault(e) => ExactRead(Err(ReadFailed(e)), s[1..])
      case Data(b) =>
        var tail := ReadExact(n - 1, s[1..]);
        if tail.got.Ok? then ExactRead(Ok([b] + tail.got.value), tail.rest) else tail
  }

  type ReadResult = Result<Option<WireMsg>, RecvError>

  function DecodeBody(c: Codec, flag: Byte, data: seq<Byte>): (r: Result<WireMsg, RecvError>)
    ensures r.Err? ==> r.error.RecvSerialization?
  {
    if data == [] then
      Err(RecvSerialization(EmptyMessage))
    else if flag == USER_MSG_FLAG then
      Ok(UserMsg(data))
    else if flag == ECHO_SRVC_MSG_FLAG then
      match c.decode(data)
      case Some(m) => Ok(m)
      case None => Err(RecvSerialization(Undecodable))
    else
      Err(RecvSerialization(InvalidFlag(flag)))
  }

  function Present(r: Result<WireMsg, RecvError>): ReadResult {
    match r
    case Ok(m) => Ok(Some(m))
    case Err(e) => Err(e)
  }

  datatype Parsed = Parsed(result: ReadResult, rest: seq<Sym>)

  /** One call of `read_from_stream`, in one shot: its result and what is left of the stream. */
  function Parse(c: Codec, s: seq<Sym>): (p: Parsed)
    ensures s != [] ==> |p.rest| < |s|
    ensures s == [] ==> p == Parsed(Ok(None), [])
  {
    if s == [] then
      Parsed(Ok(None), [])
    else if s[0].Fault? then
      var e := FromRead(s[0].e);
      Parsed(if IsBenignLoss(e) then Ok(None) else Err(e), s[1..])
    else
      var h := ReadExact(MSG_HEADER_LEN, s);
      match h.got
      case Err(e) => Parsed(Err(FromReadExact(e)), h.rest)
      case Ok(bytes) =>
        var header := MsgHeader.FromBytes(bytes);
        var d := ReadExact(header.dataLen, h.rest);
        match d.got
        case Err(e) => Parsed(Err(FromReadExact(e)), d.rest)
        case Ok(data) => Parsed(Present(DecodeBody(c, header.usrMsgFlag, data)), d.rest)
  }

  /** After this result there is nothing more to read. */
  predicate EndsReading(r: ReadResult) {
    r == Ok(None) || (r.Err? && IsLoss(r.error))
  }

  /** The results of reading a stream over and over, up to and including the first end of stream
      or connection loss. */
  function ReadAll(c: Codec, s: seq<Sym>): (rs: seq<ReadResult>)
    ensures rs != []
    decreases |s|
  {
    var p := Parse(c, s);
    if EndsReading(p.result) then
      [p.result]
    else
      [p.result] + ReadAll(c, p.rest)
  }
}
