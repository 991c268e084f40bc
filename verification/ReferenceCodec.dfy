/** One concrete serialiser for service messages, showing that the contract the rest of the model
    asks of a codec can be met: a tag byte, then the fields in fixed width. */
module ReferenceCodec {
  import opened Types
  import opened Wire

  function EncodeAddr(a: SocketAddr): seq<Byte> {
    (match a.ip
     case V4(bits) => [4] + ToBe(4, bits)
     case V6(bits) => [6] + ToBe(16, bits)) + ToBe(2, a.port)
  }

  function DecodeAddr(s: seq<Byte>): Option<SocketAddr> {
    Pow256Values();
    Pow256Of16();
    if |s| == 7 && s[0] == 4 then
      BeInverse(s[1..5]);
      BeInverse(s[5..]);
      Some(SocketAddr(V4(FromBe(s[1..5])), FromBe(s[5..])))
    else if |s| == 19 && s[0] == 6 then
      BeInverse(s[1..17]);
      BeInverse(s[17..]);
      Some(SocketAddr(V6(FromBe(s[1..17])), FromBe(s[17..])))
    else
      None
  }

  function Encode(m: WireMsg): seq<Byte> {
    match m
    case EndpointEchoReq => [0]
    case EndpointEchoResp(a) => [1] + EncodeAddr(a)
    case EndpointVerificationReq(a) => [2] + EncodeAddr(a)
    case EndpointVerificationResp(valid) => [3, if valid then 1 else 0]
    case UserMsg(payload) => [4] + payload
  }

  function Decode(s: seq<Byte>): Option<WireMsg> {
    if s == [0] then
      Some(EndpointEchoReq)
    else if s == [3, 0] || s == [3, 1] then
      Some(EndpointVerificationResp(s[1] == 1))
    else if |s| > 0 && s[0] == 4 then
      Some(UserMsg(s[1..]))
    else if |s| > 0 && (s[0] == 1 || s[0] == 2) then
      match DecodeAddr(s[1..])
      case None => None
      case Some(a) => Some(if s[0] == 1 then EndpointEchoResp(a) else EndpointVerificationReq(a))
    else
      None
  }

  function Make(): Codec {
    Codec(Encode, Decode)
  }

  lemma Pow256Of16()
    ensures Pow256(16) == 0x1_0000_0000_0000_0000_0000_0000_0000_0000
  {
    Pow256Values();
    assert Pow256(6) == 256 * Pow256(5) == 0x1_0000_0000_0000;
    assert Pow256(8) == 256 * Pow256(7) == 0x1_0000_0000_0000_0000;
    assert Pow256(10) == 256 * Pow256(9) == 0x1_0000_0000_0000_0000_0000;
    assert Pow256(12) == 256 * Pow256(11) == 0x1_0000_0000_0000_0000_0000_0000;
    assert Pow256(14) == 256 * Pow256(13) == 0x1_0000_0000_0000_0000_0000_0000_0000;
  }

  lemma AddrRoundTrip(a: SocketAddr)
    ensures DecodeAddr(EncodeAddr(a)) == Some(a)
  {
    var s := EncodeAddr(a);
    Pow256Values();
    BeRoundTrip(2, a.port);
    match a.ip
    case V4(bits) =>
      assert s[1..5] == ToBe(4, bits) && s[5..] == ToBe(2, a.port);
      BeRoundTrip(4, bits);
    case V6(bits) =>
      Pow256Of16();
      assert s[1..17] == ToBe(16, bits) && s[17..] == ToBe(2, a.port);
      BeRoundTrip(16, bits);
  }

  /** The codec contract is satisfiable. */
  lemma MeetsContract()
    ensures Make().Valid()
  {
    forall m: WireMsg | !m.UserMsg?
      ensures 0 < |Encode(m)| <= U32_MAX && Decode(Encode(m)) == Some(m)
    {
      if m.EndpointEchoResp? || m.EndpointVerificationReq? {
        var a := if m.EndpointEchoResp? then m.addr else m.target;
        assert Encode(m)[1..] == EncodeAddr(a);
        AddrRoundTrip(a);
      }
    }
  }

  /** A frame carrying the service flag may still decode to a user message, so the flag alone
      does not tell the receiver what it will get. */
  lemma ServiceFrameMayHoldUserMessage(payload: seq<Byte>)
    ensures DecodeBody(Make(), ECHO_SRVC_MSG_FLAG, [4] + payload) == Ok(UserMsg(payload))
  {
    var s: seq<Byte> := [4] + payload;
    assert s[0] == 4 && s[1..] == payload;
    assert Decode(s) == Some(UserMsg(payload));
  }
}
