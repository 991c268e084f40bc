/** What the framing codec guarantees: an independent account of one read, truncation detection,
    round trips over whole message sequences, resynchronisation after malformed frames, and
    unique decodability. */
module WireProofs {
  import opened Types
  import opened Errors
  import opened Wire

  // ----- the stream seen as leading bytes and what ends them ---------------------------------

  /** How many bytes can be read before a fault or the FIN. */
  function Lead(s: seq<Sym>): (k: nat)
    ensures k <= |s|
    ensures forall i :: 0 <= i < k ==> s[i].Data?
    ensures k < |s| ==> s[k].Fault?
  {
    if s == [] || s[0].Fault? then 0 else 1 + Lead(s[1..])
  }

  function LeadBytes(s: seq<Sym>, n: nat): (bytes: seq<Byte>)
    requires n <= Lead(s)
    ensures |bytes| == n
  {
    seq(n, i requires 0 <= i < n => s[i].b)
  }

  function Ending(s: seq<Sym>): ReadExactError {
    var k := Lead(s);
    if k == |s| then FinishedEarly else ReadFailed(s[k].e)
  }

  /** The stream after its ending was reported: a fault is reported once, a FIN stays. */
  function AfterEnding(s: seq<Sym>): seq<Sym> {
    s[Min(Lead(s) + 1, |s|)..]
  }

  lemma {:induction false} LeadOfSymbols(bytes: seq<Byte>, rest: seq<Sym>)
    ensures Lead(Symbols(bytes) + rest) == |bytes| + Lead(rest)
    ensures LeadBytes(Symbols(bytes) + rest, |bytes|) == bytes
  {
    if bytes == [] {
      assert Symbols(bytes) + rest == rest;
    } else {
      LeadOfSymbols(bytes[1..], rest);
      assert (Symbols(bytes) + rest)[1..] == Symbols(bytes[1..]) + rest;
    }
  }

  lemma {:induction false} ReadExactMeaning(n: nat, s: seq<Sym>)
    ensures n <= Lead(s) ==> ReadExact(n, s) == ExactRead(Ok(LeadBytes(s, n)), s[n..])
    ensures n > Lead(s) ==> ReadExact(n, s) == ExactRead(Err(Ending(s)), AfterEnding(s))
    decreases n
  {
    if n > 0 && s != [] && s[0].Data? {
      ReadExactMeaning(n - 1, s[1..]);
      if n <= Lead(s) {
        assert LeadBytes(s, n) == [s[0].b] + LeadBytes(s[1..], n - 1);
      }
    }
  }

  /** One byte of an exact read. */
  lemma ReadExactStep(n: nat, s: seq<Sym>)
    ensures n == 0 ==> ReadExact(n, s) == ExactRead(Ok([]), s)
    ensures n > 0 && s == [] ==> ReadExact(n, s) == ExactRead(Err(FinishedEarly), [])
    ensures n > 0 && s != [] && s[0].Fault? ==>
              ReadExact(n, s) == ExactRead(Err(ReadFailed(s[0].e)), s[1..])
    ensures n > 0 && s != [] && s[0].Data? ==>
              var tail := ReadExact(n - 1, s[1..]);
              ReadExact(n, s) == if tail.got.Ok? then ExactRead(Ok([s[0].b] + tail.got.value), tail.rest) else tail
  {
  }

  /** `read_exact` may be split at any point: the short read followed by a top-up of the header
      is one exact read. */
  lemma {:induction false} ReadExactSplit(a: nat, b: nat, s: seq<Sym>)
    ensures var first := ReadExact(a, s);
            var whole := ReadExact(a + b, s);
            if first.got.Err? then
              whole == first
            else
              var second := ReadExact(b, first.rest);
              && whole.rest == second.rest
              && whole.got == if second.got.Err? then second.got
                              else Ok(first.got.value + second.got.value)
    decreases a
  {
    hide ReadExact;
    ReadExactStep(a, s);
    ReadExactStep(a + b, s);
    if a == 0 {
      if ReadExact(b, s).got.Ok? {
        assert [] + ReadExact(b, s).got.value == ReadExact(b, s).got.value;
      }
    } else if s != [] && s[0].Data? {
      ReadExactSplit(a - 1, b, s[1..]);
      var first := ReadExact(a - 1, s[1..]);
      if first.got.Ok? && ReadExact(b, first.rest).got.Ok? {
        Assoc([s[0].b], first.got.value, ReadExact(b, first.rest).got.value);
      }
    }
  }

  /** The number of bytes the frame at the head of the stream claims to have, once its header
      has arrived. */
  function ClaimedLen(s: seq<Sym>): nat {
    if Lead(s) < MSG_HEADER_LEN then MSG_HEADER_LEN
    else MSG_HEADER_LEN + MsgHeader.FromBytes(LeadBytes(s, MSG_HEADER_LEN)).dataLen
  }

  lemma ParseNothing(c: Codec, s: seq<Sym>)
    requires Lead(s) == 0
    ensures Parse(c, s) == Parsed(
                             if s == [] || IsBenignLoss(FromRead(s[0].e)) then Ok(None)
                             else Err(FromRead(s[0].e)),
                             AfterEnding(s))
  {
  }

  /** The header of a stream with at least nine bytes, and what follows it. */
  lemma HeaderSplit(s: seq<Sym>)
    requires MSG_HEADER_LEN <= Lead(s)
    ensures ReadExact(MSG_HEADER_LEN, s)
            == ExactRead(Ok(LeadBytes(s, MSG_HEADER_LEN)), s[MSG_HEADER_LEN..])
    ensures Lead(s) == MSG_HEADER_LEN + Lead(s[MSG_HEADER_LEN..])
    ensures Ending(s) == Ending(s[MSG_HEADER_LEN..])
    ensures AfterEnding(s) == AfterEnding(s[MSG_HEADER_LEN..])
  {
    ReadExactMeaning(MSG_HEADER_LEN, s);
    var first, rest := LeadBytes(s, MSG_HEADER_LEN), s[MSG_HEADER_LEN..];
    assert Symbols(first) + rest == s;
    LeadOfSymbols(first, rest);
  }

  lemma ParseShort(c: Codec, s: seq<Sym>)
    requires 0 < Lead(s) < ClaimedLen(s)
    ensures Parse(c, s) == Parsed(Err(FromReadExact(Ending(s))), AfterEnding(s))
  {
    hide ReadExact, MsgHeader.FromBytes;
    if Lead(s) < MSG_HEADER_LEN {
      ReadExactMeaning(MSG_HEADER_LEN, s);
    } else {
      HeaderSplit(s);
      ReadExactMeaning(ClaimedLen(s) - MSG_HEADER_LEN, s[MSG_HEADER_LEN..]);
    }
  }

  lemma ParseComplete(c: Codec, s: seq<Sym>)
    requires ClaimedLen(s) <= Lead(s)
    ensures var n := ClaimedLen(s);
            var header := MsgHeader.FromBytes(LeadBytes(s, MSG_HEADER_LEN));
            && Parse(c, s).rest == s[n..]
            && Parse(c, s).result
               == Present(DecodeBody(c, header.usrMsgFlag, LeadBytes(s, n)[MSG_HEADER_LEN..]))
  {
    var n := ClaimedLen(s) - MSG_HEADER_LEN;
    var rest := s[MSG_HEADER_LEN..];
    HeaderSplit(s);
    ReadExactMeaning(n, rest);
    assert LeadBytes(s, MSG_HEADER_LEN + n)[MSG_HEADER_LEN..] == LeadBytes(rest, n);
    assert rest[n..] == s[MSG_HEADER_LEN + n..];
  }

  // ----- truncation ---------------------------------------------------------------------------

  /** A read reports the end of the stream only if it met the FIN or a benign loss before the
      first byte of a frame. */
  lemma EndOnlyAtFrameBoundary(c: Codec, s: seq<Sym>)
    ensures Parse(c, s).result == Ok(None) <==>
              s == [] || (s[0].Fault? && IsBenignLoss(FromRead(s[0].e)))
  {
  }

  /** Cutting a written frame anywhere inside, whatever ends the stream there, gives the error
      of that ending: never a message and never a quiet end. */
  lemma TruncatedFrameIsError(c: Codec, m: WireMsg, k: nat, tail: seq<Sym>)
    requires Frame(c, m).Ok?
    requires 0 < k < |Frame(c, m).value|
    requires tail == [] || tail[0].Fault?
    ensures Parse(c, Symbols(Frame(c, m).value[..k]) + tail).result ==
              Err(if tail == [] then RecvSerialization(TooFewBytes) else FromRead(tail[0].e))
  {
    var f := Frame(c, m).value;
    var s := Symbols(f[..k]) + tail;
    LeadOfSymbols(f[..k], tail);
    FrameHeader(c, m);
    if k >= MSG_HEADER_LEN {
      assert LeadBytes(s, MSG_HEADER_LEN) == f[..MSG_HEADER_LEN];
    }
    ParseShort(c, s);
  }

  /** A benign connection loss is reported as an error only when at least one byte of the frame
      had been read. */
  lemma BenignLossIsMidFrame(c: Codec, s: seq<Sym>)
    requires Parse(c, s).result.Err? && IsBenignLoss(Parse(c, s).result.error)
    ensures 0 < Lead(s) < ClaimedLen(s)
    ensures Lead(s) < |s| && FromRead(s[Lead(s)].e) == Parse(c, s).result.error
  {
    hide Parse, Lead, LeadBytes, ClaimedLen, DecodeBody;
    if Lead(s) == 0 {
      ParseNothing(c, s);
    } else if Lead(s) < ClaimedLen(s) {
      ParseShort(c, s);
    } else {
      ParseComplete(c, s);
    }
  }

  // ----- frames -------------------------------------------------------------------------------

  /** A complete frame as it may arrive: any header bytes, and as many body bytes as they claim. */
  datatype RawFrame = RawFrame(header: seq<Byte>, body: seq<Byte>)
  {
    predicate Valid() {
      && |header| == MSG_HEADER_LEN
      && MsgHeader.FromBytes(header).dataLen == |body|
    }

    function Decode(c: Codec): Result<WireMsg, RecvError>
      requires Valid()
    {
      DecodeBody(c, MsgHeader.FromBytes(header).usrMsgFlag, body)
    }
  }

  function RawBytes(fs: seq<RawFrame>): seq<Byte> {
    if fs == [] then [] else fs[0].header + fs[0].body + RawBytes(fs[1..])
  }

  function DecodeEach(c: Codec, fs: seq<RawFrame>): (rs: seq<ReadResult>)
    requires forall i :: 0 <= i < |fs| ==> fs[i].Valid()
    ensures |rs| == |fs|
    ensures forall i :: 0 <= i < |fs| ==> rs[i] == Present(fs[i].Decode(c))
  {
    seq(|fs|, i requires 0 <= i < |fs| => Present(fs[i].Decode(c)))
  }

  lemma ParseRawFrame(c: Codec, f: RawFrame, rest: seq<Sym>)
    requires f.Valid()
    ensures Parse(c, Symbols(f.header + f.body) + rest) == Parsed(Present(f.Decode(c)), rest)
  {
    var bytes := f.header + f.body;
    var s := Symbols(bytes) + rest;
    LeadOfSymbols(bytes, rest);
    assert LeadBytes(s, |bytes|) == bytes;
    assert LeadBytes(s, MSG_HEADER_LEN) == f.header;
    assert bytes[MSG_HEADER_LEN..] == f.body;
    ParseComplete(c, s);
  }

  /** What nine header bytes say: the length with the most significant byte first, and the flag. */
  lemma HeaderMeaning(h: seq<Byte>)
    requires |h| == 9
    ensures MsgHeader.FromBytes(h).dataLen
            == (h[2] as int) * 0x100_0000 + (h[3] as int) * 0x1_0000 + (h[4] as int) * 0x100 + h[5]
    ensures MsgHeader.FromBytes(h).usrMsgFlag == h[6]
  {
    assert h[2..6] == [h[2], h[3], h[4], h[5]];
    FromBeFour(h[2], h[3], h[4], h[5]);
  }

  /** What a complete frame is read as, byte for byte, whatever follows it: which bodies are refused, and
      why; version and reserved bytes do not matter. */
  lemma CompleteFrameMeaning(c: Codec, h: seq<Byte>, body: seq<Byte>, rest: seq<Sym>)
    requires |h| == 9
    requires |body| == (h[2] as int) * 0x100_0000 + (h[3] as int) * 0x1_0000 + (h[4] as int) * 0x100 + h[5]
    ensures var p := Parse(c, Symbols(h + body) + rest);
            && p.rest == rest
            && (body == [] ==> p.result == Err(RecvSerialization(EmptyMessage)))
            && (body != [] && h[6] == 0 ==> p.result == Ok(Some(UserMsg(body))))
            && (body != [] && h[6] == 1 ==>
                  p.result == (match c.decode(body)
                               case Some(m) => Ok(Some(m))
                               case None => Err(RecvSerialization(Undecodable))))
            && (body != [] && h[6] > 1 ==> p.result == Err(RecvSerialization(InvalidFlag(h[6]))))
  {
    var f := RawFrame(h, body);
    HeaderMeaning(h);
    hide Parse, MsgHeader.FromBytes;
    assert f.Valid();
    ParseRawFrame(c, f, rest);
  }

  /** Which complete frames are malformed, in bytes, and the error each gives. */
  lemma MalformedMeaning(c: Codec, f: RawFrame)
    requires f.Valid()
    ensures |f.header| == 9
    ensures f.Decode(c).Err? <==>
              f.body == [] || f.header[6] > 1 || (f.header[6] == 1 && c.decode(f.body).None?)
    ensures f.body == [] ==> f.Decode(c) == Err(RecvSerialization(EmptyMessage))
    ensures f.body != [] && f.header[6] == 1 && c.decode(f.body).None? ==>
              f.Decode(c) == Err(RecvSerialization(Undecodable))
    ensures f.body != [] && f.header[6] > 1 ==> f.Decode(c) == Err(RecvSerialization(InvalidFlag(f.header[6])))
  {
    HeaderMeaning(f.header);
  }

  /** Resynchronisation: a run of complete frames, well formed or not, is read frame by frame.
      A malformed frame gives exactly one error, uses exactly its own bytes, and leaves every
      later frame to be read as if it had not been there. */
  lemma {:induction false} FramesReadOneByOne(c: Codec, fs: seq<RawFrame>, rest: seq<Sym>)
    requires forall i :: 0 <= i < |fs| ==> fs[i].Valid()
    ensures ReadAll(c, Symbols(RawBytes(fs)) + rest) == DecodeEach(c, fs) + ReadAll(c, rest)
  {
    hide Parse, MsgHeader.FromBytes, DecodeBody;
    if fs == [] {
      assert Symbols(RawBytes(fs)) + rest == rest;
      assert DecodeEach(c, fs) == [];
    } else {
      var tail := Symbols(RawBytes(fs[1..])) + rest;
      assert Symbols(RawBytes(fs)) + rest == Symbols(fs[0].header + fs[0].body) + tail;
      ParseRawFrame(c, fs[0], tail);
      FramesReadOneByOne(c, fs[1..], rest);
      assert DecodeEach(c, fs) == [Present(fs[0].Decode(c))] + DecodeEach(c, fs[1..]);
    }
  }

  // ----- written messages ---------------------------------------------------------------------

  predicate Writable(c: Codec, m: WireMsg) {
    Frame(c, m).Ok?
  }

  predicate AllWritable(c: Codec, ms: seq<WireMsg>) {
    forall i :: 0 <= i < |ms| ==> Writable(c, ms[i])
  }

  function Frames(c: Codec, ms: seq<WireMsg>): seq<Byte>
    requires AllWritable(c, ms)
  {
    if ms == [] then [] else Frame(c, ms[0]).value + Frames(c, ms[1..])
  }

  /** What the reader makes of a written message: the message, except that an empty user message
      is written without complaint and refused on arrival. */
  function Readback(m: WireMsg): ReadResult {
    if m == UserMsg([]) then Err(RecvSerialization(EmptyMessage)) else Ok(Some(m))
  }

  function ReadbackEach(ms: seq<WireMsg>): (rs: seq<ReadResult>)
    ensures |rs| == |ms|
    ensures forall i :: 0 <= i < |ms| ==> rs[i] == Readback(ms[i])
  {
    seq(|ms|, i requires 0 <= i < |ms| => Readback(ms[i]))
  }

  function AsRaw(c: Codec, m: WireMsg): RawFrame
    requires Writable(c, m)
  {
    RawFrame(Frame(c, m).value[..MSG_HEADER_LEN], Body(c, m))
  }

  lemma FrameHeader(c: Codec, m: WireMsg)
    requires Writable(c, m)
    ensures |Frame(c, m).value| == MSG_HEADER_LEN + |Body(c, m)|
    ensures AsRaw(c, m).Valid()
    ensures AsRaw(c, m).header + AsRaw(c, m).body == Frame(c, m).value
    ensures MsgHeader.FromBytes(AsRaw(c, m).header)
            == MsgHeader(MSG_PROTOCOL_VERSION, |Body(c, m)|, Flag(m), (0, 0))
  {
    var h := MsgHeader.New(Body(c, m), Flag(m)).value;
    HeaderRoundTrip(h);
    assert Frame(c, m).value[..MSG_HEADER_LEN] == h.ToBytes();
  }

  /** A message can be written exactly when its body has at most 4_294_967_295 bytes, and then these are
      the bytes: version one, the length with the most significant byte first, the kind of message, two
      zeros, and the body. */
  lemma FrameBytes(c: Codec, m: WireMsg)
    ensures var body := if m.UserMsg? then m.payload else c.encode(m);
            && (|body| > 4_294_967_295 ==> Frame(c, m) == Err(SendSerialization(TooLong(|body|))))
            && (|body| <= 4_294_967_295 ==>
                  && Frame(c, m).Ok?
                  && (var f := Frame(c, m).value;
                      && |f| == 9 + |body|
                      && f[0] == 0 && f[1] == 1
                      && (f[2] as int) * 0x100_0000 + (f[3] as int) * 0x1_0000 + (f[4] as int) * 0x100 + f[5]
                         == |body|
                      && f[6] == (if m.UserMsg? then 0 else 1)
                      && f[7] == 0 && f[8] == 0
                      && f[9..] == body))
  {
    var body := if m.UserMsg? then m.payload else c.encode(m);
    if |body| <= 4_294_967_295 {
      var h := MsgHeader.New(body, Flag(m)).value;
      HeaderLayout(h);
      assert Frame(c, m).value[..9] == h.ToBytes();
      assert Frame(c, m).value[9..] == body;
    }
  }

  lemma FrameReadback(c: Codec, m: WireMsg)
    requires c.Valid() && Writable(c, m)
    ensures AsRaw(c, m).Valid() && Present(AsRaw(c, m).Decode(c)) == Readback(m)
  {
    FrameHeader(c, m);
  }

  /** One written frame in front of anything is read back exactly. */
  lemma FrameRoundTrip(c: Codec, m: WireMsg, rest: seq<Sym>)
    requires c.Valid() && Writable(c, m)
    ensures Parse(c, Symbols(Frame(c, m).value) + rest) == Parsed(Readback(m), rest)
  {
    FrameHeader(c, m);
    FrameReadback(c, m);
    ParseRawFrame(c, AsRaw(c, m), rest);
  }

  /** The whole-sequence round trip, for every list of messages that can be written. */
  lemma {:induction false} SequenceRoundTrip(c: Codec, ms: seq<WireMsg>, rest: seq<Sym>)
    requires c.Valid() && AllWritable(c, ms)
    ensures ReadAll(c, Symbols(Frames(c, ms)) + rest) == ReadbackEach(ms) + ReadAll(c, rest)
  {
    hide Parse, Frame, MsgHeader.FromBytes;
    if ms == [] {
      assert Symbols(Frames(c, ms)) + rest == rest;
      assert ReadbackEach(ms) == [];
    } else {
      var tail := Symbols(Frames(c, ms[1..])) + rest;
      assert Symbols(Frames(c, ms)) + rest == Symbols(Frame(c, ms[0]).value) + tail;
      FrameRoundTrip(c, ms[0], tail);
      SequenceRoundTrip(c, ms[1..], rest);
      assert ReadbackEach(ms) == [Readback(ms[0])] + ReadbackEach(ms[1..]);
    }
  }

  function Delivered(ms: seq<WireMsg>): (rs: seq<ReadResult>)
    ensures |rs| == |ms|
    ensures forall i :: 0 <= i < |ms| ==> rs[i] == Ok(Some(ms[i]))
  {
    seq(|ms|, i requires 0 <= i < |ms| => Ok(Some(ms[i])))
  }

  /** A finished stream of written messages is read back as exactly those messages and then the
      end, if and only if none of them is an empty user message. */
  lemma SequenceIntactIffNoEmpty(c: Codec, ms: seq<WireMsg>)
    requires c.Valid() && AllWritable(c, ms)
    ensures ReadAll(c, Symbols(Frames(c, ms))) == Delivered(ms) + [Ok(None)]
            <==> UserMsg([]) !in ms
  {
    SequenceRoundTrip(c, ms, []);
    assert Symbols(Frames(c, ms)) + [] == Symbols(Frames(c, ms));
    assert ReadAll(c, []) == [Ok(None)];
    var rs := ReadbackEach(ms) + [Ok(None)];
    var want := Delivered(ms) + [Ok(None)];
    if UserMsg([]) in ms {
      var i :| 0 <= i < |ms| && ms[i] == UserMsg([]);
      assert rs[i] == Err(RecvSerialization(EmptyMessage)) && want[i].Ok?;
    } else {
      assert ReadbackEach(ms) == Delivered(ms);
    }
  }

  // ----- unique decodability ------------------------------------------------------------------

  /** No frame is a proper prefix of another, and no two messages share a frame. */
  lemma FramePrefixFree(c: Codec, m: WireMsg, x: seq<Byte>, m': WireMsg, x': seq<Byte>)
    requires c.Valid() && Writable(c, m) && Writable(c, m')
    requires Frame(c, m).value + x == Frame(c, m').value + x'
    ensures m == m' && x == x'
  {
    var f, f' := Frame(c, m).value, Frame(c, m').value;
    FrameHeader(c, m);
    FrameHeader(c, m');
    assert f[..MSG_HEADER_LEN] == (f + x)[..MSG_HEADER_LEN] == (f' + x')[..MSG_HEADER_LEN]
        == f'[..MSG_HEADER_LEN];
    assert |f| == |f'|;
    assert f == (f + x)[..|f|] == (f' + x')[..|f|] == f';
    assert x == (f + x)[|f|..];
    assert Body(c, m) == f[MSG_HEADER_LEN..] == Body(c, m');
    if !m.UserMsg? {
      assert c.decode(c.encode(m)) == Some(m) && c.decode(c.encode(m')) == Some(m');
    }
  }

  lemma FramesStep(c: Codec, ms: seq<WireMsg>)
    requires AllWritable(c, ms) && ms != []
    ensures Writable(c, ms[0]) && AllWritable(c, ms[1..])
    ensures Frames(c, ms) == Frame(c, ms[0]).value + Frames(c, ms[1..])
    ensures |Frames(c, ms)| > 0
  {
    FrameHeader(c, ms[0]);
  }

  lemma {:induction false} FramesPrefix(c: Codec, ms: seq<WireMsg>, ms': seq<WireMsg>)
    requires AllWritable(c, ms) && AllWritable(c, ms') && ms <= ms'
    ensures Frames(c, ms) <= Frames(c, ms')
  {
    if ms != [] {
      hide Frame, Frames, AllWritable;
      FramesStep(c, ms);
      FramesStep(c, ms');
      PrefixRest(ms, ms');
      ConcatParts(ms, ms'[|ms|..]);
      FramesPrefix(c, ms[1..], ms'[1..]);
      var t, t' := Frames(c, ms[1..]), Frames(c, ms'[1..]);
      PrefixRest(t, t');
      Assoc(Frame(c, ms[0]).value, t, t'[|t|..]);
    }
  }

  lemma {:induction false} FramesPrefixDecodes(c: Codec, ms: seq<WireMsg>, ms': seq<WireMsg>)
    requires c.Valid() && AllWritable(c, ms) && AllWritable(c, ms')
    requires Frames(c, ms) <= Frames(c, ms')
    ensures ms <= ms'
  {
    if ms != [] {
      assert Frames(c, []) == [];
      hide Frame, Frames, AllWritable;
      FramesStep(c, ms);
      FramesStep(c, ms');
      var whole, whole' := Frames(c, ms), Frames(c, ms');
      var t, t', extra := Frames(c, ms[1..]), Frames(c, ms'[1..]), whole'[|whole|..];
      PrefixRest(whole, whole');
      Assoc(Frame(c, ms[0]).value, t, extra);
      FramePrefixFree(c, ms[0], t + extra, ms'[0], t');
      FramesPrefixDecodes(c, ms[1..], ms'[1..]);
      Uncons(ms);
      Uncons(ms');
    }
  }

  /** Written frame sequences are uniquely decodable, even from a prefix. */
  lemma FramesUniquelyDecodable(c: Codec, ms: seq<WireMsg>, ms': seq<WireMsg>)
    requires c.Valid() && AllWritable(c, ms) && AllWritable(c, ms')
    ensures Frames(c, ms) <= Frames(c, ms') <==> ms <= ms'
    ensures Frames(c, ms) == Frames(c, ms') ==> ms == ms'
  {
    hide Frame, Frames, AllWritable;
    if Frames(c, ms) <= Frames(c, ms') {
      FramesPrefixDecodes(c, ms, ms');
    }
    if Frames(c, ms') <= Frames(c, ms) {
      FramesPrefixDecodes(c, ms', ms);
    }
    if ms <= ms' {
      FramesPrefix(c, ms, ms');
    }
  }
}
