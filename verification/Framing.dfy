/**
 Frames in a byte stream. ParseAll is the meaning of a stream: repeated read_message until no whole frame is
 left. The server's incremental reader and the client's blocking reader are both proved against it.
 */
module Framing {
  import opened Domain
  import opened WireCodec

  datatype RawFrame = RawFrame(kind: Byte, payload: seq<Byte>)

  datatype Parsed = Parsed(frames: seq<RawFrame>, leftover: seq<Byte>)

  function LengthField(b: seq<Byte>): Quantity
    requires |b| >= 5
  {
    FromBE32(b[1..5])
  }

  predicate HasFrame(b: seq<Byte>) {
    |b| >= 5 && |b| >= 5 + LengthField(b)
  }

  function FirstFrame(b: seq<Byte>): RawFrame
    requires HasFrame(b)
  {
    RawFrame(b[0], b[5..5 + LengthField(b)])
  }

  function AfterFrame(b: seq<Byte>): seq<Byte>
    requires HasFrame(b)
  {
    b[5 + LengthField(b)..]
  }

  function ParseAll(b: seq<Byte>): Parsed
    decreases |b|
  {
    if HasFrame(b) then
      var p := ParseAll(AfterFrame(b));
      Parsed([FirstFrame(b)] + p.frames, p.leftover)
    else
      Parsed([], b)
  }

  lemma FrameIsLocal(a: seq<Byte>, b: seq<Byte>)
    requires HasFrame(a)
    ensures HasFrame(a + b) && FirstFrame(a + b) == FirstFrame(a) && AfterFrame(a + b) == AfterFrame(a) + b
  {
    assert (a + b)[1..5] == a[1..5];
  }

  /** Parsing is incremental: what arrives later only extends the leftover of what arrived before. */
  lemma {:induction false} ParseAppend(a: seq<Byte>, b: seq<Byte>)
    ensures var p, q := ParseAll(a), ParseAll(ParseAll(a).leftover + b);
            ParseAll(a + b) == Parsed(p.frames + q.frames, q.leftover)
    decreases |a|
  {
    if HasFrame(a) {
      ParseAppend(AfterFrame(a), b);
      ParseAppendStep(a, b);
      var p, q := ParseAll(AfterFrame(a)), ParseAll(ParseAll(a).leftover + b);
      Prepend(FirstFrame(a), p.frames, q.frames);
    }
  }

  /** Both parses take the same first frame. */
  lemma ParseAppendStep(a: seq<Byte>, b: seq<Byte>)
    requires HasFrame(a)
    ensures var p, q := ParseAll(AfterFrame(a)), ParseAll(AfterFrame(a) + b);
            && ParseAll(a) == Parsed([FirstFrame(a)] + p.frames, p.leftover)
            && ParseAll(a + b) == Parsed([FirstFrame(a)] + q.frames, q.leftover)
  {
    FrameIsLocal(a, b);
  }

  lemma Prepend(f: RawFrame, xs: seq<RawFrame>, ys: seq<RawFrame>)
    ensures [f] + (xs + ys) == [f] + xs + ys
  {}

  // ---- Batches of serialized messages ---------------------------------------------------------

  function Raw(m: WireMessage): RawFrame {
    RawFrame(KindOf(m), PayloadOf(m))
  }

  function RawAll(ms: seq<WireMessage>): seq<RawFrame> {
    if ms == [] then [] else [Raw(ms[0])] + RawAll(ms[1..])
  }

  function DecodeAll(fs: seq<RawFrame>): seq<Option<WireMessage>> {
    if fs == [] then [] else [Decode(fs[0].kind, fs[0].payload)] + DecodeAll(fs[1..])
  }

  function Somes(ms: seq<WireMessage>): seq<Option<WireMessage>> {
    if ms == [] then [] else [Some(ms[0])] + Somes(ms[1..])
  }

  ghost predicate AllEncodable(ms: seq<WireMessage>) {
    forall m :: m in ms ==> Encodable(m)
  }

  lemma FrameLength(kind: Byte, payload: seq<Byte>, rest: seq<Byte>)
    ensures var b := Frame(kind, payload) + rest;
            |b| >= 5 && b[0] == kind && LengthField(b) == |payload| % TWO32 && b[5..] == payload + rest
  {
    var b := Frame(kind, payload) + rest;
    assert b[1..5] == BE32(|payload|);
    BE32Truncates(|payload|);
  }

  /** A frame reads back as itself, leaving what follows, exactly when its payload fits the 32-bit length. */
  lemma FrameReadsBackIff(kind: Byte, payload: seq<Byte>, rest: seq<Byte>)
    ensures var b := Frame(kind, payload) + rest;
            (HasFrame(b) && FirstFrame(b) == RawFrame(kind, payload) && AfterFrame(b) == rest) <==> |payload| < TWO32
  {
    var b := Frame(kind, payload) + rest;
    FrameLength(kind, payload, rest);
    if |payload| < TWO32 {
      var n := |payload|;
      assert b[5..5 + n] == b[5..][..n] == payload;
      assert b[5 + n..] == b[5..][n..] == rest;
    }
  }

  /** In particular a rejection survives the trip exactly when 12 + |reason| fits 32 bits. */
  lemma RejectionReadsBackIff(id: OrderId, reason: seq<Byte>, rest: seq<Byte>)
    ensures var b := Encode(Rejection(id, reason)) + rest;
            (HasFrame(b) && FirstFrame(b) == Raw(Rejection(id, reason)) && AfterFrame(b) == rest)
                <==> 12 + |reason| < TWO32
  {
    FrameReadsBackIff(REJECT, RejectionPayload(id, reason), rest);
  }

  lemma {:induction false} ParseOneMore(m: WireMessage, rest: seq<Byte>)
    requires Encodable(m)
    ensures ParseAll(Encode(m) + rest) == Parsed([Raw(m)] + ParseAll(rest).frames, ParseAll(rest).leftover)
  {
    PayloadFits(m);
    FrameReadsBackIff(KindOf(m), PayloadOf(m), rest);
  }

  lemma PayloadFits(m: WireMessage)
    requires Encodable(m)
    ensures |PayloadOf(m)| < TWO32
  {}

  lemma {:induction false} ParseEncoded(ms: seq<WireMessage>)
    requires AllEncodable(ms)
    ensures ParseAll(EncodeAll(ms)) == Parsed(RawAll(ms), [])
  {
    if ms != [] {
      assert ms[0] in ms && forall m :: m in ms[1..] ==> m in ms;
      ParseEncoded(ms[1..]);
      ParseOneMore(ms[0], EncodeAll(ms[1..]));
    }
  }

  lemma {:induction false} DecodeRaw(ms: seq<WireMessage>)
    requires AllEncodable(ms)
    ensures DecodeAll(RawAll(ms)) == Somes(ms)
  {
    if ms != [] {
      assert ms[0] in ms && forall m :: m in ms[1..] ==> m in ms;
      DecodeInvertsPayload(ms[0]);
      DecodeRaw(ms[1..]);
      assert RawAll(ms)[1..] == RawAll(ms[1..]);
    }
  }

  /** Any batch of messages appended to whole frames parses and decodes to the same messages in order, and the
      frames already in the buffer are untouched. */
  lemma BatchRoundTrip(buffer: seq<Byte>, ms: seq<WireMessage>)
    requires ParseAll(buffer).leftover == [] && AllEncodable(ms)
    ensures var p := ParseAll(buffer + EncodeAll(ms));
            && p.leftover == []
            && p.frames == ParseAll(buffer).frames + RawAll(ms)
            && DecodeAll(p.frames[|ParseAll(buffer).frames|..]) == Somes(ms)
  {
    ParseAppend(buffer, EncodeAll(ms));
    assert [] + EncodeAll(ms) == EncodeAll(ms);
    ParseEncoded(ms);
    DecodeRaw(ms);
    var k := |ParseAll(buffer).frames|;
    assert (ParseAll(buffer).frames + RawAll(ms))[k..] == RawAll(ms);
  }

  lemma {:induction false} EncodeAllAppend(xs: seq<WireMessage>, ys: seq<WireMessage>)
    ensures EncodeAll(xs + ys) == EncodeAll(xs) + EncodeAll(ys)
  {
    if xs == [] {
      assert xs + ys == ys;
    } else {
      assert (xs + ys)[1..] == xs[1..] + ys;
      EncodeAllAppend(xs[1..], ys);
    }
  }

  // ---- The server's incremental reader --------------------------------------------------------

  datatype Phase = Header | Payload

  /** The reading half of ClientState. */
  datatype ReadState = ReadState(phase: Phase, header: seq<Byte>, bytesRead: nat, kind: Byte, length: Quantity,
      body: seq<Byte>)
  {
    ghost predicate Ok() {
      && |header| == 5
      && (phase.Header? ==> bytesRead < 5)
      && (phase.Payload? ==>
            && kind == header[0] && length == LengthField(header) && length > 0
            && |body| == length && bytesRead <= length)
    }

    /** A whole message is held, waiting to be pushed. */
    predicate Complete() {
      phase.Payload? && bytesRead == length
    }

    /** How many bytes the next recv asks for. */
    function Wanted(): int {
      if phase.Header? then 5 - bytesRead else length - bytesRead
    }

    /** The bytes received since the last whole frame. */
    ghost function Buffered(): seq<Byte>
      requires Ok()
    {
      if phase.Header? then header[..bytesRead] else header + body[..bytesRead]
    }

    function Message(): RawFrame {
      RawFrame(kind, body)
    }

    function Reset(): ReadState {
      this.(phase := Header, bytesRead := 0)
    }
  }

  /** The effect of one successful recv in handle_read. */
  function Absorb(st: ReadState, chunk: seq<Byte>): ReadState
    requires |st.header| == 5 && 0 < |chunk| <= st.Wanted()
    requires st.phase.Payload? ==> |st.body| == st.length
  {
    if st.phase.Payload? then
      st.(body := CopyAt(st.body, st.bytesRead, chunk), bytesRead := st.bytesRead + |chunk|)
    else
      var header := CopyAt(st.header, st.bytesRead, chunk);
      var n := st.bytesRead + |chunk|;
      if n < 5 then
        st.(header := header, bytesRead := n)
      else
        var length := LengthField(header);
        st.(header := header, kind := header[0], length := length, body := Resize(st.body, length), bytesRead := 0,
            phase := if length != 0 then Payload else Header)
  }

  /** Keep-alive frames with empty payloads are dropped by the server. */
  function NonEmpty(fs: seq<RawFrame>): seq<RawFrame> {
    if fs == [] then []
    else if fs[0].payload == [] then NonEmpty(fs[1..])
    else [fs[0]] + NonEmpty(fs[1..])
  }

  /** The reader agrees with the whole-stream parse: messages pushed, plus the one pending, are the non-empty
      frames received so far, and the partial buffers hold exactly the leftover bytes. */
  ghost predicate Tracks(st: ReadState, received: seq<Byte>, pushed: seq<RawFrame>) {
    && st.Ok()
    && var p := ParseAll(received);
       if st.Complete() then NonEmpty(p.frames) == pushed + [st.Message()] && p.leftover == []
       else NonEmpty(p.frames) == pushed && p.leftover == st.Buffered()
  }

  lemma {:induction false} NonEmptyAppend(xs: seq<RawFrame>, ys: seq<RawFrame>)
    ensures NonEmpty(xs + ys) == NonEmpty(xs) + NonEmpty(ys)
  {
    if xs == [] {
      assert xs + ys == ys;
    } else {
      assert (xs + ys)[1..] == xs[1..] + ys;
      NonEmptyAppend(xs[1..], ys);
    }
  }

  /** What the bytes since the last frame amount to once one more chunk has arrived. */
  ghost predicate Amounts(st: ReadState, bytes: seq<Byte>) {
    && st.Ok()
    && var p := ParseAll(bytes);
       if st.Complete() then p == Parsed([st.Message()], []) && st.Message().payload != []
       else NonEmpty(p.frames) == [] && p.leftover == st.Buffered()
  }

  lemma SingleFrame(b: seq<Byte>)
    requires |b| >= 5 && |b| == 5 + LengthField(b)
    ensures ParseAll(b) == Parsed([RawFrame(b[0], b[5..])], [])
  {
    assert AfterFrame(b) == [];
    assert ParseAll([]) == Parsed([], []);
    assert b[5..5 + LengthField(b)] == b[5..];
    assert [FirstFrame(b)] + [] == [FirstFrame(b)];
  }

  lemma HeaderAmounts(st: ReadState, chunk: seq<Byte>)
    requires st.Ok() && st.phase.Header? && 0 < |chunk| <= st.Wanted()
    ensures Amounts(Absorb(st, chunk), st.Buffered() + chunk)
  {
    var b, st' := st.Buffered() + chunk, Absorb(st, chunk);
    assert b == st'.header[..st.bytesRead + |chunk|];
    if |b| == 5 {
      assert b == st'.header;
      if LengthField(b) == 0 {
        SingleFrame(b);
        assert NonEmpty([RawFrame(b[0], b[5..])]) == NonEmpty([RawFrame(b[0], b[5..])][1..]);
        assert st'.Buffered() == [];
      } else {
        assert st'.Buffered() == b;
      }
    }
  }

  lemma PayloadAmounts(st: ReadState, chunk: seq<Byte>)
    requires st.Ok() && st.phase.Payload? && 0 < |chunk| <= st.Wanted()
    ensures Amounts(Absorb(st, chunk), st.Buffered() + chunk)
  {
    var st', at := Absorb(st, chunk), st.bytesRead;
    assert st'.body[..at + |chunk|] == st.body[..at] + chunk;
    AfterHeader(st.header, st.body[..at], chunk);
    if st'.Complete() {
      assert st'.body[..at + |chunk|] == st'.body;
      SingleFrame(st.Buffered() + chunk);
    }
  }

  lemma AfterHeader(header: seq<Byte>, body: seq<Byte>, chunk: seq<Byte>)
    requires |header| == 5
    ensures var b := header + body + chunk;
            b == header + (body + chunk) && b[0] == header[0] && b[1..5] == header[1..5] && b[5..] == body + chunk
  {}

  /** One recv of any size keeps the reader in agreement with the stream. */
  lemma AbsorbTracks(st: ReadState, received: seq<Byte>, pushed: seq<RawFrame>, chunk: seq<Byte>)
    requires Tracks(st, received, pushed) && !st.Complete() && 0 < |chunk| <= st.Wanted()
    ensures Tracks(Absorb(st, chunk), received + chunk, pushed)
  {
    ParseAppend(received, chunk);
    if st.phase.Header? { HeaderAmounts(st, chunk); } else { PayloadAmounts(st, chunk); }
    var p, q := ParseAll(received), ParseAll(st.Buffered() + chunk);
    NonEmptyAppend(p.frames, q.frames);
    if Absorb(st, chunk).Complete() {
      assert NonEmpty(q.frames) == q.frames;
    } else {
      assert pushed + [] == pushed;
    }
  }

  /** Pushing the pending message, and only then forgetting it, keeps the agreement. */
  lemma ResetTracks(st: ReadState, received: seq<Byte>, pushed: seq<RawFrame>)
    requires Tracks(st, received, pushed) && st.Complete()
    ensures Tracks(st.Reset(), received, pushed + [st.Message()])
  {}

  /** A reader that still wants bytes asks for at least one. */
  lemma WantsSomething(st: ReadState)
    requires st.Ok() && !st.Complete()
    ensures st.Wanted() > 0
  {}

  const FRESH_READER := ReadState(Header, [0, 0, 0, 0, 0], 0, 0, 0, [])

  lemma FreshReaderTracks()
    ensures Tracks(FRESH_READER, [], [])
  {}
}
