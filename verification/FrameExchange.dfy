/** Sender and receiver together: what is sent arrives, message by message, in any
    fragmentation and any chunking; and what the assembly of chunks never exceeds. */
module FrameExchange {
  import opened Bytes
  import opened FrameHeader
  import opened FrameStream
  import opened Rlp
  import opened Wrappers

  /** The content's length fits the three bytes it is announced in. */
  predicate Sendable(f: Frame) {
    |f.headerData| <= 13 && |Content(f)| < 0x100_0000
  }

  /** The receiver's end is where the sender's is, between two frames. */
  predicate InStep(e: End, r: Receiver) {
    r.end == e && !r.headRead
  }

  // ── one frame ──────────────────────────────────────────────────────────────

  lemma ContentSize(f: Frame)
    ensures |f.chunk| < |Content(f)| <= |f.chunk| + 2
  {
    SpanOf64();
    UintIsShort(f.protocolId, 1);
  }

  lemma ContentReads(f: Frame)
    ensures DecodeU8(Content(f)) == Parsed(f.protocolId, f.chunk)
  {
    ByteReadsBack(f.protocolId, f.chunk);
  }

  function HeadBytes(c: Crypto, e: End, f: Frame): (bytes: seq<Byte>)
    requires |f.headerData| <= 13
    ensures |bytes| == 32
  {
    var head := ApplyKey(c, e.pos, PlainHead(f));
    head + c.sum(AfterHead(c, e, head).mac)[..16]
  }

  function BodyBytes(c: Crypto, e: End, f: Frame): (bytes: seq<Byte>)
    ensures |bytes| == PaddedSize(|Content(f)|) + 16
  {
    var body := ApplyKey(c, e.pos, PlainBody(f));
    body + c.sum(AfterBody(c, e, body).mac)[..16]
  }

  function KindIn(f: Frame): FrameType
    requires |f.headerData| <= 13
  {
    ParseData(f.headerData + Zeros(13 - |f.headerData|))
  }

  lemma PlainHeadReads(f: Frame)
    requires |f.headerData| <= 13
    ensures SizeIn(PlainHead(f)) == |Content(f)| % 0x100_0000
    ensures PlainHead(f)[3..] == f.headerData + Zeros(13 - |f.headerData|)
  {
    LowBits(|Content(f)|);
    assert SizeIn(PlainHead(f)) == SizeIn(SizeBytes(|Content(f)|));
  }

  lemma HeadDecrypts(c: Crypto, e: End, f: Frame)
    requires Involutive(c) && |f.headerData| <= 13
    ensures var bytes := HeadBytes(c, e, f);
      && bytes[..16] == ApplyKey(c, e.pos, PlainHead(f))
      && bytes[16..] == c.sum(AfterHead(c, e, bytes[..16]).mac)[..16]
      && ApplyKey(c, e.pos, bytes[..16]) == PlainHead(f)
  {
    var head := ApplyKey(c, e.pos, PlainHead(f));
    assert HeadBytes(c, e, f)[..16] == head;
    KeyTwice(c, e.pos, PlainHead(f));
  }

  lemma HeadIsRead(c: Crypto, e: End, r: Receiver, f: Frame, size: nat)
    requires Involutive(c) && InStep(e, r) && |f.headerData| <= 13
    requires SizeIn(PlainHead(f)) == size && PlainHead(f)[3..] == f.headerData + Zeros(13 - |f.headerData|)
    ensures Advance(c, r, HeadBytes(c, e, f))
         == (Receiver(AfterHead(c, e, ApplyKey(c, e.pos, PlainHead(f))), true, size, KindIn(f), r.asm), Nothing)
  {
    HeadDecrypts(c, e, f);
  }

  /** The announced length is the low 24 bits of the content's. */
  lemma AnyHeadArrives(c: Crypto, e: End, r: Receiver, f: Frame)
    requires Involutive(c) && InStep(e, r) && |f.headerData| <= 13
    ensures Advance(c, r, HeadBytes(c, e, f))
         == (Receiver(AfterHead(c, e, ApplyKey(c, e.pos, PlainHead(f))), true,
                      |Content(f)| % 0x100_0000, KindIn(f), r.asm), Nothing)
  {
    PlainHeadReads(f);
    HeadIsRead(c, e, r, f, |Content(f)| % 0x100_0000);
  }

  lemma HeadArrives(c: Crypto, e: End, r: Receiver, f: Frame)
    requires Involutive(c) && InStep(e, r) && Sendable(f)
    ensures Advance(c, r, HeadBytes(c, e, f))
         == (Receiver(AfterHead(c, e, ApplyKey(c, e.pos, PlainHead(f))), true, |Content(f)|, KindIn(f), r.asm), Nothing)
  {
    PlainHeadReads(f);
    HeadIsRead(c, e, r, f, |Content(f)|);
  }

  lemma BodyArrives(c: Crypto, e: End, r: Receiver, f: Frame)
    requires Involutive(c) && r.end == e && r.headRead && r.size == |Content(f)|
    ensures Need(r) == |BodyBytes(c, e, f)|
    ensures var d := Deliver(r.asm, r.kind, Content(f));
      Advance(c, r, BodyBytes(c, e, f))
      == (Receiver(AfterBody(c, e, ApplyKey(c, e.pos, PlainBody(f))), false, r.size, r.kind, d.0), d.1)
  {
    var plain := PlainBody(f);
    var body := ApplyKey(c, e.pos, plain);
    var bytes := BodyBytes(c, e, f);
    var n := PaddedSize(r.size);
    assert bytes[..n] == body && bytes[n..] == c.sum(AfterBody(c, e, body).mac)[..16];
    KeyTwice(c, e.pos, plain);
    assert plain[..r.size] == Content(f);
  }

  lemma StepOfDrain(c: Crypto, r: Receiver, bytes: seq<Byte>, rest: seq<Byte>)
    requires |bytes| == Need(r)
    ensures var (r1, e) := Advance(c, r, bytes);
      Drain(c, r, bytes + rest) == if e.Failure? then Outcome(r1, Unread(r, bytes + rest), [], Some(e.error))
                                   else After(MessagesOf(e), Drain(c, r1, rest))
  {
    assert (bytes + rest)[..Need(r)] == bytes && (bytes + rest)[Need(r)..] == rest;
  }

  /** The receiver after a frame it took in: in step with the sender again. */
  function Taken(c: Crypto, e: End, f: Frame, asm: Assembly): Receiver
    requires |f.headerData| <= 13
  {
    Receiver(EncodeFrame(c, e, f).1, false, |Content(f)|, KindIn(f), asm)
  }

  lemma FrameBytes(c: Crypto, e: End, f: Frame, rest: seq<Byte>)
    requires |f.headerData| <= 13
    ensures var e1 := AfterHead(c, e, ApplyKey(c, e.pos, PlainHead(f)));
      && EncodeFrame(c, e, f).0 + rest == HeadBytes(c, e, f) + (BodyBytes(c, e1, f) + rest)
      && EncodeFrame(c, e, f).1 == AfterBody(c, e1, ApplyKey(c, e1.pos, PlainBody(f)))
  {
  }

  /** A frame that is sent is delivered: its type and content are what the receiver acts on. */
  lemma FrameArrives(c: Crypto, e: End, r: Receiver, f: Frame, rest: seq<Byte>)
    requires Involutive(c) && InStep(e, r) && Sendable(f)
    ensures var d := Deliver(r.asm, KindIn(f), Content(f));
      Drain(c, r, EncodeFrame(c, e, f).0 + rest)
      == if d.1.Failure? then Outcome(Taken(c, e, f, d.0), rest, [], Some(d.1.error))
         else After(MessagesOf(d.1), Drain(c, Taken(c, e, f, d.0), rest))
  {
    var e1 := AfterHead(c, e, ApplyKey(c, e.pos, PlainHead(f)));
    var r1 := Receiver(e1, true, |Content(f)|, KindIn(f), r.asm);
    var head, body := HeadBytes(c, e, f), BodyBytes(c, e1, f);
    FrameBytes(c, e, f, rest);
    HeadArrives(c, e, r, f);
    StepOfDrain(c, r, head, body + rest);
    AfterNothing(Drain(c, r1, body + rest));
    BodyArrives(c, e1, r1, f);
    StepOfDrain(c, r1, body, rest);
    assert (body + rest)[Need(r1)..] == rest;
  }

  /** One call takes one frame, whatever comes after it. */
  lemma CallTakesFrame(c: Crypto, e: End, r: Receiver, f: Frame, rest: seq<Byte>)
    requires Involutive(c) && InStep(e, r) && Sendable(f)
    ensures var d := Deliver(r.asm, KindIn(f), Content(f));
            DecodeFrame(c, r, EncodeFrame(c, e, f).0 + rest) == (Taken(c, e, f, d.0), rest, d.1)
  {
    var e1 := AfterHead(c, e, ApplyKey(c, e.pos, PlainHead(f)));
    var r1 := Receiver(e1, true, |Content(f)|, KindIn(f), r.asm);
    var head, body := HeadBytes(c, e, f), BodyBytes(c, e1, f);
    FrameBytes(c, e, f, rest);
    HeadArrives(c, e, r, f);
    BodyArrives(c, e1, r1, f);
    assert (head + (body + rest))[..32] == head && (head + (body + rest))[32..] == body + rest;
    assert (body + rest)[..Need(r1)] == body && (body + rest)[Need(r1)..] == rest;
  }

  lemma ShorterContent(asm: Assembly, f: Frame, content: seq<Byte>)
    requires |content| < |f.chunk|
    ensures Deliver(asm, Normal, content).1 != Message(f.protocolId, f.chunk)
  {
  }

  /** From longer content the receiver cuts off a part of the payload. */
  lemma LongFrameIsCut(c: Crypto, e: End, r: Receiver, f: Frame, rest: seq<Byte>)
    requires Involutive(c) && InStep(e, r) && |f.headerData| <= 13
    requires KindIn(f) == Normal && |Content(f)| >= 0x100_0000
    ensures DecodeFrame(c, r, EncodeFrame(c, e, f).0 + rest).2 != Message(f.protocolId, f.chunk)
  {
    var src := EncodeFrame(c, e, f).0 + rest;
    LongHeadArrives(c, e, r, f, rest);
    BodyIsCut(c, Advance(c, r, src[..32]).0, f, src[32..]);
  }

  lemma LongHeadArrives(c: Crypto, e: End, r: Receiver, f: Frame, rest: seq<Byte>)
    requires Involutive(c) && InStep(e, r) && |f.headerData| <= 13
    requires KindIn(f) == Normal && |Content(f)| >= 0x100_0000
    ensures var src := EncodeFrame(c, e, f).0 + rest; |src| >= 32
    ensures var src := EncodeFrame(c, e, f).0 + rest;
      var (r1, event) := Advance(c, r, src[..32]);
      event == Nothing && r1.headRead && r1.kind == Normal && r1.size < |f.chunk|
  {
    FrameBytes(c, e, f, rest);
    AnyHeadArrives(c, e, r, f);
    assert (EncodeFrame(c, e, f).0 + rest)[..32] == HeadBytes(c, e, f);
    ContentSize(f);
  }

  lemma BodyIsCut(c: Crypto, r: Receiver, f: Frame, src: seq<Byte>)
    requires r.headRead && r.kind == Normal && r.size < |f.chunk|
    ensures DecodeBody(c, r, src).2 != Message(f.protocolId, f.chunk)
  {
    if |src| >= Need(r) {
      var plain := ApplyKey(c, r.end.pos, src[..Need(r)][..PaddedSize(r.size)]);
      ShorterContent(r.asm, f, plain[..r.size]);
    }
  }

  /** A frame sent by itself comes out of the call as it went in exactly when its content
      is shorter than 2^24 bytes. */
  lemma WholeFrameExact(c: Crypto, e: End, r: Receiver, protocolId: Byte, payload: seq<Byte>, rest: seq<Byte>)
    requires Involutive(c) && InStep(e, r)
    ensures var f := Frame(NORMAL_DATA, protocolId, payload);
      DecodeFrame(c, r, EncodeFrame(c, e, f).0 + rest).2 == Message(protocolId, payload) <==> |Content(f)| < 0x100_0000
  {
    var f := Frame(NORMAL_DATA, protocolId, payload);
    NormalParses(11);
    if |Content(f)| < 0x100_0000 {
      ContentReads(f);
      CallTakesFrame(c, e, r, f, rest);
    } else {
      LongFrameIsCut(c, e, r, f, rest);
    }
  }

  // ── many frames ────────────────────────────────────────────────────────────

  predicate AllSendable(frames: seq<Frame>)
    decreases |frames|
  {
    frames != [] ==> Sendable(frames[0]) && AllSendable(frames[1..])
  }

  /** The bytes of frames sent one after the other. */
  function Wire(c: Crypto, e: End, frames: seq<Frame>): seq<Byte>
    requires AllSendable(frames)
    decreases |frames|
  {
    if frames == [] then []
    else EncodeFrame(c, e, frames[0]).0 + Wire(c, EncodeFrame(c, e, frames[0]).1, frames[1..])
  }

  /** What delivering frames leaves of the assembly, the messages, and the error met. */
  datatype Delivery = Delivery(asm: Assembly, messages: seq<(Byte, seq<Byte>)>, error: Option<FrameError>)

  /** What a receiver makes of frames, whatever they are carried by. */
  function DeliverAll(asm: Assembly, frames: seq<Frame>): Delivery
    requires AllSendable(frames)
    decreases |frames|
  {
    if frames == [] then Delivery(asm, [], None)
    else
      var (asm1, e) := Deliver(asm, KindIn(frames[0]), Content(frames[0]));
      if e.Failure? then Delivery(asm1, [], Some(e.error))
      else Later(MessagesOf(e), DeliverAll(asm1, frames[1..]))
  }

  function Later(messages: seq<(Byte, seq<Byte>)>, d: Delivery): Delivery {
    d.(messages := messages + d.messages)
  }

  lemma {:induction false} DeliverInTwo(asm: Assembly, a: seq<Frame>, b: seq<Frame>)
    requires AllSendable(a) && AllSendable(b)
    ensures AllSendable(a + b)
    ensures var first := DeliverAll(asm, a);
      DeliverAll(asm, a + b) == if first.error.Some? then first else Later(first.messages, DeliverAll(first.asm, b))
    decreases |a|
  {
    if a == [] {
      assert a + b == b;
      assert [] + DeliverAll(asm, b).messages == DeliverAll(asm, b).messages;
    } else {
      assert (a + b)[0] == a[0] && (a + b)[1..] == a[1..] + b;
      var (asm1, e) := Deliver(asm, KindIn(a[0]), Content(a[0]));
      DeliverInTwo(asm1, a[1..], b);
      var first := DeliverAll(asm1, a[1..]);
      LaterTwice(MessagesOf(e), first.messages, DeliverAll(first.asm, b));
    }
  }

  lemma LaterTwice(x: seq<(Byte, seq<Byte>)>, y: seq<(Byte, seq<Byte>)>, d: Delivery)
    ensures Later(x, Later(y, d)) == Later(x + y, d)
  {
    assert x + (y + d.messages) == x + y + d.messages;
  }

  /** The stream carries exactly that: no byte is lost, and nothing depends on the cipher. */
  lemma {:induction false} WireDelivers(c: Crypto, e: End, r: Receiver, frames: seq<Frame>)
    requires Involutive(c) && InStep(e, r) && AllSendable(frames)
    ensures var o := Drain(c, r, Wire(c, e, frames));
            Delivery(o.receiver.asm, o.messages, o.error) == DeliverAll(r.asm, frames)
    ensures var o := Drain(c, r, Wire(c, e, frames)); o.error.None? ==> o.rest == [] && !o.receiver.headRead
    decreases |frames|
  {
    if frames != [] {
      var f := frames[0];
      var (_, e1) := EncodeFrame(c, e, f);
      var d := Deliver(r.asm, KindIn(f), Content(f));
      FrameArrives(c, e, r, f, Wire(c, e1, frames[1..]));
      if !d.1.Failure? {
        WireDelivers(c, e1, Taken(c, e, f, d.0), frames[1..]);
      }
    }
  }

  // ── messages, whole and chunked ────────────────────────────────────────────

  /** A message as it is sent: in one frame, or as a first chunk and continuations. */
  datatype Sent =
    | Whole(protocolId: Byte, payload: seq<Byte>)
    | Chunked(contextId: nat, protocolId: Byte, first: seq<Byte>, more: seq<seq<Byte>>)

  function PayloadOf(s: Sent): seq<Byte> {
    match s
    case Whole(_, payload) => payload
    case Chunked(_, _, first, more) => first + Flatten(more)
  }

  function ContinuationFrames(contextId: nat, protocolId: Byte, more: seq<seq<Byte>>): seq<Frame>
    requires contextId < Span(32)
  {
    if more == [] then []
    else
      [Frame(ContinuationData(contextId), protocolId, more[0])]
      + ContinuationFrames(contextId, protocolId, more[1..])
  }

  function FramesOf(s: Sent): seq<Frame>
    requires SentOk(s)
  {
    SpanGrows(4, 32);
    match s
    case Whole(id, payload) => [Frame(NORMAL_DATA, id, payload)]
    case Chunked(context, id, first, more) =>
      [Frame(FirstData(context, |PayloadOf(s)|), id, first)] + ContinuationFrames(context, id, more)
  }

  /** The content of a frame with this chunk has a length of at most 24 bits. */
  predicate ChunkFits(protocolId: Byte, chunk: seq<Byte>) {
    |Content(Frame([], protocolId, chunk))| < 0x100_0000
  }

  predicate ChunksFit(protocolId: Byte, chunks: seq<seq<Byte>>) {
    forall i :: 0 <= i < |chunks| ==> ChunkFits(protocolId, chunks[i])
  }

  /** Every chunk fits its frame; a chunked message is within the assembly limit, its context
      a 32-bit number. */
  predicate SentOk(s: Sent) {
    match s
    case Whole(id, payload) => ChunkFits(id, payload)
    case Chunked(context, id, first, more) =>
      && context < Span(4) && |PayloadOf(s)| < Span(4) && |PayloadOf(s)| <= MAX_ASSEMBLED_MESSAGE_SIZE
      && ChunkFits(id, first) && ChunksFit(id, more)
  }

  /** What an assembly and the chunks still to come make: the message, if it is under way. */
  function Expected(asm: Assembly, more: seq<seq<Byte>>): seq<(Byte, seq<Byte>)> {
    if asm.active then [(asm.protocolId, asm.buf + Flatten(more))] else []
  }

  /** The chunks still to come are just what is missing. */
  predicate Awaits(asm: Assembly, more: seq<seq<Byte>>) {
    && (asm.active ==> |asm.buf| < asm.expected == |asm.buf| + |Flatten(more)| <= MAX_ASSEMBLED_MESSAGE_SIZE)
    && (!asm.active ==> Flatten(more) == [])
  }

  function Continuation(contextId: nat, protocolId: Byte, chunk: seq<Byte>): Frame
    requires contextId < Span(4)
  {
    SpanGrows(4, 32);
    Frame(ContinuationData(contextId), protocolId, chunk)
  }

  lemma ContinuationKind(contextId: nat, protocolId: Byte, chunk: seq<Byte>)
    requires contextId < Span(4)
    ensures |Continuation(contextId, protocolId, chunk).headerData| <= 13
    ensures KindIn(Continuation(contextId, protocolId, chunk)) == ChunkedContinuation(contextId)
  {
    ContinuationParses(contextId, 0);
    ContinuationParses(contextId, 13 - |ContinuationData(contextId)|);
  }

  /** One more chunk. */
  lemma OneChunk(asm: Assembly, contextId: nat, protocolId: Byte, content: seq<Byte>, more: seq<seq<Byte>>)
    requires more != [] && Awaits(asm, more) && DecodeU8(content) == Parsed(protocolId, more[0])
    ensures var (asm1, e) := Deliver(asm, ChunkedContinuation(contextId), content);
      !e.Failure? && Awaits(asm1, more[1..]) && MessagesOf(e) + Expected(asm1, more[1..]) == Expected(asm, more)
  {
    var left := Flatten(more[1..]);
    assert asm.buf + more[0] + left == asm.buf + Flatten(more);
    if asm.active && |asm.buf| + |more[0]| >= asm.expected {
      assert left == [] && Flatten(more) == more[0];
      assert (asm.buf + more[0])[..asm.expected] == asm.buf + more[0];
    }
  }

  /** Continuations complete the message under way, wherever it was split; once it is
      complete, empty ones are skipped. */
  lemma {:induction false} ContinuationsComplete(asm: Assembly, contextId: nat, protocolId: Byte, more: seq<seq<Byte>>)
    requires contextId < Span(4) && ChunksFit(protocolId, more) && Awaits(asm, more)
    ensures AllSendable(ContinuationFrames(contextId, protocolId, more))
    ensures DeliverAll(asm, ContinuationFrames(contextId, protocolId, more)).messages == Expected(asm, more)
    ensures DeliverAll(asm, ContinuationFrames(contextId, protocolId, more)).error.None?
    decreases |more|
  {
    if more != [] {
      var f := Continuation(contextId, protocolId, more[0]);
      ContinuationKind(contextId, protocolId, more[0]);
      assert ChunkFits(protocolId, more[0]);
      ContentReads(f);
      OneChunk(asm, contextId, protocolId, Content(f), more);
      ContinuationsComplete(Deliver(asm, KindIn(f), Content(f)).0, contextId, protocolId, more[1..]);
    } else if asm.active {
      assert false;
    }
  }

  lemma FirstKind(s: Sent)
    requires SentOk(s) && s.Chunked?
    ensures var f := FramesOf(s)[0]; |f.headerData| <= 13 && KindIn(f) == ChunkedFirst(s.contextId, |PayloadOf(s)|)
  {
    FirstParses(s.contextId, |PayloadOf(s)|, 0);
    FirstParses(s.contextId, |PayloadOf(s)|, 13 - |FramesOf(s)[0].headerData|);
  }

  /** A first chunk starts the assembly afresh. */
  lemma FirstChunk(asm: Assembly, kind: FrameType, content: seq<Byte>, protocolId: Byte, first: seq<Byte>,
                   more: seq<seq<Byte>>)
    requires kind.ChunkedFirst? && kind.totalSize == |first| + |Flatten(more)| <= MAX_ASSEMBLED_MESSAGE_SIZE
    requires DecodeU8(content) == Parsed(protocolId, first)
    ensures var (asm1, e) := Deliver(asm, kind, content);
      !e.Failure? && Awaits(asm1, more) && MessagesOf(e) + Expected(asm1, more) == [(protocolId, first + Flatten(more))]
    ensures Flatten(more) != [] ==> Deliver(asm, kind, content).1 == Nothing
  {
    if |Flatten(more)| == 0 {
      assert first[..kind.totalSize] == first + Flatten(more);
    }
  }

  /** A message sent whole or in chunks is delivered, once and as it was, from any state of
      the assembly. */
  lemma SentArrives(asm: Assembly, s: Sent)
    requires SentOk(s)
    ensures AllSendable(FramesOf(s))
    ensures var d := DeliverAll(asm, FramesOf(s)); d.messages == [(s.protocolId, PayloadOf(s))] && d.error.None?
  {
    SpanOf64();
    var f := FramesOf(s)[0];
    ContentReads(f);
    match s {
      case Whole(id, payload) =>
        NormalParses(11);
        assert FramesOf(s)[1..] == [];
        assert [(id, payload)] + [] == [(id, payload)];
      case Chunked(context, id, first, more) =>
        FirstKind(s);
        FirstChunk(asm, KindIn(f), Content(f), id, first, more);
        ContinuationsComplete(Deliver(asm, KindIn(f), Content(f)).0, context, id, more);
        assert FramesOf(s)[1..] == ContinuationFrames(context, id, more);
    }
  }

  // ── the exchange ───────────────────────────────────────────────────────────

  predicate AllOk(sents: seq<Sent>) {
    forall i :: 0 <= i < |sents| ==> SentOk(sents[i])
  }

  function AllFrames(sents: seq<Sent>): seq<Frame>
    requires AllOk(sents)
  {
    if sents == [] then [] else FramesOf(sents[0]) + AllFrames(sents[1..])
  }

  function Payloads(sents: seq<Sent>): seq<(Byte, seq<Byte>)> {
    seq(|sents|, i requires 0 <= i < |sents| => (sents[i].protocolId, PayloadOf(sents[i])))
  }

  lemma Joined(asm: Assembly, a: seq<Frame>, b: seq<Frame>, x: seq<(Byte, seq<Byte>)>, y: seq<(Byte, seq<Byte>)>)
    requires AllSendable(a) && AllSendable(b)
    requires DeliverAll(asm, a).messages == x && DeliverAll(asm, a).error.None?
    requires var asm1 := DeliverAll(asm, a).asm; DeliverAll(asm1, b).messages == y && DeliverAll(asm1, b).error.None?
    ensures AllSendable(a + b) && DeliverAll(asm, a + b).messages == x + y && DeliverAll(asm, a + b).error.None?
  {
    DeliverInTwo(asm, a, b);
  }

  lemma PayloadsStep(sents: seq<Sent>)
    requires sents != []
    ensures Payloads(sents) == [(sents[0].protocolId, PayloadOf(sents[0]))] + Payloads(sents[1..])
  {
  }

  lemma {:induction false} AllArrive(asm: Assembly, sents: seq<Sent>)
    requires AllOk(sents)
    ensures AllSendable(AllFrames(sents))
    ensures var d := DeliverAll(asm, AllFrames(sents)); d.messages == Payloads(sents) && d.error.None?
    decreases |sents|
  {
    if sents != [] {
      SentArrives(asm, sents[0]);
      var asm1 := DeliverAll(asm, FramesOf(sents[0])).asm;
      AllArrive(asm1, sents[1..]);
      var first := [(sents[0].protocolId, PayloadOf(sents[0]))];
      Joined(asm, FramesOf(sents[0]), AllFrames(sents[1..]), first, Payloads(sents[1..]));
      PayloadsStep(sents);
    }
  }

  /** Any messages, each sent whole or split anywhere into chunks, their bytes cut into any
      pieces on the way: the receiver hands over exactly those messages, in order, without an
      error, with nothing left. */
  lemma ExchangeIsFaithful(c: Crypto, e: End, r: Receiver, sents: seq<Sent>, pieces: seq<seq<Byte>>)
    requires Involutive(c) && InStep(e, r) && AllOk(sents)
    requires AllSendable(AllFrames(sents)) && Flatten(pieces) == Wire(c, e, AllFrames(sents))
    ensures var o := Feed(c, r, [], pieces);
            o.messages == Payloads(sents) && o.error.None? && o.rest == [] && !o.receiver.headRead
  {
    AllArrive(r.asm, sents);
    WireDelivers(c, e, r, AllFrames(sents));
    FragmentationIsInvisible(c, r, [], pieces);
    assert [] + Flatten(pieces) == Flatten(pieces);
  }

  // ── the assembly buffer ────────────────────────────────────────────────────

  /** A message under way is short of what it expects, and that is within the limit; no
      bytes are kept otherwise. */
  predicate Bounded(asm: Assembly) {
    if asm.active then |asm.buf| < asm.expected <= MAX_ASSEMBLED_MESSAGE_SIZE else asm.buf == []
  }

  /** Whatever bytes arrive, the buffer never grows past the limit. */
  lemma AdvanceKeepsBound(c: Crypto, r: Receiver, bytes: seq<Byte>)
    requires |bytes| == Need(r) && Bounded(r.asm)
    ensures Bounded(Advance(c, r, bytes).0.asm)
  {
  }

  lemma {:induction false} DrainKeepsBound(c: Crypto, r: Receiver, src: seq<Byte>)
    requires Bounded(r.asm)
    ensures Bounded(Drain(c, r, src).receiver.asm)
    decreases |src|
  {
    if |src| >= Need(r) {
      var (r1, e) := Advance(c, r, src[..Need(r)]);
      AdvanceKeepsBound(c, r, src[..Need(r)]);
      if !e.Failure? {
        DrainKeepsBound(c, r1, src[Need(r)..]);
      }
    }
  }

  // ── a call that yields nothing ─────────────────────────────────────────────

  lemma QuietCall(c: Crypto, e: End, r: Receiver, frames: seq<Frame>)
    requires Involutive(c) && InStep(e, r) && AllSendable(frames) && frames != []
    requires Deliver(r.asm, KindIn(frames[0]), Content(frames[0])).1 == Nothing
    ensures var src := Wire(c, e, frames);
      var (r1, rest, event) := DecodeFrame(c, r, src);
      event == Nothing && |rest| < |src| && Drain(c, r1, rest).messages == DeliverAll(r.asm, frames).messages
  {
    var f := frames[0];
    var e1 := EncodeFrame(c, e, f).1;
    var r1 := Taken(c, e, f, Deliver(r.asm, KindIn(f), Content(f)).0);
    CallTakesFrame(c, e, r, f, Wire(c, e1, frames[1..]));
    WireDelivers(c, e1, r1, frames[1..]);
  }

  /** A call may yield no message although a whole one is in the buffer: a first chunk ends
      the call, with its continuation still to read. */
  lemma NothingIsNotDrained(c: Crypto, e: End, r: Receiver, contextId: nat, protocolId: Byte, a: seq<Byte>,
                            b: seq<Byte>)
    requires Involutive(c) && InStep(e, r) && b != [] && SentOk(Chunked(contextId, protocolId, a, [b]))
    ensures AllSendable(FramesOf(Chunked(contextId, protocolId, a, [b])))
    ensures var src := Wire(c, e, FramesOf(Chunked(contextId, protocolId, a, [b])));
      var (r1, rest, event) := DecodeFrame(c, r, src);
      event == Nothing && |rest| < |src| && Drain(c, r1, rest).messages == [(protocolId, a + b)]
  {
    var s := Chunked(contextId, protocolId, a, [b]);
    assert Flatten([b]) == b by {
      assert [b][1..] == [] && b + [] == b;
    }
    SentArrives(r.asm, s);
    var f := FramesOf(s)[0];
    FirstKind(s);
    ContentReads(f);
    FirstChunk(r.asm, KindIn(f), Content(f), protocolId, a, [b]);
    QuietCall(c, e, r, FramesOf(s));
  }
}
