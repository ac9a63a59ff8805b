/** The RLPx frame stream: what a sender writes, what a receiver makes of any bytes in any
    fragmentation, and that the two fit together. The stream cipher is a keystream applied
    position by position; a MAC is what it has absorbed, seen through an abstract digest. */
module FrameStream {
  import opened Bytes
  import opened FrameHeader
  import opened Rlp
  import opened Wrappers

  const MAX_ASSEMBLED_MESSAGE_SIZE: nat := 16 * 1024 * 1024

  /** The keystream at a position, the digest of absorbed bytes, and the block that a MAC
      update absorbs, made of the digest and a 16-byte seed. */
  datatype Crypto = Crypto(
    key: (nat, Byte) -> Byte,
    sum: seq<Byte> -> Hash32,
    mix: (Hash32, seq<Byte>) -> seq<Byte>)

  /** Applying the keystream twice at the same position gives the byte back. */
  ghost predicate Involutive(c: Crypto) {
    forall pos: nat, b: Byte :: c.key(pos, c.key(pos, b)) == b
  }

  function ApplyKey(c: Crypto, pos: nat, s: seq<Byte>): (out: seq<Byte>)
    ensures |out| == |s|
  {
    seq(|s|, i requires 0 <= i < |s| => c.key(pos + i, s[i]))
  }

  lemma KeyTwice(c: Crypto, pos: nat, s: seq<Byte>)
    requires Involutive(c)
    ensures ApplyKey(c, pos, ApplyKey(c, pos, s)) == s
  {
  }

  function UpdateMac(c: Crypto, mac: seq<Byte>, seed: seq<Byte>): seq<Byte> {
    mac + c.mix(c.sum(mac), seed)
  }

  /** A frame's content filled up to a multiple of 16. */
  function PaddedSize(size: nat): (n: nat)
    ensures n % 16 == 0 && size <= n < size + 16
  {
    size + (16 - size % 16) % 16
  }

  // ── the sender ─────────────────────────────────────────────────────────────

  /** One end of a direction: keystream position and what its MAC has absorbed. */
  datatype End = End(pos: nat, mac: seq<Byte>)

  datatype Frame = Frame(headerData: seq<Byte>, protocolId: Byte, chunk: seq<Byte>)

  function Content(f: Frame): seq<Byte> {
    UintFits(f.protocolId);
    EncodeUint(f.protocolId) + f.chunk
  }

  lemma UintFits(b: Byte)
    ensures b < Span(32)
  {
    SpanOf64();
    SpanGrows(1, 32);
  }

  /** A length in three bytes; its higher bits are cut off. */
  function SizeBytes(size: nat): (s: seq<Byte>)
    ensures |s| == 3
  {
    [size / 65536 % 256, size / 256 % 256, size % 256]
  }

  function SizeIn(s: seq<Byte>): nat
    requires |s| >= 3
  {
    var high: nat, middle: nat, low: nat := s[0], s[1], s[2];
    high * 65536 + middle * 256 + low
  }

  /** Three bytes keep the low 24 bits. */
  lemma LowBits(size: nat)
    ensures SizeIn(SizeBytes(size)) == size % 0x100_0000
  {
    var top, high := size / 65536 / 256, size / 65536 % 256;
    assert size / 256 / 256 == size / 65536;
    assert size == 0x100_0000 * top + (high * 65536 + size / 256 % 256 * 256 + size % 256);
  }

  function PlainHead(f: Frame): (head: seq<Byte>)
    requires |f.headerData| <= 13
    ensures |head| == 16
  {
    SizeBytes(|Content(f)|) + f.headerData + Zeros(13 - |f.headerData|)
  }

  function PlainBody(f: Frame): (body: seq<Byte>)
    ensures |body| == PaddedSize(|Content(f)|)
  {
    Content(f) + Zeros(PaddedSize(|Content(f)|) - |Content(f)|)
  }

  function AfterHead(c: Crypto, e: End, head: seq<Byte>): End {
    End(e.pos + |head|, UpdateMac(c, e.mac, head))
  }

  function AfterBody(c: Crypto, e: End, body: seq<Byte>): End {
    End(e.pos + |body|, UpdateMac(c, e.mac + body, c.sum(e.mac + body)[..16]))
  }

  /** The bytes of one frame and the sender after it. */
  function EncodeFrame(c: Crypto, e: End, f: Frame): (seq<Byte>, End)
    requires |f.headerData| <= 13
  {
    var head := ApplyKey(c, e.pos, PlainHead(f));
    var e1 := AfterHead(c, e, head);
    var body := ApplyKey(c, e1.pos, PlainBody(f));
    var e2 := AfterBody(c, e1, body);
    (head + c.sum(e1.mac)[..16] + (body + c.sum(e2.mac)[..16]), e2)
  }

  // ── the receiver ───────────────────────────────────────────────────────────

  datatype FrameError =
    | HeaderMacMismatch
    | FrameMacMismatch
    | TotalOverLimit(totalSize: nat)
    | AssemblyOverLimit
    | BadProtocolId(error: RlpError)

  /** A chunked message under way. */
  datatype Assembly = Assembly(active: bool, buf: seq<Byte>, expected: nat, protocolId: Byte)

  datatype Event =
    | Nothing
    | Message(protocolId: Byte, payload: seq<Byte>)
    | Failure(error: FrameError)

  datatype Receiver = Receiver(end: End, headRead: bool, size: nat, kind: FrameType, asm: Assembly)

  /** What a frame's content does, by its type. */
  function Deliver(asm: Assembly, kind: FrameType, content: seq<Byte>): (Assembly, Event) {
    match kind
    case Normal =>
      (match DecodeU8(content)
       case Failed(e) => (asm, Failure(BadProtocolId(e)))
       case Parsed(id, payload) => (asm, Message(id, payload)))
    case ChunkedFirst(_, total) =>
      if total > MAX_ASSEMBLED_MESSAGE_SIZE then (Assembly(false, [], 0, 0), Failure(TotalOverLimit(total)))
      else
        (match DecodeU8(content)
         case Failed(e) => (asm, Failure(BadProtocolId(e)))
         case Parsed(id, chunk) => Complete(Assembly(true, chunk, total, id)))
    case ChunkedContinuation(_) =>
      if !asm.active then (asm, Nothing)
      else
        match DecodeU8(content)
        case Failed(e) => (asm, Failure(BadProtocolId(e)))
        case Parsed(_, chunk) =>
          if |asm.buf| + |chunk| > MAX_ASSEMBLED_MESSAGE_SIZE then
            (Assembly(false, [], 0, 0), Failure(AssemblyOverLimit))
          else Complete(asm.(buf := asm.buf + chunk))
  }

  /** Hand the message over once enough of it is there. */
  function Complete(asm: Assembly): (Assembly, Event) {
    if |asm.buf| >= asm.expected then
      (asm.(active := false, buf := []), Message(asm.protocolId, asm.buf[..asm.expected]))
    else (asm, Nothing)
  }

  /** How many bytes the receiver waits for. */
  function Need(r: Receiver): (n: nat)
    ensures n >= 16
  {
    if r.headRead then PaddedSize(r.size) + 16 else 32
  }

  /** The receiver once they are there. A header that does not authenticate still goes into
      the MAC; a body that does not leaves the header read. */
  function Advance(c: Crypto, r: Receiver, bytes: seq<Byte>): (Receiver, Event)
    requires |bytes| == Need(r)
  {
    if !r.headRead then
      var end := AfterHead(c, r.end, bytes[..16]);
      if bytes[16..] != c.sum(end.mac)[..16] then (r.(end := End(r.end.pos, end.mac)), Failure(HeaderMacMismatch))
      else
        var plain := ApplyKey(c, r.end.pos, bytes[..16]);
        (r.(end := end, headRead := true, size := SizeIn(plain), kind := ParseData(plain[3..])), Nothing)
    else
      var n := PaddedSize(r.size);
      var end := AfterBody(c, r.end, bytes[..n]);
      if bytes[n..] != c.sum(end.mac)[..16] then (r.(end := End(r.end.pos, end.mac)), Failure(FrameMacMismatch))
      else
        var plain := ApplyKey(c, r.end.pos, bytes[..n]);
        var delivered := Deliver(r.asm, r.kind, plain[..r.size]);
        (r.(end := end, headRead := false, asm := delivered.0), delivered.1)
  }

  /** What a failed step leaves unread: a header stays in the buffer, a body does not. */
  function Unread(r: Receiver, src: seq<Byte>): seq<Byte>
    requires |src| >= Need(r)
  {
    if r.headRead then src[Need(r)..] else src
  }

  /** One call: a header if none is read yet, then its body, as far as the bytes go. */
  function DecodeFrame(c: Crypto, r: Receiver, src: seq<Byte>): (Receiver, seq<Byte>, Event) {
    if r.headRead then DecodeBody(c, r, src)
    else if |src| < 32 then (r, src, Nothing)
    else
      var (r1, e) := Advance(c, r, src[..32]);
      if e.Failure? then (r1, src, e) else DecodeBody(c, r1, src[32..])
  }

  function DecodeBody(c: Crypto, r: Receiver, src: seq<Byte>): (Receiver, seq<Byte>, Event) {
    if |src| < Need(r) then (r, src, Nothing)
    else
      var (r1, e) := Advance(c, r, src[..Need(r)]);
      (r1, src[Need(r)..], e)
  }

  // ── reading until nothing is consumed ──────────────────────────────────────

  /** The receiver after reading all it can, the bytes left, the messages, and the error
      that stopped it if one did. */
  datatype Outcome = Outcome(receiver: Receiver, rest: seq<Byte>, messages: seq<(Byte, seq<Byte>)>,
    error: Option<FrameError>)

  function MessagesOf(e: Event): seq<(Byte, seq<Byte>)> {
    if e.Message? then [(e.protocolId, e.payload)] else []
  }

  function After(messages: seq<(Byte, seq<Byte>)>, o: Outcome): Outcome {
    o.(messages := messages + o.messages)
  }

  function Drain(c: Crypto, r: Receiver, src: seq<Byte>): Outcome
    decreases |src|
  {
    if |src| < Need(r) then Outcome(r, src, [], None)
    else
      var (r1, e) := Advance(c, r, src[..Need(r)]);
      if e.Failure? then Outcome(r1, Unread(r, src), [], Some(e.error))
      else After(MessagesOf(e), Drain(c, r1, src[Need(r)..]))
  }

  /** A call that consumes nothing and yields nothing has drained the buffer; any other is
      the front of the draining. */
  lemma CallIsFrontOfDrain(c: Crypto, r: Receiver, src: seq<Byte>)
    ensures var (r1, rest, e) := DecodeFrame(c, r, src);
      && |rest| <= |src|
      && (e.Failure? ==> Drain(c, r, src) == Outcome(r1, rest, [], Some(e.error)))
      && (!e.Failure? && |rest| == |src| ==> Drain(c, r, src) == Outcome(r1, rest, [], None) && e == Nothing)
      && (!e.Failure? && |rest| < |src| ==> Drain(c, r, src) == After(MessagesOf(e), Drain(c, r1, rest)))
  {
    if !r.headRead && |src| >= 32 {
      var (r1, e1) := Advance(c, r, src[..32]);
      if !e1.Failure? {
        var (r2, rest, e2) := DecodeBody(c, r1, src[32..]);
        assert Drain(c, r, src) == After([], Drain(c, r1, src[32..]));
        assert After([], Drain(c, r1, src[32..])) == Drain(c, r1, src[32..]) by {
          assert [] + Drain(c, r1, src[32..]).messages == Drain(c, r1, src[32..]).messages;
        }
        if |src[32..]| < Need(r1) {
          assert Drain(c, r1, src[32..]) == Outcome(r1, src[32..], [], None);
          assert MessagesOf(Nothing) + [] == [];
        }
      }
    }
  }

  // ── fragmentation ──────────────────────────────────────────────────────────

  /** Draining what is there and later the rest is draining it all. */
  lemma {:induction false} DrainInTwo(c: Crypto, r: Receiver, a: seq<Byte>, b: seq<Byte>)
    ensures var first := Drain(c, r, a);
      Drain(c, r, a + b) == if first.error.Some? then first.(rest := first.rest + b)
                            else After(first.messages, Drain(c, first.receiver, first.rest + b))
    decreases |a|
  {
    var n := Need(r);
    if |a| >= n {
      assert (a + b)[..n] == a[..n] && (a + b)[n..] == a[n..] + b;
      var (r1, e) := Advance(c, r, a[..n]);
      if !e.Failure? {
        DrainInTwo(c, r1, a[n..], b);
        var second := Drain(c, r1, a[n..]);
        AfterTwice(MessagesOf(e), second.messages, Drain(c, second.receiver, second.rest + b));
      }
    } else {
      AfterNothing(Drain(c, r, a + b));
    }
  }

  lemma AfterNothing(o: Outcome)
    ensures After([], o) == o
  {
    assert [] + o.messages == o.messages;
  }

  lemma AfterTwice(a: seq<(Byte, seq<Byte>)>, b: seq<(Byte, seq<Byte>)>, o: Outcome)
    ensures After(a, After(b, o)) == After(a + b, o)
  {
    assert a + (b + o.messages) == a + b + o.messages;
  }

  function Flatten(pieces: seq<seq<Byte>>): seq<Byte> {
    if pieces == [] then [] else pieces[0] + Flatten(pieces[1..])
  }

  /** Bytes arriving piece by piece, the buffer drained after each; the first error ends it. */
  function Feed(c: Crypto, r: Receiver, buffered: seq<Byte>, pieces: seq<seq<Byte>>): Outcome
    decreases |pieces|
  {
    if pieces == [] then Outcome(r, buffered, [], None)
    else
      var o := Drain(c, r, buffered + pieces[0]);
      if o.error.Some? then o else After(o.messages, Feed(c, o.receiver, o.rest, pieces[1..]))
  }

  /** The outcomes agree but for bytes still unread after an error. */
  predicate SameButUnread(x: Outcome, y: Outcome) {
    && x.receiver == y.receiver && x.messages == y.messages && x.error == y.error
    && (x.error.None? ==> x.rest == y.rest)
  }

  /** For every byte stream, good or bad, how it is cut into pieces does not matter. */
  lemma {:induction false} FragmentationIsInvisible(c: Crypto, r: Receiver, buffered: seq<Byte>, pieces: seq<seq<Byte>>)
    requires |buffered| < Need(r)
    ensures SameButUnread(Feed(c, r, buffered, pieces), Drain(c, r, buffered + Flatten(pieces)))
    decreases |pieces|
  {
    if pieces == [] {
      assert buffered + [] == buffered;
    } else {
      var a, b := buffered + pieces[0], Flatten(pieces[1..]);
      var o := Drain(c, r, a);
      assert buffered + Flatten(pieces) == a + b;
      DrainInTwo(c, r, a, b);
      if o.error.None? {
        DrainStops(c, r, a);
        FragmentationIsInvisible(c, o.receiver, o.rest, pieces[1..]);
      }
    }
  }

  /** Draining without an error leaves less than the receiver waits for. */
  lemma {:induction false} DrainStops(c: Crypto, r: Receiver, src: seq<Byte>)
    requires Drain(c, r, src).error.None?
    ensures |Drain(c, r, src).rest| < Need(Drain(c, r, src).receiver)
    decreases |src|
  {
    if |src| >= Need(r) {
      DrainStops(c, Advance(c, r, src[..Need(r)]).0, src[Need(r)..]);
    }
  }
}
