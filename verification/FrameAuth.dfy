/** Authentication of the frame stream: what the two tags of a frame are taken over, that a
    frame whose tags do not match is refused, and that whatever bytes come in, every message
    handed over was carried by frames whose tags all match. */
module FrameAuth {
  import opened Bytes
  import opened FrameExchange
  import opened FrameHeader
  import opened FrameStream
  import opened Rlp

  // ── the tags ───────────────────────────────────────────────────────────────

  /** The MAC after a header: it takes in its own digest mixed with the header. */
  function HeadMac(c: Crypto, mac: seq<Byte>, head: seq<Byte>): seq<Byte> { mac + c.mix(c.sum(mac), head) }

  /** The MAC after a body: it takes in the body, and then its digest mixed with that digest's
      first half. */
  function BodyMac(c: Crypto, mac: seq<Byte>, body: seq<Byte>): seq<Byte> {
    mac + body + c.mix(c.sum(mac + body), c.sum(mac + body)[..16])
  }

  function Tag(c: Crypto, mac: seq<Byte>): seq<Byte> { c.sum(mac)[..16] }

  /** A header is refused exactly when its tag is not the digest after it; it then stays in the
      buffer, though the MAC has taken it in. */
  lemma HeadVerdict(c: Crypto, r: Receiver, src: seq<Byte>)
    requires !r.headRead && |src| >= 32
    ensures DecodeFrame(c, r, src).2 == Failure(HeaderMacMismatch)
       <==> src[16..32] != Tag(c, HeadMac(c, r.end.mac, src[..16]))
    ensures DecodeFrame(c, r, src).2 == Failure(HeaderMacMismatch) ==>
              DecodeFrame(c, r, src).1 == src
              && DecodeFrame(c, r, src).0 == r.(end := End(r.end.pos, HeadMac(c, r.end.mac, src[..16])))
  {
    assert src[..32][..16] == src[..16] && src[..32][16..] == src[16..32];
  }

  /** A body that is all there is refused exactly when its tag is not the digest after it; it
      is consumed then, tag and all, and nothing is handed over. Otherwise it is decrypted and
      acted on. */
  lemma BodyVerdict(c: Crypto, r: Receiver, src: seq<Byte>, n: nat)
    requires r.headRead && n % 16 == 0 && r.size <= n < r.size + 16 && |src| >= n + 16
    ensures DecodeFrame(c, r, src).2 == Failure(FrameMacMismatch)
       <==> src[n..n + 16] != Tag(c, BodyMac(c, r.end.mac, src[..n]))
    ensures DecodeFrame(c, r, src).1 == src[n + 16..]
    ensures src[n..n + 16] == Tag(c, BodyMac(c, r.end.mac, src[..n])) ==>
              DecodeFrame(c, r, src).2 == Deliver(r.asm, r.kind, ApplyKey(c, r.end.pos, src[..n])[..r.size]).1
  {
    assert n == PaddedSize(r.size);
    assert src[..n + 16][..n] == src[..n] && src[..n + 16][n..] == src[n..n + 16];
  }

  /** The refusals of a frame's content, each under its own condition. */
  lemma ContentVerdict(asm: Assembly, kind: FrameType, content: seq<Byte>)
    ensures forall total :: Deliver(asm, kind, content).1 == Failure(TotalOverLimit(total))
              <==> kind.ChunkedFirst? && kind.totalSize == total > 16 * 1024 * 1024
    ensures Deliver(asm, kind, content).1 == Failure(AssemblyOverLimit)
       <==> && kind.ChunkedContinuation? && asm.active && DecodeU8(content).Parsed?
            && |asm.buf| + |DecodeU8(content).rest| > 16 * 1024 * 1024
    ensures forall e :: Deliver(asm, kind, content).1 == Failure(BadProtocolId(e))
              <==> && DecodeU8(content) == Failed(e)
                   && match kind
                      case Normal => true
                      case ChunkedFirst(_, total) => total <= 16 * 1024 * 1024
                      case ChunkedContinuation(_) => asm.active
    ensures match Deliver(asm, kind, content).1
            case Failure(BadProtocolId(_)) => Deliver(asm, kind, content).0 == asm
            case Failure(_) => Deliver(asm, kind, content).0 == Assembly(false, [], 0, 0)
            case _ => true
  {
  }

  // ── frames as they are on the wire ─────────────────────────────────────────

  datatype Raw = Raw(head: seq<Byte>, headTag: seq<Byte>, body: seq<Byte>, bodyTag: seq<Byte>)

  /** The length a header announces: its first three bytes, decrypted, most significant first. */
  function Announced(c: Crypto, pos: nat, head: seq<Byte>): nat
    requires |head| >= 3
  {
    FromBE([c.key(pos, head[0]), c.key(pos + 1, head[1]), c.key(pos + 2, head[2])])
  }

  /** Both tags match, and the body is the announced length filled up to a multiple of 16. */
  predicate Authentic(c: Crypto, e: End, f: Raw) {
    && |f.head| == 16 && |f.headTag| == 16 && |f.bodyTag| == 16
    && |f.body| % 16 == 0 && Announced(c, e.pos, f.head) <= |f.body| < Announced(c, e.pos, f.head) + 16
    && f.headTag == Tag(c, HeadMac(c, e.mac, f.head))
    && f.bodyTag == Tag(c, BodyMac(c, HeadMac(c, e.mac, f.head), f.body))
  }

  function Behind(c: Crypto, e: End, f: Raw): End {
    End(e.pos + |f.head| + |f.body|, BodyMac(c, HeadMac(c, e.mac, f.head), f.body))
  }

  function RawBytes(f: Raw): seq<Byte> { f.head + f.headTag + f.body + f.bodyTag }

  /** What the frame says: its type, and its content decrypted. */
  function Says(c: Crypto, e: End, f: Raw): (FrameType, seq<Byte>)
    requires Authentic(c, e, f)
  {
    (ParseData(ApplyKey(c, e.pos, f.head)[3..]), ApplyKey(c, e.pos + 16, f.body)[..Announced(c, e.pos, f.head)])
  }

  predicate AllAuthentic(c: Crypto, e: End, frames: seq<Raw>)
    decreases |frames|
  {
    frames == [] || (Authentic(c, e, frames[0]) && AllAuthentic(c, Behind(c, e, frames[0]), frames[1..]))
  }

  function AllBytes(frames: seq<Raw>): seq<Byte> {
    if frames == [] then [] else RawBytes(frames[0]) + AllBytes(frames[1..])
  }

  /** The messages that acting on the frames one after the other hands over. */
  function Carried(c: Crypto, e: End, asm: Assembly, frames: seq<Raw>): seq<(Byte, seq<Byte>)>
    requires AllAuthentic(c, e, frames)
    decreases |frames|
  {
    if frames == [] then []
    else
      var said := Says(c, e, frames[0]);
      var (asm1, event) := Deliver(asm, said.0, said.1);
      MessagesOf(event) + Carried(c, Behind(c, e, frames[0]), asm1, frames[1..])
  }

  lemma AnnouncedSize(c: Crypto, pos: nat, head: seq<Byte>)
    requires |head| == 16
    ensures SizeIn(ApplyKey(c, pos, head)) == Announced(c, pos, head)
  {
    ThreeBytes([c.key(pos, head[0]), c.key(pos + 1, head[1]), c.key(pos + 2, head[2])]);
  }

  lemma ThreeBytes(s: seq<Byte>)
    requires |s| == 3
    ensures var a: nat, b: nat, d: nat := s[0], s[1], s[2]; FromBE(s) == 65536 * a + 256 * b + d
  {
    assert s[..2][..1] == s[..1] && s[..1][..0] == [];
    assert FromBE(s[..1]) == 256 * FromBE(s[..1][..0]) + s[0];
    assert FromBE(s[..2]) == 256 * FromBE(s[..2][..1]) + s[1];
  }

  /** A step of the receiver over a header and a body that both went through. */
  lemma FrameTaken(c: Crypto, r: Receiver, head: seq<Byte>, body: seq<Byte>) returns (f: Raw)
    requires !r.headRead && |head| == 32 && !Advance(c, r, head).1.Failure?
    requires |body| == Need(Advance(c, r, head).0)
    requires Advance(c, Advance(c, r, head).0, body).1 != Failure(FrameMacMismatch)
    ensures Authentic(c, r.end, f) && RawBytes(f) == head + body
    ensures Advance(c, r, head).1 == Nothing
    ensures var (r2, event) := Advance(c, Advance(c, r, head).0, body);
      var said := Says(c, r.end, f);
      (r2.asm, event) == Deliver(r.asm, said.0, said.1) && r2.end == Behind(c, r.end, f) && !r2.headRead
  {
    var r1 := Advance(c, r, head).0;
    var n := PaddedSize(r1.size);
    f := Raw(head[..16], head[16..], body[..n], body[n..]);
    AnnouncedSize(c, r.end.pos, head[..16]);
    assert head[..16] + head[16..] == head && body[..n] + body[n..] == body;
    assert RawBytes(f) == head[..16] + head[16..] + (body[..n] + body[n..]);
  }

  /** Draining takes such a frame and goes on behind it. */
  lemma FrameDrained(c: Crypto, r: Receiver, head: seq<Byte>, body: seq<Byte>, tail: seq<Byte>)
    requires !r.headRead && |head| == 32 && Advance(c, r, head).1 == Nothing
    requires |body| == Need(Advance(c, r, head).0) && !Advance(c, Advance(c, r, head).0, body).1.Failure?
    ensures var (r2, event) := Advance(c, Advance(c, r, head).0, body);
            Drain(c, r, head + (body + tail)) == After(MessagesOf(event), Drain(c, r2, tail))
  {
    var r1 := Advance(c, r, head).0;
    StepOfDrain(c, r, head, body + tail);
    StepOfDrain(c, r1, body, tail);
    AfterNothing(Drain(c, r1, body + tail));
  }

  /** The bytes begin with these frames, all authentic, and draining the bytes hands over the
      messages they carry. */
  predicate Carries(c: Crypto, r: Receiver, src: seq<Byte>, frames: seq<Raw>) {
    && AllAuthentic(c, r.end, frames) && |AllBytes(frames)| <= |src| && AllBytes(frames) == src[..|AllBytes(frames)|]
    && Drain(c, r, src).messages == Carried(c, r.end, r.asm, frames)
  }

  /** Whatever bytes a receiver between two frames is given, every message it hands over is
      carried by frames at the front of them whose tags all match. */
  lemma {:induction false} OnlyAuthentic(c: Crypto, r: Receiver, src: seq<Byte>) returns (frames: seq<Raw>)
    requires !r.headRead
    ensures Carries(c, r, src, frames)
    decreases |src|
  {
    var head, rest := FrontHead(c, r, src);
    if head == [] {
      frames := NoFrames(c, r, src);
    } else {
      var body, tail := FrontBody(c, r, src, head, rest);
      if body == [] {
        frames := NoFrames(c, r, src);
      } else {
        var f := FrameTaken(c, r, head, body);
        var (r2, event) := Advance(c, Advance(c, r, head).0, body);
        var more := OnlyAuthentic(c, r2, tail);
        frames := [f] + more;
        CarriesMore(c, r, head, body, tail, f, more, r2, event);
      }
    }
  }

  /** The header at the front, if there is one that goes through. */
  lemma FrontHead(c: Crypto, r: Receiver, src: seq<Byte>) returns (head: seq<Byte>, rest: seq<Byte>)
    requires !r.headRead
    ensures head == [] ==> Drain(c, r, src).messages == []
    ensures head != [] ==> |head| == 32 && src == head + rest && Advance(c, r, head).1 == Nothing
  {
    head, rest := [], src;
    if |src| >= 32 && !Advance(c, r, src[..32]).1.Failure? {
      head, rest := src[..32], src[32..];
    }
  }

  /** And the body behind it. */
  lemma FrontBody(c: Crypto, r: Receiver, src: seq<Byte>, head: seq<Byte>, rest: seq<Byte>)
    returns (body: seq<Byte>, tail: seq<Byte>)
    requires !r.headRead && |head| == 32 && src == head + rest && Advance(c, r, head).1 == Nothing
    ensures body == [] ==> Drain(c, r, src).messages == []
    ensures body != [] ==>
      && |body| == Need(Advance(c, r, head).0) && src == head + (body + tail) && |tail| < |src|
      && !Advance(c, Advance(c, r, head).0, body).1.Failure?
  {
    var r1 := Advance(c, r, head).0;
    StepOfDrain(c, r, head, rest);
    AfterNothing(Drain(c, r1, rest));
    body, tail := [], rest;
    if |rest| >= Need(r1) && !Advance(c, r1, rest[..Need(r1)]).1.Failure? {
      body, tail := rest[..Need(r1)], rest[Need(r1)..];
      assert rest == body + tail;
    }
  }

  lemma NoFrames(c: Crypto, r: Receiver, src: seq<Byte>) returns (frames: seq<Raw>)
    requires Drain(c, r, src).messages == []
    ensures frames == [] && Carries(c, r, src, frames)
  {
    frames := [];
  }

  lemma CarriesMore(c: Crypto, r: Receiver, head: seq<Byte>, body: seq<Byte>, tail: seq<Byte>, f: Raw, more: seq<Raw>,
                    r2: Receiver, event: Event)
    requires !r.headRead && |head| == 32 && Advance(c, r, head).1 == Nothing
    requires |body| == Need(Advance(c, r, head).0) && Advance(c, Advance(c, r, head).0, body) == (r2, event)
    requires !event.Failure? && Authentic(c, r.end, f) && RawBytes(f) == head + body && r2.end == Behind(c, r.end, f)
    requires (r2.asm, event) == Deliver(r.asm, Says(c, r.end, f).0, Says(c, r.end, f).1)
    requires Carries(c, r2, tail, more)
    ensures Carries(c, r, head + (body + tail), [f] + more)
  {
    FrameDrained(c, r, head, body, tail);
    OneMoreFrame(c, r, f, more, r2.asm, event);
    FrontOf(head + (body + tail), head, body, tail, RawBytes(f), AllBytes(more));
  }

  lemma OneMoreFrame(c: Crypto, r: Receiver, f: Raw, more: seq<Raw>, asm1: Assembly, event: Event)
    requires Authentic(c, r.end, f) && AllAuthentic(c, Behind(c, r.end, f), more)
    requires (asm1, event) == Deliver(r.asm, Says(c, r.end, f).0, Says(c, r.end, f).1)
    ensures AllAuthentic(c, r.end, [f] + more) && AllBytes([f] + more) == RawBytes(f) + AllBytes(more)
    ensures Carried(c, r.end, r.asm, [f] + more) == MessagesOf(event) + Carried(c, Behind(c, r.end, f), asm1, more)
  {
    assert ([f] + more)[1..] == more;
  }

  lemma FrontOf(src: seq<Byte>, head: seq<Byte>, body: seq<Byte>, tail: seq<Byte>, frame: seq<Byte>, more: seq<Byte>)
    requires src == head + (body + tail) && frame == head + body && |more| <= |tail| && more == tail[..|more|]
    ensures |frame + more| <= |src| && frame + more == src[..|frame + more|]
  {
    assert src == frame + tail;
  }

  /** And what a sender writes is such a frame, announcing the length of its content. */
  lemma SentIsAuthentic(c: Crypto, e: End, f: Frame) returns (raw: Raw)
    requires Involutive(c) && Sendable(f)
    ensures EncodeFrame(c, e, f).0 == RawBytes(raw) && Authentic(c, e, raw)
            && EncodeFrame(c, e, f).1 == Behind(c, e, raw)
    ensures Announced(c, e.pos, raw.head) == |Content(f)|
    ensures Says(c, e, raw) == (KindIn(f), Content(f))
  {
    raw := SentRaw(c, e, f);
    SentLength(c, e, f);
    SentSays(c, e, f, raw.head, raw.body);
  }

  lemma SentRaw(c: Crypto, e: End, f: Frame) returns (raw: Raw)
    requires |f.headerData| <= 13
    ensures raw.head == ApplyKey(c, e.pos, PlainHead(f)) && raw.body == ApplyKey(c, e.pos + 16, PlainBody(f))
    ensures raw.headTag == Tag(c, HeadMac(c, e.mac, raw.head))
    ensures raw.bodyTag == Tag(c, BodyMac(c, HeadMac(c, e.mac, raw.head), raw.body))
    ensures EncodeFrame(c, e, f).0 == RawBytes(raw) && EncodeFrame(c, e, f).1 == Behind(c, e, raw)
  {
    var head := ApplyKey(c, e.pos, PlainHead(f));
    var body := ApplyKey(c, e.pos + 16, PlainBody(f));
    var mac1 := HeadMac(c, e.mac, head);
    raw := Raw(head, Tag(c, mac1), body, Tag(c, BodyMac(c, mac1, body)));
  }

  lemma SentLength(c: Crypto, e: End, f: Frame)
    requires Involutive(c) && Sendable(f)
    ensures Announced(c, e.pos, ApplyKey(c, e.pos, PlainHead(f))) == |Content(f)|
  {
    KeyTwice(c, e.pos, PlainHead(f));
    PlainHeadReads(f);
    AnnouncedSize(c, e.pos, ApplyKey(c, e.pos, PlainHead(f)));
  }

  lemma SentSays(c: Crypto, e: End, f: Frame, head: seq<Byte>, body: seq<Byte>)
    requires Involutive(c) && Sendable(f)
    requires head == ApplyKey(c, e.pos, PlainHead(f)) && body == ApplyKey(c, e.pos + 16, PlainBody(f))
    ensures ParseData(ApplyKey(c, e.pos, head)[3..]) == KindIn(f)
    ensures ApplyKey(c, e.pos + 16, body)[..|Content(f)|] == Content(f)
  {
    KeyTwice(c, e.pos, PlainHead(f));
    KeyTwice(c, e.pos + 16, PlainBody(f));
    PlainHeadReads(f);
    assert PlainBody(f)[..|Content(f)|] == Content(f);
  }
}
