/** The frame codec as the connection holds it: one object, its two directions and its
    assembly updated by every frame. */
module FrameCodec {
  import opened Bytes
  import opened FrameHeader
  import opened FrameStream
  import opened Rlp
  import opened Wrappers

  /** The object's state as a value. */
  datatype CodecState = CodecState(egress: End, receiver: Receiver)

  class FrameCodec {
    const crypto: Crypto
    var encPos: nat
    var egressMac: seq<Byte>
    var decPos: nat
    var ingressMac: seq<Byte>
    var isHeadRead: bool
    var totalBodySize: nat
    var currentFrameType: FrameType
    var assembling: bool
    var assemblyBuf: seq<Byte>
    var assemblyExpected: nat
    var assemblyProtocolId: Byte

    ghost function Egress(): End
      reads this
    {
      End(encPos, egressMac)
    }

    ghost function Assembled(): Assembly
      reads this
    {
      Assembly(assembling, assemblyBuf, assemblyExpected, assemblyProtocolId)
    }

    ghost function Ingress(): Receiver
      reads this
    {
      Receiver(End(decPos, ingressMac), isHeadRead, totalBodySize, currentFrameType, Assembled())
    }

    constructor (crypto: Crypto, egressMac: seq<Byte>, ingressMac: seq<Byte>)
      ensures this.crypto == crypto && Egress() == End(0, egressMac)
      ensures Ingress() == Receiver(End(0, ingressMac), false, 0, Normal, Assembly(false, [], 0, 0))
    {
      this.crypto := crypto;
      encPos, decPos := 0, 0;
      this.egressMac := egressMac;
      this.ingressMac := ingressMac;
      isHeadRead := false;
      totalBodySize := 0;
      currentFrameType := Normal;
      assembling := false;
      assemblyBuf := [];
      assemblyExpected := 0;
      assemblyProtocolId := 0;
    }

    /** Write one message as one frame. */
    method EncodeFrame(protocolId: Byte, payload: seq<Byte>) returns (out: seq<Byte>)
      modifies this`encPos, this`egressMac
      ensures (out, Egress()) == FrameStream.EncodeFrame(crypto, old(Egress()), Frame(NORMAL_DATA, protocolId, payload))
    {
      var f := Frame(NORMAL_DATA, protocolId, payload);
      var content := Content(f);
      var head := SizeBytes(|content|) + NORMAL_DATA + Zeros(13 - |NORMAL_DATA|);
      head := ApplyKey(crypto, encPos, head);
      encPos := encPos + |head|;
      egressMac := UpdateMac(crypto, egressMac, head);
      out := head + crypto.sum(egressMac)[..16];
      var padding := 16 - |content| % 16;
      var body := if padding == 16 then content else content + Zeros(padding);
      assert body == PlainBody(f);
      body := ApplyKey(crypto, encPos, body);
      encPos := encPos + |body|;
      egressMac := egressMac + body;
      egressMac := UpdateMac(crypto, egressMac, crypto.sum(egressMac)[..16]);
      out := out + (body + crypto.sum(egressMac)[..16]);
    }

    /** Drop a chunked message under way. */
    method ResetAssembly()
      modifies this`assembling, this`assemblyBuf, this`assemblyExpected, this`assemblyProtocolId
      ensures Assembled() == Assembly(false, [], 0, 0)
    {
      assembling := false;
      assemblyExpected := 0;
      assemblyProtocolId := 0;
      assemblyBuf := [];
    }

    /** Read the header off the front, authenticated before it is believed. */
    method ReadHead(src: seq<Byte>) returns (error: Option<FrameError>, rest: seq<Byte>)
      requires !isHeadRead && |src| >= 32
      modifies this
      ensures Egress() == old(Egress())
      ensures var (r, e) := Advance(crypto, old(Ingress()), src[..32]);
              Ingress() == r && error == (if e.Failure? then Some(e.error) else None)
      ensures rest == if error.Some? then src else src[32..]
    {
      var head := src[..32];
      ingressMac := UpdateMac(crypto, ingressMac, head[..16]);
      if head[16..] != crypto.sum(ingressMac)[..16] {
        return Some(HeaderMacMismatch), src;
      }
      var plain := ApplyKey(crypto, decPos, head[..16]);
      decPos := decPos + 16;
      totalBodySize := SizeIn(plain);
      currentFrameType := ParseHeaderData(plain[3..]);
      isHeadRead := true;
      error, rest := None, src[32..];
    }

    /** Hand over a whole message, or take the content into the assembly. */
    method TakeContent(content: seq<Byte>) returns (event: Event)
      modifies this`assembling, this`assemblyBuf, this`assemblyExpected, this`assemblyProtocolId
      ensures (Assembled(), event) == Deliver(old(Assembled()), currentFrameType, content)
    {
      match currentFrameType
      case ChunkedFirst(_, totalSize) =>
        if totalSize > MAX_ASSEMBLED_MESSAGE_SIZE {
          ResetAssembly();
          return Failure(TotalOverLimit(totalSize));
        }
        var id := DecodeU8(content);
        if id.Failed? {
          return Failure(BadProtocolId(id.error));
        }
        assembling := true;
        assemblyExpected := totalSize;
        assemblyProtocolId := id.value;
        assemblyBuf := id.rest;
        event := TakeComplete();
      case ChunkedContinuation(_) =>
        if !assembling {
          return Nothing;
        }
        var id := DecodeU8(content);
        if id.Failed? {
          return Failure(BadProtocolId(id.error));
        }
        if |assemblyBuf| + |id.rest| > MAX_ASSEMBLED_MESSAGE_SIZE {
          ResetAssembly();
          return Failure(AssemblyOverLimit);
        }
        assemblyBuf := assemblyBuf + id.rest;
        event := TakeComplete();
      case Normal =>
        var id := DecodeU8(content);
        if id.Failed? {
          return Failure(BadProtocolId(id.error));
        }
        event := Message(id.value, id.rest);
    }

    method TakeComplete() returns (event: Event)
      modifies this`assembling, this`assemblyBuf
      ensures (Assembled(), event) == Complete(old(Assembled()))
    {
      if |assemblyBuf| >= assemblyExpected {
        assembling := false;
        event := Message(assemblyProtocolId, assemblyBuf[..assemblyExpected]);
        assemblyBuf := [];
      } else {
        event := Nothing;
      }
    }

    /** Authenticate a body as it came. */
    method CheckBody(body: seq<Byte>, provided: seq<Byte>) returns (ok: bool)
      modifies this`ingressMac
      ensures ingressMac == AfterBody(crypto, End(decPos, old(ingressMac)), body).mac
      ensures ok <==> provided == crypto.sum(ingressMac)[..16]
    {
      ingressMac := ingressMac + body;
      ingressMac := UpdateMac(crypto, ingressMac, crypto.sum(ingressMac)[..16]);
      ok := provided == crypto.sum(ingressMac)[..16];
    }

    /** Decrypt an authenticated body and act on it. */
    method FinishBody(body: seq<Byte>) returns (event: Event)
      requires |body| >= totalBodySize
      modifies this
      ensures Egress() == old(Egress()) && ingressMac == old(ingressMac) && decPos == old(decPos) + |body|
      ensures !isHeadRead && totalBodySize == old(totalBodySize) && currentFrameType == old(currentFrameType)
      ensures (Assembled(), event) == Deliver(old(Assembled()), old(currentFrameType),
                                              ApplyKey(crypto, old(decPos), body)[..old(totalBodySize)])
    {
      var plain := ApplyKey(crypto, decPos, body);
      decPos := decPos + |body|;
      isHeadRead := false;
      event := TakeContent(plain[..totalBodySize]);
    }

    /** Read the body a header announced, if all of it is there. */
    method ReadBody(src: seq<Byte>) returns (event: Event, rest: seq<Byte>)
      requires isHeadRead
      modifies this
      ensures Egress() == old(Egress())
      ensures (Ingress(), rest, event) == DecodeBody(crypto, old(Ingress()), src)
    {
      var padding := 16 - totalBodySize % 16;
      var n := totalBodySize + if padding == 16 then 0 else padding;
      if |src| < n + 16 {
        return Nothing, src;
      }
      var bytes := src[..n + 16];
      var body, provided := bytes[..n], bytes[n..];
      rest := src[n + 16..];
      var ok := CheckBody(body, provided);
      if !ok {
        return Failure(FrameMacMismatch), rest;
      }
      event := FinishBody(body);
    }

    /** Take one step through the buffer: a header and its body as far as they are there. */
    method DecodeFrame(src: seq<Byte>) returns (event: Event, rest: seq<Byte>)
      modifies this
      ensures Egress() == old(Egress())
      ensures (Ingress(), rest, event) == FrameStream.DecodeFrame(crypto, old(Ingress()), src)
    {
      rest := src;
      if !isHeadRead {
        if |src| < 32 {
          return Nothing, src;
        }
        var error;
        error, rest := ReadHead(src);
        if error.Some? {
          return Failure(error.value), rest;
        }
      }
      event, rest := ReadBody(rest);
    }

    /** Call it until it consumes nothing more. */
    method DecodeAll(src: seq<Byte>)
      returns (messages: seq<(Byte, seq<Byte>)>, error: Option<FrameError>, rest: seq<Byte>)
      modifies this
      ensures Egress() == old(Egress())
      ensures Outcome(Ingress(), rest, messages, error) == Drain(crypto, old(Ingress()), src)
    {
      messages, error, rest := [], None, src;
      AfterNothing(Drain(crypto, Ingress(), src));
      while true
        invariant Egress() == old(Egress())
        invariant Drain(crypto, old(Ingress()), src) == After(messages, Drain(crypto, Ingress(), rest))
        decreases |rest|
      {
        ghost var r, before := Ingress(), rest;
        var length := |rest|;
        var event;
        event, rest := DecodeFrame(rest);
        CallIsFrontOfDrain(crypto, r, before);
        if event.Failure? {
          error := Some(event.error);
          assert messages + [] == messages;
          return;
        }
        if |rest| == length {
          assert messages + [] == messages;
          return;
        }
        AfterTwice(messages, MessagesOf(event), Drain(crypto, Ingress(), rest));
        messages := messages + MessagesOf(event);
      }
    }
  }
}
