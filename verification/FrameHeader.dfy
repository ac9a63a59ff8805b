/** The header-data of an RLPx frame: which frames of a chunked message it announces. */
module FrameHeader {
  import opened Bytes
  import opened Rlp
  import opened Wrappers

  datatype FrameType =
    | Normal
    | ChunkedFirst(contextId: nat, totalSize: nat)
    | ChunkedContinuation(contextId: nat)

  /** An integer and the bytes it takes; None at anything else. Values are 64-bit, and
      longer ones lose their high bytes. */
  function Element(data: seq<Byte>): (e: Option<(nat, nat)>)
    requires data != []
    ensures e.Some? ==> 0 < e.value.1 <= |data|
  {
    var b := data[0];
    if b == 0 || b == 0x80 then Some((0, 1))
    else if b < 0x80 then Some((b, 1))
    else if b <= 0xB7 && b - 0x80 < |data| then Some((FromBE(data[1..b - 0x80 + 1]) % U64_LIMIT, b - 0x80 + 1))
    else None
  }

  /** The integers of a list, at most four, up to anything else. */
  function Elements(data: seq<Byte>, found: nat): seq<nat>
    decreases |data|
  {
    if data == [] || found >= 4 then []
    else
      match Element(data)
      case None => []
      case Some((value, taken)) => [value] + Elements(data[taken..], found + 1)
  }

  function KindOf(elements: seq<nat>): FrameType {
    if |elements| == 3 then ChunkedFirst(elements[1], elements[2])
    else if |elements| == 2 then ChunkedContinuation(elements[1])
    else Normal
  }

  /** The payload of the list the data starts with, cut at the end of the data. */
  function ListData(data: seq<Byte>): seq<Byte> {
    if data == [] || data[0] < 0xC0 then []
    else if data[0] <= 0xF7 then
      var length := data[0] - 0xC0;
      data[1..if 1 + length < |data| then 1 + length else |data|]
    else
      var n := data[0] - 0xF7;
      if |data| < 1 + n then []
      else
        var length := FromBE(data[1..1 + n]);
        data[1 + n..if 1 + n + length < |data| then 1 + n + length else |data|]
  }

  function ParseData(data: seq<Byte>): FrameType { KindOf(Elements(ListData(data), 0)) }

  lemma WrapStep(x: nat, d: Byte)
    ensures (x % U64_LIMIT * 256 + d) % U64_LIMIT == (256 * x + d) % U64_LIMIT
  {
    var q, r := x / U64_LIMIT, x % U64_LIMIT;
    assert 256 * x + d == U64_LIMIT * (256 * q) + (256 * r + d);
    DropMultiple(256 * q, 256 * r + d);
  }

  lemma DropMultiple(k: nat, a: nat)
    ensures (U64_LIMIT * k + a) % U64_LIMIT == a % U64_LIMIT
  {
  }

  /** A big-endian number read by shifting in a 64-bit register. */
  method ReadNumber(digits: seq<Byte>) returns (value: nat)
    ensures value == FromBE(digits) % U64_LIMIT
  {
    value := 0;
    for i := 0 to |digits|
      invariant value == FromBE(digits[..i]) % U64_LIMIT
    {
      assert digits[..i + 1][..i] == digits[..i];
      WrapStep(FromBE(digits[..i]), digits[i]);
      value := (value * 256 + digits[i]) % U64_LIMIT;
    }
    assert digits[..|digits|] == digits;
  }

  method ReadElement(data: seq<Byte>) returns (e: Option<(nat, nat)>)
    requires data != []
    ensures e == Element(data)
  {
    var b := data[0];
    if b == 0 || b == 0x80 {
      e := Some((0, 1));
    } else if b < 0x80 {
      e := Some((b, 1));
    } else if b <= 0xB7 && b - 0x80 < |data| {
      var value := ReadNumber(data[1..b - 0x80 + 1]);
      e := Some((value, b - 0x80 + 1));
    } else {
      e := None;
    }
  }

  lemma OneElement(data: seq<Byte>, value: nat, taken: nat, found: nat)
    requires found < 4 && data != [] && Element(data) == Some((value, taken))
    ensures Elements(data, found) == [value] + Elements(data[taken..], found + 1)
  {
  }

  method ParseHeaderData(data: seq<Byte>) returns (kind: FrameType)
    ensures kind == ParseData(data)
  {
    var list := ListData(data);
    ghost var all := Elements(list, 0);
    var elements: seq<nat> := [];
    while list != [] && |elements| < 4
      invariant all == elements + Elements(list, |elements|)
      decreases |list|
    {
      var e := ReadElement(list);
      if e.None? {
        break;
      }
      OneElement(list, e.value.0, e.value.1, |elements|);
      list := list[e.value.1..];
      elements := elements + [e.value.0];
    }
    kind := KindOf(elements);
  }

  // ── the three forms rskj writes ────────────────────────────────────────────

  /** rlp([0]) */
  const NORMAL_DATA: seq<Byte> := [0xC1, 0x80]

  lemma ElementDispatch(data: seq<Byte>, m: seq<Byte>, v: nat)
    requires 0 < |m| <= 8 && |m| < |data| && data[0] == 0x80 + |m| && data[1..|m| + 1] == m
    requires FromBE(m) == v < U64_LIMIT
    ensures Element(data) == Some((v, |m| + 1))
  {
  }

  lemma AfterFirstByte(b: Byte, m: seq<Byte>, rest: seq<Byte>)
    ensures ([b] + m + rest)[1..|m| + 1] == m
  {
  }

  lemma LongElement(m: seq<Byte>, rest: seq<Byte>, v: nat)
    requires 0 < |m| <= 8 && FromBE(m) == v < U64_LIMIT
    ensures Element([0x80 + |m|] + m + rest) == Some((v, 1 + |m|))
  {
    var data := [0x80 + |m|] + m + rest;
    AfterFirstByte(0x80 + |m|, m, rest);
    ElementDispatch(data, m, v);
  }

  lemma UintIsElement(v: nat, rest: seq<Byte>)
    requires v < Span(8)
    ensures v < Span(32)
    ensures Element(EncodeUint(v) + rest) == Some((v, |EncodeUint(v)|))
  {
    SpanGrows(8, 32);
    if v >= 0x80 {
      SpanOf64();
      MinimalFits(v, 8);
      MinimalReads(v);
      LongElement(Minimal(v), rest, v);
    }
  }

  lemma ElementFirst(bytes: seq<Byte>, v: nat, rest: seq<Byte>, found: nat)
    requires found < 4 && bytes != [] && Element(bytes + rest) == Some((v, |bytes|))
    ensures Elements(bytes + rest, found) == [v] + Elements(rest, found + 1)
  {
    OneElement(bytes + rest, v, |bytes|, found);
    assert (bytes + rest)[|bytes|..] == rest;
  }

  lemma UintElement(v: nat, rest: seq<Byte>, found: nat)
    requires v < Span(8) && found < 4
    ensures v < Span(32)
    ensures Elements(EncodeUint(v) + rest, found) == [v] + Elements(rest, found + 1)
  {
    UintIsElement(v, rest);
    ElementFirst(EncodeUint(v), v, rest, found);
  }

  /** rlp([0, contextId, totalSize]) */
  function FirstData(contextId: nat, totalSize: nat): seq<Byte>
    requires contextId < Span(32) && totalSize < Span(32)
  {
    EncodeList(EncodeUint(0) + (EncodeUint(contextId) + EncodeUint(totalSize)))
  }

  /** rlp([0, contextId]) */
  function ContinuationData(contextId: nat): seq<Byte>
    requires contextId < Span(32)
  {
    EncodeList(EncodeUint(0) + EncodeUint(contextId))
  }

  lemma ListDataOf(payload: seq<Byte>, zeros: nat)
    requires |payload| < 56
    ensures ListData(EncodeList(payload) + Zeros(zeros)) == payload
  {
    ShortHead(true, |payload|);
  }

  lemma NormalParses(zeros: nat)
    ensures ParseData(NORMAL_DATA + Zeros(zeros)) == Normal
  {
    var data := NORMAL_DATA + Zeros(zeros);
    assert ListData(data) == [0x80];
    assert [0x80][1..] == [];
  }

  lemma UintIsShort(v: nat, width: nat)
    requires v < Span(width) && width <= 32
    ensures v < Span(32) && |EncodeUint(v)| <= 1 + width
  {
    SpanGrows(width, 32);
    MinimalFits(v, width);
  }

  lemma ShortUint(v: nat)
    requires v < Span(4)
    ensures v < Span(8) && v < Span(32) && |EncodeUint(v)| <= 5
  {
    SpanGrows(4, 8);
    UintIsShort(v, 4);
  }

  lemma ZeroIsOneByte()
    ensures 0 < Span(8) && 0 < Span(32) && |EncodeUint(0)| == 1
  {
    SpanGrows(0, 8);
    UintIsShort(0, 0);
  }

  lemma ListParses(payload: seq<Byte>, values: seq<nat>, zeros: nat)
    requires |payload| <= 12 && Elements(payload, 0) == values
    ensures |EncodeList(payload)| <= 13
    ensures ParseData(EncodeList(payload) + Zeros(zeros)) == KindOf(values)
  {
    ShortHead(true, |payload|);
    ListDataOf(payload, zeros);
  }

  /** Elements read one after the other. */
  lemma LastElement(v: nat, found: nat)
    requires v < Span(4) && found < 4
    ensures v < Span(32) && Elements(EncodeUint(v), found) == [v]
  {
    ShortUint(v);
    UintElement(v, [], found);
    assert EncodeUint(v) + [] == EncodeUint(v);
  }

  lemma NextElement(v: nat, rest: seq<Byte>, found: nat, values: seq<nat>)
    requires v < Span(4) && found < 4 && Elements(rest, found + 1) == values
    ensures v < Span(32) && Elements(EncodeUint(v) + rest, found) == [v] + values
  {
    ShortUint(v);
    UintElement(v, rest, found);
  }

  lemma TwoElements(x: nat, y: nat, found: nat)
    requires x < Span(4) && y < Span(4) && found + 1 < 4
    ensures x < Span(32) && y < Span(32)
    ensures Elements(EncodeUint(x) + EncodeUint(y), found) == [x] + [y]
  {
    LastElement(y, found + 1);
    NextElement(x, EncodeUint(y), found, [y]);
  }

  lemma ThreeElements(x: nat, y: nat, z: nat, found: nat)
    requires x < Span(4) && y < Span(4) && z < Span(4) && found + 2 < 4
    ensures x < Span(32) && y < Span(32) && z < Span(32)
    ensures Elements(EncodeUint(x) + (EncodeUint(y) + EncodeUint(z)), found) == [x] + ([y] + [z])
  {
    TwoElements(y, z, found + 1);
    NextElement(x, EncodeUint(y) + EncodeUint(z), found, [y] + [z]);
  }

  lemma FirstParses(contextId: nat, totalSize: nat, zeros: nat)
    requires contextId < Span(4) && totalSize < Span(4)
    ensures contextId < Span(32) && totalSize < Span(32)
    ensures |FirstData(contextId, totalSize)| <= 13
    ensures ParseData(FirstData(contextId, totalSize) + Zeros(zeros)) == ChunkedFirst(contextId, totalSize)
  {
    ShortUint(contextId);
    ShortUint(totalSize);
    ZeroIsOneByte();
    ThreeElements(0, contextId, totalSize, 0);
    ListParses(EncodeUint(0) + (EncodeUint(contextId) + EncodeUint(totalSize)), [0] + ([contextId] + [totalSize]),
      zeros);
  }

  lemma ContinuationParses(contextId: nat, zeros: nat)
    requires contextId < Span(4)
    ensures contextId < Span(32) && |ContinuationData(contextId)| <= 13
    ensures ParseData(ContinuationData(contextId) + Zeros(zeros)) == ChunkedContinuation(contextId)
  {
    ShortUint(contextId);
    ZeroIsOneByte();
    TwoElements(0, contextId, 0);
    ListParses(EncodeUint(0) + EncodeUint(contextId), [0] + [contextId], zeros);
  }
}
