/** RLP (Appendix B of the Ethereum Yellow Paper): item headers, strings, lists and
    integers, with the canonical checks the decoder makes. */
module Rlp {
  import opened Bytes
  import opened Wrappers

  datatype RlpError =
    | InputTooShort
    | LeadingZero
    | NonCanonicalSingleByte
    | NonCanonicalSize
    | Overflow
    | UnexpectedLength
    | UnexpectedList
    | UnexpectedString
    | Custom(message: string)

  /** What a decoder read off the front of its cursor, and the cursor after it. */
  datatype Parse<+T> = Parsed(value: T, rest: seq<Byte>) | Failed(error: RlpError) {
    predicate IsFailure() { Failed? }

    function PropagateFailure<U>(): Parse<U>
      requires Failed?
    {
      Failed(error)
    }

    function Extract(): (T, seq<Byte>)
      requires Parsed?
    {
      (value, rest)
    }
  }

  /** An item's header: list or string, and the length of its payload. */
  datatype Head = Head(list: bool, length: nat)

  // ── integers without leading zeros ─────────────────────────────────────────

  function Minimal(v: nat): (s: seq<Byte>)
    ensures |s| > 0 <==> v > 0
    ensures |s| > 0 ==> s[0] != 0
  {
    if v == 0 then [] else Minimal(v / 256) + [v % 256]
  }

  lemma {:induction false} MinimalReads(v: nat)
    ensures FromBE(Minimal(v)) == v
  {
    if v > 0 {
      MinimalReads(v / 256);
      assert Minimal(v)[..|Minimal(v)| - 1] == Minimal(v / 256);
    }
  }

  lemma {:induction false} MinimalFits(v: nat, width: nat)
    requires v < Span(width)
    ensures |Minimal(v)| <= width
  {
    if v > 0 {
      MinimalFits(v / 256, width - 1);
    }
  }

  // ── headers ────────────────────────────────────────────────────────────────

  lemma DigitsOfLength(length: nat)
    requires length < U64_LIMIT
    ensures |Minimal(length)| <= 8
  {
    SpanOf64();
    MinimalFits(length, 8);
  }

  /** Lengths are 64-bit. */
  function EncodeHead(list: bool, length: nat): (head: seq<Byte>)
    ensures 1 <= |head| <= 9
  {
    var n := length % U64_LIMIT;
    if n < 56 then [(if list then 0xC0 else 0x80) + n]
    else
      DigitsOfLength(n);
      [(if list then 0xF7 else 0xB7) + |Minimal(n)|] + Minimal(n)
  }

  function LongLength(digits: seq<Byte>): Result<nat, RlpError>
    requires 0 < |digits| <= 8
  {
    if digits[0] == 0 then Err(LeadingZero)
    else if FromBE(digits) < 56 then Err(NonCanonicalSize)
    else Ok(FromBE(digits))
  }

  function Available(list: bool, length: nat, rest: seq<Byte>): Parse<Head> {
    if |rest| < length then Failed(InputTooShort) else Parsed(Head(list, length), rest)
  }

  function DecodeLong(list: bool, digits: seq<Byte>, rest: seq<Byte>): (p: Parse<Head>)
    requires 0 < |digits| <= 8
    ensures p.Parsed? ==> p.value.length <= |rest| && p.rest == rest
  {
    match LongLength(digits)
    case Err(e) => Failed(e)
    case Ok(length) => Available(list, length, rest)
  }

  /** Read an item header. A byte below 0x80 is its own payload and is not consumed; the
      payload must be there, though the cursor stays before it. */
  function DecodeHead(buf: seq<Byte>): (p: Parse<Head>)
    ensures p.Parsed? ==> p.value.length <= |p.rest| <= |buf|
    ensures p.Parsed? ==> |p.rest| - p.value.length < |buf|
  {
    if buf == [] then Failed(InputTooShort)
    else
      var b, rest := buf[0], buf[1..];
      if b < 0x80 then Parsed(Head(false, 1), buf)
      else if b <= 0xB7 then
        if b == 0x81 && rest == [] then Failed(InputTooShort)
        else if b == 0x81 && rest[0] < 0x80 then Failed(NonCanonicalSingleByte)
        else Available(false, b - 0x80, rest)
      else if 0xC0 <= b <= 0xF7 then Available(true, b - 0xC0, rest)
      else
        var list := b >= 0xF8;
        var n := if list then b - 0xF7 else b - 0xB7;
        if |rest| < n then Failed(InputTooShort) else DecodeLong(list, rest[..n], rest[n..])
  }

  /** A string's payload is canonical unless it is one byte below 0x80 under a header. */
  predicate Plain(list: bool, payload: seq<Byte>) {
    list || |payload| != 1 || payload[0] >= 0x80
  }

  lemma ShortHead(list: bool, length: nat)
    requires length < 56
    ensures EncodeHead(list, length) == [(if list then 0xC0 else 0x80) + length]
  {
  }

  lemma LongHead(list: bool, length: nat)
    requires 56 <= length < U64_LIMIT
    ensures 0 < |Minimal(length)| <= 8
    ensures EncodeHead(list, length) == [(if list then 0xF7 else 0xB7) + |Minimal(length)|] + Minimal(length)
  {
    DigitsOfLength(length);
  }

  lemma LongDispatch(list: bool, n: nat, buf: seq<Byte>)
    requires 0 < n <= 8 && |buf| > n && buf[0] == (if list then 0xF7 else 0xB7) + n
    ensures DecodeHead(buf) == DecodeLong(list, buf[1..][..n], buf[1..][n..])
  {
  }

  lemma DecodeLongIs(list: bool, digits: seq<Byte>, length: nat, rest: seq<Byte>)
    requires 0 < |digits| <= 8 && digits[0] != 0 && FromBE(digits) == length && 56 <= length <= |rest|
    ensures DecodeLong(list, digits, rest) == Parsed(Head(list, length), rest)
  {
  }

  lemma AfterFirst(b: Byte, digits: seq<Byte>, rest: seq<Byte>)
    ensures var tail := ([b] + digits + rest)[1..]; tail[..|digits|] == digits && tail[|digits|..] == rest
  {
    assert ([b] + digits + rest)[1..] == digits + rest;
  }

  lemma LongReadsBack(list: bool, digits: seq<Byte>, length: nat, rest: seq<Byte>)
    requires 0 < |digits| <= 8 && digits[0] != 0 && FromBE(digits) == length && 56 <= length <= |rest|
    ensures DecodeHead([(if list then 0xF7 else 0xB7) + |digits|] + digits + rest) == Parsed(Head(list, length), rest)
  {
    var buf := [(if list then 0xF7 else 0xB7) + |digits|] + digits + rest;
    LongDispatch(list, |digits|, buf);
    AfterFirst(buf[0], digits, rest);
    DecodeLongIs(list, digits, length, rest);
  }

  lemma ShortReadsBack(list: bool, payload: seq<Byte>, rest: seq<Byte>)
    requires |payload| < 56 && Plain(list, payload)
    ensures DecodeHead([(if list then 0xC0 else 0x80) + |payload|] + payload + rest)
         == Parsed(Head(list, |payload|), payload + rest)
  {
    var buf := [(if list then 0xC0 else 0x80) + |payload|] + payload + rest;
    assert buf[1..] == payload + rest;
  }

  lemma HeadReadsBack(list: bool, payload: seq<Byte>, rest: seq<Byte>)
    requires |payload| < U64_LIMIT && Plain(list, payload)
    ensures DecodeHead(EncodeHead(list, |payload|) + payload + rest) == Parsed(Head(list, |payload|), payload + rest)
  {
    var n := |payload|;
    if n < 56 {
      ShortHead(list, n);
      ShortReadsBack(list, payload, rest);
    } else {
      LongHead(list, n);
      MinimalReads(n);
      LongReadsBack(list, Minimal(n), n, payload + rest);
      assert EncodeHead(list, n) + payload + rest == EncodeHead(list, n) + (payload + rest);
    }
  }

  // ── strings, lists, items ──────────────────────────────────────────────────

  function EncodeString(s: seq<Byte>): (out: seq<Byte>)
    ensures out != [] && |out| >= |s|
  {
    if |s| == 1 && s[0] < 0x80 then s else EncodeHead(false, |s|) + s
  }

  function EncodeList(payload: seq<Byte>): (out: seq<Byte>)
    ensures out != [] && |out| > |payload|
  {
    EncodeHead(true, |payload|) + payload
  }

  function DecodeBytes(buf: seq<Byte>): (p: Parse<seq<Byte>>)
    ensures p.Parsed? ==> |p.rest| < |buf| && |p.value| <= |buf|
  {
    match DecodeHead(buf)
    case Failed(e) => Failed(e)
    case Parsed(h, body) =>
      if h.list then Failed(UnexpectedList) else Parsed(body[..h.length], body[h.length..])
  }

  lemma StringReadsBack(s: seq<Byte>, rest: seq<Byte>)
    requires |s| < U64_LIMIT
    ensures DecodeBytes(EncodeString(s) + rest) == Parsed(s, rest)
  {
    if |s| == 1 && s[0] < 0x80 {
      assert (s + rest)[..1] == s && (s + rest)[1..] == rest;
    } else {
      HeadReadsBack(false, s, rest);
      assert EncodeString(s) + rest == EncodeHead(false, |s|) + s + rest;
      assert (s + rest)[..|s|] == s && (s + rest)[|s|..] == rest;
    }
  }

  /** The cursor past one item; None if no whole item is there. */
  function SkipItem(buf: seq<Byte>): (rest: Option<seq<Byte>>)
    ensures rest.Some? ==> |rest.value| < |buf|
  {
    match DecodeHead(buf)
    case Failed(_) => None
    case Parsed(h, body) => Some(body[h.length..])
  }

  predicate Skips(item: seq<Byte>, rest: seq<Byte>) {
    SkipItem(item + rest) == Some(rest)
  }

  /** A whole item: whatever follows it, a reader skips just it. */
  ghost predicate IsItem(item: seq<Byte>) {
    item != [] && forall rest: seq<Byte> :: Skips(item, rest)
  }

  /** Encoded strings are items. */
  lemma StringIsItem(s: seq<Byte>)
    requires |s| < U64_LIMIT
    ensures IsItem(EncodeString(s))
  {
    forall rest: seq<Byte> ensures Skips(EncodeString(s), rest) {
      StringReadsBack(s, rest);
    }
  }

  lemma ItemIsSkipped(item: seq<Byte>, rest: seq<Byte>)
    requires IsItem(item)
    ensures item != [] && SkipItem(item + rest) == Some(rest)
  {
    assert Skips(item, rest);
  }

  lemma ListReadsBack(payload: seq<Byte>, rest: seq<Byte>)
    requires |payload| < U64_LIMIT
    ensures DecodeHead(EncodeList(payload) + rest) == Parsed(Head(true, |payload|), payload + rest)
    ensures (payload + rest)[..|payload|] == payload && (payload + rest)[|payload|..] == rest
  {
    HeadReadsBack(true, payload, rest);
    assert EncodeList(payload) + rest == EncodeHead(true, |payload|) + payload + rest;
  }

  // ── integers ───────────────────────────────────────────────────────────────

  function EncodeUint(v: nat): seq<Byte>
    requires v < Span(32)
  {
    if v == 0 then [0x80]
    else if v < 0x80 then [v]
    else
      MinimalFits(v, 32);
      [0x80 + |Minimal(v)|] + Minimal(v)
  }

  lemma SmallMinimal(v: nat)
    requires v < 256
    ensures Minimal(v) == if v == 0 then [] else [v]
  {
    assert v > 0 ==> Minimal(v / 256) == [];
  }

  lemma OneByteMinimal(v: nat)
    requires |Minimal(v)| == 1
    ensures v < 256
  {
    assert v > 0 && Minimal(v / 256) == [];
  }

  lemma StringForm(s: seq<Byte>)
    requires |s| < 56 && (|s| == 1 ==> s[0] >= 0x80)
    ensures EncodeString(s) == [0x80 + |s|] + s
  {
    ShortHead(false, |s|);
  }

  lemma UintIsString(v: nat)
    requires v < Span(32)
    ensures |Minimal(v)| <= 32 && EncodeUint(v) == EncodeString(Minimal(v))
  {
    MinimalFits(v, 32);
    if v < 256 {
      SmallMinimal(v);
    } else if |Minimal(v)| == 1 {
      OneByteMinimal(v);
    }
    if v == 0 || v >= 0x80 {
      StringForm(Minimal(v));
    }
  }

  function FirstNonZero(s: seq<Byte>): (k: nat)
    ensures k <= |s| && (forall i :: 0 <= i < k ==> s[i] == 0) && (k < |s| ==> s[k] != 0)
  {
    if s == [] || s[0] != 0 then 0 else 1 + FirstNonZero(s[1..])
  }

  /** An integer of at most `width` bytes, leading zeros tolerated. */
  function DecodeLenient(buf: seq<Byte>, width: nat): (p: Parse<nat>)
    ensures p.Parsed? ==> |p.rest| < |buf|
  {
    match DecodeBytes(buf)
    case Failed(e) => Failed(e)
    case Parsed(bytes, rest) =>
      var stripped := bytes[FirstNonZero(bytes)..];
      if |stripped| > width then Failed(Overflow) else Parsed(FromBE(stripped), rest)
  }

  lemma ShiftedUnder(s: seq<Byte>, width: nat)
    requires |s| < width
    ensures 256 * FromBE(s) < Span(width)
  {
    ToFrom(s);
    SpanGrows(|s| + 1, width);
  }

  lemma NoWrap(x: nat)
    requires 256 * x < U64_LIMIT
    ensures x * 256 % U64_LIMIT == 256 * x
  {
  }

  /** Shifting seven bytes by one more loses nothing in 64 bits. */
  lemma ShiftFits(s: seq<Byte>)
    requires |s| <= 7
    ensures FromBE(s) * 256 % U64_LIMIT == 256 * FromBE(s)
  {
    ShiftedUnder(s, 8);
    SpanOf64();
    NoWrap(FromBE(s));
  }

  /** The shifting loop, at the width of a 64-bit integer. */
  method DecodeU64Lenient(buf: seq<Byte>) returns (p: Parse<nat>)
    ensures p == DecodeLenient(buf, 8)
  {
    var bytes := DecodeBytes(buf);
    if bytes.Failed? {
      return Failed(bytes.error);
    }
    var stripped := bytes.value[FirstNonZero(bytes.value)..];
    if |stripped| > 8 {
      return Failed(Overflow);
    }
    var value := 0;
    for i := 0 to |stripped|
      invariant value == FromBE(stripped[..i])
    {
      assert stripped[..i + 1][..i] == stripped[..i];
      ShiftFits(stripped[..i]);
      value := value * 256 % U64_LIMIT + stripped[i];
    }
    assert stripped[..|stripped|] == stripped;
    p := Parsed(value, bytes.rest);
  }

  lemma {:induction false} SpanGrows(m: nat, n: nat)
    requires m <= n
    ensures Span(m) <= Span(n)
    decreases n
  {
    if m < n {
      SpanGrows(m, n - 1);
    }
  }

  /** A decoded integer is in range, and its own minimal form is what was sent without the
      leading zeros. */
  lemma LenientIsInRange(buf: seq<Byte>, width: nat)
    requires DecodeLenient(buf, width).Parsed?
    ensures DecodeLenient(buf, width).value < Span(width)
  {
    var bytes := DecodeBytes(buf).value;
    var stripped := bytes[FirstNonZero(bytes)..];
    ToFrom(stripped);
    SpanGrows(|stripped|, width);
  }

  lemma ZerosAreStripped(zeros: nat, m: seq<Byte>)
    requires m == [] || m[0] != 0
    ensures var bytes := Zeros(zeros) + m; bytes[FirstNonZero(bytes)..] == m
  {
    var bytes := Zeros(zeros) + m;
    var k := FirstNonZero(bytes);
    assert m != [] ==> bytes[zeros] == m[0];
    assert k == if m == [] then |bytes| else zeros;
  }

  /** Any string of zeros followed by an integer's minimal form decodes to that integer. */
  lemma PaddedReadsBack(v: nat, zeros: nat, width: nat, rest: seq<Byte>)
    requires v < Span(width) && zeros + width < U64_LIMIT
    ensures |Minimal(v)| <= width
    ensures DecodeLenient(EncodeString(Zeros(zeros) + Minimal(v)) + rest, width) == Parsed(v, rest)
  {
    MinimalFits(v, width);
    var m := Minimal(v);
    StringReadsBack(Zeros(zeros) + m, rest);
    MinimalReads(v);
    ZerosAreStripped(zeros, m);
  }

  /** In particular the canonical encoding does. */
  lemma UintReadsBack(v: nat, width: nat, rest: seq<Byte>)
    requires v < Span(width) && width <= 32
    ensures v < Span(32) && DecodeLenient(EncodeUint(v) + rest, width) == Parsed(v, rest)
  {
    SpanGrows(width, 32);
    UintIsString(v);
    PaddedReadsBack(v, 0, width, rest);
    assert Zeros(0) + Minimal(v) == Minimal(v);
  }

  /** The bytes of a fixed-width field. */
  function DecodeFixed(buf: seq<Byte>, width: nat): (p: Parse<seq<Byte>>)
    ensures p.Parsed? ==> |p.rest| < |buf| && |p.value| == width
  {
    match DecodeBytes(buf)
    case Failed(e) => Failed(e)
    case Parsed(bytes, rest) => if |bytes| != width then Failed(UnexpectedLength) else Parsed(bytes, rest)
  }

  /** A strict byte: no leading zero, at most one byte. */
  function DecodeU8(buf: seq<Byte>): (p: Parse<Byte>)
    ensures p.Parsed? ==> |p.rest| < |buf|
  {
    match DecodeBytes(buf)
    case Failed(e) => Failed(e)
    case Parsed(bytes, rest) =>
      if |bytes| > 1 then Failed(Overflow)
      else if bytes == [] then Parsed(0, rest)
      else if bytes[0] == 0 then Failed(LeadingZero)
      else Parsed(bytes[0], rest)
  }

  lemma ByteInSpan(b: Byte, width: nat)
    requires width > 0
    ensures b < Span(width)
  {
    assert Span(1) == 256 * Span(0);
    SpanGrows(1, width);
  }

  lemma ByteReadsBack(b: Byte, rest: seq<Byte>)
    ensures b < Span(32)
    ensures DecodeU8(EncodeUint(b) + rest) == Parsed(b, rest)
  {
    ByteInSpan(b, 32);
    UintIsString(b);
    SmallMinimal(b);
    StringReadsBack(Minimal(b), rest);
  }

  // ── one encoding for each string ───────────────────────────────────────────

  lemma {:induction false} MinimalIsUnique(s: seq<Byte>)
    requires s == [] || s[0] != 0
    ensures Minimal(FromBE(s)) == s
    ensures s != [] ==> FromBE(s) > 0
    decreases |s|
  {
    if s != [] {
      var n := |s| - 1;
      MinimalIsUnique(s[..n]);
      if n == 0 {
        assert s[..n] == [] && s == [s[0]];
      }
      assert s == s[..n] + [s[n]];
    }
  }

  lemma LongIsCanonical(list: bool, digits: seq<Byte>, rest: seq<Byte>)
    requires 0 < |digits| <= 8 && DecodeLong(list, digits, rest).Parsed?
    ensures var h := DecodeLong(list, digits, rest).value;
      && h.list == list && 56 <= h.length < U64_LIMIT
      && EncodeHead(list, h.length) == [(if list then 0xF7 else 0xB7) + |digits|] + digits
  {
    MinimalIsUnique(digits);
    ToFrom(digits);
    SpanGrows(|digits|, 8);
    SpanOf64();
    LongHead(list, FromBE(digits));
  }

  lemma ShortIsCanonical(list: bool, b: Byte, rest: seq<Byte>)
    requires (if list then 0xC0 else 0x80) <= b <= (if list then 0xF7 else 0xB7) && DecodeHead([b] + rest).Parsed?
    ensures var h := DecodeHead([b] + rest).value;
      && h == Head(list, b - if list then 0xC0 else 0x80) && DecodeHead([b] + rest).rest == rest
      && h.length <= |rest| && [b] + rest == EncodeHead(h.list, h.length) + rest && Plain(h.list, rest[..h.length])
  {
    assert ([b] + rest)[1..] == rest;
    ShortHead(list, b - if list then 0xC0 else 0x80);
  }

  lemma LongPartIsCanonical(list: bool, b: Byte, rest: seq<Byte>)
    requires (if list then 0xF7 else 0xB7) < b && (!list ==> b < 0xC0) && DecodeHead([b] + rest).Parsed?
    ensures var h := DecodeHead([b] + rest).value; var body := DecodeHead([b] + rest).rest;
      && h.list == list && 56 <= h.length <= |body| && [b] + rest == EncodeHead(list, h.length) + body
  {
    var n := if list then b - 0xF7 else b - 0xB7;
    assert ([b] + rest)[1..] == rest;
    LongIsCanonical(list, rest[..n], rest[n..]);
    assert rest == rest[..n] + rest[n..];
  }

  /** A header that decodes is the one the encoder writes for what it announces; a byte below
      0x80 stands for itself. */
  lemma HeadIsCanonical(buf: seq<Byte>)
    requires DecodeHead(buf).Parsed? && buf[0] >= 0x80
    ensures var h := DecodeHead(buf).value; var body := DecodeHead(buf).rest;
      && h.length <= |body| && buf == EncodeHead(h.list, h.length) + body && Plain(h.list, body[..h.length])
  {
    var b, rest := buf[0], buf[1..];
    assert buf == [b] + rest;
    if b <= 0xB7 {
      ShortIsCanonical(false, b, rest);
    } else if 0xC0 <= b <= 0xF7 {
      ShortIsCanonical(true, b, rest);
    } else {
      LongPartIsCanonical(b >= 0xF8, b, rest);
    }
  }

  lemma SmallString(buf: seq<Byte>)
    requires buf != [] && buf[0] < 0x80
    ensures DecodeBytes(buf) == Parsed(buf[..1], buf[1..]) && buf == EncodeString(buf[..1]) + buf[1..]
  {
  }

  lemma HeadedString(head: Head, body: seq<Byte>)
    requires !head.list && head.length <= |body| && Plain(false, body[..head.length])
    ensures EncodeHead(false, head.length) + body == EncodeString(body[..head.length]) + body[head.length..]
  {
    assert body == body[..head.length] + body[head.length..];
  }

  /** So a string that decodes has the one encoding the encoder gives it. */
  lemma StringIsCanonical(buf: seq<Byte>)
    requires DecodeBytes(buf).Parsed?
    ensures buf == EncodeString(DecodeBytes(buf).value) + DecodeBytes(buf).rest
  {
    if buf[0] < 0x80 {
      SmallString(buf);
    } else {
      HeadIsCanonical(buf);
      HeadedString(DecodeHead(buf).value, DecodeHead(buf).rest);
    }
  }
}
