/** The wire form of a Rootstock header, and the two hashes taken over it: from the fields
    of a header that was built, and from the bytes of one that was received. */
module HeaderCodec {
  import opened Bytes
  import opened Rlp
  import opened RlpItems
  import opened Wrappers

  type Address = s: seq<Byte> | |s| == 20 witness Zeros(20)

  type Bloom = s: seq<Byte> | |s| == 256 witness Zeros(256)

  datatype Header = Header(
    parentHash: Hash32,
    ommersHash: Hash32,
    beneficiary: Address,
    stateRoot: Hash32,
    transactionsRoot: Hash32,
    receiptsRoot: Hash32,
    logsBloom: Bloom,
    extensionData: Option<seq<Byte>>,
    difficulty: nat,
    number: nat,
    gasLimit: nat,
    gasUsed: nat,
    timestamp: nat,
    extraData: seq<Byte>,
    paidFees: nat,
    minimumGasPrice: nat,
    uncleCount: nat,
    ummRoot: Option<seq<Byte>>,
    btcHeader: Option<seq<Byte>>,
    merkleProof: Option<seq<Byte>>,
    coinbase: Option<seq<Byte>>,
    cachedHash: Option<Hash32>,
    cachedMiningHash: Option<Hash32>)

  /** The widths of the number fields: 256 and 64 bits. */
  predicate InRange(h: Header) {
    && h.difficulty < Span(32) && h.gasLimit < Span(32) && h.paidFees < Span(32) && h.minimumGasPrice < Span(32)
    && h.number < Span(8) && h.gasUsed < Span(8) && h.timestamp < Span(8) && h.uncleCount < Span(8)
  }

  // ── encoding ───────────────────────────────────────────────────────────────

  /** Zero is one zero byte, and a zero byte stands before a set top bit. */
  function JavaSignedBytes(v: nat): seq<Byte> {
    if v == 0 then [0]
    else if Minimal(v)[0] >= 0x80 then [0] + Minimal(v)
    else Minimal(v)
  }

  function Signed(v: nat): seq<Byte> { EncodeString(JavaSignedBytes(v)) }

  function Unsigned(v: nat): seq<Byte> { EncodeString(Minimal(v)) }

  function FrontItems(h: Header): seq<seq<Byte>> {
    [EncodeString(h.parentHash), EncodeString(h.ommersHash), EncodeString(h.beneficiary),
     EncodeString(h.stateRoot), EncodeString(h.transactionsRoot), EncodeString(h.receiptsRoot),
     EncodeString(h.logsBloom)]
  }

  function NumberItems(h: Header): seq<seq<Byte>> {
    [Signed(h.difficulty), Unsigned(h.number), Signed(h.gasLimit), Unsigned(h.gasUsed), Unsigned(h.timestamp),
     EncodeString(h.extraData), Unsigned(h.paidFees), Signed(h.minimumGasPrice), Unsigned(h.uncleCount)]
  }

  /** The sixteen fields every header carries, in wire order. */
  function BaseItems(h: Header): (items: seq<seq<Byte>>)
    ensures |items| == 16
  {
    FrontItems(h) + NumberItems(h)
  }

  function UmmItems(h: Header): seq<seq<Byte>> {
    if h.ummRoot.Some? then [EncodeString(h.ummRoot.value)] else []
  }

  /** Missing proof and coinbase are sent as empty strings once there is a mining header. */
  function MiningItems(h: Header, withProofAndCoinbase: bool): seq<seq<Byte>> {
    if h.btcHeader.None? then []
    else if withProofAndCoinbase then
      [EncodeString(h.btcHeader.value), EncodeString(h.merkleProof.GetOr([])), EncodeString(h.coinbase.GetOr([]))]
    else [EncodeString(h.btcHeader.value)]
  }

  function Items(h: Header, withProofAndCoinbase: bool): seq<seq<Byte>> {
    BaseItems(h) + UmmItems(h) + MiningItems(h, withProofAndCoinbase)
  }

  function EncodePayload(h: Header, withProofAndCoinbase: bool): seq<Byte> {
    Concat(Items(h, withProofAndCoinbase))
  }

  function Encode(h: Header): seq<Byte> { EncodeList(EncodePayload(h, true)) }

  // ── decoding ───────────────────────────────────────────────────────────────

  /** A bloom filter, or else compressed extension data kept as raw bytes. */
  function BloomOrExtension(body: seq<Byte>): (p: Parse<(Bloom, Option<seq<Byte>>)>)
    ensures p.Parsed? ==> |p.rest| <= |body|
  {
    match DecodeHead(body)
    case Failed(e) => Failed(e)
    case Parsed(h, peek) =>
      if !h.list && h.length == 256 then
        var (bloom, rest) :- DecodeFixed(body, 256);
        Parsed((bloom, None), rest)
      else
        var total := |body| - |peek| + h.length;
        Parsed((Zeros(256), Some(body[..total])), body[total..])
  }

  /** The fields up to the bloom filter; the others are left blank. */
  function DecodeFront(b: seq<Byte>): Parse<Header> {
    var (parentHash, b) :- DecodeFixed(b, 32);
    var (ommersHash, b) :- DecodeFixed(b, 32);
    var (beneficiary, b) :- DecodeFixed(b, 20);
    var (stateRoot, b) :- DecodeFixed(b, 32);
    var (transactionsRoot, b) :- DecodeFixed(b, 32);
    var (receiptsRoot, b) :- DecodeFixed(b, 32);
    var (bloom, b) :- BloomOrExtension(b);
    Parsed(Header(parentHash, ommersHash, beneficiary, stateRoot, transactionsRoot, receiptsRoot, bloom.0, bloom.1,
                  0, 0, 0, 0, 0, [], 0, 0, 0, None, None, None, None, None, None), b)
  }

  /** The number fields. */
  function DecodeNumbers(h: Header, b: seq<Byte>): Parse<Header> {
    var (difficulty, b) :- DecodeLenient(b, 32);
    var (number, b) :- DecodeLenient(b, 8);
    var (gasLimit, b) :- DecodeLenient(b, 32);
    var (gasUsed, b) :- DecodeLenient(b, 8);
    var (timestamp, b) :- DecodeLenient(b, 8);
    var (extraData, b) :- DecodeBytes(b);
    var (paidFees, b) :- DecodeLenient(b, 32);
    var (minimumGasPrice, b) :- DecodeLenient(b, 32);
    var (uncleCount, b) :- DecodeLenient(b, 8);
    Parsed(h.(difficulty := difficulty, number := number, gasLimit := gasLimit, gasUsed := gasUsed,
              timestamp := timestamp, extraData := extraData, paidFees := paidFees,
              minimumGasPrice := minimumGasPrice, uncleCount := uncleCount), b)
  }

  function OptionalBytes(present: bool, b: seq<Byte>): Parse<Option<seq<Byte>>> {
    if !present then Parsed(None, b)
    else
      var (bytes, rest) :- DecodeBytes(b);
      Parsed(Some(bytes), rest)
  }

  /** What follows, told apart by how many items are left. */
  function DecodeMining(h: Header, b: seq<Byte>, remaining: nat): Parse<Header> {
    var (ummRoot, b) :- OptionalBytes(remaining >= 4, b);
    var (btcHeader, b) :- OptionalBytes(b != [], b);
    var (merkleProof, b) :- OptionalBytes(b != [], b);
    var (coinbase, b) :- OptionalBytes(b != [], b);
    Parsed(h.(ummRoot := ummRoot, btcHeader := btcHeader, merkleProof := merkleProof, coinbase := coinbase), b)
  }

  function DecodeBody(body: seq<Byte>): Parse<Header> {
    var (front, b) :- DecodeFront(body);
    var (h, b) :- DecodeNumbers(front, b);
    DecodeMining(h, b, CountItems(b))
  }

  function Decode(buf: seq<Byte>): (p: Parse<Header>)
    ensures p.Parsed? ==> |p.rest| < |buf|
  {
    match DecodeHead(buf)
    case Failed(e) => Failed(e)
    case Parsed(list, after) =>
      if !list.list then Failed(UnexpectedString)
      else
        match DecodeBody(after[..list.length])
        case Failed(e) => Failed(e)
        case Parsed(h, _) => Parsed(h, after[list.length..])
  }

  /** Decode a header, counting the items left after the base fields in a loop. */
  method DecodeHeader(buf: seq<Byte>) returns (p: Parse<Header>)
    ensures p == Decode(buf)
  {
    var list := DecodeHead(buf);
    if list.Failed? {
      return Failed(list.error);
    }
    if !list.value.list {
      return Failed(UnexpectedString);
    }
    var body := list.rest[..list.value.length];
    var front := DecodeFront(body);
    if front.Failed? {
      return Failed(front.error);
    }
    var numbers := DecodeNumbers(front.value, front.rest);
    if numbers.Failed? {
      return Failed(numbers.error);
    }
    var remaining := CountRemaining(numbers.rest);
    var h := DecodeMining(numbers.value, numbers.rest, remaining);
    p := if h.Failed? then Failed(h.error) else Parsed(h.value, list.rest[list.value.length..]);
  }

  // ── the round trip ─────────────────────────────────────────────────────────

  lemma SignedIsPadded(v: nat)
    ensures JavaSignedBytes(v) == Minimal(v) || JavaSignedBytes(v) == Zeros(1) + Minimal(v)
  {
  }

  lemma SignedReadsBack(v: nat, width: nat, rest: seq<Byte>)
    requires v < Span(width) && width <= 32
    ensures DecodeLenient(Signed(v) + rest, width) == Parsed(v, rest)
  {
    PaddedReadsBack(v, 0, width, rest);
    PaddedReadsBack(v, 1, width, rest);
    assert Zeros(0) + Minimal(v) == Minimal(v);
    SignedIsPadded(v);
  }

  lemma UnsignedReadsBack(v: nat, width: nat, rest: seq<Byte>)
    requires v < Span(width) && width <= 32
    ensures DecodeLenient(Unsigned(v) + rest, width) == Parsed(v, rest)
  {
    PaddedReadsBack(v, 0, width, rest);
    assert Zeros(0) + Minimal(v) == Minimal(v);
  }

  lemma FixedReadsBack(s: seq<Byte>, rest: seq<Byte>)
    requires |s| < U64_LIMIT
    ensures DecodeFixed(EncodeString(s) + rest, |s|) == Parsed(s, rest)
  {
    StringReadsBack(s, rest);
  }

  lemma BloomReadsBack(bloom: Bloom, rest: seq<Byte>)
    ensures BloomOrExtension(EncodeString(bloom) + rest) == Parsed((bloom, None), rest)
  {
    FixedReadsBack(bloom, rest);
    HeadReadsBack(false, bloom, rest);
    assert EncodeString(bloom) + rest == EncodeHead(false, 256) + bloom + rest;
  }

  /** The front of a header, written out; `tail` is all that follows. */
  function Front(h: Header, tail: seq<Byte>): seq<Byte> {
    EncodeString(h.parentHash) + (EncodeString(h.ommersHash) + (EncodeString(h.beneficiary)
    + (EncodeString(h.stateRoot) + (EncodeString(h.transactionsRoot) + (EncodeString(h.receiptsRoot)
    + (EncodeString(h.logsBloom) + tail))))))
  }

  function Numbers(h: Header, tail: seq<Byte>): seq<Byte> {
    Signed(h.difficulty) + (Unsigned(h.number) + (Signed(h.gasLimit) + (Unsigned(h.gasUsed)
    + (Unsigned(h.timestamp) + (EncodeString(h.extraData) + (Unsigned(h.paidFees)
    + (Signed(h.minimumGasPrice) + (Unsigned(h.uncleCount) + tail))))))))
  }

  function Blanked(h: Header): Header {
    Header(h.parentHash, h.ommersHash, h.beneficiary, h.stateRoot, h.transactionsRoot, h.receiptsRoot, h.logsBloom,
           None, 0, 0, 0, 0, 0, [], 0, 0, 0, None, None, None, None, None, None)
  }

  lemma FrontReadsBack(h: Header, tail: seq<Byte>)
    ensures DecodeFront(Front(h, tail)) == Parsed(Blanked(h), tail)
  {
    var b7 := EncodeString(h.logsBloom) + tail;
    var b6 := EncodeString(h.receiptsRoot) + b7;
    var b5 := EncodeString(h.transactionsRoot) + b6;
    var b4 := EncodeString(h.stateRoot) + b5;
    var b3 := EncodeString(h.beneficiary) + b4;
    var b2 := EncodeString(h.ommersHash) + b3;
    BloomReadsBack(h.logsBloom, tail);
    FixedReadsBack(h.receiptsRoot, b7);
    FixedReadsBack(h.transactionsRoot, b6);
    FixedReadsBack(h.stateRoot, b5);
    FixedReadsBack(h.beneficiary, b4);
    FixedReadsBack(h.ommersHash, b3);
    FixedReadsBack(h.parentHash, b2);
  }

  function WithNumbers(front: Header, h: Header): Header {
    front.(difficulty := h.difficulty, number := h.number, gasLimit := h.gasLimit, gasUsed := h.gasUsed,
           timestamp := h.timestamp, extraData := h.extraData, paidFees := h.paidFees,
           minimumGasPrice := h.minimumGasPrice, uncleCount := h.uncleCount)
  }

  lemma NumbersRead(front: Header, h: Header, b1: seq<Byte>, b2: seq<Byte>, b3: seq<Byte>, b4: seq<Byte>, b5: seq<Byte>,
                    b6: seq<Byte>, b7: seq<Byte>, b8: seq<Byte>, b9: seq<Byte>, tail: seq<Byte>)
    requires DecodeLenient(b1, 32) == Parsed(h.difficulty, b2) && DecodeLenient(b2, 8) == Parsed(h.number, b3)
    requires DecodeLenient(b3, 32) == Parsed(h.gasLimit, b4) && DecodeLenient(b4, 8) == Parsed(h.gasUsed, b5)
    requires DecodeLenient(b5, 8) == Parsed(h.timestamp, b6) && DecodeBytes(b6) == Parsed(h.extraData, b7)
    requires DecodeLenient(b7, 32) == Parsed(h.paidFees, b8) && DecodeLenient(b8, 32) == Parsed(h.minimumGasPrice, b9)
    requires DecodeLenient(b9, 8) == Parsed(h.uncleCount, tail)
    ensures DecodeNumbers(front, b1) == Parsed(WithNumbers(front, h), tail)
  {
  }

  lemma NumbersReadBack(front: Header, h: Header, tail: seq<Byte>)
    requires InRange(h) && |h.extraData| < U64_LIMIT
    ensures DecodeNumbers(front, Numbers(h, tail)) == Parsed(WithNumbers(front, h), tail)
  {
    var b9 := Unsigned(h.uncleCount) + tail;
    var b8 := Signed(h.minimumGasPrice) + b9;
    var b7 := Unsigned(h.paidFees) + b8;
    var b6 := EncodeString(h.extraData) + b7;
    var b5 := Unsigned(h.timestamp) + b6;
    var b4 := Unsigned(h.gasUsed) + b5;
    var b3 := Signed(h.gasLimit) + b4;
    var b2 := Unsigned(h.number) + b3;
    UnsignedReadsBack(h.uncleCount, 8, tail);
    SignedReadsBack(h.minimumGasPrice, 32, b9);
    UnsignedReadsBack(h.paidFees, 32, b8);
    StringReadsBack(h.extraData, b7);
    UnsignedReadsBack(h.timestamp, 8, b6);
    UnsignedReadsBack(h.gasUsed, 8, b5);
    SignedReadsBack(h.gasLimit, 32, b4);
    UnsignedReadsBack(h.number, 8, b3);
    SignedReadsBack(h.difficulty, 32, b2);
    NumbersRead(front, h, Numbers(h, tail), b2, b3, b4, b5, b6, b7, b8, b9, tail);
  }

  lemma FrontIsConcat(h: Header, more: seq<seq<Byte>>)
    ensures Concat(FrontItems(h) + more) == Front(h, Concat(more))
  {
    var a, b, c := EncodeString(h.parentHash), EncodeString(h.ommersHash), EncodeString(h.beneficiary);
    var d, e, f := EncodeString(h.stateRoot), EncodeString(h.transactionsRoot), EncodeString(h.receiptsRoot);
    var g := EncodeString(h.logsBloom);
    ConcatStep(g, more);
    ConcatThree(d, e, f, [g] + more);
    ConcatThree(a, b, c, [d, e, f] + ([g] + more));
    assert FrontItems(h) + more == [a, b, c] + ([d, e, f] + ([g] + more));
  }

  lemma NumbersIsConcat(h: Header, more: seq<seq<Byte>>)
    ensures Concat(NumberItems(h) + more) == Numbers(h, Concat(more))
  {
    ConcatNine(Signed(h.difficulty), Unsigned(h.number), Signed(h.gasLimit), Unsigned(h.gasUsed), Unsigned(h.timestamp),
               EncodeString(h.extraData), Unsigned(h.paidFees), Signed(h.minimumGasPrice), Unsigned(h.uncleCount),
               more);
  }

  lemma ConcatNine(a: seq<Byte>, b: seq<Byte>, c: seq<Byte>, d: seq<Byte>, e: seq<Byte>,
                   f: seq<Byte>, g: seq<Byte>, h: seq<Byte>, i: seq<Byte>, more: seq<seq<Byte>>)
    ensures Concat([a, b, c, d, e, f, g, h, i] + more)
         == a + (b + (c + (d + (e + (f + (g + (h + (i + Concat(more)))))))))
  {
    ConcatThree(g, h, i, more);
    ConcatThree(d, e, f, [g, h, i] + more);
    ConcatThree(a, b, c, [d, e, f] + ([g, h, i] + more));
    assert [a, b, c, d, e, f, g, h, i] + more == [a, b, c] + ([d, e, f] + ([g, h, i] + more));
  }

  /** What comes back of the fields after the base ones: empty strings for a missing proof
      or coinbase, a lone ummRoot in the place of the mining header, a lone proof or coinbase
      not at all. */
  function MiningAsRead(front: Header, h: Header): Header {
    if h.btcHeader.Some? then
      front.(ummRoot := h.ummRoot, btcHeader := h.btcHeader,
             merkleProof := Some(h.merkleProof.GetOr([])), coinbase := Some(h.coinbase.GetOr([])))
    else front.(ummRoot := None, btcHeader := h.ummRoot, merkleProof := None, coinbase := None)
  }

  function Trailing(h: Header): seq<seq<Byte>> { UmmItems(h) + MiningItems(h, true) }

  /** The payload, and hence every string in it, is shorter than a 64-bit length. */
  predicate Sized(h: Header) { |EncodePayload(h, true)| < U64_LIMIT }

  lemma PayloadIs(h: Header)
    ensures EncodePayload(h, true) == Front(h, Numbers(h, Concat(Trailing(h))))
    ensures |Concat(Trailing(h))| <= |EncodePayload(h, true)| && |h.extraData| <= |EncodePayload(h, true)|
  {
    NumbersIsConcat(h, Trailing(h));
    FrontIsConcat(h, NumberItems(h) + Trailing(h));
    assert Items(h, true) == FrontItems(h) + (NumberItems(h) + Trailing(h));
    ItemWithin(Items(h, true), 12);
  }

  predicate StringsFit(h: Header) {
    && (h.ummRoot.Some? ==> |h.ummRoot.value| < U64_LIMIT)
    && (h.btcHeader.Some? ==>
          |h.btcHeader.value| < U64_LIMIT && |h.merkleProof.GetOr([])| < U64_LIMIT
            && |h.coinbase.GetOr([])| < U64_LIMIT)
  }

  lemma TrailingFits(h: Header)
    requires |Concat(Trailing(h))| < U64_LIMIT
    ensures StringsFit(h)
  {
    var u, items := |UmmItems(h)|, Trailing(h);
    if h.ummRoot.Some? {
      ItemWithin(items, 0);
    }
    if h.btcHeader.Some? {
      ItemWithin(items, u);
      ItemWithin(items, u + 1);
      ItemWithin(items, u + 2);
      assert items[u] == MiningItems(h, true)[0] && items[u + 1] == MiningItems(h, true)[1];
      assert items[u + 2] == MiningItems(h, true)[2];
    }
  }

  lemma MiningAreItems(h: Header)
    requires StringsFit(h)
    ensures AllItems(MiningItems(h, true))
  {
    if h.btcHeader.Some? {
      StringIsItem(h.btcHeader.value);
      StringIsItem(h.merkleProof.GetOr([]));
      StringIsItem(h.coinbase.GetOr([]));
      ThreeItems(EncodeString(h.btcHeader.value), EncodeString(h.merkleProof.GetOr([])),
        EncodeString(h.coinbase.GetOr([])));
    }
  }

  lemma TrailingAreItems(h: Header)
    requires StringsFit(h)
    ensures AllItems(Trailing(h))
  {
    if h.ummRoot.Some? {
      StringIsItem(h.ummRoot.value);
    }
    MiningAreItems(h);
    ItemsAppend(UmmItems(h), MiningItems(h, true));
  }

  lemma ThreeReadBack(front: Header, ummRoot: Option<seq<Byte>>, x: seq<Byte>, y: seq<Byte>, z: seq<Byte>)
    requires |x| < U64_LIMIT && |y| < U64_LIMIT && |z| < U64_LIMIT && (ummRoot.Some? ==> |ummRoot.value| < U64_LIMIT)
    ensures var three := EncodeString(x) + (EncodeString(y) + (EncodeString(z) + []));
      var body := if ummRoot.Some? then EncodeString(ummRoot.value) + three else three;
      DecodeMining(front, body, if ummRoot.Some? then 4 else 3)
      == Parsed(front.(ummRoot := ummRoot, btcHeader := Some(x), merkleProof := Some(y), coinbase := Some(z)), [])
  {
    StringReadsBack(z, []);
    StringReadsBack(y, EncodeString(z) + []);
    var three := EncodeString(x) + (EncodeString(y) + (EncodeString(z) + []));
    StringReadsBack(x, EncodeString(y) + (EncodeString(z) + []));
    if ummRoot.Some? {
      StringReadsBack(ummRoot.value, three);
    }
  }

  lemma MiningIsConcat(h: Header)
    requires h.btcHeader.Some?
    ensures var three := EncodeString(h.btcHeader.value)
                         + (EncodeString(h.merkleProof.GetOr([])) + (EncodeString(h.coinbase.GetOr([])) + []));
      Concat(Trailing(h)) == if h.ummRoot.Some? then EncodeString(h.ummRoot.value) + three else three
  {
    var x, y, z := EncodeString(h.btcHeader.value), EncodeString(h.merkleProof.GetOr([])),
      EncodeString(h.coinbase.GetOr([]));
    ConcatStep(z, []);
    ConcatStep(y, [z] + []);
    ConcatStep(x, [y] + ([z] + []));
    assert MiningItems(h, true) == [x] + ([y] + ([z] + []));
    if h.ummRoot.Some? {
      ConcatStep(EncodeString(h.ummRoot.value), MiningItems(h, true));
    } else {
      assert Trailing(h) == MiningItems(h, true);
    }
  }

  lemma LoneUmmReadsBack(front: Header, h: Header)
    requires h.btcHeader.None? && (h.ummRoot.Some? ==> |h.ummRoot.value| < U64_LIMIT)
    ensures DecodeMining(front, Concat(Trailing(h)), |Trailing(h)|) == Parsed(MiningAsRead(front, h), [])
  {
    if h.ummRoot.Some? {
      StringReadsBack(h.ummRoot.value, []);
      assert Trailing(h) == [EncodeString(h.ummRoot.value)] + [];
      ConcatStep(EncodeString(h.ummRoot.value), []);
    }
  }

  lemma FullMiningReadsBack(front: Header, h: Header)
    requires h.btcHeader.Some? && StringsFit(h)
    ensures DecodeMining(front, Concat(Trailing(h)), |Trailing(h)|) == Parsed(MiningAsRead(front, h), [])
  {
    MiningIsConcat(h);
    ThreeReadBack(front, h.ummRoot, h.btcHeader.value, h.merkleProof.GetOr([]), h.coinbase.GetOr([]));
  }

  lemma TrailingCount(h: Header)
    requires |Concat(Trailing(h))| < U64_LIMIT
    ensures StringsFit(h) && CountItems(Concat(Trailing(h))) == |Trailing(h)|
  {
    TrailingFits(h);
    TrailingAreItems(h);
    CountsThemAll(Trailing(h));
  }

  lemma MiningReadsBack(front: Header, h: Header)
    requires |Concat(Trailing(h))| < U64_LIMIT
    ensures DecodeMining(front, Concat(Trailing(h)), CountItems(Concat(Trailing(h))))
            == Parsed(MiningAsRead(front, h), [])
  {
    TrailingCount(h);
    if h.btcHeader.Some? {
      FullMiningReadsBack(front, h);
    } else {
      LoneUmmReadsBack(front, h);
    }
  }

  /** The header a peer reads out of the encoding. */
  function AsRead(h: Header): Header {
    MiningAsRead(h.(extensionData := None, cachedHash := None, cachedMiningHash := None), h)
  }

  /** Decoding an encoding, with anything after it. */
  lemma DecodeOfEncode(h: Header, rest: seq<Byte>)
    requires InRange(h) && Sized(h)
    ensures Decode(Encode(h) + rest) == Parsed(AsRead(h), rest)
  {
    var payload := EncodePayload(h, true);
    var trailing := Concat(Trailing(h));
    ListReadsBack(payload, rest);
    PayloadIs(h);
    FrontReadsBack(h, Numbers(h, trailing));
    NumbersReadBack(Blanked(h), h, trailing);
    var read := WithNumbers(Blanked(h), h);
    MiningReadsBack(read, h);
    assert MiningAsRead(read, h) == AsRead(h);
    assert DecodeBody(payload) == Parsed(AsRead(h), []);
  }

  /** No extension data, the three mining fields all there or none, and an ummRoot only with
      them. */
  predicate WireShape(h: Header) {
    && h.extensionData.None?
    && (h.btcHeader.Some? <==> h.merkleProof.Some?) && (h.btcHeader.Some? <==> h.coinbase.Some?)
    && (h.ummRoot.Some? ==> h.btcHeader.Some?)
  }

  /** A header comes back as it was exactly when it has the wire's shape. */
  lemma RoundTripExact(h: Header, rest: seq<Byte>)
    requires InRange(h) && Sized(h)
    ensures Decode(Encode(h) + rest) == Parsed(h.(cachedHash := None, cachedMiningHash := None), rest) <==> WireShape(h)
  {
    DecodeOfEncode(h, rest);
  }

  /** Headers of the wire's shape with the same encoding are the same. */
  lemma EncodingIsInjective(g: Header, h: Header)
    requires InRange(g) && InRange(h) && Sized(g) && Sized(h) && WireShape(g) && WireShape(h) && Encode(g) == Encode(h)
    ensures g.(cachedHash := h.cachedHash, cachedMiningHash := h.cachedMiningHash) == h
  {
    RoundTripExact(g, []);
    RoundTripExact(h, []);
  }
}
