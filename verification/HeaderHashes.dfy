/** The block hash and the merged-mining hash: sliced out of the bytes a header came in, and
    rebuilt from the fields of one made here. */
module HeaderHashes {
  import opened Bytes
  import opened HeaderCodec
  import opened Rlp
  import opened RlpItems
  import opened Wrappers

  /** The hash function, and the height from which proof and coinbase are left out. */
  datatype Rules = Rules(keccak: seq<Byte> -> Hash32, orchid: nat)

  function BlockHash(k: Rules, h: Header): Hash32 {
    if h.cachedHash.Some? then h.cachedHash.value
    else k.keccak(EncodeList(EncodePayload(h, h.number < k.orchid)))
  }

  /** A non-empty ummRoot is hashed after the first 20 bytes of the base hash. */
  function WithUmm(k: Rules, base: Hash32, ummRoot: Option<seq<Byte>>): Hash32 {
    if ummRoot.Some? && ummRoot.value != [] then k.keccak(base[..20] + ummRoot.value) else base
  }

  function HashForMergedMining(k: Rules, h: Header): Hash32 {
    if h.cachedMiningHash.Some? then h.cachedMiningHash.value
    else WithUmm(k, k.keccak(EncodeList(Concat(BaseItems(h) + UmmItems(h)))), h.ummRoot)
  }

  /** A payload without its last two items; None if it does not have three. */
  function DropLastTwo(body: seq<Byte>): Option<seq<Byte>> {
    match LeftAfter(body)
    case None => None
    case Some(left) =>
      if |left| < 3 then None
      else
        LeftIsWithin(body, |left| - 3);
        Some(body[..|body| - left[|left| - 3]])
  }

  /** The payload of an encoded list without its last two items. */
  function WithoutLastTwo(encoded: seq<Byte>): Option<seq<Byte>> {
    match DecodeHead(encoded)
    case Failed(_) => None
    case Parsed(list, parse) => DropLastTwo(parse[..list.length])
  }

  /** Dropping the items by collecting where each ends. */
  method DropByEnds(body: seq<Byte>) returns (payload: Option<seq<Byte>>)
    ensures payload == DropLastTwo(body)
  {
    var ends := ItemEnds(body);
    if ends.None? || |ends.value| < 3 {
      return None;
    }
    LeftIsWithin(body, |ends.value| - 3);
    payload := Some(body[..ends.value[|ends.value| - 3]]);
  }

  method PayloadWithoutLastTwo(encoded: seq<Byte>) returns (payload: Option<seq<Byte>>)
    ensures payload == WithoutLastTwo(encoded)
  {
    var head := DecodeHead(encoded);
    if head.Failed? {
      return None;
    }
    payload := DropByEnds(head.rest[..head.value.length]);
  }

  function WireBlockHash(k: Rules, h: Header, encoded: seq<Byte>): Hash32 {
    if h.number >= k.orchid && (h.merkleProof.Some? || h.coinbase.Some?) then
      match WithoutLastTwo(encoded)
      case None => k.keccak(encoded)
      case Some(payload) => k.keccak(EncodeList(payload))
    else k.keccak(encoded)
  }

  /** What is left of a list's payload when it ends after `n` items, or one more. */
  function CutForMining(body: seq<Byte>, n: nat, oneMore: bool): seq<Byte> {
    var cursor := SkipItems(body, n);
    var after := if oneMore then SkipItems(cursor, 1) else cursor;
    body[..|body| - |after|]
  }

  /** The payload for merged mining is the first sixteen items, and the next one too if it
      is an ummRoot. */
  function WireMiningHash(k: Rules, h: Header, encoded: seq<Byte>): Option<Hash32> {
    match DecodeHead(encoded)
    case Failed(_) => None
    case Parsed(list, parse) =>
      var payload := CutForMining(parse[..list.length], 16, h.ummRoot.Some?);
      Some(WithUmm(k, k.keccak(EncodeList(payload)), h.ummRoot))
  }

  function DecodeWithHash(k: Rules, buf: seq<Byte>): Parse<Header> { Hashed(k, Decode(buf), buf) }

  function Hashed(k: Rules, p: Parse<Header>, buf: seq<Byte>): Parse<Header>
    requires p.Parsed? ==> |p.rest| <= |buf|
  {
    match p
    case Failed(e) => Failed(e)
    case Parsed(h, rest) => Parsed(WithHashes(k, h, buf[..|buf| - |rest|]), rest)
  }

  function WithHashes(k: Rules, h: Header, encoded: seq<Byte>): Header {
    h.(cachedHash := Some(WireBlockHash(k, h, encoded)), cachedMiningHash := WireMiningHash(k, h, encoded))
  }

  method TakeBlockHash(k: Rules, h: Header, encoded: seq<Byte>) returns (hash: Hash32)
    ensures hash == WireBlockHash(k, h, encoded)
  {
    hash := k.keccak(encoded);
    if h.number >= k.orchid && (h.merkleProof.Some? || h.coinbase.Some?) {
      var payload := PayloadWithoutLastTwo(encoded);
      if payload.Some? {
        hash := k.keccak(EncodeList(payload.value));
      }
    }
  }

  method TakeForMining(body: seq<Byte>, n: nat, oneMore: bool) returns (payload: seq<Byte>)
    ensures payload == CutForMining(body, n, oneMore)
  {
    var cursor := SkipUpTo(body, n);
    if oneMore {
      cursor := SkipUpTo(cursor, 1);
    }
    payload := body[..|body| - |cursor|];
  }

  method TakeMiningHash(k: Rules, h: Header, encoded: seq<Byte>) returns (hash: Option<Hash32>)
    ensures hash == WireMiningHash(k, h, encoded)
  {
    var list := DecodeHead(encoded);
    if list.Failed? {
      return None;
    }
    var payload := TakeForMining(list.rest[..list.value.length], 16, h.ummRoot.Some?);
    hash := Some(WithUmm(k, k.keccak(EncodeList(payload)), h.ummRoot));
  }

  method TakeHashes(k: Rules, h: Header, encoded: seq<Byte>) returns (hashed: Header)
    ensures hashed == WithHashes(k, h, encoded)
  {
    var hash := TakeBlockHash(k, h, encoded);
    var miningHash := TakeMiningHash(k, h, encoded);
    hashed := h.(cachedHash := Some(hash), cachedMiningHash := miningHash);
  }

  method HashDecoded(k: Rules, got: Parse<Header>, buf: seq<Byte>) returns (p: Parse<Header>)
    requires got.Parsed? ==> |got.rest| <= |buf|
    ensures p == Hashed(k, got, buf)
  {
    if got.Failed? {
      return Failed(got.error);
    }
    var hashed := TakeHashes(k, got.value, buf[..|buf| - |got.rest|]);
    p := Parsed(hashed, got.rest);
  }

  method DecodeHeaderWithHash(k: Rules, buf: seq<Byte>) returns (p: Parse<Header>)
    ensures p == DecodeWithHash(k, buf)
  {
    var got := DecodeHeader(buf);
    p := HashDecoded(k, got, buf);
  }

  // ── agreement ──────────────────────────────────────────────────────────────

  lemma SignedIsItem(v: nat, width: nat)
    requires v < Span(width) && width < 64
    ensures IsItem(Signed(v))
  {
    MinimalFits(v, width);
    StringIsItem(JavaSignedBytes(v));
  }

  lemma UnsignedIsItem(v: nat, width: nat)
    requires v < Span(width) && width < U64_LIMIT
    ensures IsItem(Unsigned(v))
  {
    MinimalFits(v, width);
    StringIsItem(Minimal(v));
  }

  lemma ThreeLists(a: seq<seq<Byte>>, b: seq<seq<Byte>>, c: seq<seq<Byte>>)
    requires AllItems(a) && AllItems(b) && AllItems(c)
    ensures AllItems(a + b + c)
  {
    ItemsAppend(a, b);
    ItemsAppend(a + b, c);
  }

  lemma FrontAreItems(h: Header)
    ensures AllItems(FrontItems(h))
  {
    StringIsItem(h.parentHash);
    StringIsItem(h.ommersHash);
    StringIsItem(h.beneficiary);
    ThreeItems(EncodeString(h.parentHash), EncodeString(h.ommersHash), EncodeString(h.beneficiary));
    StringIsItem(h.stateRoot);
    StringIsItem(h.transactionsRoot);
    StringIsItem(h.receiptsRoot);
    ThreeItems(EncodeString(h.stateRoot), EncodeString(h.transactionsRoot), EncodeString(h.receiptsRoot));
    StringIsItem(h.logsBloom);
    var a := [EncodeString(h.parentHash), EncodeString(h.ommersHash), EncodeString(h.beneficiary)];
    var b := [EncodeString(h.stateRoot), EncodeString(h.transactionsRoot), EncodeString(h.receiptsRoot)];
    ItemsAppend(a, b);
    ItemsAppend(a + b, [EncodeString(h.logsBloom)]);
    assert FrontItems(h) == a + b + [EncodeString(h.logsBloom)];
  }

  lemma FirstNumbersAreItems(h: Header)
    requires InRange(h)
    ensures AllItems([Signed(h.difficulty), Unsigned(h.number), Signed(h.gasLimit)])
    ensures AllItems([Unsigned(h.paidFees), Signed(h.minimumGasPrice), Unsigned(h.uncleCount)])
  {
    SignedIsItem(h.difficulty, 32);
    UnsignedIsItem(h.number, 8);
    SignedIsItem(h.gasLimit, 32);
    ThreeItems(Signed(h.difficulty), Unsigned(h.number), Signed(h.gasLimit));
    UnsignedIsItem(h.paidFees, 32);
    SignedIsItem(h.minimumGasPrice, 32);
    UnsignedIsItem(h.uncleCount, 8);
    ThreeItems(Unsigned(h.paidFees), Signed(h.minimumGasPrice), Unsigned(h.uncleCount));
  }

  lemma NumbersAreItems(h: Header)
    requires InRange(h) && |h.extraData| < U64_LIMIT
    ensures AllItems(NumberItems(h))
  {
    FirstNumbersAreItems(h);
    UnsignedIsItem(h.gasUsed, 8);
    UnsignedIsItem(h.timestamp, 8);
    StringIsItem(h.extraData);
    ThreeItems(Unsigned(h.gasUsed), Unsigned(h.timestamp), EncodeString(h.extraData));
    NineItems(Signed(h.difficulty), Unsigned(h.number), Signed(h.gasLimit),
              Unsigned(h.gasUsed), Unsigned(h.timestamp), EncodeString(h.extraData),
              Unsigned(h.paidFees), Signed(h.minimumGasPrice), Unsigned(h.uncleCount));
  }

  lemma NineItems(a: seq<Byte>, b: seq<Byte>, c: seq<Byte>, d: seq<Byte>, e: seq<Byte>,
                  f: seq<Byte>, g: seq<Byte>, h: seq<Byte>, i: seq<Byte>)
    requires AllItems([a, b, c]) && AllItems([d, e, f]) && AllItems([g, h, i])
    ensures AllItems([a, b, c, d, e, f, g, h, i])
  {
    ThreeLists([a, b, c], [d, e, f], [g, h, i]);
    assert [a, b, c, d, e, f, g, h, i] == [a, b, c] + [d, e, f] + [g, h, i];
  }

  lemma BaseAreItems(h: Header)
    requires InRange(h) && |h.extraData| < U64_LIMIT
    ensures AllItems(BaseItems(h))
  {
    FrontAreItems(h);
    NumbersAreItems(h);
    ItemsAppend(FrontItems(h), NumberItems(h));
  }

  lemma AllAreItems(h: Header)
    requires InRange(h) && Sized(h)
    ensures AllItems(Items(h, true))
  {
    PayloadIs(h);
    TrailingFits(h);
    TrailingAreItems(h);
    BaseAreItems(h);
    ItemsAppend(BaseItems(h), Trailing(h));
    Regroup(BaseItems(h), UmmItems(h), MiningItems(h, true));
  }

  lemma HeadOfList(body: seq<Byte>)
    requires |body| < U64_LIMIT
    ensures DecodeHead(EncodeList(body)) == Parsed(Head(true, |body|), body) && body[..|body|] == body
  {
    ListReadsBack(body, []);
    assert EncodeList(body) + [] == EncodeList(body) && body + [] == body;
  }

  /** Of any encoded list of at least three items, all but the last two are kept. */
  lemma CutsLastTwo(items: seq<seq<Byte>>)
    requires AllItems(items) && |items| >= 3 && |Concat(items)| < U64_LIMIT
    ensures WithoutLastTwo(EncodeList(Concat(items))) == Some(Concat(items[..|items| - 2]))
  {
    LeftAfterEach(items, |items| - 3);
    CutsByLeft(items);
  }

  lemma CutsByLeft(items: seq<seq<Byte>>)
    requires |items| >= 3 && |Concat(items)| < U64_LIMIT
    requires LeftAfter(Concat(items)).Some? && |LeftAfter(Concat(items)).value| == |items|
    requires LeftAfter(Concat(items)).value[|items| - 3] == |Concat(items[|items| - 3 + 1..])|
    ensures WithoutLastTwo(EncodeList(Concat(items))) == Some(Concat(items[..|items| - 2]))
  {
    var n := |items|;
    HeadOfList(Concat(items));
    PrefixOfConcat(items, n - 2);
    KeepsAllButTwo(Concat(items), EncodeList(Concat(items)), n, |Concat(items[n - 2..])|);
  }

  lemma KeepsAllButTwo(body: seq<Byte>, encoded: seq<Byte>, n: nat, dropped: nat)
    requires DecodeHead(encoded) == Parsed(Head(true, |body|), body) && n >= 3 && dropped <= |body|
    requires LeftAfter(body).Some? && |LeftAfter(body).value| == n && LeftAfter(body).value[n - 3] == dropped
    ensures WithoutLastTwo(encoded) == Some(body[..|body| - dropped])
  {
    assert body[..|body|] == body;
  }

  /** Of any encoded list of at least `n` items, skipping those keeps them. */
  lemma CutsAfter(items: seq<seq<Byte>>, n: nat)
    requires AllItems(items) && n <= |items|
    ensures var body := Concat(items); body[..|body| - |SkipItems(body, n)|] == Concat(items[..n])
  {
    SkipsThem(items, n);
    PrefixOfConcat(items, n);
  }

  lemma SkipsInTwo(items: seq<seq<Byte>>, n: nat)
    requires AllItems(items) && n < |items|
    ensures SkipItems(SkipItems(Concat(items), n), 1) == SkipItems(Concat(items), n + 1)
  {
    SkipsThem(items, n);
    SkipsThem(items, n + 1);
    ItemsDrop(items, n);
    SkipsThem(items[n..], 1);
    assert items[n..][1..] == items[n + 1..];
  }

  lemma ProofAndCoinbaseDropped(h: Header)
    requires InRange(h) && Sized(h) && h.btcHeader.Some?
    ensures WithoutLastTwo(Encode(h)) == Some(EncodePayload(h, false))
  {
    AllAreItems(h);
    CutsLastTwo(Items(h, true));
    DropTwo(BaseItems(h) + UmmItems(h), MiningItems(h, true)[0], MiningItems(h, true)[1], MiningItems(h, true)[2]);
  }

  /** For every header, the block hash a receiver takes from the wire is the one the sender
      takes from the fields. */
  lemma BlockHashesAgree(k: Rules, h: Header)
    requires InRange(h) && Sized(h) && h.cachedHash.None?
    ensures WireBlockHash(k, AsRead(h), Encode(h)) == BlockHash(k, h)
  {
    if h.number >= k.orchid {
      if h.btcHeader.Some? {
        ProofAndCoinbaseDropped(h);
      } else {
        assert Items(h, false) == Items(h, true);
      }
    }
  }

  lemma CutsForMining(items: seq<seq<Byte>>, n: nat, oneMore: bool, kept: nat)
    requires AllItems(items) && kept == (if oneMore then n + 1 else n) <= |items|
    ensures CutForMining(Concat(items), n, oneMore) == Concat(items[..kept])
  {
    if oneMore {
      SkipsInTwo(items, n);
    }
    CutWhereSkipped(Concat(items), n, oneMore, SkipItems(Concat(items), kept));
    CutsAfter(items, kept);
  }

  lemma CutWhereSkipped(body: seq<Byte>, n: nat, oneMore: bool, rest: seq<Byte>)
    requires rest == if oneMore then SkipItems(SkipItems(body, n), 1) else SkipItems(body, n)
    ensures |rest| <= |body| && CutForMining(body, n, oneMore) == body[..|body| - |rest|]
  {
  }

  /** What is hashed for merged mining of any encoded list of enough items. */
  lemma WireMiningIs(k: Rules, h: Header, items: seq<seq<Byte>>)
    requires AllItems(items) && |Concat(items)| < U64_LIMIT && |items| >= if h.ummRoot.Some? then 17 else 16
    ensures var kept := items[..if h.ummRoot.Some? then 17 else 16];
      WireMiningHash(k, h, EncodeList(Concat(items))) == Some(WithUmm(k, k.keccak(EncodeList(Concat(kept))), h.ummRoot))
  {
    HeadOfList(Concat(items));
    CutsForMining(items, 16, h.ummRoot.Some?, if h.ummRoot.Some? then 17 else 16);
  }

  /** So is the merged-mining hash, unless an ummRoot comes without a mining header. */
  lemma MiningHashesAgree(k: Rules, h: Header)
    requires InRange(h) && Sized(h) && h.cachedMiningHash.None? && (h.ummRoot.Some? ==> h.btcHeader.Some?)
    ensures WireMiningHash(k, AsRead(h), Encode(h)) == Some(HashForMergedMining(k, h))
  {
    AllAreItems(h);
    WireMiningIs(k, AsRead(h), Items(h, true));
    TakeFirst(BaseItems(h) + UmmItems(h), MiningItems(h, true));
  }

  /** A lone ummRoot is read as the mining header, and the receiver hashes without it. */
  lemma LoneUmmIsNotHashed(k: Rules, h: Header)
    requires InRange(h) && Sized(h) && h.ummRoot.Some? && h.btcHeader.None?
    ensures WireMiningHash(k, AsRead(h), Encode(h)) == Some(k.keccak(EncodeList(Concat(BaseItems(h)))))
  {
    AllAreItems(h);
    WireMiningIs(k, AsRead(h), Items(h, true));
    Regroup(BaseItems(h), UmmItems(h), MiningItems(h, true));
    TakeFirst(BaseItems(h), Trailing(h));
  }

  /** What a peer that receives a built header holds: the same fields and both hashes, the
      ones the builder computes. */
  lemma ReceivedIsBuilt(k: Rules, h: Header, rest: seq<Byte>)
    requires InRange(h) && Sized(h) && WireShape(h) && h.cachedHash.None? && h.cachedMiningHash.None?
    ensures DecodeWithHash(k, Encode(h) + rest)
         == Parsed(h.(cachedHash := Some(BlockHash(k, h)), cachedMiningHash := Some(HashForMergedMining(k, h))), rest)
  {
    var buf := Encode(h) + rest;
    DecodeOfEncode(h, rest);
    RoundTripExact(h, rest);
    assert buf[..|buf| - |rest|] == Encode(h);
    BlockHashesAgree(k, h);
    MiningHashesAgree(k, h);
  }

  /** And what it hands on: re-encoding a received header changes neither hash. */
  lemma RelayKeepsHashes(k: Rules, h: Header)
    requires InRange(h) && Sized(h) && WireShape(h) && h.cachedHash.None? && h.cachedMiningHash.None?
    ensures DecodeWithHash(k, Encode(h)).Parsed?
    ensures var got := DecodeWithHash(k, Encode(h)).value;
      && Encode(got) == Encode(h)
      && BlockHash(k, got) == BlockHash(k, h) && HashForMergedMining(k, got) == HashForMergedMining(k, h)
  {
    ReceivedIsBuilt(k, h, []);
    assert Encode(h) + [] == Encode(h);
  }
}
