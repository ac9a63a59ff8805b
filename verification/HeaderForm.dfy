/** The number fields of a header as they are written, and what its hash commits to. */
module HeaderForm {
  import opened Bytes
  import opened HeaderCodec
  import opened HeaderHashes
  import opened Rlp
  import opened RlpItems
  import opened Wrappers

  // ── numbers ────────────────────────────────────────────────────────────────

  /** The shortest non-empty string with its top bit clear that is this number. */
  ghost predicate IsSignedForm(s: seq<Byte>, v: nat) {
    && s != [] && s[0] < 0x80 && FromBE(s) == v
    && forall u: seq<Byte> :: u != [] && u[0] < 0x80 && FromBE(u) == v ==> |s| <= |u|
  }

  /** The shortest string that is this number. */
  ghost predicate IsUnsignedForm(s: seq<Byte>, v: nat) {
    && FromBE(s) == v
    && forall u: seq<Byte> :: FromBE(u) == v ==> |s| <= |u|
  }

  lemma {:induction false} FromFront(b: Byte, s: seq<Byte>)
    ensures FromBE([b] + s) >= FromBE(s)
    ensures b == 0 ==> FromBE([b] + s) == FromBE(s)
    decreases |s|
  {
    if s == [] {
      assert [b] + s == [b] && [b][..0] == [];
    } else {
      var n := |s| - 1;
      FromFront(b, s[..n]);
      assert ([b] + s)[..n + 1] == [b] + s[..n];
    }
  }

  /** A number's own bytes are no more than any string of it has. */
  lemma {:induction false} MinimalIsShortest(v: nat, u: seq<Byte>)
    requires FromBE(u) == v
    ensures |Minimal(v)| <= |u|
    decreases v
  {
    if v > 0 {
      var n := |u| - 1;
      assert v == 256 * FromBE(u[..n]) + u[n];
      MinimalIsShortest(v / 256, u[..n]);
    }
  }

  /** Of the same length, they are the same. */
  lemma UnsignedForm(v: nat)
    ensures IsUnsignedForm(Minimal(v), v)
  {
    MinimalReads(v);
    forall u: seq<Byte> | FromBE(u) == v ensures |Minimal(v)| <= |u| {
      MinimalIsShortest(v, u);
    }
  }

  lemma SameLengthSame(v: nat, u: seq<Byte>)
    requires FromBE(u) == v && |u| == |Minimal(v)|
    ensures u == Minimal(v)
  {
    MinimalReads(v);
    FromIsInjective(u, Minimal(v));
  }

  /** The sign-prefixed form of a number is the shortest there is. */
  lemma SignedForm(v: nat)
    ensures IsSignedForm(JavaSignedBytes(v), v)
  {
    MinimalReads(v);
    FromFront(0, Minimal(v));
    assert [0][..0] == [];
    forall u: seq<Byte> | u != [] && u[0] < 0x80 && FromBE(u) == v ensures |JavaSignedBytes(v)| <= |u| {
      MinimalIsShortest(v, u);
      if |u| == |Minimal(v)| {
        SameLengthSame(v, u);
      }
    }
  }

  /** And the only one of its length. */
  lemma SignedFormIsUnique(v: nat, s: seq<Byte>, u: seq<Byte>)
    requires IsSignedForm(s, v) && IsSignedForm(u, v)
    ensures s == u
  {
    FromIsInjective(s, u);
  }

  /** The number a base item carries in the sign-prefixed form: difficulty, gas limit and
      minimum gas price. */
  function SignedField(h: Header, i: nat): nat
    requires i in {7, 9, 14}
  {
    if i == 7 then h.difficulty else if i == 9 then h.gasLimit else h.minimumGasPrice
  }

  /** The number a base item carries without leading zeros: number, gas used, timestamp, paid
      fees and uncle count. */
  function UnsignedField(h: Header, i: nat): nat
    requires i in {8, 10, 11, 13, 15}
  {
    if i == 8 then h.number else if i == 10 then h.gasUsed else if i == 11 then h.timestamp
    else if i == 13 then h.paidFees else h.uncleCount
  }

  lemma SignedAt(h: Header, i: nat)
    requires i in {7, 9, 14}
    ensures BaseItems(h)[i] == EncodeString(JavaSignedBytes(SignedField(h, i)))
  {
    NumberAt(h, i);
  }

  lemma UnsignedAt(h: Header, i: nat)
    requires i in {8, 10, 11, 13, 15}
    ensures BaseItems(h)[i] == EncodeString(Minimal(UnsignedField(h, i)))
  {
    NumberAt(h, i);
    UnsignedNumbers(h);
  }

  lemma UnsignedNumbers(h: Header)
    ensures |NumberItems(h)| == 9
    ensures NumberItems(h)[1] == EncodeString(Minimal(h.number))
            && NumberItems(h)[3] == EncodeString(Minimal(h.gasUsed))
    ensures NumberItems(h)[4] == EncodeString(Minimal(h.timestamp))
            && NumberItems(h)[6] == EncodeString(Minimal(h.paidFees))
    ensures NumberItems(h)[8] == EncodeString(Minimal(h.uncleCount))
  {
  }

  lemma NumberAt(h: Header, i: nat)
    requires 7 <= i < 16
    ensures |NumberItems(h)| == 9 && BaseItems(h)[i] == NumberItems(h)[i - 7]
  {
    JoinedAt(FrontItems(h), NumberItems(h), i);
  }

  lemma JoinedAt(a: seq<seq<Byte>>, b: seq<seq<Byte>>, i: nat)
    requires |a| <= i < |a| + |b|
    ensures (a + b)[i] == b[i - |a|]
  {
  }

  lemma SignedItem(h: Header, i: nat, v: nat) returns (s: seq<Byte>)
    requires i in {7, 9, 14} && v == SignedField(h, i)
    ensures IsSignedForm(s, v) && BaseItems(h)[i] == EncodeString(s)
  {
    s := JavaSignedBytes(v);
    SignedAt(h, i);
    SignedForm(v);
  }

  lemma UnsignedItem(h: Header, i: nat, v: nat) returns (s: seq<Byte>)
    requires i in {8, 10, 11, 13, 15} && v == UnsignedField(h, i)
    ensures IsUnsignedForm(s, v) && BaseItems(h)[i] == EncodeString(s)
  {
    s := Minimal(v);
    UnsignedAt(h, i);
    UnsignedForm(v);
  }

  // ── what the hash commits to ───────────────────────────────────────────────

  ghost predicate Collisionless(k: Rules) {
    forall a: seq<Byte>, b: seq<Byte> :: k.keccak(a) == k.keccak(b) ==> a == b
  }

  /** A header without what the hash leaves out: extension data, proof and coinbase, and what
      is remembered beside it. */
  function Hashed(h: Header): Header {
    h.(extensionData := None, merkleProof := None, coinbase := None, cachedHash := None, cachedMiningHash := None)
  }

  function HashedTrailing(h: Header): seq<seq<Byte>> { UmmItems(h) + MiningItems(h, false) }

  lemma HashedPayload(h: Header)
    ensures EncodePayload(h, false) == Front(h, Numbers(h, Concat(HashedTrailing(h))))
  {
    NumbersIsConcat(h, HashedTrailing(h));
    FrontIsConcat(h, NumberItems(h) + HashedTrailing(h));
    assert Items(h, false) == FrontItems(h) + (NumberItems(h) + HashedTrailing(h));
  }

  lemma HashedIsShorter(h: Header)
    ensures |EncodePayload(h, false)| <= |EncodePayload(h, true)|
  {
    ConcatSplit(Items(h, true), |Items(h, false)|);
    assert Items(h, true)[..|Items(h, false)|] == Items(h, false);
  }

  /** The base fields and the strings behind them can be read off the payload. */
  lemma SamePayload(g: Header, h: Header)
    requires InRange(g) && InRange(h) && Sized(g) && Sized(h) && EncodePayload(g, false) == EncodePayload(h, false)
    ensures Hashed(g).(ummRoot := h.ummRoot, btcHeader := h.btcHeader) == Hashed(h)
    ensures Concat(HashedTrailing(g)) == Concat(HashedTrailing(h))
  {
    PayloadIs(g);
    PayloadIs(h);
    HashedPayload(g);
    HashedPayload(h);
    FrontReadsBack(g, Numbers(g, Concat(HashedTrailing(g))));
    FrontReadsBack(h, Numbers(h, Concat(HashedTrailing(h))));
    NumbersReadBack(Blanked(g), g, Concat(HashedTrailing(g)));
    NumbersReadBack(Blanked(h), h, Concat(HashedTrailing(h)));
  }

  lemma TrailingForm(h: Header)
    ensures Concat(HashedTrailing(h))
         == (if h.ummRoot.Some? then EncodeString(h.ummRoot.value) else [])
          + (if h.btcHeader.Some? then EncodeString(h.btcHeader.value) else [])
  {
    if h.ummRoot.Some? && h.btcHeader.Some? {
      ConcatStep(EncodeString(h.btcHeader.value), []);
      ConcatStep(EncodeString(h.ummRoot.value), [EncodeString(h.btcHeader.value)]);
      assert HashedTrailing(h) == [EncodeString(h.ummRoot.value)] + [EncodeString(h.btcHeader.value)];
      assert [EncodeString(h.btcHeader.value)] + [] == [EncodeString(h.btcHeader.value)];
    } else if h.ummRoot.Some? {
      ConcatStep(EncodeString(h.ummRoot.value), []);
      assert HashedTrailing(h) == [EncodeString(h.ummRoot.value)] + [];
    } else if h.btcHeader.Some? {
      ConcatStep(EncodeString(h.btcHeader.value), []);
      assert HashedTrailing(h) == [EncodeString(h.btcHeader.value)] + [];
    }
  }

  /** Of two strings or of one, with an ummRoot only beside a mining header. */
  lemma SameTrailing(g: Header, h: Header)
    requires Sized(g) && Sized(h) && StringsFit(g) && StringsFit(h)
    requires (g.ummRoot.Some? ==> g.btcHeader.Some?) && (h.ummRoot.Some? ==> h.btcHeader.Some?)
    requires Concat(HashedTrailing(g)) == Concat(HashedTrailing(h))
    ensures g.ummRoot == h.ummRoot && g.btcHeader == h.btcHeader
  {
    TrailingForm(g);
    TrailingForm(h);
    if g.btcHeader.Some? && h.btcHeader.Some? {
      var gb, hb := EncodeString(g.btcHeader.value), EncodeString(h.btcHeader.value);
      StringReadsBack(g.btcHeader.value, []);
      StringReadsBack(h.btcHeader.value, []);
      assert gb + [] == gb && hb + [] == hb;
      if g.ummRoot.Some? {
        StringReadsBack(g.ummRoot.value, gb);
      }
      if h.ummRoot.Some? {
        StringReadsBack(h.ummRoot.value, hb);
      }
    }
  }

  lemma SizedFits(h: Header)
    requires Sized(h)
    ensures StringsFit(h)
  {
    PayloadIs(h);
    TrailingFits(h);
  }

  /** After orchid, the block hash commits to every field but the extension data, the proof and
      the coinbase, and to nothing else. */
  lemma HashCommits(k: Rules, g: Header, h: Header)
    requires Collisionless(k) && InRange(g) && InRange(h) && Sized(g) && Sized(h)
    requires k.orchid <= g.number && k.orchid <= h.number && g.cachedHash.None? && h.cachedHash.None?
    requires (g.ummRoot.Some? ==> g.btcHeader.Some?) && (h.ummRoot.Some? ==> h.btcHeader.Some?)
    ensures BlockHash(k, g) == BlockHash(k, h) <==> Hashed(g) == Hashed(h)
  {
    if Hashed(g) == Hashed(h) {
      assert Items(g, false) == Items(h, false);
    }
    if BlockHash(k, g) == BlockHash(k, h) {
      HashedIsShorter(g);
      HashedIsShorter(h);
      HeadOfList(EncodePayload(g, false));
      HeadOfList(EncodePayload(h, false));
      SamePayload(g, h);
      SizedFits(g);
      SizedFits(h);
      SameTrailing(g, h);
    }
  }

  /** Before, to the proof and the coinbase as well. */
  lemma EarlyHashCommits(k: Rules, g: Header, h: Header)
    requires Collisionless(k) && InRange(g) && InRange(h) && Sized(g) && Sized(h) && WireShape(g) && WireShape(h)
    requires g.number < k.orchid && h.number < k.orchid && g.cachedHash.None? && h.cachedHash.None?
    ensures BlockHash(k, g) == BlockHash(k, h) <==> g.(cachedMiningHash := h.cachedMiningHash) == h
  {
    if BlockHash(k, g) == BlockHash(k, h) {
      EncodingIsInjective(g, h);
    }
  }

  /** What merged mining commits to: the hash of the sixteen fields and the ummRoot, and if
      that is not empty its first twenty bytes hashed again with it. */
  lemma MiningHashForm(k: Rules, h: Header)
    requires h.cachedMiningHash.None?
    ensures var items := BaseItems(h) + (if h.ummRoot.Some? then [EncodeString(h.ummRoot.value)] else []);
            var base := k.keccak(EncodeList(Concat(items)));
            HashForMergedMining(k, h)
            == if h.ummRoot.GetOr([]) == [] then base else k.keccak(base[..20] + h.ummRoot.GetOr([]))
  {
  }
}
