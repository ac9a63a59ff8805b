/** The compressed merged-mining coinbase: its producer, the verifier that resumes the hash
    from it, and the agreement of the two for every alignment. The SHA-256 block function is
    a parameter; all around it is as FIPS 180-4 has it. */
module Coinbase {
  import opened Bytes
  import opened Wrappers

  const RSK_TAG: seq<Byte> := [0x52, 0x53, 0x4B, 0x42, 0x4C, 0x4F, 0x43, 0x4B, 0x3A]
  const MIDSTATE_SIZE_TRIMMED: nat := 40
  const BLOCK_HEADER_HASH_SIZE: nat := 32
  const MAX_BYTES_AFTER_MERGED_MINING_HASH: nat := 128
  const HASH_FOR_MERGED_MINING_PREFIX_LENGTH: nat := 20
  const MAX_RSK_TAG_POSITION_IN_TAIL: nat := 64
  const FORK_DETECTION_DATA_LENGTH: nat := 12

  /** The tag is the text `RSKBLOCK:`. */
  lemma TagIsText(i: nat)
    requires i < |"RSKBLOCK:"|
    ensures |RSK_TAG| == |"RSKBLOCK:"| && RSK_TAG[i] == "RSKBLOCK:"[i] as int
  {
    assert i == 0 || i == 1 || i == 2 || i == 3 || i == 4 || i == 5 || i == 6 || i == 7 || i == 8;
  }

  // ── SHA-256 around its block function ──────────────────────────────────────

  type Word = w: nat | w < 0x1_0000_0000

  type State = s: seq<Word> | |s| == 8 witness seq(8, _ => 0)

  /** How one 64-byte block changes the state. */
  type Compressor = (State, seq<Byte>) -> State

  const SHA256_INITIAL_STATE: State :=
    [0x6a09e667, 0xbb67ae85, 0x3c6ef372, 0xa54ff53a, 0x510e527f, 0x9b05688c, 0x1f83d9ab, 0x5be0cd19]

  /** The state after the whole blocks of `m`; a rest shorter than a block is ignored. */
  function Absorb(f: Compressor, h: State, m: seq<Byte>): State
    decreases |m|
  {
    if |m| < 64 then h else Absorb(f, f(h, m[..64]), m[64..])
  }

  function WordBytes(ws: seq<Word>): (s: seq<Byte>)
    ensures |s| == 4 * |ws|
  {
    if ws == [] then [] else WordBytes(ws[..|ws| - 1]) + ToBE(ws[|ws| - 1], 4)
  }

  /** How many zeros bring a length and one byte to 56 past a block boundary. */
  function ZeroCount(length: nat): (zeros: nat)
    ensures zeros < 64 && (length + 1 + zeros) % 64 == 56
    ensures (length + 1 + zeros + 8) % 64 == 0
  {
    (55 - length) % 64
  }

  /** No smaller number does. */
  lemma ZeroCountIsLeast(length: nat, zeros: nat)
    requires (length + 1 + zeros) % 64 == 56
    ensures ZeroCount(length) <= zeros
  {
    var q, q' := (length + 1 + zeros) / 64, (length + 1 + ZeroCount(length)) / 64;
    assert zeros - ZeroCount(length) == 64 * (q - q');
  }

  /** The message padded: a one bit, the fewest zeros that leave room for the length, and the
      length in bits. */
  function Padded(m: seq<Byte>): (p: seq<Byte>)
    ensures |p| == |m| + 1 + ZeroCount(|m|) + 8 && |p| % 64 == 0
  {
    m + [0x80] + Zeros(ZeroCount(|m|)) + ToBE(8 * |m|, 8)
  }

  function Sha256(f: Compressor, m: seq<Byte>): (digest: seq<Byte>)
    ensures |digest| == 32
  {
    WordBytes(Absorb(f, SHA256_INITIAL_STATE, Padded(m)))
  }

  /** The initial state is the first 32 bits of the fractional parts of the square roots of the
      first eight primes (section 5.3.3 of FIPS 180-4). */
  lemma InitialStateIsRoots(primes: seq<nat>, whole: seq<nat>, i: nat)
    requires primes == [2, 3, 5, 7, 11, 13, 17, 19] && whole == [1, 1, 2, 2, 3, 3, 4, 4] && i < 8
    ensures whole[i] * whole[i] <= primes[i] < (whole[i] + 1) * (whole[i] + 1)
    ensures var root := whole[i] * 0x1_0000_0000 + SHA256_INITIAL_STATE[i];
            root * root <= primes[i] * 0x1_0000_0000_0000_0000 < (root + 1) * (root + 1)
  {
    assert i == 0 || i == 1 || i == 2 || i == 3 || i == 4 || i == 5 || i == 6 || i == 7;
  }

  /** The padding of section 5.1.1: a one bit after the message, then zeros, and in the last
      eight bytes the length in bits. */
  lemma PaddingForm(m: seq<Byte>)
    requires 8 * |m| < U64_LIMIT
    ensures Padded(m)[..|m|] == m && Padded(m)[|m|] == 0x80
    ensures forall i :: |m| < i < |Padded(m)| - 8 ==> Padded(m)[i] == 0
    ensures FromBE(Padded(m)[|Padded(m)| - 8..]) == 8 * |m|
  {
    var front := m + [0x80] + Zeros(ZeroCount(|m|));
    assert Padded(m)[|Padded(m)| - 8..] == ToBE(8 * |m|, 8);
    SpanOf64();
    FromTo(8 * |m|, 8);
  }

  /** The zeros are the fewest: their number is below 64 and lands on the boundary. */
  lemma PaddingIsLeast(m: seq<Byte>, zeros: nat)
    requires (|m| + 1 + zeros) % 64 == 56
    ensures |Padded(m)| <= |m| + 1 + zeros + 8
  {
    ZeroCountIsLeast(|m|, zeros);
  }

  /** Absorbing whole blocks and then the rest is absorbing it all. */
  lemma {:induction false} AbsorbInTwo(f: Compressor, h: State, a: seq<Byte>, b: seq<Byte>)
    requires |a| % 64 == 0
    ensures Absorb(f, h, a + b) == Absorb(f, Absorb(f, h, a), b)
    decreases |a|
  {
    if a == [] {
      assert a + b == b;
    } else {
      assert (a + b)[..64] == a[..64] && (a + b)[64..] == a[64..] + b;
      AbsorbInTwo(f, f(h, a[..64]), a[64..], b);
    }
  }

  /** The whole 64-byte chunks of a buffer, one by one. */
  method AbsorbChunks(f: Compressor, start: State, m: seq<Byte>) returns (h: State)
    ensures h == Absorb(f, start, m)
  {
    h := start;
    var i := 0;
    while i + 64 <= |m|
      invariant i <= |m| && Absorb(f, h, m[i..]) == Absorb(f, start, m)
    {
      assert m[i..][..64] == m[i..i + 64] && m[i..][64..] == m[i + 64..];
      h := f(h, m[i..i + 64]);
      i := i + 64;
    }
  }

  method WriteWords(ws: seq<Word>, prefix: seq<Byte>) returns (out: seq<Byte>)
    ensures out == prefix + WordBytes(ws)
  {
    out := prefix;
    for i := 0 to |ws|
      invariant out == prefix + WordBytes(ws[..i])
    {
      assert ws[..i + 1][..i] == ws[..i];
      out := out + ToBE(ws[i], 4);
    }
    assert ws[..|ws|] == ws;
  }

  /** The padding a resumed hash puts after the tail; byte counts are 64-bit and wrap. */
  function PaddedFrom(byteCount: nat, tail: seq<Byte>): seq<Byte> {
    tail + [0x80] + Zeros(ZeroCount(byteCount + |tail|)) + ToBE((byteCount + |tail|) % U64_LIMIT * 8 % U64_LIMIT, 8)
  }

  function FromMidstate(f: Compressor, state: State, byteCount: nat, tail: seq<Byte>): seq<Byte> {
    WordBytes(Absorb(f, state, PaddedFrom(byteCount, tail)))
  }

  /** Complete a hash from a midstate. */
  method Sha256FromMidstate(f: Compressor, state: State, byteCount: nat, tail: seq<Byte>) returns (out: seq<Byte>)
    requires byteCount < U64_LIMIT
    ensures out == FromMidstate(f, state, byteCount, tail)
  {
    var totalBits := (byteCount + |tail|) % U64_LIMIT * 8 % U64_LIMIT;
    var padded := tail + [0x80];
    ghost var pushed := 0;
    while (byteCount + |padded|) % 64 != 56
      invariant padded == tail + [0x80] + Zeros(pushed)
      invariant pushed <= ZeroCount(byteCount + |tail|)
      decreases ZeroCount(byteCount + |tail|) - pushed
    {
      padded := padded + [0];
      pushed := pushed + 1;
      assert padded == tail + [0x80] + Zeros(pushed);
    }
    ZeroCountIsLeast(byteCount + |tail|, pushed);
    padded := padded + ToBE(totalBits, 8);
    var h := AbsorbChunks(f, state, padded);
    out := WriteWords(h, []);
  }

  lemma PaddedInTwo(m: seq<Byte>, cut: nat)
    requires cut <= |m| && 8 * |m| < U64_LIMIT
    ensures m[..cut] + PaddedFrom(cut, m[cut..]) == Padded(m)
  {
    var tail := m[cut..];
    assert (cut + |tail|) % U64_LIMIT * 8 % U64_LIMIT == 8 * |m|;
    var rest := [0x80] + Zeros(ZeroCount(|m|)) + ToBE(8 * |m|, 8);
    assert PaddedFrom(cut, tail) == tail + rest;
    assert m[..cut] + (tail + rest) == m[..cut] + tail + rest;
    assert m[..cut] + tail == m;
    assert Padded(m) == m + rest;
  }

  /** Wherever the message is cut at a block boundary, resuming from the midstate of the first
      part hashes the whole. The length must fit the 64-bit count of bits. */
  lemma ResumeIsWhole(f: Compressor, m: seq<Byte>, cut: nat)
    requires cut <= |m| && cut % 64 == 0 && 8 * |m| < U64_LIMIT
    ensures FromMidstate(f, Absorb(f, SHA256_INITIAL_STATE, m[..cut]), cut, m[cut..]) == Sha256(f, m)
  {
    AbsorbInTwo(f, SHA256_INITIAL_STATE, m[..cut], PaddedFrom(cut, m[cut..]));
    PaddedInTwo(m, cut);
  }

  // ── searching ──────────────────────────────────────────────────────────────

  predicate MatchesAt(haystack: seq<Byte>, needle: seq<Byte>, p: int) {
    0 <= p && p + |needle| <= |haystack| && haystack[p..p + |needle|] == needle
  }

  ghost predicate IsLast(haystack: seq<Byte>, needle: seq<Byte>, p: nat) {
    MatchesAt(haystack, needle, p) && forall q :: p < q ==> !MatchesAt(haystack, needle, q)
  }

  ghost predicate IsFirst(haystack: seq<Byte>, needle: seq<Byte>, p: nat) {
    MatchesAt(haystack, needle, p) && forall q :: q < p ==> !MatchesAt(haystack, needle, q)
  }

  function LastFrom(haystack: seq<Byte>, needle: seq<Byte>, n: nat): (p: Option<nat>)
    ensures p.Some? ==> p.value < n && MatchesAt(haystack, needle, p.value)
    ensures forall q :: (p.Some? ==> p.value < q) && q < n ==> !MatchesAt(haystack, needle, q)
  {
    if n == 0 then None
    else if MatchesAt(haystack, needle, n - 1) then Some(n - 1)
    else LastFrom(haystack, needle, n - 1)
  }

  function FindLast(haystack: seq<Byte>, needle: seq<Byte>): (p: Option<nat>)
    ensures p.Some? ==> IsLast(haystack, needle, p.value)
    ensures p.None? ==> forall q :: !MatchesAt(haystack, needle, q)
  {
    if |needle| > |haystack| then None else LastFrom(haystack, needle, |haystack| - |needle| + 1)
  }

  function FirstFrom(haystack: seq<Byte>, needle: seq<Byte>, from: nat): (p: Option<nat>)
    ensures p.Some? ==> p.value >= from && MatchesAt(haystack, needle, p.value)
    ensures forall q :: from <= q && (p.Some? ==> q < p.value) ==> !MatchesAt(haystack, needle, q)
    decreases |haystack| - from
  {
    if from + |needle| > |haystack| then None
    else if MatchesAt(haystack, needle, from) then Some(from)
    else if from >= |haystack| then None
    else FirstFrom(haystack, needle, from + 1)
  }

  function FindFirst(haystack: seq<Byte>, needle: seq<Byte>): (p: Option<nat>)
    ensures p.Some? ==> IsFirst(haystack, needle, p.value)
    ensures p.None? ==> forall q :: !MatchesAt(haystack, needle, q)
  {
    FirstFrom(haystack, needle, 0)
  }

  // ── the producer ───────────────────────────────────────────────────────────

  datatype CompressionError =
    | TagNotFound
    | HashTruncated(available: nat)
    | TooMuchTrailingData(trailing: nat)

  function TagPosition(coinbase: seq<Byte>, lastOccurrence: bool): Option<nat> {
    if lastOccurrence then FindLast(coinbase, RSK_TAG) else FindFirst(coinbase, RSK_TAG)
  }

  /** The last block boundary at or before a position. */
  function Boundary(p: nat): (b: nat)
    ensures b % 64 == 0 && b <= p < b + 64
  {
    p / 64 * 64
  }

  /** The compressed form around a tag: byte count, midstate words, and the rest verbatim. */
  function Compressed(f: Compressor, coinbase: seq<Byte>, cut: nat): seq<Byte>
    requires cut <= |coinbase|
  {
    ToBE(cut, 8) + WordBytes(Absorb(f, SHA256_INITIAL_STATE, coinbase[..cut])) + coinbase[cut..]
  }

  /** A tag, 32 bytes after it, and at most 128 more. */
  predicate Compressible(coinbase: seq<Byte>, tag: Option<nat>) {
    tag.Some? && tag.value + 41 <= |coinbase| <= tag.value + 169
  }

  /** Each refusal under its own condition; the offset within the tail is never one. */
  method CompressCoinbase(f: Compressor, coinbase: seq<Byte>, lastOccurrence: bool)
    returns (r: Result<seq<Byte>, CompressionError>)
    ensures Compressible(coinbase, TagPosition(coinbase, lastOccurrence)) ==>
              r == Ok(Compressed(f, coinbase, Boundary(TagPosition(coinbase, lastOccurrence).value)))
    ensures r == Err(TagNotFound) <==> TagPosition(coinbase, lastOccurrence).None?
    ensures forall tag :: TagPosition(coinbase, lastOccurrence) == Some(tag) ==>
              && (|coinbase| < tag + 41 ==> r == Err(HashTruncated(|coinbase| - tag - 9)))
              && (|coinbase| > tag + 169 ==> r == Err(TooMuchTrailingData(|coinbase| - tag - 41)))
  {
    var tag := TagPosition(coinbase, lastOccurrence);
    if tag.None? {
      return Err(TagNotFound);
    }
    var available := |coinbase| - (tag.value + |RSK_TAG|);
    if available < BLOCK_HEADER_HASH_SIZE {
      return Err(HashTruncated(available));
    }
    var trailing := available - BLOCK_HEADER_HASH_SIZE;
    if trailing > MAX_BYTES_AFTER_MERGED_MINING_HASH {
      return Err(TooMuchTrailingData(trailing));
    }
    var bytesToHash := tag.value / 64 * 64;
    var tailTagPosition := tag.value - bytesToHash;
    if tailTagPosition >= MAX_RSK_TAG_POSITION_IN_TAIL {
      assert false; // the error for a tag too deep in the tail cannot arise
    }
    var state := AbsorbChunks(f, SHA256_INITIAL_STATE, coinbase[..bytesToHash]);
    var out := WriteWords(state, ToBE(bytesToHash, 8));
    r := Ok(out + coinbase[bytesToHash..]);
  }

  // ── the verifier ───────────────────────────────────────────────────────────

  function ReadWords(s: seq<Byte>): (ws: seq<Word>)
    requires |s| % 4 == 0
    ensures |ws| == |s| / 4
  {
    if s == [] then []
    else
      ToFrom(s[|s| - 4..]);
      SpanOf64();
      ReadWords(s[..|s| - 4]) + [FromBE(s[|s| - 4..])]
  }

  lemma AnotherWord(s: seq<Byte>, ws: seq<Word>, w: Word)
    requires |s| % 4 == 0 && ReadWords(s) == ws
    ensures ReadWords(s + ToBE(w, 4)) == ws + [w]
  {
    var longer := s + ToBE(w, 4);
    assert longer[|longer| - 4..] == ToBE(w, 4) && longer[..|longer| - 4] == s;
    SpanOf64();
    FromTo(w, 4);
  }

  predicate ReadsBack(ws: seq<Word>) { ReadWords(WordBytes(ws)) == ws }

  lemma {:induction false} WordsReadBack(ws: seq<Word>)
    ensures ReadsBack(ws)
  {
    if ws != [] {
      var below, w := ws[..|ws| - 1], ws[|ws| - 1];
      WordsReadBack(below);
      AnotherReadsBack(below, w);
      assert ws == below + [w];
    }
  }

  lemma AnotherReadsBack(ws: seq<Word>, w: Word)
    requires ReadsBack(ws)
    ensures ReadsBack(ws + [w])
  {
    assert (ws + [w])[..|ws|] == ws;
    AnotherWord(WordBytes(ws), ws, w);
  }

  function Reversed(s: seq<Byte>): (r: seq<Byte>)
    ensures |r| == |s| && forall i :: 0 <= i < |s| ==> r[i] == s[|s| - 1 - i]
  {
    seq(|s|, i requires 0 <= i < |s| => s[|s| - 1 - i])
  }

  function CoinbaseHash(f: Compressor, compressed: seq<Byte>): seq<Byte>
    requires |compressed| >= MIDSTATE_SIZE_TRIMMED
  {
    var state := ReadWords(compressed[8..40]);
    Reversed(Sha256(f, FromMidstate(f, state, FromBE(compressed[..8]), compressed[40..])))
  }

  method ComputeCoinbaseHash(f: Compressor, compressed: seq<Byte>) returns (hash: seq<Byte>)
    requires |compressed| >= MIDSTATE_SIZE_TRIMMED
    ensures hash == CoinbaseHash(f, compressed)
  {
    ToFrom(compressed[..8]);
    SpanOf64();
    var oneRound := Sha256FromMidstate(f, ReadWords(compressed[8..40]), FromBE(compressed[..8]), compressed[40..]);
    hash := Reversed(Sha256(f, oneRound));
  }

  /** The hash taken from the compressed form is the double SHA-256 of the whole coinbase,
      in reverse byte order, wherever the cut fell. */
  lemma HashOfCompressed(f: Compressor, coinbase: seq<Byte>, cut: nat)
    requires cut <= |coinbase| && cut % 64 == 0 && 8 * |coinbase| < U64_LIMIT
    ensures CoinbaseHash(f, Compressed(f, coinbase, cut)) == Reversed(Sha256(f, Sha256(f, coinbase)))
  {
    var state := Absorb(f, SHA256_INITIAL_STATE, coinbase[..cut]);
    var compressed := Compressed(f, coinbase, cut);
    assert compressed[..8] == ToBE(cut, 8) && compressed[8..40] == WordBytes(state)
      && compressed[40..] == coinbase[cut..];
    SpanOf64();
    FromTo(cut, 8);
    WordsReadBack(state);
    ResumeIsWhole(f, coinbase, cut);
  }

  lemma {:induction false} WordAt(ws: seq<Word>, i: nat)
    requires i < |ws|
    ensures FromBE(WordBytes(ws)[4 * i..4 * i + 4]) == ws[i]
    decreases |ws|
  {
    var n := |ws| - 1;
    var below := WordBytes(ws[..n]);
    if i < n {
      WordAt(ws[..n], i);
      assert WordBytes(ws)[4 * i..4 * i + 4] == below[4 * i..4 * i + 4];
    } else {
      assert WordBytes(ws)[4 * n..4 * n + 4] == ToBE(ws[n], 4);
      SpanOf64();
      FromTo(ws[n], 4);
    }
  }

  /** The compressed form: eight bytes that are the number of bytes hashed already, the eight
      words of the state after them, four bytes each, and the rest of the coinbase. */
  lemma CompressedForm(f: Compressor, coinbase: seq<Byte>, cut: nat, i: nat)
    requires cut <= |coinbase| < U64_LIMIT && i < 8
    ensures |Compressed(f, coinbase, cut)| == 40 + |coinbase| - cut
    ensures FromBE(Compressed(f, coinbase, cut)[..8]) == cut && Compressed(f, coinbase, cut)[40..] == coinbase[cut..]
    ensures FromBE(Compressed(f, coinbase, cut)[8 + 4 * i..12 + 4 * i])
         == Absorb(f, SHA256_INITIAL_STATE, coinbase[..cut])[i]
  {
    var state := Absorb(f, SHA256_INITIAL_STATE, coinbase[..cut]);
    var compressed := Compressed(f, coinbase, cut);
    assert compressed[..8] == ToBE(cut, 8) && compressed[8 + 4 * i..12 + 4 * i] == WordBytes(state)[4 * i..4 * i + 4];
    SpanOf64();
    FromTo(cut, 8);
    WordAt(state, i);
  }

  /** Producer and verifier, run one after the other. */
  method CompressThenHash(f: Compressor, coinbase: seq<Byte>, lastOccurrence: bool) returns (hash: Option<seq<Byte>>)
    requires 8 * |coinbase| < U64_LIMIT
    ensures hash.Some? ==> hash.value == Reversed(Sha256(f, Sha256(f, coinbase)))
    ensures hash.Some? <==> Compressible(coinbase, TagPosition(coinbase, lastOccurrence))
  {
    var r := CompressCoinbase(f, coinbase, lastOccurrence);
    if r.Err? {
      return None;
    }
    HashOfCompressed(f, coinbase, Boundary(TagPosition(coinbase, lastOccurrence).value));
    var h := ComputeCoinbaseHash(f, r.value);
    hash := Some(h);
  }

  /** What must follow the tag: the whole hash, or the prefix fork detection leaves of it. */
  function ExpectedTag(rskHash: seq<Byte>, forkDetection: bool): seq<Byte>
    requires |rskHash| == 32
  {
    RSK_TAG + Rest(rskHash, forkDetection)
  }

  /** The tag checks, in their order. */
  predicate TagOk(compressed: seq<Byte>, expectedTag: seq<Byte>) {
    if |compressed| < MIDSTATE_SIZE_TRIMMED + 1 then false
    else
      var tail := compressed[MIDSTATE_SIZE_TRIMMED..];
      match FindLast(tail, expectedTag)
      case None => false
      case Some(position) =>
        if position >= MAX_RSK_TAG_POSITION_IN_TAIL then false
        else if FindLast(tail, RSK_TAG) != Some(position) then false
        else if |tail| < position + |RSK_TAG| + BLOCK_HEADER_HASH_SIZE then false
        else |tail| - position - |RSK_TAG| - BLOCK_HEADER_HASH_SIZE <= MAX_BYTES_AFTER_MERGED_MINING_HASH
  }

  lemma PrefixMatches(haystack: seq<Byte>, a: seq<Byte>, b: seq<Byte>, q: int)
    requires MatchesAt(haystack, a + b, q)
    ensures MatchesAt(haystack, a, q)
  {
    assert haystack[q..q + |a|] == haystack[q..q + |a + b|][..|a|];
    assert (a + b)[..|a|] == a;
  }

  /** The last match of a longer needle is that of its prefix, if it matches there at all. */
  lemma LastOfLonger(haystack: seq<Byte>, a: seq<Byte>, b: seq<Byte>)
    ensures FindLast(haystack, a).Some? && MatchesAt(haystack, a + b, FindLast(haystack, a).value)
       ==> FindLast(haystack, a + b) == FindLast(haystack, a)
    ensures FindLast(haystack, a + b).Some? ==> FindLast(haystack, a).Some?
  {
    forall q | MatchesAt(haystack, a + b, q) ensures MatchesAt(haystack, a, q) {
      PrefixMatches(haystack, a, b, q);
    }
  }

  function Rest(rskHash: seq<Byte>, forkDetection: bool): seq<Byte>
    requires |rskHash| == 32
  {
    if forkDetection then rskHash[..HASH_FOR_MERGED_MINING_PREFIX_LENGTH] else rskHash
  }

  /** At `p`, within the first block, the expected bytes; 32 bytes of hash and then at most
      128 more follow the tag. */
  predicate Fitting(tail: seq<Byte>, expected: seq<Byte>, p: nat) {
    p < 64 && MatchesAt(tail, expected, p) && p + 41 <= |tail| <= p + 169
  }

  /** The checks pass exactly when the tail has a tag and its last one fits. */
  lemma TagOkExact(compressed: seq<Byte>, rskHash: seq<Byte>, forkDetection: bool)
    requires |rskHash| == 32
    ensures TagOk(compressed, ExpectedTag(rskHash, forkDetection))
       <==> && |compressed| > 40
            && FindLast(compressed[40..], RSK_TAG).Some?
            && Fitting(compressed[40..], ExpectedTag(rskHash, forkDetection), FindLast(compressed[40..], RSK_TAG).value)
  {
    if |compressed| > 40 {
      LastOfLonger(compressed[40..], RSK_TAG, Rest(rskHash, forkDetection));
    }
  }

  lemma TailMatches(coinbase: seq<Byte>, cut: nat, needle: seq<Byte>, q: int)
    requires cut <= |coinbase| && q >= cut
    ensures MatchesAt(coinbase[cut..], needle, q - cut) <==> MatchesAt(coinbase, needle, q)
  {
    if q + |needle| <= |coinbase| {
      assert coinbase[cut..][q - cut..q - cut + |needle|] == coinbase[q..q + |needle|];
    }
  }

  /** A last match survives cutting off bytes before it. */
  lemma LastInTail(coinbase: seq<Byte>, cut: nat, needle: seq<Byte>, last: nat)
    requires FindLast(coinbase, needle) == Some(last) && cut <= last
    ensures cut <= |coinbase| && FindLast(coinbase[cut..], needle) == Some(last - cut)
  {
    TailMatches(coinbase, cut, needle, last);
    forall q | last - cut < q ensures !MatchesAt(coinbase[cut..], needle, q) {
      TailMatches(coinbase, cut, needle, q + cut);
    }
  }

  lemma TailOfCompressed(f: Compressor, coinbase: seq<Byte>, cut: nat)
    requires cut <= |coinbase|
    ensures |Compressed(f, coinbase, cut)| == 40 + |coinbase| - cut
    ensures Compressed(f, coinbase, cut)[40..] == coinbase[cut..]
  {
  }

  /** Compressed at a boundary before the coinbase's last tag, a coinbase is accepted exactly
      when the expected bytes follow that tag, it is less than a block past the boundary, and
      its 32 bytes of hash and at most 128 more follow. */
  lemma CutPasses(f: Compressor, coinbase: seq<Byte>, cut: nat, last: nat, rskHash: seq<Byte>, forkDetection: bool)
    requires |rskHash| == 32
    requires TagPosition(coinbase, true) == Some(last) && cut <= last
    ensures cut <= |coinbase|
    ensures TagOk(Compressed(f, coinbase, cut), ExpectedTag(rskHash, forkDetection))
       <==> && MatchesAt(coinbase, ExpectedTag(rskHash, forkDetection), last)
            && last - cut < 64 && last + 41 <= |coinbase| <= last + 169
  {
    LastInTail(coinbase, cut, RSK_TAG, last);
    TailOfCompressed(f, coinbase, cut);
    TagOkExact(Compressed(f, coinbase, cut), rskHash, forkDetection);
    TailMatches(coinbase, cut, ExpectedTag(rskHash, forkDetection), last);
  }

  /** What the producer accepts with the last tag, the verifier accepts exactly when the
      expected bytes follow that tag: position, last-tag and length checks cannot fail. */
  lemma CompressedPasses(f: Compressor, coinbase: seq<Byte>, tag: nat, rskHash: seq<Byte>, forkDetection: bool)
    requires |rskHash| == 32
    requires TagPosition(coinbase, true) == Some(tag) && tag + 41 <= |coinbase| <= tag + 169
    ensures TagOk(Compressed(f, coinbase, Boundary(tag)), ExpectedTag(rskHash, forkDetection))
       <==> MatchesAt(coinbase, ExpectedTag(rskHash, forkDetection), tag)
  {
    CutPasses(f, coinbase, Boundary(tag), tag, rskHash, forkDetection);
  }

  /** Compressed around the first of several tags, it is judged by the last one. */
  lemma FirstTagPasses(f: Compressor, coinbase: seq<Byte>, first: nat, last: nat, rskHash: seq<Byte>,
                       forkDetection: bool)
    requires |rskHash| == 32
    requires TagPosition(coinbase, false) == Some(first) && TagPosition(coinbase, true) == Some(last)
    requires first + 41 <= |coinbase| <= first + 169
    ensures TagOk(Compressed(f, coinbase, Boundary(first)), ExpectedTag(rskHash, forkDetection))
       <==> && MatchesAt(coinbase, ExpectedTag(rskHash, forkDetection), last)
            && last - Boundary(first) < 64 && last + 41 <= |coinbase|
  {
    assert MatchesAt(coinbase, RSK_TAG, last);
    CutPasses(f, coinbase, Boundary(first), last, rskHash, forkDetection);
  }

  // ── fork detection ─────────────────────────────────────────────────────────

  function ExtractForkDetectionData(compressed: seq<Byte>, rskHash: seq<Byte>): Option<seq<Byte>>
    requires |rskHash| == 32
  {
    if |compressed| < MIDSTATE_SIZE_TRIMMED + 1 then None
    else
      var tail := compressed[MIDSTATE_SIZE_TRIMMED..];
      var prefix := RSK_TAG + rskHash[..HASH_FOR_MERGED_MINING_PREFIX_LENGTH];
      match FindLast(tail, prefix)
      case None => None
      case Some(position) =>
        var from := position + |prefix|;
        if |tail| < from + FORK_DETECTION_DATA_LENGTH then None else Some(tail[from..from + FORK_DETECTION_DATA_LENGTH])
  }

  /** A header that passes the tag checks always yields its fork-detection data, and out of
      a compressed coinbase it is the last 12 of the 32 bytes after the tag. */
  lemma ForkDataIsHashTail(f: Compressor, coinbase: seq<Byte>, tag: nat, rskHash: seq<Byte>)
    requires |rskHash| == 32
    requires TagPosition(coinbase, true) == Some(tag) && tag + 41 <= |coinbase| <= tag + 169
    requires TagOk(Compressed(f, coinbase, Boundary(tag)), ExpectedTag(rskHash, true))
    ensures ExtractForkDetectionData(Compressed(f, coinbase, Boundary(tag)), rskHash)
         == Some(coinbase[tag + 9..tag + 41][20..])
  {
    var cut := Boundary(tag);
    var expected := ExpectedTag(rskHash, true);
    CompressedPasses(f, coinbase, tag, rskHash, true);
    TailOfCompressed(f, coinbase, cut);
    LastOfLonger(coinbase, RSK_TAG, Rest(rskHash, true));
    LastInTail(coinbase, cut, expected, tag);
    ForkDataSlice(coinbase, cut, tag);
  }

  lemma ForkDataSlice(coinbase: seq<Byte>, cut: nat, tag: nat)
    requires cut <= tag && tag + 41 <= |coinbase|
    ensures coinbase[cut..][tag - cut + 29..tag - cut + 41] == coinbase[tag + 9..tag + 41][20..]
  {
  }
}
