/** The fixed-width record a fork's metadata is stored as, and the field that does not
    come back from it. */
module ForkMetaCodec {
  import opened Bytes
  import opened Wrappers

  const RECORD_LENGTH: nat := 120
  const NO_PARENT: nat := U64_LIMIT - 1

  datatype ForkMeta = ForkMeta(
    forkpoint: nat,
    parent: Option<nat>,
    forkpointHash: Hash32,
    tipHeight: nat,
    tipHash: Hash32,
    tipWork: nat)

  /** The widths of the fields. */
  predicate InRange(m: ForkMeta) {
    && m.forkpoint < U64_LIMIT && m.tipHeight < U64_LIMIT && m.tipWork < Span(32)
    && (m.parent.Some? ==> m.parent.value < U64_LIMIT)
  }

  function AsBytes(m: ForkMeta): (record: seq<Byte>)
    ensures |record| == RECORD_LENGTH
  {
    ToBE(m.forkpoint, 8) + ToBE(m.parent.GetOr(NO_PARENT), 8) + m.forkpointHash
    + ToBE(m.tipHeight, 8) + m.tipHash + ToBE(m.tipWork, 32)
  }

  function FromBytes(data: seq<Byte>): ForkMeta
    requires |data| == RECORD_LENGTH
  {
    var parent := FromBE(data[8..16]);
    ForkMeta(
      FromBE(data[..8]),
      if parent != NO_PARENT then Some(parent) else None,
      data[16..48],
      FromBE(data[48..56]),
      data[56..88],
      FromBE(data[80..112]))
  }

  /** What the record gives back for the tip work: the end of the tip hash, then the head of
      the work that was written. */
  function MisreadWork(m: ForkMeta): nat {
    FromBE(m.tipHash[24..32] + ToBE(m.tipWork, 32)[..24])
  }

  lemma Slices(m: ForkMeta)
    ensures var d := AsBytes(m);
      && d[..8] == ToBE(m.forkpoint, 8) && d[8..16] == ToBE(m.parent.GetOr(NO_PARENT), 8)
      && d[16..48] == m.forkpointHash && d[48..56] == ToBE(m.tipHeight, 8) && d[56..88] == m.tipHash
      && d[88..120] == ToBE(m.tipWork, 32) && d[80..112] == m.tipHash[24..32] + ToBE(m.tipWork, 32)[..24]
  {
  }

  /** Every field but the tip work survives being stored, whatever the record. */
  lemma ReadBack(m: ForkMeta)
    requires InRange(m)
    ensures FromBytes(AsBytes(m)) == m.(tipWork := MisreadWork(m),
                                        parent := if m.parent == Some(NO_PARENT) then None else m.parent)
  {
    Slices(m);
    SpanOf64();
    FromTo(m.forkpoint, 8);
    FromTo(m.tipHeight, 8);
    FromTo(m.parent.GetOr(NO_PARENT), 8);
  }

  /** A string is unchanged by shifting eight bytes in only if it repeats them. */
  lemma ShiftedByEight(t: seq<Byte>, w: seq<Byte>)
    requires |t| == 8 && |w| == 32
    ensures t + w[..24] == w <==> w == t + t + t + t
  {
    var a, b, c, d := w[..8], w[8..16], w[16..24], w[24..];
    assert w == a + b + c + d && t + w[..24] == t + a + b + c;
    Eights(t, a, b, c, a, b, c, d);
    Eights(a, b, c, d, t, t, t, t);
  }

  lemma Eights(a: seq<Byte>, b: seq<Byte>, c: seq<Byte>, d: seq<Byte>,
               p: seq<Byte>, q: seq<Byte>, r: seq<Byte>, s: seq<Byte>)
    requires |a| == |b| == |c| == |d| == |p| == |q| == |r| == |s| == 8
    ensures a + b + c + d == p + q + r + s <==> a == p && b == q && c == r && d == s
  {
    var x, y := a + b + c + d, p + q + r + s;
    assert x[..8] == a && x[8..16] == b && x[16..24] == c && x[24..] == d;
    assert y[..8] == p && y[8..16] == q && y[16..24] == r && y[24..] == s;
  }

  /** The tip work survives exactly when its bytes are the last eight of the tip hash, four
      times over. */
  lemma TipWorkSurvivesWhen(m: ForkMeta)
    requires InRange(m)
    ensures FromBytes(AsBytes(m)).tipWork == m.tipWork
       <==> (var t := m.tipHash[24..32]; ToBE(m.tipWork, 32) == t + t + t + t)
  {
    ReadBack(m);
    var t, w := m.tipHash[24..32], ToBE(m.tipWork, 32);
    FromTo(m.tipWork, 32);
    if FromBE(t + w[..24]) == FromBE(w) {
      FromIsInjective(t + w[..24], w);
    }
    ShiftedByEight(t, w);
  }

  /** The record is stable from then on in every other field: storing what was read back
      changes the tip work alone. */
  lemma RestoredRecord(m: ForkMeta)
    requires InRange(m) && m.parent != Some(NO_PARENT)
    ensures AsBytes(FromBytes(AsBytes(m)))[..88] == AsBytes(m)[..88]
    ensures FromBytes(AsBytes(m)) == m <==> (var t := m.tipHash[24..32]; ToBE(m.tipWork, 32) == t + t + t + t)
  {
    ReadBack(m);
    TipWorkSurvivesWhen(m);
  }
}
