/** Bytes and fixed-width big-endian integers. */
module Bytes {
  type Byte = b: nat | b < 256

  type Hash32 = s: seq<Byte> | |s| == 32 witness Zeros(32)

  const U64_LIMIT: nat := 0x1_0000_0000_0000_0000

  function Zeros(n: nat): (s: seq<Byte>)
    ensures |s| == n
  {
    seq(n, _ => 0)
  }

  /** The number of values `width` bytes can hold. */
  function Span(width: nat): (n: nat)
    ensures n > 0
  {
    if width == 0 then 1 else 256 * Span(width - 1)
  }

  /** The low `width` bytes of a value, most significant first. */
  function ToBE(value: nat, width: nat): (s: seq<Byte>)
    ensures |s| == width
  {
    if width == 0 then [] else ToBE(value / 256, width - 1) + [value % 256]
  }

  function FromBE(s: seq<Byte>): nat {
    if s == [] then 0 else 256 * FromBE(s[..|s| - 1]) + s[|s| - 1]
  }

  lemma {:induction false} FromTo(value: nat, width: nat)
    requires value < Span(width)
    ensures FromBE(ToBE(value, width)) == value
  {
    if width > 0 {
      FromTo(value / 256, width - 1);
      assert ToBE(value, width)[..width - 1] == ToBE(value / 256, width - 1);
    }
  }

  lemma {:induction false} ToFrom(s: seq<Byte>)
    ensures FromBE(s) < Span(|s|)
    ensures ToBE(FromBE(s), |s|) == s
  {
    if s != [] {
      ToFrom(s[..|s| - 1]);
    }
  }

  /** Two strings of the same length with the same value are the same string. */
  lemma FromIsInjective(s: seq<Byte>, t: seq<Byte>)
    requires |s| == |t| && FromBE(s) == FromBE(t)
    ensures s == t
  {
    ToFrom(s);
    ToFrom(t);
  }

  lemma {:induction false} SpanOf64()
    ensures Span(8) == U64_LIMIT && Span(4) == 0x1_0000_0000 && Span(3) == 0x100_0000 && Span(2) == 0x1_0000
            && Span(1) == 256
  {
    assert Span(1) == 256 * Span(0);
    assert Span(2) == 256 * Span(1);
    assert Span(3) == 256 * Span(2);
    assert Span(4) == 256 * Span(3);
    assert Span(5) == 256 * Span(4);
    assert Span(6) == 256 * Span(5);
    assert Span(7) == 256 * Span(6);
    assert Span(8) == 256 * Span(7);
  }
}
