/** Unsigned 256-bit arithmetic as the repository uses it: plain operators wrap,
    the `saturating_*` forms stop at the largest value. Values are naturals below
    LIMIT; nothing here relies on a bit-vector encoding. */
module U256 {
  const LIMIT: nat := 0x1_0000000000000000_0000000000000000_0000000000000000_0000000000000000
  const MAX: nat := LIMIT - 1

  predicate Fits(x: int) { 0 <= x < LIMIT }

  function Min(a: nat, b: nat): nat { if a <= b then a else b }

  function Max(a: nat, b: nat): nat { if a <= b then b else a }

  function SatAdd(a: nat, b: nat): nat { Min(a + b, MAX) }

  function SatMul(a: nat, b: nat): nat { Min(a * b, MAX) }

  function WrapAdd(a: nat, b: nat): nat { (a + b) % LIMIT }

  function WrapMul(a: nat, b: nat): nat { (a * b) % LIMIT }

  function Sum(s: seq<nat>): nat {
    if s == [] then 0 else s[0] + Sum(s[1..])
  }

  lemma {:induction false} SumSplit(s: seq<nat>, k: nat)
    requires k <= |s|
    ensures Sum(s) == Sum(s[..k]) + Sum(s[k..])
  {
    if k == 0 {
      assert s[..0] == [] && s[0..] == s;
    } else {
      SumSplit(s[1..], k - 1);
      assert s[1..][..k - 1] == s[..k][1..];
      assert s[1..][k - 1..] == s[k..];
    }
  }
}
