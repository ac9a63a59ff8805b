/** Pairs of naturals as naturals, one to one: with it the assumptions made of hashes are
    met by functions that can be written down. */
module Pairing {

  /** The sum of the numbers up to `n`. */
  function Triangle(n: nat): (t: nat)
    ensures t >= n
  {
    if n == 0 then 0 else Triangle(n - 1) + n
  }

  /** A pair as one number: along the diagonals. */
  function Pair(a: nat, b: nat): (p: nat)
    ensures p >= a && p >= b
  {
    Triangle(a + b) + b
  }

  lemma {:induction false} TrianglesApart(m: nat, n: nat)
    requires m < n
    ensures Triangle(m) + m < Triangle(n)
    decreases n
  {
    if m < n - 1 {
      TrianglesApart(m, n - 1);
    }
  }

  lemma PairIsInjective(a: nat, b: nat, c: nat, d: nat)
    requires Pair(a, b) == Pair(c, d)
    ensures a == c && b == d
  {
    if a + b < c + d {
      TrianglesApart(a + b, c + d);
    } else if c + d < a + b {
      TrianglesApart(c + d, a + b);
    }
  }
}
