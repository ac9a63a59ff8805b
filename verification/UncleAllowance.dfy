/** The per-block uncle allowance implied by a set of samples: an empirical Bernstein
    bound in integer arithmetic, in thousandths of a block's own difficulty. */
module UncleAllowance {
  import opened Quotient
  import opened U256

  const LN_3_OVER_DELTA_PER_MILLE: nat := 21_821
  const UNCLE_LIST_LIMIT: nat := 10
  const CAP: nat := 1_000 + UNCLE_LIST_LIMIT * 1_000

  datatype Sample = Sample(number: nat, difficulty: nat, uncleCount: nat)

  /** Every sample's uncle count, in thousandths. */
  function Counts(samples: seq<Sample>): seq<nat> {
    seq(|samples|, i requires 0 <= i < |samples| => samples[i].uncleCount * 1_000)
  }

  function Squared(c: nat, mean: nat): nat {
    var d: nat := if c >= mean then c - mean else mean - c;
    d * d
  }

  function SquaredDeviations(counts: seq<nat>, mean: nat): nat {
    if counts == [] then 0 else Squared(counts[0], mean) + SquaredDeviations(counts[1..], mean)
  }

  /** The integer square root. */
  function Isqrt(n: nat): (r: nat)
    ensures r * r <= n < (r + 1) * (r + 1)
  {
    if n == 0 then 0
    else
      var r := Isqrt(n - 1);
      if (r + 1) * (r + 1) <= n then r + 1 else r
  }

  function Mean(counts: seq<nat>): nat
    requires |counts| > 0
  {
    Quot(Sum(counts), |counts|)
  }

  /** The unbiased sample variance. */
  function Variance(counts: seq<nat>): nat
    requires |counts| > 1
  {
    Quot(SquaredDeviations(counts, Mean(counts)), |counts| - 1)
  }

  function VarianceTerm(variance: nat, k: nat): nat
    requires k > 0
  {
    Isqrt(Quot(2 * variance * LN_3_OVER_DELTA_PER_MILLE, 1_000 * k))
  }

  function RangeTerm(k: nat): nat
    requires k > 0
  {
    Quot(3 * (UNCLE_LIST_LIMIT * 1_000) * LN_3_OVER_DELTA_PER_MILLE, 1_000 * k)
  }

  function AllowanceOf(counts: seq<nat>): nat {
    var k := |counts|;
    if k < 2 then CAP
    else Min(1_000 + (Mean(counts) + VarianceTerm(Variance(counts), k) + RangeTerm(k)), CAP)
  }

  function AllowancePerMille(samples: seq<Sample>): nat {
    AllowanceOf(Counts(samples))
  }

  // ── range ──────────────────────────────────────────────────────────────────

  lemma {:induction false} SumAtMost(counts: seq<nat>, m: nat)
    requires forall c :: c in counts ==> c <= m
    ensures Sum(counts) <= |counts| * m
  {
    if counts != [] {
      assert counts[0] in counts && forall c :: c in counts[1..] ==> c in counts;
      SumAtMost(counts[1..], m);
      assert |counts| * m == m + (|counts| - 1) * m;
    }
  }

  lemma MeanAtMost(counts: seq<nat>, m: nat)
    requires counts != [] && forall c :: c in counts ==> c <= m
    ensures Mean(counts) <= m
  {
    var k := |counts|;
    SumAtMost(counts, m);
    QuotMonotone(Sum(counts), k * m, k);
    QuotBounds(k * m, k);
    QuotUnique(k * m, k, m, Quot(k * m, k));
  }

  /** Between the plain sample mean and the consensus cap, and exactly the cap when
      there is no variance to estimate. */
  lemma AllowanceRange(samples: seq<Sample>)
    requires forall s :: s in samples ==> s.uncleCount <= UNCLE_LIST_LIMIT
    ensures 1_000 <= AllowancePerMille(samples) <= 11_000
    ensures |samples| < 2 ==> AllowancePerMille(samples) == 11_000
    ensures samples != [] ==> 1_000 + Mean(Counts(samples)) <= AllowancePerMille(samples)
  {
    var counts := Counts(samples);
    if samples != [] {
      forall c | c in counts ensures c <= 10_000 {
        var i :| 0 <= i < |counts| && counts[i] == c;
        assert samples[i] in samples;
      }
      MeanAtMost(counts, 10_000);
    }
  }

  // ── order does not matter ──────────────────────────────────────────────────

  lemma RemoveMatching<T>(a: seq<T>, b: seq<T>, i: nat)
    requires a != [] && i < |b| && b[i] == a[0] && multiset(a) == multiset(b)
    ensures multiset(a[1..]) == multiset(b[..i] + b[i + 1..])
  {
    assert a == [a[0]] + a[1..] && b == b[..i] + [b[i]] + b[i + 1..];
    assert multiset(a) == multiset{a[0]} + multiset(a[1..]);
    assert multiset(b) == multiset{b[i]} + multiset(b[..i] + b[i + 1..]);
    assert multiset(a[1..]) == multiset(a) - multiset{a[0]};
  }

  lemma {:induction false} SumOfPermutation(a: seq<nat>, b: seq<nat>, mean: nat)
    requires multiset(a) == multiset(b)
    ensures Sum(a) == Sum(b) && SquaredDeviations(a, mean) == SquaredDeviations(b, mean)
    decreases |a|
  {
    if a == [] {
      assert |multiset(b)| == 0;
    } else {
      assert a[0] in multiset(b);
      var i :| 0 <= i < |b| && b[i] == a[0];
      var rest := b[..i] + b[i + 1..];
      RemoveMatching(a, b, i);
      SumOfPermutation(a[1..], rest, mean);
      PullOut(b, i, mean);
    }
  }

  lemma {:induction false} PullOut(b: seq<nat>, i: nat, mean: nat)
    requires i < |b|
    ensures Sum(b) == b[i] + Sum(b[..i] + b[i + 1..])
    ensures SquaredDeviations(b, mean) == Squared(b[i], mean) + SquaredDeviations(b[..i] + b[i + 1..], mean)
  {
    var rest := b[..i] + b[i + 1..];
    if i == 0 {
      assert rest == b[1..];
    } else {
      PullOut(b[1..], i - 1, mean);
      assert rest[0] == b[0];
      assert rest[1..] == b[1..][..i - 1] + b[1..][i..];
    }
  }

  lemma {:induction false} CountsMultiset(a: seq<Sample>, b: seq<Sample>)
    requires multiset(a) == multiset(b)
    ensures multiset(Counts(a)) == multiset(Counts(b))
    decreases |a|
  {
    if a == [] {
      assert |multiset(b)| == 0;
    } else {
      assert a[0] in multiset(b);
      var i :| 0 <= i < |b| && b[i] == a[0];
      var rest := b[..i] + b[i + 1..];
      RemoveMatching(a, b, i);
      CountsMultiset(a[1..], rest);
      var c := a[0].uncleCount * 1_000;
      assert Counts(a) == [c] + Counts(a[1..]);
      assert Counts(b) == Counts(rest)[..i] + [c] + Counts(rest)[i..];
      assert Counts(rest) == Counts(rest)[..i] + Counts(rest)[i..];
    }
  }

  /** The allowance depends on the samples as a collection, not on the order they are
      listed in. */
  lemma AllowanceIgnoresOrder(a: seq<Sample>, b: seq<Sample>)
    requires multiset(a) == multiset(b)
    ensures AllowancePerMille(a) == AllowancePerMille(b)
  {
    var ca, cb := Counts(a), Counts(b);
    CountsMultiset(a, b);
    assert |ca| == |multiset(ca)| == |multiset(cb)| == |cb|;
    SumOfPermutation(ca, cb, 0);
    if ca != [] {
      SumOfPermutation(ca, cb, Mean(ca));
    }
  }

  // ── repeating the evidence ─────────────────────────────────────────────────

  function Repeat<T>(s: seq<T>, n: nat): seq<T> {
    if n == 0 then [] else s + Repeat(s, n - 1)
  }

  lemma {:induction false} RepeatSums(counts: seq<nat>, n: nat, mean: nat)
    ensures |Repeat(counts, n)| == n * |counts|
    ensures Sum(Repeat(counts, n)) == n * Sum(counts)
    ensures SquaredDeviations(Repeat(counts, n), mean) == n * SquaredDeviations(counts, mean)
  {
    if n > 0 {
      RepeatSums(counts, n - 1, mean);
      SumsConcat(counts, Repeat(counts, n - 1), mean);
      assert n * |counts| == |counts| + (n - 1) * |counts|;
      assert n * Sum(counts) == Sum(counts) + (n - 1) * Sum(counts);
      var sd := SquaredDeviations(counts, mean);
      assert n * sd == sd + (n - 1) * sd;
    }
  }

  lemma {:induction false} SumsConcat(a: seq<nat>, b: seq<nat>, mean: nat)
    ensures Sum(a + b) == Sum(a) + Sum(b)
    ensures SquaredDeviations(a + b, mean) == SquaredDeviations(a, mean) + SquaredDeviations(b, mean)
  {
    if a == [] {
      assert a + b == b;
    } else {
      SumsConcat(a[1..], b, mean);
      assert (a + b)[1..] == a[1..] + b;
    }
  }

  lemma BoundsScale(a: nat, n: nat, m: nat, q: nat, nq: nat)
    requires nq == n * q && nq <= a < nq + n && m > 0
    ensures m * n * q <= m * a < m * n * q + m * n
  {
    ProductMonotone(m, nq, a);
    ProductMonotone(m, a + 1, nq + n);
    assert m * (a + 1) == m * a + m;
    assert m * nq == m * n * q;
    assert m * (nq + n) == m * nq + m * n;
  }

  lemma QuotScales(a: nat, n: nat, m: nat)
    requires n > 0 && m > 0 && m * n > 0
    ensures Quot(m * a, m * n) == Quot(a, n)
  {
    var q := Quot(a, n);
    QuotBounds(a, n);
    BoundsScale(a, n, m, q, n * q);
    QuotBounds(m * a, m * n);
    QuotUnique(m * a, m * n, q, Quot(m * a, m * n));
  }

  /** Dividing m times the sum by m * n - 1 gives no more than dividing it by n - 1. */
  lemma RepeatedVariance(ss: nat, n: nat, m: nat)
    requires n > 1 && m > 0 && m * n > 1
    ensures Quot(m * ss, m * n - 1) <= Quot(ss, n - 1)
  {
    var v := Quot(m * ss, m * n - 1);
    QuotBounds(m * ss, m * n - 1);
    CancelFactor(v, n, m, m * n - 1, ss);
    ProductFits(v, n - 1, ss);
  }

  lemma CancelFactor(v: nat, n: nat, m: nat, d: nat, ss: nat)
    requires n > 1 && m > 0 && d == m * n - 1 && d * v <= m * ss
    ensures v * (n - 1) <= ss
  {
    assert m * (n - 1) == m * n - m;
    ProductMonotone(v, m * (n - 1), d);
    Reassociate(v, m, n - 1);
    if v * (n - 1) > ss {
      ProductMonotone(m, ss + 1, v * (n - 1));
      Distribute(m, ss);
    }
  }

  lemma Reassociate(v: nat, m: nat, k: nat)
    ensures v * (m * k) == m * (v * k)
  {
  }

  lemma Distribute(m: nat, s: nat)
    ensures m * (s + 1) == m * s + m
  {
  }

  lemma {:induction false} QuotAntitone(a: nat, n: nat, n': nat)
    requires 0 < n <= n'
    ensures Quot(a, n') <= Quot(a, n)
  {
    if a >= n' {
      QuotAntitone(a - n', n, n');
      QuotMonotone(a - n', a - n, n);
    }
  }

  lemma IsqrtMonotone(a: nat, b: nat)
    requires a <= b
    ensures Isqrt(a) <= Isqrt(b)
  {
    var r, t := Isqrt(a), Isqrt(b);
    if r > t {
      ProductMonotone(r, t + 1, r);
      ProductMonotone(t + 1, t + 1, r);
    }
  }

  lemma {:induction false} CountsRepeat(samples: seq<Sample>, n: nat)
    ensures Counts(Repeat(samples, n)) == Repeat(Counts(samples), n)
  {
    if n > 0 {
      CountsRepeat(samples, n - 1);
      var rest := Repeat(samples, n - 1);
      assert Counts(samples + rest) == Counts(samples) + Counts(rest);
    }
  }

  /** More of the same evidence never raises the allowance: the mean stays, the variance
      and the range term can only shrink. */
  lemma RepeatingNeverRaises(samples: seq<Sample>, n: nat)
    requires n > 0
    ensures AllowancePerMille(Repeat(samples, n)) <= AllowancePerMille(samples)
  {
    var counts := Counts(samples);
    var k := |counts|;
    CountsRepeat(samples, n);
    if k >= 2 {
      var more := Repeat(counts, n);
      RepeatSums(counts, n, Mean(counts));
      ProductMonotone(k, 1, n);
      QuotScales(Sum(counts), k, n);
      RepeatedVariance(SquaredDeviations(counts, Mean(counts)), k, n);
      TermsShrink(Variance(counts), Variance(more), k, |more|);
    }
  }

  lemma TermsShrink(v: nat, v': nat, k: nat, k': nat)
    requires v' <= v && 0 < k <= k'
    ensures VarianceTerm(v', k') <= VarianceTerm(v, k) && RangeTerm(k') <= RangeTerm(k)
  {
    var a, a' := 2 * v * LN_3_OVER_DELTA_PER_MILLE, 2 * v' * LN_3_OVER_DELTA_PER_MILLE;
    QuotMonotone(a', a, 1_000 * k');
    QuotAntitone(a, 1_000 * k, 1_000 * k');
    IsqrtMonotone(Quot(a', 1_000 * k'), Quot(a, 1_000 * k));
    QuotAntitone(3 * (UNCLE_LIST_LIMIT * 1_000) * LN_3_OVER_DELTA_PER_MILLE, 1_000 * k, 1_000 * k');
  }

  // ── the bound's terms ──────────────────────────────────────────────────────

  function SumOfSquares(counts: seq<nat>): nat {
    if counts == [] then 0 else counts[0] * counts[0] + SumOfSquares(counts[1..])
  }

  lemma OneSquare(c: nat, m: nat)
    ensures Squared(c, m) + 2 * m * c == c * c + m * m
  {
    if c >= m {
      var d := c - m;
      assert c == m + d && c * c == m * m + 2 * m * d + d * d && 2 * m * c == 2 * m * m + 2 * m * d;
    } else {
      var d := m - c;
      assert m == c + d && m * m == c * c + 2 * c * d + d * d && 2 * m * c == 2 * c * c + 2 * d * c;
    }
  }

  /** The deviations are those from `m`, squared. */
  lemma {:induction false} DeviationsExpand(counts: seq<nat>, m: nat)
    ensures SquaredDeviations(counts, m) + 2 * m * Sum(counts) == SumOfSquares(counts) + |counts| * (m * m)
  {
    if counts != [] {
      DeviationsExpand(counts[1..], m);
      OneSquare(counts[0], m);
      DistributeOver(2 * m, counts[0], Sum(counts[1..]));
      DistributeOver(m * m, 1, |counts[1..]|);
    }
  }

  lemma DistributeOver(a: nat, b: nat, c: nat)
    ensures a * (b + c) == a * b + a * c && (b + c) * a == b * a + c * a
  {
  }

  lemma RootUnder(v: nat, q: nat, x: nat, d: nat)
    requires v * v <= q < (v + 1) * (v + 1) && d * q <= x < d * q + d
    ensures d * (v * v) <= x < d * ((v + 1) * (v + 1))
  {
    ProductMonotone(d, v * v, q);
    ProductMonotone(d, q + 1, (v + 1) * (v + 1));
    assert d * (q + 1) == d * q + d;
  }

  /** The empirical Bernstein bound, in thousandths of a block: from two samples on it is 1000,
      plus the mean of the uncle counts, plus the root of twice their unbiased variance times
      ln(3/delta) over their number, plus three times the greatest count times ln(3/delta) over
      their number, each rounded down; and never more than 11000. */
  lemma AllowanceTerms(samples: seq<Sample>) returns (mean: nat, variance: nat, root: nat, range: nat)
    requires |samples| >= 2
    ensures var k, counts := |samples|, Counts(samples);
      && k * mean <= Sum(counts) < k * mean + k
      && (k - 1) * variance <= SquaredDeviations(counts, mean) < (k - 1) * variance + (k - 1)
      && 1_000 * k * (root * root) <= 2 * variance * 21_821 < 1_000 * k * ((root + 1) * (root + 1))
      && 1_000 * k * range <= 3 * 10_000 * 21_821 < 1_000 * k * range + 1_000 * k
    ensures AllowancePerMille(samples) == Min(1_000 + mean + root + range, 11_000)
  {
    var k, counts := |samples|, Counts(samples);
    mean, variance := Mean(counts), Variance(counts);
    root, range := VarianceTerm(variance, k), RangeTerm(k);
    QuotBounds(Sum(counts), k);
    QuotBounds(SquaredDeviations(counts, mean), k - 1);
    RootTerm(variance, k);
    QuotBounds(3 * 10_000 * 21_821, 1_000 * k);
  }

  lemma RootTerm(variance: nat, k: nat)
    requires k > 0
    ensures var root := VarianceTerm(variance, k);
            1_000 * k * (root * root) <= 2 * variance * 21_821 < 1_000 * k * ((root + 1) * (root + 1))
  {
    var x: nat, d: nat := 2 * variance * 21_821, 1_000 * k;
    QuotBounds(x, d);
    RootUnder(VarianceTerm(variance, k), Quot(x, d), x, d);
  }
}
