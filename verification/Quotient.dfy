/** Floor division of naturals by repeated subtraction. It agrees with `/`
    (QuotientIsDivision); the recursive form keeps the proofs about retarget steps
    inside linear arithmetic. */
module Quotient {

  function Quot(a: nat, n: nat): nat
    requires n > 0
  {
    if a < n then 0 else 1 + Quot(a - n, n)
  }

  lemma {:induction false} QuotBounds(a: nat, n: nat)
    requires n > 0
    ensures n * Quot(a, n) <= a < n * Quot(a, n) + n
  {
    if a >= n {
      QuotBounds(a - n, n);
      var q := Quot(a - n, n);
      assert n * (1 + q) == n + n * q;
    }
  }

  lemma QuotUnique(a: nat, n: nat, q: nat, q': nat)
    requires n * q <= a < n * q + n
    requires n * q' <= a < n * q' + n
    ensures q == q'
  {
    assert n * (q + 1) == n * q + n && n * (q' + 1) == n * q' + n;
    if q < q' {
      ProductMonotone(n, q + 1, q');
    } else if q' < q {
      ProductMonotone(n, q' + 1, q);
    }
  }

  lemma ProductMonotone(n: nat, a: nat, b: nat)
    requires a <= b
    ensures n * a <= n * b
  {
    assert n * b == n * a + n * (b - a);
  }

  lemma DivisionBounds(a: nat, n: nat)
    requires n > 0
    ensures 0 <= a / n && n * (a / n) <= a < n * (a / n) + n
  {
    assert a == n * (a / n) + a % n;
  }

  lemma QuotIsDivision(a: nat, n: nat)
    requires n > 0
    ensures Quot(a, n) == a / n
  {
    QuotBounds(a, n);
    DivisionBounds(a, n);
    QuotUnique(a, n, Quot(a, n), a / n);
  }

  lemma {:induction false} QuotMonotone(a: nat, b: nat, n: nat)
    requires a <= b && n > 0
    ensures Quot(a, n) <= Quot(b, n)
    decreases b
  {
    if a >= n {
      QuotMonotone(a - n, b - n, n);
    }
  }

  lemma {:induction false} QuotAtMost(a: nat, n: nat)
    requires n > 0
    ensures Quot(a, n) <= a
  {
    if a >= n {
      QuotAtMost(a - n, n);
    }
  }

  /** x * n fits under m exactly when x is at most m's quotient. */
  lemma ProductFits(x: nat, n: nat, m: nat)
    requires n > 0
    ensures x * n <= m <==> x <= Quot(m, n)
  {
    var q := Quot(m, n);
    QuotBounds(m, n);
    if x <= q {
      ProductMonotone(n, x, q);
    } else {
      ProductMonotone(n, q + 1, x);
      assert n * (q + 1) == n * q + n;
    }
  }

  lemma ScaledBounds(x: nat, m: nat, q: nat)
    requires m * q <= x < m * q + m
    ensures m * (x + q) <= x * (m + 1) < m * (x + q) + m
  {
    assert m * (x + q) == m * x + m * q;
    assert x * (m + 1) == m * x + x;
  }

  /** Multiplying by n / (n - 1), floored, adds the quotient by n - 1. */
  lemma ScaleUp(x: nat, n: nat)
    requires n >= 2
    ensures x * n / (n - 1) == x + Quot(x, n - 1)
  {
    QuotBounds(x, n - 1);
    ScaledBounds(x, n - 1, Quot(x, n - 1));
    DivisionBounds(x * n, n - 1);
    QuotUnique(x * n, n - 1, x + Quot(x, n - 1), x * n / (n - 1));
  }

  /** Falling by one part in n and then rising by one part in n - 1 loses nothing. */
  lemma {:induction false} FallThenRise(p: nat, n: nat)
    requires n >= 2
    ensures Quot(p, n) <= p
    ensures Quot(p, n) <= Quot(p - Quot(p, n), n - 1)
  {
    QuotAtMost(p, n);
    if p >= n {
      FallThenRise(p - n, n);
      QuotAtMost(p - n, n);
    }
  }
}
