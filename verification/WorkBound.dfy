/** `max_work_between`: the most work the blocks between two known difficulties can
    carry, and the proof that no chain the retarget rule admits exceeds it. */
module WorkBound {
  import opened Quotient
  import opened U256
  import opened Retarget

  /** The inverse of a maximal fall, saturating: `next * divisor / (divisor - 1)`, or
      MAX when that product does not fit. */
  function Lift(next: nat, divisor: nat): nat
    requires divisor >= 2
  {
    if next <= Quot(MAX, divisor) then next + Quot(next, divisor - 1) else MAX
  }

  lemma LiftIsCheckedProduct(next: nat, divisor: nat)
    requires divisor >= 2
    ensures Lift(next, divisor)
         == if next * divisor < LIMIT then next * divisor / (divisor - 1) else MAX
  {
    ProductFits(next, divisor, MAX);
    ScaleUp(next, divisor);
  }

  /** The highest difficulty a block may have `back` blocks before one of difficulty `to`. */
  function Cap(to: nat, divisor: nat, back: nat): nat
    requires divisor >= 2
  {
    if back == 0 then to else Lift(Cap(to, divisor, back - 1), divisor)
  }

  function Risen(d: nat, divisor: nat): nat
    requires divisor >= 2
  {
    SatAdd(d, Quot(d, divisor))
  }

  /** One step of the forward walk, under the ceiling `cap`. */
  function Advance(d: nat, cap: nat, divisor: nat, minDifficulty: nat): nat
    requires divisor >= 2
  {
    Clamp(Min(Risen(d, divisor), cap), minDifficulty)
  }

  /** The saturated work of walking the `span` blocks after one of difficulty `d`. */
  function WalkWork(d: nat, to: nat, span: nat, divisor: nat, minDifficulty: nat): nat
    requires divisor >= 2
    decreases span
  {
    if span == 0 then 0
    else
      var next := Advance(d, Cap(to, divisor, span - 1), divisor, minDifficulty);
      SatAdd(next, WalkWork(next, to, span - 1, divisor, minDifficulty))
  }

  function MaxWork(from: nat, to: nat, span: nat, divisor: nat, minDifficulty: nat): nat {
    if divisor < 2 then 0 else WalkWork(from, to, span, divisor, minDifficulty)
  }

  lemma SatAddAssociates(a: nat, b: nat, c: nat)
    ensures SatAdd(SatAdd(a, b), c) == SatAdd(a, SatAdd(b, c))
  {
  }

  method CheckedLift(next: nat, divisor: nat) returns (lifted: nat)
    requires divisor >= 2
    ensures lifted == Lift(next, divisor)
  {
    LiftIsCheckedProduct(next, divisor);
    lifted := if next * divisor < LIMIT then next * divisor / (divisor - 1) else MAX;
  }

  method CheckedRise(d: nat, divisor: nat) returns (risen: nat)
    requires divisor >= 2
    ensures risen == Risen(d, divisor)
  {
    QuotIsDivision(d, divisor);
    risen := SatAdd(d, d / divisor);
  }

  /** The table of caps, filled backwards from `to`. */
  method FillCaps(to: nat, span: nat, divisor: nat) returns (cap: array<nat>)
    requires divisor >= 2
    ensures fresh(cap) && cap.Length == span + 1
    ensures forall k :: 0 <= k <= span ==> cap[k] == Cap(to, divisor, span - k)
  {
    cap := new nat[span + 1];
    cap[span] := to;
    var i := span;
    while i > 0
      invariant 0 <= i <= span
      invariant forall k :: i <= k <= span ==> cap[k] == Cap(to, divisor, span - k)
    {
      i := i - 1;
      cap[i] := CheckedLift(cap[i + 1], divisor);
    }
  }

  lemma WalkStep(total: nat, d: nat, to: nat, span: nat, divisor: nat, minDifficulty: nat)
    requires divisor >= 2 && span > 0
    ensures var next := Advance(d, Cap(to, divisor, span - 1), divisor, minDifficulty);
            SatAdd(total, WalkWork(d, to, span, divisor, minDifficulty))
            == SatAdd(SatAdd(total, next), WalkWork(next, to, span - 1, divisor, minDifficulty))
  {
    var next := Advance(d, Cap(to, divisor, span - 1), divisor, minDifficulty);
    SatAddAssociates(total, next, WalkWork(next, to, span - 1, divisor, minDifficulty));
  }

  /** One step forward: the rise, the cap, and the floor. */
  method StepUnder(d: nat, cap: nat, divisor: nat, minDifficulty: nat) returns (next: nat)
    requires divisor >= 2
    ensures next == Advance(d, cap, divisor, minDifficulty)
  {
    var risen := CheckedRise(d, divisor);
    next := Min(risen, cap);
    if next < minDifficulty {
      next := minDifficulty;
    }
  }

  /** The caps filled backwards, then the walk forwards under them. */
  method MaxWorkBetween(from: nat, to: nat, span: nat, divisor: nat, minDifficulty: nat)
    returns (total: nat)
    requires Fits(from) && Fits(to) && Fits(minDifficulty)
    ensures total == MaxWork(from, to, span, divisor, minDifficulty)
    ensures Fits(total)
  {
    if span == 0 || divisor < 2 {
      return 0;
    }
    var cap := FillCaps(to, span, divisor);
    total := 0;
    var d: nat := from;
    for step := 1 to span + 1
      invariant 1 <= step <= span + 1 && Fits(total)
      invariant forall k :: 0 <= k <= span ==> cap[k] == Cap(to, divisor, span - k)
      invariant SatAdd(total, WalkWork(d, to, span + 1 - step, divisor, minDifficulty))
             == WalkWork(from, to, span, divisor, minDifficulty)
    {
      WalkStep(total, d, to, span + 1 - step, divisor, minDifficulty);
      assert cap[step] == Cap(to, divisor, span - step);
      d := StepUnder(d, cap[step], divisor, minDifficulty);
      total := SatAdd(total, d);
    }
  }

  // ── arithmetic ─────────────────────────────────────────────────────────────

  lemma RisenMonotone(a: nat, b: nat, divisor: nat)
    requires a <= b && divisor >= 2
    ensures Risen(a, divisor) <= Risen(b, divisor)
  {
    QuotMonotone(a, b, divisor);
  }

  lemma LiftMonotone(a: nat, b: nat, divisor: nat)
    requires a <= b && divisor >= 2
    ensures Lift(a, divisor) <= Lift(b, divisor)
  {
    QuotMonotone(a, b, divisor - 1);
    if a <= Quot(MAX, divisor) < b {
      LiftFits(a, divisor);
    }
  }

  lemma LiftFits(next: nat, divisor: nat)
    requires divisor >= 2
    ensures Fits(Lift(next, divisor))
  {
    if next <= Quot(MAX, divisor) {
      LiftIsCheckedProduct(next, divisor);
      ProductFits(next, divisor, MAX);
      QuotIsDivision(next * divisor, divisor - 1);
      QuotAtMost(next * divisor, divisor - 1);
    }
  }

  /** A parent that can fall to at most `next` is itself at most Lift(next): through
      the floor of the quotient and the saturation. */
  lemma FallInverse(parent: nat, next: nat, divisor: nat)
    requires divisor >= 2 && Fits(parent)
    requires parent - Quot(parent, divisor) <= next
    ensures parent <= Lift(next, divisor)
  {
    FallThenRise(parent, divisor);
    QuotMonotone(parent - Quot(parent, divisor), next, divisor - 1);
  }

  lemma StepBackUnderCap(parent: nat, child: nat, next: nat, divisor: nat, minDifficulty: nat)
    requires divisor >= 2 && Fits(parent)
    requires Step(parent, child, divisor, minDifficulty) && child <= next
    ensures parent <= Lift(next, divisor)
  {
    QuotAtMost(parent, divisor);
    FallInverse(parent, next, divisor);
  }

  /** One true step stays under one step of the walk taken from no lower. */
  lemma StepUnderAdvance(d: nat, parent: nat, child: nat, cap: nat, divisor: nat, minDifficulty: nat)
    requires divisor >= 2 && parent <= d && Fits(parent) && Fits(child)
    requires Step(parent, child, divisor, minDifficulty) && child <= cap
    ensures child <= Advance(d, cap, divisor, minDifficulty)
  {
    RisenMonotone(parent, d, divisor);
  }

  lemma AdvanceMonotone(a: nat, b: nat, capA: nat, capB: nat, divisor: nat, minDifficulty: nat)
    requires divisor >= 2 && a <= b && capA <= capB
    ensures Advance(a, capA, divisor, minDifficulty) <= Advance(b, capB, divisor, minDifficulty)
  {
    RisenMonotone(a, b, divisor);
  }

  // ── soundness ──────────────────────────────────────────────────────────────

  lemma {:induction false} FirstUnderCap(ds: seq<nat>, from: nat, to: nat, divisor: nat, minDifficulty: nat)
    requires divisor >= 2 && ds != [] && Chain(from, ds, divisor, minDifficulty)
    requires ds[|ds| - 1] <= to
    ensures ds[0] <= Cap(to, divisor, |ds| - 1)
  {
    if |ds| > 1 {
      FirstUnderCap(ds[1..], ds[0], to, divisor, minDifficulty);
      assert Step(ds[0], ds[1], divisor, minDifficulty) && Fits(ds[0]);
      StepBackUnderCap(ds[0], ds[1], Cap(to, divisor, |ds| - 2), divisor, minDifficulty);
    }
  }

  /** The bound holds for every chain the rule admits that arrives at or below `to`,
      walked from any difficulty no lower than the chain's start. */
  lemma {:induction false} ChainUnderWalk(
    d: nat, from: nat, ds: seq<nat>, to: nat, divisor: nat, minDifficulty: nat)
    requires divisor >= 2 && from <= d && Fits(from)
    requires Chain(from, ds, divisor, minDifficulty)
    requires ds != [] ==> ds[|ds| - 1] <= to
    ensures Min(Sum(ds), MAX) <= WalkWork(d, to, |ds|, divisor, minDifficulty)
    decreases |ds|
  {
    if ds != [] {
      FirstUnderCap(ds, from, to, divisor, minDifficulty);
      var cap := Cap(to, divisor, |ds| - 1);
      StepUnderAdvance(d, from, ds[0], cap, divisor, minDifficulty);
      ChainUnderWalk(Advance(d, cap, divisor, minDifficulty), ds[0], ds[1..], to, divisor, minDifficulty);
    }
  }

  /** Soundness of the bound: no chain of `|ds|` blocks after one of difficulty `from`,
      the last at most `to`, carries more work than MaxWork says. */
  lemma WorkIsBounded(from: nat, ds: seq<nat>, to: nat, divisor: nat, minDifficulty: nat)
    requires divisor >= 2 && Fits(from)
    requires Chain(from, ds, divisor, minDifficulty)
    requires ds != [] ==> ds[|ds| - 1] <= to
    ensures Min(Sum(ds), MAX) <= MaxWork(from, to, |ds|, divisor, minDifficulty)
  {
    ChainUnderWalk(from, from, ds, to, divisor, minDifficulty);
  }

  // ── where it does not hold ─────────────────────────────────────────────────

  /** A divisor of one lets difficulty double, but the bound answers zero. */
  lemma DivisorOneIsUnbounded()
    ensures Chain(5, [10], 1, 0) && MaxWork(5, 10, 1, 1, 0) < Sum([10])
  {
    assert Sum([10]) == 10 + Sum([]);
  }

  /** The pre-orchid ten-minute reset falls faster than a quotient, and a chain that
      uses it carries more than the bound allows. */
  lemma ResetBreaksTheBound(c: Config, early: Fields, late: Fields, parent: Fields)
    requires c.difficultyDivisor == 50 && c.minDifficulty == 10 && c.orchid == 100 && c.papyrus200 == 100
    requires parent == Fields(1, 1000, 0, 1000)
    requires early == Fields(2, 900, 0, 1000) && late == Fields(3, 1500, 0, 10)
    ensures ExpectedDifficulty(c, early, parent) == early.difficulty
    ensures ExpectedDifficulty(c, late, early) == late.difficulty
    ensures MaxWork(1000, 10, 2, 50, 10) < Sum([early.difficulty, late.difficulty])
  {
    assert Cap(10, 50, 0) == 10;
    assert Cap(10, 50, 1) == 10;
    assert WalkWork(1000, 10, 2, 50, 10) == SatAdd(10, WalkWork(10, 10, 1, 50, 10));
    assert WalkWork(10, 10, 1, 50, 10) == SatAdd(10, 0);
    assert Sum([1000, 10]) == 1010 by {
      assert [1000, 10][1..] == [10] && [10][1..] == [];
    }
  }

  lemma SumOfTwo(a: nat, b: nat)
    ensures Sum([a, b]) == a + b
  {
    assert [a, b][1..] == [b] && [b][1..] == [];
    assert Sum([b]) == b + Sum([]);
  }

  /** A rise past 256 bits wraps to a small value, and then the bound is too low. */
  lemma WrapBreaksTheBound(c: Config, flat: Fields, wrapped: Fields, parent: Fields)
    requires c == Config(0, 0, 50, 14, 10)
    requires parent == Fields(1, 1000, 0, MAX)
    requires flat == Fields(2, 1014, 0, MAX) && wrapped == Fields(3, 1014, 0, MAX / 400 - 1)
    ensures ExpectedDifficulty(c, flat, parent) == flat.difficulty
    ensures ExpectedDifficulty(c, wrapped, flat) == wrapped.difficulty
    ensures MaxWork(MAX, wrapped.difficulty, 2, DivisorAt(c, 3),
            c.minDifficulty) < MAX < Sum([flat.difficulty, wrapped.difficulty])
  {
    var w := wrapped.difficulty;
    SumOfTwo(MAX, w);
    QuotIsDivision(flat.difficulty, DivisorAt(c, 3));
    QuotIsDivision(flat.difficulty, c.difficultyDivisor);
    TwoStepsAtMost(flat.difficulty, w, DivisorAt(c, 3), c.minDifficulty);
    QuotAtMost(w, DivisorAt(c, 3) - 1);
  }

  lemma TwoStepsAtMost(from: nat, to: nat, divisor: nat, minDifficulty: nat)
    requires divisor >= 2 && minDifficulty <= to <= Quot(MAX, divisor)
    ensures MaxWork(from, to, 2, divisor, minDifficulty) <= 2 * to + Quot(to, divisor - 1)
  {
    assert Cap(to, divisor, 1) == Lift(Cap(to, divisor, 0), divisor) == to + Quot(to, divisor - 1);
    var d := Advance(from, Cap(to, divisor, 1), divisor, minDifficulty);
    assert WalkWork(from, to, 2, divisor, minDifficulty) == SatAdd(d, WalkWork(d, to, 1, divisor, minDifficulty));
    assert WalkWork(d, to, 1, divisor, minDifficulty) == SatAdd(Advance(d, to, divisor, minDifficulty), 0);
  }

  // ── sampling never loosens the bound ───────────────────────────────────────

  lemma {:induction false} CapMonotone(a: nat, b: nat, divisor: nat, back: nat)
    requires divisor >= 2 && a <= b
    ensures Cap(a, divisor, back) <= Cap(b, divisor, back)
  {
    if back > 0 {
      CapMonotone(a, b, divisor, back - 1);
      LiftMonotone(Cap(a, divisor, back - 1), Cap(b, divisor, back - 1), divisor);
    }
  }

  lemma {:induction false} CapComposes(to: nat, divisor: nat, a: nat, b: nat)
    requires divisor >= 2
    ensures Cap(Cap(to, divisor, a), divisor, b) == Cap(to, divisor, a + b)
  {
    if b > 0 {
      CapComposes(to, divisor, a, b - 1);
    }
  }

  lemma {:induction false} WalkMonotone(a: nat, b: nat, toA: nat, toB: nat, span: nat, divisor: nat, minDifficulty: nat)
    requires divisor >= 2 && a <= b && toA <= toB
    ensures WalkWork(a, toA, span, divisor, minDifficulty) <= WalkWork(b, toB, span, divisor, minDifficulty)
    decreases span
  {
    if span > 0 {
      var capA, capB := Cap(toA, divisor, span - 1), Cap(toB, divisor, span - 1);
      CapMonotone(toA, toB, divisor, span - 1);
      AdvanceMonotone(a, b, capA, capB, divisor, minDifficulty);
      WalkMonotone(Advance(a, capA, divisor, minDifficulty), Advance(b, capB, divisor, minDifficulty),
                   toA, toB, span - 1, divisor, minDifficulty);
    }
  }

  /** Walking to `mid` and on from there never exceeds one walk, when `mid` is the
      difficulty some admissible chain `ds` has after `|ds|` blocks and is low enough to
      reach `to` in the `rest` blocks that remain. */
  lemma {:induction false} SplitWalk(
    d: nat, d': nat, from: nat, ds: seq<nat>, mid: nat, to: nat, rest: nat, divisor: nat, minDifficulty: nat)
    requires divisor >= 2 && Fits(from) && from <= d' && d <= d'
    requires ds != [] && Chain(from, ds, divisor, minDifficulty)
    requires mid == ds[|ds| - 1] <= Cap(to, divisor, rest)
    ensures SatAdd(WalkWork(d, mid, |ds|, divisor, minDifficulty), WalkWork(mid, to, rest, divisor, minDifficulty))
         <= WalkWork(d', to, |ds| + rest, divisor, minDifficulty)
    decreases |ds|, 1
  {
    var back := |ds| - 1;
    SplitStep(d, d', from, ds, to, rest, divisor, minDifficulty);
    if back == 0 {
      SplitLast(d, d', mid, to, rest, divisor, minDifficulty);
    } else {
      var next := Advance(d, Cap(mid, divisor, back), divisor, minDifficulty);
      var next' := Advance(d', Cap(to, divisor, back + rest), divisor, minDifficulty);
      SplitTail(next, next', from, ds, mid, to, rest, divisor, minDifficulty);
      SplitRest(d, d', mid, to, back, rest, divisor, minDifficulty);
    }
  }

  /** The same for the chain after its first block. */
  lemma {:induction false} SplitTail(
    d: nat, d': nat, from: nat, ds: seq<nat>, mid: nat, to: nat, rest: nat, divisor: nat, minDifficulty: nat)
    requires divisor >= 2 && |ds| > 1 && Chain(from, ds, divisor, minDifficulty) && ds[0] <= d' && d <= d'
    requires mid == ds[|ds| - 1] <= Cap(to, divisor, rest)
    ensures SatAdd(WalkWork(d, mid, |ds| - 1, divisor, minDifficulty), WalkWork(mid, to, rest, divisor, minDifficulty))
         <= WalkWork(d', to, |ds| - 1 + rest, divisor, minDifficulty)
    decreases |ds|, 0
  {
    SplitWalk(d, d', ds[0], ds[1..], mid, to, rest, divisor, minDifficulty);
  }

  lemma SplitRest(d: nat, d': nat, mid: nat, to: nat, back: nat, rest: nat, divisor: nat, minDifficulty: nat)
    requires divisor >= 2 && back > 0
    requires var next := Advance(d, Cap(mid, divisor, back), divisor, minDifficulty);
             var next' := Advance(d', Cap(to, divisor, back + rest), divisor, minDifficulty);
             && next <= next'
             && SatAdd(WalkWork(next, mid, back, divisor, minDifficulty),
               WalkWork(mid, to, rest, divisor, minDifficulty))
                <= WalkWork(next', to, back + rest, divisor, minDifficulty)
    ensures SatAdd(WalkWork(d, mid, back + 1, divisor, minDifficulty), WalkWork(mid, to, rest, divisor, minDifficulty))
         <= WalkWork(d', to, back + 1 + rest, divisor, minDifficulty)
  {
    var next := Advance(d, Cap(mid, divisor, back), divisor, minDifficulty);
    var next' := Advance(d', Cap(to, divisor, back + rest), divisor, minDifficulty);
    SatAddNested(next, WalkWork(next, mid, back, divisor, minDifficulty),
                 WalkWork(mid, to, rest, divisor, minDifficulty),
                 next', WalkWork(next', to, back + rest, divisor, minDifficulty));
  }

  lemma SplitLast(d: nat, d': nat, mid: nat, to: nat, rest: nat, divisor: nat, minDifficulty: nat)
    requires divisor >= 2
    requires Advance(d, Cap(mid, divisor, 0), divisor, minDifficulty) <= Advance(d', Cap(to, divisor, rest), divisor,
             minDifficulty)
    requires mid <= Advance(d', Cap(to, divisor, rest), divisor, minDifficulty)
    ensures SatAdd(WalkWork(d, mid, 1, divisor, minDifficulty), WalkWork(mid, to, rest, divisor, minDifficulty))
         <= WalkWork(d', to, 1 + rest, divisor, minDifficulty)
  {
    var next := Advance(d, Cap(mid, divisor, 0), divisor, minDifficulty);
    var next' := Advance(d', Cap(to, divisor, rest), divisor, minDifficulty);
    WalkMonotone(mid, next', to, to, rest, divisor, minDifficulty);
    SatAddNested(next, 0, WalkWork(mid, to, rest, divisor, minDifficulty),
                 next', WalkWork(next', to, rest, divisor, minDifficulty));
  }

  lemma SatAddNested(a: nat, x: nat, y: nat, b: nat, z: nat)
    requires a <= b && SatAdd(x, y) <= z
    ensures SatAdd(SatAdd(a, x), y) <= SatAdd(b, z)
  {
  }

  /** The first step of both walks: the one under the nearer target stays lower, and the
      other stays above the chain. */
  lemma SplitStep(
    d: nat, d': nat, from: nat, ds: seq<nat>, to: nat, rest: nat, divisor: nat, minDifficulty: nat)
    requires divisor >= 2 && Fits(from) && from <= d' && d <= d'
    requires ds != [] && Chain(from, ds, divisor, minDifficulty)
    requires ds[|ds| - 1] <= Cap(to, divisor, rest)
    ensures Advance(d, Cap(ds[|ds| - 1], divisor, |ds| - 1), divisor, minDifficulty)
         <= Advance(d', Cap(to, divisor, |ds| - 1 + rest), divisor, minDifficulty)
    ensures ds[0] <= Advance(d', Cap(to, divisor, |ds| - 1 + rest), divisor, minDifficulty)
  {
    var mid := ds[|ds| - 1];
    var back := |ds| - 1;
    var cap, cap' := Cap(mid, divisor, back), Cap(to, divisor, back + rest);
    CapMonotone(mid, Cap(to, divisor, rest), divisor, back);
    CapComposes(to, divisor, rest, back);
    AdvanceMonotone(d, d', cap, cap', divisor, minDifficulty);
    FirstUnderCap(ds, from, mid, divisor, minDifficulty);
    StepUnderAdvance(d', from, ds[0], cap', divisor, minDifficulty);
  }

  lemma {:induction false} ChainSplit(from: nat, ds: seq<nat>, k: nat, divisor: nat, minDifficulty: nat)
    requires divisor > 0 && k <= |ds|
    ensures Chain(from, ds, divisor, minDifficulty)
        <==> && Chain(from, ds[..k], divisor, minDifficulty)
             && Chain(if k == 0 then from else ds[k - 1], ds[k..], divisor, minDifficulty)
    decreases k
  {
    if k == 0 {
      assert ds[..0] == [] && ds[0..] == ds;
    } else {
      ChainSplit(ds[0], ds[1..], k - 1, divisor, minDifficulty);
      assert ds[..k][1..] == ds[1..][..k - 1] && ds[1..][k - 1..] == ds[k..];
    }
  }

  lemma MiddleUnderCap(from: nat, ds: seq<nat>, k: nat, to: nat, divisor: nat, minDifficulty: nat)
    requires divisor >= 2 && Chain(from, ds, divisor, minDifficulty)
    requires 0 < k <= |ds| && ds[|ds| - 1] <= to
    ensures ds[k - 1] <= Cap(to, divisor, |ds| - k)
  {
    var rest := ds[k - 1..];
    ChainSplit(from, ds, k - 1, divisor, minDifficulty);
    FirstUnderCap(rest, if k == 1 then from else ds[k - 2], to, divisor, minDifficulty);
  }

  /** Taking one more sample never loosens the ceiling: the bounds of the two halves add
      up to at most the unsplit bound, for a sample on any chain the rule admits. */
  lemma SamplingNeverLoosens(from: nat, ds: seq<nat>, k: nat, to: nat, divisor: nat, minDifficulty: nat)
    requires divisor >= 2 && Fits(from)
    requires Chain(from, ds, divisor, minDifficulty)
    requires 0 < k <= |ds| && ds[|ds| - 1] <= to
    ensures SatAdd(MaxWork(from, ds[k - 1], k, divisor, minDifficulty),
                   MaxWork(ds[k - 1], to, |ds| - k, divisor, minDifficulty))
         <= MaxWork(from, to, |ds|, divisor, minDifficulty)
  {
    MiddleUnderCap(from, ds, k, to, divisor, minDifficulty);
    FrontIsChain(from, ds, k, divisor, minDifficulty);
    var front, mid := ds[..k], ds[k - 1];
    SplitFront(from, front, mid, to, |ds| - k, divisor, minDifficulty);
  }

  lemma FrontIsChain(from: nat, ds: seq<nat>, k: nat, divisor: nat, minDifficulty: nat)
    requires divisor > 0 && k <= |ds| && Chain(from, ds, divisor, minDifficulty)
    ensures Chain(from, ds[..k], divisor, minDifficulty)
  {
    ChainSplit(from, ds, k, divisor, minDifficulty);
  }

  lemma SplitFront(from: nat, front: seq<nat>, mid: nat, to: nat, rest: nat, divisor: nat, minDifficulty: nat)
    requires divisor >= 2 && Fits(from) && front != [] && Chain(from, front, divisor, minDifficulty)
    requires mid == front[|front| - 1] <= Cap(to, divisor, rest)
    ensures SatAdd(MaxWork(from, mid, |front|, divisor, minDifficulty), MaxWork(mid, to, rest, divisor, minDifficulty))
         <= MaxWork(from, to, |front| + rest, divisor, minDifficulty)
  {
    SplitWalk(from, from, from, front, mid, to, rest, divisor, minDifficulty);
  }

  // ── past the last sample the bound is exact ────────────────────────────────

  /** The steepest chain: every block rises by the whole quotient. */
  function Rising(from: nat, span: nat, divisor: nat, minDifficulty: nat): seq<nat>
    requires divisor >= 2
    decreases span
  {
    if span == 0 then []
    else
      var next := Clamp(from + Quot(from, divisor), minDifficulty);
      [next] + Rising(next, span - 1, divisor, minDifficulty)
  }

  lemma {:induction false} CapOfMax(divisor: nat, back: nat)
    requires divisor >= 2
    ensures Cap(MAX, divisor, back) == MAX
  {
    if back > 0 {
      CapOfMax(divisor, back - 1);
      ProductFits(MAX, divisor, MAX);
      ProductMonotone(MAX, 2, divisor);
    }
  }

  lemma {:induction false} RisingIsChain(from: nat, span: nat, divisor: nat, minDifficulty: nat)
    requires divisor >= 2
    requires forall d :: d in Rising(from, span, divisor, minDifficulty) ==> Fits(d)
    ensures Chain(from, Rising(from, span, divisor, minDifficulty), divisor, minDifficulty)
    decreases span
  {
    if span > 0 {
      var next := Clamp(from + Quot(from, divisor), minDifficulty);
      var rest := Rising(next, span - 1, divisor, minDifficulty);
      var ds := [next] + rest;
      assert Rising(from, span, divisor, minDifficulty) == ds && ds[1..] == rest;
      assert next in ds && forall d :: d in rest ==> d in ds;
      RisingIsChain(next, span - 1, divisor, minDifficulty);
    }
  }

  /** With no later sample to aim for, the bound is the greatest work any admissible
      chain has: the rising chain (admissible by RisingIsChain) carries exactly that. */
  lemma {:induction false} TailBoundIsAttained(from: nat, span: nat, divisor: nat, minDifficulty: nat)
    requires divisor >= 2
    requires forall d :: d in Rising(from, span, divisor, minDifficulty) ==> Fits(d)
    ensures MaxWork(from, MAX, span, divisor, minDifficulty)
         == Min(Sum(Rising(from, span, divisor, minDifficulty)), MAX)
    decreases span
  {
    if span > 0 {
      var next := Clamp(from + Quot(from, divisor), minDifficulty);
      var rest := Rising(next, span - 1, divisor, minDifficulty);
      var ds := [next] + rest;
      assert Rising(from, span, divisor, minDifficulty) == ds && ds[1..] == rest;
      assert next in ds && forall d :: d in rest ==> d in ds;
      TailBoundIsAttained(next, span - 1, divisor, minDifficulty);
      TailStep(from, next, rest, span, divisor, minDifficulty);
    }
  }

  lemma TailStep(from: nat, next: nat, rest: seq<nat>, span: nat, divisor: nat, minDifficulty: nat)
    requires divisor >= 2 && span > 0 && next == Clamp(from + Quot(from, divisor), minDifficulty) && Fits(next)
    requires WalkWork(next, MAX, span - 1, divisor, minDifficulty) == Min(Sum(rest), MAX)
    ensures WalkWork(from, MAX, span, divisor, minDifficulty) == Min(Sum([next] + rest), MAX)
  {
    UncappedStep(from, next, span, divisor, minDifficulty);
    assert ([next] + rest)[1..] == rest;
  }

  lemma UncappedStep(from: nat, next: nat, span: nat, divisor: nat, minDifficulty: nat)
    requires divisor >= 2 && span > 0 && next == Clamp(from + Quot(from, divisor), minDifficulty) && Fits(next)
    ensures WalkWork(from, MAX, span, divisor, minDifficulty)
         == SatAdd(next, WalkWork(next, MAX, span - 1, divisor, minDifficulty))
  {
    CapOfMax(divisor, span - 1);
    assert Advance(from, MAX, divisor, minDifficulty) == next;
  }

  // ── between two difficulties the bound is exact on the steepest fall ───────

  /** What the cap inverts: a parent is under it exactly when its whole fall arrives at or
      below `next`. */
  lemma LiftIsInverse(parent: nat, next: nat, divisor: nat)
    requires divisor >= 2 && next * divisor < LIMIT
    ensures parent <= next * divisor / (divisor - 1) <==> parent - parent / divisor <= next
  {
    ScaleUp(next, divisor);
    QuotIsDivision(parent, divisor);
    var k := Quot(next, divisor - 1);
    QuotBounds(next, divisor - 1);
    WholeFall(next, k, divisor);
    if parent <= next + k {
      FallMonotone(parent, next + k, divisor);
    } else {
      FallMonotone(next + k + 1, parent, divisor);
    }
  }

  lemma WholeFall(next: nat, k: nat, divisor: nat)
    requires divisor >= 2 && (divisor - 1) * k <= next < (divisor - 1) * k + (divisor - 1)
    ensures next + k - Quot(next + k, divisor) == next
    ensures next + k + 1 - Quot(next + k + 1, divisor) == next + 1
  {
    assert divisor * k == (divisor - 1) * k + k;
    QuotBounds(next + k, divisor);
    QuotUnique(next + k, divisor, Quot(next + k, divisor), k);
    QuotBounds(next + k + 1, divisor);
    QuotUnique(next + k + 1, divisor, Quot(next + k + 1, divisor), k);
  }

  /** A higher parent never falls to less. */
  lemma {:induction false} FallMonotone(a: nat, b: nat, divisor: nat)
    requires a <= b && divisor >= 2
    ensures a - Quot(a, divisor) <= b - Quot(b, divisor)
    decreases b
  {
    if a < b {
      FallMonotone(a, b - 1, divisor);
      QuotOneMore(b, divisor);
    }
  }

  lemma {:induction false} QuotOneMore(b: nat, divisor: nat)
    requires b > 0 && divisor >= 2
    ensures Quot(b, divisor) <= Quot(b - 1, divisor) + 1
  {
    if b > divisor {
      QuotOneMore(b - divisor, divisor);
    }
  }

  /** The chain that falls by the whole quotient at every block and arrives at `to`. */
  function Falling(to: nat, span: nat, divisor: nat): seq<nat>
    requires divisor >= 2
  {
    if span == 0 then [] else [Cap(to, divisor, span - 1)] + Falling(to, span - 1, divisor)
  }

  /** No cap on the way saturates. */
  predicate CapsFit(to: nat, span: nat, divisor: nat)
    requires divisor >= 2
  {
    Fits(to) && forall back :: 0 <= back < span ==> Cap(to, divisor, back) * divisor < LIMIT
  }

  lemma CapFallsBack(to: nat, back: nat, divisor: nat)
    requires divisor >= 2 && Cap(to, divisor, back) * divisor < LIMIT
    ensures Cap(to, divisor, back + 1) >= Cap(to, divisor, back)
    ensures Cap(to, divisor, back + 1) - Quot(Cap(to, divisor, back + 1), divisor) == Cap(to, divisor, back)
    ensures Quot(Cap(to, divisor, back + 1), divisor) <= Cap(to, divisor, back + 1)
  {
    var next := Cap(to, divisor, back);
    ProductFits(next, divisor, MAX);
    QuotBounds(next, divisor - 1);
    WholeFall(next, Quot(next, divisor - 1), divisor);
    QuotAtMost(Cap(to, divisor, back + 1), divisor);
  }

  lemma {:induction false} CapsAbove(to: nat, back: nat, divisor: nat)
    requires divisor >= 2 && CapsFit(to, back, divisor)
    ensures to <= Cap(to, divisor, back) && Fits(Cap(to, divisor, back))
  {
    if back > 0 {
      CapsAbove(to, back - 1, divisor);
      CapFallsBack(to, back - 1, divisor);
      LiftFits(Cap(to, divisor, back - 1), divisor);
    }
  }

  /** Started at the highest difficulty from which `to` can be reached, the bound is the work
      of that chain, which the rule admits: with a later sample too it cannot be lowered. */
  lemma {:induction false} FallBoundIsAttained(to: nat, span: nat, divisor: nat, minDifficulty: nat)
    requires divisor >= 2 && minDifficulty <= to && CapsFit(to, span, divisor)
    ensures Chain(Cap(to, divisor, span), Falling(to, span, divisor), divisor, minDifficulty)
    ensures span > 0 ==> |Falling(to, span, divisor)| == span && Falling(to, span, divisor)[span - 1] == to
    ensures MaxWork(Cap(to, divisor, span), to, span, divisor, minDifficulty)
            == Min(Sum(Falling(to, span, divisor)), MAX)
  {
    if span > 0 {
      var next := Cap(to, divisor, span - 1);
      var rest := Falling(to, span - 1, divisor);
      FallBoundIsAttained(to, span - 1, divisor, minDifficulty);
      CapsAbove(to, span - 1, divisor);
      CapFallsBack(to, span - 1, divisor);
      assert ([next] + rest)[1..] == rest;
      FallStep(to, span, divisor, minDifficulty, rest);
    }
  }

  lemma FallStep(to: nat, span: nat, divisor: nat, minDifficulty: nat, rest: seq<nat>)
    requires divisor >= 2 && span > 0 && minDifficulty <= to <= Cap(to, divisor, span - 1) <= Cap(to, divisor, span)
    requires Fits(Cap(to, divisor, span - 1))
    requires MaxWork(Cap(to, divisor, span - 1), to, span - 1, divisor, minDifficulty) == Min(Sum(rest), MAX)
    ensures MaxWork(Cap(to, divisor, span), to, span, divisor, minDifficulty)
         == Min(Sum([Cap(to, divisor, span - 1)] + rest), MAX)
  {
    var from, next := Cap(to, divisor, span), Cap(to, divisor, span - 1);
    assert Advance(from, next, divisor, minDifficulty) == next;
    assert WalkWork(from, to, span, divisor, minDifficulty)
        == SatAdd(next, WalkWork(next, to, span - 1, divisor, minDifficulty));
    assert ([next] + rest)[1..] == rest;
  }
}
