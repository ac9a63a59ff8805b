/** Where the ceiling stops being one: sample lists on which the mean of the uncle counts is
    not enough, and claims past the scale's saturation. */
module CeilingLimits {
  import opened Quotient
  import opened Retarget
  import opened U256
  import opened UncleAllowance
  import opened WorkBound
  import opened WorkCeiling

  // ── a mean is not enough ───────────────────────────────────────────────────

  /** Samples at every second height, of difficulty one and without uncles. */
  function EverySecond(at: nat, k: nat): (samples: seq<Sample>)
    ensures |samples| == k
    decreases k
  {
    if k == 0 then [] else [Sample(at + 2, 1, 0)] + EverySecond(at + 2, k - 1)
  }

  function Repeated(x: nat, n: nat): (s: seq<nat>)
    ensures |s| == n
  {
    seq(n, _ => x)
  }

  /** Pairs of blocks of difficulty one, the first with uncles worth `extra`, the second,
      which is sampled, without. */
  function Pairs(extra: nat, k: nat): (work: seq<nat>)
    ensures |work| == 2 * k
    ensures forall i :: 0 <= i < |work| && i % 2 == 1 ==> work[i] == 1
  {
    if k == 0 then [] else [1 + extra, 1] + Pairs(extra, k - 1)
  }

  lemma {:induction false} SumOfRepeated(x: nat, n: nat)
    ensures Sum(Repeated(x, n)) == n * x
  {
    if n > 0 {
      assert Repeated(x, n)[1..] == Repeated(x, n - 1);
      SumOfRepeated(x, n - 1);
      assert n * x == x + (n - 1) * x;
    }
  }

  lemma {:induction false} SumOfPairs(extra: nat, k: nat)
    ensures Sum(Pairs(extra, k)) == k * (2 + extra)
  {
    if k > 0 {
      var rest := Pairs(extra, k - 1);
      var s := [1 + extra, 1] + rest;
      SumOfPairs(extra, k - 1);
      assert s[1..] == [1] + rest && ([1] + rest)[1..] == rest;
      assert k * (2 + extra) == (2 + extra) + (k - 1) * (2 + extra);
    }
  }

  lemma SumOfJoined(a: seq<nat>, b: seq<nat>)
    ensures Sum(a + b) == Sum(a) + Sum(b)
  {
    SumSplit(a + b, |a|);
    assert (a + b)[..|a|] == a && (a + b)[|a|..] == b;
  }

  /** A thousand samples without uncles still allow for 0.654 of a block's worth. */
  lemma AllowanceOfNone(samples: seq<Sample>, k: nat)
    requires k == 1_000 && |samples| == k && forall s :: s in samples ==> s.uncleCount == 0
    ensures AllowancePerMille(samples) == 1_654
  {
    var counts := Counts(samples);
    forall i | 0 <= i < k ensures counts[i] == 0 {
      assert samples[i] in samples;
    }
    assert counts == Repeated(0, k);
    SumOfRepeated(0, k);
    NoDeviation(counts);
    QuotIsDivision(0, k);
    QuotIsDivision(0, k - 1);
    QuotIsDivision(0, 1_000 * k);
    QuotIsDivision(3 * (UNCLE_LIST_LIMIT * 1_000) * LN_3_OVER_DELTA_PER_MILLE, 1_000 * k);
  }

  lemma {:induction false} NoDeviation(counts: seq<nat>)
    requires forall c :: c in counts ==> c == 0
    ensures SquaredDeviations(counts, 0) == 0
  {
    if counts != [] {
      assert counts[0] in counts && forall c :: c in counts[1..] ==> c in counts;
      NoDeviation(counts[1..]);
    }
  }

  lemma {:induction false} FlatChain(n: nat, p: Params)
    requires p.divisor >= 2 && p.minDifficulty <= 1
    ensures Chain(1, Repeated(1, n), p.divisor, p.minDifficulty)
  {
    if n > 0 {
      assert Repeated(1, n)[1..] == Repeated(1, n - 1);
      FlatChain(n - 1, p);
    }
  }

  /** Two flat blocks of difficulty one are bounded by two. */
  lemma FlatPair(at: nat, p: Params)
    requires p.divisor >= 2 && p.minDifficulty <= 1
    ensures GapBound(Gap(at, 2, 1, 1), p) == 2
  {
    var d, m := p.divisor, p.minDifficulty;
    assert Quot(1, d) == 0;
    assert Cap(1, d, 1) >= Cap(1, d, 0) == 1;
    assert Advance(1, Cap(1, d, 1), d, m) == 1 && Advance(1, Cap(1, d, 0), d, m) == 1;
    assert WalkWork(1, 1, 1, d, m) == 1;
  }

  lemma FirstPair(at: nat, rest: seq<Gap>, total: nat, p: Params)
    requires p.divisor >= 2 && p.minDifficulty <= 1 && total + 3 <= MAX
    ensures AddGaps(total, [Gap(at, 2, 1, 1)] + rest, 1_654, p) == AddGaps(total + 3, rest, 1_654, p)
  {
    FlatPair(at, p);
    var gaps := [Gap(at, 2, 1, 1)] + rest;
    assert gaps[1..] == rest && Scale(2, 1_654) == 3;
  }

  lemma SecondGapsStep(at: nat, k: nat)
    requires k > 0
    ensures Gaps(at, 1, EverySecond(at, k), at + 2 * k)
         == [Gap(at, 2, 1, 1)] + Gaps(at + 2, 1, EverySecond(at + 2, k - 1), at + 2 * k)
    ensures Covered(at, EverySecond(at, k), at + 2 * k) == Covered(at + 2, EverySecond(at + 2, k - 1), at + 2 * k)
  {
    assert EverySecond(at, k)[1..] == EverySecond(at + 2, k - 1);
  }

  lemma {:induction false} SecondCovered(at: nat, k: nat)
    ensures Covered(at, EverySecond(at, k), at + 2 * k) == at + 2 * k
    decreases k
  {
    if k > 0 {
      SecondGapsStep(at, k);
      SecondCovered(at + 2, k - 1);
    }
  }

  lemma {:induction false} SecondGaps(at: nat, k: nat, head: nat, total: nat, p: Params)
    requires p.divisor >= 2 && p.minDifficulty <= 1 && total + 3 * k <= MAX && head == at + 2 * k
    ensures AddGaps(total, Gaps(at, 1, EverySecond(at, k), head), 1_654, p) == total + 3 * k
    decreases k
  {
    if k > 0 {
      var rest := Gaps(at + 2, 1, EverySecond(at + 2, k - 1), head);
      SecondGaps(at + 2, k - 1, head, total + 3, p);
      FirstPair(at, rest, total, p);
      SecondGapsStep(at, k);
    }
  }

  /** The gaps' bounds before the allowance. */
  function BoundTotal(gaps: seq<Gap>, p: Params): nat
    decreases |gaps|
  {
    if gaps == [] then 0 else GapBound(gaps[0], p) + BoundTotal(gaps[1..], p)
  }

  lemma PairDrops(at: nat, p: Params)
    requires p.divisor >= 2 && p.minDifficulty <= 1
    ensures Left(Gap(at, 2, 1, 1), 1_654, p) == 308
  {
    FlatPair(at, p);
  }

  /** What the divisions of those gaps drop, and what their bounds are. */
  lemma {:induction false} SecondDropped(at: nat, k: nat, head: nat, p: Params)
    requires p.divisor >= 2 && p.minDifficulty <= 1 && head == at + 2 * k
    ensures Dropped(Gaps(at, 1, EverySecond(at, k), head), 1_654, p) == 308 * k
    ensures BoundTotal(Gaps(at, 1, EverySecond(at, k), head), p) == 2 * k
    decreases k
  {
    if k > 0 {
      var first, rest := Gap(at, 2, 1, 1), Gaps(at + 2, 1, EverySecond(at + 2, k - 1), head);
      SecondDropped(at + 2, k - 1, head, p);
      SecondGapsStep(at, k);
      PairDrops(at, p);
      FlatPair(at, p);
      assert ([first] + rest)[1..] == rest;
    }
  }

  lemma {:induction false} SecondSamples(at: nat, k: nat, s: Sample)
    requires s in EverySecond(at, k)
    ensures at < s.number <= at + 2 * k && s.difficulty == 1 && s.uncleCount == 0 && (s.number - at) % 2 == 0
    decreases k
  {
    var rest := EverySecond(at + 2, k - 1);
    if s in rest {
      SecondSamples(at + 2, k - 1, s);
    }
  }

  lemma SampledBlocks(samples: seq<Sample>, work: seq<nat>, k: nat)
    requires samples == EverySecond(0, k) && |work| == 2 * k
    requires forall i :: 0 <= i < |work| && i % 2 == 1 ==> work[i] == 1
    ensures forall s :: s in samples ==>
              s.uncleCount == 0 && 0 < s.number <= |work| && s.difficulty == 1 && work[s.number - 1] == s.difficulty
  {
    forall s | s in samples
      ensures s.uncleCount == 0 && 0 < s.number <= |work| && s.difficulty == 1 && work[s.number - 1] == s.difficulty
    {
      SecondSamples(0, k, s);
      assert (s.number - 1) % 2 == 1;
    }
  }

  lemma FlatTrueChain(samples: seq<Sample>, work: seq<nat>, k: nat, p: Params)
    requires p.divisor >= 2 && p.minDifficulty <= 1 && samples == EverySecond(0, k) && |work| == 2 * k
    requires forall s :: s in samples ==> 0 < s.number <= 2 * k && s.difficulty == 1
    ensures TrueChain(Checkpoint(0, 0, 1), samples, 2 * k, Repeated(1, 2 * k), work, p)
  {
    FlatChain(2 * k, p);
    SecondCovered(0, k);
  }

  /** The work: some unsampled blocks with two uncles, the others with one. */
  lemma UnevenWork(hot: nat, cool: nat) returns (work: seq<nat>)
    ensures |work| == 2 * (hot + cool) && Sum(work) == 4 * hot + 3 * cool
    ensures forall i :: 0 <= i < |work| && i % 2 == 1 ==> work[i] == 1
  {
    var a, b := Pairs(2, hot), Pairs(1, cool);
    work := a + b;
    SumOfPairs(2, hot);
    SumOfPairs(1, cool);
    SumOfJoined(a, b);
    OddsStay(a, b);
  }

  lemma OddsStay(a: seq<nat>, b: seq<nat>)
    requires |a| % 2 == 0
    requires forall i :: 0 <= i < |a| && i % 2 == 1 ==> a[i] == 1
    requires forall i :: 0 <= i < |b| && i % 2 == 1 ==> b[i] == 1
    ensures forall i :: 0 <= i < |a + b| && i % 2 == 1 ==> (a + b)[i] == 1
  {
    forall i | 0 <= i < |a + b| && i % 2 == 1 ensures (a + b)[i] == 1 {
      if i >= |a| {
        assert (a + b)[i] == b[i - |a|];
      }
    }
  }

  lemma FlatCeiling(samples: seq<Sample>, k: nat, p: Params)
    requires p.divisor >= 2 && p.minDifficulty <= 1 && samples == EverySecond(0, k) && k == 1_000
    requires forall s :: s in samples ==> s.uncleCount == 0
    ensures AllowancePerMille(samples) == 1_654
    ensures Ceiling(Checkpoint(0, 0, 1), samples, 2 * k, p) == 3 * k
  {
    AllowanceOfNone(samples, k);
    SecondGaps(0, k, 2 * k, 0, p);
  }

  /** The slack of the mean is needed: an honest chain of 2000 blocks of difficulty one,
      sampled at every second height, none of its sampled blocks with uncles, its work
      within the allowance on average, is judged Impossible. What is lost is the remainder
      each gap's division drops. */
  lemma AverageNeedsTheSlack(p: Params, k: nat) returns (samples: seq<Sample>, trunk: seq<nat>, work: seq<nat>)
    requires p.divisor >= 2 && p.minDifficulty <= 1 && k == 1_000
    ensures TrueChain(Checkpoint(0, 0, 1), samples, 2 * k, trunk, work, p)
    ensures forall s :: s in samples ==>
              s.uncleCount == 0 && 0 < s.number <= |work| && work[s.number - 1] == s.difficulty
    ensures 1_000 * Sum(work) <= AllowancePerMille(samples) * Sum(trunk)
    ensures Ceiling(Checkpoint(0, 0, 1), samples, 2 * k, p) == 3_000 && Sum(work) == 3_308
    ensures Dropped(Gaps(0, 1, samples, 2 * k), AllowancePerMille(samples), p) == 308_000
    ensures Sum(trunk) == BoundTotal(Gaps(0, 1, samples, 2 * k), p)
    ensures VerdictOf(Sum(work), Ceiling(Checkpoint(0, 0, 1), samples, 2 * k, p)).Impossible?
  {
    samples := EverySecond(0, k);
    trunk := Repeated(1, 2 * k);
    work := UnevenWork(308, k - 308);
    SampledBlocks(samples, work, k);
    FlatTrueChain(samples, work, k, p);
    SumOfRepeated(1, 2 * k);
    FlatCeiling(samples, k, p);
    SecondDropped(0, k, 2 * k, p);
  }

  /** Nothing but what the divisions drop is lost. */
  lemma {:induction false} ScaledAndDropped(gaps: seq<Gap>, allowance: nat, p: Params)
    requires ScalesFit(gaps, allowance, p)
    ensures allowance * BoundTotal(gaps, p) == 1_000 * ScaledTotal(gaps, allowance, p) + Dropped(gaps, allowance, p)
    decreases |gaps|
  {
    if gaps != [] {
      ScaledAndDropped(gaps[1..], allowance, p);
      ScaledAndLeft(gaps[0], allowance, p);
      JoinScaled(allowance, GapBound(gaps[0], p), BoundTotal(gaps[1..], p), Scale(GapBound(gaps[0], p), allowance),
                 ScaledTotal(gaps[1..], allowance, p), Left(gaps[0], allowance, p), Dropped(gaps[1..], allowance, p));
    }
  }

  lemma ScaledAndLeft(g: Gap, allowance: nat, p: Params)
    requires Fits(GapBound(g, p) * allowance)
    ensures GapBound(g, p) * allowance == 1_000 * Scale(GapBound(g, p), allowance) + Left(g, allowance, p)
  {
  }

  lemma JoinScaled(allowance: nat, bound: nat, rest: nat, x: nat, y: nat, m: nat, n: nat)
    requires bound * allowance == 1_000 * x + m && allowance * rest == 1_000 * y + n
    ensures allowance * (bound + rest) == 1_000 * (x + y) + (m + n)
  {
    assert allowance * (bound + rest) == bound * allowance + allowance * rest;
  }

  /** The chain's work, no block less than its own difficulty, is within the mean. */
  ghost predicate WithinMean(trunk: seq<nat>, work: seq<nat>, allowance: nat) {
    && |work| == |trunk| && (forall i :: 0 <= i < |trunk| ==> trunk[i] <= work[i])
    && 1_000 * Sum(work) <= allowance * Sum(trunk)
  }

  /** No true chain through the samples whose work is within the mean exceeds the ceiling. */
  ghost predicate CoversTheMean(cp: Checkpoint, samples: seq<Sample>, head: nat, p: Params)
    requires p.divisor >= 2
  {
    forall trunk: seq<nat>, work: seq<nat> ::
      TrueChain(cp, samples, head, trunk, work, p) && WithinMean(trunk, work, AllowancePerMille(samples))
      ==> Min(cp.cumulativeDifficulty + Sum(work), MAX) <= Ceiling(cp, samples, head, p)
  }

  /** The divisions together drop less than one unit of work, or the ceiling is the largest
      number there is. */
  predicate DropsLittle(cp: Checkpoint, samples: seq<Sample>, head: nat, p: Params) {
    var gaps, allowance := Gaps(cp.number, cp.difficulty, samples, head), AllowancePerMille(samples);
    Dropped(gaps, allowance, p) < 1_000 || cp.cumulativeDifficulty + ScaledTotal(gaps, allowance, p) >= MAX
  }

  /** Then the ceiling covers all that the mean allows. */
  lemma MeanIsCovered(cp: Checkpoint, samples: seq<Sample>, head: nat, p: Params)
    requires p.divisor >= 2 && Fits(cp.cumulativeDifficulty) && DropsLittle(cp, samples, head, p)
    requires ScalesFit(Gaps(cp.number, cp.difficulty, samples, head), AllowancePerMille(samples), p)
    ensures CoversTheMean(cp, samples, head, p)
  {
    AllowanceAtLeastOne(samples);
    FoldIsSum(cp.cumulativeDifficulty, Gaps(cp.number, cp.difficulty, samples, head), AllowancePerMille(samples), p);
    forall trunk: seq<nat>, work: seq<nat> |
      TrueChain(cp, samples, head, trunk, work, p) && WithinMean(trunk, work, AllowancePerMille(samples))
      ensures Min(cp.cumulativeDifficulty + Sum(work), MAX) <= Ceiling(cp, samples, head, p)
    {
      CeilingIsSoundOnAverage(cp, samples, head, trunk, work, AllowancePerMille(samples), p);
    }
  }

  /** Whenever some true chain attains the gaps' bounds, the ceiling covers all that the mean
      allows if and only if its divisions drop little. */
  lemma AverageExactly(cp: Checkpoint, samples: seq<Sample>, head: nat, p: Params, trunk: seq<nat>)
    requires p.divisor >= 2 && TrueChain(cp, samples, head, trunk, trunk, p)
    requires ScalesFit(Gaps(cp.number, cp.difficulty, samples, head), AllowancePerMille(samples), p)
    requires Sum(trunk) == BoundTotal(Gaps(cp.number, cp.difficulty, samples, head), p)
    ensures CoversTheMean(cp, samples, head, p) <==> DropsLittle(cp, samples, head, p)
  {
    if DropsLittle(cp, samples, head, p) {
      MeanIsCovered(cp, samples, head, p);
    } else {
      var work := MeanIsExceeded(cp, samples, head, p, trunk);
      assert TrueChain(cp, samples, head, trunk, work, p);
    }
  }

  lemma MeanIsExceeded(cp: Checkpoint, samples: seq<Sample>, head: nat, p: Params, trunk: seq<nat>)
    returns (work: seq<nat>)
    requires p.divisor >= 2 && TrueChain(cp, samples, head, trunk, trunk, p) && !DropsLittle(cp, samples, head, p)
    requires ScalesFit(Gaps(cp.number, cp.difficulty, samples, head), AllowancePerMille(samples), p)
    requires Sum(trunk) == BoundTotal(Gaps(cp.number, cp.difficulty, samples, head), p)
    ensures WithinMean(trunk, work, AllowancePerMille(samples))
    ensures Min(cp.cumulativeDifficulty + Sum(work), MAX) > Ceiling(cp, samples, head, p)
  {
    AllowanceAtLeastOne(samples);
    var gaps := Gaps(cp.number, cp.difficulty, samples, head);
    work := GapsExceeded(cp.cumulativeDifficulty, gaps, AllowancePerMille(samples), p, trunk);
  }

  lemma GapsExceeded(total: nat, gaps: seq<Gap>, allowance: nat, p: Params, trunk: seq<nat>) returns (work: seq<nat>)
    requires allowance >= 1_000 && ScalesFit(gaps, allowance, p) && Sum(trunk) == BoundTotal(gaps, p)
    requires Dropped(gaps, allowance, p) >= 1_000 && total + ScaledTotal(gaps, allowance, p) < MAX
    ensures WithinMean(trunk, work, allowance)
    ensures Min(total + Sum(work), MAX) > AddGaps(total, gaps, allowance, p)
  {
    ScaledAndDropped(gaps, allowance, p);
    if trunk == [] {
      assert false;
    }
    work := AllTheMean(trunk, allowance);
    DropsOne(Sum(work), allowance * Sum(trunk), ScaledTotal(gaps, allowance, p), Dropped(gaps, allowance, p));
    FoldIsSum(total, gaps, allowance, p);
  }

  lemma DropsOne(work: nat, allowed: nat, scaled: nat, dropped: nat)
    requires work == allowed / 1_000 && allowed == 1_000 * scaled + dropped && dropped >= 1_000
    ensures work > scaled
  {
  }

  /** All the work that the mean allows. */
  lemma AllTheMean(trunk: seq<nat>, allowance: nat) returns (work: seq<nat>)
    requires trunk != [] && allowance >= 1_000
    ensures WithinMean(trunk, work, allowance) && Sum(work) == allowance * Sum(trunk) / 1_000
  {
    AtLeastTrunk(allowance, Sum(trunk));
    work := Raised(trunk, allowance * Sum(trunk) / 1_000 - Sum(trunk));
  }

  lemma AtLeastTrunk(allowance: nat, sum: nat)
    requires allowance >= 1_000
    ensures sum <= allowance * sum / 1_000
  {
    ProductMonotone(sum, 1_000, allowance);
  }

  /** The trunk's own work, its first block with `extra` from uncles. */
  function Raised(trunk: seq<nat>, extra: nat): (work: seq<nat>)
    requires trunk != []
    ensures |work| == |trunk| && (forall i :: 0 <= i < |trunk| ==> trunk[i] <= work[i])
    ensures Sum(work) == Sum(trunk) + extra
  {
    var work := [trunk[0] + extra] + trunk[1..];
    assert work[1..] == trunk[1..];
    work
  }

  // ── when the scaled product does not fit ───────────────────────────────────

  /** Saturating before dividing gives the true scaled value exactly when that value is no
      more than MAX / 1000. */
  lemma ScaleIsExactWhen(work: nat, allowance: nat)
    ensures Scale(work, allowance) == work * allowance / 1_000
       <==> work * allowance / 1_000 <= MAX / 1_000
  {
  }

  /** Past that, an honest chain is refused: one block as heavy as the checkpoint's, with
      no uncles at all. */
  lemma SaturatedScaleRefusesTheTruth(cp: Checkpoint, p: Params)
    requires cp == Checkpoint(0, 0, MAX) && p == Params(400, 0)
    ensures TrueChain(cp, [], 1, [MAX], [MAX], p)
    ensures WithinAllowance(Gaps(0, MAX, [], 1), [MAX], [MAX], AllowancePerMille([]))
    ensures VerdictOf(Sum([MAX]), Ceiling(cp, [], 1, p)).Impossible?
  {
    var g := Gap(0, 1, MAX, MAX);
    assert Gaps(0, MAX, [], 1) == [g];
    assert Sum([MAX]) == MAX by {
      assert [MAX][1..] == [];
    }
    assert AllowancePerMille([]) == 11_000;
    assert [MAX][..1] == [MAX] && [g][1..] == [];
    assert Chain(MAX, [MAX], p.divisor, p.minDifficulty);
    FlatStep(MAX, p.divisor);
    assert GapBound(g, p) == MAX;
    FoldIsSum(0, [g], 11_000, p);
    assert ScaledTotal([g], 11_000, p) == Scale(MAX, 11_000) + ScaledTotal([], 11_000, p);
  }

  /** No true chain without samples, its uncles within the consensus limit of ten, and no
      claim up to its work, is judged Impossible. */
  ghost predicate AlwaysPlausible(cp: Checkpoint, head: nat, p: Params)
    requires p.divisor >= 2
  {
    forall trunk: seq<nat>, work: seq<nat>, claimed: nat ::
      TrueChain(cp, [], head, trunk, work, p)
      && WithinAllowance(Gaps(cp.number, cp.difficulty, [], head), trunk, work, AllowancePerMille([]))
      && Fits(claimed) && claimed <= cp.cumulativeDifficulty + Sum(work)
      ==> VerdictOf(claimed, Ceiling(cp, [], head, p)).Plausible?
  }

  lemma CeilingOfTail(cp: Checkpoint, head: nat, p: Params)
    requires p.divisor >= 2 && head > cp.number && Fits(cp.cumulativeDifficulty)
    ensures Ceiling(cp, [], head, p)
         == SatAdd(cp.cumulativeDifficulty,
                   Scale(MaxWork(cp.difficulty, MAX, head - cp.number, p.divisor, p.minDifficulty), 11_000))
    ensures AllowancePerMille([]) == 11_000
  {
    var g := Gap(cp.number, head - cp.number, cp.difficulty, MAX);
    assert Gaps(cp.number, cp.difficulty, [], head) == [g];
    OneGap(cp.cumulativeDifficulty, g, 11_000, p);
  }

  lemma OneGap(total: nat, g: Gap, allowance: nat, p: Params)
    ensures AddGaps(total, [g], allowance, p) == SatAdd(total, Scale(GapBound(g, p), allowance))
  {
    assert [g][1..] == [];
    assert AddGaps(total, [g], allowance, p)
        == AddGaps(SatAdd(total, Scale(GapBound(g, p), allowance)), [], allowance, p);
  }

  /** The tail's bound times eleven is taken into account in full, or the ceiling is the
      largest number there is. */
  predicate RoomForTail(cp: Checkpoint, head: nat, p: Params)
    requires head >= cp.number
  {
    || 11 * MaxWork(cp.difficulty, MAX, head - cp.number, p.divisor, p.minDifficulty) <= MAX / 1_000
    || cp.cumulativeDifficulty + MAX / 1_000 >= MAX
  }

  function Elevenfold(s: seq<nat>): (t: seq<nat>)
    ensures |t| == |s|
  {
    seq(|s|, i requires 0 <= i < |s| => 11 * s[i])
  }

  lemma {:induction false} SumElevenfold(s: seq<nat>)
    ensures Sum(Elevenfold(s)) == 11 * Sum(s)
  {
    if s != [] {
      assert Elevenfold(s)[1..] == Elevenfold(s[1..]);
      SumElevenfold(s[1..]);
    }
  }

  lemma {:induction false} RisingLength(from: nat, span: nat, divisor: nat, minDifficulty: nat)
    requires divisor >= 2
    ensures |Rising(from, span, divisor, minDifficulty)| == span
    decreases span
  {
    if span > 0 {
      RisingLength(Clamp(from + Quot(from, divisor), minDifficulty), span - 1, divisor, minDifficulty);
    }
  }

  lemma RoomIsEnough(cp: Checkpoint, head: nat, p: Params, trunk: seq<nat>, work: seq<nat>, claimed: nat)
    requires p.divisor >= 2 && head > cp.number && Fits(cp.cumulativeDifficulty) && RoomForTail(cp, head, p)
    requires TrueChain(cp, [], head, trunk, work, p)
    requires WithinAllowance(Gaps(cp.number, cp.difficulty, [], head), trunk, work, AllowancePerMille([]))
    requires Fits(claimed) && claimed <= cp.cumulativeDifficulty + Sum(work)
    ensures VerdictOf(claimed, Ceiling(cp, [], head, p)).Plausible?
  {
    var bound := MaxWork(cp.difficulty, MAX, head - cp.number, p.divisor, p.minDifficulty);
    var g := Gap(cp.number, head - cp.number, cp.difficulty, MAX);
    CeilingOfTail(cp, head, p);
    assert Gaps(cp.number, cp.difficulty, [], head) == [g] && [g][1..] == [];
    if Fits(bound * 11_000) {
      TruthIsPlausible(cp, [], head, trunk, work, claimed, p);
    }
  }

  /** The steepest chain, every block with ten uncles as heavy as itself. */
  lemma SteepestIsRefused(cp: Checkpoint, head: nat, p: Params)
    requires p.divisor >= 2 && head > cp.number && Fits(cp.cumulativeDifficulty) && Fits(cp.difficulty)
    requires forall d :: d in Rising(cp.difficulty, head - cp.number, p.divisor, p.minDifficulty) ==> Fits(d)
    requires !RoomForTail(cp, head, p)
    ensures !AlwaysPlausible(cp, head, p)
  {
    var span := head - cp.number;
    var trunk := Rising(cp.difficulty, span, p.divisor, p.minDifficulty);
    var work := Elevenfold(trunk);
    var g := Gap(cp.number, span, cp.difficulty, MAX);
    RisingLength(cp.difficulty, span, p.divisor, p.minDifficulty);
    RisingIsChain(cp.difficulty, span, p.divisor, p.minDifficulty);
    TailBoundIsAttained(cp.difficulty, span, p.divisor, p.minDifficulty);
    SumElevenfold(trunk);
    CeilingOfTail(cp, head, p);
    assert Gaps(cp.number, cp.difficulty, [], head) == [g] && [g][1..] == [];
    assert trunk[..span] == trunk && work[..span] == work;
    var claimed := Min(cp.cumulativeDifficulty + Sum(work), MAX);
    assert TrueChain(cp, [], head, trunk, work, p);
    assert WithinAllowance([g], trunk, work, 11_000);
    assert VerdictOf(claimed, Ceiling(cp, [], head, p)).Impossible?;
  }

  /** Without samples, every true chain is judged Plausible if and only if there is room for
      the tail. */
  lemma PlausibleExactly(cp: Checkpoint, head: nat, p: Params)
    requires p.divisor >= 2 && head > cp.number && Fits(cp.cumulativeDifficulty) && Fits(cp.difficulty)
    requires forall d :: d in Rising(cp.difficulty, head - cp.number, p.divisor, p.minDifficulty) ==> Fits(d)
    ensures AlwaysPlausible(cp, head, p) <==> RoomForTail(cp, head, p)
  {
    if RoomForTail(cp, head, p) {
      forall trunk: seq<nat>, work: seq<nat>, claimed: nat |
        TrueChain(cp, [], head, trunk, work, p)
        && WithinAllowance(Gaps(cp.number, cp.difficulty, [], head), trunk, work, AllowancePerMille([]))
        && Fits(claimed) && claimed <= cp.cumulativeDifficulty + Sum(work)
        ensures VerdictOf(claimed, Ceiling(cp, [], head, p)).Plausible?
      {
        RoomIsEnough(cp, head, p, trunk, work, claimed);
      }
    } else {
      SteepestIsRefused(cp, head, p);
    }
  }

  lemma FlatStep(d: nat, divisor: nat)
    requires divisor >= 2 && Fits(d)
    ensures MaxWork(d, d, 1, divisor, 0) == d
  {
    assert WalkWork(d, d, 1, divisor, 0) == SatAdd(Advance(d, Cap(d, divisor, 0), divisor, 0), 0);
  }
}
