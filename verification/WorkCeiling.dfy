/** The ceiling on a peer's claimed total difficulty: a checkpoint's exact work plus a
    scaled bound on every gap between samples. */
module WorkCeiling {
  import opened Quotient
  import opened Retarget
  import opened U256
  import opened UncleAllowance
  import opened WorkBound

  datatype Checkpoint = Checkpoint(number: nat, cumulativeDifficulty: nat, difficulty: nat)

  datatype Verdict =
    | Plausible(ceiling: nat)
    | Impossible(claimed: nat, ceiling: nat)

  /** The retarget parameters a ceiling is computed under. */
  datatype Params = Params(divisor: nat, minDifficulty: nat)

  /** The `span` blocks above height `low`, between two known difficulties. */
  datatype Gap = Gap(low: nat, span: nat, from: nat, to: nat)

  /** `work` times the allowance, in thousandths; the product saturates first. */
  function Scale(work: nat, allowance: nat): nat { SatMul(work, allowance) / 1_000 }

  /** The gaps a sample list induces above height `at`. A sample at or below the height
      reached so far is skipped; past the last one the target is unconstrained. */
  function Gaps(at: nat, difficulty: nat, samples: seq<Sample>, head: nat): seq<Gap>
    decreases |samples|
  {
    if samples == [] then
      if head > at then [Gap(at, head - at, difficulty, MAX)] else []
    else
      var s := samples[0];
      if s.number <= at then Gaps(at, difficulty, samples[1..], head)
      else [Gap(at, s.number - at, difficulty, s.difficulty)] + Gaps(s.number, s.difficulty, samples[1..], head)
  }

  /** The last height the ceiling covers: the head, or the highest used sample if later. */
  function Covered(at: nat, samples: seq<Sample>, head: nat): nat
    decreases |samples|
  {
    if samples == [] then Max(at, head)
    else if samples[0].number <= at then Covered(at, samples[1..], head)
    else Covered(samples[0].number, samples[1..], head)
  }

  function GapBound(g: Gap, p: Params): nat {
    MaxWork(g.from, g.to, g.span, p.divisor, p.minDifficulty)
  }

  /** `total` plus every gap's scaled bound, saturating at each addition. */
  function AddGaps(total: nat, gaps: seq<Gap>, allowance: nat, p: Params): nat
    decreases |gaps|
  {
    if gaps == [] then total
    else AddGaps(SatAdd(total, Scale(GapBound(gaps[0], p), allowance)), gaps[1..], allowance, p)
  }

  function CeilingWith(cp: Checkpoint, samples: seq<Sample>, head: nat, allowance: nat, p: Params): nat {
    AddGaps(cp.cumulativeDifficulty, Gaps(cp.number, cp.difficulty, samples, head), allowance, p)
  }

  function Ceiling(cp: Checkpoint, samples: seq<Sample>, head: nat, p: Params): nat {
    CeilingWith(cp, samples, head, AllowancePerMille(samples), p)
  }

  method CeilingFor(cp: Checkpoint, samples: seq<Sample>, head: nat, p: Params) returns (total: nat)
    requires Fits(cp.cumulativeDifficulty) && Fits(cp.difficulty) && Fits(p.minDifficulty)
    requires forall s :: s in samples ==> Fits(s.difficulty)
    ensures total == Ceiling(cp, samples, head, p)
  {
    var allowance := AllowancePerMille(samples);
    total := cp.cumulativeDifficulty;
    var at, difficulty := cp.number, cp.difficulty;
    for i := 0 to |samples|
      invariant Fits(difficulty)
      invariant AddGaps(total, Gaps(at, difficulty, samples[i..], head), allowance, p)
             == Ceiling(cp, samples, head, p)
    {
      var s := samples[i];
      assert samples[i..][0] == s && samples[i..][1..] == samples[i + 1..];
      if s.number > at {
        var work := MaxWorkBetween(difficulty, s.difficulty, s.number - at, p.divisor, p.minDifficulty);
        total := SatAdd(total, Scale(work, allowance));
        at, difficulty := s.number, s.difficulty;
      }
    }
    if head > at {
      var work := MaxWorkBetween(difficulty, MAX, head - at, p.divisor, p.minDifficulty);
      total := SatAdd(total, Scale(work, allowance));
    }
  }

  function VerdictOf(claimed: nat, ceiling: nat): Verdict {
    if claimed > ceiling then Impossible(claimed, ceiling) else Plausible(ceiling)
  }

  /** A claim is impossible exactly when it is above the ceiling, and the verdict says by what. */
  lemma VerdictExactly(claimed: nat, ceiling: nat)
    ensures VerdictOf(claimed, ceiling) == Impossible(claimed, ceiling) <==> claimed > ceiling
    ensures VerdictOf(claimed, ceiling) == Plausible(ceiling) <==> claimed <= ceiling
  {
  }

  method Judge(cp: Checkpoint, claimed: nat, samples: seq<Sample>, head: nat, p: Params) returns (verdict: Verdict)
    requires Fits(cp.cumulativeDifficulty) && Fits(cp.difficulty) && Fits(p.minDifficulty)
    requires forall s :: s in samples ==> Fits(s.difficulty)
    ensures verdict == VerdictOf(claimed, Ceiling(cp, samples, head, p))
  {
    var ceiling := CeilingFor(cp, samples, head, p);
    verdict := VerdictOf(claimed, ceiling);
  }

  // ── the gaps tile the covered range ────────────────────────────────────────

  predicate Tiles(gaps: seq<Gap>, low: nat, high: nat) {
    if gaps == [] then low == high
    else gaps[0].low == low && gaps[0].span > 0 && Tiles(gaps[1..], low + gaps[0].span, high)
  }

  lemma {:induction false} GapsTile(at: nat, difficulty: nat, samples: seq<Sample>, head: nat)
    ensures Tiles(Gaps(at, difficulty, samples, head), at, Covered(at, samples, head))
    decreases |samples|
  {
    if samples != [] {
      var s := samples[0];
      if s.number <= at {
        GapsTile(at, difficulty, samples[1..], head);
      } else {
        GapsTile(s.number, s.difficulty, samples[1..], head);
        var rest := Gaps(s.number, s.difficulty, samples[1..], head);
        assert Gaps(at, difficulty, samples, head)[1..] == rest;
      }
    }
  }

  function Containing(gaps: seq<Gap>, height: nat): set<nat> {
    set i: nat | i < |gaps| && gaps[i].low < height <= gaps[i].low + gaps[i].span
  }

  lemma {:induction false} TilesCoverOnce(gaps: seq<Gap>, low: nat, high: nat, height: nat)
    requires Tiles(gaps, low, high)
    ensures low <= high
    ensures low < height <= high ==> |Containing(gaps, height)| == 1
    ensures !(low < height <= high) ==> Containing(gaps, height) == {}
    decreases |gaps|
  {
    if gaps != [] {
      var rest := gaps[1..];
      TilesCoverOnce(rest, low + gaps[0].span, high, height);
      ContainingFirst(gaps, height);
      ShiftKeepsSize(Containing(rest, height), Shifted(Containing(rest, height)));
    }
  }

  function Shifted(a: set<nat>): set<nat> { set i | i in a :: i + 1 }

  lemma ContainingFirst(gaps: seq<Gap>, height: nat)
    requires gaps != []
    ensures Containing(gaps, height)
         == Shifted(Containing(gaps[1..], height))
          + (if gaps[0].low < height <= gaps[0].low + gaps[0].span then {0} else {})
  {
    var a, b := Containing(gaps, height), Shifted(Containing(gaps[1..], height));
    forall i: nat | i > 0 ensures i in a <==> i in b {
      if i in a {
        assert i - 1 in Containing(gaps[1..], height);
      }
    }
    assert 0 !in b;
  }

  lemma {:induction false} ShiftKeepsSize(a: set<nat>, b: set<nat>)
    requires b == Shifted(a)
    ensures |a| == |b|
    decreases a
  {
    if a != {} {
      var x :| x in a;
      ShiftKeepsSize(a - {x}, Shifted(a - {x}));
      ShiftOne(a, x);
    }
  }

  lemma ShiftOne(a: set<nat>, x: nat)
    requires x in a
    ensures x + 1 !in Shifted(a - {x}) && Shifted(a) == Shifted(a - {x}) + {x + 1}
  {
    forall y | y in Shifted(a) ensures y in Shifted(a - {x}) + {x + 1} {
      var i :| i in a && y == i + 1;
      assert i != x ==> i in a - {x};
    }
  }

  /** Whatever order the samples come in, the used gaps cover every height above the
      checkpoint up to the head (or the last used sample) exactly once, and no other. */
  lemma GapsCoverEachHeightOnce(cp: Checkpoint, samples: seq<Sample>, head: nat, height: nat)
    ensures cp.number < height <= Covered(cp.number, samples, head)
        ==> |Containing(Gaps(cp.number, cp.difficulty, samples, head), height)| == 1
    ensures !(cp.number < height <= Covered(cp.number, samples, head))
        ==> Containing(Gaps(cp.number, cp.difficulty, samples, head), height) == {}
  {
    GapsTile(cp.number, cp.difficulty, samples, head);
    TilesCoverOnce(Gaps(cp.number, cp.difficulty, samples, head), cp.number,
                   Covered(cp.number, samples, head), height);
  }

  // ── soundness ──────────────────────────────────────────────────────────────

  /** The chain, given from the block above `at` on, passes through every sample above
      that height. */
  predicate Through(at: nat, samples: seq<Sample>, trunk: seq<nat>) {
    forall s :: s in samples && s.number > at ==>
      s.number - at <= |trunk| && trunk[s.number - at - 1] == s.difficulty
  }

  /** Gap by gap, the work counting uncles is at most allowance / 1000 of the trunk's. */
  predicate WithinAllowance(gaps: seq<Gap>, trunk: seq<nat>, work: seq<nat>, allowance: nat)
    decreases |gaps|
  {
    gaps == [] ||
    var n := gaps[0].span;
    && n <= |trunk| && n <= |work|
    && 1_000 * Sum(work[..n]) <= allowance * Sum(trunk[..n])
    && WithinAllowance(gaps[1..], trunk[n..], work[n..], allowance)
  }

  /** No gap's scaled product reaches past 256 bits. */
  predicate ScalesFit(gaps: seq<Gap>, allowance: nat, p: Params)
    decreases |gaps|
  {
    gaps == [] || (Fits(GapBound(gaps[0], p) * allowance) && ScalesFit(gaps[1..], allowance, p))
  }

  lemma ThroughTail(at: nat, samples: seq<Sample>, trunk: seq<nat>)
    requires samples != [] && Through(at, samples, trunk)
    ensures samples[0].number <= at ==> Through(at, samples[1..], trunk)
    ensures samples[0].number > at ==>
      var n := samples[0].number - at;
      n <= |trunk| && trunk[n - 1] == samples[0].difficulty && Through(samples[0].number, samples[1..], trunk[n..])
  {
    assert samples[0] in samples;
    forall s | s in samples[1..] ensures s in samples {
    }
  }

  lemma {:induction false} TailFits(from: nat, ds: seq<nat>, p: Params)
    requires p.divisor >= 2 && ds != [] && Chain(from, ds, p.divisor, p.minDifficulty)
    ensures Fits(ds[|ds| - 1])
    decreases |ds|
  {
    if |ds| > 1 {
      TailFits(ds[0], ds[1..], p);
    }
  }

  /** The thousandths a gap's division drops. */
  function Left(g: Gap, allowance: nat, p: Params): (left: nat)
    ensures left < 1_000
  {
    GapBound(g, p) * allowance % 1_000
  }

  function Dropped(gaps: seq<Gap>, allowance: nat, p: Params): nat
    decreases |gaps|
  {
    if gaps == [] then 0 else Left(gaps[0], allowance, p) + Dropped(gaps[1..], allowance, p)
  }

  /** One gap: the trunk is under its bound, and what the allowance lets uncles add is
      under the scaled bound, to within the division's remainder. */
  lemma TrunkUnderBound(g: Gap, ds: seq<nat>, allowance: nat, p: Params)
    requires p.divisor >= 2 && Fits(g.from) && |ds| == g.span > 0 && ds[|ds| - 1] <= g.to
    requires Chain(g.from, ds, p.divisor, p.minDifficulty)
    requires allowance >= 1_000 && Fits(GapBound(g, p) * allowance)
    ensures allowance * Sum(ds) <= 1_000 * Scale(GapBound(g, p), allowance) + Left(g, allowance, p)
  {
    WorkIsBounded(g.from, ds, g.to, p.divisor, p.minDifficulty);
    ProductUnder(Sum(ds), GapBound(g, p), allowance);
  }

  lemma ProductUnder(trunk: nat, bound: nat, allowance: nat)
    requires Min(trunk, MAX) <= bound && allowance >= 1_000 && Fits(bound * allowance)
    ensures allowance * trunk <= bound * allowance
  {
    ProductMonotone(bound, 1_000, allowance);
    ProductMonotone(allowance, trunk, bound);
  }

  lemma AllowanceAtLeastOne(samples: seq<Sample>)
    ensures AllowancePerMille(samples) >= 1_000
  {
  }

  /** Cut the chain at a sample: the part up to it is under its gap's bound. */
  lemma SplitAtSample(g: Gap, trunk: seq<nat>, allowance: nat, p: Params)
    requires p.divisor >= 2 && Fits(g.from) && 0 < g.span <= |trunk| && trunk[g.span - 1] == g.to
    requires Chain(g.from, trunk, p.divisor, p.minDifficulty)
    requires allowance >= 1_000 && Fits(GapBound(g, p) * allowance)
    ensures Fits(g.to) && Chain(g.to, trunk[g.span..], p.divisor, p.minDifficulty)
    ensures allowance * Sum(trunk[..g.span]) <= 1_000 * Scale(GapBound(g, p), allowance) + Left(g, allowance, p)
  {
    ChainSplit(g.from, trunk, g.span, p.divisor, p.minDifficulty);
    TailFits(g.from, trunk[..g.span], p);
    TrunkUnderBound(g, trunk[..g.span], allowance, p);
  }

  /** Gap by gap, `work` is under the scaled bound. */
  predicate UnderBounds(gaps: seq<Gap>, work: seq<nat>, allowance: nat, p: Params)
    decreases |gaps|
  {
    gaps == [] ||
    var n := gaps[0].span;
    && n <= |work|
    && Sum(work[..n]) <= Scale(GapBound(gaps[0], p), allowance)
    && UnderBounds(gaps[1..], work[n..], allowance, p)
  }

  lemma WorkUnderScale(work: nat, trunk: nat, allowance: nat, scaled: nat)
    requires 1_000 * work <= allowance * trunk < 1_000 * scaled + 1_000
    ensures work <= scaled
  {
  }

  lemma {:induction false} EachGapIsBounded(at: nat, difficulty: nat, samples: seq<Sample>, head: nat,
                                            trunk: seq<nat>, work: seq<nat>, allowance: nat, p: Params)
    requires p.divisor >= 2 && Fits(difficulty) && allowance >= 1_000
    requires Chain(difficulty, trunk, p.divisor, p.minDifficulty) && Through(at, samples, trunk)
    requires at + |trunk| == Covered(at, samples, head)
    requires ScalesFit(Gaps(at, difficulty, samples, head), allowance, p)
    requires WithinAllowance(Gaps(at, difficulty, samples, head), trunk, work, allowance)
    ensures UnderBounds(Gaps(at, difficulty, samples, head), work, allowance, p)
    decreases |samples|
  {
    if samples == [] {
      if trunk != [] {
        LastGapIsBounded(Gap(at, |trunk|, difficulty, MAX), trunk, work, allowance, p);
      }
    } else {
      ThroughTail(at, samples, trunk);
      if samples[0].number <= at {
        EachGapIsBounded(at, difficulty, samples[1..], head, trunk, work, allowance, p);
      } else {
        var s, g, rest := samples[0], GapTo(at, difficulty, samples[0]),
          Gaps(samples[0].number, samples[0].difficulty, samples[1..], head);
        GapsStep(at, difficulty, samples, head, trunk);
        FirstGapIsBounded(g, rest, trunk, work, allowance, p);
        EachGapIsBounded(s.number, s.difficulty, samples[1..], head, trunk[g.span..], work[g.span..], allowance, p);
        OneMoreGap(g, rest, work, allowance, p);
      }
    }
  }

  function GapTo(at: nat, difficulty: nat, s: Sample): Gap
    requires s.number > at
  {
    Gap(at, s.number - at, difficulty, s.difficulty)
  }

  lemma GapsStep(at: nat, difficulty: nat, samples: seq<Sample>, head: nat, trunk: seq<nat>)
    requires samples != [] && samples[0].number > at && Through(at, samples, trunk)
    requires at + |trunk| == Covered(at, samples, head)
    ensures var s, g := samples[0], GapTo(at, difficulty, samples[0]);
      && Gaps(at, difficulty, samples, head) == [g] + Gaps(s.number, s.difficulty, samples[1..], head)
      && g.span <= |trunk| && trunk[g.span - 1] == g.to
      && s.number + |trunk[g.span..]| == Covered(s.number, samples[1..], head)
  {
  }

  lemma OneMoreGap(g: Gap, rest: seq<Gap>, work: seq<nat>, allowance: nat, p: Params)
    requires g.span <= |work| && Sum(work[..g.span]) <= Scale(GapBound(g, p), allowance)
    requires UnderBounds(rest, work[g.span..], allowance, p)
    ensures UnderBounds([g] + rest, work, allowance, p)
  {
    assert ([g] + rest)[1..] == rest;
  }

  lemma LastGapIsBounded(g: Gap, trunk: seq<nat>, work: seq<nat>, allowance: nat, p: Params)
    requires p.divisor >= 2 && Fits(g.from) && 0 < g.span == |trunk| && g.to == MAX && allowance >= 1_000
    requires Chain(g.from, trunk, p.divisor, p.minDifficulty)
    requires ScalesFit([g], allowance, p) && WithinAllowance([g], trunk, work, allowance)
    ensures UnderBounds([g], work, allowance, p)
  {
    TailFits(g.from, trunk, p);
    assert trunk[..g.span] == trunk;
    TrunkUnderBound(g, trunk, allowance, p);
    WorkUnderScale(Sum(work[..g.span]), Sum(trunk), allowance, Scale(GapBound(g, p), allowance));
  }

  lemma FirstGapIsBounded(g: Gap, rest: seq<Gap>, trunk: seq<nat>, work: seq<nat>, allowance: nat, p: Params)
    requires p.divisor >= 2 && Fits(g.from) && 0 < g.span <= |trunk| && trunk[g.span - 1] == g.to && allowance >= 1_000
    requires Chain(g.from, trunk, p.divisor, p.minDifficulty)
    requires ScalesFit([g] + rest, allowance, p) && WithinAllowance([g] + rest, trunk, work, allowance)
    ensures Fits(g.to) && Chain(g.to, trunk[g.span..], p.divisor, p.minDifficulty)
    ensures ScalesFit(rest, allowance, p) && g.span <= |work|
    ensures WithinAllowance(rest, trunk[g.span..], work[g.span..], allowance)
    ensures Sum(work[..g.span]) <= Scale(GapBound(g, p), allowance)
  {
    assert ([g] + rest)[1..] == rest;
    SplitAtSample(g, trunk, allowance, p);
    WorkUnderScale(Sum(work[..g.span]), Sum(trunk[..g.span]), allowance, Scale(GapBound(g, p), allowance));
  }

  function ScaledTotal(gaps: seq<Gap>, allowance: nat, p: Params): nat
    decreases |gaps|
  {
    if gaps == [] then 0 else Scale(GapBound(gaps[0], p), allowance) + ScaledTotal(gaps[1..], allowance, p)
  }

  /** Saturating at every addition or only once at the end is the same. */
  lemma {:induction false} FoldIsSum(total: nat, gaps: seq<Gap>, allowance: nat, p: Params)
    ensures AddGaps(Min(total, MAX), gaps, allowance, p) == Min(total + ScaledTotal(gaps, allowance, p), MAX)
    decreases |gaps|
  {
    if gaps != [] {
      var scaled := Scale(GapBound(gaps[0], p), allowance);
      FoldIsSum(total + scaled, gaps[1..], allowance, p);
      SatAddOfMin(total, scaled);
    }
  }

  lemma {:induction false} WorkUnderTotal(
    gaps: seq<Gap>, low: nat, high: nat, work: seq<nat>, allowance: nat, p: Params)
    requires Tiles(gaps, low, high) && low + |work| == high
    requires UnderBounds(gaps, work, allowance, p)
    ensures Sum(work) <= ScaledTotal(gaps, allowance, p)
    decreases |gaps|
  {
    if gaps != [] {
      var n := gaps[0].span;
      SumSplit(work, n);
      WorkUnderTotal(gaps[1..], low + n, high, work[n..], allowance, p);
    }
  }

  lemma SatAddOfMin(a: nat, b: nat)
    ensures SatAdd(Min(a, MAX), b) == Min(a + b, MAX)
  {
  }

  /** A true chain above the checkpoint: `trunk` and `work` have one entry per block up to
      the last covered height, and the trunk obeys the rule and passes the samples. */
  predicate TrueChain(cp: Checkpoint, samples: seq<Sample>, head: nat, trunk: seq<nat>, work: seq<nat>, p: Params)
    requires p.divisor > 0
  {
    && Fits(cp.difficulty) && Fits(cp.cumulativeDifficulty)
    && |work| == |trunk| && cp.number + |trunk| == Covered(cp.number, samples, head)
    && Chain(cp.difficulty, trunk, p.divisor, p.minDifficulty)
    && Through(cp.number, samples, trunk)
  }

  lemma SoundForAnyAllowance(cp: Checkpoint, samples: seq<Sample>, head: nat,
                             trunk: seq<nat>, work: seq<nat>, allowance: nat, p: Params)
    requires p.divisor >= 2 && allowance >= 1_000
    requires TrueChain(cp, samples, head, trunk, work, p)
    requires ScalesFit(Gaps(cp.number, cp.difficulty, samples, head), allowance, p)
    requires WithinAllowance(Gaps(cp.number, cp.difficulty, samples, head), trunk, work, allowance)
    ensures Min(cp.cumulativeDifficulty + Sum(work), MAX) <= CeilingWith(cp, samples, head, allowance, p)
  {
    EachGapIsBounded(cp.number, cp.difficulty, samples, head, trunk, work, allowance, p);
    GapsTile(cp.number, cp.difficulty, samples, head);
    var gaps := Gaps(cp.number, cp.difficulty, samples, head);
    WorkUnderTotal(gaps, cp.number, Covered(cp.number, samples, head), work, allowance, p);
    FoldIsSum(cp.cumulativeDifficulty, gaps, allowance, p);
  }

  /** No chain the retarget rule admits through the samples, in whatever order they are
      listed, carries more work than the ceiling, provided its uncle-inclusive work in
      each gap stays within the allowance and the scaled products fit. */
  lemma CeilingIsSound(cp: Checkpoint, samples: seq<Sample>, head: nat,
                       trunk: seq<nat>, work: seq<nat>, p: Params)
    requires p.divisor >= 2
    requires TrueChain(cp, samples, head, trunk, work, p)
    requires ScalesFit(Gaps(cp.number, cp.difficulty, samples, head), AllowancePerMille(samples), p)
    requires WithinAllowance(Gaps(cp.number, cp.difficulty, samples, head), trunk, work, AllowancePerMille(samples))
    ensures Min(cp.cumulativeDifficulty + Sum(work), MAX) <= Ceiling(cp, samples, head, p)
  {
    AllowanceAtLeastOne(samples);
    SoundForAnyAllowance(cp, samples, head, trunk, work, AllowancePerMille(samples), p);
  }

  /** So a peer that claims no more than such a chain carries is never judged Impossible. */
  lemma TruthIsPlausible(cp: Checkpoint, samples: seq<Sample>, head: nat,
                         trunk: seq<nat>, work: seq<nat>, claimed: nat, p: Params)
    requires p.divisor >= 2
    requires TrueChain(cp, samples, head, trunk, work, p)
    requires ScalesFit(Gaps(cp.number, cp.difficulty, samples, head), AllowancePerMille(samples), p)
    requires WithinAllowance(Gaps(cp.number, cp.difficulty, samples, head), trunk, work, AllowancePerMille(samples))
    requires Fits(claimed) && claimed <= cp.cumulativeDifficulty + Sum(work)
    ensures VerdictOf(claimed, Ceiling(cp, samples, head, p)).Plausible?
  {
    CeilingIsSound(cp, samples, head, trunk, work, p);
  }

  // ── when only the population mean is bounded ───────────────────────────────

  lemma {:induction false} TrunkUnderTotal(at: nat, difficulty: nat, samples: seq<Sample>, head: nat,
                                           trunk: seq<nat>, allowance: nat, p: Params)
    requires p.divisor >= 2 && Fits(difficulty) && allowance >= 1_000
    requires Chain(difficulty, trunk, p.divisor, p.minDifficulty) && Through(at, samples, trunk)
    requires at + |trunk| == Covered(at, samples, head)
    requires ScalesFit(Gaps(at, difficulty, samples, head), allowance, p)
    ensures var gaps := Gaps(at, difficulty, samples, head);
            allowance * Sum(trunk) <= 1_000 * ScaledTotal(gaps, allowance, p) + Dropped(gaps, allowance, p)
    decreases |samples|
  {
    if samples == [] {
      if trunk != [] {
        LastUnderTotal(Gap(at, |trunk|, difficulty, MAX), trunk, allowance, p);
      }
    } else {
      ThroughTail(at, samples, trunk);
      if samples[0].number <= at {
        TrunkUnderTotal(at, difficulty, samples[1..], head, trunk, allowance, p);
      } else {
        var s, g, rest := samples[0], GapTo(at, difficulty, samples[0]),
          Gaps(samples[0].number, samples[0].difficulty, samples[1..], head);
        GapsStep(at, difficulty, samples, head, trunk);
        assert ([g] + rest)[1..] == rest;
        SplitAtSample(g, trunk, allowance, p);
        TrunkUnderTotal(s.number, s.difficulty, samples[1..], head, trunk[g.span..], allowance, p);
        AddOneGap(g, rest, trunk, allowance, p);
      }
    }
  }

  lemma LastUnderTotal(g: Gap, trunk: seq<nat>, allowance: nat, p: Params)
    requires p.divisor >= 2 && Fits(g.from) && 0 < g.span == |trunk| && g.to == MAX && allowance >= 1_000
    requires Chain(g.from, trunk, p.divisor, p.minDifficulty) && ScalesFit([g], allowance, p)
    ensures allowance * Sum(trunk) <= 1_000 * ScaledTotal([g], allowance, p) + Dropped([g], allowance, p)
  {
    TailFits(g.from, trunk, p);
    TrunkUnderBound(g, trunk, allowance, p);
    assert ScaledTotal([g], allowance, p) == Scale(GapBound(g, p), allowance) + ScaledTotal([], allowance, p);
    assert Dropped([g], allowance, p) == Left(g, allowance, p) + Dropped([], allowance, p);
  }

  lemma AddOneGap(g: Gap, rest: seq<Gap>, trunk: seq<nat>, allowance: nat, p: Params)
    requires g.span <= |trunk|
    requires allowance * Sum(trunk[..g.span]) <= 1_000 * Scale(GapBound(g, p), allowance) + Left(g, allowance, p)
    requires allowance * Sum(trunk[g.span..]) <= 1_000 * ScaledTotal(rest, allowance, p) + Dropped(rest, allowance, p)
    ensures allowance * Sum(trunk) <= 1_000 * ScaledTotal([g] + rest, allowance, p) + Dropped([g] + rest, allowance, p)
  {
    SumSplit(trunk, g.span);
    assert ([g] + rest)[1..] == rest;
    AddUnder(allowance, Sum(trunk), Sum(trunk[..g.span]), Sum(trunk[g.span..]), Scale(GapBound(g, p), allowance),
             ScaledTotal(rest, allowance, p), Left(g, allowance, p), Dropped(rest, allowance, p));
  }

  lemma AddUnder(allowance: nat, sum: nat, a: nat, b: nat, x: nat, y: nat, m: nat, n: nat)
    requires sum == a + b
    requires allowance * a <= 1_000 * x + m && allowance * b <= 1_000 * y + n
    ensures allowance * sum <= 1_000 * (x + y) + (m + n)
  {
    assert allowance * (a + b) == allowance * a + allowance * b;
  }

  lemma {:induction false} DroppedPerGap(gaps: seq<Gap>, allowance: nat, p: Params)
    ensures Dropped(gaps, allowance, p) <= 999 * |gaps|
    decreases |gaps|
  {
    if gaps != [] {
      DroppedPerGap(gaps[1..], allowance, p);
    }
  }

  lemma AverageUnder(work: nat, allowed: nat, scaled: nat, dropped: nat)
    requires 1_000 * work <= allowed <= 1_000 * scaled + dropped
    ensures work <= scaled + dropped / 1_000
  {
  }

  lemma WorkUnderAverage(at: nat, difficulty: nat, samples: seq<Sample>, head: nat,
                         trunk: seq<nat>, work: seq<nat>, allowance: nat, p: Params)
    requires p.divisor >= 2 && Fits(difficulty) && allowance >= 1_000
    requires Chain(difficulty, trunk, p.divisor, p.minDifficulty) && Through(at, samples, trunk)
    requires at + |trunk| == Covered(at, samples, head)
    requires ScalesFit(Gaps(at, difficulty, samples, head), allowance, p)
    requires 1_000 * Sum(work) <= allowance * Sum(trunk)
    ensures var gaps := Gaps(at, difficulty, samples, head);
            Sum(work) <= ScaledTotal(gaps, allowance, p) + Dropped(gaps, allowance, p) / 1_000
  {
    var gaps := Gaps(at, difficulty, samples, head);
    TrunkUnderTotal(at, difficulty, samples, head, trunk, allowance, p);
    AverageUnder(Sum(work), allowance * Sum(trunk), ScaledTotal(gaps, allowance, p), Dropped(gaps, allowance, p));
  }

  /** When the allowance bounds only the whole stretch's mean, as a concentration bound
      does, a hot gap is paid for by cooler ones: the ceiling still holds up to the
      thousandths the gaps' divisions drop, less than one unit of work per gap. */
  lemma CeilingIsSoundOnAverage(cp: Checkpoint, samples: seq<Sample>, head: nat,
                                trunk: seq<nat>, work: seq<nat>, allowance: nat, p: Params)
    requires p.divisor >= 2 && allowance >= 1_000
    requires TrueChain(cp, samples, head, trunk, work, p)
    requires ScalesFit(Gaps(cp.number, cp.difficulty, samples, head), allowance, p)
    requires 1_000 * Sum(work) <= allowance * Sum(trunk)
    ensures Min(cp.cumulativeDifficulty + Sum(work), MAX)
         <= CeilingWith(cp, samples, head, allowance, p)
          + Dropped(Gaps(cp.number, cp.difficulty, samples, head), allowance, p) / 1_000
    ensures Dropped(Gaps(cp.number, cp.difficulty, samples, head), allowance, p)
         <= 999 * |Gaps(cp.number, cp.difficulty, samples, head)|
  {
    var gaps := Gaps(cp.number, cp.difficulty, samples, head);
    WorkUnderAverage(cp.number, cp.difficulty, samples, head, trunk, work, allowance, p);
    DroppedPerGap(gaps, allowance, p);
    FoldIsSum(cp.cumulativeDifficulty, gaps, allowance, p);
  }
}
