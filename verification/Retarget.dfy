/** Rootstock's difficulty retarget: the rule itself, and the relation between a
    parent's difficulty and a child's that it admits after orchid. */
module Retarget {
  import opened Bytes
  import opened Quotient
  import opened U256

  const TEN_MINUTES: nat := 600
  const RSKIP156_DIVISOR: nat := 400

  datatype Config = Config(
    orchid: nat,
    papyrus200: nat,
    difficultyDivisor: nat,
    durationLimit: nat,
    minDifficulty: nat)

  /** The header fields the rule reads. */
  datatype Fields = Fields(number: nat, timestamp: nat, uncleCount: nat, difficulty: nat)

  function Clamp(x: nat, minDifficulty: nat): nat { Max(x, minDifficulty) }

  function DivisorAt(c: Config, number: nat): nat {
    if number >= c.papyrus200 then RSKIP156_DIVISOR else c.difficultyDivisor
  }

  /** The duration budget of a block with `uncleCount` uncles: a 64-bit sum and a
      64-bit product, both wrapping. */
  function DurationBudget(c: Config, uncleCount: nat): nat {
    var factor: nat := (1 + uncleCount) % U64_LIMIT;
    var product: nat := factor * c.durationLimit;
    product % U64_LIMIT
  }

  /** How far the difficulty moves, before the clamp. */
  function Moved(parent: nat, quotient: nat, up: bool): nat {
    if up then WrapAdd(parent, quotient)
    else if parent > quotient then parent - quotient
    else 0
  }

  /** The difficulty a child must carry. */
  function ExpectedDifficulty(c: Config, header: Fields, parent: Fields): nat
    requires c.difficultyDivisor > 0
  {
    var delta := if header.timestamp >= parent.timestamp then header.timestamp - parent.timestamp else 0;
    if header.number < c.orchid && delta >= TEN_MINUTES then
      c.minDifficulty
    else if header.timestamp < parent.timestamp then
      parent.difficulty
    else
      var calcDur := DurationBudget(c, header.uncleCount);
      if calcDur == delta then
        parent.difficulty
      else
        var quotient := Quot(parent.difficulty, DivisorAt(c, header.number));
        Clamp(Moved(parent.difficulty, quotient, calcDur > delta), c.minDifficulty)
  }

  /** What a block's uncles allow its parent's difficulty to be kept for, without wrap. */
  lemma BudgetIsProduct(c: Config, uncleCount: nat)
    ensures DurationBudget(c, uncleCount) == (1 + uncleCount) * c.durationLimit % U64_LIMIT
  {
    var factor: nat := (1 + uncleCount) % U64_LIMIT;
    var k := (1 + uncleCount) / U64_LIMIT;
    assert 1 + uncleCount == U64_LIMIT * k + factor;
    assert (1 + uncleCount) * c.durationLimit == U64_LIMIT * (k * c.durationLimit) + factor * c.durationLimit;
    DropMultiple(k * c.durationLimit, factor * c.durationLimit);
  }

  lemma DropMultiple(k: nat, a: nat)
    ensures (U64_LIMIT * k + a) % U64_LIMIT == a % U64_LIMIT
  {
  }

  /** The rule, case by case: before orchid ten minutes reset the difficulty; a block dated
      before its parent keeps the parent's; and otherwise the time since the parent is compared
      with the duration limit once for the block and once for each uncle. Closer together, the
      difficulty rises by one part in the divisor, further apart it falls by it, never under
      the minimum. */
  lemma RuleExactly(c: Config, header: Fields, parent: Fields)
    requires c.difficultyDivisor > 0
    ensures var divisor := if header.number >= c.papyrus200 then 400 else c.difficultyDivisor;
      var budget := (1 + header.uncleCount) * c.durationLimit % U64_LIMIT;
      var apart := header.timestamp - parent.timestamp;
      var rise: nat := (parent.difficulty + parent.difficulty / divisor) % LIMIT;
      var fall := parent.difficulty - parent.difficulty / divisor;
      && (header.number < c.orchid && apart >= 600 ==> ExpectedDifficulty(c, header, parent) == c.minDifficulty)
      && (header.number >= c.orchid || apart < 600 ==>
            && (apart < 0 || apart == budget ==> ExpectedDifficulty(c, header, parent) == parent.difficulty)
            && (0 <= apart < budget ==> ExpectedDifficulty(c, header, parent) == Max(rise, c.minDifficulty))
            && (apart >= 0 && apart > budget ==>
                  fall >= 0 && ExpectedDifficulty(c, header, parent) == Max(fall, c.minDifficulty)))
  {
    BudgetIsProduct(c, header.uncleCount);
    QuotIsDivision(parent.difficulty, DivisorAt(c, header.number));
    QuotAtMost(parent.difficulty, DivisorAt(c, header.number));
  }

  /** So after orchid, while nothing wraps, a later timestamp never raises the difficulty, and
      more uncles never lower it. */
  lemma LaterIsNoHarder(c: Config, early: Fields, late: Fields, parent: Fields)
    requires c.difficultyDivisor > 0 && c.orchid <= early.number == late.number
    requires parent.timestamp <= early.timestamp <= late.timestamp && late.uncleCount <= early.uncleCount
    requires (1 + early.uncleCount) * c.durationLimit < U64_LIMIT
    requires c.minDifficulty <= parent.difficulty && 2 * parent.difficulty < LIMIT
    ensures ExpectedDifficulty(c, late, parent) <= ExpectedDifficulty(c, early, parent)
  {
    var quotient := parent.difficulty / DivisorAt(c, early.number);
    QuotIsDivision(parent.difficulty, DivisorAt(c, early.number));
    QuotAtMost(parent.difficulty, DivisorAt(c, early.number));
    ChosenMove(c, early, parent, quotient);
    ChosenMove(c, late, parent, quotient);
    FewerUncles(c, late.uncleCount, early.uncleCount);
  }

  /** The rule without wrap, in the quotient. */
  lemma ChosenMove(c: Config, header: Fields, parent: Fields, quotient: nat)
    requires c.difficultyDivisor > 0 && c.orchid <= header.number && parent.timestamp <= header.timestamp
    requires quotient == parent.difficulty / DivisorAt(c, header.number) <= parent.difficulty
    requires 2 * parent.difficulty < LIMIT
    ensures var budget := (1 + header.uncleCount) * c.durationLimit % U64_LIMIT;
            var apart := header.timestamp - parent.timestamp;
            ExpectedDifficulty(c, header, parent) ==
              if apart == budget then parent.difficulty
              else Max(if apart < budget then parent.difficulty + quotient
                else parent.difficulty - quotient, c.minDifficulty)
  {
    RuleExactly(c, header, parent);
    NoWrap(parent.difficulty + quotient);
  }

  lemma NoWrap(a: nat)
    requires a < LIMIT
    ensures a % LIMIT == a
  {
  }

  lemma FewerUncles(c: Config, few: nat, many: nat)
    requires few <= many && (1 + many) * c.durationLimit < U64_LIMIT
    ensures (1 + few) * c.durationLimit % U64_LIMIT <= (1 + many) * c.durationLimit % U64_LIMIT
  {
    ProductMonotone(c.durationLimit, 1 + few, 1 + many);
  }

  /** One post-orchid step without 256-bit wrap: unchanged, up by the quotient or
      down by it, the moved values clamped from below. */
  predicate Step(parent: nat, child: nat, divisor: nat, minDifficulty: nat)
    requires divisor > 0
  {
    var q := Quot(parent, divisor);
    || child == parent
    || (parent + q < LIMIT && child == Clamp(parent + q, minDifficulty))
    || child == Clamp(if parent > q then parent - q else 0, minDifficulty)
  }

  /** After orchid the rule only ever takes a Step, unless the rise wraps. */
  lemma RuleTakesSteps(c: Config, header: Fields, parent: Fields)
    requires c.difficultyDivisor > 0
    requires header.number >= c.orchid
    requires parent.difficulty + Quot(parent.difficulty, DivisorAt(c, header.number)) < LIMIT
    ensures Step(parent.difficulty, ExpectedDifficulty(c, header, parent),
                 DivisorAt(c, header.number), c.minDifficulty)
  {
    var quotient := Quot(parent.difficulty, DivisorAt(c, header.number));
    NoWrap(parent.difficulty + quotient);
  }

  /** And every Step is one some miner can take: the timestamp alone picks it. So
      Step is exactly the rule, not an over-approximation of it. */
  lemma StepsAreReachable(c: Config, number: nat, parent: Fields, child: nat)
    returns (header: Fields)
    requires c.difficultyDivisor > 0 && number >= c.orchid
    requires 0 < c.durationLimit && parent.timestamp + c.durationLimit + 1 < U64_LIMIT
    requires Step(parent.difficulty, child, DivisorAt(c, number), c.minDifficulty)
    ensures header.number == number && header.timestamp < U64_LIMIT
    ensures ExpectedDifficulty(c, header, parent) == child
  {
    var q := Quot(parent.difficulty, DivisorAt(c, number));
    var t := if child == parent.difficulty then c.durationLimit
             else if parent.difficulty + q < LIMIT && child == Clamp(parent.difficulty + q, c.minDifficulty) then 0
             else c.durationLimit + 1;
    header := Fields(number, parent.timestamp + t, 0, child);
    BudgetWithoutUncles(c);
    QuotAtMost(parent.difficulty, DivisorAt(c, number));
  }

  lemma BudgetWithoutUncles(c: Config)
    requires c.durationLimit < U64_LIMIT
    ensures DurationBudget(c, 0) == c.durationLimit
  {
  }

  /** A run of difficulties following `from`. */
  predicate Chain(from: nat, ds: seq<nat>, divisor: nat, minDifficulty: nat)
    requires divisor > 0
    decreases |ds|
  {
    ds == [] || (
    && Fits(ds[0])
    && Step(from, ds[0], divisor, minDifficulty)
    && Chain(ds[0], ds[1..], divisor, minDifficulty))
  }
}
