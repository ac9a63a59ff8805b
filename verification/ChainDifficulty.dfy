/** The difficulties of accepted Rootstock blocks against the retarget rule: an accepted chain
    is one that the work bound and the ceiling are about. */
module ChainDifficulty {
  import opened BlockRules
  import opened CountedOnce
  import opened Forest
  import opened Retarget
  import opened U256
  import opened UncleAllowance
  import opened UncleRule
  import Quotient
  import opened WorkBound
  import opened WorkCeiling

  function FieldsOf(time: Header -> nat, h: Header): Fields {
    Fields(h.number, time(h), h.uncleCount, h.difficulty)
  }

  /** The rules against the parent include the retarget. */
  ghost predicate Retargets(c: Consensus, cfg: Config, time: Header -> nat)
    requires cfg.difficultyDivisor > 0
  {
    forall h: Header, p: Header :: c.parentOk(h, p) ==>
      h.difficulty == ExpectedDifficulty(cfg, FieldsOf(time, h), FieldsOf(time, p))
  }

  /** The difficulties above the chain's first block. */
  function DifficultiesOf(chain: seq<Entry>): (ds: seq<nat>)
    requires chain != []
    ensures |ds| == |chain| - 1
  {
    seq(|chain| - 1, i requires 0 <= i < |chain| - 1 => chain[i + 1].header.difficulty)
  }

  /** Past orchid, under one divisor, with no difficulty that a rise would wrap. */
  predicate OneRegime(cfg: Config, divisor: nat, chain: seq<Entry>)
    requires cfg.difficultyDivisor > 0
  {
    && divisor >= 2
    && (forall j :: 0 <= j < |chain| ==> 2 * chain[j].header.difficulty < LIMIT)
    && (forall j :: 0 < j < |chain| ==>
          chain[j].header.number >= cfg.orchid && DivisorAt(cfg, chain[j].header.number) == divisor)
  }

  /** Every accepted block takes a step of the retarget from the one below it. */
  lemma AcceptedSteps(c: Consensus, cfg: Config, time: Header -> nat, depth: Hash -> nat,
                      chain: seq<Entry>, stores: seq<Tables>, divisor: nat, j: nat)
    requires cfg.difficultyDivisor > 0 && Retargets(c, cfg, time) && OneRegime(cfg, divisor, chain)
    requires AcceptedChain(c, depth, chain, stores) && 0 < j < |chain|
    ensures Retarget.Step(chain[j - 1].header.difficulty, chain[j].header.difficulty, divisor, cfg.minDifficulty)
  {
    assert AcceptedOver(c, depth, stores[j], chain, j);
    LinkBelow(c, chain, j);
    assert Known(c, stores[j], chain[j - 1]);
    BlockAcceptedExactly(c, stores[j], depth, chain[j]);
    var h, p := chain[j].header, stores[j].headers[chain[j].header.parentHash];
    assert c.parentOk(h, p);
    QuotHalf(p.difficulty, divisor);
    RuleTakesSteps(cfg, FieldsOf(time, h), FieldsOf(time, p));
  }

  lemma QuotHalf(a: nat, divisor: nat)
    requires divisor >= 2 && 2 * a < LIMIT
    ensures a + Quotient.Quot(a, divisor) < LIMIT
  {
    Quotient.QuotAtMost(a, divisor);
  }

  /** The `i`th difficulty is a step from the one before it. */
  predicate StepAt(from: nat, ds: seq<nat>, i: nat, divisor: nat, minDifficulty: nat)
    requires divisor > 0 && i < |ds|
  {
    Fits(ds[i]) && Retarget.Step(if i == 0 then from else ds[i - 1], ds[i], divisor, minDifficulty)
  }

  lemma {:induction false} StepsAreChain(from: nat, ds: seq<nat>, divisor: nat, minDifficulty: nat)
    requires divisor > 0 && forall i :: 0 <= i < |ds| ==> StepAt(from, ds, i, divisor, minDifficulty)
    ensures Chain(from, ds, divisor, minDifficulty)
    decreases |ds|
  {
    if ds != [] {
      var rest := ds[1..];
      assert StepAt(from, ds, 0, divisor, minDifficulty);
      forall i | 0 <= i < |rest| ensures StepAt(ds[0], rest, i, divisor, minDifficulty) {
        assert StepAt(from, ds, i + 1, divisor, minDifficulty);
      }
      StepsAreChain(ds[0], rest, divisor, minDifficulty);
    }
  }

  /** So its difficulties are a chain of the rule. */
  lemma AcceptedIsChain(c: Consensus, cfg: Config, time: Header -> nat, depth: Hash -> nat,
                        chain: seq<Entry>, stores: seq<Tables>, divisor: nat)
    requires cfg.difficultyDivisor > 0 && Retargets(c, cfg, time) && OneRegime(cfg, divisor, chain)
    requires AcceptedChain(c, depth, chain, stores) && chain != []
    ensures Chain(chain[0].header.difficulty, DifficultiesOf(chain), divisor, cfg.minDifficulty)
  {
    var ds := DifficultiesOf(chain);
    forall i | 0 <= i < |ds| ensures StepAt(chain[0].header.difficulty, ds, i, divisor, cfg.minDifficulty) {
      AcceptedSteps(c, cfg, time, depth, chain, stores, divisor, i + 1);
      assert 2 * chain[i + 1].header.difficulty < LIMIT;
    }
    StepsAreChain(chain[0].header.difficulty, ds, divisor, cfg.minDifficulty);
  }

  /** The work of accepted blocks between two of them, uncles aside, is under the bound. */
  lemma AcceptedWorkIsBounded(c: Consensus, cfg: Config, time: Header -> nat, depth: Hash -> nat,
                              chain: seq<Entry>, stores: seq<Tables>, divisor: nat)
    requires cfg.difficultyDivisor > 0 && Retargets(c, cfg, time) && OneRegime(cfg, divisor, chain)
    requires AcceptedChain(c, depth, chain, stores) && chain != []
    ensures Min(Sum(DifficultiesOf(chain)), MAX)
         <= MaxWork(chain[0].header.difficulty, chain[|chain| - 1].header.difficulty, |chain| - 1,
                    divisor, cfg.minDifficulty)
  {
    AcceptedIsChain(c, cfg, time, depth, chain, stores, divisor);
    WorkIsBounded(chain[0].header.difficulty, DifficultiesOf(chain), chain[|chain| - 1].header.difficulty,
                  divisor, cfg.minDifficulty);
  }

  /** Samples that are blocks of the chain. */
  predicate SampledFrom(chain: seq<Entry>, samples: seq<Sample>)
    requires chain != []
  {
    forall s :: s in samples && s.number > chain[0].header.number ==>
      s.number - chain[0].header.number < |chain|
      && s.difficulty == chain[s.number - chain[0].header.number].header.difficulty
  }

  lemma {:induction false} CoveredByHead(at: nat, samples: seq<Sample>, head: nat)
    requires at <= head && forall s :: s in samples && s.number > at ==> s.number <= head
    ensures Covered(at, samples, head) == head
    decreases |samples|
  {
    if samples != [] {
      assert samples[0] in samples && forall s :: s in samples[1..] ==> s in samples;
      CoveredByHead(if samples[0].number > at then samples[0].number else at, samples[1..], head);
    }
  }

  /** Seen from its first block as a checkpoint, with any of its blocks as samples, it is a
      true chain: what is proved of the ceiling holds of everything a node accepts. */
  lemma AcceptedIsTrueChain(c: Consensus, cfg: Config, time: Header -> nat, depth: Hash -> nat,
                            chain: seq<Entry>, stores: seq<Tables>, divisor: nat,
                            cumulative: nat, samples: seq<Sample>, work: seq<nat>)
    requires cfg.difficultyDivisor > 0 && Retargets(c, cfg, time) && OneRegime(cfg, divisor, chain)
    requires AcceptedChain(c, depth, chain, stores) && chain != [] && |work| == |chain| - 1
    requires Fits(cumulative) && SampledFrom(chain, samples)
    ensures var first := chain[0].header;
            TrueChain(WorkCeiling.Checkpoint(first.number, cumulative, first.difficulty), samples,
                      chain[|chain| - 1].header.number, DifficultiesOf(chain), work, Params(divisor, cfg.minDifficulty))
  {
    AcceptedIsChain(c, cfg, time, depth, chain, stores, divisor);
    NumbersRise(c, depth, chain, stores, |chain| - 1);
    CoveredByHead(chain[0].header.number, samples, chain[|chain| - 1].header.number);
  }

  /** Uncles take the same steps from their parents: an included uncle's difficulty is one the
      rule gives it over a near ancestor of its block. */
  lemma UncleSteps(c: Consensus, cfg: Config, time: Header -> nat, t: Tables, block: Header, uncle: Header)
    requires cfg.difficultyDivisor > 0 && Retargets(c, cfg, time) && MayInclude(c, AncestryOf(t), block, uncle)
    requires uncle.number >= cfg.orchid && 2 * t.headers[uncle.parentHash].difficulty < LIMIT
    requires DivisorAt(cfg, uncle.number) >= 2
    ensures Retarget.Step(t.headers[uncle.parentHash].difficulty, uncle.difficulty, DivisorAt(cfg, uncle.number),
            cfg.minDifficulty)
  {
    var p := t.headers[uncle.parentHash];
    assert c.parentOk(uncle, p);
    QuotHalf(p.difficulty, DivisorAt(cfg, uncle.number));
    RuleTakesSteps(cfg, FieldsOf(time, uncle), FieldsOf(time, p));
  }
}
