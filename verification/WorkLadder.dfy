/** The checkpoint ladder against the chain it replaces: the work the spine assigns to
    its boundaries is the block-by-block sum, and stays so above it. */
module WorkLadder {
  import opened ForkChains
  import opened ForkFinality
  import opened ForkInvariant
  import opened ForkSeeding
  import opened ForkSpec
  import opened ForkStore
  import opened Wrappers

  /** One step up a chain: the work adds up, and off a period boundary the target is the
      parent's where difficulty is enforced. */
  predicate StepUp(r: Rules, t: Tables, f: nat, h: nat) {
    && h > 0 && RowAt(t, f, h).Some? && RowAt(t, f, h - 1).Some?
    && RowAt(t, f, h).value.work == RowAt(t, f, h - 1).value.work + r.work(RowAt(t, f, h).value.header.bits)
    && (r.enforcesDifficulty && h % DIFFICULTY_PERIOD != 0 ==>
          RowAt(t, f, h).value.header.bits == RowAt(t, f, h - 1).value.header.bits)
  }

  /** Every step of fork `f`'s chain above `low` is one. */
  ghost predicate Stepwise(r: Rules, t: Tables, f: nat, low: nat) {
    f in t.forks && forall h {:trigger StepUp(r, t, f, h)} :: low < h <= t.forks[f].tipHeight ==> StepUp(r, t, f, h)
  }

  lemma ChainsAreStepwise(r: Rules, ht: Header -> nat, t: Tables, sp: Seeding, f: nat)
    requires Inv(r, ht, t, sp) && f in t.forks
    ensures Stepwise(r, t, f, sp.last)
  {
    forall h | sp.last < h <= t.forks[f].tipHeight ensures StepUp(r, t, f, h) {
      ChainStep(r, t, sp, f, h);
      ChainPasses(r, ht, t, sp, f, h);
      assert At(t, f, 0, [], h - 1) == HeaderAt(t, f, h - 1);
    }
  }

  /** Within a period every block carries the boundary's target. */
  lemma {:induction false} WithinPeriod(r: Rules, t: Tables, f: nat, low: nat, b: nat, j: nat)
    requires Stepwise(r, t, f, low) && r.enforcesDifficulty
    requires low <= b && b + j <= t.forks[f].tipHeight && RowAt(t, f, b).Some?
    requires b % DIFFICULTY_PERIOD == 0 && j < DIFFICULTY_PERIOD
    ensures RowAt(t, f, b + j).Some?
    ensures RowAt(t, f, b + j).value.header.bits == RowAt(t, f, b).value.header.bits
    ensures RowAt(t, f, b + j).value.work == RowAt(t, f, b).value.work + j * r.work(RowAt(t, f, b).value.header.bits)
    decreases j
  {
    if j > 0 {
      WithinPeriod(r, t, f, low, b, j - 1);
      assert StepUp(r, t, f, b + j);
      OneMore(j, r.work(RowAt(t, f, b).value.header.bits));
    }
  }

  lemma OneMore(j: nat, w: nat)
    requires j > 0
    ensures j * w == (j - 1) * w + w
  {
  }

  /** Fork `f`'s chain holds the ladder's entries at their heights. */
  predicate Climbs(t: Tables, f: nat, s: seq<Entry>) {
    forall i :: 0 <= i < |s| ==> HeaderAt(t, f, s[i].height) == Some(s[i].header)
  }

  /** Block by block from the first entry on, the chain's work at each boundary differs
      from the ladder's only by what lies below the first. */
  lemma {:induction false} LadderIsTheSum(r: Rules, t: Tables, f: nat, low: nat, s: seq<Entry>)
    requires Stepwise(r, t, f, low) && r.enforcesDifficulty
    requires s != [] && Contiguous(s) && s[0].height % DIFFICULTY_PERIOD == 0
    requires low <= s[0].height && s[|s| - 1].height <= t.forks[f].tipHeight
    requires Climbs(t, f, s)
    ensures WorkAt(t, f, s[0].height).Some? && WorkAt(t, f, s[|s| - 1].height).Some?
    ensures WorkAt(t, f, s[|s| - 1].height).value + r.work(s[0].header.bits)
         == WorkAt(t, f, s[0].height).value + LadderWork(r, s)
    decreases |s|
  {
    var n := |s| - 1;
    assert HeaderAt(t, f, s[0].height) == Some(s[0].header);
    if n > 0 {
      LadderIsTheSum(r, t, f, low, s[..n]);
      OnePeriod(r, t, f, low, s[n - 1], s[n]);
    }
  }

  /** A whole period's work, boundary to boundary. */
  lemma OnePeriod(r: Rules, t: Tables, f: nat, low: nat, e: Entry, e': Entry)
    requires Stepwise(r, t, f, low) && r.enforcesDifficulty
    requires low <= e.height && e.height % DIFFICULTY_PERIOD == 0
    requires e'.height == e.height + DIFFICULTY_PERIOD <= t.forks[f].tipHeight
    requires HeaderAt(t, f, e.height) == Some(e.header) && HeaderAt(t, f, e'.height) == Some(e'.header)
    ensures WorkAt(t, f, e'.height).value
         == WorkAt(t, f, e.height).value + (DIFFICULTY_PERIOD - 1) * r.work(e.header.bits) + r.work(e'.header.bits)
  {
    WithinPeriod(r, t, f, low, e.height, DIFFICULTY_PERIOD - 1);
    assert StepUp(r, t, f, e'.height);
  }

  /** How a store came about: what it was seeded with, and the calls since. */
  datatype History = History(entries: seq<Entry>, network: nat, calls: seq<Call>)

  ghost predicate WellSeeded(r: Rules, ht: Header -> nat, x: History) {
    Genuine(ht, x.entries) && Seed(r, Empty, x.entries, x.network).Ok?
  }

  function Ladder(x: History): seq<Entry> { SortByHeight(x.entries) }

  function Reached(r: Rules, x: History): Tables {
    match Seed(r, Empty, x.entries, x.network)
    case Ok(t) => Play(r, t, x.calls)
    case Err(_) => Empty
  }

  lemma ReachedKeepsInv(r: Rules, ht: Header -> nat, x: History)
    requires Sound(r, ht) && WellSeeded(r, ht, x)
    ensures Ladder(x) != [] && Contiguous(Ladder(x)) && Ladder(x)[0].height % DIFFICULTY_PERIOD == 0
    ensures Inv(r, ht, Reached(r, x), SeedingOf(Ladder(x)))
    ensures KeepsChains(Seed(r, Empty, x.entries, x.network).value, Reached(r, x))
  {
    var t0 := Seed(r, Empty, x.entries, x.network).value;
    SortedIsGenuine(r, ht, x.entries);
    SeedEstablishes(r, ht, x.entries, x.network);
    RunsKeepInv(r, ht, t0, SeedingOf(Ladder(x)), x.calls);
    RunsKeepChains(r, ht, t0, SeedingOf(Ladder(x)), x.calls);
  }

  lemma SeededRow(r: Rules, ht: Header -> nat, x: History, i: nat)
    requires Sound(r, ht) && WellSeeded(r, ht, x) && i < |Ladder(x)|
    ensures var s := Ladder(x); var t0 := Seed(r, Empty, x.entries, x.network).value;
            && 0 in t0.forks && s[i].height <= s[|s| - 1].height == t0.forks[0].tipHeight
            && RowAt(t0, 0, s[i].height) == Some(Row(s[i].header, LadderWork(r, s[..i + 1])))
  {
    var s := Ladder(x);
    SortedIsGenuine(r, ht, x.entries);
    SeedIsSeeded(r, x.entries, x.network);
    PutSeedsEffect(r, s, i);
  }

  /** Whatever the calls since, every fork's chain holds the seeds with the ladder's work. */
  lemma SeededLadder(r: Rules, ht: Header -> nat, x: History, f: nat, i: nat)
    requires Sound(r, ht) && WellSeeded(r, ht, x) && i < |Ladder(x)| && f in Reached(r, x).forks
    ensures RowAt(Reached(r, x), f, Ladder(x)[i].height)
         == Some(Row(Ladder(x)[i].header, LadderWork(r, Ladder(x)[..i + 1])))
  {
    var s := Ladder(x);
    var t := Reached(r, x);
    ReachedKeepsInv(r, ht, x);
    SeededRow(r, ht, x, i);
    SharesSeeds(r, ht, t, SeedingOf(s), f, s[i].height);
  }

  lemma SharesSeeds(r: Rules, ht: Header -> nat, t: Tables, sp: Seeding, f: nat, h: nat)
    requires Inv(r, ht, t, sp) && f in t.forks && h <= sp.last
    ensures RowAt(t, f, h) == RowAt(t, 0, h)
  {
    RootOwns(t, sp, f, 0);
    AgreesBelowDeparture(r, ht, t, sp, f, sp.last);
  }

  lemma ReachedIsStepwise(r: Rules, ht: Header -> nat, x: History, f: nat)
    requires Sound(r, ht) && WellSeeded(r, ht, x) && f in Reached(r, x).forks
    ensures Ladder(x) != [] && Stepwise(r, Reached(r, x), f, SeedingOf(Ladder(x)).last)
  {
    ReachedKeepsInv(r, ht, x);
    ChainsAreStepwise(r, ht, Reached(r, x), SeedingOf(Ladder(x)), f);
  }

  /** A history that seeded nothing but genesis. */
  predicate FromGenesis(x: History, genesis: Header) {
    x.entries == [Entry(0, genesis)]
  }

  /** A chain connected from genesis alone: stepwise all the way, from genesis's own work. */
  lemma GenesisChain(r: Rules, ht: Header -> nat, x: History, genesis: Header, f: nat)
    requires Sound(r, ht) && WellSeeded(r, ht, x) && FromGenesis(x, genesis) && f in Reached(r, x).forks
    ensures Stepwise(r, Reached(r, x), f, 0) && WorkAt(Reached(r, x), f, 0) == Some(r.work(genesis.bits))
  {
    GenesisSeeding(genesis);
    ReachedIsStepwise(r, ht, x, f);
    SeededLadder(r, ht, x, f, 0);
    assert Ladder(x)[..1] == Ladder(x);
  }

  /** Where difficulty is enforced, seeding the boundary headers of a chain gives every
      boundary the work that connecting the whole chain from genesis gives it. */
  lemma LadderAgreesAtBoundaries(r: Rules, ht: Header -> nat, full: History, genesis: Header, f: nat,
                                 spine: History, f': nat, i: nat)
    requires Sound(r, ht) && r.enforcesDifficulty
    requires WellSeeded(r, ht, full) && FromGenesis(full, genesis) && f in Reached(r, full).forks
    requires WellSeeded(r, ht, spine) && i < |Ladder(spine)| && Ladder(spine)[0] == Entry(0, genesis)
    requires Ladder(spine)[i].height <= Reached(r, full).forks[f].tipHeight
    requires Climbs(Reached(r, full), f, Ladder(spine)[..i + 1])
    requires f' in Reached(r, spine).forks
    ensures var h := Ladder(spine)[i].height;
            WorkAt(Reached(r, full), f, h).Some? && WorkAt(Reached(r, spine), f', h) == WorkAt(Reached(r, full), f, h)
  {
    LadderShape(r, ht, spine);
    GenesisChain(r, ht, full, genesis, f);
    SeededLadder(r, ht, spine, f', i);
    LadderPrefix(r, Reached(r, full), f, Ladder(spine), i);
  }

  lemma LadderShape(r: Rules, ht: Header -> nat, x: History)
    requires Sound(r, ht) && WellSeeded(r, ht, x)
    ensures Ladder(x) != [] && Contiguous(Ladder(x)) && Ladder(x)[0].height % DIFFICULTY_PERIOD == 0
  {
    SortedIsGenuine(r, ht, x.entries);
    var s := SortByHeight(x.entries);
    assert s[0] in s;
  }

  lemma LadderPrefix(r: Rules, t: Tables, f: nat, s: seq<Entry>, i: nat)
    requires Stepwise(r, t, f, 0) && r.enforcesDifficulty
    requires i < |s| && Contiguous(s) && s[0].height == 0
    requires WorkAt(t, f, 0) == Some(r.work(s[0].header.bits))
    requires s[i].height <= t.forks[f].tipHeight && Climbs(t, f, s[..i + 1])
    ensures WorkAt(t, f, s[i].height) == Some(LadderWork(r, s[..i + 1]))
  {
    LadderIsTheSum(r, t, f, 0, s[..i + 1]);
  }

  lemma GenesisSeeding(genesis: Header)
    ensures SortByHeight([Entry(0, genesis)]) == [Entry(0, genesis)]
    ensures SeedingOf([Entry(0, genesis)]) == Seeding(0, 0)
  {
    assert [Entry(0, genesis)][1..] == [];
    assert SortByHeight([]) == [];
    assert SortByHeight([Entry(0, genesis)]) == InsertByHeight(Entry(0, genesis), []);
  }

  /** Two stores whose chains carry the same headers above a height where their work
      agrees keep agreeing at every height both reach. */
  lemma {:induction false} AgreementClimbs(r: Rules, a: Tables, f: nat, b: Tables, f': nat, low: nat, h: nat)
    requires Stepwise(r, a, f, low) && Stepwise(r, b, f', low)
    requires low <= h && h <= a.forks[f].tipHeight && h <= b.forks[f'].tipHeight
    requires WorkAt(a, f, low).Some? && WorkAt(b, f', low) == WorkAt(a, f, low)
    requires forall x: nat :: low < x <= h ==> HeaderAt(a, f, x) == HeaderAt(b, f', x)
    ensures WorkAt(a, f, h).Some? && WorkAt(b, f', h) == WorkAt(a, f, h)
    decreases h - low
  {
    if h > low {
      AgreementClimbs(r, a, f, b, f', low, h - 1);
      assert StepUp(r, a, f, h) && StepUp(r, b, f', h);
      assert HeaderAt(a, f, h) == HeaderAt(b, f', h);
    }
  }

  /** So a store seeded with the boundary headers and one that connected every header from
      genesis agree on cumulative work at every height above the ladder too. */
  lemma LadderAgreesAbove(r: Rules, ht: Header -> nat, full: History, genesis: Header, f: nat,
                          spine: History, f': nat, low: nat, h: nat)
    requires Sound(r, ht) && r.enforcesDifficulty
    requires WellSeeded(r, ht, full) && FromGenesis(full, genesis) && f in Reached(r, full).forks
    requires WellSeeded(r, ht, spine) && Ladder(spine) != [] && Ladder(spine)[0] == Entry(0, genesis)
    requires Climbs(Reached(r, full), f, Ladder(spine)) && f' in Reached(r, spine).forks
    requires low == Ladder(spine)[|Ladder(spine)| - 1].height <= h
    requires h <= Reached(r, full).forks[f].tipHeight && h <= Reached(r, spine).forks[f'].tipHeight
    requires forall x: nat :: low < x <= h ==> HeaderAt(Reached(r, full), f, x) == HeaderAt(Reached(r, spine), f', x)
    ensures WorkAt(Reached(r, full), f, h).Some?
    ensures WorkAt(Reached(r, spine), f', h) == WorkAt(Reached(r, full), f, h)
  {
    var n := |Ladder(spine)| - 1;
    assert Ladder(spine)[..n + 1] == Ladder(spine);
    LadderAgreesAtBoundaries(r, ht, full, genesis, f, spine, f', n);
    GenesisChain(r, ht, full, genesis, f);
    ReachedIsStepwise(r, ht, spine, f');
    AgreementClimbs(r, Reached(r, full), f, Reached(r, spine), f', low, h);
  }
}
