/** A store that is reached by connecting headers, on which a finalized header is replaced
    and the canonical check accepts blocks off the best chain. */
module ForkWitness {
  import opened ForkChains
  import opened ForkDisplacement
  import opened ForkFinality
  import opened ForkGrowth
  import opened ForkInvariant
  import opened ForkRuns
  import opened ForkSeeding
  import opened ForkSpec
  import opened ForkStore
  import opened Pairing
  import WorkLadder
  import opened Wrappers

  // ── rules that can be written down ─────────────────────────────────────────

  function HashOf(h: Header): (x: Hash)
    ensures x > h.prev
  {
    Pair(h.prev, Pair(h.time, Pair(h.bits, h.rest))) + 1
  }

  lemma HashIsInjective(a: Header, b: Header)
    requires HashOf(a) == HashOf(b)
    ensures a == b
  {
    PairIsInjective(a.prev, Pair(a.time, Pair(a.bits, a.rest)), b.prev, Pair(b.time, Pair(b.bits, b.rest)));
    PairIsInjective(a.time, Pair(a.bits, a.rest), b.time, Pair(b.bits, b.rest));
    PairIsInjective(a.bits, a.rest, b.bits, b.rest);
  }

  /** As on a test network: every block carries one unit of work, and no retarget applies. */
  const Plain: Rules := Rules(HashOf, (bits: nat) => 1, (a: Header, b: Header) => 0, (h: Header) => true, false)

  /** How many headers a hash stands on. */
  ghost function Depth(x: Hash): nat {
    if h: Header :| HashOf(h) == x then
      var h: Header :| HashOf(h) == x;
      1 + Depth(h.prev)
    else 0
  }

  ghost function HeightOfHeader(h: Header): nat { Depth(h.prev) }

  lemma DepthOfHash(a: Header)
    ensures Depth(HashOf(a)) == 1 + Depth(a.prev)
  {
    var h: Header :| HashOf(h) == HashOf(a) && Depth(HashOf(a)) == 1 + Depth(h.prev);
    HashIsInjective(h, a);
  }

  /** Rules of a test network, whatever the hash: a unit of work a block, no retarget, and
      every header with its proof of work. */
  ghost predicate UnitRules(r: Rules, ht: Header -> nat) {
    && Sound(r, ht) && !r.enforcesDifficulty
    && (forall bits: nat :: r.work(bits) == 1) && (forall h: Header :: r.validPow(h))
  }

  /** There are such rules: nothing the theorems assume is more than these satisfy. */
  lemma PlainIsUnit()
    ensures UnitRules(Plain, HeightOfHeader) && HeightOfHeader(Header(0, 0, 0, 0)) == 0
  {
    forall a: Header, b: Header | Plain.hash(a) == Plain.hash(b) ensures a == b {
      HashIsInjective(a, b);
    }
    forall a: Header, b: Header | b.prev == Plain.hash(a) ensures HeightOfHeader(b) == HeightOfHeader(a) + 1 {
      DepthOfHash(a);
    }
  }

  // ── branches of headers ────────────────────────────────────────────────────

  /** A header on top of `h`; the mark tells branches apart. */
  function Child(r: Rules, h: Header, mark: nat): Header { Header(r.hash(h), h.time + 1, 0, mark) }

  function Branch(r: Rules, h: Header, n: nat, mark: nat): (b: seq<Header>)
    ensures |b| == n && (n > 0 ==> b[0] == Child(r, h, mark))
    decreases n
  {
    if n == 0 then [] else [Child(r, h, mark)] + Branch(r, Child(r, h, mark), n - 1, mark)
  }

  lemma {:induction false} BranchAt(r: Rules, h: Header, n: nat, mark: nat, i: nat)
    requires i < n
    ensures Branch(r, h, n, mark)[i].time == h.time + 1 + i
    ensures i > 0 ==> Branch(r, h, n, mark)[i].prev == r.hash(Branch(r, h, n, mark)[i - 1])
    decreases n
  {
    if i > 0 {
      BranchAt(r, Child(r, h, mark), n - 1, mark, i - 1);
    }
  }

  /** Every stored header's time is its height. */
  ghost predicate Timed(t: Tables) {
    forall k :: k in t.rows ==> t.rows[k].header.time == k.height
  }

  predicate TimedRun(run: seq<Header>, start: nat) {
    forall j :: 0 <= j < |run| ==> run[j].time == start + j
  }

  lemma {:induction false} TimesBelow(t: Tables, f: nat, start: nat, run: seq<Header>, height: nat, k: nat)
    requires Timed(t) && TimedRun(run, start) && Times(t, f, start, run, height, k).Some?
    ensures forall x :: x in Times(t, f, start, run, height, k).value ==> x < height
    decreases k
  {
    if k > 0 {
      TimesBelow(t, f, start, run, height - 1, k - 1);
    }
  }

  lemma {:induction false} NoneAtLeast(s: seq<nat>, m: nat)
    requires forall x :: x in s ==> x < m
    ensures AtLeast(s, m) == 0
  {
    if s != [] {
      assert s[0] in s && forall x :: x in s[1..] ==> x in s;
      NoneAtLeast(s[1..], m);
    }
  }

  /** The rules that pass any linked header with a late enough time. */
  ghost predicate Lenient(r: Rules) {
    !r.enforcesDifficulty && forall h: Header :: r.validPow(h)
  }

  lemma HeaderPasses(r: Rules, t: Tables, f: nat, start: nat, run: seq<Header>, i: nat, prev: Hash)
    requires Lenient(r) && Timed(t) && TimedRun(run, start) && start > 0 && i < |run| && run[i].prev == prev
    ensures CheckHeader(r, t, f, start, run, i, prev).None?
  {
    var height := start + i;
    if MedianTimePast(t, f, start, run, height).Some? {
      TimesLength(t, f, start, run, height, MEDIAN_TIME_PAST);
      TimesBelow(t, f, start, run, height, MEDIAN_TIME_PAST);
      var times := Times(t, f, start, run, height, MEDIAN_TIME_PAST).value;
      NoneAtLeast(times, height);
      MedianCounts(times, height);
    }
  }

  lemma {:induction false} RunPasses(r: Rules, t: Tables, f: nat, start: nat, run: seq<Header>, i: nat, prev: Hash)
    requires Lenient(r) && Timed(t) && TimedRun(run, start) && start > 0 && i <= |run|
    requires i < |run| ==> run[i].prev == prev
    requires forall j :: i < j < |run| ==> run[j].prev == r.hash(run[j - 1])
    ensures CheckRun(r, t, f, start, run, i, prev).None?
    decreases |run| - i
  {
    if i < |run| {
      HeaderPasses(r, t, f, start, run, i, prev);
      RunPasses(r, t, f, start, run, i + 1, r.hash(run[i]));
    }
  }

  // ── stores of such branches ────────────────────────────────────────────────

  const FromStart: Seeding := Seeding(0, 0)

  ghost predicate Grown(r: Rules, ht: Header -> nat, t: Tables) {
    && UnitRules(r, ht) && Inv(r, ht, t, FromStart) && Timed(t) && t.network == Some(0)
    && Place(0, 0) in t.rows && t.rows[Place(0, 0)].work == 1
  }

  lemma {:induction false} UnitWork(r: Rules, t: Tables, f: nat, h: nat)
    requires ForksOk(t, FromStart) && RowsOk(t, FromStart) && LinksOk(r, t, FromStart)
    requires forall bits: nat :: r.work(bits) == 1
    requires Place(0, 0) in t.rows && t.rows[Place(0, 0)].work == 1
    requires f in t.forks && h <= t.forks[f].tipHeight
    ensures WorkAt(t, f, h) == Some(h + 1)
    decreases h
  {
    if h == 0 {
      RootOwns(t, FromStart, f, 0);
    } else {
      ChainStep(r, t, FromStart, f, h);
      UnitWork(r, t, f, h - 1);
    }
  }

  /** A header is unknown if no row at its height holds it. */
  lemma IsUnknown(r: Rules, ht: Header -> nat, t: Tables, h: Header)
    requires Injective(r) && IndexOk(r, t) && HeightsOk(ht, t)
    requires forall k :: k in t.rows && k.height == ht(h) ==> t.rows[k].header != h
    ensures r.hash(h) !in t.index
  {
  }

  function CallOf(r: Rules, t: Tables, parent: Place, n: nat, mark: nat): Call
    requires parent in t.rows
  {
    Call(0, Branch(r, t.rows[parent].header, n, mark))
  }

  /** A branch can go on any stored block it is not on yet, above the floor or at a tip. */
  lemma BranchIsAccepted(r: Rules, t: Tables, parent: Place, n: nat, mark: nat)
    requires Lenient(r) && IndexOk(r, t) && Timed(t) && t.network == Some(0)
    requires parent in t.rows && n > 0 && !Refused(t, parent)
    requires r.hash(Child(r, t.rows[parent].header, mark)) !in t.index
    ensures var call := CallOf(r, t, parent, n, mark);
      Accepted(r, t, call) && ParentOf(r, t, call) == parent && NewRun(r, t, call) == call.headers
  {
    var h := t.rows[parent].header;
    var run := Branch(r, h, n, mark);
    assert KnownPrefix(r, t, run) == 0 && run[0..] == run;
    var g := GrowthOf(r, t, parent, run);
    forall j | 0 <= j < |run| ensures run[j].time == g.start + j && (j > 0 ==> run[j].prev == r.hash(run[j - 1])) {
      BranchAt(r, h, n, mark, j);
    }
    RunPasses(r, g.t1, g.f, g.start, run, 0, r.hash(h));
  }

  lemma UnitRow(r: Rules, t: Tables, parent: Place)
    requires ForksOk(t, FromStart) && RowsOk(t, FromStart) && LinksOk(r, t, FromStart)
    requires forall bits: nat :: r.work(bits) == 1
    requires Place(0, 0) in t.rows && t.rows[Place(0, 0)].work == 1 && parent in t.rows
    ensures t.rows[parent].work == parent.height + 1
  {
    assert Occupied(t.forks, FromStart, parent);
    OwnRow(t, FromStart, parent);
    UnitWork(r, t, parent.fork, parent.height);
  }

  lemma {:induction false} UnitRun(r: Rules, run: seq<Header>)
    requires forall bits: nat :: r.work(bits) == 1
    ensures RunWork(r, run) == |run|
    decreases |run|
  {
    if run != [] {
      UnitRun(r, run[..|run| - 1]);
    }
  }

  function BranchGrowth(r: Rules, t: Tables, parent: Place, n: nat, mark: nat): Growth
    requires parent in t.rows && n > 0
  {
    GrowthOf(r, t, parent, Branch(r, t.rows[parent].header, n, mark))
  }

  function BranchOn(r: Rules, t: Tables, parent: Place, n: nat, mark: nat): Tables
    requires parent in t.rows
  {
    Apply(r, t, CallOf(r, t, parent, n, mark))
  }

  /** Such a call is a growth, and its fork is best if it is longer. */
  lemma BranchGrows(r: Rules, ht: Header -> nat, t: Tables, parent: Place, n: nat, mark: nat)
    requires Grown(r, ht, t) && parent in t.rows && n > 0 && !Refused(t, parent)
    requires r.hash(Child(r, t.rows[parent].header, mark)) !in t.index
    ensures GrownBy(r, BranchGrowth(r, t, parent, n, mark), BranchOn(r, t, parent, n, mark), FromStart)
    ensures t.best.Some? && BranchOn(r, t, parent, n, mark).best
         == if parent.height + 1 + n > TipWork(t, t.best.value)
            then Some(BranchGrowth(r, t, parent, n, mark).f) else t.best
  {
    var run := Branch(r, t.rows[parent].header, n, mark);
    BranchIsAccepted(r, t, parent, n, mark);
    UnitRun(r, run);
    UnitRow(r, t, parent);
    BestAfterRun(r, ht, t, FromStart, CallOf(r, t, parent, n, mark), parent, run);
  }

  lemma StillTimed(r: Rules, g: Growth)
    requires Prepared(r, g, FromStart) && ForksOk(g.t, FromStart) && RowsOk(g.t, FromStart)
    requires Timed(g.t) && TimedRun(g.run, g.start)
    ensures Timed(After(r, g))
  {
    AfterRows(r, g, FromStart);
    forall k | k in After(r, g).rows ensures After(r, g).rows[k].header.time == k.height {
      if k !in g.t.rows {
        NewRow(r, g, FromStart, k.height - g.start);
      }
    }
  }

  lemma BranchIsTimed(r: Rules, h: Header, n: nat, mark: nat)
    ensures TimedRun(Branch(r, h, n, mark), h.time + 1)
  {
    forall j | 0 <= j < n ensures Branch(r, h, n, mark)[j].time == h.time + 1 + j {
      BranchAt(r, h, n, mark, j);
    }
  }

  lemma GrownRows(r: Rules, g: Growth, t': Tables)
    requires GrownBy(r, g, t', FromStart) && ForksOk(g.t, FromStart) && RowsOk(g.t, FromStart)
             && FloorOk(g.t, FromStart)
    ensures t'.rows == After(r, g).rows && t'.network == g.t.network
    ensures forall k :: k in g.t.rows ==> k in t'.rows && t'.rows[k] == g.t.rows[k]
  {
    GrowFloor(r, g, FromStart);
    AfterRows(r, g, FromStart);
  }

  lemma BranchStaysTimed(r: Rules, t: Tables, t': Tables, parent: Place, n: nat, mark: nat)
    requires ForksOk(t, FromStart) && RowsOk(t, FromStart) && FloorOk(t, FromStart) && Timed(t) && parent in t.rows
             && n > 0
    requires GrownBy(r, BranchGrowth(r, t, parent, n, mark), t', FromStart)
    ensures Timed(t')
  {
    var g := BranchGrowth(r, t, parent, n, mark);
    GrownRows(r, g, t');
    BranchIsTimed(r, t.rows[parent].header, n, mark);
    StillTimed(r, g);
  }

  lemma BranchStaysGrown(r: Rules, ht: Header -> nat, t: Tables, parent: Place, n: nat, mark: nat)
    requires Grown(r, ht, t) && parent in t.rows && n > 0 && !Refused(t, parent)
    requires r.hash(Child(r, t.rows[parent].header, mark)) !in t.index
    ensures Grown(r, ht, BranchOn(r, t, parent, n, mark))
  {
    ApplyIsGood(r, ht, t, FromStart, CallOf(r, t, parent, n, mark));
    BranchGrows(r, ht, t, parent, n, mark);
    GrownRows(r, BranchGrowth(r, t, parent, n, mark), BranchOn(r, t, parent, n, mark));
    BranchStaysTimed(r, t, BranchOn(r, t, parent, n, mark), parent, n, mark);
  }

  /** What a branch changes: its fork's tip, or a new fork; rows on top of those there were;
      and the floor only once the root has room for a period above a boundary. */
  lemma BranchShape(r: Rules, ht: Header -> nat, t: Tables, parent: Place, n: nat, mark: nat)
    requires Grown(r, ht, t) && parent in t.rows && n > 0 && !Refused(t, parent)
    requires r.hash(Child(r, t.rows[parent].header, mark)) !in t.index
    ensures var f := BranchGrowth(r, t, parent, n, mark).f; var t' := BranchOn(r, t, parent, n, mark);
      && t'.forks.Keys == t.forks.Keys + {f} && t'.forks[f].tipHeight == parent.height + n
      && (forall x :: x in t.forks && x != f ==> t'.forks[x] == t.forks[x])
      && (f in t.forks ==> t'.forks[f].parent == t.forks[f].parent && t'.forks[f].forkpoint == t.forks[f].forkpoint)
      && (if parent.height == ForkTip(t, parent.fork).GetOr(0) then f == parent.fork
          else f !in t.forks && t'.forks[f].parent == Some(parent.fork) && t'.forks[f].forkpoint == parent.height + 1)
    ensures var f := BranchGrowth(r, t, parent, n, mark).f; var t' := BranchOn(r, t, parent, n, mark);
      && (forall k :: k in t.rows ==> k in t'.rows && t'.rows[k] == t.rows[k])
      && Place(f, parent.height + 1) in t'.rows
      && t'.rows[Place(f, parent.height + 1)].header == Child(r, t.rows[parent].header, mark)
  {
    var g := BranchGrowth(r, t, parent, n, mark);
    BranchGrows(r, ht, t, parent, n, mark);
    AfterForks(r, g, FromStart);
    GrownRows(r, g, BranchOn(r, t, parent, n, mark));
    NewRow(r, g, FromStart, 0);
  }

  lemma BranchFinalizes(r: Rules, ht: Header -> nat, t: Tables, parent: Place, n: nat, mark: nat)
    requires Grown(r, ht, t) && parent in t.rows && n > 0 && !Refused(t, parent)
    requires r.hash(Child(r, t.rows[parent].header, mark)) !in t.index
    ensures var t' := BranchOn(r, t, parent, n, mark);
      Finalize(t'.(floor := t.floor)).Some? && Finalize(t'.(floor := t.floor)).value.0 == t'
  {
    var run := Branch(r, t.rows[parent].header, n, mark);
    var g := BranchGrowth(r, t, parent, n, mark);
    BranchIsAccepted(r, t, parent, n, mark);
    ApplyFinalizes(r, ht, t, FromStart, CallOf(r, t, parent, n, mark), parent, run);
    GrowFloor(r, g, FromStart);
    FinalizeChangesFloor(Reselect(After(r, g), g.f));
    ReselectChangesBest(After(r, g), g.f);
  }

  lemma FinalizeChangesFloor(t: Tables)
    requires Finalize(t).Some?
    ensures Finalize(t).value.0.(floor := t.floor) == t
  {
  }

  /** What the history below asks of a branch's effect. */
  predicate Added(r: Rules, t: Tables, t': Tables, parent: Place, n: nat, mark: nat, f: nat)
    requires parent in t.rows
  {
    && t'.forks.Keys == t.forks.Keys + {f} && t'.forks[f].tipHeight == parent.height + n
    && (forall x :: x in t.forks && x != f ==> t'.forks[x] == t.forks[x])
    && (f in t.forks ==> t'.forks[f].parent == t.forks[f].parent && t'.forks[f].forkpoint == t.forks[f].forkpoint)
    && (if parent.height == ForkTip(t, parent.fork).GetOr(0) then f == parent.fork
        else f !in t.forks && t'.forks[f].parent == Some(parent.fork) && t'.forks[f].forkpoint == parent.height + 1)
    && (forall k :: k in t.rows ==> k in t'.rows && t'.rows[k] == t.rows[k])
    && Place(f, parent.height + 1) in t'.rows
    && t'.rows[Place(f, parent.height + 1)].header == Child(r, t.rows[parent].header, mark)
    && t.best.Some?
    && t'.best == (if parent.height + 1 + n > TipWork(t, t.best.value) then Some(f) else t.best)
    && Finalize(t'.(floor := t.floor)).Some? && Finalize(t'.(floor := t.floor)).value.0 == t'
  }

  lemma BranchAdds(r: Rules, ht: Header -> nat, t: Tables, parent: Place, n: nat, mark: nat)
    requires Grown(r, ht, t) && parent in t.rows && n > 0 && !Refused(t, parent)
    requires r.hash(Child(r, t.rows[parent].header, mark)) !in t.index
    ensures Added(r, t, BranchOn(r, t, parent, n, mark), parent, n, mark, BranchGrowth(r, t, parent, n, mark).f)
  {
    BranchShape(r, ht, t, parent, n, mark);
    BranchGrows(r, ht, t, parent, n, mark);
    BranchFinalizes(r, ht, t, parent, n, mark);
  }

  // ── the history ────────────────────────────────────────────────────────────

  /** The store seeded with a genesis block. */
  function Start(r: Rules, genesis: Header): Tables {
    WorkLadder.GenesisSeeding(genesis);
    Seed(r, Empty, [Entry(0, genesis)], 0).value
  }

  lemma StartIsGrown(r: Rules, ht: Header -> nat, genesis: Header)
    requires UnitRules(r, ht) && ht(genesis) == 0 && genesis.time == 0
    ensures Seed(r, Empty, [Entry(0, genesis)], 0).Ok?
    ensures Grown(r, ht, Start(r, genesis))
    ensures Start(r, genesis).forks.Keys == {0} && Start(r, genesis).forks[0].tipHeight == 0
    ensures Start(r, genesis).best == Some(0) && Start(r, genesis).floor == Some(0)
    ensures Start(r, genesis).rows == map[Place(0, 0) := Row(genesis, 1)]
  {
    var s := [Entry(0, genesis)];
    WorkLadder.GenesisSeeding(genesis);
    assert s[..0] == [] && PutSeeds(r, Empty, s) == PutSeed(r, Empty, s[0], LadderWork(r, s));
    SeedEstablishes(r, ht, s, 0);
  }

  lemma FloorStays(t: Tables)
    requires 0 in t.forks && t.forks[0].tipHeight < FINALITY_MARGIN && Finalize(t).Some?
    ensures Finalize(t).value.0 == t
  {
  }

  lemma ChildHeight(r: Rules, ht: Header -> nat, h: Header, mark: nat)
    requires Sound(r, ht)
    ensures ht(Child(r, h, mark)) == ht(h) + 1
  {
    assert Child(r, h, mark).prev == r.hash(h);
  }

  /** One root block on the genesis block. */
  predicate RootOnly(r: Rules, genesis: Header, t: Tables) {
    && t.forks.Keys == {0} && t.forks[0].tipHeight == 1 && t.best == Some(0) && t.floor == Some(0)
    && Place(0, 0) in t.rows && t.rows[Place(0, 0)].header == genesis
    && Place(0, 1) in t.rows && t.rows[Place(0, 1)].header == Child(r, genesis, 0)
  }

  /** The root grown to `tip`, beside a fork of one block that left it at once. */
  predicate RootAndFork(r: Rules, genesis: Header, t: Tables, f: nat, tip: nat) {
    && f != 0 && t.forks.Keys == {0, f} && t.forks[0].tipHeight == tip && t.forks[f].tipHeight == 1
    && t.forks[f].forkpoint == 1 && t.forks[f].parent == Some(0) && t.best == Some(0)
    && Place(0, 1) in t.rows && t.rows[Place(0, 1)].header == Child(r, genesis, 0)
    && Place(f, 1) in t.rows && t.rows[Place(f, 1)].header == Child(r, genesis, 1)
    && (tip > 1 ==> Place(0, 2) in t.rows && t.rows[Place(0, 2)].header == Child(r, Child(r, genesis, 0), 0))
  }

  lemma FirstKnown(r: Rules, ht: Header -> nat, genesis: Header)
    requires UnitRules(r, ht) && ht(genesis) == 0 && genesis.time == 0
    ensures Grown(r, ht, Start(r, genesis)) && Start(r, genesis).rows == map[Place(0, 0) := Row(genesis, 1)]
    ensures r.hash(Child(r, genesis, 0)) !in Start(r, genesis).index
  {
    StartIsGrown(r, ht, genesis);
    ChildHeight(r, ht, genesis, 0);
    IsUnknown(r, ht, Start(r, genesis), Child(r, genesis, 0));
  }

  lemma FirstShape(r: Rules, genesis: Header, t: Tables, t': Tables, f: nat)
    requires t.rows == map[Place(0, 0) := Row(genesis, 1)] && t.forks.Keys == {0} && t.forks[0].tipHeight == 0
    requires t.best == Some(0) && t.floor == Some(0) && Added(r, t, t', Place(0, 0), 1, 0, f)
    ensures RootOnly(r, genesis, t')
  {
    FloorStays(t'.(floor := t.floor));
  }

  lemma FirstBlock(r: Rules, ht: Header -> nat, genesis: Header)
    requires UnitRules(r, ht) && ht(genesis) == 0 && genesis.time == 0
    ensures Place(0, 0) in Start(r, genesis).rows
    ensures var t := BranchOn(r, Start(r, genesis), Place(0, 0), 1, 0); Grown(r, ht, t) && RootOnly(r, genesis, t)
  {
    var t, parent := Start(r, genesis), Place(0, 0);
    StartIsGrown(r, ht, genesis);
    FirstKnown(r, ht, genesis);
    BranchStaysGrown(r, ht, t, parent, 1, 0);
    BranchAdds(r, ht, t, parent, 1, 0);
    FirstShape(r, genesis, t, BranchOn(r, t, parent, 1, 0), BranchGrowth(r, t, parent, 1, 0).f);
  }

  lemma SecondKnown(r: Rules, ht: Header -> nat, genesis: Header, t: Tables)
    requires Grown(r, ht, t) && RootOnly(r, genesis, t) && ht(genesis) == 0
    ensures r.hash(Child(r, genesis, 1)) !in t.index && TipWork(t, 0) == 2
  {
    ChildHeight(r, ht, genesis, 1);
    forall k | k in t.rows && k.height == 1 ensures t.rows[k].header != Child(r, genesis, 1) {
      assert Occupied(t.forks, FromStart, k);
    }
    IsUnknown(r, ht, t, Child(r, genesis, 1));
    UnitWork(r, t, 0, 1);
  }

  lemma SecondShape(r: Rules, genesis: Header, t: Tables, t': Tables, f: nat)
    requires RootOnly(r, genesis, t) && TipWork(t, 0) == 2 && Added(r, t, t', Place(0, 0), 1, 1, f)
    ensures RootAndFork(r, genesis, t', f, 1) && t'.floor == Some(0)
  {
    FloorStays(t'.(floor := t.floor));
  }

  lemma SecondBranch(r: Rules, ht: Header -> nat, genesis: Header, t: Tables) returns (f: nat)
    requires Grown(r, ht, t) && RootOnly(r, genesis, t) && ht(genesis) == 0
    ensures var t' := BranchOn(r, t, Place(0, 0), 1, 1);
            Grown(r, ht, t') && RootAndFork(r, genesis, t', f, 1) && t'.floor == Some(0)
  {
    f := BranchGrowth(r, t, Place(0, 0), 1, 1).f;
    SecondKnown(r, ht, genesis, t);
    BranchStaysGrown(r, ht, t, Place(0, 0), 1, 1);
    BranchAdds(r, ht, t, Place(0, 0), 1, 1);
    SecondShape(r, genesis, t, BranchOn(r, t, Place(0, 0), 1, 1), f);
  }

  /** A unit-work root two whole periods long settles the first boundary. */
  lemma FloorMoves(r: Rules, t: Tables)
    requires ForksOk(t, FromStart) && RowsOk(t, FromStart) && LinksOk(r, t, FromStart)
    requires (forall bits: nat :: r.work(bits) == 1) && Place(0, 0) in t.rows && t.rows[Place(0, 0)].work == 1
    requires t.best == Some(0) && t.floor == Some(0) && t.forks[0].tipHeight == 2 * DIFFICULTY_PERIOD
    ensures Finalize(t).Some? && Finalize(t).value.0.floor == Some(DIFFICULTY_PERIOD)
  {
    UnitWork(r, t, 0, 0);
    UnitWork(r, t, 0, DIFFICULTY_PERIOD);
    UnitWork(r, t, 0, 2 * DIFFICULTY_PERIOD);
  }

  lemma FloorHasMoved(r: Rules, ht: Header -> nat, t: Tables, floor: Option<nat>)
    requires Grown(r, ht, t) && floor == Some(0)
    requires t.best == Some(0) && t.forks[0].tipHeight == 2 * DIFFICULTY_PERIOD
    requires Finalize(t.(floor := floor)).Some? && Finalize(t.(floor := floor)).value.0 == t
    ensures t.floor == Some(DIFFICULTY_PERIOD)
  {
    SameTables(r, ht, t, t.(floor := floor), FromStart);
    FloorMoves(r, t.(floor := floor));
  }

  lemma ThirdKnown(r: Rules, ht: Header -> nat, genesis: Header, t: Tables, f: nat)
    requires Grown(r, ht, t) && RootAndFork(r, genesis, t, f, 1) && ht(genesis) == 0
    ensures r.hash(Child(r, Child(r, genesis, 0), 0)) !in t.index && TipWork(t, 0) == 2
  {
    GrandchildHeight(r, ht, genesis, 0);
    LowRows(t, f);
    IsUnknown(r, ht, t, Child(r, Child(r, genesis, 0), 0));
    UnitWork(r, t, 0, 1);
  }

  lemma GrandchildHeight(r: Rules, ht: Header -> nat, genesis: Header, mark: nat)
    requires Sound(r, ht) && ht(genesis) == 0
    ensures ht(Child(r, Child(r, genesis, mark), mark)) == 2
  {
    ChildHeight(r, ht, genesis, mark);
    ChildHeight(r, ht, Child(r, genesis, mark), mark);
  }

  lemma LowRows(t: Tables, f: nat)
    requires RowsOk(t, FromStart) && t.forks.Keys == {0, f} && t.forks[0].tipHeight == 1 && t.forks[f].tipHeight == 1
    ensures forall k :: k in t.rows ==> k.height < 2
  {
    assert forall k :: k in t.rows ==> Occupied(t.forks, FromStart, k);
  }

  lemma RootRow(t: Tables, f: nat, k: Place)
    requires RowsOk(t, FromStart) && t.forks.Keys == {0, f} && t.forks[f].tipHeight == 1
    requires k in t.rows && k.height == 2
    ensures k == Place(0, 2)
  {
    assert Occupied(t.forks, FromStart, k);
  }

  lemma ThirdShape(r: Rules, genesis: Header, t: Tables, t': Tables, f: nat, n: nat, g: nat)
    requires RootAndFork(r, genesis, t, f, 1) && n > 0 && Added(r, t, t', Place(0, 1), n, 0, g)
    ensures RootAndFork(r, genesis, t', f, n + 1)
  {
  }

  lemma RootRises(r: Rules, ht: Header -> nat, genesis: Header, t: Tables, f: nat, n: nat)
    requires Grown(r, ht, t) && RootAndFork(r, genesis, t, f, 1) && ht(genesis) == 0
    requires t.floor == Some(0) && n + 1 == 2 * DIFFICULTY_PERIOD
    ensures var t' := BranchOn(r, t, Place(0, 1), n, 0);
            Grown(r, ht, t') && RootAndFork(r, genesis, t', f, n + 1) && t'.floor == Some(DIFFICULTY_PERIOD)
  {
    var t' := BranchOn(r, t, Place(0, 1), n, 0);
    ThirdKnown(r, ht, genesis, t, f);
    BranchStaysGrown(r, ht, t, Place(0, 1), n, 0);
    BranchAdds(r, ht, t, Place(0, 1), n, 0);
    ThirdShape(r, genesis, t, t', f, n, BranchGrowth(r, t, Place(0, 1), n, 0).f);
    FloorHasMoved(r, ht, t', t.floor);
  }

  lemma GrandchildrenDiffer(r: Rules, genesis: Header)
    ensures Child(r, Child(r, genesis, 0), 0) != Child(r, Child(r, genesis, 1), 1)
  {
  }

  /** The fork's next block is not one of the root's. */
  lemma ForkBlockUnknown(r: Rules, ht: Header -> nat, genesis: Header, t: Tables, f: nat, tip: nat)
    requires Grown(r, ht, t) && RootAndFork(r, genesis, t, f, tip) && tip > 1 && ht(genesis) == 0
    ensures r.hash(Child(r, Child(r, genesis, 1), 1)) !in t.index
  {
    var h := Child(r, Child(r, genesis, 1), 1);
    GrandchildHeight(r, ht, genesis, 1);
    forall k | k in t.rows && k.height == 2 ensures t.rows[k].header != h {
      RootRow(t, f, k);
      GrandchildrenDiffer(r, genesis);
    }
    IsUnknown(r, ht, t, h);
  }

  lemma ForkIsBelowFloor(t: Tables, f: nat)
    requires f in t.forks && f != 0 && t.forks[f].forkpoint == 1 && t.forks[f].parent == Some(0)
    requires t.floor == Some(DIFFICULTY_PERIOD)
    ensures !LeavesAbove(t, f, t.floor.value)
  {
  }

  /** The one-block fork, grown past the root, displaces. */
  lemma ForkDisplaces(r: Rules, ht: Header -> nat, genesis: Header, t: Tables, f: nat, tip: nat)
    requires Grown(r, ht, t) && RootAndFork(r, genesis, t, f, tip) && tip > 1 && ht(genesis) == 0
    requires t.floor == Some(DIFFICULTY_PERIOD)
    ensures Displaces(r, t, CallOf(r, t, Place(f, 1), tip, 1), t.floor.value)
  {
    var parent := Place(f, 1);
    ForkBlockUnknown(r, ht, genesis, t, f, tip);
    BranchIsAccepted(r, t, parent, tip, 1);
    UnitRun(r, Branch(r, t.rows[parent].header, tip, 1));
    UnitRow(r, t, parent);
    UnitWork(r, t, 0, tip);
    ForkIsBelowFloor(t, f);
  }

  lemma FourthShape(r: Rules, genesis: Header, t: Tables, t': Tables, f: nat, tip: nat)
    requires RootAndFork(r, genesis, t, f, tip) && TipWork(t, 0) == tip + 1 && tip > 0
    requires Added(r, t, t', Place(f, 1), tip, 1, f)
    ensures t'.best == Some(f) && LeavesAt(t'.forks, f, 0) == Some(1) && Place(0, 1) in t'.rows
  {
  }

  lemma CanonicalIsWrong(r: Rules, ht: Header -> nat, t: Tables, f: nat)
    requires Inv(r, ht, t, FromStart)
    requires t.best == Some(f) && LeavesAt(t.forks, f, 0) == Some(1) && Place(0, 1) in t.rows
    ensures IsCanonicalAt(t, 0, 1) && !OnBestChain(t, Place(0, 1))
  {
    CanonicalCheckExact(r, ht, t, FromStart, Place(0, 1));
  }

  /** And then the canonical check takes the displaced block for canonical still. */
  lemma ForkReturns(r: Rules, ht: Header -> nat, genesis: Header, t: Tables, f: nat, tip: nat)
    requires Grown(r, ht, t) && RootAndFork(r, genesis, t, f, tip) && tip > 1 && ht(genesis) == 0
    requires t.floor == Some(DIFFICULTY_PERIOD)
    ensures var t' := BranchOn(r, t, Place(f, 1), tip, 1);
      Place(0, 1) in t'.rows && IsCanonicalAt(t', 0, 1) && !OnBestChain(t', Place(0, 1))
  {
    var parent := Place(f, 1);
    ForkBlockUnknown(r, ht, genesis, t, f, tip);
    BranchStaysGrown(r, ht, t, parent, tip, 1);
    BranchAdds(r, ht, t, parent, tip, 1);
    UnitWork(r, t, 0, tip);
    FourthShape(r, genesis, t, BranchOn(r, t, parent, tip, 1), f, tip);
    CanonicalIsWrong(r, ht, BranchOn(r, t, parent, tip, 1), f);
  }

  lemma PlayThree(r: Rules, t: Tables, calls: seq<Call>)
    requires |calls| == 3
    ensures Play(r, t, calls) == Apply(r, Apply(r, Apply(r, t, calls[0]), calls[1]), calls[2])
  {
    var t1 := Apply(r, t, calls[0]);
    var t2 := Apply(r, t1, calls[1]);
    assert calls[1..][0] == calls[1] && calls[1..][1..] == [calls[2]];
    assert Play(r, t2, [calls[2]]) == Apply(r, t2, calls[2]) by {
      assert [calls[2]][1..] == [];
    }
  }

  /** The three calls, from a store that holds the genesis block alone. */
  lemma ThreeCalls(r: Rules, ht: Header -> nat, genesis: Header, t0: Tables)
    returns (calls: seq<Call>, t: Tables, f: nat)
    requires UnitRules(r, ht) && ht(genesis) == 0 && genesis.time == 0 && t0 == Start(r, genesis)
    ensures |calls| == 3 && t == Apply(r, Apply(r, Apply(r, t0, calls[0]), calls[1]), calls[2])
    ensures Grown(r, ht, t) && RootAndFork(r, genesis, t, f, 2 * DIFFICULTY_PERIOD)
            && t.floor == Some(DIFFICULTY_PERIOD)
  {
    FirstBlock(r, ht, genesis);
    var n := 2 * DIFFICULTY_PERIOD - 1;
    var t1 := BranchOn(r, t0, Place(0, 0), 1, 0);
    f := SecondBranch(r, ht, genesis, t1);
    var t2 := BranchOn(r, t1, Place(0, 0), 1, 1);
    RootRises(r, ht, genesis, t2, f, n);
    t := BranchOn(r, t2, Place(0, 1), n, 0);
    calls := [CallOf(r, t0, Place(0, 0), 1, 0), CallOf(r, t1, Place(0, 0), 1, 1), CallOf(r, t2, Place(0, 1), n, 0)];
  }

  /** A run of calls from the seeded genesis block after which the floor has passed the
      departure of a live fork. */
  lemma ForkUnderFloor(r: Rules, ht: Header -> nat, genesis: Header) returns (calls: seq<Call>, t: Tables, f: nat)
    requires UnitRules(r, ht) && ht(genesis) == 0 && genesis.time == 0
    ensures t == Play(r, Start(r, genesis), calls)
    ensures Grown(r, ht, t) && RootAndFork(r, genesis, t, f, 2 * DIFFICULTY_PERIOD)
    ensures t.floor == Some(DIFFICULTY_PERIOD) && !LeavesAbove(t, f, t.floor.value)
  {
    var t0 := Start(r, genesis);
    calls, t, f := ThreeCalls(r, ht, genesis, t0);
    PlayThree(r, t0, calls);
    ForkOfRoot(r, genesis, t, f);
  }

  lemma ForkOfRoot(r: Rules, genesis: Header, t: Tables, f: nat)
    requires RootAndFork(r, genesis, t, f, 2 * DIFFICULTY_PERIOD) && t.floor == Some(DIFFICULTY_PERIOD)
    ensures !LeavesAbove(t, f, t.floor.value)
  {
    ForkIsBelowFloor(t, f);
  }

  /** On that store a call replaces a finalized header, and leaves a block off the best
      chain that the canonical check accepts. */
  lemma FinalizedIsReplaced(r: Rules, ht: Header -> nat, genesis: Header)
    returns (calls: seq<Call>, t: Tables, next: Call, t': Tables)
    requires UnitRules(r, ht) && ht(genesis) == 0 && genesis.time == 0
    ensures t == Play(r, Start(r, genesis), calls) && t' == Apply(r, t, next)
    ensures Inv(r, ht, t, FromStart) && BestLeavesAbove(t, t.floor.value)
    ensures Displaces(r, t, next, t.floor.value) && !Agree(t, t', t.floor.value)
    ensures Place(0, 1) in t'.rows && IsCanonicalAt(t', 0, 1) && !OnBestChain(t', Place(0, 1))
  {
    var f;
    calls, t, f := ForkUnderFloor(r, ht, genesis);
    var tip := 2 * DIFFICULTY_PERIOD;
    next := CallOf(r, t, Place(f, 1), tip, 1);
    t' := BranchOn(r, t, Place(f, 1), tip, 1);
    ForkDisplaces(r, ht, genesis, t, f, tip);
    DisplacesExactly(r, ht, t, FromStart, next, t.floor.value);
    ForkReturns(r, ht, genesis, t, f, tip);
  }
}
