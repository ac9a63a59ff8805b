/** Connecting headers keeps the whole store invariant, and what follows over runs of
    calls: unreachable errors, fork choice, the floor and finality. */
module ForkRuns {
  import opened ForkGrowth
  import opened ForkInvariant
  import opened ForkSpec
  import opened ForkStore
  import opened Wrappers

  // ── the growth behind a connect ────────────────────────────────────────────

  /** The growth Attach performs when its run passes. */
  function GrowthOf(r: Rules, t: Tables, parent: Place, run: seq<Header>): Growth
    requires run != []
  {
    var start := parent.height + 1;
    if parent.height == ForkTip(t, parent.fork).GetOr(0) then Growth(t, t, parent.fork, start, parent, run)
    else Growth(t, CreateFork(t, parent.fork, start, r.hash(run[0])), t.nextFork.GetOr(1), start, parent, run)
  }

  predicate Refused(t: Tables, parent: Place) {
    && parent.height != ForkTip(t, parent.fork).GetOr(0)
    && t.floor.Some? && parent.height + 1 <= t.floor.value
  }

  lemma GrowthIsPrepared(r: Rules, t: Tables, sp: Seeding, parent: Place, run: seq<Header>)
    requires ForksOk(t, sp) && RowsOk(t, sp) && FloorOk(t, sp)
    requires parent in t.rows && run != [] && !Refused(t, parent)
    ensures Prepared(r, GrowthOf(r, t, parent, run), sp)
  {
    assert Occupied(t.forks, sp, parent);
    assert ForkOk(t.forks, sp, parent.fork);
  }

  /** The parent's row and work are where the run's checks look for them. */
  lemma ParentReads(r: Rules, g: Growth, sp: Seeding)
    requires Prepared(r, g, sp) && ForksOk(g.t, sp) && RowsOk(g.t, sp)
    ensures HeaderAt(g.t1, g.f, g.start - 1).Some?
    ensures WorkAt(g.t1, g.parent.fork, g.parent.height) == Some(Base(g))
  {
    OwnRow(g.t, sp, g.parent);
    if Opens(r, g) {
      assert g.parent.fork < g.f;
      assert OwnerFork(g.t1.forks, g.parent.fork, g.start - 1) == Some(g.parent.fork);
      assert OwnerFork(g.t1.forks, g.f, g.start - 1) == OwnerFork(g.t1.forks, g.parent.fork, g.start - 1);
    }
  }

  lemma {:induction false} ChecksAreNotInternal(r: Rules, g: Growth, sp: Seeding, i: nat, prev: Hash)
    requires Prepared(r, g, sp) && ForksOk(g.t, sp) && RowsOk(g.t, sp) && i <= |g.run|
    ensures CheckRun(r, g.t1, g.f, g.start, g.run, i, prev) != Some(Internal)
    decreases |g.run| - i
  {
    if i < |g.run| {
      ParentReads(r, g, sp);
      assert At(g.t1, g.f, g.start, g.run, g.start + i - 1).Some?;
      ChecksAreNotInternal(r, g, sp, i + 1, r.hash(g.run[i]));
    }
  }

  // ── fork choice and the floor ──────────────────────────────────────────────

  lemma ReselectKeepsBest(t: Tables, f: nat)
    requires t.best.Some? && t.best.value in t.forks && f in t.forks
    requires forall x :: x in t.forks && x != f ==> TipWork(t, x) <= TipWork(t, t.best.value)
    ensures BestOk(Reselect(t, f))
    ensures var t' := Reselect(t, f);
            && t' == t.(best := t'.best)
            && (t'.best != t.best ==> TipWork(t, t'.best.value) > TipWork(t, t.best.value))
  {
    var t' := Reselect(t, f);
    forall x | x in t'.forks ensures TipWork(t', x) == TipWork(t, x) {
    }
  }

  /** On the root, the work above a boundary is at least that of the period before it. */
  predicate Outweighed(t: Tables, boundary: nat)
    requires 0 in t.forks
  {
    && boundary >= DIFFICULTY_PERIOD
    && WorkAt(t, 0, boundary - DIFFICULTY_PERIOD).Some? && WorkAt(t, 0, boundary).Some?
    && WorkAt(t, 0, t.forks[0].tipHeight).Some?
    && WorkAt(t, 0, t.forks[0].tipHeight).value - WorkAt(t, 0, boundary).value
       >= WorkAt(t, 0, boundary).value - WorkAt(t, 0, boundary - DIFFICULTY_PERIOD).value
  }

  /** The floor only moves with the root best, up, to a boundary a whole period below its
      tip whose work above is at least that of the period before it; and every work it
      needs is stored. */
  lemma FinalizeEffect(r: Rules, t: Tables, sp: Seeding)
    requires ForksOk(t, sp) && RowsOk(t, sp) && FloorOk(t, sp)
    ensures Finalize(t).Some?
    ensures var (t', moved) := Finalize(t).value;
            && t' == t.(floor := t'.floor) && FloorOk(t', sp)
            && t.floor.value <= t'.floor.value
            && (moved.None? ==> t' == t)
            && (moved.Some? ==> t'.floor == moved && t.floor.value < moved.value && t.best == Some(0))
            && (moved.Some? ==> moved.value + DIFFICULTY_PERIOD <= t.forks[0].tipHeight)
            && (moved.Some? ==> Outweighed(t, moved.value))
  {
    if t.best == Some(0) && t.forks[0].tipHeight >= FINALITY_MARGIN {
      var tip := t.forks[0].tipHeight;
      var boundary := Boundary(tip);
      if boundary > t.floor.value {
        PeriodBelow(boundary, t.floor.value);
        assert ForkOk(t.forks, sp, 0);
        assert Occupied(t.forks, sp, Place(0, boundary - DIFFICULTY_PERIOD));
        assert Occupied(t.forks, sp, Place(0, boundary));
        assert Occupied(t.forks, sp, Place(0, tip));
      }
    }
  }

  lemma PeriodBelow(boundary: nat, floor: nat)
    requires floor < boundary && floor % DIFFICULTY_PERIOD == 0 && boundary % DIFFICULTY_PERIOD == 0
    ensures floor <= boundary - DIFFICULTY_PERIOD
  {
  }

  // ── one call ───────────────────────────────────────────────────────────────

  /** Storing a checked run and selecting keep the store invariant. */
  lemma GrowthKeepsInv(r: Rules, ht: Header -> nat, g: Growth, sp: Seeding)
    requires Sound(r, ht) && Inv(r, ht, g.t, sp) && Prepared(r, g, sp)
    requires CheckRun(r, g.t1, g.f, g.start, g.run, 0, r.hash(g.t.rows[g.parent].header)).None?
    requires r.hash(g.run[0]) !in g.t.index
    ensures var t' := Reselect(After(r, g), g.f);
            TreeOk(r, ht, t', sp) && SpineOk(t', sp) && FloorOk(t', sp)
  {
    var t1 := After(r, g);
    GrowTree(r, ht, g, sp);
    GrowSpine(r, g, sp);
    GrowFloor(r, g, sp);
    SameTables(r, ht, t1, Reselect(t1, g.f), sp);
  }

  lemma GrowFloor(r: Rules, g: Growth, sp: Seeding)
    requires Prepared(r, g, sp) && ForksOk(g.t, sp) && FloorOk(g.t, sp)
    ensures FloorOk(After(r, g), sp)
    ensures After(r, g).floor == g.t.floor && After(r, g).network == g.t.network && After(r, g).best == g.t.best
  {
    AfterForks(r, g, sp);
    PutRunFrame(r, g.t1, g.f, g.start, g.run, Base(g));
  }

  /** The best fork stays the heaviest; it changes only to a strictly heavier one, and
      its work never falls. */
  lemma GrowthKeepsBest(r: Rules, g: Growth, sp: Seeding)
    requires Prepared(r, g, sp) && ForksOk(g.t, sp) && RowsOk(g.t, sp) && BestOk(g.t) && FloorOk(g.t, sp)
    ensures var t' := Reselect(After(r, g), g.f);
            && BestOk(t')
            && TipWork(t', t'.best.value) >= TipWork(g.t, g.t.best.value)
            && (t'.best != g.t.best ==> TipWork(t', t'.best.value) > TipWork(t', g.t.best.value))
  {
    TipsOnlyRise(r, g, sp);
    GrowFloor(r, g, sp);
    ReselectKeepsBest(After(r, g), g.f);
    SameTipWork(After(r, g), Reselect(After(r, g), g.f), g.t.best.value);
    SameTipWork(After(r, g), Reselect(After(r, g), g.f), Reselect(After(r, g), g.f).best.value);
  }

  lemma SameTipWork(a: Tables, b: Tables, f: nat)
    requires b == a.(best := b.best, floor := b.floor)
    ensures TipWork(b, f) == TipWork(a, f)
  {
  }

  /** No fork's tip work falls when a run is stored, and only the run's fork's rises. */
  lemma TipsOnlyRise(r: Rules, g: Growth, sp: Seeding)
    requires Prepared(r, g, sp) && ForksOk(g.t, sp) && RowsOk(g.t, sp) && BestOk(g.t)
    ensures var t1 := After(r, g);
            && g.t.best.value in t1.forks && g.f in t1.forks
            && TipWork(t1, g.t.best.value) >= TipWork(g.t, g.t.best.value)
            && forall x :: x in t1.forks && x != g.f ==> TipWork(t1, x) <= TipWork(t1, g.t.best.value)
  {
    var t1 := After(r, g);
    AfterForks(r, g, sp);
    GrowTipWork(r, g, sp, g.t.best.value);
    if g.f == g.t.best.value {
      TipIsStored(g.t, sp, g.f);
    }
    forall x | x in t1.forks && x != g.f ensures TipWork(t1, x) <= TipWork(t1, g.t.best.value) {
      GrowTipWork(r, g, sp, x);
    }
  }

  /** The tree invariant does not look at the best fork or the floor. */
  lemma SameTables(r: Rules, ht: Header -> nat, a: Tables, b: Tables, sp: Seeding)
    requires b == a.(best := b.best, floor := b.floor)
    requires TreeOk(r, ht, a, sp)
    ensures TreeOk(r, ht, b, sp)
  {
    forall k | k in b.rows && k.height > sp.last
      ensures LinkOk(r, b, k) && Passes(r, b, k.fork, 0, [], k.height, b.rows[k].header)
    {
      assert LinkOk(r, a, k);
      assert Passes(r, a, k.fork, 0, [], k.height, a.rows[k].header);
      forall h: nat | h < k.height ensures At(b, k.fork, 0, [], h) == At(a, k.fork, 0, [], h) {
      }
      SamePasses(r, b, k.fork, 0, [], a, k.fork, 0, [], k.height, b.rows[k].header);
    }
    forall f | f in b.forks ensures ForkOk(b.forks, sp, f) {
      assert ForkOk(a.forks, sp, f);
    }
  }

  /** What one successful call does to a store: the invariant, fork choice and floor. */
  ghost predicate Advanced(r: Rules, ht: Header -> nat, t: Tables, t': Tables, sp: Seeding)
    requires t.best.Some? && t.floor.Some?
  {
    && Inv(r, ht, t', sp)
    && TipWork(t', t'.best.value) >= TipWork(t, t.best.value)
    && (t'.best != t.best ==> TipWork(t', t'.best.value) > TipWork(t', t.best.value))
    && t.floor.value <= t'.floor.value
    && (t'.floor != t.floor ==> t'.best == Some(0))
    && t'.network == t.network
  }

  /** A result that either advances the store or is an error a caller can cause. */
  ghost predicate GoodResult(r: Rules, ht: Header -> nat, t: Tables, result: Result<(Tables, Outcome), Error>,
                             sp: Seeding)
    requires t.best.Some? && t.floor.Some?
  {
    match result
    case Ok((t', _)) => Advanced(r, ht, t, t', sp)
    case Err(e) => e != Internal
  }

  /** What Attach does with a run it does not refuse outright. */
  function Grow(r: Rules, g: Growth): Result<(Tables, Outcome), Error>
    requires g.run != [] && g.parent in g.t.rows && g.f in g.t1.forks && g.start > 0
  {
    match CheckRun(r, g.t1, g.f, g.start, g.run, 0, r.hash(g.t.rows[g.parent].header))
    case Some(e) => Err(e)
    case None => Finish(Reselect(After(r, g), g.f), g.start, g.run, g.t.best)
  }

  lemma GrowIsGood(r: Rules, ht: Header -> nat, g: Growth, sp: Seeding)
    requires Sound(r, ht) && Inv(r, ht, g.t, sp) && Prepared(r, g, sp)
    requires r.hash(g.run[0]) !in g.t.index
    ensures GoodResult(r, ht, g.t, Grow(r, g), sp)
  {
    var parentHash := r.hash(g.t.rows[g.parent].header);
    ChecksAreNotInternal(r, g, sp, 0, parentHash);
    if CheckRun(r, g.t1, g.f, g.start, g.run, 0, parentHash).None? {
      GrowthKeepsInv(r, ht, g, sp);
      GrowthKeepsBest(r, g, sp);
      GrowFloor(r, g, sp);
      FinishAdvances(r, ht, g.t, Reselect(After(r, g), g.f), sp);
    }
  }

  lemma AttachIsGrow(r: Rules, t: Tables, sp: Seeding, parent: Place, run: seq<Header>)
    requires ForksOk(t, sp) && RowsOk(t, sp) && FloorOk(t, sp)
    requires run != [] && parent in t.rows
    ensures Refused(t, parent) ==>
      Attach(r, t, parent, r.hash(t.rows[parent].header), run)
        == Err(ForkBelowFinalized(parent.height + 1, t.floor.value))
    ensures !Refused(t, parent) ==>
      && Prepared(r, GrowthOf(r, t, parent, run), sp)
      && Attach(r, t, parent, r.hash(t.rows[parent].header), run) == Grow(r, GrowthOf(r, t, parent, run))
  {
    assert Occupied(t.forks, sp, parent);
    if !Refused(t, parent) {
      GrowthIsPrepared(r, t, sp, parent, run);
      ParentReads(r, GrowthOf(r, t, parent, run), sp);
    }
  }

  lemma FinishAdvances(r: Rules, ht: Header -> nat, t: Tables, t1: Tables, sp: Seeding)
    requires Inv(r, ht, t, sp) && TreeOk(r, ht, t1, sp) && SpineOk(t1, sp) && FloorOk(t1, sp) && BestOk(t1)
    requires TipWork(t1, t1.best.value) >= TipWork(t, t.best.value)
    requires t1.best != t.best ==> TipWork(t1, t1.best.value) > TipWork(t1, t.best.value)
    requires t1.floor == t.floor && t1.network == t.network
    ensures Finalize(t1).Some? && Advanced(r, ht, t, Finalize(t1).value.0, sp)
  {
    FinalizeEffect(r, t1, sp);
    var t' := Finalize(t1).value.0;
    SameTables(r, ht, t1, t', sp);
    forall f { SameTipWork(t1, t', f); }
  }

  /** The calls that reach Attach; the others leave the store alone. */
  predicate Attaches(r: Rules, t: Tables, network: nat, headers: seq<Header>) {
    var n := KnownPrefix(r, t, headers);
    && (t.network.Some? ==> t.network.value == network)
    && n < |headers| && ParentHash(r, headers, n) in t.index
  }

  lemma ConnectAttaches(r: Rules, t: Tables, network: nat, headers: seq<Header>)
    ensures Attaches(r, t, network, headers) ==>
      var n := KnownPrefix(r, t, headers);
      var parentHash := ParentHash(r, headers, n);
      Connect(r, t, network, headers) == Attach(r, t, t.index[parentHash], parentHash, headers[n..])
    ensures !Attaches(r, t, network, headers) ==>
      match Connect(r, t, network, headers) case Ok((t', _)) => t' == t case Err(e) => e != Internal
  {
  }

  /** One call on a store that keeps the invariant: it keeps it, the two internal errors
      cannot occur, the best fork stays heaviest and changes only to a strictly heavier
      one, its work never falls, and the floor only rises. */
  lemma ConnectIsGood(r: Rules, ht: Header -> nat, t: Tables, sp: Seeding, network: nat, headers: seq<Header>)
    requires Sound(r, ht) && Inv(r, ht, t, sp)
    ensures GoodResult(r, ht, t, Connect(r, t, network, headers), sp)
  {
    ConnectAttaches(r, t, network, headers);
    if Attaches(r, t, network, headers) {
      var n := KnownPrefix(r, t, headers);
      var parent := t.index[ParentHash(r, headers, n)];
      AttachIsGrow(r, t, sp, parent, headers[n..]);
      if !Refused(t, parent) {
        GrowIsGood(r, ht, GrowthOf(r, t, parent, headers[n..]), sp);
      }
    }
  }
}
