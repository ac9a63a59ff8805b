/** What the calls on the Bitcoin store answer: when headers are connected and why not, what
    the outcome reports, when the floor moves, when a seeding is accepted, and the height the
    canonical check gives a block. */
module ForkOutcome {
  import opened ForkChains
  import opened ForkChecks
  import opened ForkDisplacement
  import opened ForkFinality
  import opened ForkGrowth
  import opened ForkInvariant
  import opened ForkRuns
  import opened ForkSeeding
  import opened ForkSpec
  import opened ForkStore
  import opened Wrappers

  // ── the floor ──────────────────────────────────────────────────────────────

  /** The root's chain has twice the work it needs: at least as much above `b` as in the period
      that ends there. */
  predicate WorkSettles(t: Tables, b: nat, tip: nat) {
    && b >= 2016
    && WorkAt(t, 0, b - 2016).Some? && WorkAt(t, 0, b).Some? && WorkAt(t, 0, tip).Some?
    && WorkAt(t, 0, tip).value - WorkAt(t, 0, b).value >= WorkAt(t, 0, b).value - WorkAt(t, 0, b - 2016).value
  }

  /** The floor moves to `b` exactly when the root is the best fork, `b` is the last period
      boundary at least a period below the root's tip, `b` is above the floor, and the work on
      it settles it. */
  predicate Settles(t: Tables, b: nat)
    requires 0 in t.forks && t.floor.Some?
  {
    var tip := t.forks[0].tipHeight;
    && t.best == Some(0) && b % 2016 == 0 && b + 2016 <= tip < b + 4032 && b > t.floor.value
    && WorkSettles(t, b, tip)
  }

  lemma BoundaryIsLast(tip: nat, b: nat)
    requires tip >= 2016
    ensures b == Boundary(tip) <==> b % 2016 == 0 && b + 2016 <= tip < b + 4032
  {
    var q := (tip - 2016) / 2016;
    assert Boundary(tip) == q * 2016;
    if b % 2016 == 0 && b + 2016 <= tip < b + 4032 {
      assert b == b / 2016 * 2016;
    }
  }

  lemma FinalizeExactly(t: Tables, sp: Seeding, b: nat)
    requires ForksOk(t, sp) && RowsOk(t, sp) && FloorOk(t, sp) && Finalize(t).Some?
    ensures Finalize(t).value.1 == Some(b) <==> Settles(t, b)
    ensures Finalize(t).value.0 == t.(floor := if Finalize(t).value.1.Some? then Finalize(t).value.1 else t.floor)
  {
    var tip := t.forks[0].tipHeight;
    if tip >= 2016 {
      BoundaryIsLast(tip, b);
    }
  }

  // ── a connect call ─────────────────────────────────────────────────────────

  /** The first `n` headers are stored, and the next one is not. */
  predicate KnownUpTo(r: Rules, t: Tables, headers: seq<Header>, n: nat) {
    && n <= |headers| && (forall i :: 0 <= i < n ==> r.hash(headers[i]) in t.index)
    && (n < |headers| ==> r.hash(headers[n]) !in t.index)
  }

  lemma {:induction false} KnownPrefixExactly(r: Rules, t: Tables, headers: seq<Header>, n: nat)
    ensures KnownPrefix(r, t, headers) == n <==> KnownUpTo(r, t, headers, n)
    decreases |headers|
  {
    if headers != [] && r.hash(headers[0]) in t.index && n > 0 {
      KnownPrefixExactly(r, t, headers[1..], n - 1);
      if KnownUpTo(r, t, headers[1..], n - 1) {
        forall i | 0 <= i < n ensures r.hash(headers[i]) in t.index {
          if i > 0 {
            assert headers[i] == headers[1..][i - 1];
          }
        }
      } else if KnownUpTo(r, t, headers, n) {
        forall i | 0 <= i < n - 1 ensures r.hash(headers[1..][i]) in t.index {
          assert headers[1..][i] == headers[i + 1];
        }
      }
    }
  }

  /** What the first new header has to follow. */
  function Previous(r: Rules, headers: seq<Header>, n: nat): Hash
    requires n < |headers|
  {
    if n == 0 then headers[0].prev else r.hash(headers[n - 1])
  }

  /** The new headers can go on the stored block `k`: at its fork's tip, or above the floor. */
  predicate Open(t: Tables, k: Place) {
    (k.fork in t.forks && k.height == t.forks[k.fork].tipHeight) || (t.floor.Some? ==> k.height + 1 > t.floor.value)
  }

  /** The call is for the seeded network, and its new headers, if there are any, follow a
      stored block they can go on, all of them in order on its chain. */
  ghost predicate MayConnect(r: Rules, t: Tables, network: nat, headers: seq<Header>, n: nat)
    requires KnownUpTo(r, t, headers, n)
  {
    && (t.network.Some? ==> t.network.value == network)
    && (n < |headers| ==>
          var prev := Previous(r, headers, n);
          && prev in t.index && Open(t, t.index[prev])
          && AllInOrder(r, t, t.index[prev].fork, t.index[prev].height + 1, headers[n..], |headers| - n, prev))
  }

  /** The view a run is checked in is its parent's chain, with the run above it. */
  lemma ViewOfParent(r: Rules, t: Tables, sp: Seeding, parent: Place, run: seq<Header>, h: nat)
    requires ForksOk(t, sp) && RowsOk(t, sp) && run != [] && parent in t.rows
    requires Prepared(r, GrowthOf(r, t, parent, run), sp)
    ensures var g := GrowthOf(r, t, parent, run);
            At(g.t1, g.f, g.start, run, h) == At(t, parent.fork, g.start, run, h) || h >= g.start + |run|
  {
    var g := GrowthOf(r, t, parent, run);
    if h < g.start && g.t1 != t {
      FallsThrough(r, g, sp, h);
    }
  }

  lemma TimesInView(a: Tables, fa: nat, b: Tables, fb: nat, start: nat, run: seq<Header>, height: nat, times: seq<nat>)
    requires forall h: nat :: h < height ==> At(a, fa, start, run, h) == At(b, fb, start, run, h)
    ensures AreTimesBelow(a, fa, start, run, height, times) <==> AreTimesBelow(b, fb, start, run, height, times)
  {
    forall j | 0 <= j < |times| && |times| <= height
      ensures TimeIs(a, fa, start, run, height - 1 - j, times[j])
              <==> TimeIs(b, fb, start, run, height - 1 - j, times[j])
    {
    }
  }

  lemma ViewsJudgeAlike(r: Rules, a: Tables, fa: nat, b: Tables, fb: nat, start: nat, run: seq<Header>, height: nat)
    requires height > 0 && forall h: nat :: h < height ==> At(a, fa, start, run, h) == At(b, fb, start, run, h)
    ensures forall bits: nat ::
              TargetFits(r, a, fa, start, run, height, bits) <==> TargetFits(r, b, fb, start, run, height, bits)
    ensures forall time: nat ::
              LaterThanMost(a, fa, start, run, height, time) <==> LaterThanMost(b, fb, start, run, height, time)
    ensures At(a, fa, start, run, height - 1) == At(b, fb, start, run, height - 1)
  {
    forall times: seq<nat>
      ensures AreTimesBelow(a, fa, start, run, height, times) <==> AreTimesBelow(b, fb, start, run, height, times)
    {
      TimesInView(a, fa, b, fb, start, run, height, times);
    }
  }

  lemma InOrderInView(r: Rules, a: Tables, fa: nat, b: Tables, fb: nat, start: nat, run: seq<Header>, i: nat,
                      prev: Hash)
    requires i < |run| && start > 0
    requires forall h: nat :: h < start + |run| ==> At(a, fa, start, run, h) == At(b, fb, start, run, h)
    ensures InOrder(r, a, fa, start, run, i, prev) <==> InOrder(r, b, fb, start, run, i, prev)
  {
    ViewsJudgeAlike(r, a, fa, b, fb, start, run, start + i);
  }

  /** The growth's checks are the parent chain's. */
  lemma GrowthChecked(r: Rules, t: Tables, sp: Seeding, parent: Place, run: seq<Header>, prev: Hash)
    requires ForksOk(t, sp) && RowsOk(t, sp) && run != [] && parent in t.rows
    requires Prepared(r, GrowthOf(r, t, parent, run), sp)
    ensures var g := GrowthOf(r, t, parent, run);
            CheckRun(r, g.t1, g.f, g.start, run, 0, prev).None?
            <==> AllInOrder(r, t, parent.fork, parent.height + 1, run, |run|, prev)
  {
    var g := GrowthOf(r, t, parent, run);
    RunPassesExactly(r, g.t1, g.f, g.start, run, prev);
    forall h: nat | h < g.start + |run| ensures At(g.t1, g.f, g.start, run, h) == At(t, parent.fork, g.start, run, h) {
      ViewOfParent(r, t, sp, parent, run, h);
    }
    forall i | 0 <= i < |run|
      ensures InOrder(r, g.t1, g.f, g.start, run, i, prev) <==> InOrder(r, t, parent.fork, g.start, run, i, prev)
    {
      InOrderInView(r, g.t1, g.f, t, parent.fork, g.start, run, i, prev);
    }
  }

  lemma OpenIsNotRefused(t: Tables, sp: Seeding, k: Place)
    requires ForksOk(t, sp) && RowsOk(t, sp) && k in t.rows
    ensures Open(t, k) <==> !Refused(t, k)
  {
    assert Occupied(t.forks, sp, k);
  }

  /** A call succeeds exactly when it may connect. */
  lemma ConnectExactly(r: Rules, ht: Header -> nat, t: Tables, sp: Seeding, network: nat, headers: seq<Header>, n: nat)
    requires Sound(r, ht) && Inv(r, ht, t, sp) && KnownUpTo(r, t, headers, n)
    ensures Connect(r, t, network, headers).Ok? <==> MayConnect(r, t, network, headers, n)
  {
    KnownPrefixExactly(r, t, headers, n);
    if Attaches(r, t, network, headers) {
      AttachesExactly(r, ht, t, sp, network, headers, n);
    }
  }

  lemma AttachesExactly(r: Rules, ht: Header -> nat, t: Tables, sp: Seeding, network: nat, headers: seq<Header>, n: nat)
    requires Sound(r, ht) && Inv(r, ht, t, sp) && KnownUpTo(r, t, headers, n) && KnownPrefix(r, t, headers) == n
    requires Attaches(r, t, network, headers)
    ensures Connect(r, t, network, headers).Ok? <==> MayConnect(r, t, network, headers, n)
  {
    var prev := ParentHash(r, headers, n);
    var parent, run := t.index[prev], headers[n..];
    ConnectAttaches(r, t, network, headers);
    OpenIsNotRefused(t, sp, parent);
    AttachIsGrow(r, t, sp, parent, run);
    if !Refused(t, parent) {
      GrowExactly(r, ht, t, sp, parent, run, prev);
    }
    MayConnectHere(r, t, network, headers, n, prev, parent);
  }

  lemma MayConnectHere(r: Rules, t: Tables, network: nat, headers: seq<Header>, n: nat, prev: Hash, parent: Place)
    requires KnownUpTo(r, t, headers, n) && n < |headers| && prev == Previous(r, headers, n)
    requires (t.network.Some? ==> t.network.value == network) && prev in t.index && parent == t.index[prev]
    ensures MayConnect(r, t, network, headers, n)
       <==> Open(t, parent) && AllInOrder(r, t, parent.fork, parent.height + 1, headers[n..], |headers[n..]|, prev)
  {
  }

  lemma GrowExactly(r: Rules, ht: Header -> nat, t: Tables, sp: Seeding, parent: Place, run: seq<Header>, prev: Hash)
    requires Sound(r, ht) && Inv(r, ht, t, sp) && run != [] && parent in t.rows && !Refused(t, parent)
    requires r.hash(t.rows[parent].header) == prev && r.hash(run[0]) !in t.index
    ensures Prepared(r, GrowthOf(r, t, parent, run), sp)
    ensures Grow(r, GrowthOf(r, t, parent, run)).Ok?
       <==> AllInOrder(r, t, parent.fork, parent.height + 1, run, |run|, prev)
    ensures Grow(r, GrowthOf(r, t, parent, run)).Err? ==>
      RefusedFor(r, t, parent.fork, parent.height + 1, run, prev, Grow(r, GrowthOf(r, t, parent, run)).error)
  {
    var g := GrowthOf(r, t, parent, run);
    AttachIsGrow(r, t, sp, parent, run);
    GrowthChecked(r, t, sp, parent, run, prev);
    GrowIsGood(r, ht, g, sp);
    GrowOrRefuse(r, g);
    if CheckRun(r, g.t1, g.f, g.start, run, 0, prev).Some? {
      GrowthRefused(r, t, sp, parent, run, prev);
    }
  }

  lemma GrowOrRefuse(r: Rules, g: Growth)
    requires g.run != [] && g.parent in g.t.rows && g.f in g.t1.forks && g.start > 0
    ensures var why := CheckRun(r, g.t1, g.f, g.start, g.run, 0, r.hash(g.t.rows[g.parent].header));
            (why.Some? ==> Grow(r, g) == Err(why.value))
              && (why.None? && Grow(r, g).Err? ==> Grow(r, g) == Err(Internal))
  {
    if CheckRun(r, g.t1, g.f, g.start, g.run, 0, r.hash(g.t.rows[g.parent].header)).None? {
      GrowFinishes(r, g);
      FinishKeepsBest(Reselect(After(r, g), g.f), g.start, g.run, g.t.best);
    }
  }

  /** Why a call fails. */
  ghost predicate SaysWhyNot(r: Rules, t: Tables, network: nat, headers: seq<Header>, n: nat, e: Error)
    requires KnownUpTo(r, t, headers, n)
  {
    if e.NetworkMismatch? then t.network == Some(e.seeded) && e.running == network != e.seeded
    else
      && (t.network.Some? ==> t.network.value == network) && n < |headers|
      && var prev := Previous(r, headers, n);
      if e.UnknownAncestor? then e.hash == prev && prev !in t.index
      else
        && prev in t.index
        && var k := t.index[prev];
        if e.ForkBelowFinalized? then !Open(t, k) && e.fork == k.height + 1 && t.floor == Some(e.finalized)
        else Open(t, k) && RefusedFor(r, t, k.fork, k.height + 1, headers[n..], prev, e)
  }

  lemma SaysWhyInView(r: Rules, a: Tables, fa: nat, b: Tables, fb: nat, start: nat, run: seq<Header>, i: nat,
                      prev: Hash, e: Error)
    requires i < |run| && start > 0
    requires forall h: nat :: h < start + |run| ==> At(a, fa, start, run, h) == At(b, fb, start, run, h)
    ensures SaysWhy(r, a, fa, start, run, i, prev, e) <==> SaysWhy(r, b, fb, start, run, i, prev, e)
  {
    ViewsJudgeAlike(r, a, fa, b, fb, start, run, start + i);
  }

  lemma GrowthRefused(r: Rules, t: Tables, sp: Seeding, parent: Place, run: seq<Header>, prev: Hash)
    requires ForksOk(t, sp) && RowsOk(t, sp) && run != [] && parent in t.rows
    requires Prepared(r, GrowthOf(r, t, parent, run), sp)
    requires var g := GrowthOf(r, t, parent, run); CheckRun(r, g.t1, g.f, g.start, run, 0, prev).Some?
    ensures var g := GrowthOf(r, t, parent, run);
            var e := CheckRun(r, g.t1, g.f, g.start, run, 0, prev).value;
            RefusedFor(r, t, parent.fork, parent.height + 1, run, prev, e)
  {
    var g := GrowthOf(r, t, parent, run);
    var k := RunRefused(r, g.t1, g.f, g.start, run, prev);
    forall h: nat | h < g.start + |run| ensures At(g.t1, g.f, g.start, run, h) == At(t, parent.fork, g.start, run, h) {
      ViewOfParent(r, t, sp, parent, run, h);
    }
    SaysWhyInView(r, g.t1, g.f, t, parent.fork, g.start, run, k, prev,
      CheckRun(r, g.t1, g.f, g.start, run, 0, prev).value);
    forall j | 0 <= j < k ensures InOrder(r, t, parent.fork, g.start, run, j, prev) {
      InOrderInView(r, g.t1, g.f, t, parent.fork, g.start, run, j, prev);
    }
    assert AllInOrder(r, t, parent.fork, parent.height + 1, run, k, prev);
  }

  /** A call that fails says why, and of the new headers names the first that is not in order. */
  lemma ConnectRefused(r: Rules, ht: Header -> nat, t: Tables, sp: Seeding, network: nat, headers: seq<Header>, n: nat)
    requires Sound(r, ht) && Inv(r, ht, t, sp) && KnownUpTo(r, t, headers, n) && Connect(r, t, network, headers).Err?
    ensures SaysWhyNot(r, t, network, headers, n, Connect(r, t, network, headers).error)
  {
    KnownPrefixExactly(r, t, headers, n);
    if Attaches(r, t, network, headers) {
      var prev := ParentHash(r, headers, n);
      var parent, run := t.index[prev], headers[n..];
      ConnectAttaches(r, t, network, headers);
      OpenIsNotRefused(t, sp, parent);
      AttachIsGrow(r, t, sp, parent, run);
      if !Refused(t, parent) {
        GrowExactly(r, ht, t, sp, parent, run, prev);
        RefusedHere(r, t, network, headers, n, prev, parent, Grow(r, GrowthOf(r, t, parent, run)).error);
      }
    }
  }

  lemma RefusedHere(r: Rules, t: Tables, network: nat, headers: seq<Header>, n: nat, prev: Hash, parent: Place,
                    e: Error)
    requires KnownUpTo(r, t, headers, n) && n < |headers| && prev == Previous(r, headers, n)
    requires (t.network.Some? ==> t.network.value == network) && prev in t.index && parent == t.index[prev]
    requires Open(t, parent) && RefusedFor(r, t, parent.fork, parent.height + 1, headers[n..], prev, e)
    ensures SaysWhyNot(r, t, network, headers, n, e)
  {
  }

  // ── the outcome ────────────────────────────────────────────────────────────

  /** The outcome tells how many headers were new, the best fork before and after with its
      tip's height, and the floor if it moved. */
  predicate Reports(t: Tables, t': Tables, headers: seq<Header>, n: nat, o: Outcome)
    requires n <= |headers| && t'.best.Some? && t'.best.value in t'.forks
  {
    && o.connected == |headers| - n && o.prevBest == t.best && o.best == t'.best
    && o.tipHeight == t'.forks[t'.best.value].tipHeight
    && o.finalized == if t'.floor != t.floor then t'.floor else None
  }

  lemma FinishReports(t: Tables, sp: Seeding, start: nat, run: seq<Header>, prevBest: Option<nat>)
    requires start > 0 && ForksOk(t, sp) && RowsOk(t, sp) && FloorOk(t, sp) && prevBest.Some?
    requires t.best.Some? && t.best.value in t.forks && Finish(t, start, run, prevBest).Ok?
    ensures var (t', o) := Finish(t, start, run, prevBest).value;
      && t'.best == t.best && t'.forks == t.forks
      && o == Outcome(|run|, prevBest, t.best, t.forks[t.best.value].tipHeight,
                      if t'.floor != t.floor then t'.floor else None)
  {
    FinalizeEffect(Rules(_ => 0, _ => 0, (_, _) => 0, _ => true, false), t, sp);
  }

  lemma ConnectReports(r: Rules, ht: Header -> nat, t: Tables, sp: Seeding, network: nat, headers: seq<Header>, n: nat)
    requires Sound(r, ht) && Inv(r, ht, t, sp) && KnownUpTo(r, t, headers, n) && Connect(r, t, network, headers).Ok?
    ensures var (t', o) := Connect(r, t, network, headers).value;
      && t'.best.Some? && t'.best.value in t'.forks && Reports(t, t', headers, n, o)
      && (n == |headers| ==> t' == t)
  {
    KnownPrefixExactly(r, t, headers, n);
    ConnectIsGood(r, ht, t, sp, network, headers);
    if Attaches(r, t, network, headers) {
      AttachReports(r, ht, t, sp, network, headers, n);
    }
  }

  lemma GrowReports(r: Rules, ht: Header -> nat, t: Tables, sp: Seeding, parent: Place, run: seq<Header>)
    requires Inv(r, ht, t, sp) && run != [] && parent in t.rows && Prepared(r, GrowthOf(r, t, parent, run), sp)
    requires Grow(r, GrowthOf(r, t, parent, run)).Ok?
    ensures var (t', o) := Grow(r, GrowthOf(r, t, parent, run)).value;
      && t'.best.Some? && t'.best.value in t'.forks
      && o == Outcome(|run|, t.best, t'.best, t'.forks[t'.best.value].tipHeight,
                      if t'.floor != t.floor then t'.floor else None)
  {
    var g := GrowthOf(r, t, parent, run);
    GrowOrRefuse(r, g);
    GrowFinishes(r, g);
    GrownShape(r, g, sp);
    FinishReports(Reselect(After(r, g), g.f), sp, g.start, run, t.best);
  }

  lemma AttachReports(r: Rules, ht: Header -> nat, t: Tables, sp: Seeding, network: nat, headers: seq<Header>, n: nat)
    requires Sound(r, ht) && Inv(r, ht, t, sp) && KnownPrefix(r, t, headers) == n && Attaches(r, t, network, headers)
    requires Connect(r, t, network, headers).Ok?
    ensures var (t', o) := Connect(r, t, network, headers).value;
            t'.best.Some? && t'.best.value in t'.forks && Reports(t, t', headers, n, o)
  {
    var parent, run := t.index[ParentHash(r, headers, n)], headers[n..];
    ConnectAttaches(r, t, network, headers);
    AttachIsGrow(r, t, sp, parent, run);
    GrowReports(r, ht, t, sp, parent, run);
  }

  lemma GrownShape(r: Rules, g: Growth, sp: Seeding)
    requires Prepared(r, g, sp) && ForksOk(g.t, sp) && RowsOk(g.t, sp) && FloorOk(g.t, sp) && BestOk(g.t)
    ensures var t := Reselect(After(r, g), g.f);
      ForksOk(t, sp) && RowsOk(t, sp) && FloorOk(t, sp) && t.best.Some? && t.best.value in t.forks
        && t.floor == g.t.floor
  {
    GrowForks(r, g, sp);
    GrowRows(r, g, sp);
    GrowFloor(r, g, sp);
    AfterForks(r, g, sp);
    ReselectChangesBest(After(r, g), g.f);
    SelectedBest(r, g, sp);
  }

  /** The run is on fork `f` from `start` on. */
  predicate RunStored(t: Tables, f: nat, start: nat, run: seq<Header>) {
    f in t.forks && forall i {:trigger run[i]} :: 0 <= i < |run| ==> RowIs(t, Place(f, start + i), run[i])
  }

  predicate RowIs(t: Tables, k: Place, header: Header) { k in t.rows && t.rows[k].header == header }

  lemma RunAfter(r: Rules, g: Growth, sp: Seeding)
    requires Prepared(r, g, sp) && ForksOk(g.t, sp) && RowsOk(g.t, sp)
    ensures RunStored(After(r, g), g.f, g.start, g.run)
  {
    AfterForks(r, g, sp);
    forall i | 0 <= i < |g.run| ensures RowIs(After(r, g), Place(g.f, g.start + i), g.run[i]) {
      NewRow(r, g, sp, i);
    }
  }

  lemma SameRowsStored(t: Tables, t': Tables, f: nat, start: nat, run: seq<Header>)
    requires RunStored(t, f, start, run) && t'.rows == t.rows && t'.forks == t.forks
    ensures RunStored(t', f, start, run)
  {
    forall i | 0 <= i < |run| ensures RowIs(t', Place(f, start + i), run[i]) {
      assert RowIs(t, Place(f, start + i), run[i]);
    }
  }

  /** The new headers of an accepted call are stored one after the other, on top of the block
      they follow. */
  lemma AcceptedStores(r: Rules, ht: Header -> nat, t: Tables, sp: Seeding, call: Call)
    requires Sound(r, ht) && Inv(r, ht, t, sp) && Accepted(r, t, call)
    ensures RunStored(Apply(r, t, call), GrowthOf(r, t, ParentOf(r, t, call), NewRun(r, t, call)).f,
                      ParentOf(r, t, call).height + 1, NewRun(r, t, call))
  {
    var g := GrowthOf(r, t, ParentOf(r, t, call), NewRun(r, t, call));
    BestAfter(r, ht, t, sp, call);
    RunAfter(r, g, sp);
    SameRowsStored(After(r, g), Apply(r, t, call), g.f, g.start, g.run);
  }

  // ── seeding ────────────────────────────────────────────────────────────────

  lemma {:induction false} SortedIsUnique(s: seq<Entry>, u: seq<Entry>)
    requires multiset(s) == multiset(u) && Ascending(u) && forall i, j :: 0 <= i < j < |s| ==> s[i].height < s[j].height
    ensures s == u
    decreases |s|
  {
    if s == [] {
      assert |multiset(u)| == 0;
    } else {
      assert |s| == |multiset(s)| == |multiset(u)| == |u|;
      SameFirst(s, u);
      SameRest(s, u);
      SortedIsUnique(s[1..], u[1..]);
      assert s == [s[0]] + s[1..] && u == [u[0]] + u[1..];
    }
  }

  lemma SameFirst(s: seq<Entry>, u: seq<Entry>)
    requires s != [] && u != [] && multiset(s) == multiset(u) && Ascending(u)
    requires forall i, j :: 0 <= i < j < |s| ==> s[i].height < s[j].height
    ensures s[0] == u[0]
  {
    assert u[0] in multiset(s) && s[0] in multiset(u);
    var i :| 0 <= i < |s| && s[i] == u[0];
    var j :| 0 <= j < |u| && u[j] == s[0];
    if i > 0 {
      assert false;
    }
  }

  lemma SameRest(s: seq<Entry>, u: seq<Entry>)
    requires s != [] && u != [] && multiset(s) == multiset(u) && s[0] == u[0]
    ensures multiset(s[1..]) == multiset(u[1..])
  {
    assert s == [s[0]] + s[1..] && u == [u[0]] + u[1..];
    assert multiset(s[1..]) == multiset(s) - multiset{s[0]} && multiset(u[1..]) == multiset(u) - multiset{u[0]};
  }

  /** The entries in an order in which each is a whole period above the one before it. */
  predicate IsLadderOf(s: seq<Entry>, entries: seq<Entry>) {
    && s != [] && multiset(s) == multiset(entries)
    && forall i :: 0 <= i < |s| ==> s[i].height == s[0].height + 2016 * i
  }

  /** A seeding is accepted exactly when the store has no root yet and the entries are, in some
      order, whole periods apart without a gap; it then records the network and the height of
      the lowest entry, and makes the highest the floor. Otherwise the two refusals tell which. */
  lemma SeedExactly(r: Rules, t: Tables, entries: seq<Entry>, network: nat)
    ensures Seed(r, t, entries, network).Ok?
       <==> 0 !in t.forks && exists s: seq<Entry> :: IsLadderOf(s, entries)
    ensures Seed(r, t, entries, network) == Err(AlreadySeeded) <==> 0 in t.forks
    ensures Seed(r, t, entries, network).Err? ==> Seed(r, t, entries, network).error in {AlreadySeeded, Internal}
  {
    SortSorts(entries);
    if Contiguous(SortByHeight(entries)) && entries != [] {
      assert IsLadderOf(SortByHeight(entries), entries);
    }
    if exists s: seq<Entry> :: IsLadderOf(s, entries) {
      var s: seq<Entry> :| IsLadderOf(s, entries);
      SortedIsUnique(s, SortByHeight(entries));
    }
  }

  lemma SeedRecords(r: Rules, t: Tables, entries: seq<Entry>, network: nat)
    requires Seed(r, t, entries, network).Ok?
    ensures var t' := Seed(r, t, entries, network).value;
      && t'.network == Some(network) && t'.best == Some(0)
      && (exists e :: e in entries && t'.seedHeight == Some(e.height)
                      && forall x :: x in entries ==> e.height <= x.height)
      && (exists e :: e in entries && t'.floor == Some(e.height) && forall x :: x in entries ==> x.height <= e.height)
  {
    var s := SortByHeight(entries);
    SortSorts(entries);
    forall x | x in entries ensures x in s {
      assert x in multiset(s);
    }
    assert s[0] in multiset(entries) && s[|s| - 1] in multiset(entries);
  }

  // ── the canonical height ───────────────────────────────────────────────────

  /** A block has a canonical height exactly when it is stored and lies on the best chain, or
      on a fork above the best one, at or over the height where the best chain left it; and
      the height is where it is stored. */
  lemma HeightExactly(r: Rules, ht: Header -> nat, t: Tables, sp: Seeding, hash: Hash, h: nat)
    requires Inv(r, ht, t, sp)
    ensures HeightOf(t, hash) == Some(h)
       <==> exists k :: k in t.rows && r.hash(t.rows[k].header) == hash && k.height == h
              && (OnBestChain(t, k)
                  || (LeavesAt(t.forks, t.best.value, k.fork).Some?
                    && h >= LeavesAt(t.forks, t.best.value, k.fork).value))
  {
    if hash in t.index {
      var k := t.index[hash];
      CanonicalCheckExact(r, ht, t, sp, k);
      forall x | x in t.rows && r.hash(t.rows[x].header) == hash ensures x == k {
      }
    }
  }
}
