/** Runs of calls on a seeded store: what is finalized stays, exactly when it does, and
    which blocks the canonical check accepts. */
module ForkFinality {
  import opened ForkGrowth
  import opened ForkInvariant
  import opened ForkRuns
  import opened ForkSeeding
  import opened ForkSpec
  import opened ForkStore
  import opened Wrappers

  // ── runs ───────────────────────────────────────────────────────────────────

  datatype Call = Call(network: nat, headers: seq<Header>)

  /** A call commits its tables or, on an error, leaves the store as it was. */
  function Apply(r: Rules, t: Tables, call: Call): Tables {
    match Connect(r, t, call.network, call.headers)
    case Ok((t', _)) => t'
    case Err(_) => t
  }

  function Play(r: Rules, t: Tables, calls: seq<Call>): Tables
    decreases |calls|
  {
    if calls == [] then t else Play(r, Apply(r, t, calls[0]), calls[1..])
  }

  lemma ApplyIsGood(r: Rules, ht: Header -> nat, t: Tables, sp: Seeding, call: Call)
    requires Sound(r, ht) && Inv(r, ht, t, sp)
    ensures Inv(r, ht, Apply(r, t, call), sp)
    ensures TipWork(Apply(r, t, call), Apply(r, t, call).best.value) >= TipWork(t, t.best.value)
    ensures t.floor.value <= Apply(r, t, call).floor.value
  {
    ConnectIsGood(r, ht, t, sp, call.network, call.headers);
  }

  /** Over any run, the invariant holds throughout, the best chain's work never falls and
      the floor only rises, from one period boundary to another. */
  lemma {:induction false} RunsKeepInv(r: Rules, ht: Header -> nat, t: Tables, sp: Seeding, calls: seq<Call>)
    requires Sound(r, ht) && Inv(r, ht, t, sp)
    ensures Inv(r, ht, Play(r, t, calls), sp)
    ensures TipWork(Play(r, t, calls), Play(r, t, calls).best.value) >= TipWork(t, t.best.value)
    ensures t.floor.value <= Play(r, t, calls).floor.value
    ensures Play(r, t, calls).floor.value % DIFFICULTY_PERIOD == 0
    decreases |calls|
  {
    if calls != [] {
      ApplyIsGood(r, ht, t, sp, calls[0]);
      RunsKeepInv(r, ht, Apply(r, t, calls[0]), sp, calls[1..]);
    }
  }

  /** Every store reached from a genuine seeding keeps the invariant, and on it no call
      ever fails for a missing parent or missing cumulative work. */
  lemma ReachableStores(r: Rules, ht: Header -> nat, entries: seq<Entry>, network: nat, calls: seq<Call>, next: Call)
    requires Sound(r, ht) && Genuine(ht, entries) && Seed(r, Empty, entries, network).Ok?
    ensures var t := Play(r, Seed(r, Empty, entries, network).value, calls);
            && Inv(r, ht, t, SeedingOf(SortByHeight(entries)))
            && Connect(r, t, next.network, next.headers) != Err(Internal)
  {
    SeedEstablishes(r, ht, entries, network);
    var sp := SeedingOf(SortByHeight(entries));
    RunsKeepInv(r, ht, Seed(r, Empty, entries, network).value, sp, calls);
    ConnectIsGood(r, ht, Play(r, Seed(r, Empty, entries, network).value, calls), sp, next.network, next.headers);
  }

  // ── chains persist ─────────────────────────────────────────────────────────

  /** Forks and their chains up to their tips, read alike in both stores. */
  ghost predicate KeepsChains(a: Tables, b: Tables) {
    && SameShape(a.forks, b.forks)
    && forall f: nat, h: nat :: f in a.forks && h <= a.forks[f].tipHeight ==>
         h <= b.forks[f].tipHeight && RowAt(b, f, h) == RowAt(a, f, h)
  }

  lemma GrowthKeepsChains(r: Rules, g: Growth, sp: Seeding, b: Tables)
    requires Prepared(r, g, sp) && ForksOk(g.t, sp) && RowsOk(g.t, sp)
    requires b == After(r, g).(best := b.best, floor := b.floor)
    ensures KeepsChains(g.t, b)
  {
    AfterForks(r, g, sp);
    forall f: nat, h: nat | f in g.t.forks && h <= g.t.forks[f].tipHeight
      ensures h <= b.forks[f].tipHeight && RowAt(b, f, h) == RowAt(g.t, f, h)
    {
      ChainStays(r, g, sp, f, h);
      assert RowAt(b, f, h) == RowAt(After(r, g), f, h);
    }
  }

  /** The growth behind a call that changed the store. */
  ghost predicate GrownBy(r: Rules, g: Growth, t': Tables, sp: Seeding) {
    && Prepared(r, g, sp) && !Refused(g.t, g.parent) && g == GrowthOf(r, g.t, g.parent, g.run)
    && t' == After(r, g).(best := t'.best, floor := t'.floor)
  }

  lemma GrowFrame(r: Rules, g: Growth)
    requires g.run != [] && g.parent in g.t.rows && g.f in g.t1.forks && g.start > 0
    requires Grow(r, g).Ok?
    ensures var t' := Grow(r, g).value.0;
            t' == After(r, g).(best := t'.best, floor := t'.floor)
  {
  }

  lemma ApplyGrows(r: Rules, t: Tables, sp: Seeding, call: Call) returns (g: Growth)
    requires ForksOk(t, sp) && RowsOk(t, sp) && FloorOk(t, sp) && IndexOk(r, t)
    ensures Apply(r, t, call) != t ==> g.t == t && GrownBy(r, g, Apply(r, t, call), sp)
  {
    g := Growth(t, t, 0, 0, Place(0, 0), []);
    ConnectAttaches(r, t, call.network, call.headers);
    if Attaches(r, t, call.network, call.headers) {
      var n := KnownPrefix(r, t, call.headers);
      var parent := t.index[ParentHash(r, call.headers, n)];
      AttachIsGrow(r, t, sp, parent, call.headers[n..]);
      if !Refused(t, parent) {
        g := GrowthOf(r, t, parent, call.headers[n..]);
        if Grow(r, g).Ok? {
          GrowFrame(r, g);
        }
      }
    }
  }

  lemma ApplyKeepsChains(r: Rules, ht: Header -> nat, t: Tables, sp: Seeding, call: Call)
    requires Sound(r, ht) && Inv(r, ht, t, sp)
    ensures KeepsChains(t, Apply(r, t, call))
  {
    var g := ApplyGrows(r, t, sp, call);
    if Apply(r, t, call) != t {
      GrowthKeepsChains(r, g, sp, Apply(r, t, call));
    }
  }

  /** Whatever a run does, no header already on a fork's chain is replaced. */
  lemma {:induction false} RunsKeepChains(r: Rules, ht: Header -> nat, t: Tables, sp: Seeding, calls: seq<Call>)
    requires Sound(r, ht) && Inv(r, ht, t, sp)
    ensures KeepsChains(t, Play(r, t, calls))
    decreases |calls|
  {
    if calls != [] {
      var t1 := Apply(r, t, calls[0]);
      ApplyIsGood(r, ht, t, sp, calls[0]);
      ApplyKeepsChains(r, ht, t, sp, calls[0]);
      RunsKeepChains(r, ht, t1, sp, calls[1..]);
      ChainsCompose(t, t1, Play(r, t1, calls[1..]));
    }
  }

  lemma ChainsCompose(a: Tables, b: Tables, c: Tables)
    requires KeepsChains(a, b) && KeepsChains(b, c)
    ensures KeepsChains(a, c)
  {
    forall f: nat, h: nat | f in a.forks && h <= a.forks[f].tipHeight
      ensures h <= c.forks[f].tipHeight && RowAt(c, f, h) == RowAt(a, f, h)
    {
      ComposeAt(a, b, c, f, h);
    }
  }

  lemma ComposeAt(a: Tables, b: Tables, c: Tables, f: nat, h: nat)
    requires KeepsChains(a, b) && KeepsChains(b, c) && f in a.forks && h <= a.forks[f].tipHeight
    ensures f in c.forks && h <= c.forks[f].tipHeight && RowAt(c, f, h) == RowAt(a, f, h)
  {
    assert RowAt(b, f, h) == RowAt(a, f, h);
  }

  // ── leaving the root chain ─────────────────────────────────────────────────

  /** The height at which a fork's ancestry leaves the root chain. */
  function Departure(forks: map<nat, ForkMeta>, f: nat): nat
    decreases f
  {
    if f !in forks then 0
    else
      match forks[f].parent
      case None => 0
      case Some(p) => if 0 < p < f then Departure(forks, p) else forks[f].forkpoint
  }

  /** The fork is the root, or leaves it strictly above `h`. */
  predicate LeavesAbove(t: Tables, f: nat, h: nat) {
    f == 0 || Departure(t.forks, f) > h
  }

  lemma {:induction false} RootOwns(t: Tables, sp: Seeding, f: nat, h: nat)
    requires ForksOk(t, sp) && f in t.forks && h <= t.forks[f].tipHeight
    ensures OwnerFork(t.forks, f, h) == Some(0) <==> LeavesAbove(t, f, h)
    ensures f != 0 ==> sp.last < Departure(t.forks, f) <= t.forks[f].forkpoint
    decreases f
  {
    assert ForkOk(t.forks, sp, f);
    if f != 0 {
      var p := t.forks[f].parent.value;
      assert ForkOk(t.forks, sp, p);
      if h < t.forks[f].forkpoint {
        RootOwns(t, sp, p, h);
      } else {
        RootOwns(t, sp, p, t.forks[p].tipHeight);
      }
    }
  }

  /** The row at `height` on the best chain. */
  function CanonicalAt(t: Tables, height: nat): Option<Row> {
    if t.best.Some? then RowAt(t, t.best.value, height) else None
  }

  /** The best fork left the root above `h`. */
  predicate BestLeavesAbove(t: Tables, h: nat) {
    t.best.Some? && LeavesAbove(t, t.best.value, h)
  }

  /** The canonical chain agrees with the root up to the floor. */
  ghost predicate FinalizedIsRoot(t: Tables) {
    t.floor.Some? && forall h: nat :: h <= t.floor.value ==> CanonicalAt(t, h) == RowAt(t, 0, h)
  }

  lemma DifferentPlacesDiffer(r: Rules, t: Tables, a: Place, b: Place)
    requires IndexOk(r, t) && a in t.rows && b in t.rows && a != b
    ensures t.rows[a].header != t.rows[b].header
  {
  }

  lemma AgreesBelowDeparture(r: Rules, ht: Header -> nat, t: Tables, sp: Seeding, f: nat, floor: nat)
    requires ForksOk(t, sp) && RowsOk(t, sp) && IndexOk(r, t)
    requires f in t.forks && sp.last <= floor <= t.forks[0].tipHeight
    ensures LeavesAbove(t, f, floor) ==> forall h: nat :: h <= floor ==> RowAt(t, f, h) == RowAt(t, 0, h)
    ensures !LeavesAbove(t, f, floor) ==>
      var h := Departure(t.forks, f);
      h <= floor && RowAt(t, f, h).Some? && RowAt(t, 0, h).Some?
        && RowAt(t, f, h).value.header != RowAt(t, 0, h).value.header
  {
    assert ForkOk(t.forks, sp, f);
    if LeavesAbove(t, f, floor) {
      forall h: nat | h <= floor ensures RowAt(t, f, h) == RowAt(t, 0, h) {
        if f != 0 {
          RootOwns(t, sp, f, 0);
          RootOwns(t, sp, f, h);
        }
      }
    } else {
      RootOwns(t, sp, f, 0);
      var h := Departure(t.forks, f);
      RootOwns(t, sp, f, h);
      Owner(t, sp, f, h);
      var k := Place(OwnerFork(t.forks, f, h).value, h);
      assert ForkOk(t.forks, sp, 0);
      assert Occupied(t.forks, sp, k) && Occupied(t.forks, sp, Place(0, h));
      DifferentPlacesDiffer(r, t, k, Place(0, h));
    }
  }

  /** In every reachable store, the canonical chain agrees with the root at every height up
      to the floor if and only if the best fork left the root above it. The floor is only
      checked when a fork is opened, so an old fork may not have. */
  lemma FinalizedIsRootWhen(r: Rules, ht: Header -> nat, t: Tables, sp: Seeding)
    requires Inv(r, ht, t, sp)
    ensures FinalizedIsRoot(t) <==> BestLeavesAbove(t, t.floor.value)
  {
    AgreesBelowDeparture(r, ht, t, sp, t.best.value, t.floor.value);
  }

  /** The canonical headers up to `h` are the same in both stores. */
  ghost predicate Agree(a: Tables, b: Tables, h: nat) {
    forall x: nat :: x <= h ==> CanonicalAt(b, x) == CanonicalAt(a, x)
  }

  /** From a store whose best fork left the root above `h`, a store grown out of it has the
      same canonical headers up to `h` if and only if its best fork did too. */
  lemma AgreesWhen(r: Rules, ht: Header -> nat, t: Tables, t': Tables, sp: Seeding, h: nat)
    requires Inv(r, ht, t, sp) && Inv(r, ht, t', sp) && KeepsChains(t, t')
    requires sp.last <= h <= t.floor.value && BestLeavesAbove(t, h)
    ensures Agree(t, t', h) <==> BestLeavesAbove(t', h)
  {
    RootUnchanged(t, t', h);
    AgreesBelowDeparture(r, ht, t, sp, t.best.value, h);
    AgreesBelowDeparture(r, ht, t', sp, t'.best.value, h);
    if !LeavesAbove(t', t'.best.value, h) {
      var x := Departure(t'.forks, t'.best.value);
      assert CanonicalAt(t', x) != RowAt(t', 0, x);
      assert CanonicalAt(t, x) == RowAt(t, 0, x);
    }
  }

  /** Over any run from a store that agrees with its root below the floor, the canonical
      headers up to that floor are unchanged if and only if the best fork the run ends
      with left the root above it. */
  lemma FinalityExact(r: Rules, ht: Header -> nat, t: Tables, sp: Seeding, calls: seq<Call>)
    requires Sound(r, ht) && Inv(r, ht, t, sp) && BestLeavesAbove(t, t.floor.value)
    ensures Agree(t, Play(r, t, calls), t.floor.value) <==> BestLeavesAbove(Play(r, t, calls), t.floor.value)
  {
    RunsKeepInv(r, ht, t, sp, calls);
    RunsKeepChains(r, ht, t, sp, calls);
    AgreesWhen(r, ht, t, Play(r, t, calls), sp, t.floor.value);
  }

  lemma RootUnchanged(t: Tables, t': Tables, floor: nat)
    requires KeepsChains(t, t') && 0 in t.forks && floor <= t.forks[0].tipHeight
    ensures 0 in t'.forks && floor <= t'.forks[0].tipHeight
    ensures forall h: nat :: h <= floor ==> RowAt(t', 0, h) == RowAt(t, 0, h)
  {
    assert RowAt(t', 0, floor) == RowAt(t, 0, floor);
  }

  // ── finality over quiet runs ───────────────────────────────────────────────

  /** Every live fork left the root above the floor. */
  ghost predicate AllAbove(t: Tables) {
    t.floor.Some? && forall f :: f in t.forks ==> LeavesAbove(t, f, t.floor.value)
  }

  /** No floor move of the run passes the height at which a live fork left the root. */
  ghost predicate Quiet(r: Rules, t: Tables, calls: seq<Call>)
    decreases |calls|
  {
    calls == [] ||
    var t1 := Apply(r, t, calls[0]);
    (t1.floor != t.floor ==> AllAbove(t1)) && Quiet(r, t1, calls[1..])
  }

  lemma {:induction false} DepartureStable(a: Tables, sp: Seeding, b: map<nat, ForkMeta>, f: nat)
    requires ForksOk(a, sp) && SameShape(a.forks, b) && f in a.forks
    ensures Departure(b, f) == Departure(a.forks, f)
    decreases f
  {
    assert ForkOk(a.forks, sp, f);
    if f != 0 && a.forks[f].parent.value != 0 {
      DepartureStable(a, sp, b, a.forks[f].parent.value);
    }
  }

  /** While the floor stands still, a fork can only be opened above it. */
  lemma ApplyKeepsAbove(r: Rules, ht: Header -> nat, t: Tables, sp: Seeding, call: Call)
    requires Sound(r, ht) && Inv(r, ht, t, sp) && AllAbove(t)
    requires Apply(r, t, call).floor == t.floor
    ensures AllAbove(Apply(r, t, call))
  {
    var g := ApplyGrows(r, t, sp, call);
    if Apply(r, t, call) != t {
      GrowthKeepsAbove(r, g, sp, Apply(r, t, call));
    }
  }

  lemma GrowthKeepsAbove(r: Rules, g: Growth, sp: Seeding, t': Tables)
    requires GrownBy(r, g, t', sp) && ForksOk(g.t, sp) && AllAbove(g.t) && t'.floor == g.t.floor
    ensures AllAbove(t')
  {
    AfterForks(r, g, sp);
    forall f | f in t'.forks ensures LeavesAbove(t', f, g.t.floor.value) {
      if f in g.t.forks {
        DepartureStable(g.t, sp, t'.forks, f);
      } else {
        assert t'.forks[f].parent == Some(g.parent.fork);
        DepartureStable(g.t, sp, t'.forks, g.parent.fork);
      }
    }
  }

  lemma {:induction false} QuietRunsStayAbove(r: Rules, ht: Header -> nat, t: Tables, sp: Seeding, calls: seq<Call>)
    requires Sound(r, ht) && Inv(r, ht, t, sp) && AllAbove(t) && Quiet(r, t, calls)
    ensures AllAbove(Play(r, t, calls))
    decreases |calls|
  {
    if calls != [] {
      ApplyIsGood(r, ht, t, sp, calls[0]);
      if Apply(r, t, calls[0]).floor == t.floor {
        ApplyKeepsAbove(r, ht, t, sp, calls[0]);
      }
      QuietRunsStayAbove(r, ht, Apply(r, t, calls[0]), sp, calls[1..]);
    }
  }

  /** Finality: in a run where no floor move passes a live fork's departure, a canonical
      header at or below the floor never changes again. */
  lemma FinalizedNeverChanges(r: Rules, ht: Header -> nat, t: Tables, sp: Seeding, calls: seq<Call>, h: nat)
    requires Sound(r, ht) && Inv(r, ht, t, sp) && AllAbove(t) && Quiet(r, t, calls)
    requires h <= t.floor.value
    ensures CanonicalAt(Play(r, t, calls), h) == CanonicalAt(t, h)
  {
    var t' := Play(r, t, calls);
    QuietRunsStayAbove(r, ht, t, sp, calls);
    RunsKeepInv(r, ht, t, sp, calls);
    assert LeavesAbove(t', t'.best.value, t'.floor.value);
    FinalityExact(r, ht, t, sp, calls);
  }
}
