/** What every reachable Bitcoin store keeps: the shape of the fork tree, the hash index
    as the inverse of the rows, the links and the work ladder, and every contextual check. */
module ForkInvariant {
  import opened ForkSpec
  import opened ForkStore
  import opened Wrappers

  /** What the library's functions are taken to satisfy: hashes do not collide, a height
      rises by one along parent links (so no chain of hashes closes on itself), and every
      target carries some work. */
  ghost predicate Sound(r: Rules, ht: Header -> nat) {
    && Injective(r)
    && (forall a: Header, b: Header {:trigger r.hash(a), ht(b)} :: b.prev == r.hash(a) ==> ht(b) == ht(a) + 1)
    && (forall bits: nat :: r.work(bits) >= 1)
  }

  ghost predicate Injective(r: Rules) {
    forall a: Header, b: Header :: r.hash(a) == r.hash(b) ==> a == b
  }

  /** The first and last seeded heights. */
  datatype Seeding = Seeding(first: nat, last: nat)

  predicate IsSeed(sp: Seeding, h: nat) {
    sp.first <= h <= sp.last && (h - sp.first) % DIFFICULTY_PERIOD == 0
  }

  /** A fork other than the root hangs off a smaller id, strictly above its parent's
      forkpoint and within its parent's chain; and above every seed. */
  predicate ForkOk(forks: map<nat, ForkMeta>, sp: Seeding, f: nat)
    requires f in forks
  {
    var m := forks[f];
    if f == 0 then m.parent.None? && m.forkpoint == 0 && sp.last <= m.tipHeight
    else
      && m.parent.Some?
      && var p := m.parent.value;
      && p < f && p in forks
      && forks[p].forkpoint < m.forkpoint <= forks[p].tipHeight
      && sp.last < m.forkpoint <= m.tipHeight
  }

  ghost predicate ForksOk(t: Tables, sp: Seeding) {
    && IsSeed(sp, sp.last)
    && 0 in t.forks
    && (forall f {:trigger ForkOk(t.forks, sp, f)} :: f in t.forks ==> ForkOk(t.forks, sp, f))
    && t.nextFork.Some?
    && (forall f :: f in t.forks ==> f < t.nextFork.value)
  }

  /** The places that hold a row: a fork's own heights, and on the root the seeds below
      the last one. */
  predicate Occupied(forks: map<nat, ForkMeta>, sp: Seeding, k: Place) {
    && k.fork in forks
    && forks[k.fork].forkpoint <= k.height <= forks[k.fork].tipHeight
    && (k.height >= sp.last || IsSeed(sp, k.height))
  }

  ghost predicate RowsOk(t: Tables, sp: Seeding) {
    forall k :: k in t.rows <==> Occupied(t.forks, sp, k)
  }

  /** The hash index and the rows are inverse to each other. */
  ghost predicate IndexOk(r: Rules, t: Tables) {
    && (forall k :: k in t.rows ==> r.hash(t.rows[k].header) in t.index && t.index[r.hash(t.rows[k].header)] == k)
    && (forall x :: x in t.index ==> t.index[x] in t.rows && r.hash(t.rows[t.index[x]].header) == x)
  }

  ghost predicate HeightsOk(ht: Header -> nat, t: Tables) {
    forall k :: k in t.rows ==> ht(t.rows[k].header) == k.height
  }

  /** Where the row below `k` on its chain lives. */
  function Below(forks: map<nat, ForkMeta>, k: Place): Place
    requires k.fork in forks && k.height > 0
  {
    var m := forks[k.fork];
    Place(if k.height > m.forkpoint then k.fork else m.parent.GetOr(0), k.height - 1)
  }

  /** A row links to the one below it by hash and adds its own work. */
  ghost predicate LinkOk(r: Rules, t: Tables, k: Place)
    requires k in t.rows
  {
    && k.fork in t.forks && k.height > 0
    && var below := Below(t.forks, k);
    && below in t.rows
    && t.rows[k].header.prev == r.hash(t.rows[below].header)
    && t.rows[k].work == t.rows[below].work + r.work(t.rows[k].header.bits)
  }

  ghost predicate LinksOk(r: Rules, t: Tables, sp: Seeding) {
    forall k {:trigger LinkOk(r, t, k)} ::
      k in t.rows && k.height > sp.last ==> LinkOk(r, t, k)
  }

  /** The checks of a header against the chain below it, as stored. */
  predicate Passes(r: Rules, t: Tables, f: nat, start: nat, run: seq<Header>, height: nat, header: Header)
    requires height > 0
  {
    && CheckDifficulty(r, t, f, start, run, height, header).None?
    && (MedianTimePast(t, f, start, run, height).Some? ==> header.time > MedianTimePast(t, f, start, run, height).value)
    && r.validPow(header)
  }

  ghost predicate ChecksOk(r: Rules, t: Tables, sp: Seeding) {
    forall k {:trigger Passes(r, t, k.fork, 0, [], k.height, t.rows[k].header)} ::
      k in t.rows && k.height > sp.last ==> Passes(r, t, k.fork, 0, [], k.height, t.rows[k].header)
  }

  /** The parts about the chains themselves. */
  ghost predicate TreeOk(r: Rules, ht: Header -> nat, t: Tables, sp: Seeding) {
    && ForksOk(t, sp) && RowsOk(t, sp) && IndexOk(r, t) && HeightsOk(ht, t)
    && LinksOk(r, t, sp) && ChecksOk(r, t, sp)
  }

  function TipWork(t: Tables, f: nat): nat {
    ForkChainwork(t, f).GetOr(0)
  }

  /** The best fork is at least as heavy as every fork. */
  ghost predicate BestOk(t: Tables) {
    && t.best.Some? && t.best.value in t.forks
    && forall f :: f in t.forks ==> TipWork(t, f) <= TipWork(t, t.best.value)
  }

  /** The floor is a period boundary between the last seed and the root's tip. */
  predicate FloorOk(t: Tables, sp: Seeding) {
    && t.floor.Some? && sp.last <= t.floor.value && t.floor.value % DIFFICULTY_PERIOD == 0
    && 0 in t.forks && t.floor.value <= t.forks[0].tipHeight
  }

  /** The spine is the root chain's period boundaries. */
  ghost predicate SpineOk(t: Tables, sp: Seeding) {
    forall h: nat :: (h in t.spine <==> h % DIFFICULTY_PERIOD == 0 && Place(0, h) in t.rows)
             && (h in t.spine ==> t.spine[h] == t.rows[Place(0, h)].header)
  }

  ghost predicate Inv(r: Rules, ht: Header -> nat, t: Tables, sp: Seeding) {
    TreeOk(r, ht, t, sp) && BestOk(t) && FloorOk(t, sp) && SpineOk(t, sp)
  }

  // ── ownership ──────────────────────────────────────────────────────────────

  lemma {:induction false} Owner(t: Tables, sp: Seeding, f: nat, h: nat)
    requires ForksOk(t, sp) && f in t.forks && h <= t.forks[f].tipHeight
    ensures OwnerFork(t.forks, f, h).Some?
    ensures var o := OwnerFork(t.forks, f, h).value;
            && o in t.forks && o <= f && t.forks[o].forkpoint <= h <= t.forks[o].tipHeight
            && (o != f ==> h < t.forks[f].forkpoint)
    decreases f
  {
    assert ForkOk(t.forks, sp, f);
    if h < t.forks[f].forkpoint {
      Owner(t, sp, t.forks[f].parent.value, h);
    }
  }

  /** The owner of a height owns it down to its forkpoint, and its parent the height below. */
  lemma {:induction false} OwnerBelow(t: Tables, sp: Seeding, f: nat, h: nat)
    requires ForksOk(t, sp) && f in t.forks && h <= t.forks[f].tipHeight && h > 0
    requires OwnerFork(t.forks, f, h).Some?
    requires var o := OwnerFork(t.forks, f, h).value; o in t.forks && (o == 0 ==> h > t.forks[0].forkpoint)
    ensures OwnerFork(t.forks, f, h - 1) == Some(Below(t.forks, Place(OwnerFork(t.forks, f, h).value, h)).fork)
    decreases f
  {
    assert ForkOk(t.forks, sp, f);
    if h < t.forks[f].forkpoint {
      OwnerBelow(t, sp, t.forks[f].parent.value, h);
    } else if h == t.forks[f].forkpoint && f != 0 {
      assert ForkOk(t.forks, sp, t.forks[f].parent.value);
    }
  }

  /** Above the seeds, every height of a fork's chain is stored and links to the one below. */
  lemma ChainStep(r: Rules, t: Tables, sp: Seeding, f: nat, h: nat)
    requires ForksOk(t, sp) && RowsOk(t, sp) && LinksOk(r, t, sp)
    requires f in t.forks && sp.last < h <= t.forks[f].tipHeight
    ensures RowAt(t, f, h).Some? && RowAt(t, f, h - 1).Some?
    ensures RowAt(t, f, h).value.header.prev == r.hash(RowAt(t, f, h - 1).value.header)
    ensures RowAt(t, f, h).value.work == RowAt(t, f, h - 1).value.work + r.work(RowAt(t, f, h).value.header.bits)
  {
    Owner(t, sp, f, h);
    var o := OwnerFork(t.forks, f, h).value;
    assert ForkOk(t.forks, sp, o);
    assert Occupied(t.forks, sp, Place(o, h));
    assert LinkOk(r, t, Place(o, h));
    OwnerBelow(t, sp, f, h);
  }

  /** A fork's own rows are what its chain reads there. */
  lemma OwnRow(t: Tables, sp: Seeding, k: Place)
    requires ForksOk(t, sp) && RowsOk(t, sp) && k in t.rows
    ensures OwnerFork(t.forks, k.fork, k.height) == Some(k.fork) && RowAt(t, k.fork, k.height) == Some(t.rows[k])
  {
    assert Occupied(t.forks, sp, k);
  }

  lemma TipIsStored(t: Tables, sp: Seeding, f: nat)
    requires ForksOk(t, sp) && RowsOk(t, sp) && f in t.forks
    ensures Place(f, t.forks[f].tipHeight) in t.rows
    ensures ForkChainwork(t, f) == Some(t.rows[Place(f, t.forks[f].tipHeight)].work)
  {
    assert ForkOk(t.forks, sp, f);
    assert Occupied(t.forks, sp, Place(f, t.forks[f].tipHeight));
  }
}
