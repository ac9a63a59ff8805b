/** Storing a checked run keeps every part of the tree invariant. */
module ForkGrowth {
  import opened ForkInvariant
  import opened ForkSpec
  import opened ForkStore
  import opened Wrappers

  /** A run about to be stored: `t` before the call, `t1` once a fork has been opened for
      it if it needs one, and the place of its parent. */
  datatype Growth = Growth(t: Tables, t1: Tables, f: nat, start: nat, parent: Place, run: seq<Header>)

  function Base(g: Growth): nat
    requires g.parent in g.t.rows
  {
    g.t.rows[g.parent].work
  }

  function After(r: Rules, g: Growth): Tables
    requires g.parent in g.t.rows && g.run != [] && g.f in g.t1.forks
  {
    Store(r, g.t1, g.f, g.start, g.run, Base(g))
  }

  predicate Extends(g: Growth) {
    && g.t1 == g.t && g.f == g.parent.fork && g.f in g.t.forks
    && g.parent.height == g.t.forks[g.f].tipHeight
  }

  predicate Opens(r: Rules, g: Growth)
    requires g.run != []
  {
    && g.t.nextFork.Some? && g.f == g.t.nextFork.value
    && g.parent.fork in g.t.forks && g.parent.height < g.t.forks[g.parent.fork].tipHeight
    && g.t1 == CreateFork(g.t, g.parent.fork, g.start, r.hash(g.run[0]))
  }

  ghost predicate Prepared(r: Rules, g: Growth, sp: Seeding) {
    && g.run != [] && g.parent in g.t.rows && g.start == g.parent.height + 1 && sp.last < g.start
    && Occupied(g.t.forks, sp, g.parent)
    && (Extends(g) || Opens(r, g))
    && g.f in g.t1.forks
  }

  // ── what the checks establish ──────────────────────────────────────────────

  function PrevOf(r: Rules, run: seq<Header>, i: nat, parentHash: Hash): Hash
    requires i <= |run|
  {
    if i == 0 then parentHash else r.hash(run[i - 1])
  }

  lemma {:induction false} CheckedAt(
    r: Rules, t: Tables, f: nat, start: nat, run: seq<Header>, i: nat, parentHash: Hash, j: nat)
    requires start > 0 && i <= j < |run|
    requires CheckRun(r, t, f, start, run, i, PrevOf(r, run, i, parentHash)).None?
    ensures CheckHeader(r, t, f, start, run, j, PrevOf(r, run, j, parentHash)).None?
    decreases j - i
  {
    if i < j {
      CheckedAt(r, t, f, start, run, i + 1, parentHash, j);
    }
  }

  /** The run links up from its parent. */
  ghost predicate RunLinked(r: Rules, g: Growth) {
    && g.parent in g.t.rows
    && forall i {:trigger PrevOf(r, g.run, i, r.hash(g.t.rows[g.parent].header))} :: 0 <= i < |g.run| ==>
         g.run[i].prev == PrevOf(r, g.run, i, r.hash(g.t.rows[g.parent].header))
  }

  lemma {:induction false} RunHeight(r: Rules, ht: Header -> nat, g: Growth, i: nat)
    requires Sound(r, ht) && RunLinked(r, g) && HeightsOk(ht, g.t) && g.start == g.parent.height + 1
    requires i < |g.run|
    ensures ht(g.run[i]) == g.start + i
  {
    assert g.run[i].prev == PrevOf(r, g.run, i, r.hash(g.t.rows[g.parent].header));
    if i > 0 {
      RunHeight(r, ht, g, i - 1);
    }
  }

  ghost predicate RunHeights(ht: Header -> nat, g: Growth) {
    forall i :: 0 <= i < |g.run| ==> ht(g.run[i]) == g.start + i
  }

  /** So no header of the run repeats. */
  lemma RunDistinct(r: Rules, ht: Header -> nat, g: Growth)
    requires Injective(r) && RunHeights(ht, g)
    ensures Distinct(r, g.run)
  {
    forall i, j | 0 <= i < j < |g.run|
      ensures r.hash(g.run[i]) != r.hash(g.run[j])
    {
      assert ht(g.run[i]) != ht(g.run[j]);
    }
  }

  /** If the first header is unknown so are the rest: a stored header above the seeds has
      its parent stored. */
  lemma {:induction false} RunUnknown(r: Rules, ht: Header -> nat, g: Growth, sp: Seeding, i: nat)
    requires Injective(r) && RunHeights(ht, g) && RunLinked(r, g) && sp.last < g.start
    requires HeightsOk(ht, g.t) && IndexOk(r, g.t) && LinksOk(r, g.t, sp)
    requires i < |g.run| && r.hash(g.run[0]) !in g.t.index
    ensures r.hash(g.run[i]) !in g.t.index
  {
    if i > 0 {
      RunUnknown(r, ht, g, sp, i - 1);
      assert g.run[i].prev == PrevOf(r, g.run, i, r.hash(g.t.rows[g.parent].header));
      if r.hash(g.run[i]) in g.t.index {
        StoredParent(r, g.t, sp, g.t.index[r.hash(g.run[i])]);
      }
    }
  }

  lemma StoredParent(r: Rules, t: Tables, sp: Seeding, k: Place)
    requires IndexOk(r, t) && LinksOk(r, t, sp) && k in t.rows && sp.last < k.height
    ensures t.rows[k].header.prev in t.index
  {
    assert LinkOk(r, t, k);
  }

  // ── shape ──────────────────────────────────────────────────────────────────

  /** Forks of `a` keep their place in `b`. */
  ghost predicate SameShape(a: map<nat, ForkMeta>, b: map<nat, ForkMeta>) {
    forall f {:trigger f in a} {:trigger b[f]} :: f in a ==>
      f in b && b[f].forkpoint == a[f].forkpoint && b[f].parent == a[f].parent
  }

  lemma AfterForks(r: Rules, g: Growth, sp: Seeding)
    requires Prepared(r, g, sp) && ForksOk(g.t, sp)
    ensures var forks := After(r, g).forks;
      && forks.Keys == g.t.forks.Keys + {g.f}
      && (forall f :: f in g.t.forks && f != g.f ==> forks[f] == g.t.forks[f])
      && SameShape(g.t.forks, forks) && SameShape(g.t1.forks, forks)
      && forks[g.f].tipHeight == g.start + |g.run| - 1
      && forks[g.f].forkpoint <= g.start
      && (Opens(r, g) ==>
            g.f !in g.t.forks && forks[g.f].forkpoint == g.start && forks[g.f].parent == Some(g.parent.fork))
      && (Extends(g) ==> g.f in g.t.forks && g.t.forks[g.f].tipHeight == g.start - 1 && forks[g.f].forkpoint < g.start)
  {
    PutRunFrame(r, g.t1, g.f, g.start, g.run, Base(g));
  }

  lemma GrowForks(r: Rules, g: Growth, sp: Seeding)
    requires Prepared(r, g, sp) && ForksOk(g.t, sp)
    ensures ForksOk(After(r, g), sp)
  {
    AfterForks(r, g, sp);
    PutRunFrame(r, g.t1, g.f, g.start, g.run, Base(g));
    var t' := After(r, g);
    forall f | f in t'.forks ensures ForkOk(t'.forks, sp, f) {
      if f in g.t.forks {
        assert ForkOk(g.t.forks, sp, f);
        if f != 0 {
          var p := g.t.forks[f].parent.value;
          assert p in g.t.forks;
        }
      } else {
        assert g.parent.fork in g.t.forks;
      }
    }
  }

  /** Old rows stay; the new ones are exactly the run's places. */
  lemma AfterRows(r: Rules, g: Growth, sp: Seeding)
    requires Prepared(r, g, sp) && ForksOk(g.t, sp) && RowsOk(g.t, sp)
    ensures var rows := After(r, g).rows;
      && (forall k :: k in rows <==> k in g.t.rows || InRun(k, g.f, g.start, |g.run|))
      && (forall k :: k in g.t.rows ==> !InRun(k, g.f, g.start, |g.run|))
      && (forall k :: k in g.t.rows ==> rows[k] == g.t.rows[k])
  {
    PutRunRows(r, g.t1, g.f, g.start, g.run, Base(g));
    assert g.t1.rows == g.t.rows;
    forall k | k in g.t.rows ensures !InRun(k, g.f, g.start, |g.run|) {
      assert Occupied(g.t.forks, sp, k);
    }
  }

  lemma NewRow(r: Rules, g: Growth, sp: Seeding, i: nat)
    requires Prepared(r, g, sp) && i < |g.run|
    ensures Place(g.f, g.start + i) in After(r, g).rows
    ensures After(r, g).rows[Place(g.f, g.start + i)] == Row(g.run[i], Base(g) + RunWork(r, g.run[..i + 1]))
  {
    PutRunRow(r, g.t1, g.f, g.start, g.run, Base(g), i);
  }

  lemma GrowRows(r: Rules, g: Growth, sp: Seeding)
    requires Prepared(r, g, sp) && ForksOk(g.t, sp) && RowsOk(g.t, sp)
    ensures RowsOk(After(r, g), sp)
  {
    AfterForks(r, g, sp);
    AfterRows(r, g, sp);
    var t' := After(r, g);
    forall k ensures k in t'.rows <==> Occupied(t'.forks, sp, k) {
      assert k in g.t.rows <==> Occupied(g.t.forks, sp, k);
    }
  }

  lemma GrowIndex(r: Rules, ht: Header -> nat, g: Growth, sp: Seeding)
    requires Injective(r) && RunHeights(ht, g) && Prepared(r, g, sp) && RunLinked(r, g)
    requires ForksOk(g.t, sp) && RowsOk(g.t, sp) && IndexOk(r, g.t) && HeightsOk(ht, g.t) && LinksOk(r, g.t, sp)
    requires r.hash(g.run[0]) !in g.t.index
    ensures IndexOk(r, After(r, g))
  {
    var t' := After(r, g);
    RunDistinct(r, ht, g);
    forall k | k in t'.rows
      ensures r.hash(t'.rows[k].header) in t'.index && t'.index[r.hash(t'.rows[k].header)] == k
    {
      RowIndexed(r, ht, g, sp, k);
    }
    forall x | x in t'.index
      ensures t'.index[x] in t'.rows && r.hash(t'.rows[t'.index[x]].header) == x
    {
      IndexedRow(r, ht, g, sp, x);
    }
  }

  lemma RowIndexed(r: Rules, ht: Header -> nat, g: Growth, sp: Seeding, k: Place)
    requires Injective(r) && RunHeights(ht, g) && Prepared(r, g, sp) && RunLinked(r, g) && Distinct(r, g.run)
    requires ForksOk(g.t, sp) && RowsOk(g.t, sp) && IndexOk(r, g.t) && HeightsOk(ht, g.t) && LinksOk(r, g.t, sp)
    requires r.hash(g.run[0]) !in g.t.index && k in After(r, g).rows
    ensures var t' := After(r, g);
            r.hash(t'.rows[k].header) in t'.index && t'.index[r.hash(t'.rows[k].header)] == k
  {
    if k in g.t.rows {
      OldRowIndexed(r, ht, g, sp, k);
    } else {
      AfterRows(r, g, sp);
      NewRowIndexed(r, g, sp, k.height - g.start);
    }
  }

  lemma OldRowIndexed(r: Rules, ht: Header -> nat, g: Growth, sp: Seeding, k: Place)
    requires Injective(r) && RunHeights(ht, g) && Prepared(r, g, sp) && RunLinked(r, g)
    requires ForksOk(g.t, sp) && RowsOk(g.t, sp) && IndexOk(r, g.t) && HeightsOk(ht, g.t) && LinksOk(r, g.t, sp)
    requires r.hash(g.run[0]) !in g.t.index && k in g.t.rows
    ensures var t' := After(r, g);
            k in t'.rows
            && r.hash(t'.rows[k].header) in t'.index && t'.index[r.hash(t'.rows[k].header)] == k
  {
    AfterRows(r, g, sp);
    OldIndexed(r, ht, g, sp, r.hash(g.t.rows[k].header));
  }

  lemma NewRowIndexed(r: Rules, g: Growth, sp: Seeding, i: nat)
    requires Prepared(r, g, sp) && Distinct(r, g.run) && i < |g.run|
    ensures var t' := After(r, g); var k := Place(g.f, g.start + i);
            k in t'.rows && t'.rows[k].header == g.run[i]
            && r.hash(g.run[i]) in t'.index && t'.index[r.hash(g.run[i])] == k
  {
    NewRow(r, g, sp, i);
    PutRunIndexed(r, g.t1, g.f, g.start, g.run, Base(g), i);
  }

  lemma IndexedRow(r: Rules, ht: Header -> nat, g: Growth, sp: Seeding, x: Hash)
    requires Injective(r) && RunHeights(ht, g) && Prepared(r, g, sp) && RunLinked(r, g) && Distinct(r, g.run)
    requires ForksOk(g.t, sp) && RowsOk(g.t, sp) && IndexOk(r, g.t) && HeightsOk(ht, g.t) && LinksOk(r, g.t, sp)
    requires r.hash(g.run[0]) !in g.t.index && x in After(r, g).index
    ensures var t' := After(r, g);
            t'.index[x] in t'.rows && r.hash(t'.rows[t'.index[x]].header) == x
  {
    AfterRows(r, g, sp);
    PutRunIndex(r, g.t1, g.f, g.start, g.run, Base(g), x);
    if x in g.t.index {
      OldIndexed(r, ht, g, sp, x);
    } else {
      var i :| 0 <= i < |g.run| && r.hash(g.run[i]) == x;
      NewRowIndexed(r, g, sp, i);
    }
  }

  lemma OldIndexed(r: Rules, ht: Header -> nat, g: Growth, sp: Seeding, x: Hash)
    requires Injective(r) && RunHeights(ht, g) && Prepared(r, g, sp) && RunLinked(r, g)
    requires IndexOk(r, g.t) && HeightsOk(ht, g.t) && LinksOk(r, g.t, sp)
    requires r.hash(g.run[0]) !in g.t.index && x in g.t.index
    ensures x in After(r, g).index && After(r, g).index[x] == g.t.index[x]
  {
    if HashIn(r, x, g.run) {
      var i :| 0 <= i < |g.run| && r.hash(g.run[i]) == x;
      RunUnknown(r, ht, g, sp, i);
    }
    PutRunIndex(r, g.t1, g.f, g.start, g.run, Base(g), x);
  }

  lemma GrowHeights(r: Rules, ht: Header -> nat, g: Growth, sp: Seeding)
    requires Injective(r) && RunHeights(ht, g) && Prepared(r, g, sp) && RunLinked(r, g)
    requires ForksOk(g.t, sp) && RowsOk(g.t, sp) && HeightsOk(ht, g.t)
    ensures HeightsOk(ht, After(r, g))
  {
    AfterRows(r, g, sp);
    var t' := After(r, g);
    forall k | k in t'.rows ensures ht(t'.rows[k].header) == k.height {
      if k !in g.t.rows {
        NewRow(r, g, sp, k.height - g.start);
      }
    }
  }

  lemma NewLink(r: Rules, g: Growth, sp: Seeding, i: nat)
    requires Prepared(r, g, sp) && RunLinked(r, g) && ForksOk(g.t, sp) && RowsOk(g.t, sp)
    requires i < |g.run|
    ensures var t' := After(r, g); var k := Place(g.f, g.start + i);
            k in t'.rows && LinkOk(r, t', k)
  {
    NewRow(r, g, sp, i);
    assert g.run[..i + 1][..i] == g.run[..i];
    BelowRun(r, g, sp, i);
    assert g.run[i].prev == PrevOf(r, g.run, i, r.hash(g.t.rows[g.parent].header));
  }

  lemma BelowRunAt(r: Rules, g: Growth, sp: Seeding, i: nat)
    requires Prepared(r, g, sp) && ForksOk(g.t, sp) && RowsOk(g.t, sp) && i < |g.run|
    ensures g.f in After(r, g).forks
    ensures Below(After(r, g).forks, Place(g.f, g.start + i))
         == if i == 0 then g.parent else Place(g.f, g.start + i - 1)
  {
    AfterForks(r, g, sp);
  }

  /** The row below the `i`th of a run: the one before it, or the run's parent. */
  lemma BelowRun(r: Rules, g: Growth, sp: Seeding, i: nat)
    requires Prepared(r, g, sp) && ForksOk(g.t, sp) && RowsOk(g.t, sp) && i < |g.run|
    ensures g.f in After(r, g).forks
    ensures Below(After(r, g).forks, Place(g.f, g.start + i))
         == if i == 0 then g.parent else Place(g.f, g.start + i - 1)
    ensures i == 0 ==> g.parent in After(r, g).rows && After(r, g).rows[g.parent] == g.t.rows[g.parent]
    ensures i > 0 ==> Place(g.f, g.start + i - 1) in After(r, g).rows
    ensures i > 0 ==>
              After(r, g).rows[Place(g.f, g.start + i - 1)] == Row(g.run[i - 1], Base(g) + RunWork(r, g.run[..i]))
  {
    BelowRunAt(r, g, sp, i);
    if i > 0 {
      NewRow(r, g, sp, i - 1);
    } else {
      AfterRows(r, g, sp);
    }
  }

  lemma GrowLinks(r: Rules, g: Growth, sp: Seeding)
    requires Prepared(r, g, sp) && RunLinked(r, g)
    requires ForksOk(g.t, sp) && RowsOk(g.t, sp) && LinksOk(r, g.t, sp)
    ensures LinksOk(r, After(r, g), sp)
  {
    AfterForks(r, g, sp);
    AfterRows(r, g, sp);
    var t' := After(r, g);
    forall k | k in t'.rows && k.height > sp.last
      ensures LinkOk(r, t', k)
    {
      if k in g.t.rows {
        assert LinkOk(r, g.t, k);
        assert Below(t'.forks, k) == Below(g.t.forks, k);
      } else {
        NewLink(r, g, sp, k.height - g.start);
      }
    }
  }

  // ── what the chains read ───────────────────────────────────────────────────

  lemma {:induction false} OwnerStable(a: Tables, sp: Seeding, b: map<nat, ForkMeta>, f: nat, h: nat)
    requires ForksOk(a, sp) && SameShape(a.forks, b) && f in a.forks
    ensures OwnerFork(b, f, h) == OwnerFork(a.forks, f, h)
    decreases f
  {
    assert ForkOk(a.forks, sp, f);
    if h < a.forks[f].forkpoint {
      OwnerStable(a, sp, b, a.forks[f].parent.value, h);
    }
  }

  /** Every chain that was there reads the same up to its tip. */
  lemma ChainStays(r: Rules, g: Growth, sp: Seeding, f: nat, h: nat)
    requires Prepared(r, g, sp) && ForksOk(g.t, sp) && RowsOk(g.t, sp)
    requires f in g.t.forks && h <= g.t.forks[f].tipHeight
    ensures RowAt(After(r, g), f, h) == RowAt(g.t, f, h)
  {
    AfterForks(r, g, sp);
    AfterRows(r, g, sp);
    Owner(g.t, sp, f, h);
    OwnerStable(g.t, sp, After(r, g).forks, f, h);
    var k := Place(OwnerFork(g.t.forks, f, h).value, h);
    assert !InRun(k, g.f, g.start, |g.run|);
  }

  /** Reads below a new fork fall through to its parent's chain, before and after. */
  lemma FallsThrough(r: Rules, g: Growth, sp: Seeding, h: nat)
    requires Prepared(r, g, sp) && ForksOk(g.t, sp) && RowsOk(g.t, sp) && !Extends(g) && h < g.start
    ensures h <= g.t.forks[g.parent.fork].tipHeight && g.parent.fork < g.f
    ensures OwnerFork(After(r, g).forks, g.f, h) == OwnerFork(After(r, g).forks, g.parent.fork, h)
    ensures OwnerFork(g.t1.forks, g.f, h) == OwnerFork(g.t.forks, g.parent.fork, h)
  {
    AfterForks(r, g, sp);
    OwnerStable(g.t, sp, g.t1.forks, g.parent.fork, h);
  }

  lemma RunReadsForked(r: Rules, g: Growth, sp: Seeding, h: nat)
    requires Prepared(r, g, sp) && ForksOk(g.t, sp) && RowsOk(g.t, sp) && !Extends(g) && h < g.start
    ensures At(g.t1, g.f, g.start, g.run, h) == HeaderAt(After(r, g), g.f, h)
  {
    FallsThrough(r, g, sp, h);
    ChainStays(r, g, sp, g.parent.fork, h);
  }

  lemma RunReadsOwn(r: Rules, g: Growth, sp: Seeding, h: nat)
    requires Prepared(r, g, sp) && ForksOk(g.t, sp) && RowsOk(g.t, sp)
    requires g.start <= h < g.start + |g.run|
    ensures At(g.t1, g.f, g.start, g.run, h) == HeaderAt(After(r, g), g.f, h)
  {
    RunIsOwned(r, g, sp, h);
    NewRow(r, g, sp, h - g.start);
  }

  lemma RunIsOwned(r: Rules, g: Growth, sp: Seeding, h: nat)
    requires Prepared(r, g, sp) && ForksOk(g.t, sp) && RowsOk(g.t, sp)
    requires g.start <= h < g.start + |g.run|
    ensures OwnerFork(After(r, g).forks, g.f, h) == Some(g.f)
  {
    AfterForks(r, g, sp);
  }

  /** Below a run, what its checks read is what its chain reads once it is stored. */
  lemma RunReads(r: Rules, g: Growth, sp: Seeding, h: nat)
    requires Prepared(r, g, sp) && ForksOk(g.t, sp) && RowsOk(g.t, sp)
    requires h < g.start + |g.run|
    ensures At(g.t1, g.f, g.start, g.run, h) == HeaderAt(After(r, g), g.f, h)
  {
    if h >= g.start {
      RunReadsOwn(r, g, sp, h);
    } else if Extends(g) {
      ChainStays(r, g, sp, g.f, h);
    } else {
      RunReadsForked(r, g, sp, h);
    }
  }

  /** Two views of a chain that agree below a height judge a header there alike. */
  ghost predicate SameBelow(a: Tables, fa: nat, sa: nat, ra: seq<Header>,
                            b: Tables, fb: nat, sb: nat, rb: seq<Header>, height: nat) {
    forall h: nat :: h < height ==> At(a, fa, sa, ra, h) == At(b, fb, sb, rb, h)
  }

  lemma {:induction false} SameTimes(a: Tables, fa: nat, sa: nat, ra: seq<Header>,
                                     b: Tables, fb: nat, sb: nat, rb: seq<Header>, height: nat, k: nat)
    requires SameBelow(a, fa, sa, ra, b, fb, sb, rb, height)
    ensures Times(a, fa, sa, ra, height, k) == Times(b, fb, sb, rb, height, k)
    decreases k
  {
    if k > 0 && height > 0 {
      SameTimes(a, fa, sa, ra, b, fb, sb, rb, height - 1, k - 1);
    }
  }

  lemma SamePasses(r: Rules, a: Tables, fa: nat, sa: nat, ra: seq<Header>,
                   b: Tables, fb: nat, sb: nat, rb: seq<Header>, height: nat, header: Header)
    requires height > 0 && SameBelow(a, fa, sa, ra, b, fb, sb, rb, height)
    ensures Passes(r, a, fa, sa, ra, height, header) == Passes(r, b, fb, sb, rb, height, header)
  {
    SameTimes(a, fa, sa, ra, b, fb, sb, rb, height, MEDIAN_TIME_PAST);
  }

  lemma GrowChecks(r: Rules, g: Growth, sp: Seeding)
    requires Prepared(r, g, sp) && ForksOk(g.t, sp) && RowsOk(g.t, sp) && ChecksOk(r, g.t, sp)
    requires forall i :: 0 <= i < |g.run| ==> Passes(r, g.t1, g.f, g.start, g.run, g.start + i, g.run[i])
    ensures ChecksOk(r, After(r, g), sp)
  {
    var t' := After(r, g);
    forall k | k in t'.rows && k.height > sp.last
      ensures Passes(r, t', k.fork, 0, [], k.height, t'.rows[k].header)
    {
      if k in g.t.rows {
        assert Passes(r, g.t, k.fork, 0, [], k.height, g.t.rows[k].header);
      }
      RowPasses(r, g, sp, k);
    }
  }

  lemma RowPasses(r: Rules, g: Growth, sp: Seeding, k: Place)
    requires Prepared(r, g, sp) && ForksOk(g.t, sp) && RowsOk(g.t, sp) && k in After(r, g).rows && k.height > 0
    requires k in g.t.rows ==> Passes(r, g.t, k.fork, 0, [], k.height, g.t.rows[k].header)
    requires forall i :: 0 <= i < |g.run| ==> Passes(r, g.t1, g.f, g.start, g.run, g.start + i, g.run[i])
    ensures Passes(r, After(r, g), k.fork, 0, [], k.height, After(r, g).rows[k].header)
  {
    AfterRows(r, g, sp);
    if k in g.t.rows {
      OldPasses(r, g, sp, k);
    } else {
      NewPasses(r, g, sp, k.height - g.start);
    }
  }

  lemma OldPasses(r: Rules, g: Growth, sp: Seeding, k: Place)
    requires Prepared(r, g, sp) && ForksOk(g.t, sp) && RowsOk(g.t, sp)
    requires k in g.t.rows && k.height > 0
    ensures Passes(r, After(r, g), k.fork, 0, [], k.height, g.t.rows[k].header)
         == Passes(r, g.t, k.fork, 0, [], k.height, g.t.rows[k].header)
  {
    assert Occupied(g.t.forks, sp, k);
    var t' := After(r, g);
    forall h: nat | h < k.height ensures At(t', k.fork, 0, [], h) == At(g.t, k.fork, 0, [], h) {
      ChainStays(r, g, sp, k.fork, h);
    }
    SamePasses(r, t', k.fork, 0, [], g.t, k.fork, 0, [], k.height, g.t.rows[k].header);
  }

  lemma NewPasses(r: Rules, g: Growth, sp: Seeding, i: nat)
    requires Prepared(r, g, sp) && ForksOk(g.t, sp) && RowsOk(g.t, sp) && i < |g.run|
    requires Passes(r, g.t1, g.f, g.start, g.run, g.start + i, g.run[i])
    ensures var t' := After(r, g); var k := Place(g.f, g.start + i);
            k in t'.rows && Passes(r, t', g.f, 0, [], g.start + i, t'.rows[k].header)
  {
    NewRow(r, g, sp, i);
    var t' := After(r, g);
    forall h: nat | h < g.start + i ensures At(t', g.f, 0, [], h) == At(g.t1, g.f, g.start, g.run, h) {
      RunReads(r, g, sp, h);
    }
    SamePasses(r, t', g.f, 0, [], g.t1, g.f, g.start, g.run, g.start + i, g.run[i]);
  }

  // ── all of it ──────────────────────────────────────────────────────────────

  lemma RunFacts(r: Rules, g: Growth, sp: Seeding)
    requires Prepared(r, g, sp)
    requires CheckRun(r, g.t1, g.f, g.start, g.run, 0, r.hash(g.t.rows[g.parent].header)).None?
    ensures RunLinked(r, g)
    ensures forall i :: 0 <= i < |g.run| ==> Passes(r, g.t1, g.f, g.start, g.run, g.start + i, g.run[i])
  {
    var parentHash := r.hash(g.t.rows[g.parent].header);
    forall i | 0 <= i < |g.run|
      ensures g.run[i].prev == PrevOf(r, g.run, i, parentHash)
      ensures Passes(r, g.t1, g.f, g.start, g.run, g.start + i, g.run[i])
    {
      CheckedAt(r, g.t1, g.f, g.start, g.run, 0, parentHash, i);
    }
  }

  lemma GrowTree(r: Rules, ht: Header -> nat, g: Growth, sp: Seeding)
    requires Sound(r, ht) && TreeOk(r, ht, g.t, sp) && Prepared(r, g, sp)
    requires CheckRun(r, g.t1, g.f, g.start, g.run, 0, r.hash(g.t.rows[g.parent].header)).None?
    requires r.hash(g.run[0]) !in g.t.index
    ensures TreeOk(r, ht, After(r, g), sp)
  {
    RunFacts(r, g, sp);
    forall i | 0 <= i < |g.run| ensures ht(g.run[i]) == g.start + i {
      RunHeight(r, ht, g, i);
    }
    GrowForks(r, g, sp);
    GrowRows(r, g, sp);
    GrowIndex(r, ht, g, sp);
    GrowHeights(r, ht, g, sp);
    GrowLinks(r, g, sp);
    GrowChecks(r, g, sp);
  }

  lemma LastNewRow(r: Rules, g: Growth, sp: Seeding)
    requires Prepared(r, g, sp) && g.run != []
    ensures Place(g.f, g.start + |g.run| - 1) in After(r, g).rows
    ensures After(r, g).rows[Place(g.f, g.start + |g.run| - 1)].work == Base(g) + RunWork(r, g.run)
  {
    NewRow(r, g, sp, |g.run| - 1);
    assert g.run[..|g.run| - 1 + 1] == g.run;
  }

  /** The run's fork now tips at its parent's work plus the run's; other forks keep theirs. */
  lemma GrowTipWork(r: Rules, g: Growth, sp: Seeding, f: nat)
    requires Prepared(r, g, sp) && ForksOk(g.t, sp) && RowsOk(g.t, sp) && f in After(r, g).forks
    ensures TipWork(After(r, g), f) == if f == g.f then Base(g) + RunWork(r, g.run) else TipWork(g.t, f)
  {
    var t' := After(r, g);
    GrowForks(r, g, sp);
    GrowRows(r, g, sp);
    AfterForks(r, g, sp);
    TipIsStored(t', sp, f);
    if f == g.f {
      LastNewRow(r, g, sp);
    } else {
      TipIsStored(g.t, sp, f);
      AfterRows(r, g, sp);
    }
  }

  lemma GrowSpineAt(r: Rules, g: Growth, sp: Seeding, h: nat)
    requires Prepared(r, g, sp) && ForksOk(g.t, sp) && RowsOk(g.t, sp) && SpineOk(g.t, sp)
    ensures h in After(r, g).spine <==> h % DIFFICULTY_PERIOD == 0 && Place(0, h) in After(r, g).rows
    ensures h in After(r, g).spine ==> After(r, g).spine[h] == After(r, g).rows[Place(0, h)].header
  {
    AfterRows(r, g, sp);
    PutRunSpine(r, g.t1, g.f, g.start, g.run, Base(g), h);
    if InRun(Place(0, h), g.f, g.start, |g.run|) {
      NewRow(r, g, sp, h - g.start);
    }
  }

  lemma GrowSpine(r: Rules, g: Growth, sp: Seeding)
    requires Prepared(r, g, sp) && ForksOk(g.t, sp) && RowsOk(g.t, sp) && SpineOk(g.t, sp)
    ensures SpineOk(After(r, g), sp)
  {
    var t' := After(r, g);
    forall h: nat
      ensures h in t'.spine <==> h % DIFFICULTY_PERIOD == 0 && Place(0, h) in t'.rows
      ensures h in t'.spine ==> t'.spine[h] == t'.rows[Place(0, h)].header
    {
      GrowSpineAt(r, g, sp, h);
    }
  }
}
