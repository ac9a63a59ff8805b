/** Seeding the checkpoint spine establishes the store invariant. */
module ForkSeeding {
  import opened ForkInvariant
  import opened ForkSpec
  import opened ForkStore
  import opened Wrappers

  predicate Ascending(s: seq<Entry>) {
    forall i, j :: 0 <= i < j < |s| ==> s[i].height <= s[j].height
  }

  lemma {:induction false} InsertKeeps(e: Entry, s: seq<Entry>)
    ensures multiset(InsertByHeight(e, s)) == multiset(s) + multiset{e}
  {
    if s != [] && e.height > s[0].height {
      InsertKeeps(e, s[1..]);
      assert s == [s[0]] + s[1..];
    }
  }

  lemma {:induction false} InsertSorts(e: Entry, s: seq<Entry>)
    requires Ascending(s)
    ensures Ascending(InsertByHeight(e, s))
  {
    if s == [] || e.height <= s[0].height {
      forall y | y in s ensures e.height <= y.height {
      }
      AscendingCons(e, s);
    } else {
      InsertSorts(e, s[1..]);
      InsertKeeps(e, s[1..]);
      var rest := InsertByHeight(e, s[1..]);
      forall x | x in rest ensures s[0].height <= x.height {
        assert x in multiset(rest);
        assert x == e || x in s[1..];
      }
      AscendingCons(s[0], rest);
    }
  }

  lemma AscendingCons(x: Entry, rest: seq<Entry>)
    requires Ascending(rest) && forall y :: y in rest ==> x.height <= y.height
    ensures Ascending([x] + rest)
  {
  }

  /** The sort reorders the entries by height and loses none. */
  lemma {:induction false} SortSorts(s: seq<Entry>)
    ensures Ascending(SortByHeight(s)) && multiset(SortByHeight(s)) == multiset(s)
  {
    if s != [] {
      SortSorts(s[1..]);
      InsertSorts(s[0], SortByHeight(s[1..]));
      InsertKeeps(s[0], SortByHeight(s[1..]));
      assert s == [s[0]] + s[1..];
    }
  }

  function SeedingOf(s: seq<Entry>): Seeding
    requires s != []
  {
    Seeding(s[0].height, s[|s| - 1].height)
  }

  /** The entry seeded at a seed height. */
  function SeedIndex(s: seq<Entry>, h: nat): int
    requires s != []
  {
    (h - s[0].height) / DIFFICULTY_PERIOD
  }

  lemma SeedHeights(s: seq<Entry>, h: nat)
    requires s != [] && Contiguous(s)
    ensures IsSeed(SeedingOf(s), h) <==> 0 <= SeedIndex(s, h) < |s| && s[SeedIndex(s, h)].height == h
    ensures forall i :: 0 <= i < |s| && s[i].height == h ==> SeedIndex(s, h) == i
  {
    var n := |s| - 1;
    forall i | 0 <= i < |s| && s[i].height == h ensures SeedIndex(s, h) == i {
    }
    if IsSeed(SeedingOf(s), h) {
    } else if 0 <= SeedIndex(s, h) < |s| && s[SeedIndex(s, h)].height == h {
    }
  }

  /** The rows, the index and the spine after putting the seeds on an empty store. */
  lemma {:induction false} PutSeedsEffect(r: Rules, s: seq<Entry>, i: nat)
    requires i < |s| && Contiguous(s)
    requires forall a, b :: 0 <= a < b < |s| ==> r.hash(s[a].header) != r.hash(s[b].header)
    ensures var t := PutSeeds(r, Empty, s);
      && Place(0, s[i].height) in t.rows
      && t.rows[Place(0, s[i].height)] == Row(s[i].header, LadderWork(r, s[..i + 1]))
      && r.hash(s[i].header) in t.index && t.index[r.hash(s[i].header)] == Place(0, s[i].height)
      && s[i].height in t.spine && t.spine[s[i].height] == s[i].header
    decreases |s|
  {
    var n := |s| - 1;
    if i < n {
      PutSeedsEffect(r, s[..n], i);
      assert s[..n][..i + 1] == s[..i + 1] && s[..n][i] == s[i];
    } else {
      assert s[..n + 1] == s;
    }
  }

  lemma {:induction false} PutSeedsFrame(r: Rules, s: seq<Entry>)
    ensures var t := PutSeeds(r, Empty, s);
      && (forall k :: k in t.rows ==> k.fork == 0 && exists i :: 0 <= i < |s| && s[i].height == k.height)
      && (forall x :: x in t.index ==> exists i :: 0 <= i < |s| && r.hash(s[i].header) == x)
      && (forall h :: h in t.spine ==> exists i :: 0 <= i < |s| && s[i].height == h)
      && t == Empty.(rows := t.rows, index := t.index, spine := t.spine)
  {
    if s != [] {
      var n := |s| - 1;
      PutSeedsFrame(r, s[..n]);
      assert forall i :: 0 <= i < n ==> s[..n][i] == s[i];
      assert s[n].height == s[n].height;
    }
  }

  /** The heights claimed for the entries are the true ones, and period boundaries. */
  ghost predicate Genuine(ht: Header -> nat, entries: seq<Entry>) {
    forall e :: e in entries ==> ht(e.header) == e.height && e.height % DIFFICULTY_PERIOD == 0
  }

  /** Seeding an empty store with genuine period boundaries, in any order, establishes the
      invariant, with the floor at the last of them and the root as the best fork. */
  lemma SeedEstablishes(r: Rules, ht: Header -> nat, entries: seq<Entry>, network: nat)
    requires Sound(r, ht) && Genuine(ht, entries)
    requires Seed(r, Empty, entries, network).Ok?
    ensures var t := Seed(r, Empty, entries, network).value;
            var sp := SeedingOf(SortByHeight(entries));
            Inv(r, ht, t, sp) && t.best == Some(0) && t.floor == Some(sp.last) && t.forks.Keys == {0}
  {
    var s := SortByHeight(entries);
    SeedIsContiguous(r, entries, network);
    SortedIsGenuine(r, ht, entries);
    SeedIsSeeded(r, entries, network);
    SeedInv(r, ht, s, Seed(r, Empty, entries, network).value);
    RootIsAlone(r, s, Seed(r, Empty, entries, network).value);
  }

  lemma RootIsAlone(r: Rules, s: seq<Entry>, t: Tables)
    requires Seeded(r, s, t)
    ensures t.forks.Keys == {0}
  {
  }

  lemma SeedIsContiguous(r: Rules, entries: seq<Entry>, network: nat)
    requires Seed(r, Empty, entries, network).Ok?
    ensures SortByHeight(entries) != [] && Contiguous(SortByHeight(entries))
  {
  }

  lemma SeedIsSeeded(r: Rules, entries: seq<Entry>, network: nat)
    requires Seed(r, Empty, entries, network).Ok?
    requires var s := SortByHeight(entries);
             forall a, b :: 0 <= a < b < |s| ==> r.hash(s[a].header) != r.hash(s[b].header)
    ensures var s := SortByHeight(entries);
            var t := Seed(r, Empty, entries, network).value;
            && Seeded(r, s, t) && t.spine == PutSeeds(r, Empty, s).spine
            && t.nextFork == Some(1) && t.best == Some(0) && t.floor == Some(s[|s| - 1].height)
  {
    PutSeedsFrame(r, SortByHeight(entries));
  }

  lemma SeedInv(r: Rules, ht: Header -> nat, s: seq<Entry>, t: Tables)
    requires Seeded(r, s, t) && t.spine == PutSeeds(r, Empty, s).spine
    requires t.nextFork == Some(1) && t.best == Some(0) && t.floor == Some(s[|s| - 1].height)
    requires forall i :: 0 <= i < |s| ==> ht(s[i].header) == s[i].height && s[i].height % DIFFICULTY_PERIOD == 0
    ensures Inv(r, ht, t, SeedingOf(s))
  {
    SeedTree(r, ht, s, t);
    SeedSpine(r, s, t);
    assert s[|s| - 1].height % DIFFICULTY_PERIOD == 0;
  }

  lemma SeedTree(r: Rules, ht: Header -> nat, s: seq<Entry>, t: Tables)
    requires Seeded(r, s, t) && t.nextFork == Some(1)
    requires forall i :: 0 <= i < |s| ==> ht(s[i].header) == s[i].height
    ensures TreeOk(r, ht, t, SeedingOf(s))
  {
    SeedRows(r, s, t);
    SeedIndexed(r, s, t);
    SeedHeightsOk(r, ht, s, t);
    SeedHeights(s, s[|s| - 1].height);
    assert ForkOk(t.forks, SeedingOf(s), 0);
  }

  lemma SeedHeightsOk(r: Rules, ht: Header -> nat, s: seq<Entry>, t: Tables)
    requires Seeded(r, s, t) && forall i :: 0 <= i < |s| ==> ht(s[i].header) == s[i].height
    ensures HeightsOk(ht, t) && forall k :: k in t.rows ==> k.height <= s[|s| - 1].height
  {
    PutSeedsFrame(r, s);
    forall k | k in t.rows ensures ht(t.rows[k].header) == k.height && k.height <= s[|s| - 1].height {
      var i :| 0 <= i < |s| && s[i].height == k.height;
      PutSeedsEffect(r, s, i);
    }
  }

  lemma SeedSpine(r: Rules, s: seq<Entry>, t: Tables)
    requires Seeded(r, s, t) && t.spine == PutSeeds(r, Empty, s).spine
    requires forall i :: 0 <= i < |s| ==> s[i].height % DIFFICULTY_PERIOD == 0
    ensures SpineOk(t, SeedingOf(s))
  {
    PutSeedsFrame(r, s);
    forall h: nat
      ensures h in t.spine <==> h % DIFFICULTY_PERIOD == 0 && Place(0, h) in t.rows
      ensures h in t.spine ==> t.spine[h] == t.rows[Place(0, h)].header
    {
      if h in t.spine || Place(0, h) in t.rows {
        var i :| 0 <= i < |s| && s[i].height == h;
        PutSeedsEffect(r, s, i);
      }
    }
  }

  lemma SortedIsGenuine(r: Rules, ht: Header -> nat, entries: seq<Entry>)
    requires Injective(r) && Genuine(ht, entries) && Contiguous(SortByHeight(entries))
    ensures Genuine(ht, SortByHeight(entries))
    ensures var s := SortByHeight(entries);
      && (forall i :: 0 <= i < |s| ==> ht(s[i].header) == s[i].height && s[i].height % DIFFICULTY_PERIOD == 0)
      && (forall a, b :: 0 <= a < b < |s| ==> r.hash(s[a].header) != r.hash(s[b].header))
  {
    var s := SortByHeight(entries);
    SortSorts(entries);
    forall e | e in s ensures e in entries {
      assert e in multiset(s);
    }
    forall i | 0 <= i < |s| ensures ht(s[i].header) == s[i].height && s[i].height % DIFFICULTY_PERIOD == 0 {
      assert s[i] in s;
    }
    forall a, b | 0 <= a < b < |s| ensures r.hash(s[a].header) != r.hash(s[b].header) {
    }
  }

  predicate Seeded(r: Rules, s: seq<Entry>, t: Tables) {
    && s != [] && Contiguous(s)
    && t.forks == map[0 := ForkMeta(0, None, r.hash(s[0].header), s[|s| - 1].height, r.hash(s[|s| - 1].header))]
    && t.rows == PutSeeds(r, Empty, s).rows && t.index == PutSeeds(r, Empty, s).index
    && forall a, b :: 0 <= a < b < |s| ==> r.hash(s[a].header) != r.hash(s[b].header)
  }

  lemma SeedRows(r: Rules, s: seq<Entry>, t: Tables)
    requires Seeded(r, s, t)
    ensures RowsOk(t, SeedingOf(s))
  {
    PutSeedsFrame(r, s);
    var sp := SeedingOf(s);
    SeedHeights(s, sp.last);
    forall k ensures k in t.rows <==> Occupied(t.forks, sp, k) {
      SeedHeights(s, k.height);
      if k.fork == 0 && IsSeed(sp, k.height) {
        PutSeedsEffect(r, s, SeedIndex(s, k.height));
      }
    }
  }

  lemma SeedIndexed(r: Rules, s: seq<Entry>, t: Tables)
    requires Seeded(r, s, t)
    ensures IndexOk(r, t)
  {
    PutSeedsFrame(r, s);
    forall k | k in t.rows
      ensures r.hash(t.rows[k].header) in t.index && t.index[r.hash(t.rows[k].header)] == k
    {
      var i :| 0 <= i < |s| && s[i].height == k.height;
      PutSeedsEffect(r, s, i);
    }
    forall x | x in t.index
      ensures t.index[x] in t.rows && r.hash(t.rows[t.index[x]].header) == x
    {
      var i :| 0 <= i < |s| && r.hash(s[i].header) == x;
      PutSeedsEffect(r, s, i);
    }
  }
}
