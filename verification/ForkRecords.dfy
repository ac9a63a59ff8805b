/** The hashes in the fork records: every fork's record names the block at its tip and the one
    it starts with. */
module ForkRecords {
  import opened ForkFinality
  import opened ForkGrowth
  import opened ForkInvariant
  import opened ForkSeeding
  import opened ForkSpec
  import opened ForkStore

  predicate HashAt(r: Rules, t: Tables, k: Place, hash: Hash) { k in t.rows && r.hash(t.rows[k].header) == hash }

  /** The record's hashes are those of the fork's tip and, but for the root, of its first block. */
  predicate RecordOk(r: Rules, t: Tables, f: nat)
    requires f in t.forks
  {
    && HashAt(r, t, Place(f, t.forks[f].tipHeight), t.forks[f].tipHash)
    && (f != 0 ==> HashAt(r, t, Place(f, t.forks[f].forkpoint), t.forks[f].forkpointHash))
  }

  ghost predicate RecordsOk(r: Rules, t: Tables) {
    forall f :: f in t.forks ==> RecordOk(r, t, f)
  }

  lemma GrownRecord(r: Rules, g: Growth, sp: Seeding)
    requires Prepared(r, g, sp) && ForksOk(g.t, sp)
    ensures g.f in After(r, g).forks
    ensures After(r, g).forks[g.f].tipHash == r.hash(g.run[|g.run| - 1])
    ensures Opens(r, g) ==> After(r, g).forks[g.f].forkpointHash == r.hash(g.run[0])
    ensures Extends(g) ==> After(r, g).forks[g.f].forkpointHash == g.t.forks[g.f].forkpointHash
                           && After(r, g).forks[g.f].forkpoint == g.t.forks[g.f].forkpoint
  {
    PutRunFrame(r, g.t1, g.f, g.start, g.run, Base(g));
  }

  lemma OldRecord(r: Rules, g: Growth, sp: Seeding, f: nat)
    requires Prepared(r, g, sp) && ForksOk(g.t, sp) && RowsOk(g.t, sp) && f in g.t.forks && f != g.f
    requires RecordOk(r, g.t, f)
    ensures f in After(r, g).forks && RecordOk(r, After(r, g), f)
  {
    AfterForks(r, g, sp);
    AfterRows(r, g, sp);
  }

  lemma TipRecord(r: Rules, g: Growth, sp: Seeding)
    requires Prepared(r, g, sp) && ForksOk(g.t, sp) && RowsOk(g.t, sp)
    ensures g.f in After(r, g).forks
    ensures HashAt(r, After(r, g), Place(g.f, After(r, g).forks[g.f].tipHeight), After(r, g).forks[g.f].tipHash)
  {
    AfterForks(r, g, sp);
    GrownRecord(r, g, sp);
    NewRow(r, g, sp, |g.run| - 1);
  }

  lemma StartRecord(r: Rules, g: Growth, sp: Seeding)
    requires Prepared(r, g, sp) && ForksOk(g.t, sp) && RowsOk(g.t, sp) && g.f != 0
    requires Extends(g) ==> HashAt(r, g.t, Place(g.f, g.t.forks[g.f].forkpoint), g.t.forks[g.f].forkpointHash)
    ensures g.f in After(r, g).forks
    ensures HashAt(r, After(r, g), Place(g.f, After(r, g).forks[g.f].forkpoint), After(r, g).forks[g.f].forkpointHash)
  {
    AfterForks(r, g, sp);
    GrownRecord(r, g, sp);
    if Extends(g) {
      AfterRows(r, g, sp);
    } else {
      NewRow(r, g, sp, 0);
    }
  }

  lemma GrowRecords(r: Rules, g: Growth, sp: Seeding)
    requires Prepared(r, g, sp) && ForksOk(g.t, sp) && RowsOk(g.t, sp) && RecordsOk(r, g.t)
    ensures RecordsOk(r, After(r, g))
  {
    TipRecord(r, g, sp);
    if Extends(g) {
      assert RecordOk(r, g.t, g.f);
    }
    if g.f != 0 {
      StartRecord(r, g, sp);
    }
    AfterKeys(r, g, sp);
    forall f | f in After(r, g).forks ensures RecordOk(r, After(r, g), f) {
      if f != g.f {
        OldRecord(r, g, sp, f);
      }
    }
  }

  lemma AfterKeys(r: Rules, g: Growth, sp: Seeding)
    requires Prepared(r, g, sp) && ForksOk(g.t, sp)
    ensures After(r, g).forks.Keys == g.t.forks.Keys + {g.f}
  {
    AfterForks(r, g, sp);
  }

  lemma ApplyRecords(r: Rules, ht: Header -> nat, t: Tables, sp: Seeding, call: Call)
    requires Sound(r, ht) && Inv(r, ht, t, sp) && RecordsOk(r, t)
    ensures RecordsOk(r, Apply(r, t, call))
  {
    if Apply(r, t, call) != t {
      var g := ApplyGrows(r, t, sp, call);
      GrowRecords(r, g, sp);
      SameRecords(r, After(r, g), Apply(r, t, call));
    }
  }

  lemma SameRecords(r: Rules, t: Tables, t': Tables)
    requires RecordsOk(r, t) && t'.rows == t.rows && t'.forks == t.forks
    ensures RecordsOk(r, t')
  {
    forall f | f in t'.forks ensures RecordOk(r, t', f) {
      assert RecordOk(r, t, f);
    }
  }

  /** So over any run of calls. */
  lemma {:induction false} RunsKeepRecords(r: Rules, ht: Header -> nat, t: Tables, sp: Seeding, calls: seq<Call>)
    requires Sound(r, ht) && Inv(r, ht, t, sp) && RecordsOk(r, t)
    ensures RecordsOk(r, Play(r, t, calls))
    decreases |calls|
  {
    if calls != [] {
      ApplyIsGood(r, ht, t, sp, calls[0]);
      ApplyRecords(r, ht, t, sp, calls[0]);
      RunsKeepRecords(r, ht, Apply(r, t, calls[0]), sp, calls[1..]);
    }
  }

  /** And from any seeding on: the root's record names the highest seed. */
  lemma SeedRecordsOk(r: Rules, ht: Header -> nat, entries: seq<Entry>, network: nat)
    requires Sound(r, ht) && Genuine(ht, entries) && Seed(r, Empty, entries, network).Ok?
    ensures RecordsOk(r, Seed(r, Empty, entries, network).value)
  {
    var s := SortByHeight(entries);
    SeedIsContiguous(r, entries, network);
    SortedIsGenuine(r, ht, entries);
    SeedIsSeeded(r, entries, network);
    PutSeedsEffect(r, s, |s| - 1);
    RootIsAlone(r, s, Seed(r, Empty, entries, network).value);
  }
}
