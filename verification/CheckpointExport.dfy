/** Exporting the finalized checkpoints of one store to seed another. */
module CheckpointExport {
  import opened ForkInvariant
  import opened ForkSeeding
  import opened ForkSpec
  import opened ForkStore
  import opened WorkLadder
  import opened Wrappers

  /** The headers fork `f` has at the period boundaries from `h` up to the floor. */
  function Boundaries(t: Tables, f: nat, h: nat, floor: nat): seq<Entry>
    decreases floor + 1 - h
  {
    if h > floor then []
    else
      match HeaderAt(t, f, h)
      case Some(header) => [Entry(h, header)] + Boundaries(t, f, h + DIFFICULTY_PERIOD, floor)
      case None => Boundaries(t, f, h + DIFFICULTY_PERIOD, floor)
  }

  function FinalizedCheckpoints(t: Tables): seq<Entry> {
    if t.floor.None? || t.best.None? then [] else Boundaries(t, t.best.value, 0, t.floor.value)
  }

  /** Fork `f`'s chain is stored at every height up to its tip, and at none above. */
  ghost predicate Complete(t: Tables, f: nat) {
    f in t.forks && forall h: nat :: HeaderAt(t, f, h).Some? <==> h <= t.forks[f].tipHeight
  }

  lemma {:induction false} NothingAboveTip(t: Tables, f: nat, h: nat, floor: nat)
    requires Complete(t, f) && h > t.forks[f].tipHeight
    ensures Boundaries(t, f, h, floor) == []
    decreases floor + 1 - h
  {
    if h <= floor {
      NothingAboveTip(t, f, h + DIFFICULTY_PERIOD, floor);
    }
  }

  lemma {:induction false} BoundariesShape(t: Tables, f: nat, h: nat, floor: nat, i: nat)
    requires Complete(t, f) && i < |Boundaries(t, f, h, floor)|
    ensures var e := Boundaries(t, f, h, floor)[i];
            e.height == h + DIFFICULTY_PERIOD * i && e.height <= floor && e.height <= t.forks[f].tipHeight
            && HeaderAt(t, f, e.height) == Some(e.header)
    decreases i
  {
    if h > t.forks[f].tipHeight {
      NothingAboveTip(t, f, h, floor);
    }
    if i > 0 {
      BoundariesShape(t, f, h + DIFFICULTY_PERIOD, floor, i - 1);
    }
  }

  lemma {:induction false} AscendingIsSorted(s: seq<Entry>)
    requires Ascending(s)
    ensures SortByHeight(s) == s
  {
    if s != [] {
      AscendingIsSorted(s[1..]);
      assert |s| > 1 ==> s[0].height <= s[1].height;
      assert s == [s[0]] + s[1..];
    }
  }

  lemma GenesisChainsAreComplete(r: Rules, ht: Header -> nat, t: Tables, f: nat)
    requires Inv(r, ht, t, Seeding(0, 0)) && f in t.forks
    ensures Complete(t, f)
  {
    forall h: nat ensures HeaderAt(t, f, h).Some? <==> h <= t.forks[f].tipHeight {
      assert ForkOk(t.forks, Seeding(0, 0), f);
      if h <= t.forks[f].tipHeight {
        Owner(t, Seeding(0, 0), f, h);
        assert Occupied(t.forks, Seeding(0, 0), Place(OwnerFork(t.forks, f, h).value, h));
      } else {
        assert OwnerFork(t.forks, f, h) == Some(f);
        assert !Occupied(t.forks, Seeding(0, 0), Place(f, h));
      }
    }
  }

  lemma RowsHaveTrueHeights(ht: Header -> nat, t: Tables, f: nat, h: nat)
    requires HeightsOk(ht, t) && HeaderAt(t, f, h).Some?
    ensures ht(HeaderAt(t, f, h).value) == h
  {
  }

  /** A ladder on fork `f`'s chain, from height zero up. */
  ghost predicate LadderOn(ht: Header -> nat, t: Tables, f: nat, s: seq<Entry>) {
    && f in t.forks && Contiguous(s) && Genuine(ht, s) && Climbs(t, f, s)
    && (forall i :: 0 <= i < |s| ==> s[i].height == DIFFICULTY_PERIOD * i && s[i].height <= t.forks[f].tipHeight)
  }

  lemma BoundariesAreALadder(ht: Header -> nat, t: Tables, f: nat, floor: nat)
    requires Complete(t, f) && HeightsOk(ht, t)
    ensures LadderOn(ht, t, f, Boundaries(t, f, 0, floor))
  {
    var s := Boundaries(t, f, 0, floor);
    forall i | 0 <= i < |s|
      ensures s[i].height == DIFFICULTY_PERIOD * i && s[i].height <= t.forks[f].tipHeight
      ensures HeaderAt(t, f, s[i].height) == Some(s[i].header) && ht(s[i].header) == s[i].height
    {
      BoundariesShape(t, f, 0, floor, i);
      RowsHaveTrueHeights(ht, t, f, s[i].height);
    }
  }

  /** The checkpoints a node that connected everything from genesis exports are a genuine,
      contiguous ladder from genesis on its best chain. */
  lemma ExportIsALadder(r: Rules, ht: Header -> nat, full: History, genesis: Header)
    requires Sound(r, ht) && WellSeeded(r, ht, full) && FromGenesis(full, genesis)
    ensures Reached(r, full).best.Some?
    ensures LadderOn(ht, Reached(r, full), Reached(r, full).best.value, FinalizedCheckpoints(Reached(r, full)))
    ensures var s := FinalizedCheckpoints(Reached(r, full)); s != [] && s[0] == Entry(0, genesis)
  {
    var t := Reached(r, full);
    GenesisStore(r, ht, full, genesis);
    BoundariesAreALadder(ht, t, t.best.value, t.floor.value);
    SeededLadder(r, ht, full, t.best.value, 0);
  }

  lemma GenesisStore(r: Rules, ht: Header -> nat, full: History, genesis: Header)
    requires Sound(r, ht) && WellSeeded(r, ht, full) && FromGenesis(full, genesis)
    ensures Ladder(full) == [Entry(0, genesis)]
    ensures var t := Reached(r, full);
            t.best.Some? && t.best.value in t.forks && t.floor.Some? && HeightsOk(ht, t) && Complete(t, t.best.value)
  {
    GenesisSeeding(genesis);
    ReachedKeepsInv(r, ht, full);
    GenesisChainsAreComplete(r, ht, Reached(r, full), Reached(r, full).best.value);
  }

  /** Round trip: a store seeded with those checkpoints has, at every one of them and on
      every fork it ever grows, exactly the work the exporting node's best chain has. */
  lemma ExportReseeds(r: Rules, ht: Header -> nat, full: History, genesis: Header, spine: History, f': nat, i: nat)
    requires Sound(r, ht) && r.enforcesDifficulty && WellSeeded(r, ht, full) && FromGenesis(full, genesis)
    requires spine.entries == FinalizedCheckpoints(Reached(r, full)) && i < |spine.entries|
    requires f' in Reached(r, spine).forks
    ensures WellSeeded(r, ht, spine)
    ensures var h := spine.entries[i].height; var t := Reached(r, full);
            t.best.Some? && WorkAt(t, t.best.value, h).Some?
              && WorkAt(Reached(r, spine), f', h) == WorkAt(t, t.best.value, h)
  {
    var s := spine.entries;
    ExportIsALadder(r, ht, full, genesis);
    AscendingIsSorted(s);
    LadderAgreesAtBoundaries(r, ht, full, genesis, Reached(r, full).best.value, spine, f', i);
  }
}
