/** Proposing a stored block again with another uncle list: when that lets an uncle be included
    a second time, and a run in which it is. */
module UncleReturns {
  import opened CountedOnce
  import opened Forest
  import opened ForestRuns
  import opened TrunkWork
  import opened U256
  import opened UncleRule

  // ── the condition ──────────────────────────────────────────────────────────

  /** Putting a stored block again changes no walk up the ancestors. */
  lemma {:induction false} StretchStays(c: Consensus, t: Tables, depth: Hash -> nat, e: Entry, x: Hash, floor: nat)
    requires NoCollision(c) && Indexed(c, t) && c.hash(e.header) in t.headers
    requires Grounded(AncestryOf(t), depth) && Grounded(AncestryOf(PutEntry(c, t, e)), depth)
    ensures Stretch(AncestryOf(PutEntry(c, t, e)), depth, x, floor) == Stretch(AncestryOf(t), depth, x, floor)
    decreases depth(x)
  {
    assert Alike(t.headers[c.hash(e.header)], e.header);
    if x in t.headers && t.headers[x].number >= floor && t.headers[x].number != 0 {
      StretchStays(c, t, depth, e, t.headers[x].parentHash, floor);
    }
  }

  /** After a stored block was put again, a block with one uncle, in order otherwise, is
      accepted if and only if the new list does not name the uncle, where the block put is in
      the window, and no other stored list of the window does. */
  lemma ReturnsExactly(c: Consensus, t: Tables, depth: Hash -> nat, e: Entry, h: Header, v: Header)
    requires NoCollision(c) && Indexed(c, t) && c.hash(e.header) in t.headers
    requires Grounded(AncestryOf(t), depth) && Grounded(AncestryOf(PutEntry(c, t, e)), depth)
    requires ReadyFor(c, PutEntry(c, t, e), depth, h, v)
    ensures ValidateEntry(c, PutEntry(c, t, e), depth, Entry(h, [v])).None?
       <==> forall y :: y in Window(AncestryOf(t), depth, h.number, h.parentHash) ==>
              c.hash(v) !in HashesOf(c, if y == c.hash(e.header) then e.uncles else UnclesOf(AncestryOf(t), y))
  {
    var a, a' := AncestryOf(t), AncestryOf(PutEntry(c, t, e));
    var stretch := Window(a, depth, h.number, h.parentHash);
    UncleAccepted(c, PutEntry(c, t, e), depth, h, v);
    StretchStays(c, t, depth, e, h.parentHash, Floor(h.number, UNCLE_GENERATION_LIMIT));
    forall y | y in stretch
      ensures UnclesOf(a', y) == if y == c.hash(e.header) then e.uncles else UnclesOf(a, y)
    {
    }
    UsedByWindow(c, a', stretch, c.hash(v));
  }

  lemma UsedByWindow(c: Consensus, a: Ancestry, stretch: seq<Hash>, x: Hash)
    ensures x in UsedIn(c, a, stretch) <==> exists y :: y in stretch && x in HashesOf(c, UnclesOf(a, y))
  {
    if x in UsedIn(c, a, stretch) {
      var y, h :| y in stretch && h in UnclesOf(a, y) && c.hash(h) == x;
      assert x in HashesOf(c, UnclesOf(a, y));
    }
  }

  /** A put keeps the names of its block's list if and only if no list of the store loses one. */
  lemma KeepsExactly(c: Consensus, t: Tables, e: Entry)
    ensures NamesKept(c, t, e)
       <==> forall f: Entry, u: Header :: Lists(c, t, f, u) ==> Lists(c, PutEntry(c, t, e), f, u)
  {
    var before, after := UnclesOf(AncestryOf(t), c.hash(e.header)), PutEntry(c, t, e);
    if forall f: Entry, u: Header :: Lists(c, t, f, u) ==> Lists(c, after, f, u) {
      forall x | x in HashesOf(c, before) ensures x in HashesOf(c, e.uncles) {
        var u :| u in before && c.hash(u) == x;
        assert Lists(c, t, e, u) ==> Lists(c, after, e, u);
      }
    }
  }

  // ── a run ──────────────────────────────────────────────────────────────────

  /** Every header passes the rules, but for the block number. */
  ghost predicate Lenient(c: Consensus) {
    (forall h: Header :: c.staticOk(h)) && (forall h: Header, p: Header :: c.parentOk(h, p))
  }

  /** A header on top of another that commits to its uncles. */
  function On(c: Consensus, parent: Header, difficulty: nat, uncles: seq<Header>): Header {
    Header(parent.number + 1, c.hash(parent), difficulty, c.commit(uncles), |uncles|, 0)
  }

  predicate Has(c: Consensus, t: Tables, h: Header, uncles: seq<Header>) {
    var x := c.hash(h);
    x in t.headers && t.headers[x] == h && x in t.uncles && t.uncles[x] == uncles
  }

  lemma PutHas(c: Consensus, t: Tables, e: Entry)
    requires Indexed(c, t)
    ensures Indexed(c, PutEntry(c, t, e)) && Has(c, PutEntry(c, t, e), e.header, e.uncles)
    ensures PutEntry(c, t, e).headers.Keys == t.headers.Keys + {c.hash(e.header)}
    ensures forall h, uncles :: Has(c, t, h, uncles) && c.hash(h) != c.hash(e.header) ==>
            Has(c, PutEntry(c, t, e), h, uncles)
  {
  }

  /** A block without uncles on a stored one is accepted. */
  lemma PlainAccepted(c: Consensus, t: Tables, depth: Hash -> nat, parent: Header, difficulty: nat)
    requires Lenient(c) && Grounded(AncestryOf(t), depth) && Has(c, t, parent, [])
    ensures ValidateEntry(c, t, depth, Entry(On(c, parent, difficulty, []), [])).None?
  {
    ListExact(c, AncestryOf(t), depth, On(c, parent, difficulty, []), []);
  }

  lemma StretchStep(c: Consensus, t: Tables, depth: Hash -> nat, h: Header, uncles: seq<Header>, floor: nat)
    requires Grounded(AncestryOf(t), depth) && Has(c, t, h, uncles) && h.number >= floor
    ensures Stretch(AncestryOf(t), depth, c.hash(h), floor)
         == [c.hash(h)] + if h.number == 0 then [] else Stretch(AncestryOf(t), depth, h.parentHash, floor)
  {
  }

  /** Two blocks on a root whose parent is not stored: the walk from the upper one. */
  lemma TwoBlocks(c: Consensus, t: Tables, depth: Hash -> nat, r: Header, x: Header, floor: nat)
    requires Grounded(AncestryOf(t), depth) && Has(c, t, r, []) && Has(c, t, x, []) && r.parentHash !in t.headers
    requires x.parentHash == c.hash(r) && x.number == r.number + 1 && floor <= r.number
    ensures Stretch(AncestryOf(t), depth, c.hash(x), floor) == [c.hash(x), c.hash(r)]
    ensures UsedIn(c, AncestryOf(t), [c.hash(x), c.hash(r)]) == {}
  {
    StretchStep(c, t, depth, x, [], floor);
    StretchStep(c, t, depth, r, [], floor);
  }

  lemma ThreeBlocks(c: Consensus, t: Tables, depth: Hash -> nat, r: Header, x: Header, a: Header, floor: nat)
    requires Grounded(AncestryOf(t), depth) && Has(c, t, r, []) && Has(c, t, x, []) && Has(c, t, a, [])
    requires r.parentHash !in t.headers && x.parentHash == c.hash(r) && x.number == r.number + 1
    requires a.parentHash == c.hash(x) && a.number == x.number + 1 && floor <= r.number
    ensures Stretch(AncestryOf(t), depth, c.hash(a), floor) == [c.hash(a), c.hash(x), c.hash(r)]
    ensures UsedIn(c, AncestryOf(t), [c.hash(a), c.hash(x), c.hash(r)]) == {}
  {
    StretchStep(c, t, depth, a, [], floor);
    TwoBlocks(c, t, depth, r, x, floor);
  }

  /** A block that includes `v`, once the walk from its parent is known. */
  lemma IncludingAccepted(c: Consensus, t: Tables, depth: Hash -> nat, r: Header, v: Header, parent: Header,
                          stretch: seq<Hash>)
    requires Lenient(c) && Grounded(AncestryOf(t), depth)
    requires Has(c, t, r, []) && Has(c, t, parent, []) && v.parentHash == c.hash(r) && v.number == r.number + 1
    requires v.number <= parent.number <= v.number + 5
    requires stretch == Stretch(AncestryOf(t), depth, c.hash(parent), Floor(parent.number + 1, UNCLE_GENERATION_LIMIT))
    requires c.hash(v) !in stretch && c.hash(r) in stretch && c.hash(v) !in UsedIn(c, AncestryOf(t), stretch)
    ensures ValidateEntry(c, t, depth, Entry(On(c, parent, 1, [v]), [v])).None?
  {
    UncleAccepted(c, t, depth, On(c, parent, 1, [v]), v);
  }

  /** A root, three blocks on it one on the other, and the uncle of the upper two. */
  datatype Family = Family(r: Header, x: Header, a: Header, b: Header, v: Header)

  predicate Kin(c: Consensus, f: Family) {
    && f.x == On(c, f.r, 1, []) && f.v == On(c, f.r, 2, [])
    && f.a == On(c, f.x, 1, [f.v]) && f.b == On(c, f.a, 1, [f.v])
  }

  /** The blocks' hashes, and the root's parent's, are all different, and none is the uncle's. */
  predicate Separate(c: Consensus, f: Family) {
    var r, x, a, b := c.hash(f.r), c.hash(f.x), c.hash(f.a), c.hash(f.b);
    && f.r.parentHash !in {r, x, a, b} && r !in {x, a, b} && x !in {a, b} && a != b
    && c.hash(f.v) !in {r, x, a, b, f.r.parentHash}
  }

  lemma KinAreSeparate(c: Consensus, depth: Hash -> nat, f: Family)
    requires NoCollision(c) && Acyclic(c, depth) && Kin(c, f)
    ensures Separate(c, f)
  {
    assert depth(f.r.parentHash) < depth(c.hash(f.r)) < depth(c.hash(f.x)) < depth(c.hash(f.a)) < depth(c.hash(f.b));
    assert depth(f.r.parentHash) < depth(c.hash(f.v));
    assert !Alike(f.v, f.r) && !Alike(f.v, f.x) && !Alike(f.v, f.a) && !Alike(f.v, f.b);
  }

  predicate HasBoth(c: Consensus, f: Family, t: Tables) {
    Has(c, t, f.r, []) && Has(c, t, f.x, []) && f.r.parentHash !in t.headers
  }

  /** On a store with the root and the first block, `a` is accepted with its uncle. */
  lemma LowerAccepted(c: Consensus, depth: Hash -> nat, f: Family, t: Tables)
    requires Acyclic(c, depth) && Lenient(c) && Kin(c, f) && Separate(c, f) && Indexed(c, t) && HasBoth(c, f, t)
    ensures Grounded(AncestryOf(t), depth) && ValidateEntry(c, t, depth, Entry(f.a, [f.v])).None?
  {
    IndexedIsGrounded(c, t, depth);
    TwoBlocks(c, t, depth, f.r, f.x, Floor(f.x.number + 1, UNCLE_GENERATION_LIMIT));
    IncludingAccepted(c, t, depth, f.r, f.v, f.x, [c.hash(f.x), c.hash(f.r)]);
  }

  /** On one that has `a` without its uncle, `b` is accepted with the same. */
  lemma UpperAccepted(c: Consensus, depth: Hash -> nat, f: Family, t: Tables)
    requires Acyclic(c, depth) && Lenient(c) && Kin(c, f) && Separate(c, f) && Indexed(c, t) && HasBoth(c, f, t)
    requires Has(c, t, f.a, [])
    ensures Grounded(AncestryOf(t), depth) && ValidateEntry(c, t, depth, Entry(f.b, [f.v])).None?
  {
    IndexedIsGrounded(c, t, depth);
    ThreeBlocks(c, t, depth, f.r, f.x, f.a, Floor(f.a.number + 1, UNCLE_GENERATION_LIMIT));
    IncludingAccepted(c, t, depth, f.r, f.v, f.a, [c.hash(f.a), c.hash(f.x), c.hash(f.r)]);
  }

  /** A root is proposed, and a block connected on top of it. */
  lemma RootAndBlock(c: Consensus, depth: Hash -> nat, f: Family) returns (t1: Tables, t2: Tables)
    requires Acyclic(c, depth) && Lenient(c) && Kin(c, f) && Separate(c, f)
    ensures StepOk(c, depth, Empty, Step(Entry(f.r, []), false), t1)
    ensures StepOk(c, depth, t1, Step(Entry(f.x, []), true), t2)
    ensures f.r.parentHash !in t1.headers && c.hash(f.r) in t1.headers
    ensures Indexed(c, t2) && HasBoth(c, f, t2) && Edge(t2, c.hash(f.r), c.hash(f.x))
  {
    t1 := PutEntry(c, Empty, Entry(f.r, [])).(roots := {c.hash(f.r)});
    t2 := PutEntry(c, t1, Entry(f.x, []));
    EmptyIsIndexed(c);
    PutHas(c, Empty, Entry(f.r, []));
    IndexedIsGrounded(c, t1, depth);
    PlainAccepted(c, t1, depth, f.r, 1);
    PutHas(c, t1, Entry(f.x, []));
  }

  /** `a` is connected with its uncle, and then proposed without. */
  lemma ConnectedThenDropped(c: Consensus, depth: Hash -> nat, f: Family, t2: Tables) returns (t3: Tables, t4: Tables)
    requires Acyclic(c, depth) && Lenient(c) && Kin(c, f) && Separate(c, f) && Indexed(c, t2) && HasBoth(c, f, t2)
    ensures StepOk(c, depth, t2, Step(Entry(f.a, [f.v]), true), t3)
    ensures StepOk(c, depth, t3, Step(Entry(f.a, []), false), t4)
    ensures c.hash(f.x) in t2.headers && Indexed(c, t4) && HasBoth(c, f, t4) && Has(c, t4, f.a, [])
  {
    LowerAccepted(c, depth, f, t2);
    t3 := PutEntry(c, t2, Entry(f.a, [f.v]));
    t4 := PutEntry(c, t3, Entry(f.a, []));
    PutHas(c, t2, Entry(f.a, [f.v]));
    PutHas(c, t3, Entry(f.a, []));
  }

  /** `b` is connected with that uncle, and `a` once more with it. */
  lemma ConnectedAgain(c: Consensus, depth: Hash -> nat, f: Family, t4: Tables) returns (t5: Tables, t6: Tables)
    requires Acyclic(c, depth) && Lenient(c) && Kin(c, f) && Separate(c, f) && Indexed(c, t4) && HasBoth(c, f, t4)
    requires Has(c, t4, f.a, [])
    ensures StepOk(c, depth, t4, Step(Entry(f.b, [f.v]), true), t5)
    ensures StepOk(c, depth, t5, Step(Entry(f.a, [f.v]), true), t6)
    ensures Indexed(c, t6) && HasBoth(c, f, t6) && Has(c, t6, f.a, [f.v]) && Has(c, t6, f.b, [f.v])
  {
    UpperAccepted(c, depth, f, t4);
    t5 := PutEntry(c, t4, Entry(f.b, [f.v]));
    PutHas(c, t4, Entry(f.b, [f.v]));
    LowerAccepted(c, depth, f, t5);
    t6 := PutEntry(c, t5, Entry(f.a, [f.v]));
    PutHas(c, t5, Entry(f.a, [f.v]));
  }

  /** A root and five more steps, one of them `a` proposed again without its uncle. */
  function StepsOf(f: Family): (steps: seq<Step>)
    ensures |steps| == 6
  {
    [Step(Entry(f.r, []), false), Step(Entry(f.x, []), true), Step(Entry(f.a, [f.v]), true),
     Step(Entry(f.a, []), false), Step(Entry(f.b, [f.v]), true), Step(Entry(f.a, [f.v]), true)]
  }

  function ChainOfFamily(f: Family): (chain: seq<Entry>)
    ensures |chain| == 4
  {
    [Entry(f.r, []), Entry(f.x, []), Entry(f.a, [f.v]), Entry(f.b, [f.v])]
  }

  /** What the stores of such a run have, as far as needed. */
  predicate Story(c: Consensus, f: Family, stores: seq<Tables>) {
    && |stores| == 7 && stores[0] == Empty
    && c.hash(f.r) in stores[1].headers && c.hash(f.x) in stores[2].headers && c.hash(f.a) in stores[4].headers
    && UnclesOf(AncestryOf(stores[4]), c.hash(f.a)) == []
    && HasBoth(c, f, stores[6]) && Has(c, stores[6], f.a, [f.v]) && Has(c, stores[6], f.b, [f.v])
  }

  lemma StoryOf(c: Consensus, depth: Hash -> nat, f: Family, steps: seq<Step>) returns (stores: seq<Tables>)
    requires Acyclic(c, depth) && Lenient(c) && Kin(c, f) && Separate(c, f) && steps == StepsOf(f)
    ensures Run(c, depth, stores, steps) && Story(c, f, stores) && Indexed(c, stores[6])
  {
    var t1, t2, t3, t4, before := UntilDropped(c, depth, f);
    var t5, t6, after := AfterDropped(c, depth, f, t4);
    RunsJoin(c, depth, [Empty, t1, t2, t3, t4], before, [t4, t5, t6], after);
    stores := [Empty, t1, t2, t3, t4, t5, t6];
    assert stores == [Empty, t1, t2, t3, t4] + [t4, t5, t6][1..] && steps == before + after;
    StoryHas(c, f, stores);
  }

  lemma UntilDropped(c: Consensus, depth: Hash -> nat, f: Family)
    returns (t1: Tables, t2: Tables, t3: Tables, t4: Tables, steps: seq<Step>)
    requires Acyclic(c, depth) && Lenient(c) && Kin(c, f) && Separate(c, f)
    ensures steps == [Step(Entry(f.r, []), false), Step(Entry(f.x, []), true), Step(Entry(f.a, [f.v]), true),
            Step(Entry(f.a, []), false)]
    ensures Run(c, depth, [Empty, t1, t2, t3, t4], steps)
    ensures c.hash(f.r) in t1.headers && c.hash(f.x) in t2.headers
    ensures Indexed(c, t4) && HasBoth(c, f, t4) && Has(c, t4, f.a, [])
  {
    t1, t2 := RootAndBlock(c, depth, f);
    t3, t4 := ConnectedThenDropped(c, depth, f, t2);
    EmptyIsIndexed(c);
    var root, first := Step(Entry(f.r, []), false), Step(Entry(f.x, []), true);
    var second, again := Step(Entry(f.a, [f.v]), true), Step(Entry(f.a, []), false);
    steps := [root, first, second, again];
    RunOfTwo(c, depth, Empty, root, t1, first, t2);
    RunOfTwo(c, depth, t2, second, t3, again, t4);
    RunsJoin(c, depth, [Empty, t1, t2], [root, first], [t2, t3, t4], [second, again]);
    assert [Empty, t1, t2] + [t2, t3, t4][1..] == [Empty, t1, t2, t3, t4] && [root, first] + [second, again] == steps;
  }

  lemma AfterDropped(c: Consensus, depth: Hash -> nat, f: Family, t4: Tables)
    returns (t5: Tables, t6: Tables, steps: seq<Step>)
    requires Acyclic(c, depth) && Lenient(c) && Kin(c, f) && Separate(c, f) && Indexed(c, t4) && HasBoth(c, f, t4)
    requires Has(c, t4, f.a, [])
    ensures steps == [Step(Entry(f.b, [f.v]), true), Step(Entry(f.a, [f.v]), true)]
    ensures Run(c, depth, [t4, t5, t6], steps)
    ensures Indexed(c, t6) && HasBoth(c, f, t6) && Has(c, t6, f.a, [f.v]) && Has(c, t6, f.b, [f.v])
  {
    t5, t6 := ConnectedAgain(c, depth, f, t4);
    steps := [Step(Entry(f.b, [f.v]), true), Step(Entry(f.a, [f.v]), true)];
    RunOfTwo(c, depth, t4, steps[0], t5, steps[1], t6);
  }

  lemma RunOfTwo(c: Consensus, depth: Hash -> nat, t: Tables, s: Step, t': Tables, s': Step, t'': Tables)
    requires Indexed(c, t) && StepOk(c, depth, t, s, t') && StepOk(c, depth, t', s', t'')
    ensures Run(c, depth, [t, t', t''], [s, s'])
  {
  }

  /** A run and one from where it ends make a run. */
  lemma RunsJoin(c: Consensus, depth: Hash -> nat, stores: seq<Tables>, steps: seq<Step>,
                 stores': seq<Tables>, steps': seq<Step>)
    requires Run(c, depth, stores, steps) && Run(c, depth, stores', steps') && stores[|steps|] == stores'[0]
    ensures Run(c, depth, stores + stores'[1..], steps + steps')
  {
    var all, both := stores + stores'[1..], steps + steps';
    forall i | 0 <= i < |both| ensures StepOk(c, depth, all[i], both[i], all[i + 1]) {
      if i < |steps| {
        assert all[i] == stores[i] && both[i] == steps[i] && all[i + 1] == stores[i + 1];
      } else {
        var k := i - |steps|;
        assert all[i] == stores'[k] && both[i] == steps'[k] && all[i + 1] == stores'[k + 1];
      }
    }
  }

  lemma StoryHas(c: Consensus, f: Family, stores: seq<Tables>)
    requires |stores| == 7 && stores[0] == Empty
    requires c.hash(f.r) in stores[1].headers && c.hash(f.x) in stores[2].headers && Has(c, stores[4], f.a, [])
    requires HasBoth(c, f, stores[6]) && Has(c, stores[6], f.a, [f.v]) && Has(c, stores[6], f.b, [f.v])
    ensures Story(c, f, stores)
  {
  }

  lemma LinkedFour(c: Consensus, f: Family)
    requires Kin(c, f)
    ensures Linked(c, ChainOfFamily(f))
  {
    var chain := ChainOfFamily(f);
    forall i | 0 < i < |chain| ensures chain[i].header.parentHash == c.hash(chain[..i][i - 1].header) {
      assert chain[..i][i - 1] == chain[i - 1];
    }
  }

  lemma StoryChain(f: Family, steps: seq<Step>, picks: seq<nat>)
    requires steps == StepsOf(f) && picks == [0, 1, 2, 4]
    ensures ChainOf(steps, picks) == ChainOfFamily(f)
  {
  }

  lemma StoryPicked(c: Consensus, f: Family, stores: seq<Tables>, steps: seq<Step>, picks: seq<nat>)
    requires |stores| == 7 && |steps| == 6 && picks == [0, 1, 2, 4] && Linked(c, ChainOf(steps, picks))
    requires Hung(stores, steps, 1) && Hung(stores, steps, 2) && Hung(stores, steps, 4)
    ensures Picked(c, stores, steps, picks)
  {
  }

  lemma StoryHangs(c: Consensus, f: Family, stores: seq<Tables>, steps: seq<Step>)
    requires Kin(c, f) && Story(c, f, stores) && steps == StepsOf(f)
    ensures Hung(stores, steps, 1) && Hung(stores, steps, 2) && Hung(stores, steps, 4)
  {
  }

  lemma StoryForgets(c: Consensus, f: Family, stores: seq<Tables>)
    requires Story(c, f, stores)
    ensures Forgets(c, stores[4], Entry(f.a, [f.v]), f.v)
  {
    assert f.v in [f.v];
  }

  lemma StoryHolds(c: Consensus, f: Family, t: Tables, chain: seq<Entry>)
    requires HasBoth(c, f, t) && Has(c, t, f.a, [f.v]) && Has(c, t, f.b, [f.v]) && chain == ChainOfFamily(f)
    ensures forall j :: 0 <= j < |chain| ==> Holds(c, t, chain[j])
  {
  }

  lemma WorkOfOne(c: Consensus, t: Tables, h: Header, uncles: seq<Header>)
    requires Indexed(c, t) && Has(c, t, h, uncles) && |uncles| <= 1 && h.difficulty == 1
    requires uncles != [] ==> uncles[0].difficulty == 2
    ensures WorkOf(t, c.hash(h)) == if uncles == [] then 1 else 3
  {
    if uncles != [] {
      assert uncles[..0] == [] && CumulativeDifficulty(1, uncles) == SatAdd(CumulativeDifficulty(1, uncles[..0]), 2);
    }
  }

  lemma StoredWorkOnTop(c: Consensus, t: Tables, below: seq<Entry>, e: Entry)
    ensures StoredWork(c, t, below + [e]) == StoredWork(c, t, below) + WorkOf(t, c.hash(e.header))
  {
    assert (below + [e])[..|below|] == below;
  }

  lemma StoryWork(c: Consensus, f: Family, t: Tables)
    requires Kin(c, f) && f.r.difficulty == 1 && Indexed(c, t)
    requires HasBoth(c, f, t) && Has(c, t, f.a, [f.v]) && Has(c, t, f.b, [f.v])
    ensures StoredWork(c, t, ChainOfFamily(f)) == 8
  {
    WorkOfOne(c, t, f.r, []);
    WorkOfOne(c, t, f.x, []);
    WorkOfOne(c, t, f.a, [f.v]);
    WorkOfOne(c, t, f.b, [f.v]);
    var r, x, a, b := Entry(f.r, []), Entry(f.x, []), Entry(f.a, [f.v]), Entry(f.b, [f.v]);
    StoredWorkOnTop(c, t, [], r);
    StoredWorkOnTop(c, t, [r], x);
    StoredWorkOnTop(c, t, [r] + [x], a);
    StoredWorkOnTop(c, t, [r] + [x] + [a], b);
    assert ChainOfFamily(f) == [r] + [x] + [a] + [b] && [] + [r] == [r];
  }

  /** A run in which a root without uncles and three blocks validated on top of it make a
      chain whose last two include the same uncle: between them the lower of the two was
      proposed again without it. All their lists are stored in the end, and the work stored is
      8 though the five headers have only 6. */
  lemma UncleComesBack(c: Consensus, depth: Hash -> nat, r: Header)
    returns (f: Family, stores: seq<Tables>, steps: seq<Step>, picks: seq<nat>)
    requires NoCollision(c) && Acyclic(c, depth) && Lenient(c) && r.difficulty == 1
    ensures f.r == r && steps == StepsOf(f) && Run(c, depth, stores, steps) && stores[0] == Empty
    ensures picks == [0, 1, 2, 4] && Picked(c, stores, steps, picks) && ChainOf(steps, picks) == ChainOfFamily(f)
    ensures forall j :: 0 <= j < 4 ==> Holds(c, stores[6], ChainOfFamily(f)[j])
    ensures !Remembered(c, ChainOfFamily(f), StoresOf(stores, picks), 1)
    ensures !DistinctHashes(c, Judged(ChainOfFamily(f))) && StoredWork(c, stores[6], ChainOfFamily(f)) == 8
  {
    var x, v := On(c, r, 1, []), On(c, r, 2, []);
    var a := On(c, x, 1, [v]);
    f := Family(r, x, a, On(c, a, 1, [v]), v);
    KinAreSeparate(c, depth, f);
    steps, picks := StepsOf(f), [0, 1, 2, 4];
    stores := StoryOf(c, depth, f, steps);
    StoryChain(f, steps, picks);
    LinkedFour(c, f);
    StoryHangs(c, f, stores, steps);
    StoryPicked(c, f, stores, steps, picks);
    StoryEnds(c, f, stores, picks, ChainOfFamily(f));
  }

  lemma StoryEnds(c: Consensus, f: Family, stores: seq<Tables>, picks: seq<nat>, chain: seq<Entry>)
    requires Kin(c, f) && Story(c, f, stores) && Indexed(c, stores[6]) && f.r.difficulty == 1
    requires picks == [0, 1, 2, 4] && chain == ChainOfFamily(f)
    ensures forall j :: 0 <= j < |chain| ==> Holds(c, stores[6], chain[j])
    ensures !Remembered(c, chain, StoresOf(stores, picks), 1)
    ensures !DistinctHashes(c, Judged(chain)) && StoredWork(c, stores[6], chain) == 8
  {
    StoryForgets(c, f, stores);
    assert StoresOf(stores, picks)[3] == stores[4];
    assert Forgets(c, StoresOf(stores, picks)[3], chain[2], chain[3].uncles[0]);
    ForgottenIsTwice(c, chain, StoresOf(stores, picks), 2, 3, 0);
    StoryHolds(c, f, stores[6], chain);
    StoryWork(c, f, stores[6]);
  }
}
