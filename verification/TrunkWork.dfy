/** The work of a chain of accepted Rootstock blocks: when it counts every header once, and
    that every block of a run lies on such a chain. */
module TrunkWork {
  import opened CountedOnce
  import opened Forest
  import opened U256
  import opened UncleRule

  /** The headers of a chain, every block's own and its uncles, but for the uncles of the
      first block, which were not judged. */
  function Judged(chain: seq<Entry>): seq<Header> {
    var n := |chain|;
    if n == 0 then []
    else if n == 1 then [chain[0].header]
    else Judged(chain[..n - 1]) + [chain[n - 1].header] + chain[n - 1].uncles
  }

  /** All the headers whose difficulty the chain's blocks add up. */
  function Counted(chain: seq<Entry>): seq<Header> {
    if chain == [] then [] else chain[0].uncles + Judged(chain)
  }

  /** The work the store keeps for the chain's blocks. */
  function StoredWork(c: Consensus, t: Tables, chain: seq<Entry>): nat {
    var n := |chain|;
    if n == 0 then 0 else StoredWork(c, t, chain[..n - 1]) + WorkOf(t, c.hash(chain[n - 1].header))
  }

  function Difficulties(headers: seq<Header>): nat {
    var n := |headers|;
    if n == 0 then 0 else Difficulties(headers[..n - 1]) + headers[n - 1].difficulty
  }

  lemma {:induction false} DifficultiesOfConcat(a: seq<Header>, b: seq<Header>)
    ensures Difficulties(a + b) == Difficulties(a) + Difficulties(b)
    decreases |b|
  {
    var n := |b|;
    if n == 0 {
      assert a + b == a;
    } else {
      DifficultiesOfConcat(a, b[..n - 1]);
      assert (a + b)[..|a + b| - 1] == a + b[..n - 1];
    }
  }

  lemma {:induction false} CumulativeIsSum(own: nat, uncles: seq<Header>)
    requires Fits(own)
    ensures CumulativeDifficulty(own, uncles) == Min(own + Difficulties(uncles), MAX)
    decreases |uncles|
  {
    if uncles != [] {
      CumulativeIsSum(own, uncles[..|uncles| - 1]);
    }
  }

  /** Where a counted header came from: block `i`, as its own header or as uncle `u`. */
  predicate CameFrom(chain: seq<Entry>, h: Header, i: nat, u: int) {
    && i < |chain|
    && -1 <= u < |chain[i].uncles| && (u >= 0 ==> i > 0)
    && h == if u < 0 then chain[i].header else chain[i].uncles[u]
  }

  /** Two counted headers at different places have different hashes, unless a store forgot
      the lower one. */
  lemma PlacesDiffer(c: Consensus, depth: Hash -> nat, chain: seq<Entry>, stores: seq<Tables>,
                     g: Header, i: nat, u: int, h: Header, j: nat, v: int)
    requires NoCollision(c) && AcceptedChain(c, depth, chain, stores) && Remembered(c, chain, stores, 1)
    requires CameFrom(chain, g, i, u) && CameFrom(chain, h, j, v) && i <= j && (i != j || u != v)
    ensures c.hash(g) != c.hash(h)
  {
    if u < 0 && v < 0 {
      NumbersRise(c, depth, chain, stores, i);
      NumbersRise(c, depth, chain, stores, j);
    } else if v < 0 {
      NoUncleIsTrunk(c, depth, chain, stores, i, u, j);
    } else if u < 0 {
      NoUncleIsTrunk(c, depth, chain, stores, j, v, i);
    } else if i < j {
      NoUncleTwice(c, depth, chain, stores, i, j, v);
      assert g in chain[i].uncles;
    } else {
      UncleFacts(c, depth, chain, stores, j, v);
    }
  }

  function PlaceOf(chain: seq<Entry>, k: nat): (place: (nat, int))
    requires k < |Judged(chain)|
    ensures CameFrom(chain, Judged(chain)[k], place.0, place.1)
  {
    var n := |chain|;
    if n == 1 then (0, -1)
    else if k < |Judged(chain[..n - 1])| then PlaceOf(chain[..n - 1], k)
    else (n - 1, k - |Judged(chain[..n - 1])| - 1)
  }

  /** The places of the list are all different, and in the order of the chain. */
  lemma {:induction false} PlacesAreDistinct(chain: seq<Entry>, k: nat, m: nat)
    requires k < m < |Judged(chain)|
    ensures PlaceOf(chain, k) != PlaceOf(chain, m) && PlaceOf(chain, k).0 <= PlaceOf(chain, m).0
    decreases |chain|
  {
    var n := |chain|;
    var below := Judged(chain[..n - 1]);
    if m < |below| {
      PlacesAreDistinct(chain[..n - 1], k, m);
    } else if k < |below| {
      assert PlaceOf(chain[..n - 1], k).0 < n - 1;
    }
  }

  /** Every uncle past the first block's is on the list, those of a block after those of the
      blocks below it. */
  lemma {:induction false} UncleIsJudged(chain: seq<Entry>, i: nat, u: nat) returns (k: nat)
    requires 0 < i < |chain| && u < |chain[i].uncles|
    ensures k < |Judged(chain)| && Judged(chain)[k] == chain[i].uncles[u]
    ensures |Judged(chain[..i])| <= k < |Judged(chain[..i + 1])|
    decreases |chain|
  {
    var n := |chain| - 1;
    assert chain[..n + 1] == chain;
    if i == n {
      k := |Judged(chain[..n])| + 1 + u;
    } else {
      k := UncleIsJudged(chain[..n], i, u);
      assert chain[..n][..i] == chain[..i] && chain[..n][..i + 1] == chain[..i + 1];
    }
  }

  lemma {:induction false} JudgedGrows(chain: seq<Entry>, i: nat, j: nat)
    requires i <= j <= |chain|
    ensures |Judged(chain[..i])| <= |Judged(chain[..j])|
    decreases j
  {
    if i < j {
      JudgedGrows(chain, i, j - 1);
      assert chain[..j][..j - 1] == chain[..j - 1];
    }
  }

  /** An uncle accepted again is on the list twice. */
  lemma {:induction false} ForgottenIsTwice(c: Consensus, chain: seq<Entry>, stores: seq<Tables>, i: nat, j: nat,
                                            u: nat)
    requires |stores| == |chain| && 0 < i < j < |chain| && u < |chain[j].uncles|
    requires Forgets(c, stores[j], chain[i], chain[j].uncles[u])
    ensures !DistinctHashes(c, Judged(chain))
  {
    var h :| h in chain[i].uncles && c.hash(h) == c.hash(chain[j].uncles[u]);
    var v :| 0 <= v < |chain[i].uncles| && chain[i].uncles[v] == h;
    var k := UncleIsJudged(chain, i, v);
    var m := UncleIsJudged(chain, j, u);
    JudgedGrows(chain, i + 1, j);
    assert k < m && c.hash(Judged(chain)[k]) == c.hash(Judged(chain)[m]);
  }

  /** Past the first block's uncles no header is counted twice if and only if no store forgot
      an uncle that it then accepted again. */
  lemma JudgedOnce(c: Consensus, depth: Hash -> nat, chain: seq<Entry>, stores: seq<Tables>)
    requires NoCollision(c) && AcceptedChain(c, depth, chain, stores)
    ensures DistinctHashes(c, Judged(chain)) <==> Remembered(c, chain, stores, 1)
  {
    var counted := Judged(chain);
    if Remembered(c, chain, stores, 1) {
      forall k, m | 0 <= k < m < |counted| ensures c.hash(counted[k]) != c.hash(counted[m]) {
        PlacesAreDistinct(chain, k, m);
        var p, q := PlaceOf(chain, k), PlaceOf(chain, m);
        PlacesDiffer(c, depth, chain, stores, counted[k], p.0, p.1, counted[m], q.0, q.1);
      }
    } else {
      var i, j, u :| 1 <= i < j < |chain| && 0 <= u < |chain[j].uncles|
        && Forgets(c, stores[j], chain[i], chain[j].uncles[u]);
      ForgottenIsTwice(c, chain, stores, i, j, u);
    }
  }

  // ── the first block's uncles ───────────────────────────────────────────────

  /** What a header commits to lies strictly below it, as its parent does: a commitment is
      made to uncles that exist already. */
  ghost predicate Nested(c: Consensus, depth: Hash -> nat) {
    forall us: seq<Header>, u: Header, h: Header ::
      u in us && c.commit(us) == h.ommersHash ==> depth(c.hash(u)) < depth(c.hash(h))
  }

  lemma {:induction false} DepthRises(c: Consensus, depth: Hash -> nat, chain: seq<Entry>, i: nat)
    requires Acyclic(c, depth) && Linked(c, chain) && i < |chain|
    ensures depth(c.hash(chain[0].header)) <= depth(c.hash(chain[i].header))
  {
    if i > 0 {
      DepthRises(c, depth, chain, i - 1);
      LinkBelow(c, chain, i);
    }
  }

  /** A walk down from a chain block stays on the chain or goes through its first block. */
  lemma {:induction false} StretchSplits(c: Consensus, depth: Hash -> nat, a: Tables, chain: seq<Entry>, k: nat,
                                         floor: nat, y: Hash)
    requires Grounded(AncestryOf(a), depth) && Linked(c, chain) && k < |chain|
    requires forall m :: 0 <= m <= k ==> Known(c, a, chain[m])
    requires y in Stretch(AncestryOf(a), depth, c.hash(chain[k].header), floor)
    ensures || c.hash(chain[0].header) in Stretch(AncestryOf(a), depth, c.hash(chain[k].header), floor)
            || exists i :: 0 <= i <= k && y == c.hash(chain[i].header)
    decreases k
  {
    assert Known(c, a, chain[k]);
    if k > 0 && y != c.hash(chain[k].header) {
      LinkBelow(c, chain, k);
      StretchSplits(c, depth, a, chain, k - 1, floor, y);
    }
  }

  /** An uncle of an accepted block is none of the first block's, unless that was forgotten. */
  lemma RootUncleNotUsed(c: Consensus, depth: Hash -> nat, chain: seq<Entry>, stores: seq<Tables>, x: nat, j: nat,
                         u: nat)
    requires Acyclic(c, depth) && Nested(c, depth) && AcceptedChain(c, depth, chain, stores)
    requires 0 < j < |chain| && u < |chain[j].uncles| && x < |chain[0].uncles| && Committed(c, chain[0])
    requires !Forgets(c, stores[j], chain[0], chain[j].uncles[u])
    ensures c.hash(chain[j].uncles[u]) != c.hash(chain[0].uncles[x])
  {
    assert AcceptedOver(c, depth, stores[j], chain, j);
    var a := AncestryOf(stores[j]);
    var stretch := Window(a, depth, chain[j].header.number, chain[j].header.parentHash);
    ListExact(c, a, depth, chain[j].header, chain[j].uncles);
    var v := chain[j].uncles[u];
    assert Admissible(c, a, chain[j].header.number, AncestorsIn(stretch), UsedIn(c, a, stretch), v);
    LinkBelow(c, chain, j);
    StretchSplits(c, depth, stores[j], chain, j - 1, Floor(chain[j].header.number, UNCLE_GENERATION_LIMIT),
      v.parentHash);
    if c.hash(chain[0].header) in stretch {
      InWindow(c, a, stretch, c.hash(chain[0].header), v);
      assert chain[0].uncles[x] in chain[0].uncles;
      assert c.hash(chain[0].uncles[x]) in HashesOf(c, chain[0].uncles);
    } else {
      var i :| 0 <= i <= j - 1 && v.parentHash == c.hash(chain[i].header);
      DepthRises(c, depth, chain, i);
      assert depth(v.parentHash) < depth(c.hash(v));
      assert chain[0].uncles[x] in chain[0].uncles;
    }
  }

  /** Nor is it a block of the chain. */
  lemma RootUncleApart(c: Consensus, depth: Hash -> nat, chain: seq<Entry>, stores: seq<Tables>, x: nat, k: nat)
    requires Acyclic(c, depth) && Nested(c, depth) && AcceptedChain(c, depth, chain, stores)
    requires chain != [] && Committed(c, chain[0]) && x < |chain[0].uncles| && k < |Judged(chain)|
    requires Remembered(c, chain, stores, 0)
    ensures c.hash(chain[0].uncles[x]) != c.hash(Judged(chain)[k])
  {
    var place := PlaceOf(chain, k);
    if place.1 < 0 {
      DepthRises(c, depth, chain, place.0);
      assert chain[0].uncles[x] in chain[0].uncles;
    } else {
      RootUncleNotUsed(c, depth, chain, stores, x, place.0, place.1);
    }
  }

  /** No header of one list has the hash of one of the other. */
  predicate Apart(c: Consensus, a: seq<Header>, b: seq<Header>) {
    forall i, j :: 0 <= i < |a| && 0 <= j < |b| ==> c.hash(a[i]) != c.hash(b[j])
  }

  /** A chain counts no header twice if and only if its first block's list has none twice and
      none of the others, and no store forgot an uncle that it then accepted again. */
  lemma CountedExactly(c: Consensus, depth: Hash -> nat, chain: seq<Entry>, stores: seq<Tables>)
    requires NoCollision(c) && AcceptedChain(c, depth, chain, stores) && chain != []
    ensures DistinctHashes(c, Counted(chain))
       <==> && DistinctHashes(c, chain[0].uncles) && Apart(c, chain[0].uncles, Judged(chain))
            && Remembered(c, chain, stores, 1)
  {
    JudgedOnce(c, depth, chain, stores);
    DistinctJoin(c, chain[0].uncles, Judged(chain));
  }

  /** If the first header commits to its list, and commitments are made to what exists
      already, its list has none of the others unless a store forgot it; so a chain counts no
      header twice if and only if that list, which no rule looked at, has none twice and no
      store forgot an uncle, the first block's included, that it then accepted. */
  lemma CountedAtMostOnce(c: Consensus, depth: Hash -> nat, chain: seq<Entry>, stores: seq<Tables>)
    requires NoCollision(c) && Acyclic(c, depth) && Nested(c, depth) && AcceptedChain(c, depth, chain, stores)
    requires chain != [] && Committed(c, chain[0])
    ensures Remembered(c, chain, stores, 0) ==> Apart(c, chain[0].uncles, Judged(chain))
    ensures DistinctHashes(c, Counted(chain)) <==> DistinctHashes(c, chain[0].uncles) && Remembered(c, chain, stores, 0)
  {
    CountedExactly(c, depth, chain, stores);
    if Remembered(c, chain, stores, 0) {
      RootListApart(c, depth, chain, stores);
    } else if Remembered(c, chain, stores, 1) {
      var i, j, u :| 0 <= i < j < |chain| && 0 <= u < |chain[j].uncles|
        && Forgets(c, stores[j], chain[i], chain[j].uncles[u]);
      RootUncleIsTwice(c, chain, stores, j, u);
    }
  }

  lemma RootListApart(c: Consensus, depth: Hash -> nat, chain: seq<Entry>, stores: seq<Tables>)
    requires Acyclic(c, depth) && Nested(c, depth) && AcceptedChain(c, depth, chain, stores)
    requires chain != [] && Committed(c, chain[0]) && Remembered(c, chain, stores, 0)
    ensures Apart(c, chain[0].uncles, Judged(chain))
  {
    var first, rest := chain[0].uncles, Judged(chain);
    forall x, k | 0 <= x < |first| && 0 <= k < |rest| ensures c.hash(first[x]) != c.hash(rest[k]) {
      RootUncleApart(c, depth, chain, stores, x, k);
    }
  }

  lemma {:induction false} RootUncleIsTwice(c: Consensus, chain: seq<Entry>, stores: seq<Tables>, j: nat, u: nat)
    requires |stores| == |chain| && 0 < j < |chain| && u < |chain[j].uncles|
    requires Forgets(c, stores[j], chain[0], chain[j].uncles[u])
    ensures !Apart(c, chain[0].uncles, Judged(chain))
  {
    var h :| h in chain[0].uncles && c.hash(h) == c.hash(chain[j].uncles[u]);
    var v :| 0 <= v < |chain[0].uncles| && chain[0].uncles[v] == h;
    var k := UncleIsJudged(chain, j, u);
    assert c.hash(chain[0].uncles[v]) == c.hash(Judged(chain)[k]);
  }

  lemma DistinctJoin(c: Consensus, a: seq<Header>, b: seq<Header>)
    ensures DistinctHashes(c, a + b) <==> DistinctHashes(c, a) && DistinctHashes(c, b) && Apart(c, a, b)
  {
    var s := a + b;
    if DistinctHashes(c, s) {
      forall i, j | 0 <= i < j < |a| ensures c.hash(a[i]) != c.hash(a[j]) {
        assert s[i] == a[i] && s[j] == a[j];
      }
      forall i, j | 0 <= i < j < |b| ensures c.hash(b[i]) != c.hash(b[j]) {
        assert s[i + |a|] == b[i] && s[j + |a|] == b[j];
      }
      forall i, j | 0 <= i < |a| && 0 <= j < |b| ensures c.hash(a[i]) != c.hash(b[j]) {
        assert s[i] == a[i] && s[j + |a|] == b[j];
      }
    }
  }

  // ── the stored work ────────────────────────────────────────────────────────

  /** The block's own sum does not saturate. */
  predicate Unsaturated(e: Entry) { Fits(e.header.difficulty + Difficulties(e.uncles)) }

  lemma WorkOfHeld(c: Consensus, t: Tables, e: Entry)
    requires Indexed(c, t) && Holds(c, t, e) && Fits(e.header.difficulty)
    ensures WorkOf(t, c.hash(e.header)) == Min(e.header.difficulty + Difficulties(e.uncles), MAX)
  {
    CumulativeIsSum(e.header.difficulty, e.uncles);
  }

  lemma CountedTop(chain: seq<Entry>)
    requires |chain| > 1
    ensures var below, top := chain[..|chain| - 1], chain[|chain| - 1];
      Difficulties(Judged(chain)) == Difficulties(Judged(below)) + top.header.difficulty + Difficulties(top.uncles)
  {
    var below, top := chain[..|chain| - 1], chain[|chain| - 1];
    DifficultiesOfConcat(Judged(below) + [top.header], top.uncles);
    assert (Judged(below) + [top.header])[..|Judged(below)|] == Judged(below);
  }

  /** The work a store keeps for a chain it holds never exceeds the difficulties counted,
      and equals them exactly as long as no block's own sum saturates. */
  lemma {:induction false} StoredWorkIsCounted(c: Consensus, t: Tables, chain: seq<Entry>)
    requires Indexed(c, t)
    requires forall i :: 0 <= i < |chain| ==> Holds(c, t, chain[i]) && Fits(chain[i].header.difficulty)
    ensures StoredWork(c, t, chain) <= Difficulties(Counted(chain))
    ensures StoredWork(c, t, chain) == Difficulties(Counted(chain))
       <==> forall i :: 0 <= i < |chain| ==> Unsaturated(chain[i])
    decreases |chain|
  {
    if chain != [] {
      var n := |chain| - 1;
      assert forall i :: 0 <= i < n ==> chain[i] == chain[..n][i];
      StoredWorkIsCounted(c, t, chain[..n]);
      WorkOfHeld(c, t, chain[n]);
      CountedOneMore(chain);
      UnsaturatedTop(chain);
    }
  }

  lemma CountedOneMore(chain: seq<Entry>)
    requires chain != []
    ensures var n := |chain| - 1;
      Difficulties(Counted(chain))
      == Difficulties(Counted(chain[..n])) + (chain[n].header.difficulty + Difficulties(chain[n].uncles))
  {
    DifficultiesOfConcat(chain[0].uncles, Judged(chain));
    if |chain| == 1 {
      FirstCounted(chain);
      assert Counted(chain[..0]) == [];
    } else {
      CountedTop(chain);
      DifficultiesOfConcat(chain[0].uncles, Judged(chain[..|chain| - 1]));
    }
  }

  lemma FirstCounted(chain: seq<Entry>)
    requires |chain| == 1
    ensures Difficulties(Judged(chain)) == chain[0].header.difficulty
  {
    assert Judged(chain)[..0] == [];
  }

  lemma UnsaturatedTop(chain: seq<Entry>)
    requires chain != []
    ensures var n := |chain| - 1;
      (forall i :: 0 <= i < |chain| ==> Unsaturated(chain[i]))
      <==> (forall i :: 0 <= i < n ==> Unsaturated(chain[..n][i])) && Unsaturated(chain[n])
  {
    var n := |chain| - 1;
    assert forall i :: 0 <= i < n ==> chain[..n][i] == chain[i];
  }

  // ── chains inside a run ────────────────────────────────────────────────────

  /** The step was validated with its parent stored. */
  predicate Hung(stores: seq<Tables>, steps: seq<Step>, k: nat)
    requires |stores| == |steps| + 1
  {
    k < |steps| && steps[k].validated && steps[k].entry.header.parentHash in stores[k].headers
  }

  /** Steps of a run, each validated with its parent stored, and that parent the block of
      the step picked before it. */
  predicate Picked(c: Consensus, stores: seq<Tables>, steps: seq<Step>, picks: seq<nat>)
    requires |stores| == |steps| + 1
  {
    && (forall j :: 0 <= j < |picks| ==> picks[j] < |steps|)
    && (forall j, j' :: 0 <= j < j' < |picks| ==> picks[j] < picks[j'])
    && (forall j :: 0 < j < |picks| ==> Hung(stores, steps, picks[j]))
    && Linked(c, ChainOf(steps, picks))
  }

  function ChainOf(steps: seq<Step>, picks: seq<nat>): seq<Entry>
    requires forall j :: 0 <= j < |picks| ==> picks[j] < |steps|
  {
    seq(|picks|, j requires 0 <= j < |picks| => steps[picks[j]].entry)
  }

  function StoresOf(stores: seq<Tables>, picks: seq<nat>): (picked: seq<Tables>)
    requires forall j :: 0 <= j < |picks| ==> picks[j] < |stores|
    ensures |picked| == |picks|
  {
    seq(|picks|, j requires 0 <= j < |picks| => stores[picks[j]])
  }

  /** Such steps make an accepted chain. */
  lemma PickedIsAccepted(c: Consensus, depth: Hash -> nat, stores: seq<Tables>, steps: seq<Step>, picks: seq<nat>)
    requires NoCollision(c) && Run(c, depth, stores, steps) && Picked(c, stores, steps, picks)
    ensures AcceptedChain(c, depth, ChainOf(steps, picks), StoresOf(stores, picks))
  {
    var chain := ChainOf(steps, picks);
    forall j | 0 < j < |picks| ensures AcceptedOver(c, depth, stores[picks[j]], chain, j) {
      assert Hung(stores, steps, picks[j]);
      assert StepOk(c, depth, stores[picks[j]], steps[picks[j]], stores[picks[j] + 1]);
      forall i | 0 <= i < j ensures Known(c, stores[picks[j]], chain[i]) {
        RunKnows(c, depth, stores, steps, picks[i], picks[j]);
      }
    }
  }

  /** If no put drops a name, nothing is forgotten. */
  lemma KeepingRunRemembers(c: Consensus, depth: Hash -> nat, stores: seq<Tables>, steps: seq<Step>, picks: seq<nat>)
    requires Run(c, depth, stores, steps) && KeepingRun(c, stores, steps) && Picked(c, stores, steps, picks)
    ensures Remembered(c, ChainOf(steps, picks), StoresOf(stores, picks), 0)
  {
    var chain := ChainOf(steps, picks);
    forall i, j, u | 0 <= i < j < |chain| && 0 <= u < |chain[j].uncles|
      ensures !Forgets(c, stores[picks[j]], chain[i], chain[j].uncles[u])
    {
      if c.hash(chain[j].uncles[u]) in HashesOf(c, chain[i].uncles) {
        RunLists(c, depth, stores, steps, picks[i], picks[j], chain[j].uncles[u]);
      }
    }
  }

  lemma SteadyIsKeeping(c: Consensus, stores: seq<Tables>, steps: seq<Step>)
    requires |stores| == |steps| + 1 && SteadyRun(c, stores, steps)
    ensures KeepingRun(c, stores, steps)
  {
    forall i | 0 <= i < |steps| ensures NamesKept(c, stores[i], steps[i].entry) {
      assert Steady(c, stores[i], steps[i].entry);
    }
  }

  /** In a run from the empty store, what a store holds an earlier step put there. */
  lemma {:induction false} StoredEarlier(c: Consensus, depth: Hash -> nat, stores: seq<Tables>, steps: seq<Step>,
                                         m: nat, x: Hash)
    returns (k: nat)
    requires Run(c, depth, stores, steps) && stores[0] == Empty && m < |stores| && x in stores[m].headers
    ensures k < m && c.hash(steps[k].entry.header) == x
    decreases m
  {
    assert StepOk(c, depth, stores[m - 1], steps[m - 1], stores[m]);
    if c.hash(steps[m - 1].entry.header) == x {
      k := m - 1;
    } else {
      k := StoredEarlier(c, depth, stores, steps, m - 1, x);
    }
  }

  /** Every step of a run from the empty store ends a chain of picked steps that goes down
      to one that is not hung: a proposed root, or a block stored ahead of its parent. */
  lemma {:induction false} EveryBlockHasItsChain(c: Consensus, depth: Hash -> nat, stores: seq<Tables>,
                                                 steps: seq<Step>, k: nat)
    returns (picks: seq<nat>)
    requires Run(c, depth, stores, steps) && stores[0] == Empty && k < |steps|
    ensures Picked(c, stores, steps, picks) && picks != [] && picks[|picks| - 1] == k
    ensures !Hung(stores, steps, picks[0])
    decreases k
  {
    if !Hung(stores, steps, k) {
      picks := [k];
      assert Linked(c, ChainOf(steps, picks));
    } else {
      var parent := StoredEarlier(c, depth, stores, steps, k, steps[k].entry.header.parentHash);
      var below := EveryBlockHasItsChain(c, depth, stores, steps, parent);
      picks := below + [k];
      OneMorePick(c, stores, steps, below, parent, k);
    }
  }

  lemma OneMorePick(c: Consensus, stores: seq<Tables>, steps: seq<Step>, below: seq<nat>, parent: nat, k: nat)
    requires |stores| == |steps| + 1 && parent < k < |steps| && Picked(c, stores, steps, below)
    requires below != [] && below[|below| - 1] == parent && Hung(stores, steps, k)
    requires c.hash(steps[parent].entry.header) == steps[k].entry.header.parentHash
    ensures Picked(c, stores, steps, below + [k])
  {
    var picks := below + [k];
    assert forall j :: 0 <= j < |below| ==> below[j] <= parent;
    assert ChainOf(steps, picks) == ChainOf(steps, below) + [steps[k].entry];
    LinkOneMore(c, ChainOf(steps, below), steps[k].entry);
  }

  lemma LinkOneMore(c: Consensus, chain: seq<Entry>, e: Entry)
    requires Linked(c, chain) && chain != [] && e.header.parentHash == c.hash(chain[|chain| - 1].header)
    ensures Linked(c, chain + [e])
  {
    var longer := chain + [e];
    forall i | 0 < i < |longer| ensures longer[i].header.parentHash == c.hash(longer[..i][i - 1].header) {
      if i < |chain| {
        assert longer[i] == chain[i] && longer[..i][i - 1] == chain[..i][i - 1];
      }
    }
  }

  /** The first of the picked steps is a proposed root, or it has no uncles. */
  lemma FirstHasNoUncles(c: Consensus, depth: Hash -> nat, stores: seq<Tables>, steps: seq<Step>, k: nat)
    requires Run(c, depth, stores, steps) && k < |steps| && !Hung(stores, steps, k) && steps[k].validated
    ensures steps[k].entry.uncles == []
  {
    assert StepOk(c, depth, stores[k], steps[k], stores[k + 1]);
    OrphanAccepted(c, stores[k], depth, steps[k].entry);
  }

  /** So in every run, with whatever uncle lists roots are proposed and proposed again, every
      stored block ends a chain; it counts each header once exactly when the list it began
      with is distinct and apart from the rest and no store forgot an uncle that it then
      accepted again, which none does if no put drops a name from a stored list; and a store
      that still has the chain's lists keeps no more work for it than that of the headers
      counted. */
  lemma RunCountsOnce(c: Consensus, depth: Hash -> nat, stores: seq<Tables>, steps: seq<Step>, k: nat, m: nat)
    returns (picks: seq<nat>)
    requires NoCollision(c) && Run(c, depth, stores, steps) && stores[0] == Empty && k < m < |stores|
    requires forall i :: 0 <= i < |steps| ==> Fits(steps[i].entry.header.difficulty)
    ensures Picked(c, stores, steps, picks) && picks != [] && picks[|picks| - 1] == k && !Hung(stores, steps, picks[0])
    ensures steps[picks[0]].validated ==> steps[picks[0]].entry.uncles == []
    ensures DistinctHashes(c, Counted(ChainOf(steps, picks)))
       <==> && DistinctHashes(c, steps[picks[0]].entry.uncles)
            && Apart(c, steps[picks[0]].entry.uncles, Judged(ChainOf(steps, picks)))
            && Remembered(c, ChainOf(steps, picks), StoresOf(stores, picks), 1)
    ensures KeepingRun(c, stores, steps) ==> Remembered(c, ChainOf(steps, picks), StoresOf(stores, picks), 1)
    ensures (forall j :: 0 <= j < |picks| ==> Holds(c, stores[m], steps[picks[j]].entry))
        ==> StoredWork(c, stores[m], ChainOf(steps, picks)) <= Difficulties(Counted(ChainOf(steps, picks)))
  {
    picks := EveryBlockHasItsChain(c, depth, stores, steps, k);
    PickedIsAccepted(c, depth, stores, steps, picks);
    CountedExactly(c, depth, ChainOf(steps, picks), StoresOf(stores, picks));
    if KeepingRun(c, stores, steps) {
      KeepingRunRemembers(c, depth, stores, steps, picks);
    }
    if steps[picks[0]].validated {
      FirstHasNoUncles(c, depth, stores, steps, picks[0]);
    }
    if forall j :: 0 <= j < |picks| ==> Holds(c, stores[m], steps[picks[j]].entry) {
      PicksWorkIsCounted(c, depth, stores, steps, picks, m);
    }
  }

  lemma PicksWorkIsCounted(c: Consensus, depth: Hash -> nat, stores: seq<Tables>, steps: seq<Step>, picks: seq<nat>,
                           m: nat)
    requires Run(c, depth, stores, steps) && Picked(c, stores, steps, picks) && m < |stores|
    requires forall i :: 0 <= i < |steps| ==> Fits(steps[i].entry.header.difficulty)
    requires forall j :: 0 <= j < |picks| ==> Holds(c, stores[m], steps[picks[j]].entry)
    ensures StoredWork(c, stores[m], ChainOf(steps, picks)) <= Difficulties(Counted(ChainOf(steps, picks)))
  {
    RunIsIndexed(c, depth, stores, steps, m);
    StoredWorkIsCounted(c, stores[m], ChainOf(steps, picks));
  }

  /** If no step replaces a stored list, every later store keeps for such a chain no more work
      than that of the headers counted. They are all different if and only if the list it
      began with is distinct and apart from the rest; if that was the list its header commits
      to, if and only if it is distinct. */
  lemma SteadyRunCountsOnce(c: Consensus, depth: Hash -> nat, stores: seq<Tables>, steps: seq<Step>, picks: seq<nat>,
                            m: nat)
    requires NoCollision(c) && Run(c, depth, stores, steps) && SteadyRun(c, stores, steps)
    requires Picked(c, stores, steps, picks) && picks != [] && picks[|picks| - 1] < m < |stores|
    requires forall i :: 0 <= i < |steps| ==> Fits(steps[i].entry.header.difficulty)
    ensures DistinctHashes(c, Counted(ChainOf(steps, picks)))
       <==> && DistinctHashes(c, steps[picks[0]].entry.uncles)
            && Apart(c, steps[picks[0]].entry.uncles, Judged(ChainOf(steps, picks)))
    ensures Acyclic(c, depth) && Nested(c, depth) && Committed(c, steps[picks[0]].entry) ==>
      (DistinctHashes(c, Counted(ChainOf(steps, picks))) <==> DistinctHashes(c, steps[picks[0]].entry.uncles))
    ensures StoredWork(c, stores[m], ChainOf(steps, picks)) <= Difficulties(Counted(ChainOf(steps, picks)))
  {
    var chain, picked := ChainOf(steps, picks), StoresOf(stores, picks);
    PickedIsAccepted(c, depth, stores, steps, picks);
    SteadyIsKeeping(c, stores, steps);
    KeepingRunRemembers(c, depth, stores, steps, picks);
    CountedExactly(c, depth, chain, picked);
    if Acyclic(c, depth) && Nested(c, depth) && Committed(c, chain[0]) {
      CountedAtMostOnce(c, depth, chain, picked);
    }
    forall j | 0 <= j < |picks| ensures Holds(c, stores[m], steps[picks[j]].entry) {
      RunHolds(c, depth, stores, steps, picks[j], m);
    }
    PicksWorkIsCounted(c, depth, stores, steps, picks, m);
  }
}
