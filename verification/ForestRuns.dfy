/** Runs in which anything may be stored, as proposed roots are, with whatever uncle list:
    which edges there are, what is under a hash, and when a weight falls. */
module ForestRuns {
  import opened CountedOnce
  import opened Forest
  import opened U256
  import opened UncleRule

  /** Blocks stored one after the other from the empty store, none of them looked at. */
  predicate OpenRun(c: Consensus, stores: seq<Tables>, steps: seq<Step>) {
    && |stores| == |steps| + 1
    && stores[0] == Empty
    && forall i {:trigger steps[i]} :: 0 <= i < |steps| ==> Puts(c, stores[i], steps[i], stores[i + 1])
  }

  predicate Puts(c: Consensus, t: Tables, s: Step, t': Tables) {
    t' == PutEntry(c, t, s.entry).(roots := t'.roots)
  }

  lemma {:induction false} OpenRunIsIndexed(c: Consensus, stores: seq<Tables>, steps: seq<Step>, m: nat)
    requires OpenRun(c, stores, steps) && m < |stores|
    ensures Indexed(c, stores[m])
  {
    if m > 0 {
      OpenRunIsIndexed(c, stores, steps, m - 1);
      assert Puts(c, stores[m - 1], steps[m - 1], stores[m]);
      PutIsIndexed(c, stores[m - 1], steps[m - 1].entry);
    }
  }

  /** Under a hash is what the last step that put it carried. */
  lemma {:induction false} LastPutHolds(c: Consensus, stores: seq<Tables>, steps: seq<Step>, k: nat, m: nat)
    requires OpenRun(c, stores, steps) && k < m < |stores|
    requires forall j :: k < j < m ==> c.hash(steps[j].entry.header) != c.hash(steps[k].entry.header)
    ensures Holds(c, stores[m], steps[k].entry)
    ensures stores[m].headers[c.hash(steps[k].entry.header)] == steps[k].entry.header
    ensures var e := steps[k].entry;
            WorkOf(stores[m], c.hash(e.header)) == CumulativeDifficulty(e.header.difficulty, e.uncles)
    decreases m
  {
    assert Puts(c, stores[m - 1], steps[m - 1], stores[m]);
    if k < m - 1 {
      LastPutHolds(c, stores, steps, k, m - 1);
    }
  }

  // ── edges ──────────────────────────────────────────────────────────────────

  /** Step `k` put `x` under `p`, which was stored (or is `x` itself). */
  predicate Hangs(c: Consensus, stores: seq<Tables>, steps: seq<Step>, k: nat, p: Hash, x: Hash)
    requires |stores| == |steps| + 1
  {
    && k < |steps| && c.hash(steps[k].entry.header) == x && steps[k].entry.header.parentHash == p
    && (p in stores[k].blocks || p == x)
  }

  lemma PutEdges(c: Consensus, t: Tables, e: Entry, p: Hash, x: Hash)
    ensures Edge(PutEntry(c, t, e), p, x)
       <==> || Edge(t, p, x)
            || (c.hash(e.header) == x && e.header.parentHash == p && (p in t.blocks || p == x))
  {
  }

  /** The edges of a store are exactly those a block was put with while its parent was
      stored. */
  lemma {:induction false} EdgesExactly(c: Consensus, stores: seq<Tables>, steps: seq<Step>, m: nat, p: Hash, x: Hash)
    requires OpenRun(c, stores, steps) && m < |stores|
    ensures Edge(stores[m], p, x) <==> exists k: nat :: k < m && Hangs(c, stores, steps, k, p, x)
    decreases m
  {
    if m > 0 {
      EdgesExactly(c, stores, steps, m - 1, p, x);
      assert Puts(c, stores[m - 1], steps[m - 1], stores[m]);
      PutEdges(c, stores[m - 1], steps[m - 1].entry, p, x);
      if Edge(stores[m], p, x) && !Edge(stores[m - 1], p, x) {
        assert Hangs(c, stores, steps, m - 1, p, x);
      }
    }
  }

  /** What is reached below a block is reached over an edge into it. */
  lemma ReachedByEdge(t: Tables, root: Hash, x: Hash) returns (y: Hash)
    requires Reaches(t, root, x) && x != root
    ensures Edge(t, y, x)
  {
    var path :| IsPath(t, path) && path[0] == root && path[|path| - 1] == x;
    var n := |path| - 1;
    y := path[..n][n - 1];
    assert Edge(t, path[..n][n - 1], path[n]);
  }

  /** A block weighs in its parent's subtree if and only if it was put, or put again, while
      the parent was stored. */
  lemma WeighedUnderParent(c: Consensus, stores: seq<Tables>, steps: seq<Step>, m: nat, h: Header)
    requires OpenRun(c, stores, steps) && m < |stores| && NoCollision(c) && h.parentHash != c.hash(h)
    ensures c.hash(h) in Subtree(stores[m], h.parentHash)
       <==> exists k: nat :: k < m && Hangs(c, stores, steps, k, h.parentHash, c.hash(h))
  {
    var t, p, x := stores[m], h.parentHash, c.hash(h);
    EdgesExactly(c, stores, steps, m, p, x);
    ReachesSelf(t, p);
    if Edge(t, p, x) {
      ReachesChild(t, p, p, x);
    }
    if x in Subtree(t, p) {
      var y := ReachedByEdge(t, p, x);
      EdgesExactly(c, stores, steps, m, y, x);
      var k: nat :| k < m && Hangs(c, stores, steps, k, y, x);
      assert Alike(steps[k].entry.header, h);
    }
  }

  /** A block without uncles that passes the rules for a header on its own. */
  predicate Bare(c: Consensus, e: Entry) {
    e.uncles == [] && e.header.uncleCount == 0 && c.commit([]) == e.header.ommersHash && c.staticOk(e.header)
  }

  lemma EmptyIsIndexed(c: Consensus)
    ensures Indexed(c, Empty)
  {
  }

  /** Such a block and its parent, in the wrong order, go through as a batch, and the block
      stays out of the parent's subtree: there the missing parent is not noticed. */
  lemma OrphanIsNotWeighed(c: Consensus, depth: Hash -> nat, child: Entry, parent: Entry)
    requires Acyclic(c, depth) && Bare(c, child) && Bare(c, parent)
    requires child.header.parentHash == c.hash(parent.header)
    ensures var t := StoreBatch(c, Empty, depth, [child, parent]);
      && t.Some? && c.hash(child.header) in t.value.blocks && c.hash(parent.header) in t.value.blocks
      && c.hash(child.header) !in Subtree(t.value, c.hash(parent.header))
  {
    var t1 := PutEntry(c, Empty, child);
    EmptyIsIndexed(c);
    IndexedIsGrounded(c, Empty, depth);
    OrphanAccepted(c, Empty, depth, child);
    PutIsIndexed(c, Empty, child);
    IndexedIsGrounded(c, t1, depth);
    assert depth(parent.header.parentHash) < depth(c.hash(parent.header)) < depth(c.hash(child.header));
    OrphanAccepted(c, t1, depth, parent);
    var t2 := PutEntry(c, t1, parent);
    assert [child, parent][1..] == [parent] && [parent][1..] == [];
    assert StoreBatch(c, t1, depth, [parent]) == StoreBatch(c, t2, depth, []);
    StoredAheadIsNotWeighed(c, Empty, child, parent);
  }

  // ── weights ────────────────────────────────────────────────────────────────

  /** Edges lead to deeper hashes. */
  ghost predicate EdgesRise(t: Tables, depth: Hash -> nat) {
    forall x, y :: Edge(t, x, y) ==> depth(x) < depth(y)
  }

  lemma {:induction false} EdgesRiseInRuns(c: Consensus, depth: Hash -> nat, stores: seq<Tables>, steps: seq<Step>,
                                           m: nat)
    requires Acyclic(c, depth) && OpenRun(c, stores, steps) && m < |stores|
    ensures EdgesRise(stores[m], depth)
  {
    forall x, y | Edge(stores[m], x, y) ensures depth(x) < depth(y) {
      EdgesExactly(c, stores, steps, m, x, y);
    }
  }

  lemma {:induction false} PathRises(t: Tables, depth: Hash -> nat, path: seq<Hash>, i: nat)
    requires EdgesRise(t, depth) && IsPath(t, path) && i < |path|
    ensures depth(path[0]) <= depth(path[i])
  {
    if i > 0 {
      PathRises(t, depth, path, i - 1);
      assert Edge(t, path[..i][i - 1], path[i]);
    }
  }

  /** Putting a block again does not change what is under it. */
  lemma SubtreeStays(c: Consensus, depth: Hash -> nat, t: Tables, e: Entry)
    requires Acyclic(c, depth) && EdgesRise(t, depth)
    ensures Subtree(PutEntry(c, t, e), c.hash(e.header)) == Subtree(t, c.hash(e.header))
  {
    var t', x := PutEntry(c, t, e), c.hash(e.header);
    forall y, z ensures Edge(t', y, z) ==> Edge(t, y, z) || (y == e.header.parentHash && z == x) {
      PutEdges(c, t, e, y, z);
    }
    forall y, z | Edge(t, y, z) ensures Edge(t', y, z) {
      PutEdges(c, t, e, y, z);
    }
    assert EdgesRise(t', depth);
    SubtreeGrows(t, t', x);
    forall y | y in Subtree(t', x) ensures y in Subtree(t, x) {
      var path :| IsPath(t', path) && path[0] == x && path[|path| - 1] == y;
      PathStays(c, depth, t, e, path);
    }
  }

  lemma PathStays(c: Consensus, depth: Hash -> nat, t: Tables, e: Entry, path: seq<Hash>)
    requires Acyclic(c, depth) && EdgesRise(PutEntry(c, t, e), depth)
    requires IsPath(PutEntry(c, t, e), path) && path[0] == c.hash(e.header)
    ensures path[|path| - 1] in Subtree(t, c.hash(e.header))
  {
    var t', x := PutEntry(c, t, e), c.hash(e.header);
    forall i | 0 < i < |path| ensures Edge(t, path[..i][i - 1], path[i]) {
      PathRises(t', depth, path, i - 1);
      assert Edge(t', path[..i][i - 1], path[i]);
      PutEdges(c, t, e, path[i - 1], path[i]);
    }
    assert IsPath(t, path) && Reaches(t, x, path[|path| - 1]);
    if |path| > 1 {
      var n := |path| - 1;
      assert Edge(t, path[..n][n - 1], path[n]);
    }
  }

  lemma {:induction false} SameWork(a: Tables, b: Tables, s: set<Hash>)
    requires forall x :: x in s ==> WorkOf(a, x) == WorkOf(b, x)
    ensures WorkIn(a, s) == WorkIn(b, s)
    decreases |s|
  {
    if s != {} {
      var x :| x in s;
      WorkWithout(a, s, x);
      WorkWithout(b, s, x);
      SameWork(a, b, s - {x});
    }
  }

  /** Putting a block lowers no weight if and only if the block is not stored yet or is
      stored with no more work than it comes with; the sum below it must fit. */
  lemma PutKeepsWeights(c: Consensus, depth: Hash -> nat, t: Tables, e: Entry)
    requires Acyclic(c, depth) && EdgesRise(t, depth) && Fits(WorkIn(t, Subtree(t, c.hash(e.header))))
    ensures (forall root :: Weight(t, root) <= Weight(PutEntry(c, t, e), root))
       <==> WorkOf(t, c.hash(e.header)) <= CumulativeDifficulty(e.header.difficulty, e.uncles)
  {
    var t', x := PutEntry(c, t, e), c.hash(e.header);
    var work := CumulativeDifficulty(e.header.difficulty, e.uncles);
    if WorkOf(t, x) <= work {
      forall y, z | Edge(t, y, z) ensures Edge(t', y, z) {
        PutEdges(c, t, e, y, z);
      }
      forall root ensures Weight(t, root) <= Weight(t', root) {
        WeightRises(t, t', root);
      }
    } else {
      WeightFalls(c, depth, t, e);
    }
  }

  /** And then it is the block's own that falls. */
  lemma WeightFalls(c: Consensus, depth: Hash -> nat, t: Tables, e: Entry)
    requires Acyclic(c, depth) && EdgesRise(t, depth) && Fits(WorkIn(t, Subtree(t, c.hash(e.header))))
    requires WorkOf(t, c.hash(e.header)) > CumulativeDifficulty(e.header.difficulty, e.uncles)
    ensures Weight(PutEntry(c, t, e), c.hash(e.header)) < Weight(t, c.hash(e.header))
  {
    var t', x := PutEntry(c, t, e), c.hash(e.header);
    var s := Subtree(t, x);
    SubtreeStays(c, depth, t, e);
    ReachesSelf(t, x);
    WorkWithout(t, s, x);
    WorkWithout(t', s, x);
    SameWork(t, t', s - {x});
  }

  lemma RootsDoNotWeigh(t: Tables, roots: set<Hash>, root: Hash)
    ensures Weight(t.(roots := roots), root) == Weight(t, root)
  {
    WeightIgnoresOrder(t, t.(roots := roots), root);
  }

  /** So over any run, with whatever uncle lists roots are proposed again, a step lowers no
      weight if and only if it puts no stored block with less work than it has. */
  lemma StepKeepsWeights(c: Consensus, depth: Hash -> nat, stores: seq<Tables>, steps: seq<Step>, i: nat)
    requires Acyclic(c, depth) && OpenRun(c, stores, steps) && i < |steps|
    requires Fits(WorkIn(stores[i], Subtree(stores[i], c.hash(steps[i].entry.header))))
    ensures var e := steps[i].entry;
      (forall root :: Weight(stores[i], root) <= Weight(stores[i + 1], root))
      <==> WorkOf(stores[i], c.hash(e.header)) <= CumulativeDifficulty(e.header.difficulty, e.uncles)
  {
    var e := steps[i].entry;
    EdgesRiseInRuns(c, depth, stores, steps, i);
    PutKeepsWeights(c, depth, stores[i], e);
    assert Puts(c, stores[i], steps[i], stores[i + 1]);
    forall root ensures Weight(stores[i + 1], root) == Weight(PutEntry(c, stores[i], e), root) {
      RootsDoNotWeigh(PutEntry(c, stores[i], e), stores[i + 1].roots, root);
    }
  }
}
