/** Runs that can be written down in which a weight falls, or a header is counted twice; and
    a consensus that satisfies all that the theorems assume of one. */
module ForestWitness {
  import opened CountedOnce
  import opened Forest
  import opened ForestRuns
  import opened Pairing
  import opened TrunkWork
  import opened UncleReturns
  import opened U256
  import opened UncleRule

  // ── a consensus ────────────────────────────────────────────────────────────

  function HashOf(h: Header): (x: Hash)
    ensures x > h.parentHash && x > h.ommersHash
  {
    Pair(h.parentHash, Pair(h.ommersHash, Pair(h.number, Pair(h.difficulty, Pair(h.uncleCount, h.rest))))) + 1
  }

  function CommitOf(us: seq<Header>): Hash {
    if us == [] then 0 else Pair(HashOf(us[0]), CommitOf(us[1..])) + 1
  }

  const Plain: Consensus := Consensus(HashOf, CommitOf, (h: Header) => true, (h: Header, p: Header) => true)

  function Itself(x: Hash): nat { x }

  lemma HashIsInjective(a: Header, b: Header)
    requires HashOf(a) == HashOf(b)
    ensures a == b
  {
    var a1, b1 := Pair(a.uncleCount, a.rest), Pair(b.uncleCount, b.rest);
    var a2, b2 := Pair(a.difficulty, a1), Pair(b.difficulty, b1);
    var a3, b3 := Pair(a.number, a2), Pair(b.number, b2);
    PairIsInjective(a.parentHash, Pair(a.ommersHash, a3), b.parentHash, Pair(b.ommersHash, b3));
    PairIsInjective(a.ommersHash, a3, b.ommersHash, b3);
    PairIsInjective(a.number, a2, b.number, b2);
    PairIsInjective(a.difficulty, a1, b.difficulty, b1);
    PairIsInjective(a.uncleCount, a.rest, b.uncleCount, b.rest);
  }

  lemma {:induction false} CommitIsInjective(us: seq<Header>, vs: seq<Header>)
    requires CommitOf(us) == CommitOf(vs)
    ensures us == vs
    decreases |us|
  {
    if us != [] {
      PairIsInjective(HashOf(us[0]), CommitOf(us[1..]), HashOf(vs[0]), CommitOf(vs[1..]));
      HashIsInjective(us[0], vs[0]);
      CommitIsInjective(us[1..], vs[1..]);
      assert us == [us[0]] + us[1..] && vs == [vs[0]] + vs[1..];
    }
  }

  lemma {:induction false} CommitIsAbove(us: seq<Header>, u: Header)
    requires u in us
    ensures HashOf(u) < CommitOf(us)
    decreases |us|
  {
    if u != us[0] {
      CommitIsAbove(us[1..], u);
    }
  }

  /** Nothing the theorems assume of hashes and commitments is more than these satisfy. */
  lemma PlainIsConsensus()
    ensures Binding(Plain) && Acyclic(Plain, Itself) && Nested(Plain, Itself) && Lenient(Plain)
  {
    forall a: Header, b: Header | Plain.hash(a) == Plain.hash(b) ensures a == b {
      HashIsInjective(a, b);
    }
    forall us: seq<Header>, vs: seq<Header> | Plain.commit(us) == Plain.commit(vs) ensures us == vs {
      CommitIsInjective(us, vs);
    }
    forall us: seq<Header>, u: Header, h: Header | u in us && Plain.commit(us) == h.ommersHash
      ensures Itself(Plain.hash(u)) < Itself(Plain.hash(h))
    {
      CommitIsAbove(us, u);
    }
  }

  // ── a root proposed again ──────────────────────────────────────────────────

  /** A root of difficulty 10 proposed with an uncle of difficulty 5, and proposed again with
      none: its weight falls from 15 to 10. */
  lemma RootProposedAgain(c: Consensus, depth: Hash -> nat, h: Header, u: Header)
    returns (stores: seq<Tables>, steps: seq<Step>)
    requires Acyclic(c, depth) && h.difficulty == 10 && u.difficulty == 5
    ensures OpenRun(c, stores, steps) && |steps| == 2 && forall i :: 0 <= i < 2 ==> !steps[i].validated
    ensures Weight(stores[1], c.hash(h)) == 15 && Weight(stores[2], c.hash(h)) == 10
  {
    var x := c.hash(h);
    var first, second := Entry(h, [u]), Entry(h, []);
    var t1 := PutEntry(c, Empty, first).(roots := {x});
    var t2 := PutEntry(c, t1, second).(roots := {x});
    stores, steps := [Empty, t1, t2], [Step(first, false), Step(second, false)];
    assert Puts(c, stores[0], steps[0], stores[1]) && Puts(c, stores[1], steps[1], stores[2]);
    assert [u][..0] == [] && CumulativeDifficulty(10, [u]) == 15;
    AloneWeighs(t1, x);
    AloneWeighs(t2, x);
  }

  /** A block without children weighs its own work. */
  lemma AloneWeighs(t: Tables, x: Hash)
    requires ChildrenOf(t, x) == []
    ensures Weight(t, x) == Min(WorkOf(t, x), MAX)
  {
    ReachesSelf(t, x);
    forall y | Reaches(t, x, y) ensures y == x {
      var path :| IsPath(t, path) && path[0] == x && path[|path| - 1] == y;
      ClosedHoldsPath(t, {x}, path);
    }
    assert Subtree(t, x) == {x};
    WorkWithout(t, {x}, x);
    assert {x} - {x} == {};
  }

  // ── an uncle counted twice ─────────────────────────────────────────────────

  /** A root proposed with one uncle twice, committed to as such: the run stores it, and its
      stored work has that uncle's difficulty twice. */
  lemma UncleCountedTwice(c: Consensus, depth: Hash -> nat, h: Header, u: Header)
    returns (stores: seq<Tables>, steps: seq<Step>)
    requires Acyclic(c, depth) && h.ommersHash == c.commit([u, u]) && h.difficulty == 10 && u.difficulty == 5
    ensures Run(c, depth, stores, steps) && stores[0] == Empty && |steps| == 1 && Committed(c, steps[0].entry)
    ensures !DistinctHashes(c, Counted([steps[0].entry]))
    ensures StoredWork(c, stores[1], [steps[0].entry]) == 20
  {
    var e := Entry(h, [u, u]);
    var t := PutEntry(c, Empty, e).(roots := {c.hash(h)});
    stores, steps := [Empty, t], [Step(e, false)];
    EmptyIsIndexed(c);
    assert StepOk(c, depth, stores[0], steps[0], stores[1]);
    var counted := Counted([e]);
    assert counted == [u, u] + [h];
    assert c.hash(counted[0]) == c.hash(counted[1]);
    assert [u, u][..1] == [u] && [u][..0] == [] && CumulativeDifficulty(10, [u]) == 15;
    assert [e][..0] == [] && StoredWork(c, t, [e][..0]) == 0;
  }

  /** A block without uncles on top of a stored root is accepted. */
  lemma ChildAccepted(c: Consensus, depth: Hash -> nat, t: Tables, h: Header, child: Entry)
    requires Grounded(AncestryOf(t), depth) && t.headers == map[c.hash(h) := h]
    requires Bare(c, child) && child.header.parentHash == c.hash(h) && ParentRules(c, child.header, h)
    ensures ValidateEntry(c, t, depth, child).None?
  {
    ListExact(c, AncestryOf(t), depth, child.header, []);
  }

  /** A root of difficulty 10 proposed with an uncle list that is not the one its header
      commits to: it names a block of difficulty 5 that comes on top of the root. That block
      is accepted, and the work kept for the two is 20. */
  lemma UncleOnTop(c: Consensus, depth: Hash -> nat, h: Header, child: Entry)
    returns (stores: seq<Tables>, steps: seq<Step>, chain: seq<Entry>)
    requires Acyclic(c, depth) && h.difficulty == 10 && child.header.difficulty == 5
    requires Bare(c, child) && child.header.parentHash == c.hash(h) && ParentRules(c, child.header, h)
    ensures Run(c, depth, stores, steps) && stores[0] == Empty && |chain| == 2
            && steps == [Step(chain[0], false), Step(chain[1], true)]
    ensures AcceptedChain(c, depth, chain, stores[..2])
    ensures DistinctHashes(c, chain[0].uncles) && !Apart(c, chain[0].uncles, Judged(chain))
    ensures !DistinctHashes(c, Counted(chain))
    ensures StoredWork(c, stores[2], chain) == 20
  {
    var root := Entry(h, [child.header]);
    var t1 := PutEntry(c, Empty, root).(roots := {c.hash(h)});
    var t2 := PutEntry(c, t1, child);
    chain := [root, child];
    stores, steps := [Empty, t1, t2], [Step(root, false), Step(child, true)];
    ChildAccepted(c, depth, t1, h, child);
    EmptyIsIndexed(c);
    RunOfTwo(c, depth, Empty, steps[0], t1, steps[1], t2);
    assert stores[..2] == [Empty, t1];
    assert chain[..1] == [root] && Linked(c, chain);
    assert AcceptedOver(c, depth, t1, chain, 1);
    SharedWithChild(c, root, child);
    assert depth(c.hash(h)) < depth(c.hash(child.header));
    assert [child.header][..0] == [] && CumulativeDifficulty(10, [child.header]) == 15;
    assert StoredWork(c, t2, [root]) == 15 by {
      assert [root][..0] == [];
    }
  }

  lemma SharedWithChild(c: Consensus, root: Entry, child: Entry)
    requires root.uncles == [child.header] && child.uncles == []
    ensures !Apart(c, root.uncles, Judged([root, child])) && !DistinctHashes(c, Counted([root, child]))
  {
    assert [root, child][..1] == [root];
    assert Judged([root, child]) == [root.header, child.header];
    var counted := Counted([root, child]);
    assert counted == [child.header, root.header, child.header];
    assert c.hash(counted[0]) == c.hash(counted[2]);
    assert c.hash(root.uncles[0]) == c.hash(Judged([root, child])[1]);
  }
}
