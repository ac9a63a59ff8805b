/** The GHOST weight against the headers it stands for: a subtree's weight is never less than
    the difficulty of all the headers in it, blocks and uncles, and equals it exactly when none
    is named twice. */
module WeightOnce {
  import opened CountedOnce
  import opened Forest
  import opened ForestRuns
  import opened TrunkWork
  import opened U256
  import opened UncleReturns
  import opened UncleRule

  /** The difficulty behind each hash. */
  ghost predicate Prices(c: Consensus, d: Hash -> nat) {
    forall h: Header {:trigger c.hash(h)} :: d(c.hash(h)) == h.difficulty
  }

  function ListOf(t: Tables, x: Hash): seq<Header> { UnclesOf(AncestryOf(t), x) }

  /** The block's hash and its uncles'. */
  function NamedBy(c: Consensus, t: Tables, x: Hash): set<Hash> { {x} + HashesOf(c, ListOf(t, x)) }

  function Named(c: Consensus, t: Tables, s: set<Hash>): set<Hash> {
    set x, y | x in s && y in NamedBy(c, t, x) :: y
  }

  /** No header is named twice: by one block, or by two. */
  predicate NamedOnce(c: Consensus, t: Tables, s: set<Hash>) {
    && (forall x :: x in s ==> OwnNamesOnce(c, t, x))
    && (forall x, y :: x in s && y in s && x != y ==> NamedBy(c, t, x) !! NamedBy(c, t, y))
  }

  predicate OwnNamesOnce(c: Consensus, t: Tables, x: Hash) {
    DistinctHashes(c, ListOf(t, x)) && x !in HashesOf(c, ListOf(t, x))
  }

  // ── sums over sets ─────────────────────────────────────────────────────────

  ghost function Total(d: Hash -> nat, s: set<Hash>): nat
    decreases |s|
  {
    if s == {} then 0
    else
      var x :| x in s;
      d(x) + Total(d, s - {x})
  }

  lemma {:induction false} TotalWithout(d: Hash -> nat, s: set<Hash>, x: Hash)
    requires x in s
    ensures Total(d, s) == d(x) + Total(d, s - {x})
    decreases |s|
  {
    var y :| y in s && Total(d, s) == d(y) + Total(d, s - {y});
    if y != x {
      TotalWithout(d, s - {y}, x);
      TotalWithout(d, s - {x}, y);
      assert s - {y} - {x} == s - {x} - {y};
    }
  }

  lemma {:induction false} TotalOfBoth(d: Hash -> nat, a: set<Hash>, b: set<Hash>)
    ensures Total(d, a + b) + Total(d, a * b) == Total(d, a) + Total(d, b)
    decreases |b|
  {
    if b == {} {
      assert a + b == a && a * b == b;
    } else {
      var x :| x in b;
      TotalOfBoth(d, a, b - {x});
      TotalWithout(d, b, x);
      OneMoreOfBoth(d, a, b, x);
    }
  }

  lemma OneMoreOfBoth(d: Hash -> nat, a: set<Hash>, b: set<Hash>, x: Hash)
    requires x in b
    ensures Total(d, a + b) + Total(d, a * b) == d(x) + Total(d, a + (b - {x})) + Total(d, a * (b - {x}))
  {
    var b' := b - {x};
    if x in a {
      assert a + b == a + b' && a * b - {x} == a * b';
      TotalWithout(d, a * b, x);
    } else {
      assert a + b - {x} == a + b' && a * b == a * b';
      TotalWithout(d, a + b, x);
    }
  }

  lemma TotalIsPositive(d: Hash -> nat, s: set<Hash>)
    requires forall x :: x in s ==> d(x) > 0
    ensures Total(d, s) == 0 <==> s == {}
  {
    if s != {} {
      var x :| x in s;
      TotalWithout(d, s, x);
    }
  }

  // ── one block ──────────────────────────────────────────────────────────────

  lemma HashesOfMore(c: Consensus, us: seq<Header>, u: Header)
    ensures HashesOf(c, us + [u]) == HashesOf(c, us) + {c.hash(u)}
    ensures DistinctHashes(c, us + [u]) <==> DistinctHashes(c, us) && c.hash(u) !in HashesOf(c, us)
  {
    var all := us + [u];
    assert forall h :: h in all <==> h in us || h == u;
    if DistinctHashes(c, all) {
      forall i, j | 0 <= i < j < |us| ensures c.hash(us[i]) != c.hash(us[j]) {
        assert all[i] == us[i] && all[j] == us[j];
      }
      forall h | h in us ensures c.hash(h) != c.hash(u) {
        var i :| 0 <= i < |us| && us[i] == h;
        assert all[i] == h && all[|us|] == u;
      }
    }
  }

  /** A list's difficulties add up to at least those of the different headers on it. */
  lemma {:induction false} ListCounts(c: Consensus, d: Hash -> nat, us: seq<Header>)
    requires Prices(c, d) && forall u :: u in us ==> u.difficulty > 0
    ensures Total(d, HashesOf(c, us)) <= Difficulties(us)
    ensures Total(d, HashesOf(c, us)) == Difficulties(us) <==> DistinctHashes(c, us)
    decreases |us|
  {
    if us == [] {
      assert HashesOf(c, us) == {};
    } else {
      var below, u := us[..|us| - 1], us[|us| - 1];
      assert us == below + [u];
      ListCounts(c, d, below);
      HashesOfMore(c, below, u);
      var a, x := HashesOf(c, below), c.hash(u);
      if x in a {
        assert a + {x} == a;
      } else {
        assert a + {x} - {x} == a;
        TotalWithout(d, a + {x}, x);
      }
    }
  }

  /** And so does a block's work. */
  lemma BlockCounts(c: Consensus, d: Hash -> nat, t: Tables, x: Hash)
    requires Prices(c, d) && Indexed(c, t) && x in t.headers && Unsaturated(Entry(t.headers[x], ListOf(t, x)))
    requires forall y :: y in NamedBy(c, t, x) ==> d(y) > 0
    ensures Total(d, NamedBy(c, t, x)) <= WorkOf(t, x)
    ensures Total(d, NamedBy(c, t, x)) == WorkOf(t, x) <==> OwnNamesOnce(c, t, x)
  {
    var us := ListOf(t, x);
    forall u | u in us ensures u.difficulty > 0 {
      assert c.hash(u) in NamedBy(c, t, x);
    }
    ListCounts(c, d, us);
    CumulativeIsSum(t.headers[x].difficulty, us);
    assert d(c.hash(t.headers[x])) == t.headers[x].difficulty;
    var named := HashesOf(c, us);
    if x in named {
      assert {x} + named == named;
    } else {
      assert {x} + named - {x} == named;
      TotalWithout(d, {x} + named, x);
    }
  }

  // ── a set of blocks ────────────────────────────────────────────────────────

  lemma NamedOfMore(c: Consensus, t: Tables, s: set<Hash>, x: Hash)
    requires x in s
    ensures Named(c, t, s) == Named(c, t, s - {x}) + NamedBy(c, t, x)
    ensures NamedOnce(c, t, s)
       <==> NamedOnce(c, t, s - {x}) && OwnNamesOnce(c, t, x) && Named(c, t, s - {x}) * NamedBy(c, t, x) == {}
  {
    var rest := s - {x};
    assert forall y :: y in s <==> y in rest || y == x;
    if NamedOnce(c, t, s) {
      forall z | z in Named(c, t, rest) ensures z !in NamedBy(c, t, x) {
        var y :| y in rest && z in NamedBy(c, t, y);
        assert NamedBy(c, t, x) !! NamedBy(c, t, y);
      }
    } else if NamedOnce(c, t, rest) && OwnNamesOnce(c, t, x) && Named(c, t, rest) * NamedBy(c, t, x) == {} {
      forall y | y in rest ensures NamedBy(c, t, x) !! NamedBy(c, t, y) {
        forall z | z in NamedBy(c, t, x) ensures z !in NamedBy(c, t, y) {
          assert z in NamedBy(c, t, y) ==> z in Named(c, t, rest) * NamedBy(c, t, x);
        }
      }
    }
  }

  /** The blocks of a set are stored, their own sums do not saturate, and every header they
      name has some difficulty. */
  ghost predicate Sizeable(c: Consensus, d: Hash -> nat, t: Tables, s: set<Hash>) {
    && (forall x :: x in s ==> x in t.headers && Unsaturated(Entry(t.headers[x], ListOf(t, x))))
    && (forall y :: y in Named(c, t, s) ==> d(y) > 0)
  }

  /** The work of a set of blocks is at least the difficulty of the different headers they
      name, and equals it exactly when none is named twice. */
  lemma {:induction false} WorkCounts(c: Consensus, d: Hash -> nat, t: Tables, s: set<Hash>)
    requires Prices(c, d) && Indexed(c, t) && Sizeable(c, d, t, s)
    ensures Total(d, Named(c, t, s)) <= WorkIn(t, s)
    ensures Total(d, Named(c, t, s)) == WorkIn(t, s) <==> NamedOnce(c, t, s)
    decreases |s|
  {
    if s == {} {
      assert Named(c, t, s) == {};
    } else {
      var x :| x in s;
      var rest := s - {x};
      NamedOfMore(c, t, s, x);
      WorkCounts(c, d, t, rest);
      BlockCounts(c, d, t, x);
      WorkWithout(t, s, x);
      TotalOfBoth(d, Named(c, t, rest), NamedBy(c, t, x));
      TotalIsPositive(d, Named(c, t, rest) * NamedBy(c, t, x));
    }
  }

  // ── a subtree ──────────────────────────────────────────────────────────────

  lemma {:induction false} PutStaysKnown(c: Consensus, stores: seq<Tables>, steps: seq<Step>, k: nat, m: nat)
    requires OpenRun(c, stores, steps) && k < m < |stores|
    ensures c.hash(steps[k].entry.header) in stores[m].headers
    decreases m
  {
    assert Puts(c, stores[m - 1], steps[m - 1], stores[m]);
    if k < m - 1 {
      PutStaysKnown(c, stores, steps, k, m - 1);
    }
  }

  /** Everything under a stored root is stored. */
  lemma SubtreeIsStored(c: Consensus, stores: seq<Tables>, steps: seq<Step>, m: nat, root: Hash)
    requires OpenRun(c, stores, steps) && m < |stores| && root in stores[m].headers
    ensures Subtree(stores[m], root) <= stores[m].headers.Keys
  {
    forall x | x in Subtree(stores[m], root) ensures x in stores[m].headers {
      if x != root {
        var y := ReachedByEdge(stores[m], root, x);
        EdgesExactly(c, stores, steps, m, y, x);
        var k: nat :| k < m && Hangs(c, stores, steps, k, y, x);
        PutStaysKnown(c, stores, steps, k, m);
      }
    }
  }

  /** So in every store of any run, the weight of a root's subtree, while it fits, is at least
      the difficulty of the different headers in it, blocks and uncles, and equals it if and
      only if no header is named twice there. */
  lemma WeightCounts(c: Consensus, d: Hash -> nat, stores: seq<Tables>, steps: seq<Step>, m: nat, root: Hash)
    requires Prices(c, d) && OpenRun(c, stores, steps) && m < |stores| && root in stores[m].headers
    requires Fits(WorkIn(stores[m], Subtree(stores[m], root)))
    requires forall x :: x in Subtree(stores[m], root) && x in stores[m].headers ==>
               Unsaturated(Entry(stores[m].headers[x], ListOf(stores[m], x)))
    requires forall y :: y in Named(c, stores[m], Subtree(stores[m], root)) ==> d(y) > 0
    ensures Total(d, Named(c, stores[m], Subtree(stores[m], root))) <= Weight(stores[m], root)
    ensures Total(d, Named(c, stores[m], Subtree(stores[m], root))) == Weight(stores[m], root)
       <==> NamedOnce(c, stores[m], Subtree(stores[m], root))
  {
    OpenRunIsIndexed(c, stores, steps, m);
    SubtreeIsStored(c, stores, steps, m, root);
    WorkCounts(c, d, stores[m], Subtree(stores[m], root));
  }

  // ── an uncle that is stored ────────────────────────────────────────────────

  lemma EdgeStays(c: Consensus, t: Tables, e: Entry, x: Hash, y: Hash)
    requires Edge(t, x, y)
    ensures Edge(PutEntry(c, t, e), x, y)
  {
    PutEdges(c, t, e, x, y);
  }

  lemma UncleThenBlock(c: Consensus, depth: Hash -> nat, f: Family, t2: Tables) returns (t3: Tables, t4: Tables)
    requires Acyclic(c, depth) && Lenient(c) && Kin(c, f) && Separate(c, f) && Indexed(c, t2) && HasBoth(c, f, t2)
    requires Edge(t2, c.hash(f.r), c.hash(f.x))
    ensures StepOk(c, depth, t2, Step(Entry(f.v, []), true), t3)
    ensures StepOk(c, depth, t3, Step(Entry(f.a, [f.v]), true), t4)
    ensures Edge(t4, c.hash(f.r), c.hash(f.x)) && Edge(t4, c.hash(f.r), c.hash(f.v))
            && Edge(t4, c.hash(f.x), c.hash(f.a))
    ensures ListOf(t4, c.hash(f.a)) == [f.v]
  {
    IndexedIsGrounded(c, t2, depth);
    PlainAccepted(c, t2, depth, f.r, 2);
    t3 := PutEntry(c, t2, Entry(f.v, []));
    PutHas(c, t2, Entry(f.v, []));
    PutEdges(c, t2, Entry(f.v, []), c.hash(f.r), c.hash(f.v));
    EdgeStays(c, t2, Entry(f.v, []), c.hash(f.r), c.hash(f.x));
    LowerAccepted(c, depth, f, t3);
    t4 := PutEntry(c, t3, Entry(f.a, [f.v]));
    PutEdges(c, t3, Entry(f.a, [f.v]), c.hash(f.x), c.hash(f.a));
    EdgeStays(c, t3, Entry(f.a, [f.v]), c.hash(f.r), c.hash(f.x));
    EdgeStays(c, t3, Entry(f.a, [f.v]), c.hash(f.r), c.hash(f.v));
  }

  lemma BothUnderRoot(c: Consensus, f: Family, t: Tables)
    requires Separate(c, f) && ListOf(t, c.hash(f.a)) == [f.v]
    requires Edge(t, c.hash(f.r), c.hash(f.x)) && Edge(t, c.hash(f.r), c.hash(f.v)) && Edge(t, c.hash(f.x), c.hash(f.a))
    ensures c.hash(f.v) in Subtree(t, c.hash(f.r)) && c.hash(f.a) in Subtree(t, c.hash(f.r))
    ensures !NamedOnce(c, t, Subtree(t, c.hash(f.r)))
  {
    var r, x, a, v := c.hash(f.r), c.hash(f.x), c.hash(f.a), c.hash(f.v);
    ReachesSelf(t, r);
    ReachesChild(t, r, r, x);
    ReachesChild(t, r, r, v);
    ReachesChild(t, r, x, a);
    assert v in NamedBy(c, t, v) && v in NamedBy(c, t, a) by {
      assert f.v in ListOf(t, a);
    }
  }

  /** The uncle of `a` is stored as a block first, on the same root; `a` is still accepted,
      and in the root's subtree the uncle is named twice. */
  lemma StoredUncleIsNamedTwice(c: Consensus, depth: Hash -> nat, f: Family)
    returns (stores: seq<Tables>, steps: seq<Step>)
    requires NoCollision(c) && Acyclic(c, depth) && Lenient(c) && Kin(c, f)
    ensures Run(c, depth, stores, steps) && stores[0] == Empty
    ensures steps == [Step(Entry(f.r, []), false), Step(Entry(f.x, []), true)]
                   + [Step(Entry(f.v, []), true), Step(Entry(f.a, [f.v]), true)]
    ensures c.hash(f.v) in Subtree(stores[4], c.hash(f.r)) && c.hash(f.a) in Subtree(stores[4], c.hash(f.r))
    ensures !NamedOnce(c, stores[4], Subtree(stores[4], c.hash(f.r)))
  {
    KinAreSeparate(c, depth, f);
    var t1, t2 := RootAndBlock(c, depth, f);
    var t3, t4 := UncleThenBlock(c, depth, f, t2);
    EmptyIsIndexed(c);
    var root, first := Step(Entry(f.r, []), false), Step(Entry(f.x, []), true);
    var uncle, second := Step(Entry(f.v, []), true), Step(Entry(f.a, [f.v]), true);
    RunOfTwo(c, depth, Empty, root, t1, first, t2);
    RunOfTwo(c, depth, t2, uncle, t3, second, t4);
    RunsJoin(c, depth, [Empty, t1, t2], [root, first], [t2, t3, t4], [uncle, second]);
    stores := [Empty, t1, t2] + [t2, t3, t4][1..];
    steps := [root, first] + [uncle, second];
    BothUnderRoot(c, f, t4);
  }
}
