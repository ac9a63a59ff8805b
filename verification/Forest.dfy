/** The Rootstock header forest: storing blocks, the GHOST weight of a subtree, and the
    checkpoint chosen by it. */
module Forest {
  import opened U256
  import opened UncleRule
  import opened Wrappers

  /** A block's number, its parent and its own work. */
  datatype Block = Block(number: nat, parent: Hash, work: nat)

  datatype Tables = Tables(
    headers: map<Hash, Header>,
    blocks: map<Hash, Block>,
    children: map<Hash, seq<Hash>>,
    uncles: map<Hash, seq<Header>>,
    roots: set<Hash>)

  const Empty: Tables := Tables(map[], map[], map[], map[], {})

  /** A header and the uncles it references. */
  datatype Entry = Entry(header: Header, uncles: seq<Header>)

  function AncestryOf(t: Tables): Ancestry { Ancestry(t.headers, t.uncles) }

  /** Difficulty plus that of the included uncles, saturating at each addition. */
  function CumulativeDifficulty(own: nat, uncles: seq<Header>): nat {
    if uncles == [] then own
    else SatAdd(CumulativeDifficulty(own, uncles[..|uncles| - 1]), uncles[|uncles| - 1].difficulty)
  }

  function ChildrenOf(t: Tables, hash: Hash): seq<Hash> {
    if hash in t.children then t.children[hash] else []
  }

  /** Store an entry; hang it under its parent if that is stored. */
  function PutEntry(c: Consensus, t: Tables, e: Entry): Tables {
    var hash := c.hash(e.header);
    var parent := e.header.parentHash;
    var blocks := t.blocks[hash := Block(e.header.number, parent, CumulativeDifficulty(e.header.difficulty, e.uncles))];
    t.(headers := t.headers[hash := e.header],
       blocks := blocks,
       uncles := t.uncles[hash := e.uncles],
       children := if parent in blocks then t.children[parent := ChildrenOf(t, parent) + [hash]] else t.children)
  }

  // ── reachability ───────────────────────────────────────────────────────────

  predicate Edge(t: Tables, x: Hash, y: Hash) { y in ChildrenOf(t, x) }

  predicate IsPath(t: Tables, path: seq<Hash>) {
    path != [] && forall i {:trigger path[i]} :: 0 < i < |path| ==> Edge(t, path[..i][i - 1], path[i])
  }

  ghost predicate Reaches(t: Tables, root: Hash, x: Hash) {
    exists path :: IsPath(t, path) && path[0] == root && path[|path| - 1] == x
  }

  /** Every hash an edge leads to. */
  function Universe(t: Tables): set<Hash> {
    set x, y | x in t.children && y in t.children[x] :: y
  }

  ghost function Subtree(t: Tables, root: Hash): set<Hash> {
    set x | x in Universe(t) + {root} && Reaches(t, root, x)
  }

  lemma ReachesSelf(t: Tables, root: Hash)
    ensures Reaches(t, root, root)
  {
    assert IsPath(t, [root]);
  }

  lemma ReachesChild(t: Tables, root: Hash, x: Hash, y: Hash)
    requires Reaches(t, root, x) && Edge(t, x, y)
    ensures Reaches(t, root, y) && y in Universe(t)
  {
    var path :| IsPath(t, path) && path[0] == root && path[|path| - 1] == x;
    var longer := path + [y];
    forall i | 0 < i < |longer| ensures Edge(t, longer[..i][i - 1], longer[i]) {
      if i < |path| {
        assert longer[i] == path[i] && longer[..i][i - 1] == path[..i][i - 1];
      }
    }
    assert IsPath(t, longer) && longer[|longer| - 1] == y;
  }

  /** A set closed under edges that holds the root holds everything reachable. */
  lemma {:induction false} ClosedHoldsPath(t: Tables, s: set<Hash>, path: seq<Hash>)
    requires IsPath(t, path) && path[0] in s
    requires forall x, y :: x in s && Edge(t, x, y) ==> y in s
    ensures path[|path| - 1] in s
    decreases |path|
  {
    if |path| > 1 {
      var n := |path| - 1;
      var shorter := path[..n];
      forall i | 0 < i < |shorter| ensures Edge(t, shorter[..i][i - 1], shorter[i]) {
        assert shorter[i] == path[i] && shorter[..i][i - 1] == path[..i][i - 1];
      }
      ClosedHoldsPath(t, s, shorter);
      assert Edge(t, path[..n][n - 1], path[n]);
    }
  }

  // ── weight ─────────────────────────────────────────────────────────────────

  function WorkOf(t: Tables, x: Hash): nat {
    if x in t.blocks then t.blocks[x].work else 0
  }

  /** The work of a set of hashes, those not stored counting nothing. */
  ghost function WorkIn(t: Tables, s: set<Hash>): nat
    decreases |s|
  {
    if s == {} then 0
    else
      var x :| x in s;
      WorkOf(t, x) + WorkIn(t, s - {x})
  }

  lemma {:induction false} WorkWithout(t: Tables, s: set<Hash>, x: Hash)
    requires x in s
    ensures WorkIn(t, s) == WorkOf(t, x) + WorkIn(t, s - {x})
    decreases |s|
  {
    var y :| y in s && WorkIn(t, s) == WorkOf(t, y) + WorkIn(t, s - {y});
    if y != x {
      WorkWithout(t, s - {y}, x);
      WorkWithout(t, s - {x}, y);
      assert s - {y} - {x} == s - {x} - {y};
    }
  }

  /** The GHOST weight: each stored block reachable from the root once, saturated. */
  ghost function Weight(t: Tables, root: Hash): nat {
    Min(WorkIn(t, Subtree(t, root)), MAX)
  }

  /** What the walk has come to: all of it is reached, and what a seen hash leads to is seen or
      still to do. */
  ghost predicate Walked(t: Tables, root: Hash, stack: seq<Hash>, seen: set<Hash>) {
    && (forall x :: x in stack || x in seen ==> Reaches(t, root, x) && x in Universe(t) + {root})
    && (forall x, y :: x in seen && Edge(t, x, y) ==> y in seen || y in stack)
    && (root in seen || root in stack)
  }

  lemma WalkOn(t: Tables, root: Hash, rest: seq<Hash>, hash: Hash, seen: set<Hash>)
    requires Walked(t, root, rest + [hash], seen)
    ensures hash in seen ==> Walked(t, root, rest, seen)
    ensures Walked(t, root, rest + ChildrenOf(t, hash), seen + {hash})
    ensures hash in Universe(t) + {root}
  {
    var stack, further := rest + [hash], rest + ChildrenOf(t, hash);
    assert forall x :: x in stack <==> x in rest || x == hash;
    assert forall x :: x in further <==> x in rest || x in ChildrenOf(t, hash);
    forall y | Edge(t, hash, y) ensures Reaches(t, root, y) && y in Universe(t) {
      ReachesChild(t, root, hash, y);
    }
  }

  /** The depth-first walk: an explicit stack, a set of what was seen, a running total. */
  method SubtreeWork(t: Tables, root: Hash) returns (total: nat)
    ensures total == Weight(t, root)
  {
    total := 0;
    var stack := [root];
    var seen: set<Hash> := {};
    ReachesSelf(t, root);
    while stack != []
      invariant Walked(t, root, stack, seen)
      invariant total == Min(WorkIn(t, seen), MAX)
      decreases Universe(t) + {root} - seen, |stack|
    {
      var hash := stack[|stack| - 1];
      assert stack == stack[..|stack| - 1] + [hash];
      stack := stack[..|stack| - 1];
      WalkOn(t, root, stack, hash, seen);
      if hash !in seen {
        WorkWithout(t, seen + {hash}, hash);
        assert seen + {hash} - {hash} == seen;
        seen := seen + {hash};
        if hash in t.blocks {
          total := SatAdd(total, t.blocks[hash].work);
        }
        stack := stack + ChildrenOf(t, hash);
      }
    }
    ClosedIsSubtree(t, root, seen);
  }

  lemma ClosedIsSubtree(t: Tables, root: Hash, seen: set<Hash>)
    requires root in seen && forall x :: x in seen ==> Reaches(t, root, x) && x in Universe(t) + {root}
    requires forall x, y :: x in seen && Edge(t, x, y) ==> y in seen
    ensures seen == Subtree(t, root)
  {
    forall x | Reaches(t, root, x) ensures x in seen {
      var path :| IsPath(t, path) && path[0] == root && path[|path| - 1] == x;
      ClosedHoldsPath(t, seen, path);
    }
  }

  // ── weights over runs ──────────────────────────────────────────────────────

  /** `b` holds every edge and every stored block of `a`. */
  ghost predicate Contains(a: Tables, b: Tables) {
    && (forall x, y :: Edge(a, x, y) ==> Edge(b, x, y))
    && (forall x :: x in a.blocks ==> x in b.blocks && b.blocks[x] == a.blocks[x])
  }

  /** `b` holds every edge of `a`, and no block of it with less work. */
  ghost predicate Outweighs(a: Tables, b: Tables) {
    && (forall x, y :: Edge(a, x, y) ==> Edge(b, x, y))
    && (forall x :: WorkOf(a, x) <= WorkOf(b, x))
  }

  lemma SubtreeGrows(a: Tables, b: Tables, root: Hash)
    requires forall x, y :: Edge(a, x, y) ==> Edge(b, x, y)
    ensures Subtree(a, root) <= Subtree(b, root)
  {
    forall x | x in Subtree(a, root) ensures x in Subtree(b, root) {
      var path :| IsPath(a, path) && path[0] == root && path[|path| - 1] == x;
      assert IsPath(b, path);
      if |path| > 1 {
        var n := |path| - 1;
        assert Edge(b, path[..n][n - 1], path[n]);
      }
    }
  }

  lemma {:induction false} MoreWork(a: Tables, b: Tables, s: set<Hash>, s': set<Hash>)
    requires (forall x :: WorkOf(a, x) <= WorkOf(b, x)) && s <= s'
    ensures WorkIn(a, s) <= WorkIn(b, s')
    decreases |s|
  {
    if s != {} {
      var x :| x in s;
      WorkWithout(a, s, x);
      WorkWithout(b, s', x);
      assert WorkOf(a, x) <= WorkOf(b, x);
      MoreWork(a, b, s - {x}, s' - {x});
    }
  }

  /** Weights never fall as a store's edges and works grow. */
  lemma WeightRises(a: Tables, b: Tables, root: Hash)
    requires Outweighs(a, b)
    ensures Weight(a, root) <= Weight(b, root)
  {
    SubtreeGrows(a, b, root);
    MoreWork(a, b, Subtree(a, root), Subtree(b, root));
  }

  /** In particular as it keeps what it has and gets more. */
  lemma WeightGrows(a: Tables, b: Tables, root: Hash)
    requires Contains(a, b)
    ensures Weight(a, root) <= Weight(b, root)
  {
    forall x ensures WorkOf(a, x) <= WorkOf(b, x) {
    }
    WeightRises(a, b, root);
  }

  /** And depend on the edges as a relation, not on their order or how often they are
      listed. */
  lemma WeightIgnoresOrder(a: Tables, b: Tables, root: Hash)
    requires Contains(a, b) && Contains(b, a)
    ensures Weight(a, root) == Weight(b, root)
  {
    WeightGrows(a, b, root);
    WeightGrows(b, a, root);
  }

  /** The entry carries the uncles its header commits to. */
  predicate Committed(c: Consensus, e: Entry) {
    c.commit(e.uncles) == e.header.ommersHash
  }

  /** The same in every field that is hashed and that a rule below reads. The block hash
      leaves out part of a header, so `rest` may differ. */
  predicate Alike(a: Header, b: Header) {
    && a.number == b.number && a.parentHash == b.parentHash && a.difficulty == b.difficulty
    && a.ommersHash == b.ommersHash && a.uncleCount == b.uncleCount
  }

  ghost predicate NoCollision(c: Consensus) {
    forall a: Header, b: Header :: c.hash(a) == c.hash(b) ==> Alike(a, b)
  }

  /** Neither the hash nor the commitment, which covers the whole encodings, collides. */
  ghost predicate Binding(c: Consensus) {
    && NoCollision(c)
    && (forall u: seq<Header>, v: seq<Header> :: c.commit(u) == c.commit(v) ==> u == v)
  }

  /** What is stored under a hash is the block with that hash, and its own work. */
  ghost predicate Indexed(c: Consensus, t: Tables) {
    && t.headers.Keys == t.blocks.Keys == t.uncles.Keys
    && forall x :: x in t.headers ==>
         && c.hash(t.headers[x]) == x
         && t.blocks[x] == Block(t.headers[x].number, t.headers[x].parentHash,
                                 CumulativeDifficulty(t.headers[x].difficulty, t.uncles[x]))
  }

  /** And with the uncles it commits to. */
  ghost predicate Faithful(c: Consensus, t: Tables) {
    && Indexed(c, t)
    && forall x :: x in t.headers ==> c.commit(t.uncles[x]) == t.headers[x].ommersHash
  }

  lemma PutIsIndexed(c: Consensus, t: Tables, e: Entry)
    requires Indexed(c, t)
    ensures Indexed(c, PutEntry(c, t, e))
  {
  }

  lemma PutIsFaithful(c: Consensus, t: Tables, e: Entry)
    requires Faithful(c, t) && Committed(c, e)
    ensures Faithful(c, PutEntry(c, t, e))
  {
    PutIsIndexed(c, t, e);
  }

  /** A block that is stored already comes with the list stored for it. */
  predicate Steady(c: Consensus, t: Tables, e: Entry) {
    c.hash(e.header) in t.uncles ==> t.uncles[c.hash(e.header)] == e.uncles
  }

  lemma CommittedIsSteady(c: Consensus, t: Tables, e: Entry)
    requires Binding(c) && Faithful(c, t) && Committed(c, e)
    ensures Steady(c, t, e)
  {
    if c.hash(e.header) in t.headers {
      assert Alike(t.headers[c.hash(e.header)], e.header);
    }
  }

  /** Such a put only adds to the store. */
  lemma SteadyGrows(c: Consensus, t: Tables, e: Entry)
    requires NoCollision(c) && Indexed(c, t) && Steady(c, t, e)
    ensures Contains(t, PutEntry(c, t, e))
    ensures forall x :: x in t.headers ==> x in PutEntry(c, t, e).headers && PutEntry(c, t, e).uncles[x] == t.uncles[x]
  {
    if c.hash(e.header) in t.headers {
      assert Alike(t.headers[c.hash(e.header)], e.header);
    }
  }

  /** Putting a committed entry keeps the store faithful and only adds to it. */
  lemma PutGrows(c: Consensus, t: Tables, e: Entry)
    requires Binding(c) && Faithful(c, t) && Committed(c, e)
    ensures Faithful(c, PutEntry(c, t, e)) && Contains(t, PutEntry(c, t, e))
    ensures forall x :: x in t.headers ==>
              x in PutEntry(c, t, e).headers && Alike(PutEntry(c, t, e).headers[x], t.headers[x])
              && PutEntry(c, t, e).uncles[x] == t.uncles[x]
    ensures c.hash(e.header) in PutEntry(c, t, e).headers
    ensures PutEntry(c, t, e).headers[c.hash(e.header)] == e.header
    ensures PutEntry(c, t, e).uncles[c.hash(e.header)] == e.uncles
  {
    PutIsFaithful(c, t, e);
    CommittedIsSteady(c, t, e);
    SteadyGrows(c, t, e);
  }

  lemma ReputLeavesBlocks(c: Consensus, t: Tables, e: Entry)
    requires NoCollision(c) && Indexed(c, t) && Steady(c, t, e) && c.hash(e.header) in t.headers
    ensures PutEntry(c, t, e).blocks == t.blocks
  {
    assert Alike(t.headers[c.hash(e.header)], e.header);
  }

  lemma ReputLeavesEdges(c: Consensus, t: Tables, e: Entry, x: Hash, y: Hash)
    requires PutEntry(c, t, e).blocks == t.blocks
    requires e.header.parentHash in t.blocks ==> Edge(t, e.header.parentHash, c.hash(e.header))
    ensures Edge(PutEntry(c, t, e), x, y) <==> Edge(t, x, y)
  {
  }

  /** Putting a block again with its list, its parent edge being recorded already, changes no
      weight, although the edge is then listed twice. */
  lemma ReputChangesNoWeight(c: Consensus, t: Tables, e: Entry, root: Hash)
    requires NoCollision(c) && Indexed(c, t) && Steady(c, t, e)
    requires c.hash(e.header) in t.headers
    requires e.header.parentHash in t.blocks ==> Edge(t, e.header.parentHash, c.hash(e.header))
    ensures Weight(PutEntry(c, t, e), root) == Weight(t, root)
  {
    ReputLeavesBlocks(c, t, e);
    forall x, y ensures Edge(PutEntry(c, t, e), x, y) <==> Edge(t, x, y) {
      ReputLeavesEdges(c, t, e, x, y);
    }
    WeightIgnoresOrder(t, PutEntry(c, t, e), root);
  }

  /** A block stored ahead of its parent hangs under nothing: storing the parent afterwards
      does not bring it into the parent's subtree. */
  lemma StoredAheadIsNotWeighed(c: Consensus, t: Tables, child: Entry, parent: Entry)
    requires child.header.parentHash == c.hash(parent.header)
    requires c.hash(parent.header) !in t.blocks && c.hash(parent.header) !in t.children
    requires c.hash(child.header) != c.hash(parent.header) && parent.header.parentHash != c.hash(parent.header)
    ensures var after, p := PutEntry(c, PutEntry(c, t, child), parent), c.hash(parent.header);
      Subtree(after, p) == {p} && Weight(after, p)
        == Min(CumulativeDifficulty(parent.header.difficulty, parent.uncles), MAX)
  {
    var after, p := PutEntry(c, PutEntry(c, t, child), parent), c.hash(parent.header);
    assert ChildrenOf(after, p) == [];
    ReachesSelf(after, p);
    forall x | Reaches(after, p, x) ensures x == p {
      var path :| IsPath(after, path) && path[0] == p && path[|path| - 1] == x;
      ClosedHoldsPath(after, {p}, path);
    }
    assert Subtree(after, p) == {p};
    WorkWithout(after, {p}, p);
    assert {p} - {p} == {};
  }

  // ── the checkpoint ─────────────────────────────────────────────────────────

  const THRESHOLD_NUM: nat := 2
  const THRESHOLD_DEN: nat := 3

  /** The trust rule; both products are 256-bit and wrap. */
  predicate ClearsThreshold(work: nat, tail: nat) {
    WrapMul(work, THRESHOLD_DEN) > WrapMul(tail, THRESHOLD_NUM)
  }

  /** It says that the work exceeds two thirds of the tail, for every tail whose own product
      fits, exactly when the work's product fits. */
  lemma ThresholdExact(work: nat)
    requires Fits(work)
    ensures (forall tail: nat :: Fits(tail * 2) ==> (ClearsThreshold(work, tail) <==> work * 3 > tail * 2))
       <==> Fits(work * 3)
  {
    if !Fits(work * 3) {
      var tail: nat := LIMIT / 2 - 1;
      var wrapped := WrapMul(work, 3);
      assert wrapped == work * 3 - LIMIT || wrapped == work * 3 - 2 * LIMIT;
      assert !ClearsThreshold(work, tail) && work * 3 > tail * 2 && Fits(tail * 2);
    }
  }

  /** And for every work whose own product fits, exactly when the tail's product fits. */
  lemma ThresholdExactForTail(tail: nat)
    requires Fits(tail)
    ensures (forall work: nat :: Fits(work * 3) ==> (ClearsThreshold(work, tail) <==> work * 3 > tail * 2))
       <==> Fits(tail * 2)
  {
    if !Fits(tail * 2) {
      var work: nat := MAX / 3;
      var wrapped := WrapMul(tail, 2);
      assert wrapped == tail * 2 - LIMIT;
      assert ClearsThreshold(work, tail) && work * 3 <= tail * 2 && Fits(work * 3);
    }
  }

  datatype Checkpoint = Checkpoint(hash: Hash, number: nat, work: nat, tailWork: nat, tailStart: nat)

  /** A root whose weight clears the threshold and whose block is stored. */
  ghost predicate Qualifies(t: Tables, root: Hash, tailWork: nat) {
    root in t.roots && root in t.blocks && ClearsThreshold(Weight(t, root), tailWork)
  }

  /** The attempt's result: None if no root qualifies, and otherwise one of the heaviest
      that do, with its block's number. */
  ghost predicate IsBestCheckpoint(t: Tables, tailStart: nat, tailWork: nat, best: Option<Checkpoint>) {
    match best
    case None => forall x :: !Qualifies(t, x, tailWork)
    case Some(b) =>
      && Qualifies(t, b.hash, tailWork)
      && b == Checkpoint(b.hash, t.blocks[b.hash].number, Weight(t, b.hash), tailWork, tailStart)
      && forall x :: Qualifies(t, x, tailWork) ==> Weight(t, x) <= b.work
  }

  /** The heaviest root that qualifies, over the roots listed in any order. */
  method AttemptCheckpoint(t: Tables, roots: seq<Hash>, tailStart: nat, tailWork: nat)
    returns (best: Option<Checkpoint>)
    requires forall x :: x in roots <==> x in t.roots
    ensures IsBestCheckpoint(t, tailStart, tailWork, best)
  {
    best := None;
    for i := 0 to |roots|
      invariant best.None? ==> forall j :: 0 <= j < i ==> !Qualifies(t, roots[j], tailWork)
      invariant best.Some? ==>
        && Qualifies(t, best.value.hash, tailWork)
        && best.value == Checkpoint(best.value.hash, t.blocks[best.value.hash].number, Weight(t, best.value.hash),
          tailWork, tailStart)
        && forall j :: 0 <= j < i && Qualifies(t, roots[j], tailWork) ==> Weight(t, roots[j]) <= best.value.work
    {
      var root := roots[i];
      var work := SubtreeWork(t, root);
      if ClearsThreshold(work, tailWork) && root in t.blocks {
        if best.None? || work > best.value.work {
          best := Some(Checkpoint(root, t.blocks[root].number, work, tailWork, tailStart));
        }
      }
    }
    forall x | Qualifies(t, x, tailWork) ensures exists j :: 0 <= j < |roots| && roots[j] == x {
      assert x in roots;
    }
  }
}
