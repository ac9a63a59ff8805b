/** When a Rootstock block is accepted, and why it is refused, said in terms of its fields and
    of the stored blocks alone. */
module BlockRules {
  import opened CountedOnce
  import opened Forest
  import opened UncleRule

  // ── the ancestors a block looks at ─────────────────────────────────────────

  /** Stored blocks each the parent of the one before it, none under `floor`, and none but
      the last a genesis block. */
  predicate ParentPath(a: Ancestry, path: seq<Hash>, floor: nat) {
    && path != []
    && (forall i :: 0 <= i < |path| ==> path[i] in a.headers && a.headers[path[i]].number >= floor)
    && (forall i {:trigger path[i]} :: 0 < i < |path| ==>
          a.headers[path[..i][i - 1]].number > 0 && path[i] == a.headers[path[..i][i - 1]].parentHash)
  }

  /** `x` is an ancestor of a block at `number` with this parent, at most seven below it. */
  ghost predicate IsNearAncestor(a: Ancestry, number: nat, parentHash: Hash, x: Hash) {
    exists path :: ParentPath(a, path, if number > 7 then number - 7 else 0)
                   && path[0] == parentHash && path[|path| - 1] == x
  }

  lemma PathBelow(a: Ancestry, path: seq<Hash>, floor: nat)
    requires ParentPath(a, path, floor) && |path| > 1
    ensures a.headers[path[0]].number > 0 && path[1] == a.headers[path[0]].parentHash
    ensures ParentPath(a, path[1..], floor)
  {
    var rest := path[1..];
    assert path[..1][0] == path[0] && path[1] == a.headers[path[..1][0]].parentHash;
    forall i | 0 < i < |rest|
      ensures a.headers[rest[..i][i - 1]].number > 0 && rest[i] == a.headers[rest[..i][i - 1]].parentHash
    {
      assert rest[i] == path[i + 1] && rest[..i][i - 1] == path[..i + 1][i];
    }
  }

  lemma PathAbove(a: Ancestry, x: Hash, path: seq<Hash>, floor: nat)
    requires ParentPath(a, path, floor) && x in a.headers && a.headers[x].number >= floor
    requires a.headers[x].number > 0 && path[0] == a.headers[x].parentHash
    ensures ParentPath(a, [x] + path, floor)
  {
    var longer := [x] + path;
    forall i | 0 < i < |longer|
      ensures a.headers[longer[..i][i - 1]].number > 0 && longer[i] == a.headers[longer[..i][i - 1]].parentHash
    {
      if i > 1 {
        assert longer[i] == path[i - 1] && longer[..i][i - 1] == path[..i - 1][i - 2];
      }
    }
  }

  /** The walk up collects just the ends of such paths. */
  lemma {:induction false} StretchHolds(a: Ancestry, depth: Hash -> nat, hash: Hash, floor: nat, path: seq<Hash>)
    requires Grounded(a, depth) && ParentPath(a, path, floor) && path[0] == hash
    ensures path[|path| - 1] in Stretch(a, depth, hash, floor)
    decreases |path|
  {
    if |path| > 1 {
      PathBelow(a, path, floor);
      StretchHolds(a, depth, path[1], floor, path[1..]);
    }
  }

  lemma {:induction false} StretchReached(a: Ancestry, depth: Hash -> nat, hash: Hash, floor: nat, x: Hash)
    returns (path: seq<Hash>)
    requires Grounded(a, depth) && x in Stretch(a, depth, hash, floor)
    ensures ParentPath(a, path, floor) && path[0] == hash && path[|path| - 1] == x
    decreases depth(hash)
  {
    if x == hash {
      path := [hash];
    } else {
      var rest := StretchReached(a, depth, a.headers[hash].parentHash, floor, x);
      PathAbove(a, hash, rest, floor);
      path := [hash] + rest;
    }
  }

  lemma WindowExactly(a: Ancestry, depth: Hash -> nat, number: nat, parentHash: Hash, x: Hash)
    requires Grounded(a, depth)
    ensures x in Window(a, depth, number, parentHash) <==> IsNearAncestor(a, number, parentHash, x)
  {
    var floor := if number > 7 then number - 7 else 0;
    if x in Window(a, depth, number, parentHash) {
      var path := StretchReached(a, depth, parentHash, floor, x);
    } else if IsNearAncestor(a, number, parentHash, x) {
      var path :| ParentPath(a, path, floor) && path[0] == parentHash && path[|path| - 1] == x;
      StretchHolds(a, depth, parentHash, floor, path);
    }
  }

  // ── what is accepted ───────────────────────────────────────────────────────

  /** The header follows this parent. */
  predicate Follows(c: Consensus, h: Header, parent: Header) {
    h.number == parent.number + 1 && c.parentOk(h, parent)
  }

  /** An uncle the block may include: in order on its own and after its stored parent, a near
      ancestor of the block; at most six below the block; not itself a near ancestor, nor
      included by one. */
  ghost predicate MayInclude(c: Consensus, a: Ancestry, block: Header, uncle: Header) {
    && c.staticOk(uncle) && uncle.number < block.number <= uncle.number + 6
    && !IsNearAncestor(a, block.number, block.parentHash, c.hash(uncle))
    && (forall y, v :: IsNearAncestor(a, block.number, block.parentHash, y) && v in UnclesOf(a, y) ==>
          c.hash(v) != c.hash(uncle))
    && uncle.parentHash in a.headers && IsNearAncestor(a, block.number, block.parentHash, uncle.parentHash)
    && Follows(c, uncle, a.headers[uncle.parentHash])
  }

  lemma MayIncludeExactly(c: Consensus, a: Ancestry, depth: Hash -> nat, block: Header, uncle: Header)
    requires Grounded(a, depth)
    ensures var stretch := Window(a, depth, block.number, block.parentHash);
            MayInclude(c, a, block, uncle)
            <==> Admissible(c, a, block.number, AncestorsIn(stretch), UsedIn(c, a, stretch), uncle)
  {
    var stretch := Window(a, depth, block.number, block.parentHash);
    forall x ensures x in stretch <==> IsNearAncestor(a, block.number, block.parentHash, x) {
      WindowExactly(a, depth, block.number, block.parentHash, x);
    }
    if c.hash(uncle) in UsedIn(c, a, stretch) {
      var y, v :| y in stretch && v in UnclesOf(a, y) && c.hash(v) == c.hash(uncle);
    } else {
      forall y, v | IsNearAncestor(a, block.number, block.parentHash, y) && v in UnclesOf(a, y)
        ensures c.hash(v) != c.hash(uncle)
      {
        assert y in stretch && c.hash(v) in UsedIn(c, a, stretch);
      }
    }
  }

  /** A list of uncles passes exactly when each may be included, they are at most ten, and all
      different. */
  lemma UnclesExactly(c: Consensus, a: Ancestry, depth: Hash -> nat, block: Header, uncles: seq<Header>)
    requires Grounded(a, depth)
    ensures CheckList(c, a, depth, block, uncles).None?
       <==> |uncles| <= 10 && DistinctHashes(c, uncles) && forall u :: u in uncles ==> MayInclude(c, a, block, u)
  {
    ListExact(c, a, depth, block, uncles);
    var stretch := Window(a, depth, block.number, block.parentHash);
    forall u ensures MayInclude(c, a, block, u)
                <==> Admissible(c, a, block.number, AncestorsIn(stretch), UsedIn(c, a, stretch), u)
    {
      MayIncludeExactly(c, a, depth, block, u);
    }
    forall u | u in uncles ensures exists i :: 0 <= i < |uncles| && uncles[i] == u {
    }
  }

  /** A block whose parent is stored is accepted exactly when it carries as many uncles as it
      says and those it commits to, is in order on its own, follows its parent, and its uncles
      are at most ten, different, and each one it may include. */
  lemma BlockAcceptedExactly(c: Consensus, t: Tables, depth: Hash -> nat, e: Entry)
    requires Grounded(AncestryOf(t), depth) && e.header.parentHash in t.headers
    ensures ValidateEntry(c, t, depth, e).None?
       <==> && |e.uncles| == e.header.uncleCount && c.commit(e.uncles) == e.header.ommersHash
            && c.staticOk(e.header) && Follows(c, e.header, t.headers[e.header.parentHash])
            && |e.uncles| <= 10 && DistinctHashes(c, e.uncles)
            && forall u :: u in e.uncles ==> MayInclude(c, AncestryOf(t), e.header, u)
  {
    UnclesExactly(c, AncestryOf(t), depth, e.header, e.uncles);
  }

  // ── what is refused, and why ───────────────────────────────────────────────

  /** The error says what is wrong with the uncle at `i`. */
  ghost predicate SaysWhatIsWrong(c: Consensus, a: Ancestry, block: Header, uncles: seq<Header>, i: nat,
                                  error: UncleError)
    requires i < |uncles|
  {
    var u := uncles[i];
    match error
    case TooManyUncles(_, _) => false
    case HeaderRule => !c.staticOk(u)
    case SiblingOrDescendant(x) => x == c.hash(u) && u.number >= block.number
    case TooOld(x, limit) => x == c.hash(u) && limit == 7 && u.number + 7 <= block.number
    case Repeated(x) => x == c.hash(u) && exists j :: 0 <= j < i && c.hash(uncles[j]) == x
    case IsAncestor(x) => x == c.hash(u) && IsNearAncestor(a, block.number, block.parentHash, x)
    case AlreadyUsed(x) =>
      x == c.hash(u)
      && exists y, v :: IsNearAncestor(a, block.number, block.parentHash, y) && v in UnclesOf(a, y) && c.hash(v) == x
    case NoCommonParent(x) =>
      x == c.hash(u) && !IsNearAncestor(a, block.number, block.parentHash, u.parentHash)
    case ParentRule => u.parentHash in a.headers && !Follows(c, u, a.headers[u.parentHash])
  }

  lemma NearAncestorIsStored(a: Ancestry, number: nat, parentHash: Hash, x: Hash)
    requires IsNearAncestor(a, number, parentHash, x)
    ensures x in a.headers
  {
    var path :| ParentPath(a, path, if number > 7 then number - 7 else 0)
                && path[0] == parentHash && path[|path| - 1] == x;
    assert path[|path| - 1] in a.headers;
  }

  lemma OneUncleRefused(c: Consensus, a: Ancestry, depth: Hash -> nat, block: Header, uncles: seq<Header>, i: nat,
                        seen: set<Hash>)
    requires Grounded(a, depth) && i < |uncles|
    requires forall x :: x in seen ==> exists j :: 0 <= j < i && c.hash(uncles[j]) == x
    ensures var stretch := Window(a, depth, block.number, block.parentHash);
            var error := CheckUncle(c, a, block.number, AncestorsIn(stretch), UsedIn(c, a, stretch), seen, uncles[i]);
            error.Some? ==> SaysWhatIsWrong(c, a, block, uncles, i, error.value)
  {
    var stretch := Window(a, depth, block.number, block.parentHash);
    forall x ensures x in stretch <==> IsNearAncestor(a, block.number, block.parentHash, x) {
      WindowExactly(a, depth, block.number, block.parentHash, x);
    }
    if IsNearAncestor(a, block.number, block.parentHash, uncles[i].parentHash) {
      NearAncestorIsStored(a, block.number, block.parentHash, uncles[i].parentHash);
    }
    if c.hash(uncles[i]) in UsedIn(c, a, stretch) {
      var y, v :| y in stretch && v in UnclesOf(a, y) && c.hash(v) == c.hash(uncles[i]);
    }
  }

  /** The error is that of the first uncle with one. */
  lemma {:induction false} FirstRefused(c: Consensus, a: Ancestry, depth: Hash -> nat, block: Header,
                                        uncles: seq<Header>, i: nat, seen: set<Hash>)
    returns (k: nat)
    requires Grounded(a, depth) && i <= |uncles|
    requires forall x :: x in seen <==> exists j :: 0 <= j < i && c.hash(uncles[j]) == x
    requires var stretch := Window(a, depth, block.number, block.parentHash);
             CheckUncles(c, a, block.number, AncestorsIn(stretch), UsedIn(c, a, stretch), seen, uncles[i..]).Some?
    ensures var stretch := Window(a, depth, block.number, block.parentHash);
      var error := CheckUncles(c, a, block.number, AncestorsIn(stretch), UsedIn(c, a, stretch), seen,
        uncles[i..]).value;
      i <= k < |uncles| && SaysWhatIsWrong(c, a, block, uncles, k, error)
    ensures forall j :: i <= j < k ==> MayInclude(c, a, block, uncles[j])
    decreases |uncles| - i
  {
    var stretch := Window(a, depth, block.number, block.parentHash);
    assert uncles[i..][0] == uncles[i] && uncles[i..][1..] == uncles[i + 1..];
    OneUncleRefused(c, a, depth, block, uncles, i, seen);
    if CheckUncle(c, a, block.number, AncestorsIn(stretch), UsedIn(c, a, stretch), seen, uncles[i]).Some? {
      k := i;
    } else {
      k := FirstRefused(c, a, depth, block, uncles, i + 1, seen + {c.hash(uncles[i])});
      MayIncludeExactly(c, a, depth, block, uncles[i]);
    }
  }

  /** A refused block: each error under its own condition, in the order of the checks. */
  lemma BlockRefused(c: Consensus, t: Tables, depth: Hash -> nat, e: Entry) returns (k: nat)
    requires Grounded(AncestryOf(t), depth) && ValidateEntry(c, t, depth, e).Some?
    ensures match ValidateEntry(c, t, depth, e).value
      case UncleCount(said, came) => said == e.header.uncleCount && came == |e.uncles| && said != came
      case OmmersHash => |e.uncles| == e.header.uncleCount && c.commit(e.uncles) != e.header.ommersHash
      case HeaderRules =>
        && |e.uncles| == e.header.uncleCount && c.commit(e.uncles) == e.header.ommersHash
        && (!c.staticOk(e.header)
            || (e.header.parentHash in t.headers && !Follows(c, e.header, t.headers[e.header.parentHash])))
      case Uncles(error) =>
        && |e.uncles| == e.header.uncleCount && c.commit(e.uncles) == e.header.ommersHash && c.staticOk(e.header)
        && (error.TooManyUncles? <==> |e.uncles| > 10)
        && (error.TooManyUncles? ==> error == TooManyUncles(10, |e.uncles|))
        && (!error.TooManyUncles? ==>
              k < |e.uncles| && SaysWhatIsWrong(c, AncestryOf(t), e.header, e.uncles, k, error)
              && forall j :: 0 <= j < k ==> MayInclude(c, AncestryOf(t), e.header, e.uncles[j]))
  {
    k := 0;
    var error := ValidateEntry(c, t, depth, e).value;
    if error.Uncles? && |e.uncles| <= 10 {
      assert e.uncles[0..] == e.uncles;
      k := FirstRefused(c, AncestryOf(t), depth, e.header, e.uncles, 0, {});
    }
  }
}
