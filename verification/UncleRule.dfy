/** Which uncles a Rootstock block may reference, and the walk over its stored ancestors
    that decides it. */
module UncleRule {
  import opened Wrappers

  const UNCLE_LIST_LIMIT: nat := 10
  const UNCLE_GENERATION_LIMIT: nat := 7

  type Hash = nat

  /** A Rootstock header. `rest` stands for the fields no rule below reads, hashed or not. */
  datatype Header = Header(
    number: nat,
    parentHash: Hash,
    difficulty: nat,
    ommersHash: Hash,
    uncleCount: nat,
    rest: nat)

  /** The block hash, the commitment to an uncle list, and the header rules: the rules of a
      header on its own, and those against its parent other than the block number. */
  datatype Consensus = Consensus(
    hash: Header -> Hash,
    commit: seq<Header> -> Hash,
    staticOk: Header -> bool,
    parentOk: (Header, Header) -> bool)

  /** The stored headers and the uncle lists of stored blocks. */
  datatype Ancestry = Ancestry(headers: map<Hash, Header>, uncles: map<Hash, seq<Header>>)

  function UnclesOf(a: Ancestry, hash: Hash): seq<Header> {
    if hash in a.uncles then a.uncles[hash] else []
  }

  /** Parent hashes lie strictly deeper: a chain of hashes does not close on itself. */
  ghost predicate Grounded(a: Ancestry, depth: Hash -> nat) {
    forall x :: x in a.headers ==> depth(a.headers[x].parentHash) < depth(x)
  }

  function Floor(number: nat, limit: nat): nat {
    if number > limit then number - limit else 0
  }

  /** The stored ancestors from `hash` down while their number is at or above the floor. */
  ghost function Stretch(a: Ancestry, depth: Hash -> nat, hash: Hash, floor: nat): seq<Hash>
    requires Grounded(a, depth)
    decreases depth(hash)
  {
    if hash !in a.headers || a.headers[hash].number < floor then []
    else if a.headers[hash].number == 0 then [hash]
    else [hash] + Stretch(a, depth, a.headers[hash].parentHash, floor)
  }

  function HashesOf(c: Consensus, headers: seq<Header>): set<Hash> {
    set h | h in headers :: c.hash(h)
  }

  ghost function AncestorsIn(stretch: seq<Hash>): set<Hash> {
    set x | x in stretch
  }

  ghost function UsedIn(c: Consensus, a: Ancestry, stretch: seq<Hash>): set<Hash> {
    set x, h | x in stretch && h in UnclesOf(a, x) :: c.hash(h)
  }

  /** Collect the hashes of the stretch. */
  method Ancestors(a: Ancestry, number: nat, parentHash: Hash, limit: nat, ghost depth: Hash -> nat)
    returns (out: set<Hash>)
    requires Grounded(a, depth)
    ensures out == AncestorsIn(Stretch(a, depth, parentHash, Floor(number, limit)))
  {
    out := {};
    var floor := if number > limit then number - limit else 0;
    var cursor := Some(parentHash);
    while cursor.Some?
      invariant out + (if cursor.Some? then AncestorsIn(Stretch(a, depth, cursor.value, floor)) else {})
             == AncestorsIn(Stretch(a, depth, parentHash, floor))
      decreases cursor.Some?, if cursor.Some? then depth(cursor.value) else 0
    {
      var hash := cursor.value;
      if hash !in a.headers || a.headers[hash].number < floor {
        break;
      }
      var header := a.headers[hash];
      out := out + {hash};
      cursor := if header.number == 0 then None else Some(header.parentHash);
    }
  }

  /** The hashes of a list of headers, added to a set. */
  method InsertHashes(c: Consensus, headers: seq<Header>, into: set<Hash>) returns (out: set<Hash>)
    ensures out == into + HashesOf(c, headers)
  {
    out := into;
    for i := 0 to |headers|
      invariant out == into + HashesOf(c, headers[..i])
    {
      assert forall h :: h in headers[..i + 1] <==> h in headers[..i] || h == headers[i];
      out := out + {c.hash(headers[i])};
    }
    assert headers[..|headers|] == headers;
  }

  /** Collect the hashes of the uncles the stretch already included. */
  method UsedUncles(c: Consensus, a: Ancestry, number: nat, parentHash: Hash, limit: nat, ghost depth: Hash -> nat)
    returns (out: set<Hash>)
    requires Grounded(a, depth)
    ensures out == UsedIn(c, a, Stretch(a, depth, parentHash, Floor(number, limit)))
  {
    out := {};
    var floor := if number > limit then number - limit else 0;
    var cursor := Some(parentHash);
    while cursor.Some?
      invariant out + (if cursor.Some? then UsedIn(c, a, Stretch(a, depth, cursor.value, floor)) else {})
             == UsedIn(c, a, Stretch(a, depth, parentHash, floor))
      decreases cursor.Some?, if cursor.Some? then depth(cursor.value) else 0
    {
      var hash := cursor.value;
      if hash !in a.headers || a.headers[hash].number < floor {
        break;
      }
      var header := a.headers[hash];
      UsedStep(c, a, hash, if header.number == 0 then [] else Stretch(a, depth, header.parentHash, floor));
      out := InsertHashes(c, UnclesOf(a, hash), out);
      cursor := if header.number == 0 then None else Some(header.parentHash);
    }
  }

  lemma UsedStep(c: Consensus, a: Ancestry, hash: Hash, rest: seq<Hash>)
    ensures UsedIn(c, a, [hash]) == HashesOf(c, UnclesOf(a, hash))
    ensures UsedIn(c, a, [hash] + rest) == HashesOf(c, UnclesOf(a, hash)) + UsedIn(c, a, rest)
    ensures UsedIn(c, a, []) == {}
  {
    assert forall x :: x in [hash] + rest <==> x == hash || x in rest;
  }

  // ── the rule ───────────────────────────────────────────────────────────────

  datatype UncleError =
    | TooManyUncles(max: nat, got: nat)
    | HeaderRule
    | SiblingOrDescendant(hash: Hash)
    | TooOld(hash: Hash, limit: nat)
    | Repeated(hash: Hash)
    | IsAncestor(hash: Hash)
    | AlreadyUsed(hash: Hash)
    | NoCommonParent(hash: Hash)
    | ParentRule

  /** The rules of a header against its parent; the block number is one of them. */
  predicate ParentRules(c: Consensus, header: Header, parent: Header) {
    header.number == parent.number + 1 && c.parentOk(header, parent)
  }

  /** One uncle, in the order the checks are made. */
  function CheckUncle(c: Consensus, a: Ancestry, number: nat, ancestors: set<Hash>, used: set<Hash>,
                      seen: set<Hash>, uncle: Header): Option<UncleError>
  {
    var hash := c.hash(uncle);
    if !c.staticOk(uncle) then Some(HeaderRule)
    else if uncle.number >= number then Some(SiblingOrDescendant(hash))
    else if uncle.number + UNCLE_GENERATION_LIMIT < number + 1 then Some(TooOld(hash, UNCLE_GENERATION_LIMIT))
    else if hash in seen then Some(Repeated(hash))
    else if hash in ancestors then Some(IsAncestor(hash))
    else if hash in used then Some(AlreadyUsed(hash))
    else if uncle.parentHash !in a.headers || uncle.parentHash !in ancestors then Some(NoCommonParent(hash))
    else if !ParentRules(c, uncle, a.headers[uncle.parentHash]) then Some(ParentRule)
    else None
  }

  function CheckUncles(c: Consensus, a: Ancestry, number: nat, ancestors: set<Hash>, used: set<Hash>,
                       seen: set<Hash>, uncles: seq<Header>): Option<UncleError>
    decreases |uncles|
  {
    if uncles == [] then None
    else
      match CheckUncle(c, a, number, ancestors, used, seen, uncles[0])
      case Some(e) => Some(e)
      case None => CheckUncles(c, a, number, ancestors, used, seen + {c.hash(uncles[0])}, uncles[1..])
  }

  ghost function Window(a: Ancestry, depth: Hash -> nat, number: nat, parentHash: Hash): seq<Hash>
    requires Grounded(a, depth)
  {
    Stretch(a, depth, parentHash, Floor(number, UNCLE_GENERATION_LIMIT))
  }

  ghost function CheckList(c: Consensus, a: Ancestry, depth: Hash -> nat, block: Header,
                           uncles: seq<Header>): Option<UncleError>
    requires Grounded(a, depth)
  {
    if uncles == [] then None
    else if |uncles| > UNCLE_LIST_LIMIT then Some(TooManyUncles(UNCLE_LIST_LIMIT, |uncles|))
    else
      var stretch := Window(a, depth, block.number, block.parentHash);
      CheckUncles(c, a, block.number, AncestorsIn(stretch), UsedIn(c, a, stretch), {}, uncles)
  }

  /** The rule over the stored ancestry: a loop over the uncles, growing `seen`. */
  method Validate(c: Consensus, a: Ancestry, block: Header, uncles: seq<Header>, ghost depth: Hash -> nat)
    returns (error: Option<UncleError>)
    requires Grounded(a, depth)
    ensures error == CheckList(c, a, depth, block, uncles)
  {
    if uncles == [] {
      return None;
    }
    var ancestors := Ancestors(a, block.number, block.parentHash, UNCLE_GENERATION_LIMIT, depth);
    var used := UsedUncles(c, a, block.number, block.parentHash, UNCLE_GENERATION_LIMIT, depth);
    if |uncles| > UNCLE_LIST_LIMIT {
      return Some(TooManyUncles(UNCLE_LIST_LIMIT, |uncles|));
    }
    var seen := {};
    for i := 0 to |uncles|
      invariant CheckUncles(c, a, block.number, ancestors, used, {}, uncles)
             == CheckUncles(c, a, block.number, ancestors, used, seen, uncles[i..])
    {
      assert uncles[i..][0] == uncles[i] && uncles[i..][1..] == uncles[i + 1..];
      error := CheckUncle(c, a, block.number, ancestors, used, seen, uncles[i]);
      if error.Some? {
        return;
      }
      seen := seen + {c.hash(uncles[i])};
    }
    error := None;
  }

  /** What an accepted list is: short, of distinct uncles, each young enough, not on the
      window of ancestors nor used there, and hanging off it by the parent rules. */
  predicate Admissible(c: Consensus, a: Ancestry, number: nat, ancestors: set<Hash>, used: set<Hash>, uncle: Header) {
    var hash := c.hash(uncle);
    && c.staticOk(uncle)
    && number <= uncle.number + UNCLE_GENERATION_LIMIT - 1 && uncle.number < number
    && hash !in ancestors && hash !in used
    && uncle.parentHash in a.headers && uncle.parentHash in ancestors
    && ParentRules(c, uncle, a.headers[uncle.parentHash])
  }

  predicate DistinctHashes(c: Consensus, headers: seq<Header>) {
    forall i, j :: 0 <= i < j < |headers| ==> c.hash(headers[i]) != c.hash(headers[j])
  }

  lemma {:induction false} CheckUnclesExact(c: Consensus, a: Ancestry, number: nat, ancestors: set<Hash>,
                                            used: set<Hash>,
                                            seen: set<Hash>, uncles: seq<Header>)
    ensures CheckUncles(c, a, number, ancestors, used, seen, uncles).None?
       <==> && (forall i :: 0 <= i < |uncles| ==>
                  Admissible(c, a, number, ancestors, used, uncles[i]) && c.hash(uncles[i]) !in seen)
            && DistinctHashes(c, uncles)
    decreases |uncles|
  {
    if uncles != [] {
      var seen' := seen + {c.hash(uncles[0])};
      CheckUnclesExact(c, a, number, ancestors, used, seen', uncles[1..]);
      assert forall i :: 0 <= i < |uncles[1..]| ==> uncles[1..][i] == uncles[i + 1];
      if CheckUncles(c, a, number, ancestors, used, seen, uncles).None? {
        forall i, j | 0 <= i < j < |uncles| ensures c.hash(uncles[i]) != c.hash(uncles[j]) {
          assert uncles[j] == uncles[1..][j - 1];
          if i > 0 {
            assert uncles[i] == uncles[1..][i - 1];
          }
        }
      } else if (forall i :: 0 <= i < |uncles| ==>
                   Admissible(c, a, number, ancestors, used, uncles[i]) && c.hash(uncles[i]) !in seen)
                && DistinctHashes(c, uncles) {
        assert CheckUncle(c, a, number, ancestors, used, seen, uncles[0]).None?;
      }
    }
  }

  ghost predicate GoodList(c: Consensus, a: Ancestry, stretch: seq<Hash>, number: nat, uncles: seq<Header>) {
    && |uncles| <= UNCLE_LIST_LIMIT
    && (forall i :: 0 <= i < |uncles| ==>
          Admissible(c, a, number, AncestorsIn(stretch), UsedIn(c, a, stretch), uncles[i]))
    && DistinctHashes(c, uncles)
  }

  /** The rule accepts a list exactly when it is empty, or at most ten distinct admissible
      uncles. */
  lemma ListExact(c: Consensus, a: Ancestry, depth: Hash -> nat, block: Header, uncles: seq<Header>)
    requires Grounded(a, depth)
    ensures CheckList(c, a, depth, block, uncles).None?
       <==> uncles == [] || GoodList(c, a, Window(a, depth, block.number, block.parentHash), block.number, uncles)
  {
    if uncles != [] {
      var stretch := Window(a, depth, block.number, block.parentHash);
      CheckUnclesExact(c, a, block.number, AncestorsIn(stretch), UsedIn(c, a, stretch), {}, uncles);
    }
  }
}
