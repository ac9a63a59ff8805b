/** Accepting Rootstock blocks with their uncles, and what the windowed uncle rule gives
    for a whole chain: an uncle comes back only if the store has lost its name. */
module CountedOnce {
  import opened Forest
  import opened UncleRule
  import opened Wrappers

  datatype EntryError =
    | UncleCount(said: nat, came: nat)
    | OmmersHash
    | HeaderRules
    | Uncles(error: UncleError)

  /** The depth of hashes: rising by one along parent links. */
  ghost predicate Acyclic(c: Consensus, depth: Hash -> nat) {
    forall h: Header {:trigger c.hash(h)} :: depth(h.parentHash) < depth(c.hash(h))
  }

  lemma IndexedIsGrounded(c: Consensus, t: Tables, depth: Hash -> nat)
    requires Acyclic(c, depth) && Indexed(c, t)
    ensures Grounded(AncestryOf(t), depth)
  {
    forall x | x in t.headers ensures depth(t.headers[x].parentHash) < depth(x) {
      assert c.hash(t.headers[x]) == x;
    }
  }

  /** The header rules, with the parent's only if the parent is stored. */
  predicate VerifyHeader(c: Consensus, t: Tables, header: Header) {
    && c.staticOk(header)
    && (header.parentHash in t.headers ==> ParentRules(c, header, t.headers[header.parentHash]))
  }

  ghost function ValidateEntry(c: Consensus, t: Tables, depth: Hash -> nat, e: Entry): Option<EntryError>
    requires Grounded(AncestryOf(t), depth)
  {
    if |e.uncles| != e.header.uncleCount then Some(UncleCount(e.header.uncleCount, |e.uncles|))
    else if c.commit(e.uncles) != e.header.ommersHash then Some(OmmersHash)
    else if !VerifyHeader(c, t, e.header) then Some(HeaderRules)
    else
      match CheckList(c, AncestryOf(t), depth, e.header, e.uncles)
      case Some(error) => Some(Uncles(error))
      case None => None
  }

  method Validate(c: Consensus, t: Tables, e: Entry, ghost depth: Hash -> nat) returns (error: Option<EntryError>)
    requires Grounded(AncestryOf(t), depth)
    ensures error == ValidateEntry(c, t, depth, e)
  {
    if |e.uncles| != e.header.uncleCount {
      return Some(UncleCount(e.header.uncleCount, |e.uncles|));
    }
    if c.commit(e.uncles) != e.header.ommersHash {
      return Some(OmmersHash);
    }
    if !VerifyHeader(c, t, e.header) {
      return Some(HeaderRules);
    }
    var bad := UncleRule.Validate(c, AncestryOf(t), e.header, e.uncles, depth);
    error := if bad.Some? then Some(Uncles(bad.value)) else None;
  }

  // ── runs ───────────────────────────────────────────────────────────────────

  /** A batch stored entry by entry as it validates; None if one is refused. */
  ghost function StoreBatch(c: Consensus, t: Tables, depth: Hash -> nat, entries: seq<Entry>): Option<Tables>
    decreases |entries|
  {
    if entries == [] then Some(t)
    else if !Grounded(AncestryOf(t), depth) || ValidateEntry(c, t, depth, entries[0]).Some? then None
    else StoreBatch(c, PutEntry(c, t, entries[0]), depth, entries[1..])
  }

  /** The batch loop, on a working copy that is dropped when an entry is refused. */
  method ConnectHeaders(c: Consensus, t: Tables, entries: seq<Entry>, ghost depth: Hash -> nat)
    returns (stored: Option<Tables>)
    requires Acyclic(c, depth) && Indexed(c, t)
    ensures stored == StoreBatch(c, t, depth, entries)
    ensures stored.Some? ==> Indexed(c, stored.value)
    ensures stored.Some? && Faithful(c, t) ==> Faithful(c, stored.value)
  {
    var txn := t;
    for i := 0 to |entries|
      invariant Indexed(c, txn) && (Faithful(c, t) ==> Faithful(c, txn))
      invariant StoreBatch(c, t, depth, entries) == StoreBatch(c, txn, depth, entries[i..])
    {
      assert entries[i..][0] == entries[i] && entries[i..][1..] == entries[i + 1..];
      IndexedIsGrounded(c, txn, depth);
      var bad := Validate(c, txn, entries[i], depth);
      if bad.Some? {
        return None;
      }
      PutIsIndexed(c, txn, entries[i]);
      txn := PutEntry(c, txn, entries[i]);
    }
    stored := Some(txn);
  }

  lemma {:induction false} BatchKeepsRoots(c: Consensus, t: Tables, depth: Hash -> nat, entries: seq<Entry>)
    requires StoreBatch(c, t, depth, entries).Some?
    ensures StoreBatch(c, t, depth, entries).value.roots == t.roots
    decreases |entries|
  {
    if entries != [] {
      BatchKeepsRoots(c, PutEntry(c, t, entries[0]), depth, entries[1..]);
    }
  }

  datatype Connected = Connected(tables: Tables, connected: nat, checkpoint: Option<Checkpoint>)

  /** A connect call: the batch, and then, once there is a Bitcoin tail to measure against,
      a checkpoint attempt on what the batch left. None if the batch is refused. */
  method ConnectAndAttempt(c: Consensus, t: Tables, entries: seq<Entry>, roots: seq<Hash>, tail: Option<(nat, nat)>,
                           ghost depth: Hash -> nat) returns (r: Option<Connected>)
    requires Acyclic(c, depth) && Indexed(c, t)
    requires forall x :: x in roots <==> x in t.roots
    ensures r.None? <==> StoreBatch(c, t, depth, entries).None?
    ensures r.Some? ==> Some(r.value.tables) == StoreBatch(c, t, depth, entries) && r.value.connected == |entries|
    ensures r.Some? && tail.None? ==> r.value.checkpoint.None?
    ensures r.Some? && tail.Some? ==>
      IsBestCheckpoint(r.value.tables, tail.value.0, tail.value.1, r.value.checkpoint)
  {
    var stored := ConnectHeaders(c, t, entries, depth);
    if stored.None? {
      return None;
    }
    BatchKeepsRoots(c, t, depth, entries);
    var checkpoint := None;
    if tail.Some? {
      checkpoint := AttemptCheckpoint(stored.value, roots, tail.value.0, tail.value.1);
    }
    r := Some(Connected(stored.value, |entries|, checkpoint));
  }

  /** A block whose parent is not stored is not refused for it: it is accepted exactly when
      it has no uncles, commits to that, and passes the rules for a header on its own. */
  lemma OrphanAccepted(c: Consensus, t: Tables, depth: Hash -> nat, e: Entry)
    requires Grounded(AncestryOf(t), depth) && e.header.parentHash !in t.headers
    ensures ValidateEntry(c, t, depth, e).None?
       <==> && e.uncles == [] && e.header.uncleCount == 0
            && c.commit([]) == e.header.ommersHash && c.staticOk(e.header)
  {
    if e.uncles != [] {
      var stretch := Window(AncestryOf(t), depth, e.header.number, e.header.parentHash);
      assert stretch == [];
      assert !Admissible(c, AncestryOf(t), e.header.number, AncestorsIn(stretch), UsedIn(c, AncestryOf(t), stretch),
        e.uncles[0]);
      ListExact(c, AncestryOf(t), depth, e.header, e.uncles);
    }
  }

  /** With everything else about it in order, one uncle is accepted. */
  ghost predicate ReadyFor(c: Consensus, t: Tables, depth: Hash -> nat, h: Header, v: Header)
    requires Grounded(AncestryOf(t), depth)
  {
    var ancestors := AncestorsIn(Window(AncestryOf(t), depth, h.number, h.parentHash));
    && h.uncleCount == 1 && c.commit([v]) == h.ommersHash && VerifyHeader(c, t, h) && c.staticOk(v)
    && h.number <= v.number + UNCLE_GENERATION_LIMIT - 1 && v.number < h.number
    && c.hash(v) !in ancestors && v.parentHash in t.headers && v.parentHash in ancestors
    && ParentRules(c, v, t.headers[v.parentHash])
  }

  /** It is then accepted exactly when no stored list of the window names it. */
  lemma UncleAccepted(c: Consensus, t: Tables, depth: Hash -> nat, h: Header, v: Header)
    requires Grounded(AncestryOf(t), depth) && ReadyFor(c, t, depth, h, v)
    ensures ValidateEntry(c, t, depth, Entry(h, [v])).None?
       <==> c.hash(v) !in UsedIn(c, AncestryOf(t), Window(AncestryOf(t), depth, h.number, h.parentHash))
  {
    var a := AncestryOf(t);
    var stretch := Window(a, depth, h.number, h.parentHash);
    ListExact(c, a, depth, h, [v]);
    assert Admissible(c, a, h.number, AncestorsIn(stretch), UsedIn(c, a, stretch), v)
      <==> c.hash(v) !in UsedIn(c, a, stretch);
    assert [v][0] == v;
  }

  /** One block stored: by a batch after its rules were run, or as a proposed root without. */
  datatype Step = Step(entry: Entry, validated: bool)

  ghost predicate StepOk(c: Consensus, depth: Hash -> nat, t: Tables, s: Step, t': Tables) {
    && t' == PutEntry(c, t, s.entry).(roots := t'.roots)
    && (s.validated ==> Grounded(AncestryOf(t), depth) && ValidateEntry(c, t, depth, s.entry).None?)
  }

  /** A run: the store before and after each block stored. Refused batches store nothing, and
      a proposed root comes with any uncle list. */
  ghost predicate Run(c: Consensus, depth: Hash -> nat, stores: seq<Tables>, steps: seq<Step>) {
    && |stores| == |steps| + 1
    && Indexed(c, stores[0])
    && forall i {:trigger steps[i]} :: 0 <= i < |steps| ==> StepOk(c, depth, stores[i], steps[i], stores[i + 1])
  }

  /** The put list names every uncle that the list stored for the block does. */
  predicate NamesKept(c: Consensus, t: Tables, e: Entry) {
    HashesOf(c, UnclesOf(AncestryOf(t), c.hash(e.header))) <= HashesOf(c, e.uncles)
  }

  predicate KeepingRun(c: Consensus, stores: seq<Tables>, steps: seq<Step>)
    requires |stores| == |steps| + 1
  {
    forall i {:trigger steps[i]} :: 0 <= i < |steps| ==> NamesKept(c, stores[i], steps[i].entry)
  }

  /** No step of the run replaces the uncle list of a stored block. */
  predicate SteadyRun(c: Consensus, stores: seq<Tables>, steps: seq<Step>)
    requires |stores| == |steps| + 1
  {
    forall i {:trigger steps[i]} :: 0 <= i < |steps| ==> Steady(c, stores[i], steps[i].entry)
  }

  function BatchStores(c: Consensus, t: Tables, entries: seq<Entry>): (stores: seq<Tables>)
    ensures |stores| == |entries| + 1 && stores[0] == t
    decreases |entries|
  {
    if entries == [] then [t] else [t] + BatchStores(c, PutEntry(c, t, entries[0]), entries[1..])
  }

  function BatchSteps(entries: seq<Entry>): (steps: seq<Step>)
    ensures |steps| == |entries| && forall i :: 0 <= i < |entries| ==> steps[i] == Step(entries[i], true)
  {
    if entries == [] then [] else [Step(entries[0], true)] + BatchSteps(entries[1..])
  }

  /** The batch's stores make a run that ends in `end`. */
  ghost predicate BatchRuns(c: Consensus, depth: Hash -> nat, t: Tables, entries: seq<Entry>, end: Tables) {
    Run(c, depth, BatchStores(c, t, entries), BatchSteps(entries)) && BatchStores(c, t, entries)[|entries|] == end
  }

  /** A batch that goes through is a run, from the store it found to the one it leaves. */
  lemma {:induction false} BatchIsRun(c: Consensus, t: Tables, depth: Hash -> nat, entries: seq<Entry>)
    requires Acyclic(c, depth) && Indexed(c, t) && StoreBatch(c, t, depth, entries).Some?
    ensures BatchRuns(c, depth, t, entries, StoreBatch(c, t, depth, entries).value)
    decreases |entries|
  {
    if entries != [] {
      PutIsIndexed(c, t, entries[0]);
      FirstOfBatch(c, t, depth, entries);
      BatchIsRun(c, PutEntry(c, t, entries[0]), depth, entries[1..]);
      BatchOneBefore(c, depth, t, entries, StoreBatch(c, t, depth, entries).value);
    }
  }

  lemma BatchOneBefore(c: Consensus, depth: Hash -> nat, t: Tables, entries: seq<Entry>, end: Tables)
    requires entries != [] && Indexed(c, t)
    requires StepOk(c, depth, t, Step(entries[0], true), PutEntry(c, t, entries[0]))
    requires BatchRuns(c, depth, PutEntry(c, t, entries[0]), entries[1..], end)
    ensures BatchRuns(c, depth, t, entries, end)
  {
    var stores, steps := BatchStores(c, PutEntry(c, t, entries[0]), entries[1..]), BatchSteps(entries[1..]);
    RunOneBefore(c, depth, t, Step(entries[0], true), stores, steps);
  }

  lemma FirstOfBatch(c: Consensus, t: Tables, depth: Hash -> nat, entries: seq<Entry>)
    requires entries != [] && StoreBatch(c, t, depth, entries).Some?
    ensures StepOk(c, depth, t, Step(entries[0], true), PutEntry(c, t, entries[0]))
    ensures StoreBatch(c, PutEntry(c, t, entries[0]), depth, entries[1..]) == StoreBatch(c, t, depth, entries)
  {
  }

  lemma RunOneBefore(c: Consensus, depth: Hash -> nat, t: Tables, s: Step, stores: seq<Tables>, steps: seq<Step>)
    requires Run(c, depth, stores, steps) && Indexed(c, t) && StepOk(c, depth, t, s, stores[0])
    ensures Run(c, depth, [t] + stores, [s] + steps)
  {
    var all := [s] + steps;
    forall i | 0 <= i < |all| ensures StepOk(c, depth, ([t] + stores)[i], all[i], ([t] + stores)[i + 1]) {
      if i > 0 {
        assert all[i] == steps[i - 1] && ([t] + stores)[i] == stores[i - 1] && ([t] + stores)[i + 1] == stores[i];
      }
    }
  }

  lemma {:induction false} CommittedRunIsFaithful(c: Consensus, depth: Hash -> nat, stores: seq<Tables>,
                                                  steps: seq<Step>, m: nat)
    requires Run(c, depth, stores, steps) && Faithful(c, stores[0]) && m < |stores|
    requires forall i :: 0 <= i < |steps| ==> Committed(c, steps[i].entry)
    ensures Faithful(c, stores[m])
  {
    if m > 0 {
      CommittedRunIsFaithful(c, depth, stores, steps, m - 1);
      assert StepOk(c, depth, stores[m - 1], steps[m - 1], stores[m]);
      PutIsFaithful(c, stores[m - 1], steps[m - 1].entry);
    }
  }

  /** A run whose entries all carry the uncles their headers commit to replaces no list. */
  lemma CommittedRunIsSteady(c: Consensus, depth: Hash -> nat, stores: seq<Tables>, steps: seq<Step>)
    requires Binding(c) && Run(c, depth, stores, steps) && Faithful(c, stores[0])
    requires forall i :: 0 <= i < |steps| ==> Committed(c, steps[i].entry)
    ensures SteadyRun(c, stores, steps)
  {
    forall i | 0 <= i < |steps| ensures Steady(c, stores[i], steps[i].entry) {
      CommittedRunIsFaithful(c, depth, stores, steps, i);
      CommittedIsSteady(c, stores[i], steps[i].entry);
    }
  }

  /** The store has the entry's block. */
  predicate Known(c: Consensus, t: Tables, e: Entry) {
    var x := c.hash(e.header);
    x in t.headers && Alike(t.headers[x], e.header)
  }

  /** And with the entry's uncles. */
  predicate Holds(c: Consensus, t: Tables, e: Entry) {
    Known(c, t, e) && UnclesOf(AncestryOf(t), c.hash(e.header)) == e.uncles
  }

  lemma StepKnows(c: Consensus, depth: Hash -> nat, t: Tables, s: Step, t': Tables)
    requires NoCollision(c) && Indexed(c, t) && StepOk(c, depth, t, s, t')
    ensures Indexed(c, t') && Holds(c, t', s.entry)
    ensures forall e :: Known(c, t, e) ==> Known(c, t', e)
  {
    PutIsIndexed(c, t, s.entry);
  }

  lemma {:induction false} RunIsIndexed(c: Consensus, depth: Hash -> nat, stores: seq<Tables>, steps: seq<Step>, i: nat)
    requires Run(c, depth, stores, steps) && i < |stores|
    ensures Indexed(c, stores[i])
  {
    if i > 0 {
      RunIsIndexed(c, depth, stores, steps, i - 1);
      assert StepOk(c, depth, stores[i - 1], steps[i - 1], stores[i]);
      PutIsIndexed(c, stores[i - 1], steps[i - 1].entry);
    }
  }

  /** What one step stored, every later store knows. */
  lemma {:induction false} RunKnows(c: Consensus, depth: Hash -> nat, stores: seq<Tables>, steps: seq<Step>, k: nat,
                                    m: nat)
    requires NoCollision(c) && Run(c, depth, stores, steps) && k < m < |stores|
    ensures Known(c, stores[m], steps[k].entry)
    decreases m
  {
    RunIsIndexed(c, depth, stores, steps, m - 1);
    assert StepOk(c, depth, stores[m - 1], steps[m - 1], stores[m]);
    StepKnows(c, depth, stores[m - 1], steps[m - 1], stores[m]);
    if k < m - 1 {
      RunKnows(c, depth, stores, steps, k, m - 1);
    }
  }

  /** And holds with its uncles, if no step replaces a list. */
  lemma {:induction false} RunHolds(c: Consensus, depth: Hash -> nat, stores: seq<Tables>, steps: seq<Step>, k: nat,
                                    m: nat)
    requires NoCollision(c) && Run(c, depth, stores, steps) && SteadyRun(c, stores, steps) && k < m < |stores|
    ensures Holds(c, stores[m], steps[k].entry)
    decreases m
  {
    RunKnows(c, depth, stores, steps, k, m);
    assert StepOk(c, depth, stores[m - 1], steps[m - 1], stores[m]);
    if k < m - 1 {
      RunHolds(c, depth, stores, steps, k, m - 1);
      RunIsIndexed(c, depth, stores, steps, m - 1);
      assert Steady(c, stores[m - 1], steps[m - 1].entry);
    }
  }

  lemma StepWeighs(c: Consensus, depth: Hash -> nat, t: Tables, s: Step, t': Tables, root: Hash)
    requires NoCollision(c) && Indexed(c, t) && StepOk(c, depth, t, s, t') && Steady(c, t, s.entry)
    ensures Weight(t, root) <= Weight(t', root)
  {
    SteadyGrows(c, t, s.entry);
    WeightGrows(t, t', root);
  }

  lemma {:induction false} Climbs(weights: seq<nat>, i: nat, j: nat)
    requires i <= j < |weights|
    requires forall k :: 0 < k < |weights| ==> weights[k - 1] <= weights[k]
    ensures weights[i] <= weights[j]
    decreases j
  {
    if i < j {
      Climbs(weights, i, j - 1);
    }
  }

  ghost function Weights(stores: seq<Tables>, root: Hash): (weights: seq<nat>)
    ensures |weights| == |stores|
  {
    seq(|stores|, k requires 0 <= k < |stores| => Weight(stores[k], root))
  }

  lemma StepOfRunWeighs(c: Consensus, depth: Hash -> nat, stores: seq<Tables>, steps: seq<Step>, j: nat, root: Hash)
    requires NoCollision(c) && Run(c, depth, stores, steps) && SteadyRun(c, stores, steps) && 0 < j < |stores|
    ensures Weights(stores, root)[j - 1] <= Weights(stores, root)[j]
  {
    RunIsIndexed(c, depth, stores, steps, j - 1);
    assert StepOk(c, depth, stores[j - 1], steps[j - 1], stores[j]);
    assert Steady(c, stores[j - 1], steps[j - 1].entry);
    StepWeighs(c, depth, stores[j - 1], steps[j - 1], stores[j], root);
  }

  lemma RunClimbs(c: Consensus, depth: Hash -> nat, stores: seq<Tables>, steps: seq<Step>, root: Hash,
                  weights: seq<nat>)
    requires NoCollision(c) && Run(c, depth, stores, steps) && SteadyRun(c, stores, steps)
    requires weights == Weights(stores, root)
    ensures forall k :: 0 < k < |weights| ==> weights[k - 1] <= weights[k]
  {
    forall k | 0 < k < |weights| ensures weights[k - 1] <= weights[k] {
      StepOfRunWeighs(c, depth, stores, steps, k, root);
    }
  }

  /** Over a run that replaces no list no weight ever falls, whatever root it is taken from. */
  lemma WeightsNeverFall(c: Consensus, depth: Hash -> nat, stores: seq<Tables>, steps: seq<Step>, i: nat, j: nat,
                         root: Hash)
    requires NoCollision(c) && Run(c, depth, stores, steps) && SteadyRun(c, stores, steps) && i <= j < |stores|
    ensures Weight(stores[i], root) <= Weight(stores[j], root)
  {
    RunClimbs(c, depth, stores, steps, root, Weights(stores, root));
    Climbs(Weights(stores, root), i, j);
  }

  // ── a chain of accepted blocks ─────────────────────────────────────────────

  /** Each block hangs off the one before it. */
  predicate Linked(c: Consensus, chain: seq<Entry>) {
    forall i {:trigger chain[i]} :: 0 < i < |chain| ==> chain[i].header.parentHash == c.hash(chain[..i][i - 1].header)
  }

  /** Block `j` was validated against a store that knows the chain below it, with whatever
      uncle lists it has for those blocks by then. */
  ghost predicate AcceptedOver(c: Consensus, depth: Hash -> nat, t: Tables, chain: seq<Entry>, j: nat)
    requires j < |chain|
  {
    && Grounded(AncestryOf(t), depth)
    && (forall i :: 0 <= i < j ==> Known(c, t, chain[i]))
    && ValidateEntry(c, t, depth, chain[j]).None?
  }

  /** Every block of the chain but the first was. */
  ghost predicate AcceptedChain(c: Consensus, depth: Hash -> nat, chain: seq<Entry>, stores: seq<Tables>) {
    && |stores| == |chain| && Linked(c, chain)
    && forall j :: 0 < j < |chain| ==> AcceptedOver(c, depth, stores[j], chain, j)
  }

  lemma LinkBelow(c: Consensus, chain: seq<Entry>, j: nat)
    requires Linked(c, chain) && 0 < j < |chain|
    ensures chain[j].header.parentHash == c.hash(chain[j - 1].header)
  {
    assert chain[..j][j - 1] == chain[j - 1];
  }

  lemma {:induction false} NumbersRise(c: Consensus, depth: Hash -> nat, chain: seq<Entry>, stores: seq<Tables>, j: nat)
    requires AcceptedChain(c, depth, chain, stores) && j < |chain|
    ensures chain[j].header.number == chain[0].header.number + j
  {
    if j > 0 {
      NumbersRise(c, depth, chain, stores, j - 1);
      LinkBelow(c, chain, j);
      assert AcceptedOver(c, depth, stores[j], chain, j);
      assert Known(c, stores[j], chain[j - 1]);
    }
  }

  /** The walk from a chain block reaches every chain block below it that is not under the
      floor. */
  lemma {:induction false} StretchReaches(c: Consensus, depth: Hash -> nat, a: Tables, chain: seq<Entry>, k: nat,
                                          i: nat, floor: nat)
    requires Grounded(AncestryOf(a), depth) && Linked(c, chain) && i <= k < |chain|
    requires forall m :: 0 <= m <= k ==> Known(c, a, chain[m])
    requires forall m :: 0 <= m <= k ==> chain[m].header.number == chain[0].header.number + m
    requires chain[i].header.number >= floor
    ensures c.hash(chain[i].header) in Stretch(AncestryOf(a), depth, c.hash(chain[k].header), floor)
    decreases k
  {
    assert Known(c, a, chain[k]);
    if i < k {
      LinkBelow(c, chain, k);
      StretchReaches(c, depth, a, chain, k - 1, i, floor);
    }
  }

  /** The list the store has for the entry's block names the uncle. */
  predicate Lists(c: Consensus, t: Tables, e: Entry, uncle: Header) {
    c.hash(uncle) in HashesOf(c, UnclesOf(AncestryOf(t), c.hash(e.header)))
  }

  /** What the accepted uncle list of block `j` satisfies against the chain below it. */
  lemma UncleFacts(c: Consensus, depth: Hash -> nat, chain: seq<Entry>, stores: seq<Tables>, j: nat, u: nat)
    requires AcceptedChain(c, depth, chain, stores) && 0 < j < |chain| && u < |chain[j].uncles|
    ensures var uncle := chain[j].uncles[u];
      && chain[j].header.number <= uncle.number + UNCLE_GENERATION_LIMIT - 1 && uncle.number < chain[j].header.number
      && DistinctHashes(c, chain[j].uncles)
      && forall i :: 0 <= i < j && uncle.number <= chain[i].header.number ==>
           c.hash(uncle) != c.hash(chain[i].header) && !Lists(c, stores[j], chain[i], uncle)
  {
    assert AcceptedOver(c, depth, stores[j], chain, j);
    var a := AncestryOf(stores[j]);
    var stretch := Window(a, depth, chain[j].header.number, chain[j].header.parentHash);
    ListExact(c, a, depth, chain[j].header, chain[j].uncles);
    var uncle := chain[j].uncles[u];
    assert Admissible(c, a, chain[j].header.number, AncestorsIn(stretch), UsedIn(c, a, stretch), uncle);
    LinkBelow(c, chain, j);
    forall m | 0 <= m <= j ensures chain[m].header.number == chain[0].header.number + m {
      NumbersRise(c, depth, chain, stores, m);
    }
    forall i | 0 <= i < j && uncle.number <= chain[i].header.number
      ensures c.hash(uncle) != c.hash(chain[i].header) && !Lists(c, stores[j], chain[i], uncle)
    {
      StretchReaches(c, depth, stores[j], chain, j - 1, i, Floor(chain[j].header.number, UNCLE_GENERATION_LIMIT));
      InWindow(c, a, stretch, c.hash(chain[i].header), uncle);
    }
  }

  lemma InWindow(c: Consensus, a: Ancestry, stretch: seq<Hash>, x: Hash, uncle: Header)
    requires x in stretch
    requires c.hash(uncle) !in AncestorsIn(stretch) && c.hash(uncle) !in UsedIn(c, a, stretch)
    ensures c.hash(uncle) != x && c.hash(uncle) !in HashesOf(c, UnclesOf(a, x))
  {
    forall h | h in UnclesOf(a, x) ensures c.hash(h) != c.hash(uncle) {
      assert c.hash(h) in UsedIn(c, a, stretch);
    }
  }

  /** No uncle of an accepted block is a block of the chain, below it or above. */
  lemma NoUncleIsTrunk(c: Consensus, depth: Hash -> nat, chain: seq<Entry>, stores: seq<Tables>, j: nat, u: nat, i: nat)
    requires NoCollision(c) && AcceptedChain(c, depth, chain, stores)
    requires 0 < j < |chain| && u < |chain[j].uncles| && i < |chain|
    ensures c.hash(chain[j].uncles[u]) != c.hash(chain[i].header)
  {
    UncleFacts(c, depth, chain, stores, j, u);
    NumbersRise(c, depth, chain, stores, i);
    NumbersRise(c, depth, chain, stores, j);
  }

  /** The entry named the uncle, and the list the store has for its block no longer does. */
  predicate Forgets(c: Consensus, t: Tables, e: Entry, uncle: Header) {
    c.hash(uncle) in HashesOf(c, e.uncles) && !Lists(c, t, e, uncle)
  }

  /** No accepted block includes an uncle twice; and it includes one that an accepted block
      below it did if and only if its store had forgotten that. The generation limit makes the
      finite window enough. */
  lemma NoUncleTwice(c: Consensus, depth: Hash -> nat, chain: seq<Entry>, stores: seq<Tables>, i: nat, j: nat, u: nat)
    requires NoCollision(c) && AcceptedChain(c, depth, chain, stores)
    requires 0 < i < j < |chain| && u < |chain[j].uncles|
    ensures DistinctHashes(c, chain[j].uncles)
    ensures c.hash(chain[j].uncles[u]) in HashesOf(c, chain[i].uncles)
       <==> Forgets(c, stores[j], chain[i], chain[j].uncles[u])
  {
    UncleFacts(c, depth, chain, stores, j, u);
    var uncle := chain[j].uncles[u];
    if c.hash(uncle) in HashesOf(c, chain[i].uncles) {
      var h :| h in chain[i].uncles && c.hash(h) == c.hash(uncle);
      var v :| 0 <= v < |chain[i].uncles| && chain[i].uncles[v] == h;
      UncleFacts(c, depth, chain, stores, i, v);
    }
  }

  /** As long as no put drops a name, what a step's list named stays listed. */
  lemma {:induction false} RunLists(c: Consensus, depth: Hash -> nat, stores: seq<Tables>, steps: seq<Step>, k: nat,
                                    m: nat, uncle: Header)
    requires Run(c, depth, stores, steps) && KeepingRun(c, stores, steps) && k < m < |stores|
    requires c.hash(uncle) in HashesOf(c, steps[k].entry.uncles)
    ensures Lists(c, stores[m], steps[k].entry, uncle)
    decreases m
  {
    assert StepOk(c, depth, stores[m - 1], steps[m - 1], stores[m]);
    if k < m - 1 {
      RunLists(c, depth, stores, steps, k, m - 1, uncle);
      assert NamesKept(c, stores[m - 1], steps[m - 1].entry);
    }
  }

  /** No store forgot an uncle that it then accepted again, from block `low` of the chain on. */
  predicate Remembered(c: Consensus, chain: seq<Entry>, stores: seq<Tables>, low: nat)
    requires |stores| == |chain|
  {
    forall i, j, u :: low <= i < j < |chain| && 0 <= u < |chain[j].uncles| ==>
      !Forgets(c, stores[j], chain[i], chain[j].uncles[u])
  }
}
