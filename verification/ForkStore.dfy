/** The Bitcoin tables: header rows, the hash index, fork metadata, the checkpoint spine
    and the small values beside them, with the reads every operation shares. */
module ForkStore {
  import opened Wrappers

  const DIFFICULTY_PERIOD: nat := 2016

  type Hash = nat

  /** A block header. `bits` is its compact target; `rest` stands for the version, the
      merkle root and the nonce, which nothing here reads. */
  datatype Header = Header(prev: Hash, time: nat, bits: nat, rest: nat)

  /** What the Bitcoin library supplies: the block hash, a target's work, the retarget
      computed from a period's first and last header, and the proof-of-work check. */
  datatype Rules = Rules(
    hash: Header -> Hash,
    work: nat -> nat,
    retarget: (Header, Header) -> nat,
    validPow: Header -> bool,
    enforcesDifficulty: bool)

  datatype Place = Place(fork: nat, height: nat)

  /** A header and its cumulative work on its fork. */
  datatype Row = Row(header: Header, work: nat)

  datatype ForkMeta = ForkMeta(
    forkpoint: nat,
    parent: Option<nat>,
    forkpointHash: Hash,
    tipHeight: nat,
    tipHash: Hash)

  datatype Tables = Tables(
    rows: map<Place, Row>,
    index: map<Hash, Place>,
    forks: map<nat, ForkMeta>,
    spine: map<nat, Header>,
    seedHeight: Option<nat>,
    best: Option<nat>,
    nextFork: Option<nat>,
    floor: Option<nat>,
    network: Option<nat>)

  const Empty: Tables := Tables(map[], map[], map[], map[], None, None, None, None, None)

  // ── reads ──────────────────────────────────────────────────────────────────

  /** The fork on `f`'s ancestry that owns `height`: the first whose forkpoint is at or
      below it. Parents have smaller ids in every reachable store, and the walk takes
      only such steps. */
  function OwnerFork(forks: map<nat, ForkMeta>, f: nat, height: nat): Option<nat>
    decreases f
  {
    if f !in forks then None
    else if height >= forks[f].forkpoint then Some(f)
    else
      match forks[f].parent
      case None => None
      case Some(p) => if p < f then OwnerFork(forks, p, height) else None
  }

  function RowAt(t: Tables, f: nat, height: nat): Option<Row> {
    match OwnerFork(t.forks, f, height)
    case None => None
    case Some(owner) =>
      if Place(owner, height) in t.rows then Some(t.rows[Place(owner, height)]) else None
  }

  function HeaderAt(t: Tables, f: nat, height: nat): Option<Header> {
    match RowAt(t, f, height)
    case None => None
    case Some(row) => Some(row.header)
  }

  function WorkAt(t: Tables, f: nat, height: nat): Option<nat> {
    match RowAt(t, f, height)
    case None => None
    case Some(row) => Some(row.work)
  }

  function ForkTip(t: Tables, f: nat): Option<nat> {
    if f in t.forks then Some(t.forks[f].tipHeight) else None
  }

  /** Cumulative work of a fork at its tip, the number fork selection compares. */
  function ForkChainwork(t: Tables, f: nat): Option<nat> {
    if f in t.forks then WorkAt(t, f, t.forks[f].tipHeight) else None
  }

  // ── writes ─────────────────────────────────────────────────────────────────

  function CreateFork(t: Tables, parent: nat, forkpoint: nat, forkpointHash: Hash): Tables {
    var id := t.nextFork.GetOr(1);
    var meta := ForkMeta(forkpoint, Some(parent), forkpointHash, if forkpoint > 0 then forkpoint - 1 else 0, 0);
    t.(forks := t.forks[id := meta], nextFork := Some(id + 1))
  }

  function PutRow(r: Rules, t: Tables, f: nat, height: nat, header: Header, work: nat): Tables {
    t.(rows := t.rows[Place(f, height) := Row(header, work)],
       index := t.index[r.hash(header) := Place(f, height)],
       spine := if f == 0 && height % DIFFICULTY_PERIOD == 0 then t.spine[height := header] else t.spine)
  }

  /** Work of a run of headers. */
  function RunWork(r: Rules, headers: seq<Header>): nat {
    if headers == [] then 0 else RunWork(r, headers[..|headers| - 1]) + r.work(headers[|headers| - 1].bits)
  }

  /** Store a run of headers from `height` on, each with its cumulative work. */
  function PutRun(r: Rules, t: Tables, f: nat, height: nat, headers: seq<Header>, base: nat): Tables {
    if headers == [] then t
    else
      var n := |headers| - 1;
      PutRow(r, PutRun(r, t, f, height, headers[..n], base), f, height + n, headers[n], base + RunWork(r, headers))
  }

  function SetTip(t: Tables, f: nat, height: nat, hash: Hash): Tables
    requires f in t.forks
  {
    t.(forks := t.forks[f := t.forks[f].(tipHeight := height, tipHash := hash)])
  }

  /** Whether a place is one of the `n` a run fills on fork `f` from `height` on. */
  predicate InRun(k: Place, f: nat, height: nat, n: nat) {
    k.fork == f && height <= k.height < height + n
  }

  /** The rows of a run, and nothing else. */
  lemma {:induction false} PutRunRows(r: Rules, t: Tables, f: nat, height: nat, headers: seq<Header>, base: nat)
    ensures forall k ::
              k in PutRun(r, t, f, height, headers, base).rows <==> k in t.rows || InRun(k, f, height, |headers|)
    ensures forall k :: k in t.rows && !InRun(k, f, height, |headers|) ==>
              PutRun(r, t, f, height, headers, base).rows[k] == t.rows[k]
    decreases |headers|
  {
    if headers != [] {
      PutRunRows(r, t, f, height, headers[..|headers| - 1], base);
    }
  }

  lemma {:induction false} PutRunRow(r: Rules, t: Tables, f: nat, height: nat, headers: seq<Header>, base: nat, i: nat)
    requires i < |headers|
    ensures Place(f, height + i) in PutRun(r, t, f, height, headers, base).rows
    ensures PutRun(r, t, f, height, headers, base).rows[Place(f, height + i)]
         == Row(headers[i], base + RunWork(r, headers[..i + 1]))
    decreases |headers|
  {
    var n := |headers| - 1;
    if i < n {
      PutRunRow(r, t, f, height, headers[..n], base, i);
      assert headers[..n][..i + 1] == headers[..i + 1];
    } else {
      assert headers[..n + 1] == headers;
    }
  }

  predicate Distinct(r: Rules, headers: seq<Header>) {
    forall i, j :: 0 <= i < j < |headers| ==> r.hash(headers[i]) != r.hash(headers[j])
  }

  /** The index entries of a run of distinct hashes, and nothing else. */
  lemma {:induction false} PutRunIndexed(r: Rules, t: Tables, f: nat, height: nat, headers: seq<Header>, base: nat,
                                         i: nat)
    requires Distinct(r, headers) && i < |headers|
    ensures r.hash(headers[i]) in PutRun(r, t, f, height, headers, base).index
    ensures PutRun(r, t, f, height, headers, base).index[r.hash(headers[i])] == Place(f, height + i)
    decreases |headers|
  {
    var n := |headers| - 1;
    if i < n {
      PutRunIndexed(r, t, f, height, headers[..n], base, i);
    }
  }

  predicate HashIn(r: Rules, x: Hash, headers: seq<Header>) {
    exists i :: 0 <= i < |headers| && r.hash(headers[i]) == x
  }

  lemma {:induction false} PutRunIndex(r: Rules, t: Tables, f: nat, height: nat, headers: seq<Header>, base: nat,
                                       x: Hash)
    ensures x in PutRun(r, t, f, height, headers, base).index <==> x in t.index || HashIn(r, x, headers)
    ensures x in t.index && !HashIn(r, x, headers) ==> PutRun(r, t, f, height, headers, base).index[x] == t.index[x]
    decreases |headers|
  {
    if headers != [] {
      var n := |headers| - 1;
      PutRunIndex(r, t, f, height, headers[..n], base, x);
      assert HashIn(r, x, headers) <==> HashIn(r, x, headers[..n]) || x == r.hash(headers[n]) by {
        if HashIn(r, x, headers) {
          var i :| 0 <= i < |headers| && r.hash(headers[i]) == x;
          assert i < n ==> headers[..n][i] == headers[i];
        }
      }
    }
  }

  /** A run touches rows, index and spine only. */
  lemma {:induction false} PutRunFrame(r: Rules, t: Tables, f: nat, height: nat, headers: seq<Header>, base: nat)
    ensures var t' := PutRun(r, t, f, height, headers, base);
            t' == t.(rows := t'.rows, index := t'.index, spine := t'.spine)
    decreases |headers|
  {
    if headers != [] {
      PutRunFrame(r, t, f, height, headers[..|headers| - 1], base);
    }
  }

  /** On the root chain a run's period boundaries join the spine; elsewhere none do. */
  lemma {:induction false} PutRunSpine(r: Rules, t: Tables, f: nat, height: nat, headers: seq<Header>, base: nat,
                                       h: nat)
    ensures var spine := PutRun(r, t, f, height, headers, base).spine;
            var added := f == 0 && h % DIFFICULTY_PERIOD == 0 && height <= h < height + |headers|;
            && (h in spine <==> h in t.spine || added)
            && (added ==> spine[h] == headers[h - height])
            && (h in t.spine && !added ==> spine[h] == t.spine[h])
    decreases |headers|
  {
    if headers != [] {
      PutRunSpine(r, t, f, height, headers[..|headers| - 1], base, h);
    }
  }
}
