/** What seeding the checkpoint spine and connecting a batch of headers do to the
    Bitcoin tables, as functions. An error leaves the tables as they were. */
module ForkSpec {
  import opened ForkStore
  import opened Wrappers

  const MEDIAN_TIME_PAST: nat := 11
  const FINALITY_MARGIN: nat := DIFFICULTY_PERIOD

  datatype Error =
    | AlreadySeeded
    | Internal
    | NetworkMismatch(seeded: nat, running: nat)
    | UnknownAncestor(hash: Hash)
    | ForkBelowFinalized(fork: nat, finalized: nat)
    | LinkBreak(height: nat, expected: Hash)
    | BadDifficulty(height: nat, expected: nat, got: nat)
    | BadTimestamp(height: nat, median: nat, got: nat)
    | BadPow(height: nat)

  datatype Outcome = Outcome(
    connected: nat,
    prevBest: Option<nat>,
    best: Option<nat>,
    tipHeight: nat,
    finalized: Option<nat>)

  // ── seeding ────────────────────────────────────────────────────────────────

  datatype Entry = Entry(height: nat, header: Header)

  function InsertByHeight(e: Entry, s: seq<Entry>): seq<Entry> {
    if s == [] || e.height <= s[0].height then [e] + s else [s[0]] + InsertByHeight(e, s[1..])
  }

  function SortByHeight(s: seq<Entry>): seq<Entry> {
    if s == [] then [] else InsertByHeight(s[0], SortByHeight(s[1..]))
  }

  /** One period apart: each entry is a whole period above the one before it. */
  predicate Contiguous(s: seq<Entry>) {
    forall i :: 0 <= i < |s| ==> s[i].height == s[0].height + DIFFICULTY_PERIOD * i
  }

  /** The cumulative work the spine assigns to its last entry: the first boundary block
      alone, then a whole period at each boundary's own work. */
  function LadderWork(r: Rules, s: seq<Entry>): nat {
    if s == [] then 0
    else if |s| == 1 then r.work(s[0].header.bits)
    else
      var n := |s| - 1;
      LadderWork(r, s[..n]) + (DIFFICULTY_PERIOD - 1) * r.work(s[n - 1].header.bits) + r.work(s[n].header.bits)
  }

  function PutSeed(r: Rules, t: Tables, e: Entry, work: nat): Tables {
    t.(rows := t.rows[Place(0, e.height) := Row(e.header, work)],
       index := t.index[r.hash(e.header) := Place(0, e.height)],
       spine := t.spine[e.height := e.header])
  }

  function PutSeeds(r: Rules, t: Tables, s: seq<Entry>): Tables {
    if s == [] then t
    else PutSeed(r, PutSeeds(r, t, s[..|s| - 1]), s[|s| - 1], LadderWork(r, s))
  }

  function Seed(r: Rules, t: Tables, entries: seq<Entry>, network: nat): Result<Tables, Error> {
    var sorted := SortByHeight(entries);
    if 0 in t.forks then Err(AlreadySeeded)
    else if sorted == [] || !Contiguous(sorted) then Err(Internal)
    else
      var last := sorted[|sorted| - 1];
      var root := ForkMeta(0, None, r.hash(sorted[0].header), last.height, r.hash(last.header));
      var t' := PutSeeds(r, t, sorted);
      Ok(t'.(forks := t'.forks[0 := root],
             seedHeight := Some(sorted[0].height),
             floor := Some(last.height),
             best := Some(0),
             nextFork := Some(1),
             network := Some(network)))
  }

  // ── header checks ──────────────────────────────────────────────────────────

  /** The header at `height` on the chain being extended: from the new run at or above
      its start, else from the store. */
  function At(t: Tables, f: nat, start: nat, run: seq<Header>, height: nat): Option<Header> {
    if start <= height < start + |run| then Some(run[height - start]) else HeaderAt(t, f, height)
  }

  function ExpectedBits(r: Rules, height: nat, parent: Header, periodStart: Option<Header>): Option<nat> {
    if height % DIFFICULTY_PERIOD != 0 then Some(parent.bits)
    else
      match periodStart
      case None => None
      case Some(first) => Some(r.retarget(first, parent))
  }

  /** The timestamps of the `k` headers below `height`, newest first; None if any is
      not available. */
  function Times(t: Tables, f: nat, start: nat, run: seq<Header>, height: nat, k: nat): Option<seq<nat>> {
    if k == 0 then Some([])
    else if height == 0 then None
    else
      match At(t, f, start, run, height - 1)
      case None => None
      case Some(header) =>
        match Times(t, f, start, run, height - 1, k - 1)
        case None => None
        case Some(older) => Some([header.time] + older)
  }

  function InsertSorted(x: nat, s: seq<nat>): seq<nat> {
    if s == [] || x <= s[0] then [x] + s else [s[0]] + InsertSorted(x, s[1..])
  }

  function Sorted(s: seq<nat>): (sorted: seq<nat>)
    ensures |sorted| == |s|
  {
    if s == [] then [] else InsertedLength(s[0], Sorted(s[1..])); InsertSorted(s[0], Sorted(s[1..]))
  }

  lemma {:induction false} InsertedLength(x: nat, s: seq<nat>)
    ensures |InsertSorted(x, s)| == |s| + 1
  {
    if s != [] {
      InsertedLength(x, s[1..]);
    }
  }

  /** The sixth smallest of eleven timestamps. */
  function Median(times: seq<nat>): nat
    requires |times| == MEDIAN_TIME_PAST
  {
    Sorted(times)[MEDIAN_TIME_PAST / 2]
  }

  lemma {:induction false} TimesLength(t: Tables, f: nat, start: nat, run: seq<Header>, height: nat, k: nat)
    ensures Times(t, f, start, run, height, k).Some? ==> |Times(t, f, start, run, height, k).value| == k
    decreases k
  {
    if k > 0 && height > 0 {
      TimesLength(t, f, start, run, height - 1, k - 1);
    }
  }

  function MedianTimePast(t: Tables, f: nat, start: nat, run: seq<Header>, height: nat): Option<nat> {
    TimesLength(t, f, start, run, height, MEDIAN_TIME_PAST);
    match Times(t, f, start, run, height, MEDIAN_TIME_PAST)
    case None => None
    case Some(times) => Some(Median(times))
  }

  function CheckDifficulty(r: Rules, t: Tables, f: nat, start: nat, run: seq<Header>, height: nat,
                           header: Header): Option<Error>
    requires height > 0
  {
    if !r.enforcesDifficulty then None
    else
      match At(t, f, start, run, height - 1)
      case None => Some(Internal)
      case Some(parent) =>
        var periodStart := if height >= DIFFICULTY_PERIOD then At(t, f, start, run, height - DIFFICULTY_PERIOD)
          else None;
        match ExpectedBits(r, height, parent, periodStart)
        case None => None
        case Some(expected) =>
          if header.bits != expected then Some(BadDifficulty(height, expected, header.bits)) else None
  }

  /** The checks on one header, in order: the link, the difficulty, the median time, the
      proof of work. */
  function CheckHeader(r: Rules, t: Tables, f: nat, start: nat, run: seq<Header>, i: nat, prev: Hash): Option<Error>
    requires i < |run| && start > 0
  {
    var height := start + i;
    var header := run[i];
    if header.prev != prev then Some(LinkBreak(height, prev))
    else
      match CheckDifficulty(r, t, f, start, run, height, header)
      case Some(e) => Some(e)
      case None =>
        var median := MedianTimePast(t, f, start, run, height);
        if median.Some? && header.time <= median.value then Some(BadTimestamp(height, median.value, header.time))
        else if !r.validPow(header) then Some(BadPow(height))
        else None
  }

  /** The first failing check of the headers from the `i`th on. */
  function CheckRun(r: Rules, t: Tables, f: nat, start: nat, run: seq<Header>, i: nat, prev: Hash): Option<Error>
    requires i <= |run| && start > 0
    decreases |run| - i
  {
    if i == |run| then None
    else
      match CheckHeader(r, t, f, start, run, i, prev)
      case Some(e) => Some(e)
      case None => CheckRun(r, t, f, start, run, i + 1, r.hash(run[i]))
  }

  // ── connecting ─────────────────────────────────────────────────────────────

  /** How many leading headers are stored already. */
  function KnownPrefix(r: Rules, t: Tables, headers: seq<Header>): (n: nat)
    ensures n <= |headers|
    ensures n < |headers| ==> r.hash(headers[n]) !in t.index
  {
    if headers != [] && r.hash(headers[0]) in t.index then 1 + KnownPrefix(r, t, headers[1..]) else 0
  }

  /** Select `f` if it is strictly heavier than the best fork. */
  function Reselect(t: Tables, f: nat): Tables {
    var best := t.best.GetOr(0);
    if f != best && ForkChainwork(t, f).GetOr(0) > ForkChainwork(t, best).GetOr(0)
    then t.(best := Some(f))
    else t
  }

  /** The boundary a root tip at `tip` settles, at least a whole period below it. */
  function Boundary(tip: nat): nat
    requires tip >= FINALITY_MARGIN
  {
    (tip - FINALITY_MARGIN) / DIFFICULTY_PERIOD * DIFFICULTY_PERIOD
  }

  /** Advance the floor if the root is best and the work above the new boundary is at
      least that of the period below it. None means an absent row. */
  function Finalize(t: Tables): Option<(Tables, Option<nat>)> {
    if t.best != Some(0) || 0 !in t.forks || t.forks[0].tipHeight < FINALITY_MARGIN then Some((t, None))
    else
      var tip := t.forks[0].tipHeight;
      var boundary := Boundary(tip);
      if boundary <= t.floor.GetOr(0) then Some((t, None))
      else
        var below, at, top := WorkAt(t, 0, boundary - DIFFICULTY_PERIOD), WorkAt(t, 0, boundary), WorkAt(t, 0, tip);
        if below.None? || at.None? || top.None? then None
        else if top.value - at.value < at.value - below.value then Some((t, None))
        else Some((t.(floor := Some(boundary)), Some(boundary)))
  }

  /** Validate and store a run on fork `f` from height `start`, its parent at `parent`. */
  function Extend(r: Rules, t: Tables, f: nat, start: nat, parent: Place, parentHash: Hash, run: seq<Header>,
                  prevBest: Option<nat>): Result<(Tables, Outcome), Error>
    requires start > 0 && run != [] && f in t.forks
  {
    match CheckRun(r, t, f, start, run, 0, parentHash)
    case Some(e) => Err(e)
    case None =>
      match WorkAt(t, parent.fork, parent.height)
      case None => Err(Internal)
      case Some(base) =>
        Finish(Reselect(Store(r, t, f, start, run, base), f), start, run, prevBest)
  }

  /** The floor step and the outcome, once the run is stored and the best fork chosen. */
  function Finish(t: Tables, start: nat, run: seq<Header>, prevBest: Option<nat>): Result<(Tables, Outcome), Error>
    requires start > 0
  {
    match Finalize(t)
    case None => Err(Internal)
    case Some((t', finalized)) =>
      var tip := if prevBest.Some? then ForkTip(t', t.best.GetOr(0)).GetOr(0) else start + |run| - 1;
      Ok((t', Outcome(|run|, prevBest, Some(t.best.GetOr(0)), tip, finalized)))
  }

  /** The run's rows, and the fork's new tip. */
  function Store(r: Rules, t: Tables, f: nat, start: nat, run: seq<Header>, base: nat): Tables
    requires run != [] && f in t.forks
  {
    PutRunFrame(r, t, f, start, run, base);
    SetTip(PutRun(r, t, f, start, run, base), f, start + |run| - 1, r.hash(run[|run| - 1]))
  }

  /** Attach a run to the fork whose tip is its parent, or start a new fork there. */
  function Attach(r: Rules, t: Tables, parent: Place, parentHash: Hash, run: seq<Header>)
    : Result<(Tables, Outcome), Error>
    requires run != []
  {
    var start := parent.height + 1;
    if parent.height == ForkTip(t, parent.fork).GetOr(0) then
      if parent.fork in t.forks then Extend(r, t, parent.fork, start, parent, parentHash, run, t.best)
      else Err(Internal)
    else if t.floor.Some? && start <= t.floor.value then Err(ForkBelowFinalized(start, t.floor.value))
    else
      var t' := CreateFork(t, parent.fork, start, r.hash(run[0]));
      Extend(r, t', t.nextFork.GetOr(1), start, parent, parentHash, run, t.best)
  }

  /** The hash the first header not yet stored must follow. */
  function ParentHash(r: Rules, headers: seq<Header>, n: nat): Hash
    requires n < |headers|
  {
    if n == 0 then headers[0].prev else r.hash(headers[n - 1])
  }

  function Connect(r: Rules, t: Tables, network: nat, headers: seq<Header>): Result<(Tables, Outcome), Error> {
    if t.network.Some? && t.network.value != network then Err(NetworkMismatch(t.network.value, network))
    else
      var n := KnownPrefix(r, t, headers);
      if n == |headers| then
        var tip := if t.best.Some? then ForkTip(t, t.best.value).GetOr(0) else 0;
        Ok((t, Outcome(0, t.best, t.best, tip, None)))
      else
        var parentHash := ParentHash(r, headers, n);
        if parentHash !in t.index then Err(UnknownAncestor(parentHash))
        else Attach(r, t, t.index[parentHash], parentHash, headers[n..])
  }
}
