/** The Bitcoin store as an object: a write transaction that updates its tables in place,
    and the core that commits it or drops it. Each method does what ForkSpec says. */
module ForkCore {
  import opened ForkChains
  import opened ForkInvariant
  import opened ForkRuns
  import opened ForkSeeding
  import opened ForkSpec
  import opened ForkStore
  import opened CheckpointExport
  import opened TailWork
  import opened Wrappers

  /** Parents have smaller ids, so every walk up an ancestry ends. */
  predicate ParentsDecrease(forks: map<nat, ForkMeta>) {
    forall f :: f in forks && forks[f].parent.Some? ==> forks[f].parent.value < f
  }

  /** Ancestry walks end, and every indexed block is on a fork older than the next one. */
  predicate WalksEnd(t: Tables) {
    && ParentsDecrease(t.forks)
    && forall x :: x in t.index ==> t.index[x].fork in t.forks && t.index[x].fork < t.nextFork.GetOr(1)
  }

  /** One header of a run, with the height and the cumulative work it is stored under. */
  datatype Stamped = Stamped(height: nat, header: Header, work: nat)

  predicate StampedRun(r: Rules, entries: seq<Stamped>, start: nat, run: seq<Header>, base: nat) {
    && |entries| == |run|
    && forall i :: 0 <= i < |run| ==> entries[i] == Stamped(start + i, run[i], base + RunWork(r, run[..i + 1]))
  }

  lemma PutRunSnoc(r: Rules, t: Tables, f: nat, start: nat, run: seq<Header>, base: nat, i: nat)
    requires i < |run|
    ensures PutRun(r, t, f, start, run[..i + 1], base)
         == PutRow(r, PutRun(r, t, f, start, run[..i], base), f, start + i, run[i], base + RunWork(r, run[..i + 1]))
  {
    assert run[..i + 1][..i] == run[..i] && run[..i + 1][i] == run[i];
  }

  lemma LadderSnoc(r: Rules, s: seq<Entry>, i: nat)
    requires i < |s|
    ensures LadderWork(r, s[..i + 1])
         == r.work(s[i].header.bits)
          + if i == 0 then 0 else LadderWork(r, s[..i]) + (DIFFICULTY_PERIOD - 1) * r.work(s[i - 1].header.bits)
  {
    assert s[..i + 1][..i] == s[..i];
  }

  lemma PutSeedsSnoc(r: Rules, t: Tables, s: seq<Entry>, i: nat)
    requires i < |s|
    ensures PutSeeds(r, t, s[..i + 1]) == PutSeed(r, PutSeeds(r, t, s[..i]), s[i], LadderWork(r, s[..i + 1]))
  {
    assert s[..i + 1][..i] == s[..i];
  }

  lemma PutNext(r: Rules, t: Tables, before: Tables, after: Tables, f: nat,
                entries: seq<Stamped>, start: nat, run: seq<Header>, base: nat, i: nat)
    requires StampedRun(r, entries, start, run, base) && i < |run|
    requires before == PutRun(r, t, f, start, run[..i], base)
    requires after == PutRow(r, before, f, entries[i].height, entries[i].header, entries[i].work)
    ensures after == PutRun(r, t, f, start, run[..i + 1], base)
  {
    PutRunSnoc(r, t, f, start, run, base, i);
  }

  /** `work` added to itself `n` times. */
  method WorkScaled(work: nat, n: nat) returns (acc: nat)
    ensures acc == n * work
  {
    acc := 0;
    for i := 0 to n
      invariant acc == i * work
    {
      acc := acc + work;
    }
  }

  class WriteTxn {
    const rules: Rules
    var rows: map<Place, Row>
    var index: map<Hash, Place>
    var forks: map<nat, ForkMeta>
    var spine: map<nat, Header>
    var seedHeight: Option<nat>
    var best: Option<nat>
    var nextFork: Option<nat>
    var floor: Option<nat>
    var network: Option<nat>

    /** Open a transaction on a snapshot of the committed tables. */
    constructor (rules: Rules, t: Tables)
      ensures View() == t && this.rules == rules
    {
      this.rules := rules;
      rows, index, forks, spine := t.rows, t.index, t.forks, t.spine;
      seedHeight, best, nextFork, floor, network := t.seedHeight, t.best, t.nextFork, t.floor, t.network;
    }

    function View(): Tables
      reads this
    {
      Tables(rows, index, forks, spine, seedHeight, best, nextFork, floor, network)
    }

    method FindOwner(f: nat, height: nat) returns (owner: Option<nat>)
      requires ParentsDecrease(forks)
      ensures owner == OwnerFork(forks, f, height)
    {
      var at := f;
      while true
        invariant OwnerFork(forks, f, height) == OwnerFork(forks, at, height)
        decreases at
      {
        if at !in forks {
          return None;
        }
        var meta := forks[at];
        if height >= meta.forkpoint {
          return Some(at);
        }
        match meta.parent {
          case None => return None;
          case Some(p) => at := p;
        }
      }
    }

    method ReadRow(f: nat, height: nat) returns (row: Option<Row>)
      requires ParentsDecrease(forks)
      ensures row == RowAt(View(), f, height)
    {
      var owner := FindOwner(f, height);
      if owner.None? || Place(owner.value, height) !in rows {
        return None;
      }
      row := Some(rows[Place(owner.value, height)]);
    }

    method ReadWork(f: nat, height: nat) returns (work: Option<nat>)
      requires ParentsDecrease(forks)
      ensures work == WorkAt(View(), f, height)
    {
      var row := ReadRow(f, height);
      work := if row.Some? then Some(row.value.work) else None;
    }

    method ReadChainwork(f: nat) returns (work: Option<nat>)
      requires ParentsDecrease(forks)
      ensures work == ForkChainwork(View(), f)
    {
      work := None;
      if f in forks {
        work := ReadWork(f, forks[f].tipHeight);
      }
    }

    /** The work of a Bitcoin tail that starts at a height. */
    method TailWorkFrom(tailStart: nat) returns (work: Option<int>)
      requires ParentsDecrease(forks)
      ensures work == BtcTailWork(View(), tailStart)
    {
      if best.None? {
        return None;
      }
      var begin := ReadWork(best.value, tailStart);
      var end := ReadWork(best.value, tailStart + DIFFICULTY_PERIOD);
      work := if begin.Some? && end.Some? then Some(Difference(end.value, begin.value)) else None;
    }

    /** A header of the run being connected, or a stored one below it. */
    method ReadAt(f: nat, start: nat, run: seq<Header>, height: nat) returns (header: Option<Header>)
      requires ParentsDecrease(forks)
      ensures header == At(View(), f, start, run, height)
    {
      if height >= start && height - start < |run| {
        return Some(run[height - start]);
      }
      var row := ReadRow(f, height);
      header := if row.Some? then Some(row.value.header) else None;
    }

    method OpenFork(parent: nat, forkpoint: nat, forkpointHash: Hash) returns (id: nat)
      modifies this
      ensures id == old(nextFork).GetOr(1)
      ensures View() == CreateFork(old(View()), parent, forkpoint, forkpointHash)
    {
      id := nextFork.GetOr(1);
      nextFork := Some(id + 1);
      var meta := ForkMeta(forkpoint, Some(parent), forkpointHash, if forkpoint > 0 then forkpoint - 1 else 0, 0);
      forks := forks[id := meta];
    }

    /** Insert one row, its index entry, and on the root its place in the spine. */
    method PutOne(f: nat, e: Stamped)
      modifies this`rows, this`index, this`spine
      ensures View() == PutRow(rules, old(View()), f, e.height, e.header, e.work)
    {
      rows := rows[Place(f, e.height) := Row(e.header, e.work)];
      index := index[rules.hash(e.header) := Place(f, e.height)];
      if f == 0 && e.height % DIFFICULTY_PERIOD == 0 {
        spine := spine[e.height := e.header];
      }
    }

    /** The rows of a run, one by one. */
    method PutRows(f: nat, entries: seq<Stamped>, ghost start: nat, ghost run: seq<Header>, ghost base: nat)
      requires StampedRun(rules, entries, start, run, base)
      modifies this`rows, this`index, this`spine
      ensures View() == PutRun(rules, old(View()), f, start, run, base)
    {
      ghost var t := View();
      for i := 0 to |entries|
        invariant View() == PutRun(rules, t, f, start, run[..i], base)
      {
        ghost var before := View();
        PutOne(f, entries[i]);
        PutNext(rules, t, before, View(), f, entries, start, run, base, i);
      }
      assert run[..|entries|] == run;
    }

    /** Append a run to a fork. */
    method PutHeaders(f: nat, entries: seq<Stamped>, ghost start: nat, ghost run: seq<Header>, ghost base: nat)
      requires run != [] && f in forks && StampedRun(rules, entries, start, run, base)
      modifies this
      ensures View() == Store(rules, old(View()), f, start, run, base)
    {
      ghost var t := View();
      PutRows(f, entries, start, run, base);
      PutRunFrame(rules, t, f, start, run, base);
      var last := entries[|entries| - 1];
      var hash := rules.hash(last.header);
      forks := forks[f := forks[f].(tipHeight := last.height, tipHash := hash)];
    }

    /** Collect the eleven timestamps below `height` and take their median. */
    method MedianBelow(f: nat, start: nat, run: seq<Header>, height: nat) returns (median: Option<nat>)
      requires ParentsDecrease(forks)
      ensures median == MedianTimePast(View(), f, start, run, height)
    {
      var times := new nat[MEDIAN_TIME_PAST];
      ghost var t := View();
      ghost var all := Times(t, f, start, run, height, MEDIAN_TIME_PAST);
      TimesLength(t, f, start, run, height, MEDIAN_TIME_PAST);
      assert all.Some? ==> times[..0] + all.value == all.value;
      for k := 0 to MEDIAN_TIME_PAST
        invariant k <= height
        invariant all == Prepend(times[..k], Times(t, f, start, run, height - k, MEDIAN_TIME_PAST - k))
      {
        if height < 1 + k {
          return None;
        }
        var header := ReadAt(f, start, run, height - 1 - k);
        if header.None? {
          return None;
        }
        times[k] := header.value.time;
        PrependOne(times[..k], times[k], Times(t, f, start, run, height - k - 1, MEDIAN_TIME_PAST - k - 1));
        assert times[..k + 1] == times[..k] + [times[k]];
      }
      assert times[..MEDIAN_TIME_PAST] == times[..] && times[..] + [] == times[..];
      var m := SortAndPick(times);
      median := Some(m);
    }

    method CheckOne(f: nat, start: nat, run: seq<Header>, i: nat, prev: Hash) returns (e: Option<Error>)
      requires ParentsDecrease(forks) && i < |run| && start > 0
      ensures e == CheckHeader(rules, View(), f, start, run, i, prev)
    {
      var height := start + i;
      var header := run[i];
      if header.prev != prev {
        return Some(LinkBreak(height, prev));
      }
      if rules.enforcesDifficulty {
        var parent := ReadAt(f, start, run, height - 1);
        if parent.None? {
          return Some(Internal);
        }
        var periodStart := None;
        if height >= DIFFICULTY_PERIOD {
          periodStart := ReadAt(f, start, run, height - DIFFICULTY_PERIOD);
        }
        var expected := ExpectedBits(rules, height, parent.value, periodStart);
        if expected.Some? && header.bits != expected.value {
          return Some(BadDifficulty(height, expected.value, header.bits));
        }
      }
      var median := MedianBelow(f, start, run, height);
      if median.Some? && header.time <= median.value {
        return Some(BadTimestamp(height, median.value, header.time));
      }
      e := if !rules.validPow(header) then Some(BadPow(height)) else None;
    }

    method CheckAll(f: nat, start: nat, run: seq<Header>, parentHash: Hash) returns (e: Option<Error>)
      requires ParentsDecrease(forks) && start > 0
      ensures e == CheckRun(rules, View(), f, start, run, 0, parentHash)
    {
      var prev := parentHash;
      for i := 0 to |run|
        invariant CheckRun(rules, View(), f, start, run, 0, parentHash)
               == CheckRun(rules, View(), f, start, run, i, prev)
      {
        e := CheckOne(f, start, run, i, prev);
        if e.Some? {
          return;
        }
        prev := rules.hash(run[i]);
      }
      e := None;
    }

    method SelectBest(f: nat)
      requires ParentsDecrease(forks)
      modifies this`best
      ensures View() == Reselect(old(View()), f)
    {
      var current := best.GetOr(0);
      var bestWork := ReadChainwork(current);
      var work := ReadChainwork(f);
      if f != current && work.GetOr(0) > bestWork.GetOr(0) {
        best := Some(f);
      }
    }

    /** Advance the floor; false reports a row that should be stored and is not. */
    method FinalizeInTxn() returns (ok: bool, moved: Option<nat>)
      requires ParentsDecrease(forks)
      modifies this`floor
      ensures ok <==> Finalize(old(View())).Some?
      ensures ok ==> Finalize(old(View())).value == (View(), moved)
      ensures !ok ==> View() == old(View())
    {
      ok, moved := true, None;
      if best != Some(0) || 0 !in forks || forks[0].tipHeight < FINALITY_MARGIN {
        return;
      }
      var tip := forks[0].tipHeight;
      var boundary := (tip - FINALITY_MARGIN) / DIFFICULTY_PERIOD * DIFFICULTY_PERIOD;
      if boundary <= floor.GetOr(0) {
        return;
      }
      var at := ReadWork(0, boundary);
      var below := ReadWork(0, boundary - DIFFICULTY_PERIOD);
      var top := ReadWork(0, tip);
      if at.None? || below.None? || top.None? {
        ok := false;
        return;
      }
      // The work above the boundary must reach that of the full period below it.
      var workBelow: int, workAt: int, workTop: int := below.value, at.value, top.value;
      if workTop - workAt < workAt - workBelow {
        return;
      }
      floor := Some(boundary);
      moved := Some(boundary);
    }

    /** A fork's headers at the period boundaries from zero up to the floor. */
    method BoundaryHeaders(f: nat, upTo: nat) returns (out: seq<Entry>)
      requires ParentsDecrease(forks)
      ensures out == Boundaries(View(), f, 0, upTo)
    {
      out := [];
      var height := 0;
      while height <= upTo
        invariant out + Boundaries(View(), f, height, upTo) == Boundaries(View(), f, 0, upTo)
        decreases upTo + DIFFICULTY_PERIOD - height
      {
        var row := ReadRow(f, height);
        if row.Some? {
          out := out + [Entry(height, row.value.header)];
        }
        height := height + DIFFICULTY_PERIOD;
      }
    }

    /** Validate a run, store it, choose the best fork and move the floor. */
    method ExtendRun(f: nat, start: nat, parent: Place, parentHash: Hash, run: seq<Header>, prevBest: Option<nat>)
      returns (result: Result<Outcome, Error>)
      requires ParentsDecrease(forks) && start > 0 && run != [] && f in forks
      modifies this
      ensures match Extend(rules, old(View()), f, start, parent, parentHash, run, prevBest)
              case Ok((t, outcome)) => result == Ok(outcome) && View() == t
              case Err(e) => result == Err(e)
    {
      var bad := CheckAll(f, start, run, parentHash);
      if bad.Some? {
        return Err(bad.value);
      }
      var base := ReadWork(parent.fork, parent.height);
      if base.None? {
        return Err(Internal);
      }
      var entries := Stamp(run, start, base.value);
      StoreKeepsParents(rules, View(), f, start, run, base.value);
      PutHeaders(f, entries, start, run, base.value);
      result := FinishRun(f, start, run, prevBest);
    }

    method FinishRun(f: nat, start: nat, run: seq<Header>, prevBest: Option<nat>)
      returns (result: Result<Outcome, Error>)
      requires ParentsDecrease(forks) && start > 0
      modifies this
      ensures match Finish(Reselect(old(View()), f), start, run, prevBest)
              case Ok((t, outcome)) => result == Ok(outcome) && View() == t
              case Err(e) => result == Err(e)
    {
      SelectBest(f);
      var chosen := best.GetOr(0);
      var ok, moved := FinalizeInTxn();
      if !ok {
        return Err(Internal);
      }
      var tip := if prevBest.None? then start + |run| - 1
                 else if chosen in forks then forks[chosen].tipHeight else 0;
      result := Ok(Outcome(|run|, prevBest, Some(chosen), tip, moved));
    }

    /** The cumulative work of each header of a run. */
    method Stamp(run: seq<Header>, start: nat, base: nat) returns (entries: seq<Stamped>)
      ensures StampedRun(rules, entries, start, run, base)
    {
      entries := [];
      var cumulative := base;
      for i := 0 to |run|
        invariant |entries| == i && cumulative == base + RunWork(rules, run[..i])
        invariant forall j :: 0 <= j < i ==>
                    entries[j] == Stamped(start + j, run[j], base + RunWork(rules, run[..j + 1]))
      {
        assert run[..i + 1][..i] == run[..i];
        cumulative := cumulative + rules.work(run[i].bits);
        entries := entries + [Stamped(start + i, run[i], cumulative)];
      }
    }

    /** Extend the fork whose tip is the parent, or open one there above the floor. */
    method AttachRun(parent: Place, parentHash: Hash, run: seq<Header>) returns (result: Result<Outcome, Error>)
      requires ParentsDecrease(forks) && parent.fork in forks && parent.fork < nextFork.GetOr(1) && run != []
      modifies this
      ensures match Attach(rules, old(View()), parent, parentHash, run)
              case Ok((t, outcome)) => result == Ok(outcome) && View() == t
              case Err(e) => result == Err(e)
    {
      var prevBest := best;
      var forkpoint := parent.height + 1;
      var target := parent.fork;
      if parent.height != forks[parent.fork].tipHeight {
        if floor.Some? && forkpoint <= floor.value {
          return Err(ForkBelowFinalized(forkpoint, floor.value));
        }
        target := OpenFork(parent.fork, forkpoint, rules.hash(run[0]));
      }
      result := ExtendRun(target, forkpoint, parent, parentHash, run, prevBest);
    }

    /** How many leading headers are stored already. */
    method SkipKnown(headers: seq<Header>) returns (start: nat)
      ensures start == KnownPrefix(rules, View(), headers)
    {
      start := 0;
      while start < |headers| && rules.hash(headers[start]) in index
        invariant 0 <= start <= |headers|
        invariant KnownPrefix(rules, View(), headers) == start + KnownPrefix(rules, View(), headers[start..])
      {
        assert headers[start..][1..] == headers[start + 1..];
        start := start + 1;
      }
    }

    method PutSeedRow(e: Entry, work: nat)
      modifies this`rows, this`index, this`spine
      ensures View() == PutSeed(rules, old(View()), e, work)
    {
      rows := rows[Place(0, e.height) := Row(e.header, work)];
      index := index[rules.hash(e.header) := Place(0, e.height)];
      spine := spine[e.height := e.header];
    }

    /** The seeds' rows, climbing the ladder a period at a time. */
    method PutSeedRows(sorted: seq<Entry>)
      modifies this`rows, this`index, this`spine
      ensures View() == PutSeeds(rules, old(View()), sorted)
    {
      ghost var t := View();
      var work := 0;
      for i := 0 to |sorted|
        invariant View() == PutSeeds(rules, t, sorted[..i])
        invariant work == LadderWork(rules, sorted[..i])
      {
        var own := rules.work(sorted[i].header.bits);
        LadderSnoc(rules, sorted, i);
        PutSeedsSnoc(rules, t, sorted, i);
        if i == 0 {
          work := own;
        } else {
          var period := WorkScaled(rules.work(sorted[i - 1].header.bits), DIFFICULTY_PERIOD - 1);
          work := work + period + own;
        }
        PutSeedRow(sorted[i], work);
      }
      assert sorted[..|sorted|] == sorted;
    }

    /** Plant the spine and the root chain on it; the network is recorded with them. */
    method SeedTables(entries: seq<Entry>, forNetwork: nat) returns (error: Option<Error>)
      modifies this
      ensures match Seed(rules, old(View()), entries, forNetwork)
              case Ok(t) => error.None? && View() == t
              case Err(e) => error == Some(e)
    {
      if 0 in forks {
        return Some(AlreadySeeded);
      }
      var sorted := SortByHeight(entries);
      if sorted == [] {
        return Some(Internal);
      }
      var apart := PeriodsApart(sorted);
      if !apart {
        return Some(Internal);
      }
      PutSeedRows(sorted);
      PlantRoot(sorted[0], sorted[|sorted| - 1], forNetwork);
      error := None;
    }

    method PlantRoot(first: Entry, last: Entry, forNetwork: nat)
      modifies this`forks, this`seedHeight, this`floor, this`best, this`nextFork, this`network
      ensures View() == old(View()).(
                forks := old(forks)[0 := ForkMeta(0, None, rules.hash(first.header), last.height,
                  rules.hash(last.header))],
                seedHeight := Some(first.height), floor := Some(last.height),
                best := Some(0), nextFork := Some(1), network := Some(forNetwork))
    {
      forks := forks[0 := ForkMeta(0, None, rules.hash(first.header), last.height, rules.hash(last.header))];
      seedHeight, floor := Some(first.height), Some(last.height);
      best, nextFork, network := Some(0), Some(1), Some(forNetwork);
    }

    /** A whole connect, from the network check to the floor. */
    method ConnectIn(headers: seq<Header>, onNetwork: nat) returns (result: Result<Outcome, Error>)
      requires WalksEnd(View())
      modifies this
      ensures match Connect(rules, old(View()), onNetwork, headers)
              case Ok((t, outcome)) => result == Ok(outcome) && View() == t
              case Err(e) => result == Err(e)
    {
      if network.Some? && network.value != onNetwork {
        return Err(NetworkMismatch(network.value, onNetwork));
      }
      var start := SkipKnown(headers);
      if start == |headers| {
        var tip := if best.Some? && best.value in forks then forks[best.value].tipHeight else 0;
        return Ok(Outcome(0, best, best, tip, None));
      }
      var parentHash := if start == 0 then headers[0].prev else rules.hash(headers[start - 1]);
      if parentHash !in index {
        return Err(UnknownAncestor(parentHash));
      }
      result := AttachRun(index[parentHash], parentHash, headers[start..]);
    }
  }

  lemma StoreKeepsParents(r: Rules, t: Tables, f: nat, start: nat, run: seq<Header>, base: nat)
    requires ParentsDecrease(t.forks) && run != [] && f in t.forks
    ensures ParentsDecrease(Store(r, t, f, start, run, base).forks)
  {
    PutRunFrame(r, t, f, start, run, base);
  }

  function Prepend(newer: seq<nat>, older: Option<seq<nat>>): Option<seq<nat>> {
    match older
    case None => None
    case Some(rest) => Some(newer + rest)
  }

  lemma PrependOne(newer: seq<nat>, x: nat, older: Option<seq<nat>>)
    ensures older.Some? ==> Prepend(newer, Some([x] + older.value)) == Prepend(newer + [x], older)
  {
    if older.Some? {
      assert newer + ([x] + older.value) == newer + [x] + older.value;
    }
  }

  /** Move the element at `i` into its place in the sorted rest of the array. */
  method SiftIn(a: array<nat>, i: nat)
    requires i < a.Length
    modifies a
    ensures a[..i] == old(a[..i]) && a[i..] == InsertSorted(old(a[i]), old(a[i + 1..]))
  {
    var x := a[i];
    ghost var was := a[..];
    var j := i;
    while j + 1 < a.Length && x > a[j + 1]
      invariant i <= j < a.Length && a[j] == x
      invariant forall k :: 0 <= k < i ==> a[k] == was[k]
      invariant forall k :: i <= k < j ==> a[k] == was[k + 1]
      invariant forall k :: i < k <= j ==> was[k] < x
      invariant forall k :: j < k < a.Length ==> a[k] == was[k]
    {
      a[j], a[j + 1] := a[j + 1], x;
      j := j + 1;
    }
    Sifted(was, a[..], i, j);
    assert a[..i] == a[..][..i] && a[i..] == a[..][i..] && was[i + 1..] == old(a[i + 1..]);
  }

  lemma Sifted(was: seq<nat>, now: seq<nat>, i: nat, j: nat)
    requires i <= j < |was| == |now| && now[j] == was[i]
    requires forall k :: 0 <= k < i ==> now[k] == was[k]
    requires forall k :: i <= k < j ==> now[k] == was[k + 1]
    requires forall k :: i < k <= j ==> was[k] < was[i]
    requires forall k :: j < k < |was| ==> now[k] == was[k]
    requires j + 1 < |was| ==> was[i] <= was[j + 1]
    ensures now[..i] == was[..i] && now[i..] == InsertSorted(was[i], was[i + 1..])
  {
    var x, s, n := was[i], was[i + 1..], j - i;
    InsertAt(x, s, n);
    assert now[i..] == s[..n] + [x] + s[n..];
  }

  /** Where a number goes is after those below it and before the first that is not. */
  lemma {:induction false} InsertAt(x: nat, s: seq<nat>, n: nat)
    requires n <= |s| && (forall k :: 0 <= k < n ==> s[k] < x) && (n < |s| ==> x <= s[n])
    ensures InsertSorted(x, s) == s[..n] + [x] + s[n..]
    decreases n
  {
    if n > 0 {
      InsertAt(x, s[1..], n - 1);
      assert s[..n] == [s[0]] + s[1..][..n - 1] && s[1..][n - 1..] == s[n..];
    }
  }

  /** Sort an array in place, by insertion from the back, and take its middle element. */
  method SortAndPick(a: array<nat>) returns (m: nat)
    requires a.Length == MEDIAN_TIME_PAST
    modifies a
    ensures a[..] == Sorted(old(a[..])) && m == Median(old(a[..]))
  {
    ghost var s := a[..];
    var i := a.Length;
    while i > 0
      invariant 0 <= i <= a.Length
      invariant a[..i] == s[..i] && a[i..] == Sorted(s[i..])
    {
      i := i - 1;
      assert a[i] == s[i] && s[i..][1..] == s[i + 1..];
      SiftIn(a, i);
    }
    assert s[0..] == s && a[0..] == a[..];
    m := a[MEDIAN_TIME_PAST / 2];
  }

  /** The committed store. A transaction is a copy of it; dropping the copy on an error is
      the abort. */
  class Core {
    const rules: Rules
    const network: nat
    ghost const ht: Header -> nat
    var committed: Tables
    ghost var seeding: Option<Seeding>

    ghost predicate Valid()
      reads this
    {
      && Sound(rules, ht)
      && (seeding.None? ==> committed == Empty)
      && (seeding.Some? ==> Inv(rules, ht, committed, seeding.value))
    }

    constructor (rules: Rules, network: nat, ghost ht: Header -> nat)
      requires Sound(rules, ht)
      ensures Valid() && committed == Empty
      ensures this.rules == rules && this.network == network && this.ht == ht
    {
      this.rules, this.network, this.ht := rules, network, ht;
      committed, seeding := Empty, None;
    }

    /** Plant the checkpoint spine. The entries are taken on faith; when they are genuine
        the store invariant holds from here on. */
    method SeedCheckpoints(entries: seq<Entry>) returns (error: Option<Error>)
      requires Valid()
      modifies this
      ensures match Seed(rules, old(committed), entries, network)
              case Ok(t) => error.None? && committed == t
              case Err(e) => error == Some(e) && committed == old(committed)
      ensures error.Some? || Genuine(ht, entries) ==> Valid()
      ensures error.None? && Genuine(ht, entries) ==> seeding == Some(SeedingOf(SortByHeight(entries)))
    {
      var txn := new WriteTxn(rules, committed);
      error := txn.SeedTables(entries, network);
      if error.None? {
        NoForksMeansEmpty(entries);
        committed := txn.View();
        seeding := Some(SeedingOf(SortByHeight(entries)));
        if Genuine(ht, entries) {
          SeedEstablishes(rules, ht, entries, network);
        }
      }
    }

    lemma NoForksMeansEmpty(entries: seq<Entry>)
      requires Valid() && Seed(rules, committed, entries, network).Ok?
      ensures committed == Empty && SortByHeight(entries) != []
    {
    }

    lemma ValidWalksEnd()
      requires Valid()
      ensures WalksEnd(committed)
    {
      if seeding.Some? {
        TreeWalksEnd(rules, committed, seeding.value);
      }
    }

    /** Validate and store a run of headers: the committed tables and the answer are those
        of Connect, and on an error nothing changes. */
    method ConnectHeaders(headers: seq<Header>) returns (result: Result<Outcome, Error>)
      requires Valid()
      modifies this
      ensures Valid() && seeding == old(seeding)
      ensures match Connect(rules, old(committed), network, headers)
              case Ok((t, outcome)) => result == Ok(outcome) && committed == t
              case Err(e) => result == Err(e) && committed == old(committed)
      ensures result != Err(Internal)
    {
      ValidWalksEnd();
      GoodOrEmpty(headers);
      var txn := new WriteTxn(rules, committed);
      result := txn.ConnectIn(headers, network);
      if result.Ok? {
        committed := txn.View();
      }
    }

    lemma GoodOrEmpty(headers: seq<Header>)
      requires Valid()
      ensures match Connect(rules, committed, network, headers)
              case Ok((t, _)) => (if seeding.Some? then Inv(rules, ht, t, seeding.value) else t == Empty)
              case Err(e) => e != Internal
    {
      if seeding.Some? {
        ConnectIsGood(rules, ht, committed, seeding.value, network, headers);
      } else {
        ConnectAttaches(rules, committed, network, headers);
      }
    }

    /** The height of a known block, if the canonical check accepts it. */
    method HeightOfBlock(hash: Hash) returns (height: Option<nat>)
      requires Valid()
      ensures height == HeightOf(committed, hash)
    {
      ValidWalksEnd();
      if hash !in committed.index || committed.best.None? {
        return None;
      }
      var k := committed.index[hash];
      var f := committed.best.value;
      if k.fork == f {
        return Some(k.height);
      }
      while true
        invariant WalkCanonical(committed.forks, committed.best.value, k.fork, k.height)
               == WalkCanonical(committed.forks, f, k.fork, k.height)
        decreases f
      {
        if f !in committed.forks {
          return None;
        }
        var meta := committed.forks[f];
        if k.fork == f {
          return if k.height >= meta.forkpoint then Some(k.height) else None;
        }
        match meta.parent {
          case None => return None;
          case Some(p) => f := p;
        }
      }
    }

    /** The boundary headers of the best chain up to the floor. */
    method Checkpoints() returns (out: seq<Entry>)
      requires Valid()
      ensures out == FinalizedCheckpoints(committed)
    {
      ValidWalksEnd();
      out := [];
      if committed.floor.None? || committed.best.None? {
        return;
      }
      var txn := new WriteTxn(rules, committed);
      out := txn.BoundaryHeaders(committed.best.value, committed.floor.value);
    }
  }

  lemma TreeWalksEnd(r: Rules, t: Tables, sp: Seeding)
    requires ForksOk(t, sp) && RowsOk(t, sp) && IndexOk(r, t)
    ensures WalksEnd(t)
  {
    forall f | f in t.forks && t.forks[f].parent.Some? ensures t.forks[f].parent.value < f {
      assert ForkOk(t.forks, sp, f);
    }
    forall x | x in t.index ensures t.index[x].fork in t.forks && t.index[x].fork < t.nextFork.GetOr(1) {
      assert Occupied(t.forks, sp, t.index[x]);
    }
  }

  /** Each entry a whole period above the one before it. */
  method PeriodsApart(s: seq<Entry>) returns (apart: bool)
    requires s != []
    ensures apart == Contiguous(s)
  {
    for i := 1 to |s|
      invariant forall j :: 0 <= j < i ==> s[j].height == s[0].height + DIFFICULTY_PERIOD * j
    {
      if s[i].height != s[i - 1].height + DIFFICULTY_PERIOD {
        return false;
      }
    }
    apart := true;
  }
}
