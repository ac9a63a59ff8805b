/** What a connect call accepts and what it answers, said in terms of the headers and of the
    stored chain alone: link, target, median time, proof of work, the floor, and the outcome. */
module ForkChecks {
  import opened ForkChains
  import opened ForkInvariant
  import opened ForkSpec
  import opened ForkStore
  import opened Wrappers

  // ── median time ────────────────────────────────────────────────────────────

  predicate TimeIs(t: Tables, f: nat, start: nat, run: seq<Header>, height: nat, time: nat) {
    At(t, f, start, run, height).Some? && At(t, f, start, run, height).value.time == time
  }

  /** `times` are those of the headers below `height`, newest first. */
  predicate AreTimesBelow(t: Tables, f: nat, start: nat, run: seq<Header>, height: nat, times: seq<nat>) {
    && |times| <= height
    && forall j {:trigger times[j]} :: 0 <= j < |times| ==> TimeIs(t, f, start, run, height - 1 - j, times[j])
  }

  lemma {:induction false} TimesExactly(t: Tables, f: nat, start: nat, run: seq<Header>, height: nat, times: seq<nat>)
    ensures Times(t, f, start, run, height, |times|) == Some(times) <==> AreTimesBelow(t, f, start, run, height, times)
    decreases |times|
  {
    if times != [] && height > 0 {
      TimesExactly(t, f, start, run, height - 1, times[1..]);
      assert times == [times[0]] + times[1..];
      if AreTimesBelow(t, f, start, run, height, times) {
        TimesCons(t, f, start, run, height, times);
      } else if Times(t, f, start, run, height, |times|) == Some(times) {
        TimesUncons(t, f, start, run, height, times);
      }
    }
  }

  lemma TimesCons(t: Tables, f: nat, start: nat, run: seq<Header>, height: nat, times: seq<nat>)
    requires times != [] && height > 0 && AreTimesBelow(t, f, start, run, height, times)
    ensures AreTimesBelow(t, f, start, run, height - 1, times[1..])
  {
    forall j | 0 <= j < |times| - 1 ensures TimeIs(t, f, start, run, height - 2 - j, times[1..][j]) {
      assert TimeIs(t, f, start, run, height - 1 - (j + 1), times[j + 1]);
    }
  }

  lemma TimesUncons(t: Tables, f: nat, start: nat, run: seq<Header>, height: nat, times: seq<nat>)
    requires times != [] && height > 0 && AreTimesBelow(t, f, start, run, height - 1, times[1..])
    requires TimeIs(t, f, start, run, height - 1, times[0])
    ensures AreTimesBelow(t, f, start, run, height, times)
  {
    forall j | 0 <= j < |times| ensures TimeIs(t, f, start, run, height - 1 - j, times[j]) {
      if j > 0 {
        assert TimeIs(t, f, start, run, height - 2 - (j - 1), times[1..][j - 1]);
      }
    }
  }

  /** Later than at least six of the eleven headers below it, when there are eleven. */
  ghost predicate LaterThanMost(t: Tables, f: nat, start: nat, run: seq<Header>, height: nat, time: nat) {
    forall times: seq<nat> :: |times| == 11 && AreTimesBelow(t, f, start, run, height, times) ==>
      AtLeast(times, time) <= 5
  }

  lemma MedianExactly(t: Tables, f: nat, start: nat, run: seq<Header>, height: nat, time: nat)
    ensures LaterThanMost(t, f, start, run, height, time)
       <==> (MedianTimePast(t, f, start, run, height).Some? ==> time > MedianTimePast(t, f, start, run, height).value)
  {
    TimesLength(t, f, start, run, height, 11);
    if Times(t, f, start, run, height, 11).Some? {
      var times := Times(t, f, start, run, height, 11).value;
      TimesExactly(t, f, start, run, height, times);
      MedianCounts(times, time);
    }
    forall times: seq<nat> | |times| == 11 && AreTimesBelow(t, f, start, run, height, times)
      ensures Times(t, f, start, run, height, 11) == Some(times)
    {
      TimesExactly(t, f, start, run, height, times);
    }
  }

  // ── one header ─────────────────────────────────────────────────────────────

  /** Where difficulty is enforced: inside a period the target of the header before it, and at
      a period boundary the one recomputed from the period's first and last header, if the
      first is there. */
  predicate TargetFits(r: Rules, t: Tables, f: nat, start: nat, run: seq<Header>, height: nat, bits: nat)
    requires height > 0
  {
    r.enforcesDifficulty ==>
      && At(t, f, start, run, height - 1).Some?
      && var last := At(t, f, start, run, height - 1).value;
         if height % 2016 != 0 then bits == last.bits
         else height >= 2016 && At(t, f, start, run, height - 2016).Some? ==>
                bits == r.retarget(At(t, f, start, run, height - 2016).value, last)
  }

  /** The `i`th header of a run that follows the header with hash `parentHash`. */
  ghost predicate InOrder(r: Rules, t: Tables, f: nat, start: nat, run: seq<Header>, i: nat, parentHash: Hash)
    requires i < |run| && start > 0
  {
    && run[i].prev == (if i == 0 then parentHash else r.hash(run[i - 1]))
    && TargetFits(r, t, f, start, run, start + i, run[i].bits)
    && LaterThanMost(t, f, start, run, start + i, run[i].time)
    && r.validPow(run[i])
  }

  /** The first `n` headers of the run are. */
  ghost predicate AllInOrder(r: Rules, t: Tables, f: nat, start: nat, run: seq<Header>, n: nat, parentHash: Hash)
    requires n <= |run| && start > 0
  {
    forall i :: 0 <= i < n ==> InOrder(r, t, f, start, run, i, parentHash)
  }

  lemma TargetExactly(r: Rules, t: Tables, f: nat, start: nat, run: seq<Header>, height: nat, header: Header)
    requires height > 0
    ensures TargetFits(r, t, f, start, run, height, header.bits)
       <==> CheckDifficulty(r, t, f, start, run, height, header).None?
  {
  }

  lemma HeaderExactly(r: Rules, t: Tables, f: nat, start: nat, run: seq<Header>, i: nat, parentHash: Hash)
    requires i < |run| && start > 0
    ensures InOrder(r, t, f, start, run, i, parentHash)
       <==> CheckHeader(r, t, f, start, run, i, if i == 0 then parentHash else r.hash(run[i - 1])).None?
  {
    TargetExactly(r, t, f, start, run, start + i, run[i]);
    MedianExactly(t, f, start, run, start + i, run[i].time);
  }

  lemma {:induction false} RunFrom(r: Rules, t: Tables, f: nat, start: nat, run: seq<Header>, i: nat, parentHash: Hash)
    requires i <= |run| && start > 0
    ensures CheckRun(r, t, f, start, run, i, if i == 0 then parentHash else r.hash(run[i - 1])).None?
       <==> forall j :: i <= j < |run| ==> InOrder(r, t, f, start, run, j, parentHash)
    decreases |run| - i
  {
    if i < |run| {
      HeaderExactly(r, t, f, start, run, i, parentHash);
      RunFrom(r, t, f, start, run, i + 1, parentHash);
    }
  }

  /** A run passes exactly when every header of it is in order. */
  lemma RunPassesExactly(r: Rules, t: Tables, f: nat, start: nat, run: seq<Header>, parentHash: Hash)
    requires start > 0
    ensures CheckRun(r, t, f, start, run, 0, parentHash).None?
       <==> AllInOrder(r, t, f, start, run, |run|, parentHash)
  {
    RunFrom(r, t, f, start, run, 0, parentHash);
  }

  /** What an error says is so of the header at `i`. */
  ghost predicate SaysWhy(r: Rules, t: Tables, f: nat, start: nat, run: seq<Header>, i: nat, parentHash: Hash, e: Error)
    requires i < |run| && start > 0
  {
    var prev := if i == 0 then parentHash else r.hash(run[i - 1]);
    match e
    case LinkBreak(height, expected) => height == start + i && expected == prev && run[i].prev != prev
    case BadDifficulty(height, expected, got) =>
      height == start + i && run[i].prev == prev && r.enforcesDifficulty && got == run[i].bits != expected
      && TargetFits(r, t, f, start, run, height, expected) && !TargetFits(r, t, f, start, run, height, got)
    case BadTimestamp(height, median, got) =>
      height == start + i && run[i].prev == prev && TargetFits(r, t, f, start, run, height, run[i].bits)
      && got == run[i].time <= median && LaterThanMost(t, f, start, run, height, median + 1)
      && !LaterThanMost(t, f, start, run, height, median)
    case BadPow(height) =>
      height == start + i && run[i].prev == prev && TargetFits(r, t, f, start, run, height, run[i].bits)
      && LaterThanMost(t, f, start, run, height, run[i].time) && !r.validPow(run[i])
    case Internal => r.enforcesDifficulty && At(t, f, start, run, start + i - 1).None?
    case _ => false
  }

  lemma DifficultySaysWhy(r: Rules, t: Tables, f: nat, start: nat, run: seq<Header>, i: nat, parentHash: Hash)
    requires i < |run| && start > 0 && run[i].prev == if i == 0 then parentHash else r.hash(run[i - 1])
    requires CheckDifficulty(r, t, f, start, run, start + i, run[i]).Some?
    ensures SaysWhy(r, t, f, start, run, i, parentHash, CheckDifficulty(r, t, f, start, run, start + i, run[i]).value)
  {
    TargetExactly(r, t, f, start, run, start + i, run[i]);
  }

  lemma TimeSaysWhy(r: Rules, t: Tables, f: nat, start: nat, run: seq<Header>, i: nat, parentHash: Hash, median: nat)
    requires i < |run| && start > 0 && run[i].prev == if i == 0 then parentHash else r.hash(run[i - 1])
    requires TargetFits(r, t, f, start, run, start + i, run[i].bits)
    requires MedianTimePast(t, f, start, run, start + i) == Some(median) && run[i].time <= median
    ensures SaysWhy(r, t, f, start, run, i, parentHash, BadTimestamp(start + i, median, run[i].time))
  {
    MedianExactly(t, f, start, run, start + i, median);
    MedianExactly(t, f, start, run, start + i, median + 1);
  }

  lemma HeaderSaysWhy(r: Rules, t: Tables, f: nat, start: nat, run: seq<Header>, i: nat, parentHash: Hash)
    requires i < |run| && start > 0
    requires CheckHeader(r, t, f, start, run, i, if i == 0 then parentHash else r.hash(run[i - 1])).Some?
    ensures SaysWhy(r, t, f, start, run, i, parentHash,
                    CheckHeader(r, t, f, start, run, i, if i == 0 then parentHash else r.hash(run[i - 1])).value)
  {
    if run[i].prev == if i == 0 then parentHash else r.hash(run[i - 1]) {
      if CheckDifficulty(r, t, f, start, run, start + i, run[i]).Some? {
        DifficultySaysWhy(r, t, f, start, run, i, parentHash);
      } else {
        TargetExactly(r, t, f, start, run, start + i, run[i]);
        LateSaysWhy(r, t, f, start, run, i, parentHash);
      }
    }
  }

  lemma LateSaysWhy(r: Rules, t: Tables, f: nat, start: nat, run: seq<Header>, i: nat, parentHash: Hash)
    requires i < |run| && start > 0 && run[i].prev == if i == 0 then parentHash else r.hash(run[i - 1])
    requires CheckDifficulty(r, t, f, start, run, start + i, run[i]).None?
    requires TargetFits(r, t, f, start, run, start + i, run[i].bits)
    requires CheckHeader(r, t, f, start, run, i, run[i].prev).Some?
    ensures SaysWhy(r, t, f, start, run, i, parentHash, CheckHeader(r, t, f, start, run, i, run[i].prev).value)
  {
    var median := MedianTimePast(t, f, start, run, start + i);
    if median.Some? && run[i].time <= median.value {
      TimeSaysWhy(r, t, f, start, run, i, parentHash, median.value);
    } else {
      MedianExactly(t, f, start, run, start + i, run[i].time);
    }
  }

  /** A refused run is refused for the first header that is not in order, with what is wrong
      with it. */
  lemma {:induction false} RunRefusedFrom(r: Rules, t: Tables, f: nat, start: nat, run: seq<Header>, i: nat,
                                          parentHash: Hash)
    returns (k: nat)
    requires i <= |run| && start > 0
    requires CheckRun(r, t, f, start, run, i, if i == 0 then parentHash else r.hash(run[i - 1])).Some?
    ensures i <= k < |run| && forall j :: i <= j < k ==> InOrder(r, t, f, start, run, j, parentHash)
    ensures SaysWhy(r, t, f, start, run, k, parentHash,
                    CheckRun(r, t, f, start, run, i, if i == 0 then parentHash else r.hash(run[i - 1])).value)
    decreases |run| - i
  {
    HeaderExactly(r, t, f, start, run, i, parentHash);
    if CheckHeader(r, t, f, start, run, i, if i == 0 then parentHash else r.hash(run[i - 1])).Some? {
      HeaderSaysWhy(r, t, f, start, run, i, parentHash);
      k := i;
    } else {
      k := RunRefusedFrom(r, t, f, start, run, i + 1, parentHash);
    }
  }

  /** The run's error is that of its first header with one. */
  ghost predicate RefusedFor(r: Rules, t: Tables, f: nat, start: nat, run: seq<Header>, parentHash: Hash, e: Error)
    requires start > 0
  {
    exists k :: 0 <= k < |run| && AllInOrder(r, t, f, start, run, k, parentHash)
                && SaysWhy(r, t, f, start, run, k, parentHash, e)
  }

  lemma RunRefused(r: Rules, t: Tables, f: nat, start: nat, run: seq<Header>, parentHash: Hash) returns (k: nat)
    requires start > 0 && CheckRun(r, t, f, start, run, 0, parentHash).Some?
    ensures k < |run| && AllInOrder(r, t, f, start, run, k, parentHash)
    ensures SaysWhy(r, t, f, start, run, k, parentHash, CheckRun(r, t, f, start, run, 0, parentHash).value)
  {
    k := RunRefusedFrom(r, t, f, start, run, 0, parentHash);
  }

  // ── stored chains ──────────────────────────────────────────────────────────

  /** On every stored chain, above the seeds and where difficulty is enforced, a header inside
      a period carries the target of the one before it. */
  lemma TargetStays(r: Rules, ht: Header -> nat, t: Tables, sp: Seeding, f: nat, h: nat)
    requires Inv(r, ht, t, sp) && r.enforcesDifficulty && f in t.forks && sp.last < h <= t.forks[f].tipHeight
    requires h % 2016 != 0
    ensures HeaderAt(t, f, h).Some? && HeaderAt(t, f, h - 1).Some?
    ensures HeaderAt(t, f, h).value.bits == HeaderAt(t, f, h - 1).value.bits
  {
    ChainPasses(r, ht, t, sp, f, h);
    ChainStep(r, t, sp, f, h);
  }

  lemma AtStored(t: Tables, f: nat, h: nat)
    ensures At(t, f, 0, [], h) == HeaderAt(t, f, h)
  {
  }

  lemma BoundaryTarget(r: Rules, t: Tables, f: nat, h: nat, header: Header, first: Header, last: Header)
    requires r.enforcesDifficulty && h >= 2016 && h % 2016 == 0 && CheckDifficulty(r, t, f, 0, [], h, header).None?
    requires At(t, f, 0, [], h - 2016) == Some(first) && At(t, f, 0, [], h - 1) == Some(last)
    ensures header.bits == r.retarget(first, last)
  {
  }

  /** And at a period boundary the target recomputed from the period before it. */
  lemma TargetIsRecomputed(r: Rules, ht: Header -> nat, t: Tables, sp: Seeding, f: nat, h: nat, first: Header)
    requires Inv(r, ht, t, sp) && r.enforcesDifficulty && f in t.forks && sp.last < h <= t.forks[f].tipHeight
    requires h % 2016 == 0 && h >= 2016 && HeaderAt(t, f, h - 2016) == Some(first)
    ensures HeaderAt(t, f, h).Some? && HeaderAt(t, f, h - 1).Some?
    ensures HeaderAt(t, f, h).value.bits == r.retarget(first, HeaderAt(t, f, h - 1).value)
  {
    ChainPasses(r, ht, t, sp, f, h);
    ChainStep(r, t, sp, f, h);
    AtStored(t, f, h - 2016);
    AtStored(t, f, h - 1);
    BoundaryTarget(r, t, f, h, HeaderAt(t, f, h).value, first, HeaderAt(t, f, h - 1).value);
  }
}
