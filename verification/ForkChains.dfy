/** What the stored chains satisfy: the canonical check, median time past, and the work
    ladder against the block-by-block sum. */
module ForkChains {
  import opened ForkFinality
  import opened ForkGrowth
  import opened ForkInvariant
  import opened ForkSpec
  import opened ForkStore
  import opened Wrappers

  // ── the canonical check ────────────────────────────────────────────────────

  /** The walk from `f` up its ancestry looking for `fork`. */
  function WalkCanonical(forks: map<nat, ForkMeta>, f: nat, fork: nat, height: nat): bool
    decreases f
  {
    if f !in forks then false
    else if fork == f then height >= forks[f].forkpoint
    else
      match forks[f].parent
      case None => false
      case Some(p) => p < f && WalkCanonical(forks, p, fork, height)
  }

  function IsCanonicalAt(t: Tables, fork: nat, height: nat): bool {
    match t.best
    case None => false
    case Some(best) => fork == best || WalkCanonical(t.forks, best, fork, height)
  }

  function HeightOf(t: Tables, hash: Hash): Option<nat> {
    if hash in t.index && IsCanonicalAt(t, t.index[hash].fork, t.index[hash].height)
    then Some(t.index[hash].height) else None
  }

  /** Where the ancestry of `f` leaves `fork`: the forkpoint of the child on the way. None
      if `fork` is not above `f`. */
  function LeavesAt(forks: map<nat, ForkMeta>, f: nat, fork: nat): Option<nat>
    decreases f
  {
    if f !in forks then None
    else
      match forks[f].parent
      case None => None
      case Some(p) =>
        if p == fork then Some(forks[f].forkpoint)
        else if p < f then LeavesAt(forks, p, fork)
        else None
  }

  lemma {:induction false} WalkFinds(t: Tables, sp: Seeding, f: nat, k: Place)
    requires ForksOk(t, sp) && f in t.forks && Occupied(t.forks, sp, k)
    ensures WalkCanonical(t.forks, f, k.fork, k.height) <==> f == k.fork || LeavesAt(t.forks, f, k.fork).Some?
    ensures OwnerFork(t.forks, f, k.height) == Some(k.fork)
       <==> f == k.fork || (LeavesAt(t.forks, f, k.fork).Some? && k.height < LeavesAt(t.forks, f, k.fork).value)
    ensures LeavesAt(t.forks, f, k.fork).Some? ==>
            k.fork < f && LeavesAt(t.forks, f, k.fork).value <= t.forks[f].forkpoint
    decreases f
  {
    assert ForkOk(t.forks, sp, f);
    if f != 0 && f != k.fork {
      var p := t.forks[f].parent.value;
      assert ForkOk(t.forks, sp, p);
      WalkFinds(t, sp, p, k);
    } else if f != 0 {
      var p := t.forks[f].parent.value;
      WalkFinds(t, sp, p, k);
    }
  }

  /** The stored block is the one the best chain has at its height. */
  predicate OnBestChain(t: Tables, k: Place)
    requires k in t.rows
  {
    CanonicalAt(t, k.height) == Some(t.rows[k])
  }

  /** The canonical check accepts every block of the best chain, and exactly these others:
      blocks of a fork above the best one, at or over the height where the best chain's
      ancestry left it. */
  lemma CanonicalCheckExact(r: Rules, ht: Header -> nat, t: Tables, sp: Seeding, k: Place)
    requires Inv(r, ht, t, sp) && k in t.rows
    ensures OnBestChain(t, k) ==> IsCanonicalAt(t, k.fork, k.height)
    ensures IsCanonicalAt(t, k.fork, k.height) && !OnBestChain(t, k)
       <==> LeavesAt(t.forks, t.best.value, k.fork).Some? && k.height >= LeavesAt(t.forks, t.best.value, k.fork).value
  {
    var best := t.best.value;
    assert Occupied(t.forks, sp, k);
    WalkFinds(t, sp, best, k);
    assert ForkOk(t.forks, sp, best);
    match OwnerFork(t.forks, best, k.height)
    case None =>
    case Some(o) =>
      if o != k.fork && Place(o, k.height) in t.rows {
        DifferentPlacesDiffer(r, t, k, Place(o, k.height));
      }
  }

  // ── the checks a chain has passed ──────────────────────────────────────────

  lemma {:induction false} OwnerShares(t: Tables, sp: Seeding, f: nat, h: nat, h': nat)
    requires ForksOk(t, sp) && f in t.forks && h <= t.forks[f].tipHeight && h' <= h
    ensures OwnerFork(t.forks, f, h).Some?
    ensures OwnerFork(t.forks, f, h') == OwnerFork(t.forks, OwnerFork(t.forks, f, h).value, h')
    decreases f
  {
    assert ForkOk(t.forks, sp, f);
    if h < t.forks[f].forkpoint {
      OwnerShares(t, sp, t.forks[f].parent.value, h, h');
    }
  }

  /** Every header on a fork's chain above the seeds passes its checks against that chain. */
  lemma ChainPasses(r: Rules, ht: Header -> nat, t: Tables, sp: Seeding, f: nat, h: nat)
    requires Inv(r, ht, t, sp) && f in t.forks && sp.last < h <= t.forks[f].tipHeight
    ensures HeaderAt(t, f, h).Some? && Passes(r, t, f, 0, [], h, HeaderAt(t, f, h).value)
  {
    Owner(t, sp, f, h);
    var o := OwnerFork(t.forks, f, h).value;
    var k := Place(o, h);
    assert Occupied(t.forks, sp, k);
    assert Passes(r, t, o, 0, [], h, t.rows[k].header);
    forall h': nat | h' < h ensures At(t, f, 0, [], h') == At(t, o, 0, [], h') {
      OwnerShares(t, sp, f, h, h');
    }
    SamePasses(r, t, f, 0, [], t, o, 0, [], h, t.rows[k].header);
  }

  // ── median time past ───────────────────────────────────────────────────────

  function AtLeast(s: seq<nat>, m: nat): nat {
    if s == [] then 0 else (if s[0] >= m then 1 else 0) + AtLeast(s[1..], m)
  }

  predicate Ordered(s: seq<nat>) {
    forall i, j :: 0 <= i < j < |s| ==> s[i] <= s[j]
  }

  lemma {:induction false} InsertCounts(x: nat, s: seq<nat>, m: nat)
    ensures AtLeast(InsertSorted(x, s), m) == AtLeast([x] + s, m)
  {
    assert ([x] + s)[1..] == s;
    if s != [] && x > s[0] {
      InsertCounts(x, s[1..], m);
      assert InsertSorted(x, s)[1..] == InsertSorted(x, s[1..]);
      assert ([x] + s[1..])[1..] == s[1..];
    }
  }

  lemma {:induction false} SortCounts(s: seq<nat>, m: nat)
    ensures AtLeast(Sorted(s), m) == AtLeast(s, m)
  {
    if s != [] {
      SortCounts(s[1..], m);
      InsertCounts(s[0], Sorted(s[1..]), m);
      assert ([s[0]] + Sorted(s[1..]))[1..] == Sorted(s[1..]);
    }
  }

  lemma {:induction false} InsertElements(x: nat, s: seq<nat>, y: nat)
    requires y in InsertSorted(x, s)
    ensures y == x || y in s
  {
    if s != [] && x > s[0] {
      var rest := InsertSorted(x, s[1..]);
      assert InsertSorted(x, s) == [s[0]] + rest;
      if y in rest {
        InsertElements(x, s[1..], y);
      }
    }
  }

  lemma {:induction false} InsertOrders(x: nat, s: seq<nat>)
    requires Ordered(s)
    ensures Ordered(InsertSorted(x, s))
  {
    forall y | y in s ensures s[0] <= y {
    }
    if s != [] && x > s[0] {
      InsertOrders(x, s[1..]);
      var rest := InsertSorted(x, s[1..]);
      forall y | y in rest ensures s[0] <= y {
        InsertElements(x, s[1..], y);
      }
      OrderedCons(s[0], rest);
    } else {
      OrderedCons(x, s);
    }
  }

  lemma OrderedCons(x: nat, s: seq<nat>)
    requires Ordered(s) && forall y :: y in s ==> x <= y
    ensures Ordered([x] + s)
  {
    var t := [x] + s;
    forall i, j | 0 <= i < j < |t| ensures t[i] <= t[j] {
      assert t[j] == s[j - 1] && s[j - 1] in s;
    }
  }

  lemma {:induction false} SortOrders(s: seq<nat>)
    ensures Ordered(Sorted(s))
  {
    if s != [] {
      SortOrders(s[1..]);
      InsertOrders(s[0], Sorted(s[1..]));
    }
  }

  lemma {:induction false} CountFrom(s: seq<nat>, i: nat, m: nat)
    requires Ordered(s) && i < |s|
    ensures s[i] >= m ==> AtLeast(s, m) >= |s| - i
    ensures s[i] < m ==> AtLeast(s, m) <= |s| - i - 1
    decreases |s|
  {
    if i > 0 {
      CountFrom(s[1..], i - 1, m);
    } else if s[0] >= m {
      if |s| > 1 {
        CountFrom(s[1..], 0, m);
      }
    } else {
      CountAtMost(s[1..], m);
    }
  }

  lemma {:induction false} CountAtMost(s: seq<nat>, m: nat)
    ensures AtLeast(s, m) <= |s|
  {
    if s != [] {
      CountAtMost(s[1..], m);
    }
  }

  /** The median of eleven is at least m exactly when six of them are. */
  lemma MedianCounts(times: seq<nat>, m: nat)
    requires |times| == MEDIAN_TIME_PAST
    ensures Median(times) >= m <==> AtLeast(times, m) >= 6
  {
    SortOrders(times);
    SortCounts(times, m);
    CountFrom(Sorted(times), MEDIAN_TIME_PAST / 2, m);
  }

  lemma {:induction false} CountSnoc(s: seq<nat>, x: nat, m: nat)
    ensures AtLeast(s + [x], m) == AtLeast(s, m) + (if x >= m then 1 else 0)
  {
    if s == [] {
      assert s + [x] == [x];
    } else {
      CountSnoc(s[1..], x, m);
      assert (s + [x])[1..] == s[1..] + [x];
    }
  }

  /** The newest timestamps of a window are those of the shorter window. */
  lemma {:induction false} TimesPrefix(t: Tables, f: nat, height: nat, k: nat)
    requires Times(t, f, 0, [], height, k + 1).Some?
    ensures Times(t, f, 0, [], height, k).Some?
    ensures |Times(t, f, 0, [], height, k + 1).value| == k + 1
    ensures Times(t, f, 0, [], height, k).value == Times(t, f, 0, [], height, k + 1).value[..k]
    decreases k
  {
    TimesLength(t, f, 0, [], height, k + 1);
    if k > 0 {
      TimesPrefix(t, f, height - 1, k - 1);
    }
  }

  /** Along any stored chain, a header above the seeds with eleven predecessors stored is
      later than at least six of them, and the median of the next window is at least the
      last: median time past never falls. */
  lemma MedianNeverFalls(r: Rules, ht: Header -> nat, t: Tables, sp: Seeding, f: nat, h: nat)
    requires Inv(r, ht, t, sp) && f in t.forks && sp.last < h <= t.forks[f].tipHeight
    requires MedianTimePast(t, f, 0, [], h).Some?
    ensures MedianTimePast(t, f, 0, [], h + 1).Some?
    ensures MedianTimePast(t, f, 0, [], h).value <= MedianTimePast(t, f, 0, [], h + 1).value
    ensures var times := Times(t, f, 0, [], h, MEDIAN_TIME_PAST).value;
            HeaderAt(t, f, h).Some? && AtLeast(times, HeaderAt(t, f, h).value.time) <= 5
  {
    ChainPasses(r, ht, t, sp, f, h);
    WindowSlides(t, f, h, HeaderAt(t, f, h).value.time);
    TimesLength(t, f, 0, [], h, MEDIAN_TIME_PAST);
    MedianCounts(Times(t, f, 0, [], h, MEDIAN_TIME_PAST).value, HeaderAt(t, f, h).value.time);
  }

  lemma WindowSlides(t: Tables, f: nat, h: nat, time: nat)
    requires MedianTimePast(t, f, 0, [], h).Some?
    requires HeaderAt(t, f, h).Some? && HeaderAt(t, f, h).value.time == time
    requires time > MedianTimePast(t, f, 0, [], h).value
    ensures MedianTimePast(t, f, 0, [], h + 1).Some?
    ensures MedianTimePast(t, f, 0, [], h).value <= MedianTimePast(t, f, 0, [], h + 1).value
  {
    var k := MEDIAN_TIME_PAST - 1;
    TimesPrefix(t, f, h, k);
    var window := Times(t, f, 0, [], h, k + 1).value;
    var kept := Times(t, f, 0, [], h, k).value;
    assert window == kept + [window[k]];
    var m := Median(window);
    assert Times(t, f, 0, [], h + 1, k + 1) == Some([time] + kept);
    assert ([time] + kept)[1..] == kept;
    CountSnoc(kept, window[k], m);
    MedianCounts(window, m);
    MedianCounts([time] + kept, m);
  }
}
