/** Which call replaces a finalized header: the condition on the call alone, checked against
    the store it is made on, and finality over runs in terms of it. */
module ForkDisplacement {
  import opened ForkFinality
  import opened ForkGrowth
  import opened ForkInvariant
  import opened ForkRuns
  import opened ForkSpec
  import opened ForkStore
  import opened Wrappers

  /** The place of the block the call's new headers follow. */
  function ParentOf(r: Rules, t: Tables, call: Call): Place
    requires Attaches(r, t, call.network, call.headers)
  {
    t.index[ParentHash(r, call.headers, KnownPrefix(r, t, call.headers))]
  }

  function NewRun(r: Rules, t: Tables, call: Call): seq<Header> {
    call.headers[KnownPrefix(r, t, call.headers)..]
  }

  /** The call's headers are accepted: they attach to a stored block, open no fork at or
      below the floor, and pass their checks. */
  predicate Accepted(r: Rules, t: Tables, call: Call) {
    && Attaches(r, t, call.network, call.headers)
    && var parent := ParentOf(r, t, call);
    && parent in t.rows && !Refused(t, parent)
    && var g := GrowthOf(r, t, parent, NewRun(r, t, call));
    && CheckRun(r, g.t1, g.f, g.start, g.run, 0, r.hash(t.rows[parent].header)).None?
  }

  /** And they outweigh the best fork. */
  predicate Outweighs(r: Rules, t: Tables, call: Call)
    requires Accepted(r, t, call) && t.best.Some?
  {
    t.rows[ParentOf(r, t, call)].work + RunWork(r, NewRun(r, t, call)) > TipWork(t, t.best.value)
  }

  /** And their parent is on a fork that left the root at or below `h`. */
  predicate Displaces(r: Rules, t: Tables, call: Call, h: nat) {
    && Accepted(r, t, call) && t.best.Some? && Outweighs(r, t, call)
    && !LeavesAbove(t, ParentOf(r, t, call).fork, h)
  }

  // ── one call ───────────────────────────────────────────────────────────────

  /** An accepted call is a growth of its parent's fork or of a new one. */
  lemma AcceptedGrows(r: Rules, t: Tables, sp: Seeding, call: Call)
    requires ForksOk(t, sp) && RowsOk(t, sp) && FloorOk(t, sp) && IndexOk(r, t) && Accepted(r, t, call)
    ensures var g := GrowthOf(r, t, ParentOf(r, t, call), NewRun(r, t, call));
      && Prepared(r, g, sp) && g.t == t && g.parent == ParentOf(r, t, call) && g.run == NewRun(r, t, call)
      && r.hash(g.run[0]) !in t.index
      && Connect(r, t, call.network, call.headers) == Grow(r, g)
  {
    ConnectAttaches(r, t, call.network, call.headers);
    AttachIsGrow(r, t, sp, ParentOf(r, t, call), NewRun(r, t, call));
  }

  /** A call that is not accepted changes nothing. */
  lemma UnacceptedChangesNothing(r: Rules, t: Tables, sp: Seeding, call: Call)
    requires ForksOk(t, sp) && RowsOk(t, sp) && FloorOk(t, sp) && IndexOk(r, t) && !Accepted(r, t, call)
    ensures Apply(r, t, call) == t
  {
    ConnectAttaches(r, t, call.network, call.headers);
    if Attaches(r, t, call.network, call.headers) {
      AttachIsGrow(r, t, sp, ParentOf(r, t, call), NewRun(r, t, call));
    }
  }

  /** An accepted call makes its fork the best exactly when it outweighs the best so far. */
  lemma BestAfter(r: Rules, ht: Header -> nat, t: Tables, sp: Seeding, call: Call)
    requires Sound(r, ht) && Inv(r, ht, t, sp) && Accepted(r, t, call)
    ensures var g := GrowthOf(r, t, ParentOf(r, t, call), NewRun(r, t, call));
      && GrownBy(r, g, Apply(r, t, call), sp)
      && Apply(r, t, call).best == if Outweighs(r, t, call) then Some(g.f) else t.best
  {
    AcceptedGrows(r, t, sp, call);
    var g := GrowthOf(r, t, ParentOf(r, t, call), NewRun(r, t, call));
    GrowIsGood(r, ht, g, sp);
    GrowBest(r, g, sp);
  }

  /** The same with the parent and the run named. */
  lemma BestAfterRun(r: Rules, ht: Header -> nat, t: Tables, sp: Seeding, call: Call, parent: Place, run: seq<Header>)
    requires Sound(r, ht) && Inv(r, ht, t, sp) && Accepted(r, t, call)
    requires ParentOf(r, t, call) == parent && NewRun(r, t, call) == run
    ensures var g := GrowthOf(r, t, parent, run);
      && GrownBy(r, g, Apply(r, t, call), sp)
      && Apply(r, t, call).best
         == if t.rows[parent].work + RunWork(r, run) > TipWork(t, t.best.value) then Some(g.f) else t.best
  {
    BestAfter(r, ht, t, sp, call);
  }

  lemma GrowFinishes(r: Rules, g: Growth)
    requires g.run != [] && g.parent in g.t.rows && g.f in g.t1.forks && g.start > 0
    requires CheckRun(r, g.t1, g.f, g.start, g.run, 0, r.hash(g.t.rows[g.parent].header)).None?
    ensures Grow(r, g) == Finish(Reselect(After(r, g), g.f), g.start, g.run, g.t.best)
  {
  }

  lemma FinishKeepsBest(t: Tables, start: nat, run: seq<Header>, prevBest: Option<nat>)
    requires start > 0
    ensures match Finish(t, start, run, prevBest)
            case Ok((t', _)) => t' == t.(floor := t'.floor)
            case Err(e) => e == Internal
  {
  }

  lemma ReselectChangesBest(t: Tables, f: nat)
    ensures Reselect(t, f) == t.(best := Reselect(t, f).best)
  {
  }

  lemma GrowBest(r: Rules, g: Growth, sp: Seeding)
    requires Prepared(r, g, sp) && ForksOk(g.t, sp) && RowsOk(g.t, sp) && FloorOk(g.t, sp) && BestOk(g.t)
    requires CheckRun(r, g.t1, g.f, g.start, g.run, 0, r.hash(g.t.rows[g.parent].header)).None?
    requires Grow(r, g) != Err(Internal)
    ensures Grow(r, g).Ok?
    ensures var t' := Grow(r, g).value.0;
      && t' == After(r, g).(best := t'.best, floor := t'.floor)
      && t'.best == if Base(g) + RunWork(r, g.run) > TipWork(g.t, g.t.best.value) then Some(g.f) else g.t.best
  {
    GrowFinishes(r, g);
    FinishKeepsBest(Reselect(After(r, g), g.f), g.start, g.run, g.t.best);
    ReselectChangesBest(After(r, g), g.f);
    SelectedBest(r, g, sp);
  }

  /** What an accepted call leaves is what the floor step makes of the grown tables. */
  lemma ApplyFinalizes(r: Rules, ht: Header -> nat, t: Tables, sp: Seeding, call: Call, parent: Place, run: seq<Header>)
    requires Sound(r, ht) && Inv(r, ht, t, sp) && Accepted(r, t, call)
    requires ParentOf(r, t, call) == parent && NewRun(r, t, call) == run
    ensures var g := GrowthOf(r, t, parent, run);
      && Prepared(r, g, sp)
      && Finalize(Reselect(After(r, g), g.f)).Some?
      && Apply(r, t, call) == Finalize(Reselect(After(r, g), g.f)).value.0
  {
    AcceptedGrows(r, t, sp, call);
    var g := GrowthOf(r, t, parent, run);
    GrowIsGood(r, ht, g, sp);
    GrowFinishes(r, g);
  }

  lemma SelectedBest(r: Rules, g: Growth, sp: Seeding)
    requires Prepared(r, g, sp) && ForksOk(g.t, sp) && RowsOk(g.t, sp) && FloorOk(g.t, sp) && BestOk(g.t)
    ensures Reselect(After(r, g), g.f).best
         == if Base(g) + RunWork(r, g.run) > TipWork(g.t, g.t.best.value) then Some(g.f) else g.t.best
  {
    GrowFloor(r, g, sp);
    AfterForks(r, g, sp);
    GrowTipWork(r, g, sp, g.f);
    GrowTipWork(r, g, sp, g.t.best.value);
  }

  /** Where the run's fork left the root: where its parent's did, or, off the root itself,
      above the floor. */
  lemma GrownDeparture(r: Rules, g: Growth, t': Tables, sp: Seeding, h: nat)
    requires GrownBy(r, g, t', sp) && ForksOk(g.t, sp) && g.t.floor.Some? && h <= g.t.floor.value
    ensures LeavesAbove(t', g.f, h) <==> LeavesAbove(g.t, g.parent.fork, h)
    ensures forall f :: f in g.t.forks ==> (LeavesAbove(t', f, h) <==> LeavesAbove(g.t, f, h))
  {
    AfterForks(r, g, sp);
    forall f | f in g.t.forks ensures LeavesAbove(t', f, h) <==> LeavesAbove(g.t, f, h) {
      DepartureStable(g.t, sp, t'.forks, f);
    }
    if Opens(r, g) && !Extends(g) {
      DepartureStable(g.t, sp, t'.forks, g.parent.fork);
    }
  }

  /** One call changes a canonical header at or below `h` if and only if it displaces one:
      its headers are accepted, outweigh the best fork, and follow a block of a fork that
      left the root there, whether at that fork's tip or in its middle. */
  lemma DisplacesExactly(r: Rules, ht: Header -> nat, t: Tables, sp: Seeding, call: Call, h: nat)
    requires Sound(r, ht) && Inv(r, ht, t, sp) && sp.last <= h <= t.floor.value && BestLeavesAbove(t, h)
    ensures !Agree(t, Apply(r, t, call), h) <==> Displaces(r, t, call, h)
    ensures BestLeavesAbove(Apply(r, t, call), h) <==> !Displaces(r, t, call, h)
  {
    ApplyIsGood(r, ht, t, sp, call);
    ApplyKeepsChains(r, ht, t, sp, call);
    AgreesWhen(r, ht, t, Apply(r, t, call), sp, h);
    BestLeavesWhen(r, ht, t, sp, call, h);
  }

  lemma BestLeavesWhen(r: Rules, ht: Header -> nat, t: Tables, sp: Seeding, call: Call, h: nat)
    requires Sound(r, ht) && Inv(r, ht, t, sp) && sp.last <= h <= t.floor.value && BestLeavesAbove(t, h)
    ensures BestLeavesAbove(Apply(r, t, call), h) <==> !Displaces(r, t, call, h)
  {
    if Accepted(r, t, call) {
      BestAfter(r, ht, t, sp, call);
      GrownDeparture(r, GrowthOf(r, t, ParentOf(r, t, call), NewRun(r, t, call)), Apply(r, t, call), sp, h);
    } else {
      UnacceptedChangesNothing(r, t, sp, call);
    }
  }

  // ── runs ───────────────────────────────────────────────────────────────────

  /** No call of the run displaces a header at or below `h` when it is made. */
  predicate NoneDisplaces(r: Rules, t: Tables, calls: seq<Call>, h: nat)
    decreases |calls|
  {
    calls == [] || (!Displaces(r, t, calls[0], h) && NoneDisplaces(r, Apply(r, t, calls[0]), calls[1..], h))
  }

  /** Every store of the run has the canonical headers up to `h` that it began with. */
  ghost predicate Settled(r: Rules, t: Tables, calls: seq<Call>, h: nat) {
    forall i :: 0 <= i <= |calls| ==> Agree(t, Play(r, t, calls[..i]), h)
  }

  lemma SettledStep(r: Rules, t: Tables, calls: seq<Call>, h: nat)
    requires calls != []
    ensures Settled(r, t, calls, h)
       <==> Agree(t, Apply(r, t, calls[0]), h) && Settled(r, Apply(r, t, calls[0]), calls[1..], h)
  {
    var t1, rest := Apply(r, t, calls[0]), calls[1..];
    forall i | 0 < i <= |calls| ensures Play(r, t, calls[..i]) == Play(r, t1, rest[..i - 1]) {
      assert calls[..i][0] == calls[0] && calls[..i][1..] == rest[..i - 1];
    }
    assert Play(r, t, calls[..1]) == t1 by {
      assert rest[..0] == [];
    }
    assert Play(r, t, calls[..0]) == t;
    if Settled(r, t, calls, h) {
      assert Agree(t, Play(r, t, calls[..1]), h);
      forall i | 0 <= i <= |rest| ensures Agree(t1, Play(r, t1, rest[..i]), h) {
        assert Play(r, t, calls[..i + 1]) == Play(r, t1, rest[..i + 1 - 1]);
        assert Agree(t, Play(r, t, calls[..i + 1]), h);
      }
    } else if Agree(t, t1, h) && Settled(r, t1, rest, h) {
      forall i | 0 <= i <= |calls| ensures Agree(t, Play(r, t, calls[..i]), h) {
        if i > 0 {
          assert Agree(t1, Play(r, t1, rest[..i - 1]), h);
        }
      }
    }
  }

  /** Finality: over any run from a store whose canonical chain is the root's up to `h`, no
      canonical header at or below `h` ever changes if and only if no call displaces one. */
  lemma {:induction false} FinalityOfRuns(r: Rules, ht: Header -> nat, t: Tables, sp: Seeding, calls: seq<Call>, h: nat)
    requires Sound(r, ht) && Inv(r, ht, t, sp) && sp.last <= h <= t.floor.value && BestLeavesAbove(t, h)
    ensures Settled(r, t, calls, h) <==> NoneDisplaces(r, t, calls, h)
    decreases |calls|
  {
    if calls == [] {
      assert Play(r, t, calls[..0]) == t;
    } else {
      DisplacesExactly(r, ht, t, sp, calls[0], h);
      SettledStep(r, t, calls, h);
      if !Displaces(r, t, calls[0], h) {
        ApplyIsGood(r, ht, t, sp, calls[0]);
        FinalityOfRuns(r, ht, Apply(r, t, calls[0]), sp, calls[1..], h);
      }
    }
  }

  // ── old forks ──────────────────────────────────────────────────────────────

  /** While every live fork left the root above `h`, no call displaces anything there. */
  lemma NothingToDisplace(r: Rules, t: Tables, sp: Seeding, call: Call, h: nat)
    requires RowsOk(t, sp) && forall f :: f in t.forks ==> LeavesAbove(t, f, h)
    ensures !Displaces(r, t, call, h)
  {
    if Accepted(r, t, call) {
      assert Occupied(t.forks, sp, ParentOf(r, t, call));
    }
  }
}
