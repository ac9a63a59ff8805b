/** The Bitcoin work a Rootstock tail is measured against: a difference of two cumulative
    works, one period apart on the best chain. */
module TailWork {
  import opened ForkStore
  import opened WorkLadder
  import opened Wrappers

  function BtcTailWork(t: Tables, tailStart: nat): Option<int> {
    if t.best.None? then None
    else
      match (WorkAt(t, t.best.value, tailStart), WorkAt(t, t.best.value, tailStart + DIFFICULTY_PERIOD))
      case (Some(begin), Some(end)) => Some(Difference(end, begin))
      case _ => None
  }

  function Difference(end: int, begin: int): int { end - begin }

  /** The work of the `n` blocks of a chain from `height` on. */
  function BlocksWork(r: Rules, t: Tables, f: nat, height: nat, n: nat): nat {
    if n == 0 then 0
    else BlocksWork(r, t, f, height, n - 1) + BlockWork(r, t, f, height + n - 1)
  }

  function BlockWork(r: Rules, t: Tables, f: nat, height: nat): nat {
    match HeaderAt(t, f, height)
    case None => 0
    case Some(h) => r.work(h.bits)
  }

  lemma {:induction false} WorkDifference(r: Rules, t: Tables, f: nat, low: nat, from: nat, n: nat)
    requires Stepwise(r, t, f, low) && low <= from && from + n <= t.forks[f].tipHeight && WorkAt(t, f, from).Some?
    ensures WorkAt(t, f, from + n) == Some(WorkAt(t, f, from).value + BlocksWork(r, t, f, from + 1, n))
    decreases n
  {
    if n > 0 {
      WorkDifference(r, t, f, low, from, n - 1);
      assert StepUp(r, t, f, from + n);
    }
  }

  lemma {:induction false} FirstAside(r: Rules, t: Tables, f: nat, height: nat, n: nat)
    ensures BlocksWork(r, t, f, height, n + 1) == BlockWork(r, t, f, height) + BlocksWork(r, t, f, height + 1, n)
    decreases n
  {
    if n > 0 {
      FirstAside(r, t, f, height, n - 1);
    } else {
      assert BlocksWork(r, t, f, height, 1) == BlocksWork(r, t, f, height, 0) + BlockWork(r, t, f, height);
    }
  }

  /** The tail work is that of the period's blocks but the first, and of the block after
      them. It is the work of the period from the tail start on exactly when that next block
      is as hard as the first. */
  lemma TailWorkExact(r: Rules, t: Tables, low: nat, tailStart: nat)
    requires t.best.Some? && Stepwise(r, t, t.best.value, low) && low <= tailStart
    requires tailStart + DIFFICULTY_PERIOD <= t.forks[t.best.value].tipHeight
             && WorkAt(t, t.best.value, tailStart).Some?
    ensures BtcTailWork(t, tailStart) == Some(BlocksWork(r, t, t.best.value, tailStart + 1, DIFFICULTY_PERIOD))
    ensures BtcTailWork(t, tailStart) == Some(BlocksWork(r, t, t.best.value, tailStart, DIFFICULTY_PERIOD))
       <==> BlockWork(r, t, t.best.value, tailStart) == BlockWork(r, t, t.best.value, tailStart + DIFFICULTY_PERIOD)
  {
    var f, n := t.best.value, DIFFICULTY_PERIOD;
    WorkDifference(r, t, f, low, tailStart, n);
    OneAside(r, t, f, tailStart, n);
  }

  lemma OneAside(r: Rules, t: Tables, f: nat, height: nat, n: nat)
    requires n > 0
    ensures BlocksWork(r, t, f, height, n) + BlockWork(r, t, f, height + n)
         == BlockWork(r, t, f, height) + BlocksWork(r, t, f, height + 1, n)
  {
    FirstAside(r, t, f, height, n);
  }
}
