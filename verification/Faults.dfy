/** The script of failing durable calls: the first of a run of calls that raises. */
module Faults {
  /** The first faulty call number of the `count` calls from `start` on; `start + count` when all succeed. */
  function FirstFault(faults: set<nat>, start: nat, count: nat): (first: nat)
    ensures start <= first <= start + count
    ensures forall n :: start <= n < first ==> n !in faults
    ensures first < start + count ==> first in faults
    decreases count
  {
    if count == 0 || start in faults then start else FirstFault(faults, start + 1, count - 1)
  }

  /** Nothing before `stop` raises, and `stop` is the end or raises: that is where the run stops. */
  lemma StopsAtFirstFault(faults: set<nat>, start: nat, count: nat, stop: nat)
    requires start <= stop <= start + count && forall n :: start <= n < stop ==> n !in faults
    requires stop < start + count ==> stop in faults
    ensures FirstFault(faults, start, count) == stop
  {
    var first := FirstFault(faults, start, count);
    assert first < stop ==> first !in faults;
    assert stop < first ==> stop !in faults;
  }

  lemma NothingRaises(faults: set<nat>, start: nat, count: nat)
    requires forall n :: n in faults ==> n < start
    ensures FirstFault(faults, start, count) == start + count
  {
    StopsAtFirstFault(faults, start, count, start + count);
  }

  /** A run of `first` calls and then of `second`. */
  lemma RunsInTurn(faults: set<nat>, start: nat, first: nat, second: nat)
    ensures var stop := FirstFault(faults, start, first);
            FirstFault(faults, start, first + second)
            == if stop == start + first then FirstFault(faults, start + first, second) else stop
  {
    var stop := FirstFault(faults, start, first);
    if stop == start + first {
      StopsAtFirstFault(faults, start, first + second, FirstFault(faults, start + first, second));
    } else {
      StopsAtFirstFault(faults, start, first + second, stop);
    }
  }

  /** The calls from number `start` up to `end` that raise. */
  function FaultsIn(faults: set<nat>, start: nat, end: nat): set<nat> {
    set n | n in faults && start <= n < end
  }

  lemma NoFaultYet(faults: set<nat>, start: nat, end: nat)
    requires start <= end
    ensures FaultsIn(faults, start, start) == {}
    ensures |FaultsIn(faults, start, end + 1)| == |FaultsIn(faults, start, end)| + if end in faults then 1 else 0
  {
    var before, after := FaultsIn(faults, start, end), FaultsIn(faults, start, end + 1);
    assert after == if end in faults then before + {end} else before;
  }

  lemma NoFaultsLeft(faults: set<nat>, start: nat, end: nat)
    requires forall n :: n in faults ==> n < start
    ensures FaultsIn(faults, start, end) == {}
  {
  }
}
