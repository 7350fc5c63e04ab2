/** Weighted random choice of an account. */
module Weighted {
  import opened Prelude
  import opened Entities

  datatype SelectError = EmptyCandidates

  function WeightOf(a: Account): (w: int)
    ensures w > 0
  {
    if a.priority <= 0 then 1 else a.priority
  }

  /** The weight of the first n candidates. */
  function Cumulative(candidates: seq<Account>, n: nat): (total: int)
    requires n <= |candidates|
    ensures total >= 0
  {
    if n == 0 then 0 else Cumulative(candidates, n - 1) + WeightOf(candidates[n - 1])
  }

  function TotalWeight(candidates: seq<Account>): int {
    Cumulative(candidates, |candidates|)
  }

  /** The draw falls into the stretch of candidate i. */
  predicate Picks(candidates: seq<Account>, draw: int, i: nat) {
    i < |candidates| && Cumulative(candidates, i) <= draw < Cumulative(candidates, i + 1)
  }

  /** draw is what the random generator answers for the total weight. The loop always returns: there is no fallback. */
  method Select(candidates: seq<Account>, draw: int) returns (r: Result<Account, SelectError>, ghost index: nat)
    requires |candidates| >= 2 ==> 0 <= draw < TotalWeight(candidates)
    ensures r.Failure? <==> candidates == []
    ensures |candidates| == 1 ==> r == Success(candidates[0])
    ensures |candidates| >= 2 ==> Picks(candidates, draw, index) && r == Success(candidates[index])
  {
    index := 0;
    if |candidates| == 0 {
      return Failure(EmptyCandidates), index;
    }
    if |candidates| == 1 {
      return Success(candidates[0]), index;
    }
    var totalWeight := 0;
    for i := 0 to |candidates|
      invariant totalWeight == Cumulative(candidates, i)
    {
      var weight := candidates[i].priority;
      if weight <= 0 {
        weight := 1;
      }
      totalWeight := totalWeight + weight;
    }
    var cumulative := 0;
    for i := 0 to |candidates|
      invariant cumulative == Cumulative(candidates, i)
      invariant draw >= cumulative
    {
      var weight := candidates[i].priority;
      if weight <= 0 {
        weight := 1;
      }
      cumulative := cumulative + weight;
      if draw < cumulative {
        return Success(candidates[i]), i;
      }
    }
    assert false;
  }

  lemma {:induction false} CumulativeGrows(candidates: seq<Account>, m: nat, n: nat)
    requires m <= n <= |candidates|
    ensures Cumulative(candidates, m) <= Cumulative(candidates, n)
    decreases n
  {
    if m < n {
      CumulativeGrows(candidates, m, n - 1);
    }
  }

  /** A draw picks one candidate only. */
  lemma PickIsUnique(candidates: seq<Account>, draw: int, i: nat, j: nat)
    requires Picks(candidates, draw, i) && Picks(candidates, draw, j)
    ensures i == j
  {
    if i < j {
      CumulativeGrows(candidates, i + 1, j);
    } else if j < i {
      CumulativeGrows(candidates, j + 1, i);
    }
  }

  function Interval(lo: int, hi: int): (s: set<int>)
    ensures forall r :: r in s <==> lo <= r < hi
    decreases hi - lo
  {
    if hi <= lo then {} else Interval(lo, hi - 1) + {hi - 1}
  }

  lemma {:induction false} IntervalSize(lo: int, hi: int)
    requires lo <= hi
    ensures |Interval(lo, hi)| == hi - lo
    decreases hi - lo
  {
    if lo < hi {
      IntervalSize(lo, hi - 1);
    }
  }

  function DrawsFor(candidates: seq<Account>, i: nat): set<int> {
    set r | 0 <= r < TotalWeight(candidates) && Picks(candidates, r, i) :: r
  }

  /** Of all draws, exactly as many pick a candidate as its weight. */
  lemma DrawsMatchWeight(candidates: seq<Account>, i: nat)
    requires i < |candidates|
    ensures |DrawsFor(candidates, i)| == WeightOf(candidates[i])
  {
    var lo, hi := Cumulative(candidates, i), Cumulative(candidates, i + 1);
    CumulativeGrows(candidates, i + 1, |candidates|);
    forall r | r in Interval(lo, hi)
      ensures r in DrawsFor(candidates, i)
    {
      assert Picks(candidates, r, i);
    }
    assert DrawsFor(candidates, i) == Interval(lo, hi);
    IntervalSize(lo, hi);
  }

  /** Of the draws, an account gets as many as its priority says, and one when that is not positive. */
  lemma PriorityIsShare(candidates: seq<Account>, i: nat)
    requires i < |candidates|
    ensures candidates[i].priority > 0 ==> |DrawsFor(candidates, i)| == candidates[i].priority
    ensures candidates[i].priority <= 0 ==> |DrawsFor(candidates, i)| == 1
  {
    DrawsMatchWeight(candidates, i);
  }
}
