/** The max-min fair split of one token budget, and the search that every bounded view cuts with
    (crates/app/src/budget.rs). */
module Budget {
  import opened Orders

  // ----- the reference: a water level

  function Sum(costs: seq<nat>): nat
  {
    if costs == [] then 0 else costs[|costs| - 1] + Sum(costs[..|costs| - 1])
  }

  /** What every item gets in all when no item gets more than `level`. */
  function Poured(costs: seq<nat>, level: nat): nat
  {
    if costs == [] then 0
    else Min(costs[|costs| - 1], level) + Poured(costs[..|costs| - 1], level)
  }

  /** The level that max-min fairness asks for: the highest one the budget can pay. */
  ghost predicate IsWaterLevel(costs: seq<nat>, budget: nat, level: nat)
  {
    && Poured(costs, level) <= budget
    && forall higher: nat :: level < higher ==> Poured(costs, higher) > budget
  }

  lemma {:induction false} PouredMonotone(costs: seq<nat>, low: nat, high: nat)
    requires low <= high
    ensures Poured(costs, low) <= Poured(costs, high) <= Sum(costs)
  {
    if costs == [] {
    } else {
      PouredMonotone(costs[..|costs| - 1], low, high);
    }
  }

  /** A level the budget can pay, whose successor it cannot, is the highest one. */
  lemma LevelByNext(costs: seq<nat>, budget: nat, level: nat)
    requires Poured(costs, level) <= budget < Poured(costs, level + 1)
    ensures IsWaterLevel(costs, budget, level)
    ensures Sum(costs) > budget
  {
    forall higher: nat | level < higher ensures Poured(costs, higher) > budget {
      PouredMonotone(costs, level + 1, higher);
    }
    PouredMonotone(costs, level, level + 1);
  }

  lemma WaterLevelUnique(costs: seq<nat>, budget: nat, a: nat, b: nat)
    requires IsWaterLevel(costs, budget, a) && IsWaterLevel(costs, budget, b)
    ensures a == b
  {
  }

  // ----- the running split: the costs of the settled items

  /** The costs of the first `n` items that are not pending. */
  ghost function Settled(costs: seq<nat>, pending: set<nat>, n: nat): nat
    requires n <= |costs|
  {
    if n == 0 then 0
    else Settled(costs, pending, n - 1) + (if n - 1 in pending then 0 else costs[n - 1])
  }

  lemma {:induction false} NothingSettled(costs: seq<nat>, pending: set<nat>, n: nat)
    requires n <= |costs| && forall i :: 0 <= i < n ==> i in pending
    ensures Settled(costs, pending, n) == 0
  {
    if n == 0 {
    } else {
      NothingSettled(costs, pending, n - 1);
    }
  }

  lemma {:induction false} SettleOne(costs: seq<nat>, pending: set<nat>, n: nat, index: nat)
    requires n <= |costs| && index in pending && index < |costs|
    ensures Settled(costs, pending - {index}, n) ==
            Settled(costs, pending, n) + (if index < n then costs[index] else 0)
  {
    if n == 0 {
    } else {
      SettleOne(costs, pending, n - 1, index);
    }
  }

  /** How many of the first `n` items are pending. */
  ghost function Waiting(pending: set<nat>, n: nat): nat
  {
    if n == 0 then 0 else Waiting(pending, n - 1) + (if n - 1 in pending then 1 else 0)
  }

  lemma {:induction false} WaitingIsSize(pending: set<nat>, n: nat)
    requires forall i :: i in pending ==> i < n
    ensures Waiting(pending, n) == |pending|
  {
    if n == 0 {
      assert pending == {};
    } else if n - 1 in pending {
      var rest := pending - {n - 1};
      WaitingIsSize(rest, n - 1);
      WaitingSame(pending, rest, n - 1);
    } else {
      WaitingIsSize(pending, n - 1);
    }
  }

  lemma {:induction false} WaitingSame(a: set<nat>, b: set<nat>, n: nat)
    requires forall i :: 0 <= i < n ==> (i in a <==> i in b)
    ensures Waiting(a, n) == Waiting(b, n)
  {
    if n == 0 {
    } else {
      WaitingSame(a, b, n - 1);
    }
  }

  lemma OneMore(count: nat, level: nat)
    ensures (count + 1) * level == count * level + level
  {
  }

  /** With every settled cost at most `level` and every pending cost at least `level`, the pour
      at `level` is the settled costs and one `level` for each pending item. */
  lemma {:induction false} PouredSplit(costs: seq<nat>, pending: set<nat>, level: nat, n: nat)
    requires n <= |costs|
    requires forall i :: 0 <= i < n ==> if i in pending then level <= costs[i] else costs[i] <= level
    ensures Poured(costs[..n], level) == Settled(costs, pending, n) + Waiting(pending, n) * level
  {
    if n == 0 {
    } else {
      PouredSplit(costs, pending, level, n - 1);
      assert costs[..n][..n - 1] == costs[..n - 1];
      OneMore(Waiting(pending, n - 1), level);
    }
  }

  lemma {:induction false} AllSettled(costs: seq<nat>, n: nat)
    requires n <= |costs|
    ensures Settled(costs, {}, n) == Sum(costs[..n])
  {
    if n == 0 {
    } else {
      AllSettled(costs, n - 1);
      assert costs[..n][..n - 1] == costs[..n - 1];
    }
  }

  /** The stuck round: every pending item costs more than an equal share of what is left. */
  lemma StuckIsLevel(costs: seq<nat>, budget: nat, pending: set<nat>, remaining: nat, share: nat)
    requires pending != {} && forall i :: i in pending ==> i < |costs|
    requires remaining + Settled(costs, pending, |costs|) == budget
    requires share == remaining / |pending|
    requires forall i :: 0 <= i < |costs| ==> (i in pending <==> costs[i] > share)
    ensures IsWaterLevel(costs, budget, share) && Sum(costs) > budget
  {
    var n, p := |costs|, |pending|;
    WaitingIsSize(pending, n);
    assert costs[..n] == costs;
    PouredSplit(costs, pending, share, n);
    PouredSplit(costs, pending, share + 1, n);
    DivBounds(remaining, p);
    LevelByNext(costs, budget, share);
  }

  lemma DivBounds(whole: nat, size: nat)
    requires size > 0
    ensures size * (whole / size) <= whole < size * (whole / size + 1)
  {
  }

  lemma ShareGrows(floor: nat, remaining: nat, size: nat)
    requires size > 0 && floor * size <= remaining
    ensures floor <= remaining / size
  {
    DivBounds(remaining, size);
    var next := remaining / size + 1;
    assert floor >= next ==> floor * size >= next * size;
  }

  // ----- the algorithm

  function Indices(n: nat): (r: set<nat>)
    ensures forall i :: i in r <==> 0 <= i < n
  {
    if n == 0 then {} else Indices(n - 1) + {n - 1}
  }

  /** The indices to cut and the share of each: the share is the water level, exactly the items
      above it are cut, and nothing is cut exactly when the whole cost fits. `remaining` is a
      natural number throughout, so no subtraction underflows. */
  method Allocate(costs: seq<nat>, budget: nat) returns (cut: set<nat>, share: nat)
    ensures cut == {} <==> Sum(costs) <= budget
    ensures cut == {} ==> share == 0
    ensures cut != {} ==> IsWaterLevel(costs, budget, share)
    ensures cut != {} ==> cut == set i | 0 <= i < |costs| && costs[i] > share
  {
    var pending := Indices(|costs|);
    var remaining := budget;
    NothingSettled(costs, pending, |costs|);
    ghost var floor: nat := 0;  // the share of the last round that settled something
    while pending != {}
      invariant forall i :: i in pending ==> 0 <= i < |costs|
      invariant remaining + Settled(costs, pending, |costs|) == budget
      invariant forall i :: 0 <= i < |costs| && i !in pending ==> costs[i] <= floor
      invariant floor * |pending| <= remaining
      decreases |pending|
    {
      var level := remaining / |pending|;
      assert floor <= level by { ShareGrows(floor, remaining, |pending|); }
      var settled := set i | i in pending && costs[i] <= level;
      if settled == {} {
        break;
      }
      DivBounds(remaining, |pending|);
      pending, remaining := Settle(costs, settled, pending, remaining, level, budget);
      floor := level;
    }
    if pending == {} {
      AllSettled(costs, |costs|);
      assert costs[..|costs|] == costs;
      return {}, 0;
    }
    cut, share := pending, remaining / |pending|;
    ShareGrows(floor, remaining, |pending|);
    StuckIsLevel(costs, budget, pending, remaining, share);
  }

  /** What one round keeps as it pays: the budget is split, and the rest can pay `level` each. */
  ghost predicate Paying(costs: seq<nat>, pending: set<nat>, remaining: nat, level: nat, total: nat)
  {
    && (forall i :: i in pending ==> i < |costs|)
    && remaining + Settled(costs, pending, |costs|) == total
    && level * |pending| <= remaining
  }

  lemma PayOne(costs: seq<nat>, pending: set<nat>, remaining: nat, level: nat, total: nat, index: nat)
    requires Paying(costs, pending, remaining, level, total)
    requires index in pending && costs[index] <= level
    ensures costs[index] <= remaining
    ensures Paying(costs, pending - {index}, remaining - costs[index], level, total)
  {
    SettleOne(costs, pending, |costs|, index);
    var size := |pending|;
    assert |pending - {index}| == size - 1;
    OneMore(size - 1, level);
  }

  /** One round: pays the settled items out of what remains, one by one. */
  method Settle(costs: seq<nat>, settled: set<nat>, waiting: set<nat>, left: nat, level: nat, ghost total: nat)
    returns (pending: set<nat>, remaining: nat)
    requires Paying(costs, waiting, left, level, total)
    requires settled <= waiting && forall i :: i in settled ==> costs[i] <= level
    ensures pending == waiting - settled
    ensures Paying(costs, pending, remaining, level, total)
  {
    pending, remaining := waiting, left;
    var todo := settled;
    while todo != {}
      invariant todo <= settled && pending == (waiting - settled) + todo
      invariant Paying(costs, pending, remaining, level, total)
    {
      var index :| index in todo;
      PayOne(costs, pending, remaining, level, total, index);
      remaining := remaining - costs[index];
      pending := pending - {index};
      todo := todo - {index};
    }
  }

  // ----- the cut search

  function Pow2(n: nat): nat { if n == 0 then 1 else 2 * Pow2(n - 1) }

  ghost predicate DownwardClosed(fits: nat -> bool)
  {
    forall a: nat, b: nat :: a <= b && fits(b) ==> fits(a)
  }

  /** The largest count from `low` through `high` that fits, or `low`; the number of `fits` calls
      is at most one more than the logarithm of the width. For a test that is not downward closed
      the result is still a place where the answer changes. */
  method LongestFitting(low: nat, high: nat, fits: nat -> bool) returns (count: nat, ghost calls: nat)
    ensures low <= count && (count <= high || count == low)
    ensures count == low || fits(count)
    ensures count < high ==> !fits(count + 1)
    ensures DownwardClosed(fits) ==> forall more :: count < more <= high ==> !fits(more)
    ensures calls > 0 ==> low < high && Pow2(calls - 1) <= high - low
    ensures low < high ==> calls > 0
  {
    var bottom, top := low, high;
    calls := 0;
    while bottom < top
      invariant low <= bottom && (bottom <= top <= high || (bottom == low && top == high))
      invariant bottom == low || fits(bottom)
      invariant top == high || !fits(top + 1)
      invariant calls == 0 ==> bottom == low && top == high
      invariant calls > 0 ==> low < high && Pow2(calls - 1) <= high - low
      invariant bottom < top ==> Pow2(calls) * (top - bottom) <= high - low
      decreases top - bottom
    {
      var middle := (bottom + top + 1) / 2;
      ghost var width := top - bottom;
      Halving(calls, width, high - low);
      if fits(middle) {
        bottom := middle;
      } else {
        top := middle - 1;
      }
      calls := calls + 1;
      ShrinkProduct(calls, top - bottom, width / 2, high - low);
    }
    count := bottom;
  }

  lemma Halving(calls: nat, width: nat, whole: nat)
    requires width > 0 && Pow2(calls) * width <= whole
    ensures Pow2(calls) <= whole
    ensures Pow2(calls + 1) * (width / 2) <= whole
  {
  }

  lemma ShrinkProduct(calls: nat, width: nat, bound: nat, whole: nat)
    requires width <= bound && Pow2(calls) * bound <= whole
    ensures Pow2(calls) * width <= whole
  {
  }
}
