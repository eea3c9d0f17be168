/** The bounded pool that maps a slice and keeps the input order (crates/app/src/parallel.rs).
    Workers claim indices from one shared counter; every result below holds for every
    interleaving of their steps. A helper that the system refuses runs its whole work on the
    calling thread (crates/io/src/spawn.rs), which is one of those interleavings. */
module Parallel {
  import opened Orders

  // ----- the claiming protocol

  /** A worker between its atomic steps: about to claim, holding a claimed index whose item it
      maps, or returned. */
  datatype Worker<R> =
    | Ready(done: seq<(nat, R)>)
    | Holding(done: seq<(nat, R)>, index: nat)
    | Returned(done: seq<(nat, R)>)

  datatype State<R> = State(next: nat, workers: seq<Worker<R>>)

  function Init<R>(workers: nat): State<R>
  {
    State(0, seq(workers, _ => Ready([])))
  }

  predicate CanStep<R>(s: State<R>, w: nat)
  {
    w < |s.workers| && !s.workers[w].Returned?
  }

  /** One atomic step of worker `w`: the `fetch_add` with its bounds test, or the mapped item's push. */
  function Step<T, R>(items: seq<T>, f: T -> R, s: State<R>, w: nat): State<R>
    requires CanStep(s, w)
  {
    match s.workers[w]
    case Ready(done) =>
      var claim := if s.next < |items| then Holding(done, s.next) else Returned(done);
      State(s.next + 1, s.workers[w := claim])
    case Holding(done, index) =>
      var pushed := if index < |items| then done + [(index, f(items[index]))] else done;
      s.(workers := s.workers[w := Ready(pushed)])
  }

  ghost predicate Next<T, R>(items: seq<T>, f: T -> R, s: State<R>, after: State<R>)
  {
    exists w :: CanStep(s, w) && after == Step(items, f, s, w)
  }

  /** A finite run of `workers` workers from the start, in any interleaving. */
  ghost predicate IsRun<T, R>(items: seq<T>, f: T -> R, workers: nat, run: seq<State<R>>)
  {
    && run != [] && run[0] == Init(workers)
    && forall t :: 0 <= t < |run| - 1 ==> Next(items, f, run[t], run[t + 1])
  }

  predicate AllReturned<R>(s: State<R>)
  {
    forall w :: 0 <= w < |s.workers| ==> s.workers[w].Returned?
  }

  /** What the caller joins: its own results, then each helper's in start order. */
  function Gathered<R>(workers: seq<Worker<R>>): seq<(nat, R)>
  {
    if workers == [] then []
    else Gathered(workers[..|workers| - 1]) + workers[|workers| - 1].done
  }

  // ----- the invariant

  function IndexSeq(n: nat): seq<nat> { seq(n, i => i) }

  function Firsts<R>(done: seq<(nat, R)>): seq<nat> { seq(|done|, i requires 0 <= i < |done| => done[i].0) }

  /** The sum of a weight over the workers; each total below is one. */
  ghost function Total<R>(workers: seq<Worker<R>>, weight: Worker<R> -> nat): nat
  {
    if workers == [] then 0
    else Total(workers[..|workers| - 1], weight) + weight(workers[|workers| - 1])
  }

  /** How often one worker claimed index `i`. */
  ghost function ClaimsOf<R>(worker: Worker<R>, i: nat): nat
  {
    multiset(Firsts(worker.done))[i] + (if worker.Holding? && worker.index == i then 1 else 0)
  }

  ghost function Claims<R>(workers: seq<Worker<R>>, i: nat): nat
  {
    Total(workers, (worker: Worker<R>) => ClaimsOf(worker, i))
  }

  ghost function ReturnedCount<R>(workers: seq<Worker<R>>): nat
  {
    Total(workers, (worker: Worker<R>) => if worker.Returned? then 1 else 0)
  }

  /** The claims that hold an index: one per pushed result and one per index in hand. */
  ghost function TakenCount<R>(workers: seq<Worker<R>>): nat
  {
    Total(workers, (worker: Worker<R>) => |worker.done| + (if worker.Holding? then 1 else 0))
  }

  ghost function DoneCount<R>(workers: seq<Worker<R>>): nat
  {
    Total(workers, (worker: Worker<R>) => |worker.done|)
  }

  ghost predicate TrueResults<T, R>(items: seq<T>, f: T -> R, worker: Worker<R>)
  {
    && (forall k :: 0 <= k < |worker.done| ==>
          worker.done[k].0 < |items| && worker.done[k].1 == f(items[worker.done[k].0]))
    && (worker.Holding? ==> worker.index < |items|)
  }

  /** Each index below the counter is claimed exactly once, by one worker; each call of the counter
      past the end made one worker return; and every stored result is the item's own. */
  ghost predicate Inv<T, R>(items: seq<T>, f: T -> R, s: State<R>)
  {
    && (forall i: nat :: Claims(s.workers, i) == if i < Min(s.next, |items|) then 1 else 0)
    && TakenCount(s.workers) == Min(s.next, |items|)
    && s.next == Min(s.next, |items|) + ReturnedCount(s.workers)
    && forall w :: 0 <= w < |s.workers| ==> TrueResults(items, f, s.workers[w])
  }

  lemma {:induction false} InitTotal<R>(workers: nat, weight: Worker<R> -> nat)
    requires weight(Ready([])) == 0
    ensures Total(Init<R>(workers).workers, weight) == 0
  {
    var ws := Init<R>(workers).workers;
    if workers == 0 {
    } else {
      InitTotal<R>(workers - 1, weight);
      assert ws[..workers - 1] == Init<R>(workers - 1).workers;
    }
  }

  lemma InitInv<T, R>(items: seq<T>, f: T -> R, workers: nat)
    ensures Inv(items, f, Init(workers))
    ensures DoneCount(Init<R>(workers).workers) == 0
  {
    var ws := Init<R>(workers).workers;
    forall i: nat ensures Claims(ws, i) == 0 {
      InitTotal(workers, (worker: Worker<R>) => ClaimsOf(worker, i));
    }
    InitTotal(workers, (worker: Worker<R>) => if worker.Returned? then 1 else 0);
    InitTotal(workers, (worker: Worker<R>) => |worker.done| + (if worker.Holding? then 1 else 0));
    InitTotal(workers, (worker: Worker<R>) => |worker.done|);
  }

  /** Changing one worker changes a total by that worker's weight. */
  lemma {:induction false} UpdateTotal<R>(ws: seq<Worker<R>>, w: nat, x: Worker<R>, weight: Worker<R> -> nat)
    requires w < |ws|
    ensures Total(ws[w := x], weight) + weight(ws[w]) == Total(ws, weight) + weight(x)
  {
    var last := |ws| - 1;
    if w == last {
      assert ws[w := x][..last] == ws[..last];
    } else {
      UpdateTotal(ws[..last], w, x, weight);
      assert ws[w := x][..last] == ws[..last][w := x];
    }
  }

  lemma UpdateTotals<R>(ws: seq<Worker<R>>, w: nat, x: Worker<R>)
    requires w < |ws| && !ws[w].Returned?
    ensures forall i: nat :: Claims(ws[w := x], i) + ClaimsOf(ws[w], i) == Claims(ws, i) + ClaimsOf(x, i)
    ensures ReturnedCount(ws[w := x]) == ReturnedCount(ws) + (if x.Returned? then 1 else 0)
    ensures TakenCount(ws[w := x]) + |ws[w].done| + (if ws[w].Holding? then 1 else 0) ==
            TakenCount(ws) + |x.done| + (if x.Holding? then 1 else 0)
    ensures DoneCount(ws[w := x]) + |ws[w].done| == DoneCount(ws) + |x.done|
  {
    forall i: nat ensures Claims(ws[w := x], i) + ClaimsOf(ws[w], i) == Claims(ws, i) + ClaimsOf(x, i) {
      UpdateTotal(ws, w, x, (worker: Worker<R>) => ClaimsOf(worker, i));
    }
    UpdateTotal(ws, w, x, (worker: Worker<R>) => if worker.Returned? then 1 else 0);
    UpdateTotal(ws, w, x, (worker: Worker<R>) => |worker.done| + (if worker.Holding? then 1 else 0));
    UpdateTotal(ws, w, x, (worker: Worker<R>) => |worker.done|);
  }

  lemma PushedClaims<R>(done: seq<(nat, R)>, index: nat, value: R, i: nat)
    ensures ClaimsOf(Ready(done + [(index, value)]), i) == ClaimsOf(Holding(done, index), i)
  {
    assert Firsts(done + [(index, value)]) == Firsts(done) + [index];
  }

  lemma ClaimKeepsInv<T, R>(items: seq<T>, f: T -> R, s: State<R>, w: nat)
    requires Inv(items, f, s) && CanStep(s, w) && s.workers[w].Ready?
    ensures Inv(items, f, Step(items, f, s, w))
  {
    var after := Step(items, f, s, w);
    UpdateTotals(s.workers, w, after.workers[w]);
    assert TrueResults(items, f, s.workers[w]);
    forall i: nat
      ensures Claims(after.workers, i) == Claims(s.workers, i) + (if i == s.next < |items| then 1 else 0)
    {
      assert Claims(after.workers, i) + ClaimsOf(s.workers[w], i) ==
             Claims(s.workers, i) + ClaimsOf(after.workers[w], i);
    }
  }

  lemma PushKeepsInv<T, R>(items: seq<T>, f: T -> R, s: State<R>, w: nat)
    requires Inv(items, f, s) && CanStep(s, w) && s.workers[w].Holding?
    ensures Inv(items, f, Step(items, f, s, w))
  {
    var Holding(done, index) := s.workers[w];
    var after := Step(items, f, s, w);
    assert TrueResults(items, f, s.workers[w]);
    UpdateTotals(s.workers, w, after.workers[w]);
    forall i: nat ensures Claims(after.workers, i) == Claims(s.workers, i) {
      PushedClaims(done, index, f(items[index]), i);
      assert Claims(after.workers, i) + ClaimsOf(s.workers[w], i) ==
             Claims(s.workers, i) + ClaimsOf(after.workers[w], i);
    }
    assert TrueResults(items, f, after.workers[w]);
  }

  lemma StepKeepsInv<T, R>(items: seq<T>, f: T -> R, s: State<R>, w: nat)
    requires Inv(items, f, s) && CanStep(s, w)
    ensures Inv(items, f, Step(items, f, s, w))
  {
    if s.workers[w].Ready? {
      ClaimKeepsInv(items, f, s, w);
    } else {
      PushKeepsInv(items, f, s, w);
    }
  }

  /** The steps of a run are its counter calls and its pushes. */
  ghost function StepsTaken<R>(s: State<R>): nat { s.next + DoneCount(s.workers) }

  lemma StepCounts<T, R>(items: seq<T>, f: T -> R, s: State<R>, w: nat)
    requires Inv(items, f, s) && CanStep(s, w)
    ensures StepsTaken(Step(items, f, s, w)) == StepsTaken(s) + 1
  {
    UpdateTotals(s.workers, w, Step(items, f, s, w).workers[w]);
    assert TrueResults(items, f, s.workers[w]);
  }

  lemma {:induction false} TotalAtMost<R>(ws: seq<Worker<R>>, low: Worker<R> -> nat, high: Worker<R> -> nat)
    requires forall w :: 0 <= w < |ws| ==> low(ws[w]) <= high(ws[w])
    ensures Total(ws, low) <= Total(ws, high)
  {
    if ws == [] {
    } else {
      TotalAtMost(ws[..|ws| - 1], low, high);
    }
  }

  lemma {:induction false} TotalOfOnes<R>(ws: seq<Worker<R>>, one: Worker<R> -> nat)
    requires forall w :: 0 <= w < |ws| ==> one(ws[w]) == 1
    ensures Total(ws, one) == |ws|
  {
    if ws == [] {
    } else {
      TotalOfOnes(ws[..|ws| - 1], one);
    }
  }

  lemma InvBounds<T, R>(items: seq<T>, f: T -> R, s: State<R>)
    requires Inv(items, f, s)
    ensures s.next <= |items| + |s.workers|
    ensures DoneCount(s.workers) <= |items|
  {
    TotalOfOnes(s.workers, (worker: Worker<R>) => 1);
    TotalAtMost(s.workers, (worker: Worker<R>) => if worker.Returned? then 1 else 0, (worker: Worker<R>) => 1);
    TotalAtMost(s.workers, (worker: Worker<R>) => |worker.done|,
                (worker: Worker<R>) => |worker.done| + (if worker.Holding? then 1 else 0));
  }

  /** Safety of every reachable state, and termination of every run: the counter is called at most
      once per item and once per worker, and a run has at most two steps per item and one per
      worker. */
  lemma {:induction false} EveryRunIsSafe<T, R>(items: seq<T>, f: T -> R, workers: nat, run: seq<State<R>>)
    requires IsRun(items, f, workers, run)
    ensures var s := run[|run| - 1];
            && Inv(items, f, s) && |s.workers| == workers
            && s.next <= |items| + workers
            && |run| - 1 == StepsTaken(s) <= 2 * |items| + workers
  {
    var s := run[|run| - 1];
    if |run| == 1 {
      InitInv(items, f, workers);
    } else {
      var before := run[..|run| - 1];
      EveryRunIsSafe(items, f, workers, before);
      var t := |run| - 2;
      assert before[|before| - 1] == run[t] && Next(items, f, run[t], run[t + 1]);
      var w :| CanStep(run[t], w) && run[t + 1] == Step(items, f, run[t], w);
      StepKeepsInv(items, f, run[t], w);
      StepCounts(items, f, run[t], w);
    }
    InvBounds(items, f, s);
  }

  // ----- no claim is shared

  lemma {:induction false} TotalHoldsOne<R>(ws: seq<Worker<R>>, w: nat, weight: Worker<R> -> nat)
    requires w < |ws|
    ensures weight(ws[w]) <= Total(ws, weight)
  {
    if w == |ws| - 1 {
    } else {
      TotalHoldsOne(ws[..|ws| - 1], w, weight);
    }
  }

  lemma {:induction false} TotalHoldsTwo<R>(ws: seq<Worker<R>>, v: nat, w: nat, weight: Worker<R> -> nat)
    requires v < w < |ws|
    ensures weight(ws[v]) + weight(ws[w]) <= Total(ws, weight)
  {
    if w < |ws| - 1 {
      TotalHoldsTwo(ws[..|ws| - 1], v, w, weight);
    } else {
      TotalHoldsOne(ws[..|ws| - 1], v, weight);
    }
  }

  /** In every reachable state no two workers hold or did the same index, and no worker twice. */
  lemma ClaimsAreDisjoint<T, R>(items: seq<T>, f: T -> R, workers: nat, run: seq<State<R>>, v: nat, w: nat, i: nat)
    requires IsRun(items, f, workers, run)
    requires v < w < workers
    ensures var s := run[|run| - 1];
            && |s.workers| == workers
            && ClaimsOf(s.workers[v], i) + ClaimsOf(s.workers[w], i) <= 1
  {
    EveryRunIsSafe(items, f, workers, run);
    var s := run[|run| - 1];
    TotalHoldsTwo(s.workers, v, w, (worker: Worker<R>) => ClaimsOf(worker, i));
    assert Claims(s.workers, i) <= 1;
  }

  lemma ReturnedPastTheEnd<T, R>(items: seq<T>, f: T -> R, s: State<R>)
    requires |s.workers| >= 1 && Inv(items, f, s) && AllReturned(s)
    ensures s.next == |items| + |s.workers|
  {
    TotalOfOnes(s.workers, (worker: Worker<R>) => if worker.Returned? then 1 else 0);
  }

  /** A complete run claimed each index exactly once, and called the counter once more per worker. */
  lemma ClaimsCoverTheItems<T, R>(items: seq<T>, f: T -> R, workers: nat, run: seq<State<R>>)
    requires workers >= 1 && IsRun(items, f, workers, run) && AllReturned(run[|run| - 1])
    ensures var s := run[|run| - 1];
            && s.next == |items| + workers
            && forall i: nat :: Claims(s.workers, i) == if i < |items| then 1 else 0
  {
    EveryRunIsSafe(items, f, workers, run);
    ReturnedPastTheEnd(items, f, run[|run| - 1]);
  }

  // ----- the result

  function Map<T, R>(items: seq<T>, f: T -> R): seq<R>
  {
    seq(|items|, i requires 0 <= i < |items| => f(items[i]))
  }

  predicate IndexLe<R>(a: (nat, R), b: (nat, R)) { a.0 <= b.0 }

  /** What `sort_unstable_by_key` may return: some arrangement in index order. */
  ghost predicate SortedByIndex<R>(gathered: seq<(nat, R)>, sorted: seq<(nat, R)>)
  {
    multiset(sorted) == multiset(gathered) && SortedBy(sorted, IndexLe)
  }

  function Seconds<R>(done: seq<(nat, R)>): seq<R> { seq(|done|, i requires 0 <= i < |done| => done[i].1) }

  lemma {:induction false} GatheredFacts<T, R>(items: seq<T>, f: T -> R, ws: seq<Worker<R>>)
    requires forall w :: 0 <= w < |ws| ==> ws[w].Returned? && TrueResults(items, f, ws[w])
    ensures forall i: nat :: multiset(Firsts(Gathered(ws)))[i] == Claims(ws, i)
    ensures TrueResults(items, f, Returned(Gathered(ws)))
  {
    if ws == [] {
    } else {
      var front, last := ws[..|ws| - 1], ws[|ws| - 1];
      GatheredFacts(items, f, front);
      assert Firsts(Gathered(ws)) == Firsts(Gathered(front)) + Firsts(last.done);
      assert TrueResults(items, f, last);
    }
  }

  lemma FirstsRemove<R>(s: seq<(nat, R)>, i: nat)
    requires i < |s|
    ensures multiset(Firsts(s)) == multiset{s[i].0} + multiset(Firsts(RemoveAt(s, i)))
  {
    assert Firsts(s) == Firsts(s[..i]) + [s[i].0] + Firsts(s[i + 1..]);
    assert Firsts(RemoveAt(s, i)) == Firsts(s[..i]) + Firsts(s[i + 1..]);
  }

  lemma {:induction false} FirstsPermute<R>(a: seq<(nat, R)>, b: seq<(nat, R)>)
    requires multiset(a) == multiset(b)
    ensures multiset(Firsts(a)) == multiset(Firsts(b))
    decreases |a|
  {
    SameLength(a, b);
    if a == [] {
    } else {
      var i := FindIn(b, a[0]);
      RemoveBoth(a, b, i);
      FirstsPermute(a[1..], RemoveAt(b, i));
      FirstsRemove(b, i);
      FirstsRemove(a, 0);
      assert RemoveAt(a, 0) == a[1..];
    }
  }

  lemma IndexSeqOnce(n: nat, i: nat)
    ensures multiset(IndexSeq(n))[i] == if i < n then 1 else 0
  {
    assert i < n ==> IndexSeq(n)[i] == i;
    DistinctCount(IndexSeq(n), i);
  }

  /** Sorted by index, the indices are 0, 1, 2, ... */
  lemma SortedIndices<R>(sorted: seq<(nat, R)>, n: nat)
    requires multiset(Firsts(sorted)) == multiset(IndexSeq(n))
    requires SortedBy(sorted, IndexLe)
    ensures Firsts(sorted) == IndexSeq(n)
  {
    var le := (a: nat, b: nat) => a <= b;
    assert SortedBy(Firsts(sorted), le) && SortedBy(IndexSeq(n), le);
    SortedUnique(Firsts(sorted), IndexSeq(n), le);
  }

  /** For every complete run of at least one worker and every arrangement the sort may choose, the
      results are the serial map. */
  lemma CompleteRunIsSerialMap<T, R>(items: seq<T>, f: T -> R, workers: nat, run: seq<State<R>>, sorted: seq<(nat, R)>)
    requires workers >= 1 && IsRun(items, f, workers, run)
    requires AllReturned(run[|run| - 1])
    requires SortedByIndex(Gathered(run[|run| - 1].workers), sorted)
    ensures Seconds(sorted) == Map(items, f)
  {
    EveryRunIsSafe(items, f, workers, run);
    CompleteStateIsSerialMap(items, f, run[|run| - 1], sorted);
  }

  lemma CompleteStateIsSerialMap<T, R>(items: seq<T>, f: T -> R, s: State<R>, sorted: seq<(nat, R)>)
    requires |s.workers| >= 1 && Inv(items, f, s) && AllReturned(s)
    requires SortedByIndex(Gathered(s.workers), sorted)
    ensures Seconds(sorted) == Map(items, f)
  {
    GatheredFacts(items, f, s.workers);
    ReturnedPastTheEnd(items, f, s);
    forall i: nat ensures multiset(Firsts(Gathered(s.workers)))[i] == multiset(IndexSeq(|items|))[i] {
      assert multiset(Firsts(Gathered(s.workers)))[i] == Claims(s.workers, i);
      IndexSeqOnce(|items|, i);
    }
    assert multiset(Firsts(Gathered(s.workers))) == multiset(IndexSeq(|items|));
    FirstsPermute(sorted, Gathered(s.workers));
    SortedIndices(sorted, |items|);
    forall i | 0 <= i < |sorted| ensures i < |items| && sorted[i].1 == f(items[i]) {
      assert Firsts(sorted)[i] == IndexSeq(|items|)[i] == i;
      assert sorted[i] in multiset(Gathered(s.workers));
      var k :| 0 <= k < |Gathered(s.workers)| && Gathered(s.workers)[k] == sorted[i];
    }
    assert |Firsts(sorted)| == |items|;
  }

  /** The pool, with an arbitrary scheduler: each turn picks any worker that has not returned. As many
      work as threads are asked for, at least one and no more than there are items; one works alone. */
  method MapWith<T, R(!new)>(items: seq<T>, threads: nat, f: T -> R)
    returns (results: seq<R>, ghost pool: nat, ghost run: seq<State<R>>)
    ensures results == Map(items, f)
    ensures 1 <= threads <= |items| ==> pool == threads
    ensures threads == 0 || items == [] ==> pool == 1
    ensures threads > |items| >= 1 ==> pool == |items|
    ensures if pool == 1 then run == [] else IsRun(items, f, pool, run) && AllReturned(run[|run| - 1])
  {
    var most := if |items| > 1 then |items| else 1;
    var workers := if threads < 1 then 1 else if threads > most then most else threads;
    pool := workers;
    if workers == 1 {
      results, run := Map(items, f), [];
      return;
    }
    var s := Init<R>(workers);
    run := [s];
    while exists w :: 0 <= w < |s.workers| && CanStep(s, w)
      invariant IsRun(items, f, workers, run) && run[|run| - 1] == s
      decreases 2 * |items| + workers - (|run| - 1)
    {
      var w :| 0 <= w < |s.workers| && CanStep(s, w);
      s := Step(items, f, s, w);
      run := run + [s];
      EveryRunIsSafe(items, f, workers, run);
    }
    EveryRunIsSafe(items, f, workers, run);
    var indexed := SortBy(Gathered(s.workers), IndexLe);
    SortBySorted(Gathered(s.workers), IndexLe);
    forall w | 0 <= w < |s.workers| ensures s.workers[w].Returned? {
      assert !CanStep(s, w);
    }
    CompleteRunIsSerialMap(items, f, workers, run, indexed);
    results := Seconds(indexed);
  }
}
