/** Pairing under keys: what is left when each new item takes the first old item waiting under its
    key. The clone check pairs blocks this way and the contract check pairs rule hits. */
module Pairing {
  import opened Orders

  function Filter<T, K(==)>(s: seq<T>, key: T -> K, k: K): seq<T>
  {
    if s == [] then [] else (if key(s[0]) == k then [s[0]] else []) + Filter(s[1..], key, k)
  }

  function Count<T, K(==)>(s: seq<T>, key: T -> K, k: K): nat { |Filter(s, key, k)| }

  /** The keys of `s`, as a multiset. */
  function Bag<T, K(==)>(s: seq<T>, key: T -> K): multiset<K>
  {
    if s == [] then multiset{} else multiset{key(s[0])} + Bag(s[1..], key)
  }

  /** The items, in order, that find nothing left under their key in `waiting`. */
  function Unpaired<T, K(==)>(items: seq<T>, key: T -> K, waiting: multiset<K>): seq<T>
  {
    if items == [] then []
    else
      var k := key(items[0]);
      if k in waiting then Unpaired(items[1..], key, waiting - multiset{k})
      else [items[0]] + Unpaired(items[1..], key, waiting)
  }

  function Monus(a: nat, b: nat): nat { if a <= b then 0 else a - b }

  // ----- counting

  lemma FilterCons<T, K>(x: T, rest: seq<T>, key: T -> K, k: K)
    ensures Filter([x] + rest, key, k) == (if key(x) == k then [x] else []) + Filter(rest, key, k)
  {
  }

  lemma {:induction false} FilterConcat<T, K>(a: seq<T>, b: seq<T>, key: T -> K, k: K)
    ensures Filter(a + b, key, k) == Filter(a, key, k) + Filter(b, key, k)
  {
    if a == [] {
      assert a + b == b;
    } else {
      var x, rest := a[0], a[1..];
      FilterConcat(rest, b, key, k);
      assert a == [x] + rest && a + b == [x] + (rest + b);
      FilterCons(x, rest, key, k);
      FilterCons(x, rest + b, key, k);
    }
  }

  lemma FilterOne<T, K>(s: seq<T>, x: T, key: T -> K, k: K)
    ensures Filter(s + [x], key, k) == Filter(s, key, k) + (if key(x) == k then [x] else [])
  {
    FilterConcat(s, [x], key, k);
    assert Filter([x], key, k) == if key(x) == k then [x] else [];
  }

  lemma {:induction false} FilterMembers<T, K>(s: seq<T>, key: T -> K, k: K, x: T)
    ensures x in Filter(s, key, k) <==> x in s && key(x) == k
  {
    if s == [] {
    } else {
      FilterMembers(s[1..], key, k, x);
      assert x in s <==> x == s[0] || x in s[1..];
    }
  }

  lemma {:induction false} BagCounts<T, K>(s: seq<T>, key: T -> K, k: K)
    ensures Bag(s, key)[k] == Count(s, key, k)
  {
    if s == [] {
    } else {
      BagCounts(s[1..], key, k);
    }
  }

  lemma MultisetSwap<T>(a: seq<T>, b: seq<T>, c: seq<T>)
    ensures multiset(a + (b + c)) == multiset(b) + multiset(a + c)
  {
  }

  lemma FilterMiddle<T, K>(front: seq<T>, one: seq<T>, back: seq<T>, key: T -> K, k: K)
    ensures multiset(Filter(front + (one + back), key, k)) ==
            multiset(Filter(one, key, k)) + multiset(Filter(front + back, key, k))
  {
    FilterConcat(front, one + back, key, k);
    FilterConcat(one, back, key, k);
    FilterConcat(front, back, key, k);
    MultisetSwap(Filter(front, key, k), Filter(one, key, k), Filter(back, key, k));
  }

  lemma RemovedBetween<T>(s: seq<T>, i: nat)
    requires i < |s|
    ensures s == s[..i] + ([s[i]] + s[i + 1..]) && RemoveAt(s, i) == s[..i] + s[i + 1..]
  {
  }

  lemma FilterRemove<T, K>(s: seq<T>, i: nat, key: T -> K, k: K)
    requires i < |s|
    ensures multiset(Filter(s, key, k)) ==
            multiset(Filter([s[i]], key, k)) + multiset(Filter(RemoveAt(s, i), key, k))
  {
    RemovedBetween(s, i);
    FilterMiddle(s[..i], [s[i]], s[i + 1..], key, k);
  }

  lemma {:induction false} FilterPermute<T, K>(a: seq<T>, b: seq<T>, key: T -> K, k: K)
    requires multiset(a) == multiset(b)
    ensures multiset(Filter(a, key, k)) == multiset(Filter(b, key, k))
    decreases |a|
  {
    SameLength(a, b);
    if a == [] {
    } else {
      var i := FindIn(b, a[0]);
      RemoveBoth(a, b, i);
      FilterPermute(a[1..], RemoveAt(b, i), key, k);
      FilterRemove(b, i, key, k);
      FilterRemove(a, 0, key, k);
      assert RemoveAt(a, 0) == a[1..];
    }
  }

  lemma CountPermute<T, K>(a: seq<T>, b: seq<T>, key: T -> K, k: K)
    requires multiset(a) == multiset(b)
    ensures Count(a, key, k) == Count(b, key, k)
  {
    FilterPermute(a, b, key, k);
    SameLength(Filter(a, key, k), Filter(b, key, k));
  }

  /** A count over a split sequence is the sum of the counts. */
  lemma CountSplit<T, K>(whole: seq<T>, a: seq<T>, b: seq<T>, key: T -> K, k: K)
    requires multiset(whole) == multiset(a + b)
    ensures Count(whole, key, k) == Count(a, key, k) + Count(b, key, k)
  {
    CountPermute(whole, a + b, key, k);
    FilterConcat(a, b, key, k);
  }

  lemma CountZero<T, K>(s: seq<T>, key: T -> K, k: K)
    ensures Count(s, key, k) == 0 <==> forall x :: x in s ==> key(x) != k
  {
    if Count(s, key, k) == 0 {
      forall x | x in s ensures key(x) != k { FilterMembers(s, key, k, x); }
    } else {
      FilterMembers(s, key, k, Filter(s, key, k)[0]);
    }
  }

  /** The places of the items with the key. */
  ghost function PlacesOf<T, K>(s: seq<T>, key: T -> K, k: K): set<nat>
  {
    set i: nat | i < |s| && key(s[i]) == k
  }

  lemma {:induction false} CountIsPlaces<T, K>(s: seq<T>, key: T -> K, k: K)
    ensures Count(s, key, k) == |PlacesOf(s, key, k)|
    decreases |s|
  {
    if s == [] {
      assert PlacesOf(s, key, k) == {};
    } else {
      var last := |s| - 1;
      CountIsPlaces(s[..last], key, k);
      FilterOne(s[..last], s[last], key, k);
      assert s == s[..last] + [s[last]];
      assert PlacesOf(s, key, k) == PlacesOf(s[..last], key, k) + (if key(s[last]) == k then {last} else {});
    }
  }

  // ----- stable sorting

  /** The order cannot tell items of one key apart. */
  ghost predicate TiesTogether<T(!new), K>(le: (T, T) -> bool, key: T -> K)
  {
    forall a, b :: key(a) == key(b) ==> le(a, b)
  }

  lemma FilterSwap<T, K>(a: T, b: T, rest: seq<T>, key: T -> K, k: K)
    requires key(a) != key(b)
    ensures Filter([a] + ([b] + rest), key, k) == Filter([b] + ([a] + rest), key, k)
  {
    FilterCons(a, [b] + rest, key, k);
    FilterCons(b, rest, key, k);
    FilterCons(b, [a] + rest, key, k);
    FilterCons(a, rest, key, k);
  }

  lemma {:induction false} InsertStable<T(!new), K>(x: T, s: seq<T>, le: (T, T) -> bool, key: T -> K, k: K)
    requires TiesTogether(le, key)
    ensures Filter(Insert(x, s, le), key, k) == Filter([x] + s, key, k)
  {
    if s == [] || le(x, s[0]) {
    } else {
      var first, rest := s[0], s[1..];
      assert s == [first] + rest;
      InsertStable(x, rest, le, key, k);
      FilterCons(first, Insert(x, rest, le), key, k);
      FilterCons(first, [x] + rest, key, k);
      FilterSwap(first, x, rest, key, k);
    }
  }

  /** The sort keeps the order of the items that share a key. */
  lemma {:induction false} SortStable<T(!new), K>(s: seq<T>, le: (T, T) -> bool, key: T -> K, k: K)
    requires TiesTogether(le, key)
    ensures Filter(SortBy(s, le), key, k) == Filter(s, key, k)
  {
    if s == [] {
    } else {
      SortStable(s[1..], le, key, k);
      InsertStable(s[0], SortBy(s[1..], le), le, key, k);
      FilterCons(s[0], SortBy(s[1..], le), key, k);
    }
  }

  // ----- what pairing leaves

  /** All but the first `n`. */
  function DropFirst<T>(s: seq<T>, n: nat): seq<T> { if n <= |s| then s[n..] else [] }

  lemma DropFirstNext<T>(x: T, s: seq<T>, n: nat)
    ensures DropFirst([x] + s, n + 1) == DropFirst(s, n) && DropFirst([x] + s, 0) == [x] + s && DropFirst(s, 0) == s
  {
  }

  /** Under each key the first items pair, as many as were waiting, and the rest are left. */
  lemma {:induction false} UnpairedUnderKey<T, K>(items: seq<T>, key: T -> K, waiting: multiset<K>, k: K)
    ensures Filter(Unpaired(items, key, waiting), key, k) == DropFirst(Filter(items, key, k), waiting[k])
  {
    if items == [] {
    } else {
      var x, rest := items[0], items[1..];
      assert items == [x] + rest;
      if key(x) in waiting {
        UnpairedUnderKey(rest, key, waiting - multiset{key(x)}, k);
        UnpairedServed(x, rest, key, waiting, k);
      } else {
        UnpairedUnderKey(rest, key, waiting, k);
        UnpairedRefused(x, rest, key, waiting, k);
      }
    }
  }

  lemma LessOne<K>(waiting: multiset<K>, taken: K, k: K)
    requires taken in waiting
    ensures waiting[k] == (waiting - multiset{taken})[k] + (if taken == k then 1 else 0)
  {
  }

  lemma UnpairedTakes<T, K>(x: T, rest: seq<T>, key: T -> K, waiting: multiset<K>)
    requires key(x) in waiting
    ensures Unpaired([x] + rest, key, waiting) == Unpaired(rest, key, waiting - multiset{key(x)})
  {
    assert ([x] + rest)[1..] == rest;
  }

  lemma DropServed<T>(x: T, all: seq<T>, mine: bool, n: nat, m: nat)
    requires n == m + (if mine then 1 else 0)
    ensures DropFirst((if mine then [x] else []) + all, n) == DropFirst(all, m)
  {
    DropFirstNext(x, all, m);
    assert [] + all == all;
  }

  lemma UnpairedServed<T, K>(x: T, rest: seq<T>, key: T -> K, waiting: multiset<K>, k: K)
    requires key(x) in waiting
    requires var less := waiting - multiset{key(x)};
             Filter(Unpaired(rest, key, less), key, k) == DropFirst(Filter(rest, key, k), less[k])
    ensures Filter(Unpaired([x] + rest, key, waiting), key, k) == DropFirst(Filter([x] + rest, key, k), waiting[k])
  {
    var all, less := Filter(rest, key, k), waiting - multiset{key(x)};
    UnpairedTakes(x, rest, key, waiting);
    LessOne(waiting, key(x), k);
    FilterCons(x, rest, key, k);
    DropServed(x, all, key(x) == k, waiting[k], less[k]);
  }

  lemma UnpairedRefused<T, K>(x: T, rest: seq<T>, key: T -> K, waiting: multiset<K>, k: K)
    requires key(x) !in waiting
    requires Filter(Unpaired(rest, key, waiting), key, k) == DropFirst(Filter(rest, key, k), waiting[k])
    ensures Filter(Unpaired([x] + rest, key, waiting), key, k) == DropFirst(Filter([x] + rest, key, k), waiting[k])
  {
    var all := Filter(rest, key, k);
    assert ([x] + rest)[1..] == rest;
    FilterCons(x, rest, key, k);
    FilterCons(x, Unpaired(rest, key, waiting), key, k);
    if key(x) == k { DropFirstNext(x, all, 0); } else { assert [] + all == all; }
  }

  lemma UnpairedCount<T, K>(items: seq<T>, key: T -> K, waiting: multiset<K>, k: K)
    ensures Count(Unpaired(items, key, waiting), key, k) == Monus(Count(items, key, k), waiting[k])
  {
    UnpairedUnderKey(items, key, waiting, k);
  }

  lemma {:induction false} UnpairedKeeps<T, K, C>(items: seq<T>, key: T -> K, waiting: multiset<K>, fine: T -> C, e: C)
    requires forall x :: x in items && fine(x) == e ==> key(x) !in waiting
    ensures Filter(Unpaired(items, key, waiting), fine, e) == Filter(items, fine, e)
  {
    if items == [] {
    } else {
      var x, rest := items[0], items[1..];
      var less := if key(x) in waiting then waiting - multiset{key(x)} else waiting;
      UnpairedKeeps(rest, key, less, fine, e);
      FilterCons(x, Unpaired(rest, key, less), fine, e);
    }
  }

  ghost predicate IsEnd<T>(part: seq<T>, whole: seq<T>)
  {
    exists m: nat :: part == DropFirst(whole, m)
  }

  /** `part` are the items of `whole` at these places, in their order. */
  ghost predicate PicksOut<T>(part: seq<T>, whole: seq<T>, places: seq<nat>)
  {
    && |places| == |part|
    && (forall i :: 0 <= i < |part| ==> places[i] < |whole| && part[i] == whole[places[i]])
    && (forall i, j :: 0 <= i < j < |places| ==> places[i] < places[j])
  }

  /** `left` keeps the order of the items, and under each key it keeps the last of them. */
  ghost predicate LeavesEnds<T, K(!new)>(items: seq<T>, key: T -> K, left: seq<T>)
  {
    && (exists places :: PicksOut(left, items, places))
    && forall k :: IsEnd(Filter(left, key, k), Filter(items, key, k))
  }

  lemma {:induction false} UnpairedPlaces<T, K>(items: seq<T>, key: T -> K, waiting: multiset<K>)
    returns (places: seq<nat>)
    ensures PicksOut(Unpaired(items, key, waiting), items, places)
  {
    if items == [] {
      places := [];
    } else {
      var x, rest := items[0], items[1..];
      var less := if key(x) in waiting then waiting - multiset{key(x)} else waiting;
      var later := UnpairedPlaces(rest, key, less);
      var shifted := seq(|later|, i requires 0 <= i < |later| => later[i] + 1);
      places := (if key(x) in waiting then [] else [0]) + shifted;
      PicksShifted(x, Unpaired(rest, key, less), rest, later, key(x) !in waiting, places);
    }
  }

  lemma PicksShifted<T>(x: T, part: seq<T>, rest: seq<T>, later: seq<nat>, first: bool, places: seq<nat>)
    requires PicksOut(part, rest, later)
    requires places == (if first then [0] else []) + seq(|later|, i requires 0 <= i < |later| => later[i] + 1)
    ensures PicksOut((if first then [x] else []) + part, [x] + rest, places)
  {
  }

  lemma UnpairedLeavesEnds<T, K(!new)>(items: seq<T>, key: T -> K, waiting: multiset<K>)
    ensures LeavesEnds(items, key, Unpaired(items, key, waiting))
  {
    var places := UnpairedPlaces(items, key, waiting);
    forall k ensures IsEnd(Filter(Unpaired(items, key, waiting), key, k), Filter(items, key, k)) {
      UnpairedUnderKey(items, key, waiting, k);
    }
  }

  /** Under a key that decides the pairing key, pairing takes from the front: what is left is the end. */
  lemma {:induction false} UnpairedIsEnd<T, K, C>(items: seq<T>, key: T -> K, waiting: multiset<K>, fine: T -> C, e: C)
    returns (m: nat)
    requires forall x, y :: x in items && y in items && fine(x) == fine(y) ==> key(x) == key(y)
    ensures Filter(Unpaired(items, key, waiting), fine, e) == DropFirst(Filter(items, fine, e), m)
  {
    if items == [] {
      m := 0;
    } else {
      var x, rest := items[0], items[1..];
      var all := Filter(rest, fine, e);
      assert items == [x] + rest && x in items;
      FilterCons(x, rest, fine, e);
      if key(x) in waiting {
        m := UnpairedIsEnd(rest, key, waiting - multiset{key(x)}, fine, e);
        DropFirstNext(x, all, m);
        m := if fine(x) == e then m + 1 else m;
      } else if fine(x) == e {
        m := 0;
        UnpairedKeeps(items, key, waiting, fine, e);
        DropFirstNext(x, all, 0);
      } else {
        m := UnpairedIsEnd(rest, key, waiting, fine, e);
        FilterCons(x, Unpaired(rest, key, waiting), fine, e);
      }
    }
  }
}
