/** Breadth-first rounds over groups: one item of each group at a time. */
module Fairness {
  import opened Orders
  import opened Pairing

  function Nth<T>(group: seq<T>, round: nat): seq<T> { if round < |group| then [group[round]] else [] }

  /** One item of each group that has one for the round, in group order. */
  function Column<T>(groups: seq<seq<T>>, round: nat): seq<T>
  {
    if groups == [] then []
    else Column(groups[..|groups| - 1], round) + Nth(groups[|groups| - 1], round)
  }

  function Rounds<T>(groups: seq<seq<T>>, n: nat): seq<T>
  {
    if n == 0 then [] else Rounds(groups, n - 1) + Column(groups, n - 1)
  }

  function Longest<T>(groups: seq<seq<T>>): (n: nat)
    ensures forall g :: 0 <= g < |groups| ==> |groups[g]| <= n
  {
    if groups == [] then 0
    else
      var front, last := Longest(groups[..|groups| - 1]), |groups[|groups| - 1]|;
      assert forall g :: 0 <= g < |groups| - 1 ==> groups[g] == groups[..|groups| - 1][g];
      if front < last then last else front
  }

  function Take<T>(s: seq<T>, limit: nat): seq<T> { if limit < |s| then s[..limit] else s }

  /** The first `n` of a group. */
  function First<T>(group: seq<T>, n: nat): seq<T> { group[..Min(n, |group|)] }

  lemma FirstNext<T>(group: seq<T>, n: nat)
    ensures First(group, n + 1) == First(group, n) + Nth(group, n)
  {
  }

  // ----- the runs of one key

  predicate NonEmpty<T>(groups: seq<seq<T>>)
  {
    forall g :: 0 <= g < |groups| ==> groups[g] != []
  }

  function AddItem<T, K(==)>(groups: seq<seq<T>>, key: T -> K, item: T): (r: seq<seq<T>>)
    requires NonEmpty(groups)
    ensures NonEmpty(r)
  {
    var last := |groups| - 1;
    if groups != [] && key(groups[last][0]) == key(item) then groups[last := groups[last] + [item]]
    else groups + [[item]]
  }

  /** The maximal runs of items with one key. */
  function Groups<T, K(==)>(items: seq<T>, key: T -> K): (groups: seq<seq<T>>)
    ensures NonEmpty(groups)
  {
    if items == [] then []
    else AddItem(Groups(items[..|items| - 1], key), key, items[|items| - 1])
  }

  ghost predicate AllOn<T, K>(group: seq<T>, key: T -> K, k: K)
  {
    forall i :: 0 <= i < |group| ==> key(group[i]) == k
  }

  ghost predicate OneKeyEach<T, K>(groups: seq<seq<T>>, key: T -> K)
  {
    && NonEmpty(groups)
    && (forall g :: 0 <= g < |groups| ==> AllOn(groups[g], key, key(groups[g][0])))
    && (forall g, h :: 0 <= g < h < |groups| ==> key(groups[g][0]) != key(groups[h][0]))
  }

  ghost predicate Without<T, K>(groups: seq<seq<T>>, key: T -> K, k: K)
  {
    forall g :: 0 <= g < |groups| ==>
        groups[g] != [] && AllOn(groups[g], key, key(groups[g][0])) && key(groups[g][0]) != k
  }

  /** Each group is all the items under its own key, and every item is in a group. */
  ghost predicate GroupsOf<T, K(!new)>(groups: seq<seq<T>>, items: seq<T>, key: T -> K)
  {
    && OneKeyEach(groups, key)
    && (forall g :: 0 <= g < |groups| ==> groups[g] == Filter(items, key, key(groups[g][0])))
    && (forall k :: Count(items, key, k) > 0 ==> HasGroup(groups, key, k))
  }

  ghost predicate HasGroup<T, K>(groups: seq<seq<T>>, key: T -> K, k: K)
  {
    exists g :: 0 <= g < |groups| && groups[g] != [] && key(groups[g][0]) == k
  }

  /** The next item of sorted input extends the last group or starts one with a new key. */
  lemma AddItemFacts<T, K(!new)>(groups: seq<seq<T>>, items: seq<T>, key: T -> K, item: T)
    requires GroupsOf(groups, items, key)
    requires (groups != [] && key(groups[|groups| - 1][0]) == key(item)) || Count(items, key, key(item)) == 0
    ensures GroupsOf(AddItem(groups, key, item), items + [item], key)
  {
    var after, last: int := AddItem(groups, key, item), |groups| - 1;
    var joins := groups != [] && key(groups[last][0]) == key(item);
    forall g | 0 <= g < |groups| && (g != last || !joins) ensures key(groups[g][0]) != key(item) {
      assert groups[g] == Filter(items, key, key(groups[g][0]));
    }
    forall g | 0 <= g < |after| ensures after[g] == Filter(items + [item], key, key(after[g][0])) {
      FilterOne(items, item, key, key(after[g][0]));
      assert g < |groups| ==> groups[g] == Filter(items, key, key(groups[g][0]));
    }
    forall g | 0 <= g < |after| ensures AllOn(after[g], key, key(after[g][0])) {
      assert g < |groups| ==> AllOn(groups[g], key, key(groups[g][0]));
    }
    forall k | Count(items + [item], key, k) > 0 ensures HasGroup(after, key, k) {
      FilterOne(items, item, key, k);
      if k == key(item) {
        assert key(after[|after| - 1][0]) == k;
      } else {
        assert HasGroup(groups, key, k);
        var g :| 0 <= g < |groups| && groups[g] != [] && key(groups[g][0]) == k;
        assert key(after[g][0]) == k;
      }
    }
  }

  lemma GroupsWithout<T, K(!new)>(groups: seq<seq<T>>, items: seq<T>, key: T -> K, k: K)
    requires GroupsOf(groups, items, key) && Count(items, key, k) == 0
    ensures Without(groups, key, k)
  {
  }

  // ----- what the rounds hold of one group

  lemma NthFiltered<T, K>(group: seq<T>, key: T -> K, round: nat, k: K)
    requires group != [] && AllOn(group, key, key(group[0]))
    ensures Filter(Nth(group, round), key, k) == if key(group[0]) == k then Nth(group, round) else []
  {
  }

  lemma {:induction false} ColumnOfGroup<T, K>(groups: seq<seq<T>>, key: T -> K, round: nat, g: nat)
    requires OneKeyEach(groups, key) && g < |groups|
    ensures Filter(Column(groups, round), key, key(groups[g][0])) == Nth(groups[g], round)
  {
    var last, k := |groups| - 1, key(groups[g][0]);
    FilterConcat(Column(groups[..last], round), Nth(groups[last], round), key, k);
    NthFiltered(groups[last], key, round, k);
    if g == last {
      ColumnWithout(groups[..last], key, round, k);
    } else {
      ColumnOfGroup(groups[..last], key, round, g);
    }
  }

  lemma {:induction false} ColumnWithout<T, K>(groups: seq<seq<T>>, key: T -> K, round: nat, k: K)
    requires Without(groups, key, k)
    ensures Filter(Column(groups, round), key, k) == []
  {
    if groups == [] {
    } else {
      var last := |groups| - 1;
      ColumnWithout(groups[..last], key, round, k);
      NthFiltered(groups[last], key, round, k);
      FilterConcat(Column(groups[..last], round), Nth(groups[last], round), key, k);
    }
  }

  lemma RoundsNext<T, K>(groups: seq<seq<T>>, key: T -> K, n: nat, k: K, earlier: seq<T>, last: seq<T>)
    requires Filter(Rounds(groups, n), key, k) == earlier && Filter(Column(groups, n), key, k) == last
    ensures Filter(Rounds(groups, n + 1), key, k) == earlier + last
  {
    FilterConcat(Rounds(groups, n), Column(groups, n), key, k);
  }

  /** If every column holds the group's item of its round under `k`, the rounds hold its first items. */
  lemma {:induction false} RoundsByColumn<T, K>(groups: seq<seq<T>>, key: T -> K, n: nat, k: K, group: seq<T>)
    requires forall round: nat :: Filter(Column(groups, round), key, k) == Nth(group, round)
    ensures Filter(Rounds(groups, n), key, k) == First(group, n)
  {
    if n == 0 {
    } else {
      RoundsByColumn(groups, key, n - 1, k, group);
      assert Filter(Column(groups, n - 1), key, k) == Nth(group, n - 1);
      RoundsNext(groups, key, n - 1, k, First(group, n - 1), Nth(group, n - 1));
      FirstNext(group, n - 1);
    }
  }

  lemma RoundsOfGroup<T, K>(groups: seq<seq<T>>, key: T -> K, n: nat, g: nat)
    requires OneKeyEach(groups, key) && g < |groups|
    ensures Filter(Rounds(groups, n), key, key(groups[g][0])) == First(groups[g], n)
  {
    forall round: nat ensures Filter(Column(groups, round), key, key(groups[g][0])) == Nth(groups[g], round) {
      ColumnOfGroup(groups, key, round, g);
    }
    RoundsByColumn(groups, key, n, key(groups[g][0]), groups[g]);
  }

  lemma RoundsWithout<T, K>(groups: seq<seq<T>>, key: T -> K, n: nat, k: K)
    requires Without(groups, key, k)
    ensures Filter(Rounds(groups, n), key, k) == []
  {
    forall round: nat ensures Filter(Column(groups, round), key, k) == Nth([], round) {
      ColumnWithout(groups, key, round, k);
    }
    RoundsByColumn(groups, key, n, k, []);
  }

  // ----- what a cut keeps

  /** A cut falls inside one round. */
  lemma {:induction false} CutInRound<T>(groups: seq<seq<T>>, n: nat, k: nat)
    returns (round: nat, part: seq<T>, rest: seq<T>)
    requires k <= |Rounds(groups, n)|
    ensures Rounds(groups, n)[..k] == Rounds(groups, round) + part && part + rest == Column(groups, round)
  {
    if n == 0 || |Rounds(groups, n - 1)| <= k {
      round := if n == 0 then 0 else n - 1;
      part := if n == 0 then [] else Column(groups, n - 1)[..k - |Rounds(groups, n - 1)|];
      rest := Column(groups, round)[|part|..];
    } else {
      round, part, rest := CutInRound(groups, n - 1, k);
      assert Rounds(groups, n)[..k] == Rounds(groups, n - 1)[..k];
    }
  }

  /** Of each group the cut keeps a prefix: the items of the whole rounds, and at most one more. */
  lemma CutOfGroup<T, K>(groups: seq<seq<T>>, key: T -> K, round: nat, part: seq<T>, rest: seq<T>, g: nat)
    requires OneKeyEach(groups, key) && g < |groups|
    requires part + rest == Column(groups, round)
    ensures var kept := Filter(Rounds(groups, round) + part, key, key(groups[g][0]));
            kept <= groups[g] && Min(round, |groups[g]|) <= |kept| <= round + 1
  {
    var k := key(groups[g][0]);
    RoundsOfGroup(groups, key, round, g);
    ColumnOfGroup(groups, key, round, g);
    FilterConcat(part, rest, key, k);
    FilterConcat(Rounds(groups, round), part, key, k);
    PrefixOfNext(groups[g], round, Filter(part, key, k), Filter(rest, key, k));
  }

  lemma PrefixOfNext<T>(group: seq<T>, round: nat, mine: seq<T>, later: seq<T>)
    requires mine + later == Nth(group, round)
    ensures First(group, round) + mine <= group
    ensures |mine| <= 1
  {
    FirstNext(group, round);
    assert (First(group, round) + mine) + later == First(group, round + 1);
  }

  lemma KeptOf<T, K(!new)>(items: seq<T>, groups: seq<seq<T>>, key: T -> K, round: nat, part: seq<T>, rest: seq<T>,
                           k: K)
    requires GroupsOf(groups, items, key)
    requires part + rest == Column(groups, round)
    ensures var kept := Rounds(groups, round) + part;
            && Filter(kept, key, k) <= Filter(items, key, k)
            && Min(round, Count(items, key, k)) <= Count(kept, key, k) <= round + 1
  {
    if Count(items, key, k) > 0 {
      assert HasGroup(groups, key, k);
      var g :| 0 <= g < |groups| && groups[g] != [] && key(groups[g][0]) == k;
      CutOfGroup(groups, key, round, part, rest, g);
    } else {
      GroupsWithout(groups, items, key, k);
      RoundsWithout(groups, key, round, k);
      ColumnWithout(groups, key, round, k);
      FilterConcat(part, rest, key, k);
      FilterConcat(Rounds(groups, round), part, key, k);
    }
  }

  lemma {:induction false} CountInFilter<T, K>(s: seq<T>, key: T -> K, x: T)
    ensures multiset(s)[x] == multiset(Filter(s, key, key(x)))[x]
  {
    if s == [] {
    } else {
      assert s == [s[0]] + s[1..];
      CountInFilter(s[1..], key, x);
    }
  }

  /** All rounds together hold every item. */
  lemma RoundsAreAll<T, K(!new)>(items: seq<T>, groups: seq<seq<T>>, key: T -> K)
    requires GroupsOf(groups, items, key)
    ensures multiset(Rounds(groups, Longest(groups))) == multiset(items)
  {
    var all := Rounds(groups, Longest(groups));
    forall k ensures Filter(all, key, k) == Filter(items, key, k) { AllOfKey(items, groups, key, k); }
    SameFilters(all, items, key);
  }

  lemma SameFilters<T, K(!new)>(a: seq<T>, b: seq<T>, key: T -> K)
    requires forall k :: Filter(a, key, k) == Filter(b, key, k)
    ensures multiset(a) == multiset(b)
  {
    forall x ensures multiset(a)[x] == multiset(b)[x] {
      CountInFilter(a, key, x);
      CountInFilter(b, key, x);
    }
  }

  lemma AllOfKey<T, K(!new)>(items: seq<T>, groups: seq<seq<T>>, key: T -> K, k: K)
    requires GroupsOf(groups, items, key)
    ensures Filter(Rounds(groups, Longest(groups)), key, k) == Filter(items, key, k)
  {
    if Count(items, key, k) > 0 {
      assert HasGroup(groups, key, k);
      var g :| 0 <= g < |groups| && groups[g] != [] && key(groups[g][0]) == k;
      RoundsOfGroup(groups, key, Longest(groups), g);
      assert First(groups[g], Longest(groups)) == groups[g];
    } else {
      GroupsWithout(groups, items, key, k);
      RoundsWithout(groups, key, Longest(groups), k);
    }
  }

  /** A cut of the rounds spends the limit in full, keeps a prefix of each key's items, and a key
      that loses an item keeps at most one less than any other key. */
  lemma CutIsFair<T, K(!new)>(items: seq<T>, groups: seq<seq<T>>, key: T -> K, limit: nat, p: K, q: K)
    requires GroupsOf(groups, items, key)
    ensures var kept := Take(Rounds(groups, Longest(groups)), limit);
            && |kept| == Min(limit, |items|)
            && Filter(kept, key, p) <= Filter(items, key, p)
            && (Count(kept, key, p) < Count(items, key, p) ==> Count(kept, key, q) <= Count(kept, key, p) + 1)
  {
    var all := Rounds(groups, Longest(groups));
    RoundsAreAll(items, groups, key);
    SameLength(all, items);
    var round, part, rest := CutInRound(groups, Longest(groups), Min(limit, |all|));
    assert Take(all, limit) == all[..Min(limit, |all|)];
    KeptOf(items, groups, key, round, part, rest, p);
    KeptOf(items, groups, key, round, part, rest, q);
  }
}
