/** The blocks of one clone run, and one pass that pairs the old blocks with the new under a key
    (crates/checks/src/copies.rs). */
module Copies {
  import opened Options
  import opened Orders
  import opened Pairing

  type Key = nat

  const MIN_FINDING_TOKENS: nat := 40
  const MIN_INSTANCES: nat := 2

  /** `key` is the Type-2 key (names and literals abstracted) and `exact` the key of every token. */
  datatype Block = Block(start: nat, end: nat, key: Key, exact: Key, isFunction: bool, tokens: nat)

  datatype Placed = Placed(path: string, block: Block)

  /** One changed file of the run: its old and new block ids, and the new line of each old line
      that the diff left in place. */
  datatype Indexed = Indexed(olds: seq<nat>, news: seq<nat>, stayed: map<nat, nat>)

  // Ids come from the run itself, so the default is never read; it keeps the lookups total.
  const NOWHERE := Placed("", Block(0, 0, 0, 0, false, 0))

  function At(blocks: seq<Placed>, id: nat): Placed
  {
    if id < |blocks| then blocks[id] else NOWHERE
  }

  function Exact(blocks: seq<Placed>): nat -> Option<Key>
  {
    (id: nat) => if id < |blocks| then Some(blocks[id].block.exact) else None
  }

  function Type2(blocks: seq<Placed>): nat -> Option<Key>
  {
    (id: nat) => if id < |blocks| then Some(blocks[id].block.key) else None
  }

  /** An old block's key on the first pass: the new line it stayed on, if any, and its tokens. */
  function StayedKey(blocks: seq<Placed>, stayed: map<nat, nat>): nat -> (Option<nat>, Option<Key>)
  {
    (id: nat) =>
      var line := At(blocks, id).block.start;
      (if line in stayed then Some(stayed[line]) else None, Exact(blocks)(id))
  }

  function LineKey(blocks: seq<Placed>): nat -> (Option<nat>, Option<Key>)
  {
    (id: nat) => (Some(At(blocks, id).block.start), Exact(blocks)(id))
  }

  /** Equal token sequences abstract to equal Type-2 sequences. */
  ghost predicate ExactRefinesType2(blocks: seq<Placed>)
  {
    forall i, j :: 0 <= i < |blocks| && 0 <= j < |blocks| && blocks[i].block.exact == blocks[j].block.exact ==>
      blocks[i].block.key == blocks[j].block.key
  }

  // ----- the order of places: path, then start line, then end line

  predicate PlaceLe(a: Placed, b: Placed)
  {
    if a.path != b.path then StrLe(a.path, b.path)
    else a.block.start < b.block.start || (a.block.start == b.block.start && a.block.end <= b.block.end)
  }

  function ByPlace(blocks: seq<Placed>): (nat, nat) -> bool
  {
    (a: nat, b: nat) => PlaceLe(At(blocks, a), At(blocks, b))
  }

  lemma ByPlaceIsPreorder(blocks: seq<Placed>)
    ensures TotalPreorder(ByPlace(blocks))
  {
    StrLeIsTotalOrder();
    forall a: Placed, b: Placed, c: Placed | PlaceLe(a, b) && PlaceLe(b, c) ensures PlaceLe(a, c) {
      if a.path != b.path && b.path != c.path && a.path == c.path {
        StrLeAntisymmetric(a.path, b.path);
      }
    }
  }

  // ----- one pairing pass

  function Flatten(queues: seq<seq<nat>>): seq<nat>
  {
    if queues == [] then [] else queues[0] + Flatten(queues[1..])
  }

  function Olds(pairs: seq<(nat, nat)>): seq<nat> { seq(|pairs|, i requires 0 <= i < |pairs| => pairs[i].0) }

  function News(pairs: seq<(nat, nat)>): seq<nat> { seq(|pairs|, i requires 0 <= i < |pairs| => pairs[i].1) }

  /** `pairs` takes one old and one new block under one key each time, `oldLeft` and `newLeft` are
      the rest, and no key is left on both sides. */
  ghost predicate IsPairing<K(!new)>(olds: seq<nat>, news: seq<nat>, oldKey: nat -> K, newKey: nat -> K,
                                     pairs: seq<(nat, nat)>, oldLeft: seq<nat>, newLeft: seq<nat>)
  {
    && multiset(olds) == multiset(Olds(pairs) + oldLeft)
    && multiset(news) == multiset(News(pairs) + newLeft)
    && (forall i :: 0 <= i < |pairs| ==> oldKey(pairs[i].0) == newKey(pairs[i].1))
    && (forall k :: Count(oldLeft, oldKey, k) == 0 || Count(newLeft, newKey, k) == 0)
  }

  /** Under each key the pairs take the old and the new blocks in order from the first. */
  ghost predicate FirstCome<K(!new)>(olds: seq<nat>, news: seq<nat>, oldKey: nat -> K, newKey: nat -> K,
                                     pairs: seq<(nat, nat)>)
  {
    forall k :: Filter(Olds(pairs), oldKey, k) <= Filter(olds, oldKey, k)
             && Filter(News(pairs), newKey, k) <= Filter(news, newKey, k)
  }

  ghost function Queue<K>(slots: map<K, nat>, waiting: seq<seq<nat>>, k: K): seq<nat>
  {
    if k in slots && slots[k] < |waiting| then waiting[slots[k]] else []
  }

  /** Each key has its own slot. */
  ghost predicate OwnSlots<K(!new)>(slots: map<K, nat>, waiting: seq<seq<nat>>)
  {
    && (forall k :: k in slots ==> slots[k] < |waiting|)
    && (forall k, l :: k in slots && l in slots && slots[k] == slots[l] ==> k == l)
  }

  /** The keys in the order they first appear. */
  function FirstKeys<K(==)>(ids: seq<nat>, key: nat -> K): seq<K>
  {
    if ids == [] then []
    else
      var earlier, last := FirstKeys(ids[..|ids| - 1], key), key(ids[|ids| - 1]);
      if last in earlier then earlier else earlier + [last]
  }

  /** Slot `j` is the queue of key `j`, and no other key has one. */
  ghost predicate InOrder<K(!new)>(slots: map<K, nat>, keys: seq<K>)
  {
    && (forall j :: 0 <= j < |keys| ==> keys[j] in slots && slots[keys[j]] == j)
    && (forall k :: k in slots ==> k in keys)
  }

  lemma InOrderNext<K(!new)>(slots: map<K, nat>, keys: seq<K>, key: K)
    requires InOrder(slots, keys) && key !in slots
    ensures InOrder(slots[key := |keys|], keys + [key])
  {
  }

  lemma FirstKeysNext<K>(ids: seq<nat>, id: nat, key: nat -> K)
    ensures FirstKeys(ids + [id], key) ==
            (if key(id) in FirstKeys(ids, key) then FirstKeys(ids, key) else FirstKeys(ids, key) + [key(id)])
  {
    assert (ids + [id])[..|ids|] == ids;
  }

  /** What a pass leaves of each queue of old blocks: all but as many as there are new ones. */
  function LeftQueues<K(==)>(olds: seq<nat>, news: seq<nat>, oldKey: nat -> K, newKey: nat -> K): seq<seq<nat>>
  {
    var keys := FirstKeys(olds, oldKey);
    seq(|keys|, j requires 0 <= j < |keys| =>
      DropFirst(Filter(olds, oldKey, keys[j]), Count(news, newKey, keys[j])))
  }

  lemma {:induction false} FlattenPush(queues: seq<seq<nat>>, slot: nat, id: nat)
    requires slot < |queues|
    ensures multiset(Flatten(queues[slot := queues[slot] + [id]])) == multiset(Flatten(queues) + [id])
  {
    var after := queues[slot := queues[slot] + [id]];
    if slot == 0 {
      assert after[1..] == queues[1..];
    } else {
      FlattenPush(queues[1..], slot - 1, id);
      assert after[1..] == queues[1..][slot - 1 := queues[slot] + [id]];
    }
  }

  lemma {:induction false} FlattenPop(queues: seq<seq<nat>>, slot: nat)
    requires slot < |queues| && queues[slot] != []
    ensures multiset([queues[slot][0]] + Flatten(queues[slot := queues[slot][1..]])) == multiset(Flatten(queues))
  {
    var q := queues[slot];
    var after := queues[slot := q[1..]];
    assert q == [q[0]] + q[1..];
    if slot == 0 {
      assert after[1..] == queues[1..];
    } else {
      FlattenPop(queues[1..], slot - 1);
      assert after[1..] == queues[1..][slot - 1 := q[1..]];
    }
  }

  lemma {:induction false} FlattenNew(queues: seq<seq<nat>>, id: nat)
    ensures Flatten(queues + [[id]]) == Flatten(queues) + [id]
  {
    if queues == [] {
      assert queues + [[id]] == [[id]];
      assert Flatten([[id]]) == [id] + Flatten([]);
    } else {
      FlattenNew(queues[1..], id);
      assert (queues + [[id]])[1..] == queues[1..] + [[id]];
    }
  }

  lemma QueueSet<K(!new)>(slots: map<K, nat>, waiting: seq<seq<nat>>, key: K, queue: seq<nat>, k: K)
    requires OwnSlots(slots, waiting) && key in slots
    ensures OwnSlots(slots, waiting[slots[key] := queue])
    ensures Queue(slots, waiting[slots[key] := queue], k) == if k == key then queue else Queue(slots, waiting, k)
  {
  }

  ghost predicate Queued<K(!new)>(slots: map<K, nat>, waiting: seq<seq<nat>>, olds: seq<nat>, oldKey: nat -> K)
  {
    && OwnSlots(slots, waiting)
    && (forall k :: Queue(slots, waiting, k) == Filter(olds, oldKey, k))
    && multiset(Flatten(waiting)) == multiset(olds)
  }

  lemma QueueFresh<K(!new)>(slots: map<K, nat>, waiting: seq<seq<nat>>, key: K, queue: seq<nat>, k: K)
    requires OwnSlots(slots, waiting) && key !in slots
    ensures OwnSlots(slots[key := |waiting|], waiting + [queue])
    ensures Queue(slots[key := |waiting|], waiting + [queue], k) == if k == key then queue else Queue(slots, waiting, k)
  {
  }

  lemma QueuedFresh<K(!new)>(slots: map<K, nat>, waiting: seq<seq<nat>>, olds: seq<nat>, oldKey: nat -> K, id: nat)
    requires Queued(slots, waiting, olds, oldKey) && oldKey(id) !in slots
    ensures Queued(slots[oldKey(id) := |waiting|], waiting + [[id]], olds + [id], oldKey)
  {
    FlattenNew(waiting, id);
    var key := oldKey(id);
    assert Queue(slots, waiting, key) == [];
    QueueFresh(slots, waiting, key, [id], key);
    forall k ensures Queue(slots[key := |waiting|], waiting + [[id]], k) == Filter(olds + [id], oldKey, k) {
      FilterOne(olds, id, oldKey, k);
      QueueFresh(slots, waiting, key, [id], k);
    }
  }

  lemma QueuedPush<K(!new)>(slots: map<K, nat>, waiting: seq<seq<nat>>, olds: seq<nat>, oldKey: nat -> K, id: nat)
    requires Queued(slots, waiting, olds, oldKey) && oldKey(id) in slots
    ensures var slot := slots[oldKey(id)];
            Queued(slots, waiting[slot := waiting[slot] + [id]], olds + [id], oldKey)
  {
    var slot := slots[oldKey(id)];
    FlattenPush(waiting, slot, id);
    forall k ensures Queue(slots, waiting[slot := waiting[slot] + [id]], k) == Filter(olds + [id], oldKey, k) {
      FilterOne(olds, id, oldKey, k);
      QueueSet(slots, waiting, oldKey(id), waiting[slot] + [id], k);
      assert Queue(slots, waiting, k) == Filter(olds, oldKey, k);
    }
  }

  /** The old blocks in a queue per key, the queues in the order each key first appears. */
  method Enqueue<K(==, !new)>(olds: seq<nat>, oldKey: nat -> K)
    returns (slots: map<K, nat>, waiting: seq<seq<nat>>)
    ensures Queued(slots, waiting, olds, oldKey)
    ensures InOrder(slots, FirstKeys(olds, oldKey)) && |waiting| == |FirstKeys(olds, oldKey)|
  {
    slots, waiting := map[], [];
    for i := 0 to |olds|
      invariant Queued(slots, waiting, olds[..i], oldKey)
      invariant InOrder(slots, FirstKeys(olds[..i], oldKey)) && |waiting| == |FirstKeys(olds[..i], oldKey)|
    {
      var id, key := olds[i], oldKey(olds[i]);
      assert olds[..i + 1] == olds[..i] + [id];
      FirstKeysNext(olds[..i], id, oldKey);
      if key !in slots {
        QueuedFresh(slots, waiting, olds[..i], oldKey, id);
        InOrderNext(slots, FirstKeys(olds[..i], oldKey), key);
        slots := slots[key := |waiting|];
        waiting := waiting + [[id]];
      } else {
        QueuedPush(slots, waiting, olds[..i], oldKey, id);
        waiting := waiting[slots[key] := waiting[slots[key]] + [id]];
      }
    }
    assert olds[..|olds|] == olds;
  }

  /** Part way through a pass: `pairs` and `newLeft` split the new blocks seen so far. */
  ghost predicate Serving<K(!new)>(slots: map<K, nat>, waiting: seq<seq<nat>>, olds: seq<nat>, seen: seq<nat>,
                                   oldKey: nat -> K, newKey: nat -> K, pairs: seq<(nat, nat)>, newLeft: seq<nat>)
  {
    && OwnSlots(slots, waiting)
    && multiset(Olds(pairs) + Flatten(waiting)) == multiset(olds)
    && multiset(News(pairs) + newLeft) == multiset(seen)
    && (forall i :: 0 <= i < |pairs| ==> oldKey(pairs[i].0) == newKey(pairs[i].1))
    && (forall k :: ServingUnder(Queue(slots, waiting, k), olds, seen, oldKey, newKey,
                                 Olds(pairs), News(pairs), newLeft, k))
  }

  ghost predicate ServingUnder<K>(queue: seq<nat>, olds: seq<nat>, seen: seq<nat>, oldKey: nat -> K, newKey: nat -> K,
                                  taken: seq<nat>, served: seq<nat>, newLeft: seq<nat>, k: K)
  {
    && Filter(taken, oldKey, k) + queue == Filter(olds, oldKey, k)
    && Filter(served, newKey, k) + Filter(newLeft, newKey, k) == Filter(seen, newKey, k)
    && (queue != [] ==> Filter(newLeft, newKey, k) == [])
  }

  lemma PairsPush(pairs: seq<(nat, nat)>, first: nat, id: nat)
    ensures Olds(pairs + [(first, id)]) == Olds(pairs) + [first]
    ensures News(pairs + [(first, id)]) == News(pairs) + [id]
  {
  }

  lemma ServeFirstBags(waiting: seq<seq<nat>>, slot: nat, olds: seq<nat>, seen: seq<nat>,
                       taken: seq<nat>, served: seq<nat>, newLeft: seq<nat>, id: nat)
    requires slot < |waiting| && waiting[slot] != []
    requires multiset(taken + Flatten(waiting)) == multiset(olds)
    requires multiset(served + newLeft) == multiset(seen)
    ensures multiset((taken + [waiting[slot][0]]) + Flatten(waiting[slot := waiting[slot][1..]])) == multiset(olds)
    ensures multiset((served + [id]) + newLeft) == multiset(seen + [id])
  {
    FlattenPop(waiting, slot);
  }

  lemma ServeFirstUnder<K>(first: nat, rest: seq<nat>, olds: seq<nat>, seen: seq<nat>, oldKey: nat -> K,
                           newKey: nat -> K,
                           taken: seq<nat>, served: seq<nat>, newLeft: seq<nat>, id: nat)
    requires oldKey(first) == newKey(id)
    requires ServingUnder([first] + rest, olds, seen, oldKey, newKey, taken, served, newLeft, newKey(id))
    ensures ServingUnder(rest, olds, seen + [id], oldKey, newKey, taken + [first], served + [id], newLeft, newKey(id))
  {
    var k := newKey(id);
    FilterOne(taken, first, oldKey, k);
    FilterOne(served, id, newKey, k);
    FilterOne(seen, id, newKey, k);
    var t, s := Filter(taken, oldKey, k), Filter(served, newKey, k);
    assert (t + [first]) + rest == t + ([first] + rest);
    assert s + [] == s && (s + [id]) + [] == s + [id];
  }

  lemma ServeOther<K>(queue: seq<nat>, olds: seq<nat>, seen: seq<nat>, oldKey: nat -> K, newKey: nat -> K,
                      taken: seq<nat>, served: seq<nat>, newLeft: seq<nat>, first: nat, id: nat, k: K)
    requires oldKey(first) == newKey(id) != k
    requires ServingUnder(queue, olds, seen, oldKey, newKey, taken, served, newLeft, k)
    ensures ServingUnder(queue, olds, seen + [id], oldKey, newKey, taken + [first], served + [id], newLeft, k)
  {
    FilterOne(taken, first, oldKey, k);
    FilterOne(served, id, newKey, k);
    FilterOne(seen, id, newKey, k);
  }

  lemma ServeFirst<K(!new)>(slots: map<K, nat>, waiting: seq<seq<nat>>, olds: seq<nat>, seen: seq<nat>,
                            oldKey: nat -> K, newKey: nat -> K, pairs: seq<(nat, nat)>, newLeft: seq<nat>, id: nat)
    requires Serving(slots, waiting, olds, seen, oldKey, newKey, pairs, newLeft)
    requires newKey(id) in slots && waiting[slots[newKey(id)]] != []
    ensures var slot := slots[newKey(id)];
            Serving(slots, waiting[slot := waiting[slot][1..]], olds, seen + [id], oldKey, newKey,
                    pairs + [(waiting[slot][0], id)], newLeft)
  {
    var key, slot := newKey(id), slots[newKey(id)];
    var first, rest := waiting[slot][0], waiting[slot][1..];
    var taken, served, after := Olds(pairs), News(pairs), waiting[slot := rest];
    PairsPush(pairs, first, id);
    ServeFirstBags(waiting, slot, olds, seen, taken, served, newLeft, id);
    assert Queue(slots, waiting, key) == [first] + rest;
    assert ServingUnder(Queue(slots, waiting, key), olds, seen, oldKey, newKey, taken, served, newLeft, key);
    FirstHasKey(olds, oldKey, key, Filter(taken, oldKey, key), [first] + rest);
    QueueSet(slots, waiting, key, rest, key);
    forall k
      ensures ServingUnder(Queue(slots, after, k), olds, seen + [id], oldKey, newKey,
                           taken + [first], served + [id], newLeft, k)
    {
      QueueSet(slots, waiting, key, rest, k);
      if k == key {
        ServeFirstUnder(first, rest, olds, seen, oldKey, newKey, taken, served, newLeft, id);
      } else {
        assert ServingUnder(Queue(slots, waiting, k), olds, seen, oldKey, newKey, taken, served, newLeft, k);
        ServeOther(Queue(slots, waiting, k), olds, seen, oldKey, newKey, taken, served, newLeft, first, id, k);
      }
    }
  }

  lemma ServeNone<K(!new)>(slots: map<K, nat>, waiting: seq<seq<nat>>, olds: seq<nat>, seen: seq<nat>,
                           oldKey: nat -> K, newKey: nat -> K, pairs: seq<(nat, nat)>, newLeft: seq<nat>, id: nat)
    requires Serving(slots, waiting, olds, seen, oldKey, newKey, pairs, newLeft)
    requires Queue(slots, waiting, newKey(id)) == []
    ensures Serving(slots, waiting, olds, seen + [id], oldKey, newKey, pairs, newLeft + [id])
  {
    var taken, served := Olds(pairs), News(pairs);
    assert served + (newLeft + [id]) == (served + newLeft) + [id];
    forall k
      ensures ServingUnder(Queue(slots, waiting, k), olds, seen + [id], oldKey, newKey,
                           taken, served, newLeft + [id], k)
    {
      assert ServingUnder(Queue(slots, waiting, k), olds, seen, oldKey, newKey, taken, served, newLeft, k);
      FilterOne(newLeft, id, newKey, k);
      FilterOne(seen, id, newKey, k);
    }
  }

  lemma StartUnder<K>(queue: seq<nat>, olds: seq<nat>, oldKey: nat -> K, newKey: nat -> K, k: K)
    requires queue == Filter(olds, oldKey, k)
    ensures ServingUnder(queue, olds, [], oldKey, newKey, [], [], [], k)
  {
    assert [] + queue == queue;
  }

  lemma StartStocked<K(!new)>(slots: map<K, nat>, waiting: seq<seq<nat>>, olds: seq<nat>, oldKey: nat -> K)
    requires Queued(slots, waiting, olds, oldKey)
    ensures Stocked(Bag(olds, oldKey), slots, waiting)
  {
    forall k ensures Bag(olds, oldKey)[k] == |Queue(slots, waiting, k)| { BagCounts(olds, oldKey, k); }
  }

  lemma ServeStart<K(!new)>(slots: map<K, nat>, waiting: seq<seq<nat>>, olds: seq<nat>, oldKey: nat -> K,
                            newKey: nat -> K)
    requires Queued(slots, waiting, olds, oldKey)
    ensures Serving(slots, waiting, olds, [], oldKey, newKey, [], [])
  {
    assert Olds([]) == [] && News([]) == [];
    assert [] + Flatten(waiting) == Flatten(waiting);
    forall k ensures ServingUnder(Queue(slots, waiting, k), olds, [], oldKey, newKey, [], [], [], k) {
      StartUnder(Queue(slots, waiting, k), olds, oldKey, newKey, k);
    }
  }

  lemma FirstHasKey<K>(olds: seq<nat>, oldKey: nat -> K, key: K, taken: seq<nat>, queue: seq<nat>)
    requires taken + queue == Filter(olds, oldKey, key) && queue != []
    ensures oldKey(queue[0]) == key
  {
    assert queue[0] == (taken + queue)[|taken|];
    FilterMembers(olds, oldKey, key, queue[0]);
  }

  lemma ServedAll<K(!new)>(slots: map<K, nat>, waiting: seq<seq<nat>>, olds: seq<nat>, news: seq<nat>,
                           oldKey: nat -> K, newKey: nat -> K, pairs: seq<(nat, nat)>, newLeft: seq<nat>,
                               oldLeft: seq<nat>)
    requires Serving(slots, waiting, olds, news, oldKey, newKey, pairs, newLeft)
    requires multiset(oldLeft) == multiset(Flatten(waiting))
    ensures IsPairing(olds, news, oldKey, newKey, pairs, oldLeft, newLeft)
    ensures FirstCome(olds, news, oldKey, newKey, pairs)
  {
    forall k
      ensures Count(oldLeft, oldKey, k) == 0 || Count(newLeft, newKey, k) == 0
      ensures Filter(Olds(pairs), oldKey, k) <= Filter(olds, oldKey, k)
      ensures Filter(News(pairs), newKey, k) <= Filter(news, newKey, k)
    {
      CountSplit(olds, Olds(pairs), oldLeft, oldKey, k);
      assert ServingUnder(Queue(slots, waiting, k), olds, news, oldKey, newKey, Olds(pairs), News(pairs), newLeft, k);
    }
  }

  function PlaceOf(blocks: seq<Placed>): nat -> (string, nat, nat)
  {
    (id: nat) => (At(blocks, id).path, At(blocks, id).block.start, At(blocks, id).block.end)
  }

  /** Sorted by place, and blocks at one place keep their order. */
  method SortByPlace(blocks: seq<Placed>, ids: seq<nat>) returns (sorted: seq<nat>)
    ensures sorted == SortBy(ids, ByPlace(blocks)) && SortedBy(sorted, ByPlace(blocks))
    ensures forall place :: Filter(sorted, PlaceOf(blocks), place) == Filter(ids, PlaceOf(blocks), place)
  {
    ByPlaceIsPreorder(blocks);
    SortBySorted(ids, ByPlace(blocks));
    sorted := SortBy(ids, ByPlace(blocks));
    forall place ensures Filter(sorted, PlaceOf(blocks), place) == Filter(ids, PlaceOf(blocks), place) {
      SortStable(ids, ByPlace(blocks), PlaceOf(blocks), place);
    }
  }

  /** Pairs have one key, so as many old as new blocks are taken under each. */
  lemma {:induction false} PairsMatch<K>(pairs: seq<(nat, nat)>, oldKey: nat -> K, newKey: nat -> K, k: K)
    requires forall i :: 0 <= i < |pairs| ==> oldKey(pairs[i].0) == newKey(pairs[i].1)
    ensures Count(Olds(pairs), oldKey, k) == Count(News(pairs), newKey, k)
  {
    if pairs == [] {
    } else {
      PairsMatch(pairs[1..], oldKey, newKey, k);
      assert Olds(pairs)[1..] == Olds(pairs[1..]) && News(pairs)[1..] == News(pairs[1..]);
    }
  }

  lemma DropFront(front: seq<nat>, queue: seq<nat>)
    ensures DropFirst(front + queue, |front|) == queue
    ensures queue == [] ==> forall n: nat :: |front| <= n ==> DropFirst(front + queue, n) == []
  {
  }

  lemma LeftUnder<K>(queue: seq<nat>, olds: seq<nat>, news: seq<nat>, oldKey: nat -> K, newKey: nat -> K,
                     taken: seq<nat>, served: seq<nat>, newLeft: seq<nat>, k: K)
    requires ServingUnder(queue, olds, news, oldKey, newKey, taken, served, newLeft, k)
    requires Count(taken, oldKey, k) == Count(served, newKey, k)
    ensures queue == DropFirst(Filter(olds, oldKey, k), Count(news, newKey, k))
  {
    DropFront(Filter(taken, oldKey, k), queue);
  }

  lemma QueuesLeft<K(!new)>(slots: map<K, nat>, waiting: seq<seq<nat>>, olds: seq<nat>, news: seq<nat>,
                            oldKey: nat -> K, newKey: nat -> K, pairs: seq<(nat, nat)>, newLeft: seq<nat>)
    requires Serving(slots, waiting, olds, news, oldKey, newKey, pairs, newLeft)
    requires InOrder(slots, FirstKeys(olds, oldKey)) && |waiting| == |FirstKeys(olds, oldKey)|
    ensures waiting == LeftQueues(olds, news, oldKey, newKey)
  {
    var keys, queues := FirstKeys(olds, oldKey), LeftQueues(olds, news, oldKey, newKey);
    forall j | 0 <= j < |waiting| ensures waiting[j] == queues[j] {
      var k := keys[j];
      assert ServingUnder(Queue(slots, waiting, k), olds, news, oldKey, newKey, Olds(pairs), News(pairs), newLeft, k);
      PairsMatch(pairs, oldKey, newKey, k);
      LeftUnder(Queue(slots, waiting, k), olds, news, oldKey, newKey, Olds(pairs), News(pairs), newLeft, k);
    }
  }

  /** `stock` counts what waits under each key. */
  ghost predicate Stocked<K(!new)>(stock: multiset<K>, slots: map<K, nat>, waiting: seq<seq<nat>>)
  {
    forall k :: stock[k] == |Queue(slots, waiting, k)|
  }

  lemma StockPop<K(!new)>(stock: multiset<K>, slots: map<K, nat>, waiting: seq<seq<nat>>, key: K, rest: seq<nat>)
    requires OwnSlots(slots, waiting) && Stocked(stock, slots, waiting)
    requires key in slots && |waiting[slots[key]]| == |rest| + 1
    ensures key in stock
    ensures Stocked(stock - multiset{key}, slots, waiting[slots[key] := rest])
  {
  }

  /** A pass between the new blocks seen and those to come: what is done, and that what it will leave
      is `goal`. */
  ghost predicate Passing<K(!new)>(slots: map<K, nat>, waiting: seq<seq<nat>>, stock: multiset<K>, olds: seq<nat>,
                                   seen: seq<nat>, coming: seq<nat>, goal: seq<nat>, oldKey: nat -> K, newKey: nat -> K,
                                   pairs: seq<(nat, nat)>, newLeft: seq<nat>)
  {
    && Serving(slots, waiting, olds, seen, oldKey, newKey, pairs, newLeft)
    && Stocked(stock, slots, waiting)
    && newLeft + Unpaired(coming, newKey, stock) == goal
  }

  lemma UnpairedLeaves<K>(id: nat, coming: seq<nat>, newKey: nat -> K, stock: multiset<K>, newLeft: seq<nat>)
    requires newKey(id) !in stock
    ensures newLeft + Unpaired([id] + coming, newKey, stock) == (newLeft + [id]) + Unpaired(coming, newKey, stock)
  {
    assert ([id] + coming)[1..] == coming;
    var rest := Unpaired(coming, newKey, stock);
    assert (newLeft + [id]) + rest == newLeft + ([id] + rest);
  }

  lemma UnpairedTakes<K>(id: nat, coming: seq<nat>, newKey: nat -> K, stock: multiset<K>)
    requires newKey(id) in stock
    ensures Unpaired([id] + coming, newKey, stock) == Unpaired(coming, newKey, stock - multiset{newKey(id)})
  {
    assert ([id] + coming)[1..] == coming;
  }

  lemma PassFirst<K(!new)>(slots: map<K, nat>, waiting: seq<seq<nat>>, stock: multiset<K>, olds: seq<nat>,
                           seen: seq<nat>, id: nat, coming: seq<nat>, goal: seq<nat>,
                           oldKey: nat -> K, newKey: nat -> K, pairs: seq<(nat, nat)>, newLeft: seq<nat>)
    requires Passing(slots, waiting, stock, olds, seen, [id] + coming, goal, oldKey, newKey, pairs, newLeft)
    requires newKey(id) in slots && waiting[slots[newKey(id)]] != []
    ensures var slot := slots[newKey(id)];
            Passing(slots, waiting[slot := waiting[slot][1..]], stock - multiset{newKey(id)}, olds, seen + [id], coming,
                    goal, oldKey, newKey, pairs + [(waiting[slot][0], id)], newLeft)
  {
    StockPop(stock, slots, waiting, newKey(id), waiting[slots[newKey(id)]][1..]);
    UnpairedTakes(id, coming, newKey, stock);
    ServeFirst(slots, waiting, olds, seen, oldKey, newKey, pairs, newLeft, id);
  }

  lemma PassNone<K(!new)>(slots: map<K, nat>, waiting: seq<seq<nat>>, stock: multiset<K>, olds: seq<nat>,
                          seen: seq<nat>, id: nat, coming: seq<nat>, goal: seq<nat>,
                          oldKey: nat -> K, newKey: nat -> K, pairs: seq<(nat, nat)>, newLeft: seq<nat>)
    requires Passing(slots, waiting, stock, olds, seen, [id] + coming, goal, oldKey, newKey, pairs, newLeft)
    requires Queue(slots, waiting, newKey(id)) == []
    ensures Passing(slots, waiting, stock, olds, seen + [id], coming, goal, oldKey, newKey, pairs, newLeft + [id])
  {
    assert stock[newKey(id)] == |Queue(slots, waiting, newKey(id))|;
    UnpairedLeaves(id, coming, newKey, stock, newLeft);
    ServeNone(slots, waiting, olds, seen, oldKey, newKey, pairs, newLeft, id);
  }

  lemma PassStart<K(!new)>(slots: map<K, nat>, waiting: seq<seq<nat>>, olds: seq<nat>, news: seq<nat>,
                           oldKey: nat -> K, newKey: nat -> K)
    requires Queued(slots, waiting, olds, oldKey)
    ensures var stock := Bag(olds, oldKey);
            Passing(slots, waiting, stock, olds, [], news, Unpaired(news, newKey, stock), oldKey, newKey, [], [])
  {
    ServeStart(slots, waiting, olds, oldKey, newKey);
    StartStocked(slots, waiting, olds, oldKey);
  }

  /** One new block: takes the first old block waiting under its key, if there is one. */
  method ServeOne<K(==, !new)>(slots: map<K, nat>, queues: seq<seq<nat>>, ghost stock: multiset<K>,
                               ghost olds: seq<nat>,
                               ghost seen: seq<nat>, id: nat, ghost coming: seq<nat>, ghost goal: seq<nat>,
                               ghost oldKey: nat -> K, newKey: nat -> K, ghost pairs: seq<(nat, nat)>, left: seq<nat>)
    returns (waiting: seq<seq<nat>>, newLeft: seq<nat>, ghost stockLeft: multiset<K>, ghost pairsSoFar: seq<(nat, nat)>)
    requires Passing(slots, queues, stock, olds, seen, [id] + coming, goal, oldKey, newKey, pairs, left)
    ensures Passing(slots, waiting, stockLeft, olds, seen + [id], coming, goal, oldKey, newKey, pairsSoFar, newLeft)
    ensures |waiting| == |queues|
  {
    var key := newKey(id);
    if key in slots && queues[slots[key]] != [] {
      var slot := slots[key];
      PassFirst(slots, queues, stock, olds, seen, id, coming, goal, oldKey, newKey, pairs, left);
      waiting, newLeft := queues[slot := queues[slot][1..]], left;
      stockLeft, pairsSoFar := stock - multiset{key}, pairs + [(queues[slot][0], id)];
    } else {
      PassNone(slots, queues, stock, olds, seen, id, coming, goal, oldKey, newKey, pairs, left);
      waiting, newLeft, stockLeft, pairsSoFar := queues, left + [id], stock, pairs;
    }
  }

  lemma SplitAt(news: seq<nat>, j: nat)
    requires j < |news|
    ensures news[j..] == [news[j]] + news[j + 1..] && news[..j + 1] == news[..j] + [news[j]]
  {
  }

  /** Every new block in turn. */
  method Serve<K(==, !new)>(slots: map<K, nat>, queues: seq<seq<nat>>, ghost olds: seq<nat>, news: seq<nat>,
                            ghost oldKey: nat -> K, newKey: nat -> K)
    returns (waiting: seq<seq<nat>>, newLeft: seq<nat>, ghost pairs: seq<(nat, nat)>)
    requires Queued(slots, queues, olds, oldKey)
    ensures Serving(slots, waiting, olds, news, oldKey, newKey, pairs, newLeft)
    ensures newLeft == Unpaired(news, newKey, Bag(olds, oldKey))
    ensures |waiting| == |queues|
  {
    waiting, newLeft, pairs := queues, [], [];
    ghost var stock := Bag(olds, oldKey);
    ghost var goal := Unpaired(news, newKey, stock);
    PassStart(slots, waiting, olds, news, oldKey, newKey);
    for j := 0 to |news|
      invariant Passing(slots, waiting, stock, olds, news[..j], news[j..], goal, oldKey, newKey, pairs, newLeft)
      invariant |waiting| == |queues|
    {
      SplitAt(news, j);
      waiting, newLeft, stock, pairs :=
        ServeOne(slots, waiting, stock, olds, news[..j], news[j], news[j + 1..], goal, oldKey, newKey, pairs, newLeft);
    }
    assert news[..|news|] == news && newLeft + [] == newLeft;
  }

  /** The new blocks that a pass leaves: those that find no old block waiting under their key. */
  function PassNews<K(==)>(olds: seq<nat>, news: seq<nat>, oldKey: nat -> K, newKey: nat -> K): seq<nat>
  {
    Unpaired(news, newKey, Bag(olds, oldKey))
  }

  /** The old blocks that a pass leaves, by place. */
  function PassOlds<K(==)>(blocks: seq<Placed>, olds: seq<nat>, news: seq<nat>, oldKey: nat -> K, newKey: nat -> K)
    : seq<nat>
  {
    SortBy(Flatten(LeftQueues(olds, news, oldKey, newKey)), ByPlace(blocks))
  }

  /** One pass: each new block takes the first old block waiting under its key; the new blocks left
      keep their order and the old blocks left, queue by queue, come back in a stable sort by place. */
  method PairBy<K(==, !new)>(blocks: seq<Placed>, olds: seq<nat>, news: seq<nat>, oldKey: nat -> K, newKey: nat -> K)
    returns (oldLeft: seq<nat>, newLeft: seq<nat>, ghost pairs: seq<(nat, nat)>)
    ensures IsPairing(olds, news, oldKey, newKey, pairs, oldLeft, newLeft)
    ensures FirstCome(olds, news, oldKey, newKey, pairs)
    ensures newLeft == PassNews(olds, news, oldKey, newKey)
    ensures oldLeft == PassOlds(blocks, olds, news, oldKey, newKey)
    ensures SortedBy(oldLeft, ByPlace(blocks))
  {
    var slots, queues := Enqueue(olds, oldKey);
    var waiting;
    waiting, newLeft, pairs := Serve(slots, queues, olds, news, oldKey, newKey);
    QueuesLeft(slots, waiting, olds, news, oldKey, newKey, pairs, newLeft);
    oldLeft := SortByPlace(blocks, Flatten(waiting));
    ServedAll(slots, waiting, olds, news, oldKey, newKey, pairs, newLeft, oldLeft);
  }
}
