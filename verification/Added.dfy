/** The blocks a change added: five pairing passes, three inside each file and two across files
    (crates/checks/src/copies.rs). */
module Added {
  import opened Options
  import opened Orders
  import opened Pairing
  import opened Copies

  // ----- what one pass conserves

  /** A pass whose key decides a coarser key keeps new minus old under every coarser key. */
  lemma Conserves<K(!new), C>(olds: seq<nat>, news: seq<nat>, oldKey: nat -> K, newKey: nat -> K,
                              pairs: seq<(nat, nat)>, oldLeft: seq<nat>, newLeft: seq<nat>, coarse: nat -> C, c: C)
    requires IsPairing(olds, news, oldKey, newKey, pairs, oldLeft, newLeft)
    requires forall a: nat, b: nat :: oldKey(a) == newKey(b) ==> coarse(a) == coarse(b)
    ensures Count(newLeft, coarse, c) + Count(olds, coarse, c) == Count(oldLeft, coarse, c) + Count(news, coarse, c)
  {
    PairsMatch(pairs, coarse, coarse, c);
    CountSplit(olds, Olds(pairs), oldLeft, coarse, c);
    CountSplit(news, News(pairs), newLeft, coarse, c);
  }

  lemma LeftIsPart<K(!new)>(olds: seq<nat>, news: seq<nat>, oldKey: nat -> K, newKey: nat -> K,
                            pairs: seq<(nat, nat)>, oldLeft: seq<nat>, newLeft: seq<nat>)
    requires IsPairing(olds, news, oldKey, newKey, pairs, oldLeft, newLeft)
    ensures multiset(oldLeft) <= multiset(olds) && multiset(newLeft) <= multiset(news)
  {
  }

  // ----- the three passes inside one file

  /** Under its own line and tokens, every new copy of the block has an old one that stayed there. */
  ghost predicate StaysInPlace(blocks: seq<Placed>, item: Indexed, id: nat)
  {
    var key := LineKey(blocks)(id);
    Count(item.news, LineKey(blocks), key) <= Count(item.olds, StayedKey(blocks, item.stayed), key)
  }

  /** The places in `ids` of the blocks with the Type-2 key. */
  ghost function PlacesWithKey(blocks: seq<Placed>, ids: seq<nat>, key: nat): set<nat>
  {
    set i: nat | i < |ids| && ids[i] < |blocks| && blocks[ids[i]].block.key == key
  }

  ghost function PlacesWithExact(blocks: seq<Placed>, ids: seq<nat>, exact: nat): set<nat>
  {
    set i: nat | i < |ids| && ids[i] < |blocks| && blocks[ids[i]].block.exact == exact
  }

  /** What the counts under the two keys count: blocks by their fields. */
  lemma CountsByField(blocks: seq<Placed>, ids: seq<nat>, k: nat)
    ensures Count(ids, Type2(blocks), Some(k)) == |PlacesWithKey(blocks, ids, k)|
    ensures Count(ids, Exact(blocks), Some(k)) == |PlacesWithExact(blocks, ids, k)|
  {
    CountIsPlaces(ids, Type2(blocks), Some(k));
    CountIsPlaces(ids, Exact(blocks), Some(k));
    assert PlacesOf(ids, Type2(blocks), Some(k)) == PlacesWithKey(blocks, ids, k);
    assert PlacesOf(ids, Exact(blocks), Some(k)) == PlacesWithExact(blocks, ids, k);
  }

  /** The new blocks on the line of `id` with its tokens. */
  ghost function NewAlike(blocks: seq<Placed>, item: Indexed, id: nat): set<nat>
    requires id < |blocks|
  {
    set i: nat | i < |item.news| && item.news[i] < |blocks| &&
                 blocks[item.news[i]].block.start == blocks[id].block.start &&
                 blocks[item.news[i]].block.exact == blocks[id].block.exact
  }

  /** The old blocks with its tokens that the diff kept in place on that line. */
  ghost function KeptAlike(blocks: seq<Placed>, item: Indexed, id: nat): set<nat>
    requires id < |blocks|
  {
    set i: nat | i < |item.olds| && item.olds[i] < |blocks| &&
                 blocks[item.olds[i]].block.start in item.stayed &&
                 item.stayed[blocks[item.olds[i]].block.start] == blocks[id].block.start &&
                 blocks[item.olds[i]].block.exact == blocks[id].block.exact
  }

  /** A block stays in place exactly when its new copies on its line are no more than its old copies that
      the diff kept there. */
  lemma StaysByLine(blocks: seq<Placed>, item: Indexed, id: nat)
    requires id < |blocks|
    ensures StaysInPlace(blocks, item, id) <==> |NewAlike(blocks, item, id)| <= |KeptAlike(blocks, item, id)|
  {
    var key := LineKey(blocks)(id);
    CountIsPlaces(item.news, LineKey(blocks), key);
    CountIsPlaces(item.olds, StayedKey(blocks, item.stayed), key);
    assert Exact(blocks)(id) == if id < |blocks| then Some(blocks[id].block.exact) else None;
    assert LineKey(blocks)(id) == (Some(At(blocks, id).block.start), Exact(blocks)(id));
    forall i: nat | i < |item.news| ensures LineKey(blocks)(item.news[i]) == key <==> i in NewAlike(blocks, item, id) {
      var x := item.news[i];
      assert LineKey(blocks)(x) == (Some(At(blocks, x).block.start), Exact(blocks)(x));
      assert Exact(blocks)(x) == if x < |blocks| then Some(blocks[x].block.exact) else None;
    }
    assert PlacesOf(item.news, LineKey(blocks), key) == NewAlike(blocks, item, id);
    forall i: nat | i < |item.olds|
      ensures StayedKey(blocks, item.stayed)(item.olds[i]) == key <==> i in KeptAlike(blocks, item, id)
    {
      var x := item.olds[i];
      assert Exact(blocks)(x) == if x < |blocks| then Some(blocks[x].block.exact) else None;
    }
    assert PlacesOf(item.olds, StayedKey(blocks, item.stayed), key) == KeptAlike(blocks, item, id);
  }

  /** What the new side of one file may keep: a part of its blocks, under each Type-2 key just the
      ones its old side cannot match, under each exact key no more than outgrew the old side there, and
      no block that stayed in place. */
  ghost predicate FileLeft(blocks: seq<Placed>, item: Indexed, newLeft: seq<nat>)
  {
    && multiset(newLeft) <= multiset(item.news)
    && (forall c :: Count(newLeft, Type2(blocks), c) ==
                    Monus(Count(item.news, Type2(blocks), c), Count(item.olds, Type2(blocks), c)))
    && (forall e :: Count(newLeft, Exact(blocks), e) <=
                    Monus(Count(item.news, Exact(blocks), e), Count(item.olds, Exact(blocks), e)))
    && (forall id :: id in newLeft ==> !StaysInPlace(blocks, item, id))
  }

  /** The three passes in turn leave the last blocks of each line and tokens, of these the last of each
      exact key, and of these the last of each Type-2 key, always in the order of the file. */
  ghost predicate InTurn(blocks: seq<Placed>, item: Indexed, left1: seq<nat>, left2: seq<nat>, newLeft: seq<nat>)
  {
    && LeavesEnds(item.news, LineKey(blocks), left1)
    && (forall k :: Count(left1, LineKey(blocks), k) ==
                    Monus(Count(item.news, LineKey(blocks), k), Count(item.olds, StayedKey(blocks, item.stayed), k)))
    && LeavesEnds(left1, Exact(blocks), left2)
    && (forall e :: Count(left2, Exact(blocks), e) ==
                    Monus(Count(item.news, Exact(blocks), e), Count(item.olds, Exact(blocks), e)))
    && LeavesEnds(left2, Type2(blocks), newLeft)
  }

  lemma PassesInTurn(blocks: seq<Placed>, item: Indexed,
                     olds1: seq<nat>, news1: seq<nat>, pairs1: seq<(nat, nat)>,
                     olds2: seq<nat>, news2: seq<nat>, pairs2: seq<(nat, nat)>, news: seq<nat>)
    requires IsPairing(item.olds, item.news, StayedKey(blocks, item.stayed), LineKey(blocks), pairs1, olds1, news1)
    requires IsPairing(olds1, news1, Exact(blocks), Exact(blocks), pairs2, olds2, news2)
    requires news1 == Unpaired(item.news, LineKey(blocks), Bag(item.olds, StayedKey(blocks, item.stayed)))
    requires news2 == PassNews(olds1, news1, Exact(blocks), Exact(blocks))
    requires news == PassNews(olds2, news2, Type2(blocks), Type2(blocks))
    ensures InTurn(blocks, item, news1, news2, news)
  {
    var stayedKey, lineKey := StayedKey(blocks, item.stayed), LineKey(blocks);
    UnpairedLeavesEnds(item.news, lineKey, Bag(item.olds, stayedKey));
    UnpairedLeavesEnds(news1, Exact(blocks), Bag(olds1, Exact(blocks)));
    UnpairedLeavesEnds(news2, Type2(blocks), Bag(olds2, Type2(blocks)));
    forall k ensures Count(news1, lineKey, k) == Monus(Count(item.news, lineKey, k), Count(item.olds, stayedKey, k)) {
      UnpairedCount(item.news, lineKey, Bag(item.olds, stayedKey), k);
      BagCounts(item.olds, stayedKey, k);
    }
    forall e
      ensures Count(news2, Exact(blocks), e) ==
              Monus(Count(item.news, Exact(blocks), e), Count(item.olds, Exact(blocks), e))
    {
      ExactPasses(blocks, item, olds1, news1, pairs1, olds2, news2, pairs2, e);
    }
  }

  lemma StayedPair(blocks: seq<Placed>, item: Indexed, id: nat)
    requires StaysInPlace(blocks, item, id)
    ensures id !in Unpaired(item.news, LineKey(blocks), Bag(item.olds, StayedKey(blocks, item.stayed)))
  {
    var key, bag := LineKey(blocks)(id), Bag(item.olds, StayedKey(blocks, item.stayed));
    UnpairedCount(item.news, LineKey(blocks), bag, key);
    BagCounts(item.olds, StayedKey(blocks, item.stayed), key);
    CountZero(Unpaired(item.news, LineKey(blocks), bag), LineKey(blocks), key);
  }

  lemma PartMembers<T>(part: seq<T>, whole: seq<T>, x: T)
    requires multiset(part) <= multiset(whole) && x in part
    ensures x in whole
  {
    assert x in multiset(part);
  }

  /** What the old side of one file may keep, the mirror of the new side. */
  ghost predicate FileOldLeft(blocks: seq<Placed>, item: Indexed, oldLeft: seq<nat>)
  {
    && multiset(oldLeft) <= multiset(item.olds)
    && (forall c :: Count(oldLeft, Type2(blocks), c) ==
                    Monus(Count(item.olds, Type2(blocks), c), Count(item.news, Type2(blocks), c)))
    && (forall e :: Count(oldLeft, Exact(blocks), e) <=
                    Monus(Count(item.olds, Exact(blocks), e), Count(item.news, Exact(blocks), e)))
  }

  lemma ThreePasses(blocks: seq<Placed>, item: Indexed,
                    olds1: seq<nat>, news1: seq<nat>, pairs1: seq<(nat, nat)>,
                    olds2: seq<nat>, news2: seq<nat>, pairs2: seq<(nat, nat)>,
                    olds: seq<nat>, news: seq<nat>, pairs3: seq<(nat, nat)>)
    requires ExactRefinesType2(blocks)
    requires IsPairing(item.olds, item.news, StayedKey(blocks, item.stayed), LineKey(blocks), pairs1, olds1, news1)
    requires IsPairing(olds1, news1, Exact(blocks), Exact(blocks), pairs2, olds2, news2)
    requires IsPairing(olds2, news2, Type2(blocks), Type2(blocks), pairs3, olds, news)
    requires news1 == Unpaired(item.news, LineKey(blocks), Bag(item.olds, StayedKey(blocks, item.stayed)))
    ensures FileLeft(blocks, item, news) && FileOldLeft(blocks, item, olds)
  {
    var stayedKey, lineKey := StayedKey(blocks, item.stayed), LineKey(blocks);
    var exact, type2 := Exact(blocks), Type2(blocks);
    LeftIsPart(item.olds, item.news, stayedKey, lineKey, pairs1, olds1, news1);
    LeftIsPart(olds1, news1, exact, exact, pairs2, olds2, news2);
    LeftIsPart(olds2, news2, type2, type2, pairs3, olds, news);
    forall c
      ensures Count(news, type2, c) == Monus(Count(item.news, type2, c), Count(item.olds, type2, c))
      ensures Count(olds, type2, c) == Monus(Count(item.olds, type2, c), Count(item.news, type2, c))
    {
      ThreePassesUnder(blocks, item, olds1, news1, pairs1, olds2, news2, pairs2, olds, news, pairs3, c);
    }
    forall e
      ensures Count(news, exact, e) <= Monus(Count(item.news, exact, e), Count(item.olds, exact, e))
      ensures Count(olds, exact, e) <= Monus(Count(item.olds, exact, e), Count(item.news, exact, e))
    {
      ExactPasses(blocks, item, olds1, news1, pairs1, olds2, news2, pairs2, e);
      CountOfPart(news, news2, exact, e);
      CountOfPart(olds, olds2, exact, e);
    }
    forall id | id in news ensures !StaysInPlace(blocks, item, id) {
      PartMembers(news, news1, id);
      if StaysInPlace(blocks, item, id) { StayedPair(blocks, item, id); }
    }
  }

  /** After the first two passes a file has no more new blocks under an exact key than grew there. */
  lemma ExactPasses(blocks: seq<Placed>, item: Indexed, olds1: seq<nat>, news1: seq<nat>, pairs1: seq<(nat, nat)>,
                    olds2: seq<nat>, news2: seq<nat>, pairs2: seq<(nat, nat)>, e: Option<Key>)
    requires IsPairing(item.olds, item.news, StayedKey(blocks, item.stayed), LineKey(blocks), pairs1, olds1, news1)
    requires IsPairing(olds1, news1, Exact(blocks), Exact(blocks), pairs2, olds2, news2)
    ensures Count(news2, Exact(blocks), e) ==
            Monus(Count(item.news, Exact(blocks), e), Count(item.olds, Exact(blocks), e))
    ensures Count(olds2, Exact(blocks), e) ==
            Monus(Count(item.olds, Exact(blocks), e), Count(item.news, Exact(blocks), e))
  {
    var exact := Exact(blocks);
    Conserves(item.olds, item.news, StayedKey(blocks, item.stayed), LineKey(blocks), pairs1, olds1, news1, exact, e);
    Conserves(olds1, news1, exact, exact, pairs2, olds2, news2, exact, e);
  }

  lemma ThreePassesUnder(blocks: seq<Placed>, item: Indexed,
                         olds1: seq<nat>, news1: seq<nat>, pairs1: seq<(nat, nat)>,
                         olds2: seq<nat>, news2: seq<nat>, pairs2: seq<(nat, nat)>,
                         olds: seq<nat>, news: seq<nat>, pairs3: seq<(nat, nat)>, c: Option<Key>)
    requires ExactRefinesType2(blocks)
    requires IsPairing(item.olds, item.news, StayedKey(blocks, item.stayed), LineKey(blocks), pairs1, olds1, news1)
    requires IsPairing(olds1, news1, Exact(blocks), Exact(blocks), pairs2, olds2, news2)
    requires IsPairing(olds2, news2, Type2(blocks), Type2(blocks), pairs3, olds, news)
    ensures Count(news, Type2(blocks), c) ==
            Monus(Count(item.news, Type2(blocks), c), Count(item.olds, Type2(blocks), c))
    ensures Count(olds, Type2(blocks), c) ==
            Monus(Count(item.olds, Type2(blocks), c), Count(item.news, Type2(blocks), c))
  {
    var exact, type2 := Exact(blocks), Type2(blocks);
    StayedRefines(blocks, item.stayed);
    Conserves(item.olds, item.news, StayedKey(blocks, item.stayed), LineKey(blocks), pairs1, olds1, news1, type2, c);
    Conserves(olds1, news1, exact, exact, pairs2, olds2, news2, type2, c);
    Conserves(olds2, news2, type2, type2, pairs3, olds, news, type2, c);
  }

  // ----- what the passes of a run leave, to the block

  ghost predicate PassLeaves<K>(blocks: seq<Placed>, olds: seq<nat>, news: seq<nat>, oldKey: nat -> K,
                                newKey: nat -> K, oldLeft: seq<nat>, newLeft: seq<nat>)
  {
    oldLeft == PassOlds(blocks, olds, news, oldKey, newKey) && newLeft == PassNews(olds, news, oldKey, newKey)
  }

  /** By kept line and tokens, by tokens, by abstracted tokens. */
  ghost predicate FileRun(blocks: seq<Placed>, item: Indexed, olds1: seq<nat>, news1: seq<nat>, olds2: seq<nat>,
                          news2: seq<nat>, olds: seq<nat>, news: seq<nat>)
  {
    && PassLeaves(blocks, item.olds, item.news, StayedKey(blocks, item.stayed), LineKey(blocks), olds1, news1)
    && PassLeaves(blocks, olds1, news1, Exact(blocks), Exact(blocks), olds2, news2)
    && PassLeaves(blocks, olds2, news2, Type2(blocks), Type2(blocks), olds, news)
  }

  ghost predicate FileLeaves(blocks: seq<Placed>, item: Indexed, olds: seq<nat>, news: seq<nat>)
  {
    exists olds1, news1, olds2, news2 :: FileRun(blocks, item, olds1, news1, olds2, news2, olds, news)
  }

  ghost predicate FilesLeave(blocks: seq<Placed>, indexed: seq<Indexed>, oldLefts: seq<seq<nat>>,
                             newLefts: seq<seq<nat>>)
  {
    && |oldLefts| == |newLefts| == |indexed|
    && forall g {:trigger FileLeaves(blocks, indexed[g], oldLefts[g], newLefts[g])} ::
         0 <= g < |indexed| ==> FileLeaves(blocks, indexed[g], oldLefts[g], newLefts[g])
  }

  /** All five passes, the two across files on the leftovers of all files by place. */
  ghost predicate RunLeaves(blocks: seq<Placed>, indexed: seq<Indexed>, oldLefts: seq<seq<nat>>,
                            newLefts: seq<seq<nat>>, olds1: seq<nat>, news1: seq<nat>, added: seq<nat>)
  {
    && FilesLeave(blocks, indexed, oldLefts, newLefts)
    && PassLeaves(blocks, SortBy(Flatten(oldLefts), ByPlace(blocks)), SortBy(Flatten(newLefts), ByPlace(blocks)),
                  Exact(blocks), Exact(blocks), olds1, news1)
    && added == PassNews(olds1, news1, Type2(blocks), Type2(blocks))
  }

  ghost predicate Results(blocks: seq<Placed>, indexed: seq<Indexed>, added: seq<nat>)
  {
    exists oldLefts, newLefts, olds1, news1 :: RunLeaves(blocks, indexed, oldLefts, newLefts, olds1, news1, added)
  }

  lemma OneFileResult(blocks: seq<Placed>, item: Indexed, olds: seq<nat>, news: seq<nat>, olds0: seq<nat>,
                      news0: seq<nat>)
    requires FileLeaves(blocks, item, olds, news) && FileLeaves(blocks, item, olds0, news0)
    ensures olds == olds0 && news == news0
  {
  }

  /** A run has one result. */
  lemma OneResult(blocks: seq<Placed>, indexed: seq<Indexed>, added: seq<nat>, other: seq<nat>)
    requires Results(blocks, indexed, added) && Results(blocks, indexed, other)
    ensures added == other
  {
    var oldLefts, newLefts, olds1, news1 :| RunLeaves(blocks, indexed, oldLefts, newLefts, olds1, news1, added);
    var oldLefts0, newLefts0, olds2, news2 :| RunLeaves(blocks, indexed, oldLefts0, newLefts0, olds2, news2, other);
    forall g | 0 <= g < |indexed| ensures oldLefts[g] == oldLefts0[g] && newLefts[g] == newLefts0[g] {
      assert FileLeaves(blocks, indexed[g], oldLefts[g], newLefts[g]);
      assert FileLeaves(blocks, indexed[g], oldLefts0[g], newLefts0[g]);
      OneFileResult(blocks, indexed[g], oldLefts[g], newLefts[g], oldLefts0[g], newLefts0[g]);
    }
    assert oldLefts == oldLefts0 && newLefts == newLefts0;
  }

  /** `added` is the one result of the run. */
  ghost predicate TheResult(blocks: seq<Placed>, indexed: seq<Indexed>, added: seq<nat>)
  {
    forall other {:trigger Results(blocks, indexed, other)} :: Results(blocks, indexed, other) <==> other == added
  }

  lemma ResultIsOne(blocks: seq<Placed>, indexed: seq<Indexed>, added: seq<nat>)
    requires Results(blocks, indexed, added)
    ensures TheResult(blocks, indexed, added)
  {
    forall other ensures Results(blocks, indexed, other) <==> other == added {
      if Results(blocks, indexed, other) { OneResult(blocks, indexed, added, other); }
    }
  }

  /** The blocks of one file that its own passes leave over. */
  method WithinFile(blocks: seq<Placed>, item: Indexed) returns (olds: seq<nat>, news: seq<nat>)
    requires ExactRefinesType2(blocks)
    ensures FileLeft(blocks, item, news) && FileOldLeft(blocks, item, olds)
    ensures FileLeaves(blocks, item, olds, news)
    ensures exists left1, left2 :: InTurn(blocks, item, left1, left2, news)
  {
    var olds1, news1, pairs1 := PairBy(blocks, item.olds, item.news, StayedKey(blocks, item.stayed), LineKey(blocks));
    var olds2, news2, pairs2 := PairBy(blocks, olds1, news1, Exact(blocks), Exact(blocks));
    ghost var pairs3;
    olds, news, pairs3 := PairBy(blocks, olds2, news2, Type2(blocks), Type2(blocks));
    ThreePasses(blocks, item, olds1, news1, pairs1, olds2, news2, pairs2, olds, news, pairs3);
    assert FileRun(blocks, item, olds1, news1, olds2, news2, olds, news);
    PassesInTurn(blocks, item, olds1, news1, pairs1, olds2, news2, pairs2, news);
  }

  lemma StayedRefines(blocks: seq<Placed>, stayed: map<nat, nat>)
    requires ExactRefinesType2(blocks)
    ensures forall a: nat, b: nat :: StayedKey(blocks, stayed)(a) == LineKey(blocks)(b) ==>
            Type2(blocks)(a) == Type2(blocks)(b)
  {
    forall a: nat, b: nat | StayedKey(blocks, stayed)(a) == LineKey(blocks)(b)
      ensures Type2(blocks)(a) == Type2(blocks)(b)
    {
      ExactRefinesAt(blocks, a, b);
    }
  }

  lemma ExactRefinesAt(blocks: seq<Placed>, a: nat, b: nat)
    requires ExactRefinesType2(blocks)
    ensures Exact(blocks)(a) == Exact(blocks)(b) ==> Type2(blocks)(a) == Type2(blocks)(b)
  {
  }

  // ----- all files of the run

  function NewSides(indexed: seq<Indexed>): seq<seq<nat>>
  {
    seq(|indexed|, i requires 0 <= i < |indexed| => indexed[i].news)
  }

  function OldSides(indexed: seq<Indexed>): seq<seq<nat>>
  {
    seq(|indexed|, i requires 0 <= i < |indexed| => indexed[i].olds)
  }

  function AllNew(indexed: seq<Indexed>): seq<nat> { Flatten(NewSides(indexed)) }

  function AllOld(indexed: seq<Indexed>): seq<nat> { Flatten(OldSides(indexed)) }

  lemma {:induction false} FlattenAppend(queues: seq<seq<nat>>, queue: seq<nat>)
    ensures Flatten(queues + [queue]) == Flatten(queues) + queue
  {
    if queues == [] {
      assert queues + [queue] == [queue];
      assert Flatten([queue]) == queue + Flatten([]);
    } else {
      FlattenAppend(queues[1..], queue);
      assert (queues + [queue])[1..] == queues[1..] + [queue];
    }
  }

  lemma {:induction false} FlattenMember(queues: seq<seq<nat>>, x: nat) returns (at: nat)
    requires x in Flatten(queues)
    ensures at < |queues| && x in queues[at]
  {
    if x in queues[0] {
      at := 0;
    } else {
      var rest := FlattenMember(queues[1..], x);
      at := rest + 1;
    }
  }

  lemma {:induction false} FlattenHolds(queues: seq<seq<nat>>, at: nat, x: nat)
    requires at < |queues| && x in queues[at]
    ensures x in Flatten(queues)
  {
    if at == 0 {
    } else {
      FlattenHolds(queues[1..], at - 1, x);
    }
  }

  lemma {:induction false} FlattenApart(queues: seq<seq<nat>>, f: nat, g: nat, x: nat)
    requires Distinct(Flatten(queues)) && f < g < |queues| && x in queues[f]
    ensures x !in queues[g]
  {
    var first, rest := queues[0], Flatten(queues[1..]);
    assert Flatten(queues) == first + rest;
    if f > 0 {
      forall i, j | 0 <= i < j < |rest| ensures rest[i] != rest[j] {
        assert Flatten(queues)[|first| + i] != Flatten(queues)[|first| + j];
      }
      FlattenApart(queues[1..], f - 1, g - 1, x);
    } else if x in queues[g] {
      FlattenHolds(queues[1..], g - 1, x);
      TwiceAcross(first, rest, x);
    }
  }

  lemma TwiceAcross(first: seq<nat>, rest: seq<nat>, x: nat)
    requires x in first && x in rest
    ensures !Distinct(first + rest)
  {
    var i :| 0 <= i < |first| && first[i] == x;
    var j :| 0 <= j < |rest| && rest[j] == x;
    assert (first + rest)[i] == (first + rest)[|first| + j];
  }

  /** Only the file that holds a block's id can leave that block over. */
  lemma LeftFromOwnFile(indexed: seq<Indexed>, lefts: seq<seq<nat>>, f: nat, id: nat)
    requires Distinct(AllNew(indexed)) && f < |indexed| == |lefts|
    requires forall g :: 0 <= g < |lefts| ==> multiset(lefts[g]) <= multiset(indexed[g].news)
    requires id in indexed[f].news && id in Flatten(lefts)
    ensures id in lefts[f]
  {
    var g := FlattenMember(lefts, id);
    PartMembers(lefts[g], indexed[g].news, id);
    assert NewSides(indexed)[g] == indexed[g].news && NewSides(indexed)[f] == indexed[f].news;
    if f < g {
      FlattenApart(NewSides(indexed), f, g, id);
    } else if g < f {
      FlattenApart(NewSides(indexed), g, f, id);
    }
  }

  // ----- counts by file

  /** Membership in a file's ids with the key. */
  function InFile(ids: seq<nat>, key: nat -> Option<Key>): nat -> (bool, Option<Key>)
  {
    (id: nat) => (id in ids, key(id))
  }

  lemma {:induction false} CountOfPart<C>(part: seq<nat>, whole: seq<nat>, key: nat -> C, c: C)
    requires multiset(part) <= multiset(whole)
    ensures Count(part, key, c) <= Count(whole, key, c)
    decreases |part|
  {
    if part == [] {
    } else {
      assert part[0] in multiset(part);
      var i :| 0 <= i < |whole| && whole[i] == part[0];
      PartTail(part, whole, i);
      CountOfPart(part[1..], RemoveAt(whole, i), key, c);
      CountRemoved(whole, i, key, c);
    }
  }

  lemma PartTail(part: seq<nat>, whole: seq<nat>, i: nat)
    requires part != [] && multiset(part) <= multiset(whole) && i < |whole| && whole[i] == part[0]
    ensures multiset(part[1..]) <= multiset(RemoveAt(whole, i))
  {
    TailMultiset(part);
    RemovedBetween(whole, i);
    assert multiset(whole) == multiset(RemoveAt(whole, i)) + multiset{whole[i]};
  }

  lemma CountRemoved<C>(whole: seq<nat>, i: nat, key: nat -> C, c: C)
    requires i < |whole|
    ensures Count(whole, key, c) == Count(RemoveAt(whole, i), key, c) + (if key(whole[i]) == c then 1 else 0)
  {
    RemovedBetween(whole, i);
    FilterConcat(whole[..i], [whole[i]] + whole[i + 1..], key, c);
    FilterCons(whole[i], whole[i + 1..], key, c);
    FilterConcat(whole[..i], whole[i + 1..], key, c);
  }

  lemma {:induction false} CountInside(s: seq<nat>, ids: seq<nat>, key: nat -> Option<Key>, c: Option<Key>)
    requires forall x :: x in s ==> x in ids
    ensures Count(s, InFile(ids, key), (true, c)) == Count(s, key, c)
  {
    if s == [] {
    } else {
      assert s[0] in ids;
      CountInside(s[1..], ids, key, c);
    }
  }

  lemma {:induction false} CountOneQueue<C>(queues: seq<seq<nat>>, f: nat, key: nat -> C, c: C)
    requires f < |queues|
    requires forall g :: 0 <= g < |queues| && g != f ==> Count(queues[g], key, c) == 0
    ensures Count(Flatten(queues), key, c) == Count(queues[f], key, c)
  {
    FilterConcat(queues[0], Flatten(queues[1..]), key, c);
    if f == 0 {
      CountNoQueue(queues[1..], key, c);
    } else {
      CountOneQueue(queues[1..], f - 1, key, c);
    }
  }

  lemma {:induction false} CountNoQueue<C>(queues: seq<seq<nat>>, key: nat -> C, c: C)
    requires forall g :: 0 <= g < |queues| ==> Count(queues[g], key, c) == 0
    ensures Count(Flatten(queues), key, c) == 0
  {
    if queues == [] {
    } else {
      FilterConcat(queues[0], Flatten(queues[1..]), key, c);
      CountNoQueue(queues[1..], key, c);
    }
  }

  /** Of the added blocks, those of one file are no more under a key than the file itself left there. */
  lemma LeftShare(indexed: seq<Indexed>, lefts: seq<seq<nat>>, added: seq<nat>, f: nat,
                  key: nat -> Option<Key>, c: Option<Key>)
    requires Distinct(AllNew(indexed)) && f < |indexed| == |lefts|
    requires forall g :: 0 <= g < |lefts| ==> multiset(lefts[g]) <= multiset(indexed[g].news)
    requires multiset(added) <= multiset(Flatten(lefts))
    ensures Count(added, InFile(indexed[f].news, key), (true, c)) <= Count(lefts[f], key, c)
  {
    var mine := InFile(indexed[f].news, key);
    forall g | 0 <= g < |lefts| && g != f ensures Count(lefts[g], mine, (true, c)) == 0 {
      forall x | x in lefts[g] ensures mine(x) != (true, c) {
        PartMembers(lefts[g], indexed[g].news, x);
        assert NewSides(indexed)[g] == indexed[g].news && NewSides(indexed)[f] == indexed[f].news;
        if g < f { FlattenApart(NewSides(indexed), g, f, x); }
        if f < g && x in indexed[f].news { FlattenApart(NewSides(indexed), f, g, x); }
      }
      CountZero(lefts[g], mine, (true, c));
    }
    CountOneQueue(lefts, f, mine, (true, c));
    CountOfPart(added, Flatten(lefts), mine, (true, c));
    forall x | x in lefts[f] ensures x in indexed[f].news { PartMembers(lefts[f], indexed[f].news, x); }
    CountInside(lefts[f], indexed[f].news, key, c);
  }

  /** The file never adds more blocks of the key than its own new side outgrows its old side. */
  ghost predicate WithinGrowth(indexed: seq<Indexed>, added: seq<nat>, key: nat -> Option<Key>)
  {
    forall f, c :: 0 <= f < |indexed| ==>
      Count(added, InFile(indexed[f].news, key), (true, c)) <=
      Monus(Count(indexed[f].news, key, c), Count(indexed[f].olds, key, c))
  }

  lemma FileShare(blocks: seq<Placed>, indexed: seq<Indexed>, lefts: seq<seq<nat>>, added: seq<nat>)
    requires Distinct(AllNew(indexed)) && FilesLeft(blocks, indexed, lefts)
    requires multiset(added) <= multiset(Flatten(lefts))
    ensures WithinGrowth(indexed, added, Type2(blocks)) && WithinGrowth(indexed, added, Exact(blocks))
  {
    forall f, c | 0 <= f < |indexed|
      ensures Count(added, InFile(indexed[f].news, Type2(blocks)), (true, c)) <=
              Monus(Count(indexed[f].news, Type2(blocks), c), Count(indexed[f].olds, Type2(blocks), c))
      ensures Count(added, InFile(indexed[f].news, Exact(blocks)), (true, c)) <=
              Monus(Count(indexed[f].news, Exact(blocks), c), Count(indexed[f].olds, Exact(blocks), c))
    {
      LeftShare(indexed, lefts, added, f, Type2(blocks), c);
      LeftShare(indexed, lefts, added, f, Exact(blocks), c);
      assert FileLeft(blocks, indexed[f], lefts[f]);
    }
  }

  // ----- the whole run

  /** New minus old under each Type-2 key. */
  ghost predicate Balanced(blocks: seq<Placed>, indexed: seq<Indexed>, oldLeft: seq<nat>, newLeft: seq<nat>)
  {
    forall c :: Count(newLeft, Type2(blocks), c) + Count(AllOld(indexed), Type2(blocks), c) ==
                Count(oldLeft, Type2(blocks), c) + Count(AllNew(indexed), Type2(blocks), c)
  }

  lemma SidesAppend(indexed: seq<Indexed>, item: Indexed)
    ensures AllNew(indexed + [item]) == AllNew(indexed) + item.news
    ensures AllOld(indexed + [item]) == AllOld(indexed) + item.olds
  {
    assert NewSides(indexed + [item]) == NewSides(indexed) + [item.news];
    assert OldSides(indexed + [item]) == OldSides(indexed) + [item.olds];
    FlattenAppend(NewSides(indexed), item.news);
    FlattenAppend(OldSides(indexed), item.olds);
  }

  lemma BalancedAppend(blocks: seq<Placed>, indexed: seq<Indexed>, item: Indexed,
                       oldLeft: seq<nat>, newLeft: seq<nat>, olds: seq<nat>, news: seq<nat>)
    requires Balanced(blocks, indexed, oldLeft, newLeft)
    requires FileLeft(blocks, item, news) && FileOldLeft(blocks, item, olds)
    ensures Balanced(blocks, indexed + [item], oldLeft + olds, newLeft + news)
  {
    SidesAppend(indexed, item);
    var type2 := Type2(blocks);
    forall c
      ensures Count(newLeft + news, type2, c) + Count(AllOld(indexed + [item]), type2, c) ==
              Count(oldLeft + olds, type2, c) + Count(AllNew(indexed + [item]), type2, c)
    {
      FilterConcat(newLeft, news, type2, c);
      FilterConcat(oldLeft, olds, type2, c);
      FilterConcat(AllNew(indexed), item.news, type2, c);
      FilterConcat(AllOld(indexed), item.olds, type2, c);
      assert Count(newLeft, type2, c) + Count(AllOld(indexed), type2, c) ==
             Count(oldLeft, type2, c) + Count(AllNew(indexed), type2, c);
      assert Count(news, type2, c) + Count(item.olds, type2, c) == Count(olds, type2, c) + Count(item.news, type2, c);
    }
  }

  /** `lefts` are the new leftovers of each file. */
  ghost predicate FilesLeft(blocks: seq<Placed>, indexed: seq<Indexed>, lefts: seq<seq<nat>>)
  {
    |lefts| == |indexed| && forall g :: 0 <= g < |lefts| ==> FileLeft(blocks, indexed[g], lefts[g])
  }

  ghost predicate FilesOldLeft(blocks: seq<Placed>, indexed: seq<Indexed>, lefts: seq<seq<nat>>)
  {
    |lefts| == |indexed| && forall g :: 0 <= g < |lefts| ==> FileOldLeft(blocks, indexed[g], lefts[g])
  }

  lemma {:induction false} FilesLeftIsPart(blocks: seq<Placed>, indexed: seq<Indexed>, lefts: seq<seq<nat>>)
    requires FilesLeft(blocks, indexed, lefts)
    ensures multiset(Flatten(lefts)) <= multiset(AllNew(indexed))
  {
    if lefts == [] {
    } else {
      FilesLeftIsPart(blocks, indexed[1..], lefts[1..]);
      assert NewSides(indexed)[1..] == NewSides(indexed[1..]);
      assert FileLeft(blocks, indexed[0], lefts[0]);
    }
  }

  ghost predicate FilesDone(blocks: seq<Placed>, indexed: seq<Indexed>, oldLefts: seq<seq<nat>>,
                            newLefts: seq<seq<nat>>)
  {
    && FilesOldLeft(blocks, indexed, oldLefts) && FilesLeft(blocks, indexed, newLefts)
    && FilesLeave(blocks, indexed, oldLefts, newLefts)
  }

  lemma DoneAppend(blocks: seq<Placed>, indexed: seq<Indexed>, item: Indexed, oldLefts: seq<seq<nat>>,
                   newLefts: seq<seq<nat>>, olds: seq<nat>, news: seq<nat>)
    requires FilesDone(blocks, indexed, oldLefts, newLefts)
    requires FileLeft(blocks, item, news) && FileOldLeft(blocks, item, olds) && FileLeaves(blocks, item, olds, news)
    ensures FilesDone(blocks, indexed + [item], oldLefts + [olds], newLefts + [news])
  {
    LeavesAppend(blocks, indexed, item, oldLefts, newLefts, olds, news);
    var n, more := |indexed|, indexed + [item];
    forall g | 0 <= g <= n
      ensures FileLeft(blocks, more[g], (newLefts + [news])[g]) && FileOldLeft(blocks, more[g], (oldLefts + [olds])[g])
    {
      assert g < n ==> more[g] == indexed[g];
    }
  }

  lemma LeavesAppend(blocks: seq<Placed>, indexed: seq<Indexed>, item: Indexed, oldLefts: seq<seq<nat>>,
                     newLefts: seq<seq<nat>>, olds: seq<nat>, news: seq<nat>)
    requires FilesLeave(blocks, indexed, oldLefts, newLefts) && FileLeaves(blocks, item, olds, news)
    ensures FilesLeave(blocks, indexed + [item], oldLefts + [olds], newLefts + [news])
  {
    var n, more := |indexed|, indexed + [item];
    forall g | 0 <= g <= n
      ensures FileLeaves(blocks, more[g], (oldLefts + [olds])[g], (newLefts + [news])[g])
    {
      if g < n { assert FileLeaves(blocks, indexed[g], oldLefts[g], newLefts[g]); }
    }
  }

  /** One file more. */
  method NextFile(blocks: seq<Placed>, ghost indexed: seq<Indexed>, item: Indexed, ghost oldLeft: seq<nat>,
                  ghost newLeft: seq<nat>, ghost oldLefts: seq<seq<nat>>, ghost newLefts: seq<seq<nat>>)
    returns (olds: seq<nat>, news: seq<nat>)
    requires ExactRefinesType2(blocks)
    requires FilesDone(blocks, indexed, oldLefts, newLefts) && Balanced(blocks, indexed, oldLeft, newLeft)
    ensures FilesDone(blocks, indexed + [item], oldLefts + [olds], newLefts + [news])
    ensures Balanced(blocks, indexed + [item], oldLeft + olds, newLeft + news)
  {
    olds, news := WithinFile(blocks, item);
    BalancedAppend(blocks, indexed, item, oldLeft, newLeft, olds, news);
    DoneAppend(blocks, indexed, item, oldLefts, newLefts, olds, news);
  }

  /** The leftovers of each file, in file order, with the balance they keep under each Type-2 key. */
  method EachFile(blocks: seq<Placed>, indexed: seq<Indexed>)
    returns (oldLeft: seq<nat>, newLeft: seq<nat>, ghost oldLefts: seq<seq<nat>>, ghost newLefts: seq<seq<nat>>)
    requires ExactRefinesType2(blocks)
    ensures FilesOldLeft(blocks, indexed, oldLefts) && oldLeft == Flatten(oldLefts)
    ensures FilesLeft(blocks, indexed, newLefts) && newLeft == Flatten(newLefts)
    ensures Balanced(blocks, indexed, oldLeft, newLeft)
    ensures FilesLeave(blocks, indexed, oldLefts, newLefts)
  {
    oldLeft, newLeft, oldLefts, newLefts := [], [], [], [];
    for i := 0 to |indexed|
      invariant FilesDone(blocks, indexed[..i], oldLefts, newLefts)
      invariant oldLeft == Flatten(oldLefts) && newLeft == Flatten(newLefts)
      invariant Balanced(blocks, indexed[..i], oldLeft, newLeft)
    {
      var olds, news := NextFile(blocks, indexed[..i], indexed[i], oldLeft, newLeft, oldLefts, newLefts);
      assert indexed[..i + 1] == indexed[..i] + [indexed[i]];
      FlattenAppend(oldLefts, olds);
      FlattenAppend(newLefts, news);
      oldLeft, newLeft := oldLeft + olds, newLeft + news;
      oldLefts, newLefts := oldLefts + [olds], newLefts + [news];
    }
    assert indexed[..|indexed|] == indexed;
  }

  /** What the passes across files do with the leftovers of all files: under each exact key no more is
      added than the new leftovers outnumber the old ones, and it is the last of them by place. */
  ghost predicate AcrossFiles(blocks: seq<Placed>, oldLeft: seq<nat>, newLeft: seq<nat>, added: seq<nat>)
  {
    && (forall e :: Count(added, Exact(blocks), e) <=
                    Monus(Count(newLeft, Exact(blocks), e), Count(oldLeft, Exact(blocks), e)))
    && (forall e :: IsEnd(Filter(added, Exact(blocks), e), Filter(SortBy(newLeft, ByPlace(blocks)), Exact(blocks), e)))
  }

  /** The two passes in turn leave the last blocks by place of each exact key, and of these the last of each
      Type-2 key. */
  ghost predicate AcrossInTurn(blocks: seq<Placed>, oldLeft: seq<nat>, newLeft: seq<nat>, exactLeft: seq<nat>,
                               added: seq<nat>)
  {
    && LeavesEnds(SortBy(newLeft, ByPlace(blocks)), Exact(blocks), exactLeft)
    && (forall e :: Count(exactLeft, Exact(blocks), e) ==
                    Monus(Count(newLeft, Exact(blocks), e), Count(oldLeft, Exact(blocks), e)))
    && LeavesEnds(exactLeft, Type2(blocks), added)
  }

  lemma AcrossPassesInTurn(blocks: seq<Placed>, oldLeft: seq<nat>, newLeft: seq<nat>, olds0: seq<nat>,
                           news0: seq<nat>, olds1: seq<nat>, news1: seq<nat>, pairs1: seq<(nat, nat)>, added: seq<nat>)
    requires multiset(olds0) == multiset(oldLeft) && news0 == SortBy(newLeft, ByPlace(blocks))
    requires IsPairing(olds0, news0, Exact(blocks), Exact(blocks), pairs1, olds1, news1)
    requires news1 == PassNews(olds0, news0, Exact(blocks), Exact(blocks))
    requires added == PassNews(olds1, news1, Type2(blocks), Type2(blocks))
    ensures AcrossInTurn(blocks, oldLeft, newLeft, news1, added)
  {
    UnpairedLeavesEnds(news0, Exact(blocks), Bag(olds0, Exact(blocks)));
    UnpairedLeavesEnds(news1, Type2(blocks), Bag(olds1, Type2(blocks)));
    forall e
      ensures Count(news1, Exact(blocks), e) ==
              Monus(Count(newLeft, Exact(blocks), e), Count(oldLeft, Exact(blocks), e))
    {
      ExactGrowth(blocks, oldLeft, newLeft, olds0, news0, olds1, news1, pairs1, e);
    }
  }

  /** The files' own passes leave `oldLefts` and `newLefts`, and the passes across files add from those. */
  ghost predicate FromLeftovers(blocks: seq<Placed>, indexed: seq<Indexed>, oldLefts: seq<seq<nat>>,
                                newLefts: seq<seq<nat>>, added: seq<nat>)
  {
    && FilesOldLeft(blocks, indexed, oldLefts) && FilesLeft(blocks, indexed, newLefts)
    && AcrossFiles(blocks, Flatten(oldLefts), Flatten(newLefts), added)
  }

  /** What the passes promise about the added blocks of a run. */
  ghost predicate IsAdded(blocks: seq<Placed>, indexed: seq<Indexed>, added: seq<nat>)
  {
    && multiset(added) <= multiset(AllNew(indexed))
    && (forall c :: Count(added, Type2(blocks), c) ==
                    Monus(Count(AllNew(indexed), Type2(blocks), c), Count(AllOld(indexed), Type2(blocks), c)))
    && (forall f, id :: 0 <= f < |indexed| && id in indexed[f].news && StaysInPlace(blocks, indexed[f], id) ==>
          id !in added)
    && WithinGrowth(indexed, added, Type2(blocks)) && WithinGrowth(indexed, added, Exact(blocks))
    && exists oldLefts, newLefts :: FromLeftovers(blocks, indexed, oldLefts, newLefts, added)
  }

  lemma TwoPasses(blocks: seq<Placed>, indexed: seq<Indexed>, oldLeft: seq<nat>, newLeft: seq<nat>,
                  lefts: seq<seq<nat>>,
                  olds0: seq<nat>, news0: seq<nat>, olds1: seq<nat>, news1: seq<nat>, pairs1: seq<(nat, nat)>,
                  olds2: seq<nat>, added: seq<nat>, pairs2: seq<(nat, nat)>)
    requires ExactRefinesType2(blocks) && Distinct(AllNew(indexed))
    requires FilesLeft(blocks, indexed, lefts) && newLeft == Flatten(lefts)
    requires Balanced(blocks, indexed, oldLeft, newLeft)
    requires multiset(olds0) == multiset(oldLeft) && multiset(news0) == multiset(newLeft)
    requires IsPairing(olds0, news0, Exact(blocks), Exact(blocks), pairs1, olds1, news1)
    requires IsPairing(olds1, news1, Type2(blocks), Type2(blocks), pairs2, olds2, added)
    ensures multiset(added) <= multiset(newLeft) <= multiset(AllNew(indexed))
    ensures forall c :: Count(added, Type2(blocks), c) ==
                        Monus(Count(AllNew(indexed), Type2(blocks), c), Count(AllOld(indexed), Type2(blocks), c))
    ensures forall f, id :: 0 <= f < |indexed| && id in indexed[f].news && StaysInPlace(blocks, indexed[f], id) ==>
              id !in added
    ensures WithinGrowth(indexed, added, Type2(blocks)) && WithinGrowth(indexed, added, Exact(blocks))
  {
    var exact, type2 := Exact(blocks), Type2(blocks);
    LeftIsPart(olds0, news0, exact, exact, pairs1, olds1, news1);
    LeftIsPart(olds1, news1, type2, type2, pairs2, olds2, added);
    FilesLeftIsPart(blocks, indexed, lefts);
    forall c
      ensures Count(added, type2, c) == Monus(Count(AllNew(indexed), type2, c), Count(AllOld(indexed), type2, c))
    {
      CountPermute(olds0, oldLeft, type2, c);
      CountPermute(news0, newLeft, type2, c);
      Conserves(olds0, news0, exact, exact, pairs1, olds1, news1, type2, c);
      Conserves(olds1, news1, type2, type2, pairs2, olds2, added, type2, c);
    }
    forall f, id | 0 <= f < |indexed| && id in indexed[f].news && StaysInPlace(blocks, indexed[f], id)
      ensures id !in added
    {
      if id in added {
        PartMembers(added, newLeft, id);
        LeftFromOwnFile(indexed, lefts, f, id);
      }
    }
    FileShare(blocks, indexed, lefts, added);
  }

  /** The exact pass comes first: under each exact key, what is added is the end of the new leftovers by
      place, and no more than they outnumber the old ones. */
  lemma ExactFirst(blocks: seq<Placed>, oldLeft: seq<nat>, newLeft: seq<nat>, olds0: seq<nat>, news0: seq<nat>,
                   olds1: seq<nat>, news1: seq<nat>, pairs1: seq<(nat, nat)>, added: seq<nat>)
    requires ExactRefinesType2(blocks)
    requires multiset(olds0) == multiset(oldLeft) && news0 == SortBy(newLeft, ByPlace(blocks))
    requires IsPairing(olds0, news0, Exact(blocks), Exact(blocks), pairs1, olds1, news1)
    requires news1 == PassNews(olds0, news0, Exact(blocks), Exact(blocks))
    requires added == PassNews(olds1, news1, Type2(blocks), Type2(blocks))
    ensures AcrossFiles(blocks, oldLeft, newLeft, added)
  {
    forall e
      ensures Count(added, Exact(blocks), e) <=
              Monus(Count(newLeft, Exact(blocks), e), Count(oldLeft, Exact(blocks), e))
      ensures IsEnd(Filter(added, Exact(blocks), e), Filter(news0, Exact(blocks), e))
    {
      ExactFirstUnder(blocks, oldLeft, newLeft, olds0, news0, olds1, news1, pairs1, added, e);
    }
  }

  /** The Type-2 pass leaves the end of each exact key's blocks. */
  lemma Type2LeavesEnd(blocks: seq<Placed>, olds: seq<nat>, news: seq<nat>, e: Option<Key>) returns (m: nat)
    requires ExactRefinesType2(blocks)
    ensures Filter(PassNews(olds, news, Type2(blocks), Type2(blocks)), Exact(blocks), e) ==
            DropFirst(Filter(news, Exact(blocks), e), m)
  {
    var exact, type2 := Exact(blocks), Type2(blocks);
    forall x, y | x in news && y in news && exact(x) == exact(y) ensures type2(x) == type2(y) {
      ExactRefinesAt(blocks, x, y);
    }
    m := UnpairedIsEnd(news, type2, Bag(olds, type2), exact, e);
  }

  lemma ExactFirstUnder(blocks: seq<Placed>, oldLeft: seq<nat>, newLeft: seq<nat>, olds0: seq<nat>, news0: seq<nat>,
                        olds1: seq<nat>, news1: seq<nat>, pairs1: seq<(nat, nat)>, added: seq<nat>, e: Option<Key>)
    requires ExactRefinesType2(blocks)
    requires multiset(olds0) == multiset(oldLeft) && multiset(news0) == multiset(newLeft)
    requires IsPairing(olds0, news0, Exact(blocks), Exact(blocks), pairs1, olds1, news1)
    requires news1 == PassNews(olds0, news0, Exact(blocks), Exact(blocks))
    requires added == PassNews(olds1, news1, Type2(blocks), Type2(blocks))
    ensures Count(added, Exact(blocks), e) <= Monus(Count(newLeft, Exact(blocks), e), Count(oldLeft, Exact(blocks), e))
    ensures IsEnd(Filter(added, Exact(blocks), e), Filter(news0, Exact(blocks), e))
  {
    var exact := Exact(blocks);
    var m := Type2LeavesEnd(blocks, olds1, news1, e);
    UnpairedUnderKey(news0, exact, Bag(olds0, exact), e);
    EndOfEnd(Filter(news0, exact, e), Bag(olds0, exact)[e], m);
    ExactGrowth(blocks, oldLeft, newLeft, olds0, news0, olds1, news1, pairs1, e);
  }

  lemma ExactGrowth(blocks: seq<Placed>, oldLeft: seq<nat>, newLeft: seq<nat>, olds0: seq<nat>, news0: seq<nat>,
                    olds1: seq<nat>, news1: seq<nat>, pairs1: seq<(nat, nat)>, e: Option<Key>)
    requires multiset(olds0) == multiset(oldLeft) && multiset(news0) == multiset(newLeft)
    requires IsPairing(olds0, news0, Exact(blocks), Exact(blocks), pairs1, olds1, news1)
    ensures Count(news1, Exact(blocks), e) == Monus(Count(newLeft, Exact(blocks), e), Count(oldLeft, Exact(blocks), e))
  {
    var exact := Exact(blocks);
    Conserves(olds0, news0, exact, exact, pairs1, olds1, news1, exact, e);
    CountPermute(olds0, oldLeft, exact, e);
    CountPermute(news0, newLeft, exact, e);
  }

  lemma EndOfEnd(whole: seq<nat>, n: nat, m: nat)
    ensures DropFirst(DropFirst(whole, n), m) == DropFirst(whole, n + m)
  {
  }

  /** The added blocks: under each Type-2 key exactly as many as the new text outgrows the old over all
      files, none that stayed in place, from each file no more than that file outgrew, and what moved
      untouched across files is paired before anything else is. */
  method AddedBlocks(blocks: seq<Placed>, indexed: seq<Indexed>) returns (added: seq<nat>)
    requires ExactRefinesType2(blocks)
    requires Distinct(AllNew(indexed))
    ensures IsAdded(blocks, indexed, added)
    ensures TheResult(blocks, indexed, added)
  {
    var oldLeft, newLeft, oldLefts, newLefts := EachFile(blocks, indexed);
    var olds0 := SortByPlace(blocks, oldLeft);
    var news0 := SortByPlace(blocks, newLeft);
    var olds1, news1, pairs1 := PairBy(blocks, olds0, news0, Exact(blocks), Exact(blocks));
    var olds2, news2, pairs2 := PairBy(blocks, olds1, news1, Type2(blocks), Type2(blocks));
    TwoPasses(blocks, indexed, oldLeft, newLeft, newLefts, olds0, news0, olds1, news1, pairs1, olds2, news2, pairs2);
    ExactFirst(blocks, oldLeft, newLeft, olds0, news0, olds1, news1, pairs1, news2);
    assert FromLeftovers(blocks, indexed, oldLefts, newLefts, news2);
    assert RunLeaves(blocks, indexed, oldLefts, newLefts, olds1, news1, news2);
    ResultIsOne(blocks, indexed, news2);
    added := news2;
  }

  /** A run that keeps or lowers the count of every Type-2 key adds nothing: any move, reorder or
      renaming of blocks is such a run. */
  lemma NothingAdded(blocks: seq<Placed>, indexed: seq<Indexed>, added: seq<nat>)
    requires IsAdded(blocks, indexed, added)
    requires forall c :: Count(AllNew(indexed), Type2(blocks), c) <= Count(AllOld(indexed), Type2(blocks), c)
    ensures added == []
  {
    if added != [] {
      var c := Type2(blocks)(added[0]);
      CountZero(added, Type2(blocks), c);
    }
  }

  /** The converse: a key that grew always shows an added block. */
  lemma GrowthIsAdded(blocks: seq<Placed>, indexed: seq<Indexed>, added: seq<nat>, c: Option<Key>)
    requires IsAdded(blocks, indexed, added)
    requires Count(AllNew(indexed), Type2(blocks), c) > Count(AllOld(indexed), Type2(blocks), c)
    ensures exists id :: id in added && Type2(blocks)(id) == c
  {
    CountZero(added, Type2(blocks), c);
  }

  // ----- blocks that move between files untouched

  /** No file has a block on each side that could pair. */
  ghost predicate NothingInside(blocks: seq<Placed>, indexed: seq<Indexed>)
  {
    forall g, c :: 0 <= g < |indexed| ==>
      Count(indexed[g].olds, Type2(blocks), c) == 0 || Count(indexed[g].news, Type2(blocks), c) == 0
  }

  lemma PartIsWhole<C>(part: seq<nat>, whole: seq<nat>, key: nat -> C)
    requires multiset(part) <= multiset(whole) && forall c :: Count(part, key, c) == Count(whole, key, c)
    ensures multiset(part) == multiset(whole)
  {
    forall x ensures multiset(part)[x] == multiset(whole)[x] {
      assert multiset(part)[x] <= multiset(whole)[x];
      assert Count(part, key, key(x)) == Count(whole, key, key(x));
      if multiset(part)[x] < multiset(whole)[x] { MoreOf(part, whole, key, x); }
    }
  }

  lemma MoreOf<C>(part: seq<nat>, whole: seq<nat>, key: nat -> C, x: nat)
    requires multiset(part) <= multiset(whole) && multiset(part)[x] < multiset(whole)[x]
    ensures Count(part, key, key(x)) < Count(whole, key, key(x))
  {
    assert multiset(part + [x]) <= multiset(whole);
    CountOfPart(part + [x], whole, key, key(x));
    FilterOne(part, x, key, key(x));
  }

  lemma {:induction false} FlattenSame(a: seq<seq<nat>>, b: seq<seq<nat>>)
    requires |a| == |b| && forall g :: 0 <= g < |a| ==> multiset(a[g]) == multiset(b[g])
    ensures multiset(Flatten(a)) == multiset(Flatten(b))
  {
    if a == [] {
    } else {
      FlattenSame(a[1..], b[1..]);
    }
  }

  lemma LeftIsAll(blocks: seq<Placed>, indexed: seq<Indexed>, oldLefts: seq<seq<nat>>, newLefts: seq<seq<nat>>)
    requires FilesOldLeft(blocks, indexed, oldLefts) && FilesLeft(blocks, indexed, newLefts)
    requires NothingInside(blocks, indexed)
    ensures multiset(Flatten(oldLefts)) == multiset(AllOld(indexed))
    ensures multiset(Flatten(newLefts)) == multiset(AllNew(indexed))
  {
    forall g | 0 <= g < |indexed|
      ensures multiset(oldLefts[g]) == multiset(OldSides(indexed)[g])
      ensures multiset(newLefts[g]) == multiset(NewSides(indexed)[g])
    {
      assert FileOldLeft(blocks, indexed[g], oldLefts[g]) && FileLeft(blocks, indexed[g], newLefts[g]);
      PartIsWhole(oldLefts[g], indexed[g].olds, Type2(blocks));
      PartIsWhole(newLefts[g], indexed[g].news, Type2(blocks));
    }
    FlattenSame(oldLefts, OldSides(indexed));
    FlattenSame(newLefts, NewSides(indexed));
  }

  /** When no file pairs anything inside itself, what moved untouched from file to file is never added:
      under each exact key no more is added than all new blocks outnumber all old ones. */
  lemma MovedIsNotAdded(blocks: seq<Placed>, indexed: seq<Indexed>, added: seq<nat>, e: Option<Key>)
    requires IsAdded(blocks, indexed, added) && NothingInside(blocks, indexed)
    ensures Count(added, Exact(blocks), e) <=
            Monus(Count(AllNew(indexed), Exact(blocks), e), Count(AllOld(indexed), Exact(blocks), e))
  {
    var oldLefts, newLefts :| FromLeftovers(blocks, indexed, oldLefts, newLefts, added);
    LeftIsAll(blocks, indexed, oldLefts, newLefts);
    CountPermute(Flatten(oldLefts), AllOld(indexed), Exact(blocks), e);
    CountPermute(Flatten(newLefts), AllNew(indexed), Exact(blocks), e);
  }
}
