/** One clone run as an object: its blocks by id, the changed files, and the instances of each
    Type-2 key after the change; and the outermost of the copies it reports
    (crates/checks/src/copies.rs, crates/checks/src/clone.rs). */
module CloneRun {
  import opened Options
  import opened Orders
  import opened Pairing
  import opened Copies
  import opened Added

  // ----- folding nested copies

  /** The sweep order: path, then start line, then the longer range first. */
  predicate OuterLe(a: Placed, b: Placed)
  {
    if a.path != b.path then StrLe(a.path, b.path)
    else a.block.start < b.block.start || (a.block.start == b.block.start && a.block.end >= b.block.end)
  }

  function ByOuter(blocks: seq<Placed>): (nat, nat) -> bool
  {
    (a: nat, b: nat) => OuterLe(At(blocks, a), At(blocks, b))
  }

  predicate Within(inner: Placed, outer: Placed)
  {
    inner.path == outer.path && outer.block.start <= inner.block.start && inner.block.end <= outer.block.end
  }

  ghost predicate Covers(block: Block, line: nat)
  {
    block.start <= line <= block.end
  }

  /** One block lies within another exactly when it is in the same file and each of its lines is one of
      the other's. */
  lemma WithinIsLines(inner: Placed, outer: Placed)
    requires inner.block.start <= inner.block.end
    ensures Within(inner, outer) <==>
            inner.path == outer.path && forall line :: Covers(inner.block, line) ==> Covers(outer.block, line)
  {
    assert Covers(inner.block, inner.block.start) && Covers(inner.block, inner.block.end);
    assert Within(inner, outer) ==> forall line :: Covers(inner.block, line) ==> Covers(outer.block, line);
  }

  predicate NearDuplicate(placed: Placed, reported: set<(string, nat)>)
  {
    placed.block.isFunction && (placed.path, placed.block.start) in reported
  }

  /** An earlier copy, in sweep order, contains this one. */
  ghost predicate Folded(blocks: seq<Placed>, sorted: seq<nat>, i: nat)
    requires i < |sorted|
  {
    exists j :: 0 <= j < i && Within(At(blocks, sorted[i]), At(blocks, sorted[j]))
  }

  /** The copies to keep of the first `n`: not folded, and not reported already. */
  ghost function Kept(blocks: seq<Placed>, sorted: seq<nat>, reported: set<(string, nat)>, n: nat): seq<nat>
    requires n <= |sorted|
  {
    if n == 0 then []
    else
      Kept(blocks, sorted, reported, n - 1) +
      (if !Folded(blocks, sorted, n - 1) && !NearDuplicate(At(blocks, sorted[n - 1]), reported)
       then [sorted[n - 1]] else [])
  }

  lemma ByOuterIsPreorder(blocks: seq<Placed>)
    ensures TotalPreorder(ByOuter(blocks))
  {
    StrLeIsTotalOrder();
    forall a: Placed, b: Placed, c: Placed | OuterLe(a, b) && OuterLe(b, c) ensures OuterLe(a, c) {
      if a.path != b.path && b.path != c.path && a.path == c.path {
        StrLeAntisymmetric(a.path, b.path);
      }
    }
  }

  /** The one remembered copy reaches furthest of all earlier copies of its file. */
  ghost predicate Furthest(blocks: seq<Placed>, sorted: seq<nat>, i: nat, o: nat)
    requires o < i <= |sorted|
  {
    forall j :: 0 <= j < i && At(blocks, sorted[j]).path == At(blocks, sorted[o]).path ==>
      At(blocks, sorted[j]).block.end <= At(blocks, sorted[o]).block.end
  }

  lemma PathsRise(blocks: seq<Placed>, sorted: seq<nat>, j: nat, o: nat, i: nat)
    requires SortedBy(sorted, ByOuter(blocks))
    requires j < i && o < i < |sorted|
    requires At(blocks, sorted[j]).path == At(blocks, sorted[i]).path
    requires j <= o
    ensures At(blocks, sorted[o]).path == At(blocks, sorted[i]).path
  {
    var a, b, c := At(blocks, sorted[j]), At(blocks, sorted[o]), At(blocks, sorted[i]);
    assert ByOuter(blocks)(sorted[o], sorted[i]);
    if j < o && b.path != c.path {
      assert ByOuter(blocks)(sorted[j], sorted[o]);
      StrLeAntisymmetric(b.path, c.path);
    }
  }

  /** Copy `o` is the last one not folded before `i`: it reaches furthest in its file, and every
      copy since is in its file. */
  ghost predicate Remembered(blocks: seq<Placed>, sorted: seq<nat>, i: nat, o: nat)
  {
    && o < i <= |sorted| && Furthest(blocks, sorted, i, o)
    && forall j :: o < j < i ==> At(blocks, sorted[j]).path == At(blocks, sorted[o]).path
  }

  /** Being inside the remembered copy is the same as being inside any earlier copy. */
  lemma FoldedByOuter(blocks: seq<Placed>, sorted: seq<nat>, i: nat, o: nat)
    requires SortedBy(sorted, ByOuter(blocks)) && i < |sorted| && Remembered(blocks, sorted, i, o)
    ensures Folded(blocks, sorted, i) <==> Within(At(blocks, sorted[i]), At(blocks, sorted[o]))
    ensures Folded(blocks, sorted, i) ==> Remembered(blocks, sorted, i + 1, o)
  {
    if Folded(blocks, sorted, i) {
      var j :| 0 <= j < i && Within(At(blocks, sorted[i]), At(blocks, sorted[j]));
      InsideFurthest(blocks, sorted, i, o, j);
    }
  }

  lemma InsideFurthest(blocks: seq<Placed>, sorted: seq<nat>, i: nat, o: nat, j: nat)
    requires SortedBy(sorted, ByOuter(blocks)) && i < |sorted| && Remembered(blocks, sorted, i, o)
    requires j < i && Within(At(blocks, sorted[i]), At(blocks, sorted[j]))
    ensures Within(At(blocks, sorted[i]), At(blocks, sorted[o]))
  {
    if j <= o { PathsRise(blocks, sorted, j, o, i); }
    assert ByOuter(blocks)(sorted[o], sorted[i]);
  }

  lemma NewOuterIsFurthest(blocks: seq<Placed>, sorted: seq<nat>, i: nat, o: nat)
    requires SortedBy(sorted, ByOuter(blocks)) && i < |sorted| && Remembered(blocks, sorted, i, o)
    requires !Within(At(blocks, sorted[i]), At(blocks, sorted[o]))
    ensures Remembered(blocks, sorted, i + 1, i)
  {
    forall j | 0 <= j < i && At(blocks, sorted[j]).path == At(blocks, sorted[i]).path
      ensures At(blocks, sorted[j]).block.end <= At(blocks, sorted[i]).block.end
    {
      if j <= o { PathsRise(blocks, sorted, j, o, i); }
      assert ByOuter(blocks)(sorted[o], sorted[i]);
    }
  }

  /** What the sweep remembers before copy `i`: nothing at the start, then the last copy not folded. */
  ghost predicate Swept(blocks: seq<Placed>, sorted: seq<nat>, i: nat, outer: Option<nat>, o: nat)
  {
    if outer.None? then i == 0 else Remembered(blocks, sorted, i, o) && outer.value == sorted[o]
  }

  predicate Inside(blocks: seq<Placed>, id: nat, outer: Option<nat>)
  {
    outer.Some? && Within(At(blocks, id), At(blocks, outer.value))
  }

  lemma SweepStep(blocks: seq<Placed>, sorted: seq<nat>, reported: set<(string, nat)>, i: nat, outer: Option<nat>,
                  o: nat)
    requires SortedBy(sorted, ByOuter(blocks)) && i < |sorted| && Swept(blocks, sorted, i, outer, o)
    ensures Kept(blocks, sorted, reported, i + 1) ==
            Kept(blocks, sorted, reported, i) +
            (if Inside(blocks, sorted[i], outer) || NearDuplicate(At(blocks, sorted[i]), reported)
             then [] else [sorted[i]])
    ensures if Inside(blocks, sorted[i], outer) then Swept(blocks, sorted, i + 1, outer, o)
            else Swept(blocks, sorted, i + 1, Some(sorted[i]), i)
  {
    if outer.Some? {
      FoldedByOuter(blocks, sorted, i, o);
      if !Inside(blocks, sorted[i], outer) { NewOuterIsFurthest(blocks, sorted, i, o); }
    }
  }

  /** One sweep with one remembered copy keeps exactly the copies that no earlier copy contains,
      except the functions reported already, which still fold what is inside them. */
  method Sweep(blocks: seq<Placed>, sorted: seq<nat>, reported: set<(string, nat)>) returns (kept: seq<nat>)
    requires SortedBy(sorted, ByOuter(blocks))
    ensures kept == Kept(blocks, sorted, reported, |sorted|)
  {
    kept := [];
    var outer: Option<nat> := None;
    ghost var o := 0;
    for i := 0 to |sorted|
      invariant kept == Kept(blocks, sorted, reported, i)
      invariant Swept(blocks, sorted, i, outer, o)
    {
      SweepStep(blocks, sorted, reported, i, outer, o);
      if !Inside(blocks, sorted[i], outer) {
        outer, o := Some(sorted[i]), i;
        if !NearDuplicate(At(blocks, sorted[i]), reported) {
          kept := kept + [sorted[i]];
        }
      }
    }
  }

  method Outermost(blocks: seq<Placed>, copies: seq<nat>, reported: set<(string, nat)>) returns (kept: seq<nat>)
    ensures SortedBy(SortBy(copies, ByOuter(blocks)), ByOuter(blocks))
    ensures kept == Kept(blocks, SortBy(copies, ByOuter(blocks)), reported, |copies|)
  {
    ByOuterIsPreorder(blocks);
    SortBySorted(copies, ByOuter(blocks));
    kept := Sweep(blocks, SortBy(copies, ByOuter(blocks)), reported);
  }

  /** Not folded means maximal: whatever contains the copy has the same range and comes later, so
      the outer copies are the containment-maximal ranges, each once. */
  lemma UnfoldedIsMaximal(blocks: seq<Placed>, sorted: seq<nat>, i: nat)
    requires SortedBy(sorted, ByOuter(blocks)) && i < |sorted|
    ensures !Folded(blocks, sorted, i) <==>
            forall j :: 0 <= j < |sorted| && Within(At(blocks, sorted[i]), At(blocks, sorted[j])) ==>
              i <= j && Within(At(blocks, sorted[j]), At(blocks, sorted[i]))
  {
  }

  /** Every copy lies inside one that is not folded. */
  lemma {:induction false} EveryCopyHasOuter(blocks: seq<Placed>, sorted: seq<nat>, i: nat) returns (o: nat)
    requires i < |sorted|
    ensures o <= i && !Folded(blocks, sorted, o) && Within(At(blocks, sorted[i]), At(blocks, sorted[o]))
  {
    if Folded(blocks, sorted, i) {
      var j :| 0 <= j < i && Within(At(blocks, sorted[i]), At(blocks, sorted[j]));
      o := EveryCopyHasOuter(blocks, sorted, j);
    } else {
      o := i;
    }
  }

  ghost predicate KeptAt(blocks: seq<Placed>, sorted: seq<nat>, reported: set<(string, nat)>, i: nat, id: nat)
    requires i < |sorted|
  {
    var placed := At(blocks, id);
    && sorted[i] == id && !Folded(blocks, sorted, i)
    && (placed.block.isFunction ==> (placed.path, placed.block.start) !in reported)
  }

  lemma {:induction false} KeptMembers(blocks: seq<Placed>, sorted: seq<nat>, reported: set<(string, nat)>, n: nat,
                                       id: nat)
    requires n <= |sorted|
    ensures id in Kept(blocks, sorted, reported, n) <==>
            exists i :: 0 <= i < n && KeptAt(blocks, sorted, reported, i, id)
  {
    if n == 0 {
    } else {
      KeptMembers(blocks, sorted, reported, n - 1, id);
      assert KeptAt(blocks, sorted, reported, n - 1, id) ==> id in Kept(blocks, sorted, reported, n);
    }
  }

  // ----- the run

  /** One changed file as read: its blocks before and after, none for a side that does not exist,
      and the lines the diff kept in place. */
  datatype Sides = Sides(path: string, olds: seq<Block>, news: seq<Block>, stayed: map<nat, nat>)

  function PlaceAll(path: string, blocks: seq<Block>): seq<Placed>
  {
    seq(|blocks|, i requires 0 <= i < |blocks| => Placed(path, blocks[i]))
  }

  /** The repository after the change: each indexed file that the run does not change, then the new
      side of each changed file. */
  function UntouchedBlocks(files: seq<(string, seq<Block>)>, changed: set<string>): seq<Placed>
  {
    if files == [] then []
    else
      var front, file := files[..|files| - 1], files[|files| - 1];
      UntouchedBlocks(front, changed) + (if file.0 in changed then [] else PlaceAll(file.0, file.1))
  }

  function NewBlocks(read: seq<Sides>): seq<Placed>
  {
    if read == [] then []
    else NewBlocks(read[..|read| - 1]) + PlaceAll(read[|read| - 1].path, read[|read| - 1].news)
  }

  lemma UntouchedNext(files: seq<(string, seq<Block>)>, changed: set<string>, i: nat)
    requires i < |files|
    ensures UntouchedBlocks(files[..i + 1], changed) ==
            UntouchedBlocks(files[..i], changed) +
                (if files[i].0 in changed then [] else PlaceAll(files[i].0, files[i].1))
  {
    assert files[..i + 1][..i] == files[..i];
  }

  lemma NewNext(read: seq<Sides>, i: nat)
    requires i < |read|
    ensures NewBlocks(read[..i + 1]) == NewBlocks(read[..i]) + PlaceAll(read[i].path, read[i].news)
    ensures read[..i + 1] == read[..i] + [read[i]]
  {
    assert read[..i + 1][..i] == read[..i];
  }

  function Range(low: nat, high: nat): seq<nat>
    requires low <= high
  {
    seq(high - low, i requires 0 <= i < high - low => low + i)
  }

  function Shown(blocks: seq<Placed>, ids: seq<nat>): seq<Placed>
  {
    seq(|ids|, i requires 0 <= i < |ids| => At(blocks, ids[i]))
  }

  predicate InRange(ids: seq<nat>, n: nat)
  {
    forall i :: 0 <= i < |ids| ==> ids[i] < n
  }

  lemma ShownConcat(blocks: seq<Placed>, a: seq<nat>, b: seq<nat>)
    ensures Shown(blocks, a + b) == Shown(blocks, a) + Shown(blocks, b)
  {
  }

  lemma ShownGrows(blocks: seq<Placed>, more: seq<Placed>, ids: seq<nat>)
    requires InRange(ids, |blocks|)
    ensures Shown(blocks + more, ids) == Shown(blocks, ids)
    ensures InRange(ids, |blocks + more|)
  {
  }

  lemma {:induction false} KeysGrow(blocks: seq<Placed>, more: seq<Placed>, ids: seq<nat>, k: Option<Key>)
    requires InRange(ids, |blocks|)
    ensures Filter(ids, Type2(blocks + more), k) == Filter(ids, Type2(blocks), k)
  {
    if ids == [] {
    } else {
      assert ids[0] < |blocks|;
      KeysGrow(blocks, more, ids[1..], k);
    }
  }

  lemma RangeShown(blocks: seq<Placed>, more: seq<Placed>)
    ensures Shown(blocks + more, Range(|blocks|, |blocks + more|)) == more
  {
  }

  function Listed(instances: map<Key, seq<nat>>, k: Key): seq<nat>
  {
    if k in instances then instances[k] else []
  }

  /** The instances of every key are the present blocks with that key, in order. */
  ghost predicate ListsAll(instances: map<Key, seq<nat>>, present: seq<nat>, blocks: seq<Placed>)
  {
    forall k :: Listed(instances, k) == Filter(present, Type2(blocks), Some(k))
  }

  lemma ListedNext(instances: map<Key, seq<nat>>, present: seq<nat>, blocks: seq<Placed>, id: nat)
    requires ListsAll(instances, present, blocks) && id < |blocks|
    ensures var key := blocks[id].block.key;
            ListsAll(instances[key := Listed(instances, key) + [id]], present + [id], blocks)
  {
    var key := blocks[id].block.key;
    var after := instances[key := Listed(instances, key) + [id]];
    forall k ensures Listed(after, k) == Filter(present + [id], Type2(blocks), Some(k)) {
      FilterOne(present, id, Type2(blocks), Some(k));
      assert Listed(instances, k) == Filter(present, Type2(blocks), Some(k));
    }
  }

  /** Large enough to report, and with a second instance after the change. */
  ghost predicate Worthy(blocks: seq<Placed>, present: seq<nat>, id: nat)
  {
    && At(blocks, id).block.tokens >= 40
    && Count(present, Type2(blocks), Type2(blocks)(id)) >= 2
  }

  ghost function WorthyIn(blocks: seq<Placed>, present: seq<nat>): nat -> bool
  {
    (id: nat) => Worthy(blocks, present, id)
  }

  /** `kept` is what is left of the added blocks worth reporting when the inner ones are folded. */
  ghost predicate Reports(blocks: seq<Placed>, present: seq<nat>, reported: set<(string, nat)>, added: seq<nat>,
                          kept: seq<nat>)
  {
    var copies := Filter(added, WorthyIn(blocks, present), true);
    kept == Kept(blocks, SortBy(copies, ByOuter(blocks)), reported, |copies|)
  }

  lemma ReportedOnes(blocks: seq<Placed>, present: seq<nat>, reported: set<(string, nat)>, added: seq<nat>,
                     kept: seq<nat>, id: nat)
    requires Reports(blocks, present, reported, added, kept) && id in kept
    ensures id in added && Worthy(blocks, present, id) && !NearDuplicate(At(blocks, id), reported)
  {
    var copies := Filter(added, WorthyIn(blocks, present), true);
    KeptMembers(blocks, SortBy(copies, ByOuter(blocks)), reported, |copies|, id);
    PartMembers(SortBy(copies, ByOuter(blocks)), copies, id);
    FilterMembers(added, WorthyIn(blocks, present), true, id);
  }

  lemma AddedInRange(blocks: seq<Placed>, indexed: seq<Indexed>, added: seq<nat>)
    requires IsAdded(blocks, indexed, added) && InRange(AllNew(indexed), |blocks|)
    ensures InRange(added, |blocks|)
  {
    forall i | 0 <= i < |added| ensures added[i] < |blocks| { PartMembers(added, AllNew(indexed), added[i]); }
  }

  lemma FindingsMean(blocks: seq<Placed>, indexed: seq<Indexed>, present: seq<nat>, reported: set<(string, nat)>,
                     added: seq<nat>, kept: seq<nat>)
    requires IsAdded(blocks, indexed, added) && Reports(blocks, present, reported, added, kept)
    ensures forall id :: id in kept ==>
              id in AllNew(indexed) && Worthy(blocks, present, id) && !NearDuplicate(At(blocks, id), reported)
    ensures (forall c :: Count(AllNew(indexed), Type2(blocks), c) <= Count(AllOld(indexed), Type2(blocks), c)) ==>
              kept == []
  {
    forall id | id in kept
      ensures id in AllNew(indexed) && Worthy(blocks, present, id) && !NearDuplicate(At(blocks, id), reported)
    {
      ReportedOnes(blocks, present, reported, added, kept, id);
      PartMembers(added, AllNew(indexed), id);
    }
    if forall c :: Count(AllNew(indexed), Type2(blocks), c) <= Count(AllOld(indexed), Type2(blocks), c) {
      NothingAdded(blocks, indexed, added);
    }
  }

  class Run {
    var blocks: seq<Placed>
    var indexed: seq<Indexed>
    var instances: map<Key, seq<nat>>
    ghost var present: seq<nat>  // the ids of the repository after the change, in order

    /** The instances of a key are the present blocks with that key, in order, and the new ids of
        the changed files are distinct. */
    ghost predicate Valid()
      reads this
    {
      && InRange(present, |blocks|)
      && ListsAll(instances, present, blocks)
      && InRange(AllNew(indexed), |blocks|)
      && Distinct(AllNew(indexed))
    }

    constructor (files: seq<(string, seq<Block>)>, read: seq<Sides>, changed: set<string>)
      ensures Valid()
      ensures Shown(blocks, present) == UntouchedBlocks(files, changed) + NewBlocks(read)
      ensures AllHold(blocks, indexed, read)
    {
      blocks, indexed, instances, present := [], [], map[], [];
      new;
      AddUntouched(files, changed);
      AddRead(read);
    }

    method AddUntouched(files: seq<(string, seq<Block>)>, changed: set<string>)
      requires Valid() && indexed == [] && present == []
      modifies `blocks, `instances, `present
      ensures Valid()
      ensures Shown(blocks, present) == UntouchedBlocks(files, changed)
    {
      for i := 0 to |files|
        invariant Valid()
        invariant Shown(blocks, present) == UntouchedBlocks(files[..i], changed)
      {
        UntouchedNext(files, changed, i);
        if files[i].0 !in changed {
          var _ := AddPresent(files[i].0, files[i].1);
        }
      }
      assert files[..|files|] == files;
    }

    method AddRead(read: seq<Sides>)
      requires Valid() && indexed == []
      modifies this
      ensures Valid() && AllHold(blocks, indexed, read)
      ensures Shown(blocks, present) == old(Shown(blocks, present)) + NewBlocks(read)
    {
      for i := 0 to |read|
        invariant Valid() && AllHold(blocks, indexed, read[..i])
        invariant Shown(blocks, present) == old(Shown(blocks, present)) + NewBlocks(read[..i])
      {
        NewNext(read, i);
        AddPair(read[i], read[..i]);
      }
      assert read[..|read|] == read;
    }

    /** Gives each block the next id. */
    method PushAll(path: string, more: seq<Block>) returns (ids: seq<nat>)
      modifies `blocks
      ensures blocks == old(blocks) + PlaceAll(path, more)
      ensures ids == Range(|old(blocks)|, |blocks|)
    {
      var first := |blocks|;
      blocks := blocks + PlaceAll(path, more);
      ids := Range(first, |blocks|);
    }

    /** Lists each id under its block's Type-2 key. */
    method AddInstances(ids: seq<nat>)
      requires InRange(ids, |blocks|) && ListsAll(instances, present, blocks)
      modifies `instances, `present
      ensures present == old(present) + ids
      ensures ListsAll(instances, present, blocks)
    {
      for i := 0 to |ids|
        invariant present == old(present) + ids[..i]
        invariant ListsAll(instances, present, blocks)
      {
        assert ids[..i + 1] == ids[..i] + [ids[i]];
        AddInstance(ids[i]);
      }
      assert ids[..|ids|] == ids;
    }

    method AddInstance(id: nat)
      requires id < |blocks| && ListsAll(instances, present, blocks)
      modifies `instances, `present
      ensures present == old(present) + [id]
      ensures ListsAll(instances, present, blocks)
    {
      ListedNext(instances, present, blocks, id);
      var key := blocks[id].block.key;
      instances := instances[key := Listed(instances, key) + [id]];
      present := present + [id];
    }

    method AddPresent(path: string, more: seq<Block>) returns (ids: seq<nat>)
      requires Valid()
      modifies `blocks, `instances, `present
      ensures Valid()
      ensures blocks == old(blocks) + PlaceAll(path, more)
      ensures ids == Range(|old(blocks)|, |blocks|)
      ensures Shown(blocks, present) == old(Shown(blocks, present)) + PlaceAll(path, more)
    {
      ghost var before, added := blocks, PlaceAll(path, more);
      ids := PushAll(path, more);
      forall k ensures Listed(instances, k) == Filter(present, Type2(blocks), Some(k)) {
        KeysGrow(before, added, present, Some(k));
      }
      ShownGrows(before, added, present);
      ShownGrows(before, added, AllNew(indexed));
      RangeShown(before, added);
      ShownConcat(blocks, present, ids);
      AddInstances(ids);
    }

    method AddPair(sides: Sides, ghost read: seq<Sides>)
      requires Valid() && AllHold(blocks, indexed, read)
      modifies this
      ensures Valid() && AllHold(blocks, indexed, read + [sides])
      ensures Shown(blocks, present) == old(Shown(blocks, present)) + PlaceAll(sides.path, sides.news)
    {
      ghost var before := blocks;
      var news := AddPresent(sides.path, sides.news);
      ghost var middle := blocks;
      var olds := PushAll(sides.path, sides.olds);
      ghost var added := PlaceAll(sides.path, sides.olds);
      forall k ensures Listed(instances, k) == Filter(present, Type2(blocks), Some(k)) {
        KeysGrow(middle, added, present, Some(k));
      }
      ShownGrows(middle, added, present);
      RangeShown(before, PlaceAll(sides.path, sides.news));
      ShownGrows(middle, added, news);
      RangeShown(middle, added);
      SidesAppend(indexed, Indexed(olds, news, sides.stayed));
      forall f | 0 <= f < |indexed| ensures Holds(blocks, indexed[f], read[f]) {
        HoldsGrows(before, PlaceAll(sides.path, sides.news), indexed[f], read[f]);
        HoldsGrows(middle, added, indexed[f], read[f]);
      }
      indexed := indexed + [Indexed(olds, news, sides.stayed)];
    }

    /** Every present block that shares the Type-2 key of `id`. */
    method Instances(id: nat) returns (ids: seq<nat>)
      requires Valid() && id < |blocks|
      ensures ids == Filter(present, Type2(blocks), Some(blocks[id].block.key))
    {
      ids := Listed(instances, blocks[id].block.key);
    }

    /** A block to report: large enough, and with a second instance after the change. */
    method Reportable(id: nat) returns (ok: bool)
      requires Valid() && id < |blocks|
      ensures ok <==> Worthy(blocks, present, id)
    {
      var ids := Instances(id);
      ok := blocks[id].block.tokens >= MIN_FINDING_TOKENS && |ids| >= MIN_INSTANCES;
    }

    /** The findings of the run: the outermost of the added blocks worth reporting, none of them
        reported already, and none at all when no Type-2 key grew. */
    method Findings(reported: set<(string, nat)>) returns (kept: seq<nat>)
      requires Valid() && ExactRefinesType2(blocks)
      ensures exists added :: IsAdded(blocks, indexed, added) && TheResult(blocks, indexed, added) &&
                Reports(blocks, present, reported, added, kept)
      ensures forall id :: id in kept ==>
              id in AllNew(indexed) && Worthy(blocks, present, id) && !NearDuplicate(blocks[id], reported)
      ensures (forall c :: Count(AllNew(indexed), Type2(blocks), c) <= Count(AllOld(indexed), Type2(blocks), c)) ==>
              kept == []
    {
      var added := AddedBlocks(blocks, indexed);
      AddedInRange(blocks, indexed, added);
      kept := ReportedOf(added, reported);
      FindingsMean(blocks, indexed, present, reported, added, kept);
    }

    /** The added blocks worth reporting, the inner ones folded. */
    method ReportedOf(added: seq<nat>, reported: set<(string, nat)>) returns (kept: seq<nat>)
      requires Valid() && InRange(added, |blocks|)
      ensures Reports(blocks, present, reported, added, kept)
    {
      var copies := ReportableOf(added);
      kept := Outermost(blocks, copies, reported);
    }

    method ReportableOf(added: seq<nat>) returns (copies: seq<nat>)
      requires Valid() && InRange(added, |blocks|)
      ensures copies == Filter(added, WorthyIn(blocks, present), true)
    {
      copies := [];
      ghost var worthy := WorthyIn(blocks, present);
      for i := 0 to |added|
        invariant copies == Filter(added[..i], worthy, true)
      {
        assert added[..i + 1] == added[..i] + [added[i]];
        FilterOne(added[..i], added[i], worthy, true);
        var ok := Reportable(added[i]);
        assert ok == worthy(added[i]);
        if ok {
          copies := copies + [added[i]];
        }
      }
      assert added[..|added|] == added;
    }
  }

  /** The entry's ids show the blocks that were read. */
  ghost predicate Holds(blocks: seq<Placed>, item: Indexed, sides: Sides)
  {
    && InRange(item.news, |blocks|) && InRange(item.olds, |blocks|)
    && Shown(blocks, item.news) == PlaceAll(sides.path, sides.news)
    && Shown(blocks, item.olds) == PlaceAll(sides.path, sides.olds)
    && item.stayed == sides.stayed
  }

  /** Each entry is its changed file, in the order they were read. */
  ghost predicate AllHold(blocks: seq<Placed>, indexed: seq<Indexed>, read: seq<Sides>)
  {
    |indexed| == |read| && forall f :: 0 <= f < |read| ==> Holds(blocks, indexed[f], read[f])
  }

  lemma HoldsGrows(blocks: seq<Placed>, more: seq<Placed>, item: Indexed, sides: Sides)
    requires Holds(blocks, item, sides)
    ensures Holds(blocks + more, item, sides)
  {
    ShownGrows(blocks, more, item.news);
    ShownGrows(blocks, more, item.olds);
  }
}
