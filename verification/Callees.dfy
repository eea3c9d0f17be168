/** `callee_overlap` (crates/checks/src/callees.rs): an inverted index of callees, a memoised family
    count and a ranked cut, against the direct rule on callee sets. */
module Callees {
  import opened Orders

  const MIN_CALLEES: nat := 3
  const SHARE_PARTS: nat := 4
  const SHARE_WHOLE: nat := 5
  const FAMILY_LIMIT: nat := 5
  const MAX_ROWS_PER_UNIT: nat := 3

  datatype CalleeId = CalleeId(text: string)

  datatype Callee = Callee(id: CalleeId, name: string)

  datatype TreeFunction = TreeFunction(path: string, name: string, line: nat, nameLine: nat,
                                       callees: seq<Callee>, spelled: seq<string>)

  /** What the tree promises of a function: each callee once, and the spelled names sorted. */
  ghost predicate Proper(one: TreeFunction)
  {
    && OnceEach(one.callees)
    && SortedBy(one.spelled, StrLe)
  }

  ghost predicate AllProper(functions: seq<TreeFunction>)
  {
    forall i :: 0 <= i < |functions| ==> Proper(functions[i])
  }

  // ----- the direct rule on sets

  function Ids(callees: seq<Callee>): set<CalleeId>
  {
    set i | 0 <= i < |callees| :: callees[i].id
  }

  ghost function Shared(functions: seq<TreeFunction>, f: nat, g: nat): nat
    requires f < |functions| && g < |functions|
  {
    |Ids(functions[f].callees) * Ids(functions[g].callees)|
  }

  /** f calls at least four fifths of the three or more callees of g and never spells g. */
  ghost predicate Meets(functions: seq<TreeFunction>, f: nat, g: nat)
    requires f < |functions| && g < |functions|
  {
    var total := |functions[g].callees|;
    && total >= 3
    && 5 * Shared(functions, f, g) >= 4 * total
    && functions[g].name !in functions[f].spelled
  }

  /** Every function besides g that meets the rule for g. */
  ghost function MembersOf(functions: seq<TreeFunction>, g: nat): set<nat>
    requires g < |functions|
  {
    set h: nat | h < |functions| && h != g && Meets(functions, h, g)
  }

  ghost function FamilyOf(functions: seq<TreeFunction>, g: nat, f: nat): nat
    requires g < |functions|
  {
    |MembersOf(functions, g) - {f}|
  }

  lemma IdsNext(callees: seq<Callee>)
    requires callees != []
    ensures Ids(callees) == Ids(callees[..|callees| - 1]) + {callees[|callees| - 1].id}
  {
  }

  // ----- the inverted index

  /** The functions that call `id`, in order, with every slot that does. */
  function CallersOf(functions: seq<TreeFunction>, id: CalleeId): seq<(nat, nat)>
  {
    if functions == [] then []
    else
      var last := |functions| - 1;
      CallersOf(functions[..last], id) + CallerAt(functions[last].callees, last, id)
  }

  function CallerAt(callees: seq<Callee>, at: nat, id: CalleeId): seq<(nat, nat)>
  {
    if callees == [] then []
    else
      var last := |callees| - 1;
      CallerAt(callees[..last], at, id) + (if callees[last].id == id then [(at, last)] else [])
  }

  type Callers = map<CalleeId, seq<(nat, nat)>>

  function Lookup(callers: Callers, id: CalleeId): seq<(nat, nat)> { if id in callers then callers[id] else [] }

  ghost predicate Indexes(callers: Callers, functions: seq<TreeFunction>)
  {
    forall id :: Lookup(callers, id) == CallersOf(functions, id)
  }

  lemma CallerNext(callees: seq<Callee>, at: nat, slot: nat, id: CalleeId)
    requires slot < |callees|
    ensures CallerAt(callees[..slot + 1], at, id) ==
            CallerAt(callees[..slot], at, id) + (if callees[slot].id == id then [(at, slot)] else [])
  {
    var more := callees[..slot + 1];
    assert more[..slot] == callees[..slot] && more[slot] == callees[slot];
  }

  method NewIndex(functions: seq<TreeFunction>) returns (callers: Callers)
    ensures Indexes(callers, functions)
  {
    callers := map[];
    for at := 0 to |functions|
      invariant forall id :: Lookup(callers, id) == CallersOf(functions[..at], id)
    {
      callers := IndexFunction(functions, at, callers);
    }
    assert functions[..|functions|] == functions;
  }

  ghost predicate PartlyIndexed(callers: Callers, functions: seq<TreeFunction>, at: nat, slot: nat)
    requires at < |functions| && slot <= |functions[at].callees|
  {
    forall id :: Lookup(callers, id) == CallersOf(functions[..at], id) + CallerAt(functions[at].callees[..slot], at, id)
  }

  lemma IndexSlot(callers: Callers, functions: seq<TreeFunction>, at: nat, slot: nat)
    requires at < |functions| && slot < |functions[at].callees|
    requires PartlyIndexed(callers, functions, at, slot)
    ensures var id := functions[at].callees[slot].id;
            PartlyIndexed(callers[id := Lookup(callers, id) + [(at, slot)]], functions, at, slot + 1)
  {
    var callees := functions[at].callees;
    var id := callees[slot].id;
    var after := callers[id := Lookup(callers, id) + [(at, slot)]];
    forall i ensures Lookup(after, i) == CallersOf(functions[..at], i) + CallerAt(callees[..slot + 1], at, i) {
      CallerNext(callees, at, slot, i);
      assert Lookup(callers, i) == CallersOf(functions[..at], i) + CallerAt(callees[..slot], at, i);
    }
  }

  method IndexFunction(functions: seq<TreeFunction>, at: nat, callers0: Callers) returns (callers: Callers)
    requires at < |functions|
    requires forall id :: Lookup(callers0, id) == CallersOf(functions[..at], id)
    ensures forall id :: Lookup(callers, id) == CallersOf(functions[..at + 1], id)
  {
    callers := callers0;
    var callees := functions[at].callees;
    assert PartlyIndexed(callers, functions, at, 0);
    for slot := 0 to |callees|
      invariant PartlyIndexed(callers, functions, at, slot)
    {
      IndexSlot(callers, functions, at, slot);
      callers := callers[callees[slot].id := Lookup(callers, callees[slot].id) + [(at, slot)]];
    }
    assert callees[..|callees|] == callees;
    assert functions[..at + 1][..at] == functions[..at];
  }

  // ----- the pairs f and g share

  /** The slot of f with each slot of g that calls the same `id`. */
  function SlotPairs(theirs: seq<Callee>, slot: nat, id: CalleeId): seq<(nat, nat)>
  {
    if theirs == [] then []
    else
      var last := |theirs| - 1;
      SlotPairs(theirs[..last], slot, id) + (if theirs[last].id == id then [(slot, last)] else [])
  }

  /** The slots, in f's order, of the callees that f and g share. */
  function SharedSlots(mine: seq<Callee>, theirs: seq<Callee>): seq<(nat, nat)>
  {
    if mine == [] then []
    else
      var last := |mine| - 1;
      SharedSlots(mine[..last], theirs) + SlotPairs(theirs, last, mine[last].id)
  }

  /** The pairs in reading order: by the first slot, then by the second. */
  ghost predicate SlotsInOrder(pairs: seq<(nat, nat)>)
  {
    forall i, j :: 0 <= i < j < |pairs| ==>
      pairs[i].0 < pairs[j].0 || (pairs[i].0 == pairs[j].0 && pairs[i].1 < pairs[j].1)
  }

  lemma {:induction false} SlotPairsExactly(theirs: seq<Callee>, slot: nat, id: CalleeId, pair: (nat, nat))
    ensures pair in SlotPairs(theirs, slot, id) <==>
            pair.0 == slot && pair.1 < |theirs| && theirs[pair.1].id == id
  {
    if theirs == [] {
    } else {
      SlotPairsExactly(theirs[..|theirs| - 1], slot, id, pair);
    }
  }

  lemma {:induction false} SlotPairsInOrder(theirs: seq<Callee>, slot: nat, id: CalleeId)
    ensures SlotsInOrder(SlotPairs(theirs, slot, id))
  {
    if theirs == [] {
    } else {
      var front := SlotPairs(theirs[..|theirs| - 1], slot, id);
      SlotPairsInOrder(theirs[..|theirs| - 1], slot, id);
      forall k | 0 <= k < |front| ensures front[k].0 == slot && front[k].1 < |theirs| - 1 {
        SlotPairsExactly(theirs[..|theirs| - 1], slot, id, front[k]);
      }
    }
  }

  /** The shared slots are the pairs of slots that call one function, each once and in reading order. */
  lemma {:induction false} SharedSlotsExactly(mine: seq<Callee>, theirs: seq<Callee>, i: nat, j: nat)
    ensures (i, j) in SharedSlots(mine, theirs) <==>
            i < |mine| && j < |theirs| && mine[i].id == theirs[j].id
    ensures SlotsInOrder(SharedSlots(mine, theirs))
  {
    if mine == [] {
    } else {
      var last := |mine| - 1;
      var front, more := SharedSlots(mine[..last], theirs), SlotPairs(theirs, last, mine[last].id);
      SharedSlotsExactly(mine[..last], theirs, i, j);
      SlotPairsExactly(theirs, last, mine[last].id, (i, j));
      SlotPairsInOrder(theirs, last, mine[last].id);
      forall a, b | 0 <= a < |front| && 0 <= b < |more| ensures front[a].0 < more[b].0 {
        SharedSlotsExactly(mine[..last], theirs, front[a].0, front[a].1);
        SlotPairsExactly(theirs, last, mine[last].id, more[b]);
        assert front[a] in front && more[b] in more;
      }
    }
  }

  ghost predicate OnceEach(callees: seq<Callee>)
  {
    forall i, j :: 0 <= i < j < |callees| ==> callees[i].id != callees[j].id
  }

  lemma {:induction false} SameCount(theirs: seq<Callee>, slot: nat, other: nat, id: CalleeId)
    ensures |SlotPairs(theirs, slot, id)| == |SlotPairs(theirs, other, id)|
  {
    if theirs == [] {
    } else {
      SameCount(theirs[..|theirs| - 1], slot, other, id);
    }
  }

  lemma {:induction false} OneSlot(theirs: seq<Callee>, slot: nat, id: CalleeId)
    requires OnceEach(theirs)
    ensures |SlotPairs(theirs, slot, id)| == if id in Ids(theirs) then 1 else 0
  {
    if theirs == [] {
    } else {
      OneSlot(theirs[..|theirs| - 1], slot, id);
      IdsNext(theirs);
    }
  }

  /** With each callee once, the shared slots number the shared callees. */
  lemma {:induction false} SharedSlotsCount(mine: seq<Callee>, theirs: seq<Callee>)
    requires OnceEach(mine) && OnceEach(theirs)
    ensures |SharedSlots(mine, theirs)| == |Ids(mine) * Ids(theirs)|
  {
    if mine == [] {
    } else {
      var last := |mine| - 1;
      var front, id := mine[..last], mine[last].id;
      SharedSlotsCount(front, theirs);
      OneSlot(theirs, last, id);
      IdsNext(mine);
      assert id !in Ids(front);
      if id in Ids(theirs) {
        assert Ids(mine) * Ids(theirs) == (Ids(front) * Ids(theirs)) + {id};
      } else {
        assert Ids(mine) * Ids(theirs) == Ids(front) * Ids(theirs);
      }
    }
  }

  /** The pairs that `list` gives function `g` for one slot. */
  function Pushed(list: seq<(nat, nat)>, g: nat, slot: nat): seq<(nat, nat)>
  {
    if list == [] then []
    else
      var last := list[|list| - 1];
      Pushed(list[..|list| - 1], g, slot) + (if last.0 == g then [(slot, last.1)] else [])
  }

  lemma PushedConcatOne(list: seq<(nat, nat)>, entry: (nat, nat), g: nat, slot: nat)
    ensures Pushed(list + [entry], g, slot) == Pushed(list, g, slot) + (if entry.0 == g then [(slot, entry.1)] else [])
  {
  }

  lemma {:induction false} PushedCaller(list: seq<(nat, nat)>, callees: seq<Callee>, at: nat, id: CalleeId, g: nat,
                                        slot: nat)
    ensures Pushed(list + CallerAt(callees, at, id), g, slot) ==
            Pushed(list, g, slot) + (if g == at then SlotPairs(callees, slot, id) else [])
  {
    if callees == [] {
      assert list + [] == list;
    } else {
      var last := |callees| - 1;
      var earlier := list + CallerAt(callees[..last], at, id);
      PushedCaller(list, callees[..last], at, id, g, slot);
      if callees[last].id == id {
        assert list + CallerAt(callees, at, id) == earlier + [(at, last)];
        PushedConcatOne(earlier, (at, last), g, slot);
      } else {
        assert list + CallerAt(callees, at, id) == earlier;
      }
    }
  }

  /** The pairs that one slot gives function `g`, if g calls `id`. */
  ghost function PairFor(functions: seq<TreeFunction>, id: CalleeId, g: nat, slot: nat): seq<(nat, nat)>
  {
    if g < |functions| then SlotPairs(functions[g].callees, slot, id) else []
  }

  lemma {:induction false} PushedCallers(functions: seq<TreeFunction>, id: CalleeId, g: nat, slot: nat)
    ensures Pushed(CallersOf(functions, id), g, slot) == PairFor(functions, id, g, slot)
  {
    if functions == [] {
    } else {
      var last := |functions| - 1;
      PushedCallers(functions[..last], id, g, slot);
      PushedCaller(CallersOf(functions[..last], id), functions[last].callees, last, id, g, slot);
    }
  }

  type SharedMap = map<nat, seq<(nat, nat)>>

  function PairsWith(shared: SharedMap, g: nat): seq<(nat, nat)> { if g in shared then shared[g] else [] }

  ghost function SlotsWith(functions: seq<TreeFunction>, mine: seq<Callee>, g: nat): seq<(nat, nat)>
  {
    if g < |functions| then SharedSlots(mine, functions[g].callees) else []
  }

  /** `shared` gives each function the slots it shares with the first `n` callees of f, and holds
      only functions that share one. */
  ghost predicate Holds(shared: SharedMap, functions: seq<TreeFunction>, mine: seq<Callee>)
  {
    && (forall g: nat :: PairsWith(shared, g) == SlotsWith(functions, mine, g))
    && (forall g: nat :: g in shared ==> g < |functions|)
  }

  /** `shared` is `shared0` with the pairs that `list` gives for one slot. */
  ghost predicate SlotShared(shared0: SharedMap, shared: SharedMap, list: seq<(nat, nat)>, slot: nat)
  {
    && (forall g: nat :: PairsWith(shared, g) == PairsWith(shared0, g) + Pushed(list, g, slot))
    && (forall g: nat :: g in shared ==> g in shared0 || Pushed(list, g, slot) != [])
  }

  lemma SlotSharedNext(shared0: SharedMap, shared: SharedMap, list: seq<(nat, nat)>, slot: nat, entry: (nat, nat))
    requires SlotShared(shared0, shared, list, slot)
    ensures SlotShared(shared0, shared[entry.0 := PairsWith(shared, entry.0) + [(slot, entry.1)]], list + [entry], slot)
  {
    var after := shared[entry.0 := PairsWith(shared, entry.0) + [(slot, entry.1)]];
    forall g: nat
      ensures PairsWith(after, g) == PairsWith(shared0, g) + Pushed(list + [entry], g, slot)
      ensures g in after ==> g in shared0 || Pushed(list + [entry], g, slot) != []
    {
      PushedConcatOne(list, entry, g, slot);
      assert PairsWith(shared, g) == PairsWith(shared0, g) + Pushed(list, g, slot);
    }
  }

  /** One callee of f: gives each caller of it the slot pair. */
  method ShareSlot(list: seq<(nat, nat)>, slot: nat, shared0: SharedMap) returns (shared: SharedMap)
    ensures SlotShared(shared0, shared, list, slot)
  {
    shared := shared0;
    for i := 0 to |list|
      invariant SlotShared(shared0, shared, list[..i], slot)
    {
      SlotSharedNext(shared0, shared, list[..i], slot, list[i]);
      assert list[..i + 1] == list[..i] + [list[i]];
      shared := shared[list[i].0 := PairsWith(shared, list[i].0) + [(slot, list[i].1)]];
    }
    assert list[..|list|] == list;
  }

  /** The callees that f shares with every function, by the index. */
  method SharedWith(functions: seq<TreeFunction>, callers: Callers, f: nat) returns (shared: SharedMap)
    requires Indexes(callers, functions) && f < |functions|
    ensures Holds(shared, functions, functions[f].callees)
  {
    shared := map[];
    var callees := functions[f].callees;
    for slot := 0 to |callees|
      invariant Holds(shared, functions, callees[..slot])
    {
      var id := callees[slot].id;
      var list := Lookup(callers, id);
      ghost var before := shared;
      shared := ShareSlot(list, slot, shared);
      forall g: nat ensures Pushed(list, g, slot) == PairFor(functions, id, g, slot) {
        PushedCallers(functions, id, g, slot);
      }
      ShareNext(functions, callees, slot, before, shared, list);
    }
    assert callees[..|callees|] == callees;
  }

  lemma ShareNext(functions: seq<TreeFunction>, callees: seq<Callee>, slot: nat,
                  before: SharedMap, shared: SharedMap, list: seq<(nat, nat)>)
    requires slot < |callees| && Holds(before, functions, callees[..slot])
    requires SlotShared(before, shared, list, slot)
    requires forall g: nat :: Pushed(list, g, slot) == PairFor(functions, callees[slot].id, g, slot)
    ensures Holds(shared, functions, callees[..slot + 1])
  {
    forall g: nat
      ensures PairsWith(shared, g) == SlotsWith(functions, callees[..slot + 1], g)
      ensures g in shared ==> g < |functions|
    {
      SlotsNext(functions, callees, slot, g);
      assert PairsWith(shared, g) == PairsWith(before, g) + Pushed(list, g, slot);
    }
  }

  lemma SlotsNext(functions: seq<TreeFunction>, callees: seq<Callee>, slot: nat, g: nat)
    requires slot < |callees|
    ensures SlotsWith(functions, callees[..slot + 1], g) ==
            SlotsWith(functions, callees[..slot], g) + PairFor(functions, callees[slot].id, g, slot)
  {
    var mine := callees[..slot + 1];
    assert mine[..slot] == callees[..slot] && mine[slot] == callees[slot];
  }
}
