/** The contract-rule hits that a change adds (crates/checks/src/contract.rs). The unit matching is
    a given map from each new unit to the path and qualified name it keeps. */
module Contract {
  import opened Options
  import opened Orders
  import opened Pairing

  const MODULE_UNIT := "<module>"

  /** One rule match; `unit` is the index of the unit that holds it, if one does. */
  datatype Hit = Hit(rule: string, unit: Option<nat>, capture: string)

  /** One side of a pair: the qualified names of its units and its hits. */
  datatype Side = Side(units: seq<string>, hits: seq<Hit>)

  datatype Sides = Sides(path: string, before: Option<Side>, after: Option<Side>)

  datatype Key = Key(rule: string, place: string, unit: string, capture: string)

  /** A hit with the key it is counted under. */
  datatype Keyed = Keyed(path: string, hit: Hit, key: Key)

  datatype HitState = HitState(path: string, rule: string, unit: string, capture: string)

  /** From a file and a unit of its new side to the identity the matching gave that unit. */
  type Identity = map<(nat, nat), (string, string)>

  predicate Sound(side: Side)
  {
    forall i :: 0 <= i < |side.hits| && side.hits[i].unit.Some? ==> side.hits[i].unit.value < |side.units|
  }

  predicate UsableAt(file: nat, sides: Sides, identity: Identity)
  {
    && (sides.before.Some? ==> Sound(sides.before.value))
    && (sides.after.Some? ==> Sound(sides.after.value) && Identified(file, sides.after.value, identity))
  }

  predicate Usable(measured: seq<Sides>, identity: Identity)
  {
    forall f :: 0 <= f < |measured| ==> UsableAt(f, measured[f], identity)
  }

  /** The matching gave every unit of the new side an identity. */
  predicate Identified(file: nat, side: Side, identity: Identity)
  {
    forall u :: 0 <= u < |side.units| ==> (file, u) in identity
  }

  function HitKey(hit: Hit, owner: Option<(string, string)>, path: string): Key
  {
    match owner
    case Some(named) => Key(hit.rule, named.0, named.1, hit.capture)
    case None => Key(hit.rule, path, MODULE_UNIT, hit.capture)
  }

  // ----- what each side counts

  function OldKeyed(path: string, side: Side, n: nat): seq<Keyed>
    requires Sound(side) && n <= |side.hits|
  {
    if n == 0 then []
    else
      var hit := side.hits[n - 1];
      var owner := if hit.unit.Some? then Some((path, side.units[hit.unit.value])) else None;
      OldKeyed(path, side, n - 1) + [Keyed(path, hit, HitKey(hit, owner, path))]
  }

  function NewKeyed(file: nat, path: string, side: Side, identity: Identity, n: nat): seq<Keyed>
    requires Sound(side) && n <= |side.hits| && Identified(file, side, identity)
  {
    if n == 0 then []
    else
      var hit := side.hits[n - 1];
      var owner := if hit.unit.Some? then Some(identity[(file, hit.unit.value)]) else None;
      NewKeyed(file, path, side, identity, n - 1) + [Keyed(path, hit, HitKey(hit, owner, path))]
  }

  function OldSide(file: nat, sides: Sides, identity: Identity): seq<Keyed>
    requires UsableAt(file, sides, identity)
  {
    if sides.before.None? then [] else OldKeyed(sides.path, sides.before.value, |sides.before.value.hits|)
  }

  function NewSide(file: nat, sides: Sides, identity: Identity): seq<Keyed>
    requires UsableAt(file, sides, identity)
  {
    if sides.after.None? then []
    else NewKeyed(file, sides.path, sides.after.value, identity, |sides.after.value.hits|)
  }

  /** Every old hit of the first `n` pairs, with its key. */
  function OldHits(measured: seq<Sides>, identity: Identity, n: nat): seq<Keyed>
    requires Usable(measured, identity) && n <= |measured|
  {
    if n == 0 then [] else OldHits(measured, identity, n - 1) + OldSide(n - 1, measured[n - 1], identity)
  }

  /** Every new hit of the first `n` pairs, under the identity its unit keeps. */
  function NewHits(measured: seq<Sides>, identity: Identity, n: nat): seq<Keyed>
    requires Usable(measured, identity) && n <= |measured|
  {
    if n == 0 then [] else NewHits(measured, identity, n - 1) + NewSide(n - 1, measured[n - 1], identity)
  }

  const KeyOf: Keyed -> Key := (keyed: Keyed) => keyed.key

  // ----- the counters

  function Get(carried: map<Key, nat>, k: Key): nat { if k in carried then carried[k] else 0 }

  /** `carried` holds, under each key, how many of `hits` have it. */
  ghost predicate Counts(carried: map<Key, nat>, hits: seq<Keyed>)
  {
    forall k :: Get(carried, k) == Count(hits, KeyOf, k)
  }

  lemma CountsStep(carried: map<Key, nat>, hits: seq<Keyed>, hit: Keyed)
    requires Counts(carried, hits)
    ensures Counts(carried[hit.key := Get(carried, hit.key) + 1], hits + [hit])
  {
    forall k ensures Get(carried[hit.key := Get(carried, hit.key) + 1], k) == Count(hits + [hit], KeyOf, k) {
      FilterOne(hits, hit, KeyOf, k);
      assert Get(carried, k) == Count(hits, KeyOf, k) && KeyOf(hit) == hit.key;
    }
  }

  /** Counts the old hits of one pair. */
  method CountSide(file: nat, sides: Sides, identity: Identity, carried0: map<Key, nat>, ghost earlier: seq<Keyed>)
    returns (carried: map<Key, nat>)
    requires UsableAt(file, sides, identity) && Counts(carried0, earlier)
    ensures Counts(carried, earlier + OldSide(file, sides, identity))
  {
    carried := carried0;
    assert earlier + [] == earlier;
    if sides.before.None? {
      return;
    }
    var path, side := sides.path, sides.before.value;
    for n := 0 to |side.hits|
      invariant Counts(carried, earlier + OldKeyed(path, side, n))
    {
      var hit := side.hits[n];
      var owner := if hit.unit.Some? then Some((path, side.units[hit.unit.value])) else None;
      var key := HitKey(hit, owner, path);
      CountsStep(carried, earlier + OldKeyed(path, side, n), Keyed(path, hit, key));
      assert earlier + OldKeyed(path, side, n + 1) == earlier + OldKeyed(path, side, n) + [Keyed(path, hit, key)];
      carried := carried[key := Get(carried, key) + 1];
    }
  }

  /** Counts every old hit of the run under its key. */
  method Carried(measured: seq<Sides>, identity: Identity) returns (carried: map<Key, nat>)
    requires Usable(measured, identity)
    ensures Counts(carried, OldHits(measured, identity, |measured|))
  {
    carried := map[];
    for f := 0 to |measured|
      invariant Counts(carried, OldHits(measured, identity, f))
    {
      assert UsableAt(f, measured[f], identity);
      carried := CountSide(f, measured[f], identity, carried, OldHits(measured, identity, f));
    }
  }

  lemma {:induction false} UnpairedAppend(hits: seq<Keyed>, hit: Keyed, waiting: multiset<Key>)
    ensures Unpaired(hits + [hit], KeyOf, waiting) ==
            Unpaired(hits, KeyOf, waiting) + (if waiting[hit.key] > Count(hits, KeyOf, hit.key) then [] else [hit])
  {
    if hits == [] {
      assert hits + [hit] == [hit];
      assert Unpaired([hit][1..], KeyOf, waiting) == [];
    } else {
      var k := hits[0].key;
      assert (hits + [hit])[1..] == hits[1..] + [hit];
      UnpairedAppend(hits[1..], hit, if k in waiting then waiting - multiset{k} else waiting);
    }
  }

  /** After the new hits `seen`, each counter holds what its key has not yet used up, and `found`
      are the hits that came too late. */
  ghost predicate Spent(carried: map<Key, nat>, olds: seq<Keyed>, seen: seq<Keyed>, found: seq<Keyed>)
  {
    && (forall k :: Get(carried, k) == Monus(Count(olds, KeyOf, k), Count(seen, KeyOf, k)))
    && found == Unpaired(seen, KeyOf, Bag(olds, KeyOf))
  }

  lemma SpendOne(carried: map<Key, nat>, olds: seq<Keyed>, seen: seq<Keyed>, found: seq<Keyed>, hit: Keyed)
    requires Spent(carried, olds, seen, found)
    ensures if Get(carried, hit.key) > 0
            then Spent(carried[hit.key := Get(carried, hit.key) - 1], olds, seen + [hit], found)
            else Spent(carried, olds, seen + [hit], found + [hit])
  {
    UnpairedAppend(seen, hit, Bag(olds, KeyOf));
    BagCounts(olds, KeyOf, hit.key);
    var after := if Get(carried, hit.key) > 0 then carried[hit.key := Get(carried, hit.key) - 1] else carried;
    forall k ensures Get(after, k) == Monus(Count(olds, KeyOf, k), Count(seen + [hit], KeyOf, k)) {
      FilterOne(seen, hit, KeyOf, k);
    }
  }

  lemma SpentStart(carried: map<Key, nat>, olds: seq<Keyed>)
    requires Counts(carried, olds)
    ensures Spent(carried, olds, [], [])
  {
  }

  function OwnerOf(file: nat, side: Side, identity: Identity, hit: Hit): Option<(string, string)>
    requires hit.unit.Some? ==> hit.unit.value < |side.units|
    requires Identified(file, side, identity)
  {
    if hit.unit.Some? then Some(identity[(file, hit.unit.value)]) else None
  }

  lemma NewKeyedNext(file: nat, path: string, side: Side, identity: Identity, n: nat, earlier: seq<Keyed>)
    requires Sound(side) && n < |side.hits| && Identified(file, side, identity)
    ensures var key := HitKey(side.hits[n], OwnerOf(file, side, identity, side.hits[n]), path);
            earlier + NewKeyed(file, path, side, identity, n + 1) ==
            earlier + NewKeyed(file, path, side, identity, n) + [Keyed(path, side.hits[n], key)]
  {
  }

  function StateOf(path: string, side: Side, hit: Hit): HitState
    requires hit.unit.Some? ==> hit.unit.value < |side.units|
  {
    HitState(path, hit.rule, if hit.unit.Some? then side.units[hit.unit.value] else MODULE_UNIT, hit.capture)
  }

  function SideStates(path: string, side: Side, n: nat): seq<HitState>
    requires Sound(side) && n <= |side.hits|
  {
    if n == 0 then [] else SideStates(path, side, n - 1) + [StateOf(path, side, side.hits[n - 1])]
  }

  function StatesAt(file: nat, sides: Sides, identity: Identity): seq<HitState>
    requires UsableAt(file, sides, identity)
  {
    if sides.after.None? then [] else SideStates(sides.path, sides.after.value, |sides.after.value.hits|)
  }

  /** The state of every new hit, in scan order, under its own name and path. */
  function AllStates(measured: seq<Sides>, identity: Identity, n: nat): seq<HitState>
    requires Usable(measured, identity) && n <= |measured|
  {
    if n == 0 then [] else AllStates(measured, identity, n - 1) + StatesAt(n - 1, measured[n - 1], identity)
  }

  predicate StateLe(a: HitState, b: HitState) { StrLe(a.path, b.path) }

  /** One new hit: off its counter, or a finding. */
  method TakeHit(carried0: map<Key, nat>, found0: seq<Keyed>, hit: Keyed, ghost olds: seq<Keyed>,
                 ghost seen: seq<Keyed>)
    returns (carried: map<Key, nat>, found: seq<Keyed>)
    requires Spent(carried0, olds, seen, found0)
    ensures Spent(carried, olds, seen + [hit], found)
  {
    SpendOne(carried0, olds, seen, found0, hit);
    carried, found := carried0, found0;
    if hit.key in carried && carried[hit.key] > 0 {
      carried := carried[hit.key := carried[hit.key] - 1];
    } else {
      found := found + [hit];
    }
  }

  /** One side of the run: takes each new hit off its counter, or reports it. */
  method FileHits(file: nat, sides: Sides, identity: Identity, carried0: map<Key, nat>,
                  ghost olds: seq<Keyed>, ghost earlier: seq<Keyed>, found0: seq<Keyed>)
    returns (carried: map<Key, nat>, found: seq<Keyed>, states: seq<HitState>)
    requires UsableAt(file, sides, identity)
    requires Spent(carried0, olds, earlier, found0)
    ensures Spent(carried, olds, earlier + NewSide(file, sides, identity), found)
    ensures states == StatesAt(file, sides, identity)
  {
    carried, found, states := carried0, found0, [];
    assert earlier + [] == earlier;
    if sides.after.None? {
      return;
    }
    var path, side := sides.path, sides.after.value;
    for n := 0 to |side.hits|
      invariant Spent(carried, olds, earlier + NewKeyed(file, path, side, identity, n), found)
      invariant states == SideStates(path, side, n)
    {
      var hit := side.hits[n];
      states := states + [StateOf(path, side, hit)];
      var key := HitKey(hit, OwnerOf(file, side, identity, hit), path);
      NewKeyedNext(file, path, side, identity, n, earlier);
      carried, found :=
        TakeHit(carried, found, Keyed(path, hit, key), olds, earlier + NewKeyed(file, path, side, identity, n));
    }
  }

  /** The fresh findings are the new hits left when each takes one old hit under its key, and the
      states list every new hit by path. */
  method NewFindings(measured: seq<Sides>, identity: Identity) returns (found: seq<Keyed>, states: seq<HitState>)
    requires Usable(measured, identity)
    ensures found == Unpaired(NewHits(measured, identity, |measured|), KeyOf,
                              Bag(OldHits(measured, identity, |measured|), KeyOf))
    ensures states == SortBy(AllStates(measured, identity, |measured|), StateLe)
  {
    var carried := Carried(measured, identity);
    ghost var olds := OldHits(measured, identity, |measured|);
    SpentStart(carried, olds);
    found := [];
    var listed := [];
    for f := 0 to |measured|
      invariant Spent(carried, olds, NewHits(measured, identity, f), found)
      invariant listed == AllStates(measured, identity, f)
    {
      assert UsableAt(f, measured[f], identity);
      var more;
      carried, found, more := FileHits(f, measured[f], identity, carried, olds, NewHits(measured, identity, f), found);
      listed := listed + more;
    }
    states := SortBy(listed, StateLe);
  }

  // ----- keys and states by their fields

  /** The i-th counted hit of an old side: under the side's path and its unit's name, or the module. */
  lemma {:induction false} OldKeyedByFields(path: string, side: Side, n: nat, i: nat)
    requires Sound(side) && i < n <= |side.hits|
    ensures |OldKeyed(path, side, n)| == n
    ensures var hit, keyed := side.hits[i], OldKeyed(path, side, n)[i];
            && keyed.path == path && keyed.hit == hit
            && keyed.key.rule == hit.rule && keyed.key.capture == hit.capture && keyed.key.place == path
            && keyed.key.unit == (match hit.unit case None => "<module>" case Some(u) => side.units[u])
  {
    if n > 1 { OldKeyedByFields(path, side, n - 1, if i < n - 1 then i else 0); }
  }

  /** The i-th counted hit of a new side: under the path and the name that its unit keeps, and outside
      every unit under the side's path and the module. */
  lemma {:induction false} NewKeyedByFields(file: nat, path: string, side: Side, identity: Identity, n: nat, i: nat)
    requires Sound(side) && i < n <= |side.hits| && Identified(file, side, identity)
    ensures |NewKeyed(file, path, side, identity, n)| == n
    ensures var hit, keyed := side.hits[i], NewKeyed(file, path, side, identity, n)[i];
            && keyed.path == path && keyed.hit == hit
            && keyed.key.rule == hit.rule && keyed.key.capture == hit.capture
            && match hit.unit
               case None => keyed.key.place == path && keyed.key.unit == "<module>"
               case Some(u) => (keyed.key.place, keyed.key.unit) == identity[(file, u)]
  {
    if n > 1 { NewKeyedByFields(file, path, side, identity, n - 1, if i < n - 1 then i else 0); }
  }

  /** The i-th state row of a side: the hit under the side's own path and its unit's own name. */
  lemma {:induction false} StatesByFields(path: string, side: Side, n: nat, i: nat)
    requires Sound(side) && i < n <= |side.hits|
    ensures |SideStates(path, side, n)| == n
    ensures var hit, state := side.hits[i], SideStates(path, side, n)[i];
            && state.path == path && state.rule == hit.rule && state.capture == hit.capture
            && state.unit == (match hit.unit case None => "<module>" case Some(u) => side.units[u])
  {
    if n > 1 { StatesByFields(path, side, n - 1, if i < n - 1 then i else 0); }
  }

  const PathOf: HitState -> string := (state: HitState) => state.path

  /** The listed states are in byte order of their paths, and those of one path in scan order. */
  lemma StatesByPath(states: seq<HitState>, path: string)
    ensures var sorted := SortBy(states, StateLe);
            && (forall i, j :: 0 <= i < j < |sorted| ==> LexLe(sorted[i].path, sorted[j].path))
            && Filter(sorted, PathOf, path) == Filter(states, PathOf, path)
  {
    var sorted := SortBy(states, StateLe);
    StrLeIsTotalOrder();
    assert TotalPreorder(StateLe);
    SortBySorted(states, StateLe);
    forall i, j | 0 <= i < j < |sorted| ensures LexLe(sorted[i].path, sorted[j].path) {
      assert StateLe(sorted[i], sorted[j]);
      StrLeIsLex(sorted[i].path, sorted[j].path);
    }
    SortStable(states, StateLe, PathOf, path);
  }

  // ----- the law

  /** Under each key the fresh findings number exactly the new hits beyond the old ones. */
  lemma FreshCount(measured: seq<Sides>, identity: Identity, k: Key)
    requires Usable(measured, identity)
    ensures var news, olds := NewHits(measured, identity, |measured|), OldHits(measured, identity, |measured|);
            Count(Unpaired(news, KeyOf, Bag(olds, KeyOf)), KeyOf, k) ==
                Monus(Count(news, KeyOf, k), Count(olds, KeyOf, k))
  {
    var news, olds := NewHits(measured, identity, |measured|), OldHits(measured, identity, |measured|);
    UnpairedCount(news, KeyOf, Bag(olds, KeyOf), k);
    BagCounts(olds, KeyOf, k);
  }

  /** A change whose hits, under the identities their units keep, are no more than before reports
      nothing: a rename or a move to another file of the run moves no hit. Otherwise it reports. */
  lemma QuietExactlyWhenCarried(measured: seq<Sides>, identity: Identity)
    requires Usable(measured, identity)
    ensures var news, olds := NewHits(measured, identity, |measured|), OldHits(measured, identity, |measured|);
            Unpaired(news, KeyOf, Bag(olds, KeyOf)) == [] <==> Bag(news, KeyOf) <= Bag(olds, KeyOf)
  {
    var news, olds := NewHits(measured, identity, |measured|), OldHits(measured, identity, |measured|);
    var found := Unpaired(news, KeyOf, Bag(olds, KeyOf));
    forall k ensures Count(found, KeyOf, k) == Monus(Bag(news, KeyOf)[k], Bag(olds, KeyOf)[k]) {
      FreshCount(measured, identity, k);
      BagCounts(news, KeyOf, k);
      BagCounts(olds, KeyOf, k);
    }
    if found == [] {
      forall k ensures Bag(news, KeyOf)[k] <= Bag(olds, KeyOf)[k] {
        assert Count(found, KeyOf, k) == 0;
      }
    }
    if Bag(news, KeyOf) <= Bag(olds, KeyOf) {
      assert forall k :: Count(found, KeyOf, k) == 0;
      assert found != [] ==> Count(found, KeyOf, found[0].key) > 0;
    }
  }
}
