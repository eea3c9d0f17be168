/** A change that only moves or renames units finds no contract hit (crates/checks/src/contract.rs):
    each new unit keeps an old unit of its own, and no unit gains a hit. */
module ContractMoves {
  import opened Options
  import opened Orders
  import opened Pairing
  import opened Contract

  /** The file of a hit and the unit that holds it, if one does. */
  type Owner = (nat, Option<nat>)

  datatype Owned = Owned(owner: Owner, hit: Hit)

  /** An owner with a rule and a capture. */
  type Tag = (Owner, string, string)

  function OwnedHits(file: nat, hits: seq<Hit>, n: nat): seq<Owned>
    requires n <= |hits|
  {
    if n == 0 then [] else OwnedHits(file, hits, n - 1) + [Owned((file, hits[n - 1].unit), hits[n - 1])]
  }

  function SideHits(file: nat, side: Option<Side>): seq<Owned>
  {
    if side.None? then [] else OwnedHits(file, side.value.hits, |side.value.hits|)
  }

  function OldOwned(measured: seq<Sides>, n: nat): seq<Owned>
    requires n <= |measured|
  {
    if n == 0 then [] else OldOwned(measured, n - 1) + SideHits(n - 1, measured[n - 1].before)
  }

  function NewOwned(measured: seq<Sides>, n: nat): seq<Owned>
    requires n <= |measured|
  {
    if n == 0 then [] else NewOwned(measured, n - 1) + SideHits(n - 1, measured[n - 1].after)
  }

  // ----- the matching, as each new unit's own old unit

  type Partners = map<(nat, nat), (nat, nat)>

  predicate IsOld(measured: seq<Sides>, file: nat, unit: nat)
  {
    file < |measured| && measured[file].before.Some? && unit < |measured[file].before.value.units|
  }

  predicate IsNew(measured: seq<Sides>, file: nat, unit: nat)
  {
    file < |measured| && measured[file].after.Some? && unit < |measured[file].after.value.units|
  }

  /** Every new unit has an old unit, no two the same one, and keeps its path and name as identity. */
  ghost predicate Matched(measured: seq<Sides>, identity: Identity, partners: Partners)
  {
    && (forall file: nat, unit: nat :: IsNew(measured, file, unit) ==>
          HasPartner(measured, identity, partners, file, unit))
    && (forall a, b :: a in partners && b in partners && partners[a] == partners[b] ==> a == b)
  }

  predicate HasPartner(measured: seq<Sides>, identity: Identity, partners: Partners, file: nat, unit: nat)
  {
    && (file, unit) in partners && (file, unit) in identity
    && var (was, unitWas) := partners[(file, unit)];
       && IsOld(measured, was, unitWas)
       && identity[(file, unit)] == (measured[was].path, measured[was].before.value.units[unitWas])
  }

  /** The old owner of a new owner: the unit's partner, and for the module the file itself. */
  function Origin(partners: Partners, owner: Owner): Owner
  {
    if owner.1.None? || (owner.0, owner.1.value) !in partners then owner
    else
      var was := partners[(owner.0, owner.1.value)];
      (was.0, Some(was.1))
  }

  function TagOf(owned: Owned): Tag { (owned.owner, owned.hit.rule, owned.hit.capture) }

  function OriginTag(partners: Partners): Owned -> Tag
  {
    (owned: Owned) => (Origin(partners, owned.owner), owned.hit.rule, owned.hit.capture)
  }

  /** No unit, and no file outside its units, has more hits of a rule and capture than its origin had. */
  ghost predicate NoHitGained(measured: seq<Sides>, partners: Partners)
  {
    forall owner: Owner, rule, capture ::
      Count(NewOwned(measured, |measured|), TagOf, (owner, rule, capture)) <=
      Count(OldOwned(measured, |measured|), TagOf, (Origin(partners, owner), rule, capture))
  }

  // ----- keys from owners

  const NO_KEY := Key("", "", "", "")

  /** The key of an old owner's hit. */
  function KeyOfTag(measured: seq<Sides>, tag: Tag): Key
  {
    var (owner, rule, capture) := tag;
    if owner.0 >= |measured| then NO_KEY
    else if owner.1.None? then Key(rule, measured[owner.0].path, MODULE_UNIT, capture)
    else if !IsOld(measured, owner.0, owner.1.value) then NO_KEY
    else Key(rule, measured[owner.0].path, measured[owner.0].before.value.units[owner.1.value], capture)
  }

  function OldKey(measured: seq<Sides>): Owned -> Key
  {
    (owned: Owned) => KeyOfTag(measured, TagOf(owned))
  }

  function NewKey(measured: seq<Sides>, partners: Partners): Owned -> Key
  {
    (owned: Owned) => KeyOfTag(measured, OriginTag(partners)(owned))
  }

  lemma {:induction false} OldSideCount(measured: seq<Sides>, file: nat, n: nat, k: Key)
    requires file < |measured| && measured[file].before.Some? && Sound(measured[file].before.value)
    requires n <= |measured[file].before.value.hits|
    ensures var side := measured[file].before.value;
            Count(OldKeyed(measured[file].path, side, n), KeyOf, k) ==
            Count(OwnedHits(file, side.hits, n), OldKey(measured), k)
  {
    if n == 0 {
    } else {
      var path, side := measured[file].path, measured[file].before.value;
      var hit := side.hits[n - 1];
      var owner := if hit.unit.Some? then Some((path, side.units[hit.unit.value])) else None;
      var keyed, owned := Keyed(path, hit, HitKey(hit, owner, path)), Owned((file, hit.unit), hit);
      assert hit.unit.Some? ==> IsOld(measured, file, hit.unit.value);
      assert OldKey(measured)(owned) == keyed.key;
      OldSideCount(measured, file, n - 1, k);
      FilterOne(OldKeyed(path, side, n - 1), keyed, KeyOf, k);
      FilterOne(OwnedHits(file, side.hits, n - 1), owned, OldKey(measured), k);
    }
  }

  lemma NewKeyOfHit(measured: seq<Sides>, identity: Identity, partners: Partners, file: nat, hit: Hit)
    requires Matched(measured, identity, partners) && file < |measured|
    requires hit.unit.Some? ==> IsNew(measured, file, hit.unit.value)
    ensures hit.unit.Some? ==> (file, hit.unit.value) in identity
    ensures var owner := if hit.unit.Some? then Some(identity[(file, hit.unit.value)]) else None;
            NewKey(measured, partners)(Owned((file, hit.unit), hit)) == HitKey(hit, owner, measured[file].path)
  {
    if hit.unit.Some? {
      var unit := hit.unit.value;
      assert HasPartner(measured, identity, partners, file, unit);
      var was := partners[(file, unit)];
      assert IsOld(measured, was.0, was.1);
      assert OriginTag(partners)(Owned((file, hit.unit), hit)) == ((was.0, Some(was.1)), hit.rule, hit.capture);
    } else {
      assert OriginTag(partners)(Owned((file, hit.unit), hit)) == ((file, None), hit.rule, hit.capture);
    }
  }

  lemma {:induction false} NewSideCount(measured: seq<Sides>, identity: Identity, partners: Partners, file: nat,
                                        n: nat, k: Key)
    requires Matched(measured, identity, partners)
    requires file < |measured| && measured[file].after.Some? && UsableAt(file, measured[file], identity)
    requires n <= |measured[file].after.value.hits|
    ensures var side := measured[file].after.value;
            Count(NewKeyed(file, measured[file].path, side, identity, n), KeyOf, k) ==
            Count(OwnedHits(file, side.hits, n), NewKey(measured, partners), k)
  {
    if n == 0 {
    } else {
      var path, side := measured[file].path, measured[file].after.value;
      var hit := side.hits[n - 1];
      var owner := if hit.unit.Some? then Some(identity[(file, hit.unit.value)]) else None;
      var keyed, owned := Keyed(path, hit, HitKey(hit, owner, path)), Owned((file, hit.unit), hit);
      NewKeyOfHit(measured, identity, partners, file, hit);
      NewSideCount(measured, identity, partners, file, n - 1, k);
      FilterOne(NewKeyed(file, path, side, identity, n - 1), keyed, KeyOf, k);
      FilterOne(OwnedHits(file, side.hits, n - 1), owned, NewKey(measured, partners), k);
    }
  }

  lemma AppendCounts<A, B, K>(a: seq<A>, b: seq<A>, c: seq<B>, d: seq<B>, keyA: A -> K, keyB: B -> K, k: K)
    requires Count(a, keyA, k) == Count(c, keyB, k) && Count(b, keyA, k) == Count(d, keyB, k)
    ensures Count(a + b, keyA, k) == Count(c + d, keyB, k)
  {
    FilterConcat(a, b, keyA, k);
    FilterConcat(c, d, keyB, k);
  }

  lemma OldSideAll(measured: seq<Sides>, identity: Identity, file: nat, k: Key)
    requires file < |measured| && UsableAt(file, measured[file], identity)
    ensures Count(OldSide(file, measured[file], identity), KeyOf, k) ==
            Count(SideHits(file, measured[file].before), OldKey(measured), k)
  {
    var before := measured[file].before;
    if before.Some? { OldSideCount(measured, file, |before.value.hits|, k); }
  }

  lemma NewSideAll(measured: seq<Sides>, identity: Identity, partners: Partners, file: nat, k: Key)
    requires Matched(measured, identity, partners) && file < |measured| && UsableAt(file, measured[file], identity)
    ensures Count(NewSide(file, measured[file], identity), KeyOf, k) ==
            Count(SideHits(file, measured[file].after), NewKey(measured, partners), k)
  {
    var after := measured[file].after;
    if after.Some? { NewSideCount(measured, identity, partners, file, |after.value.hits|, k); }
  }

  /** Under each key, the old hits of the first `n` pairs are as many as their owned hits. */
  ghost predicate OldAgree(measured: seq<Sides>, identity: Identity, n: nat, k: Key)
    requires Usable(measured, identity) && n <= |measured|
  {
    Count(OldHits(measured, identity, n), KeyOf, k) == Count(OldOwned(measured, n), OldKey(measured), k)
  }

  lemma OldNext(measured: seq<Sides>, identity: Identity, n: nat, k: Key)
    requires Usable(measured, identity) && n < |measured|
    requires OldAgree(measured, identity, n, k)
    ensures OldAgree(measured, identity, n + 1, k)
  {
    var hits, owned := OldHits(measured, identity, n), OldOwned(measured, n);
    var more, moreOwned := OldSide(n, measured[n], identity), SideHits(n, measured[n].before);
    OldSideAll(measured, identity, n, k);
    AppendCounts(hits, more, owned, moreOwned, KeyOf, OldKey(measured), k);
    assert OldHits(measured, identity, n + 1) == hits + more;
    assert OldOwned(measured, n + 1) == owned + moreOwned;
  }

  lemma {:induction false} OldCount(measured: seq<Sides>, identity: Identity, n: nat, k: Key)
    requires Usable(measured, identity) && n <= |measured|
    ensures OldAgree(measured, identity, n, k)
  {
    if n == 0 {
    } else {
      OldCount(measured, identity, n - 1, k);
      OldNext(measured, identity, n - 1, k);
    }
  }

  ghost predicate NewAgree(measured: seq<Sides>, identity: Identity, partners: Partners, n: nat, k: Key)
    requires Usable(measured, identity) && n <= |measured|
  {
    Count(NewHits(measured, identity, n), KeyOf, k) == Count(NewOwned(measured, n), NewKey(measured, partners), k)
  }

  lemma NewNext(measured: seq<Sides>, identity: Identity, partners: Partners, n: nat, k: Key)
    requires Usable(measured, identity) && Matched(measured, identity, partners) && n < |measured|
    requires NewAgree(measured, identity, partners, n, k)
    ensures NewAgree(measured, identity, partners, n + 1, k)
  {
    var hits, owned := NewHits(measured, identity, n), NewOwned(measured, n);
    var more, moreOwned := NewSide(n, measured[n], identity), SideHits(n, measured[n].after);
    NewSideAll(measured, identity, partners, n, k);
    AppendCounts(hits, more, owned, moreOwned, KeyOf, NewKey(measured, partners), k);
    assert NewHits(measured, identity, n + 1) == hits + more;
    assert NewOwned(measured, n + 1) == owned + moreOwned;
  }

  lemma {:induction false} NewCount(measured: seq<Sides>, identity: Identity, partners: Partners, n: nat, k: Key)
    requires Usable(measured, identity) && Matched(measured, identity, partners) && n <= |measured|
    ensures NewAgree(measured, identity, partners, n, k)
  {
    if n == 0 {
    } else {
      NewCount(measured, identity, partners, n - 1, k);
      NewNext(measured, identity, partners, n - 1, k);
    }
  }

  // ----- counts under a coarser key

  /** If each fine key is as frequent in `b` as in `a`, so is each key that it decides. */
  lemma {:induction false} CoarseCounts<T, C, K>(a: seq<T>, b: seq<T>, fineA: T -> C, fineB: T -> C,
                                                 keyA: T -> K, keyB: T -> K, k: K)
    requires forall c :: Count(a, fineA, c) <= Count(b, fineB, c)
    requires forall x, y :: fineA(x) == fineB(y) ==> keyA(x) == keyB(y)
    ensures Count(a, keyA, k) <= Count(b, keyB, k)
    decreases |a|
  {
    if a == [] {
    } else {
      var c := fineA(a[0]);
      assert a == [a[0]] + a[1..];
      FilterCons(a[0], a[1..], fineA, c);
      assert Count(a, fineA, c) <= Count(b, fineB, c);
      CountZero(b, fineB, c);
      var i :| 0 <= i < |b| && fineB(b[i]) == c;
      var rest := RemoveAt(b, i);
      forall d ensures Count(a[1..], fineA, d) <= Count(rest, fineB, d) {
        assert Count(a, fineA, d) <= Count(b, fineB, d);
        FilterCons(a[0], a[1..], fineA, d);
        CountRemove(b, i, fineB, d);
      }
      CoarseCounts(a[1..], rest, fineA, fineB, keyA, keyB, k);
      FilterCons(a[0], a[1..], keyA, k);
      CountRemove(b, i, keyB, k);
    }
  }

  lemma CountRemove<T, K>(s: seq<T>, i: nat, key: T -> K, k: K)
    requires i < |s|
    ensures Count(s, key, k) == Count(RemoveAt(s, i), key, k) + (if key(s[i]) == k then 1 else 0)
  {
    FilterConcat(s[..i], s[i + 1..], key, k);
    FilterConcat(s[..i], [s[i]] + s[i + 1..], key, k);
    FilterCons(s[i], s[i + 1..], key, k);
    assert s == s[..i] + ([s[i]] + s[i + 1..]);
  }

  lemma {:induction false} SameFilter<T, C, D>(s: seq<T>, a: T -> C, b: T -> D, c: C, d: D)
    requires forall x :: x in s ==> (a(x) == c <==> b(x) == d)
    ensures Filter(s, a, c) == Filter(s, b, d)
  {
    if s == [] {
    } else {
      assert s[0] in s;
      SameFilter(s[1..], a, b, c, d);
    }
  }

  // ----- the new hits, by where their owners come from

  /** The owner is a file or a unit of the new side. */
  predicate NewOwner(measured: seq<Sides>, owner: Owner)
  {
    owner.0 < |measured| && (owner.1.Some? ==> IsNew(measured, owner.0, owner.1.value))
  }

  lemma {:induction false} SideOwners(measured: seq<Sides>, file: nat, n: nat)
    requires file < |measured| && measured[file].after.Some? && Sound(measured[file].after.value)
    requires n <= |measured[file].after.value.hits|
    ensures forall x :: x in OwnedHits(file, measured[file].after.value.hits, n) ==> NewOwner(measured, x.owner)
  {
    if n == 0 {
    } else {
      SideOwners(measured, file, n - 1);
    }
  }

  lemma {:induction false} NewOwners(measured: seq<Sides>, identity: Identity, n: nat)
    requires Usable(measured, identity) && n <= |measured|
    ensures forall x :: x in NewOwned(measured, n) ==> NewOwner(measured, x.owner)
  {
    if n == 0 {
    } else {
      NewOwners(measured, identity, n - 1);
      var sides := measured[n - 1];
      if sides.after.Some? { SideOwners(measured, n - 1, |sides.after.value.hits|); }
    }
  }

  lemma OriginApart(measured: seq<Sides>, identity: Identity, partners: Partners, a: Owner, b: Owner)
    requires Matched(measured, identity, partners) && NewOwner(measured, a) && NewOwner(measured, b)
    ensures Origin(partners, a) == Origin(partners, b) ==> a == b
  {
  }

  lemma OriginCount(measured: seq<Sides>, identity: Identity, partners: Partners, tag: Tag)
    requires Usable(measured, identity) && Matched(measured, identity, partners) && NoHitGained(measured, partners)
    ensures Count(NewOwned(measured, |measured|), OriginTag(partners), tag) <=
            Count(OldOwned(measured, |measured|), TagOf, tag)
  {
    var news, origin := NewOwned(measured, |measured|), OriginTag(partners);
    NewOwners(measured, identity, |measured|);
    CountZero(news, origin, tag);
    if Count(news, origin, tag) > 0 {
      var one :| one in news && origin(one) == tag;
      forall x | x in news ensures origin(x) == tag <==> TagOf(x) == (one.owner, tag.1, tag.2) {
        OriginApart(measured, identity, partners, x.owner, one.owner);
      }
      SameFilter(news, origin, TagOf, tag, (one.owner, tag.1, tag.2));
    }
  }

  lemma MovedCount(measured: seq<Sides>, identity: Identity, partners: Partners, k: Key)
    requires Usable(measured, identity) && Matched(measured, identity, partners) && NoHitGained(measured, partners)
    ensures Count(NewOwned(measured, |measured|), NewKey(measured, partners), k) <=
            Count(OldOwned(measured, |measured|), OldKey(measured), k)
  {
    var news, olds, origin := NewOwned(measured, |measured|), OldOwned(measured, |measured|), OriginTag(partners);
    forall tag ensures Count(news, origin, tag) <= Count(olds, TagOf, tag) {
      OriginCount(measured, identity, partners, tag);
    }
    CoarseCounts(news, olds, origin, TagOf, NewKey(measured, partners), OldKey(measured), k);
  }

  /** A run whose units were only moved or renamed, each keeping its own old unit, and where neither a
      unit nor a module gained a hit, finds nothing. */
  lemma MovesFindNothing(measured: seq<Sides>, identity: Identity, partners: Partners)
    requires Usable(measured, identity) && Matched(measured, identity, partners) && NoHitGained(measured, partners)
    ensures var news, olds := NewHits(measured, identity, |measured|), OldHits(measured, identity, |measured|);
            Unpaired(news, KeyOf, Bag(olds, KeyOf)) == []
  {
    var news, olds := NewHits(measured, identity, |measured|), OldHits(measured, identity, |measured|);
    forall k ensures Bag(news, KeyOf)[k] <= Bag(olds, KeyOf)[k] {
      MovedCount(measured, identity, partners, k);
      OldCount(measured, identity, |measured|, k);
      NewCount(measured, identity, partners, |measured|, k);
      BagCounts(news, KeyOf, k);
      BagCounts(olds, KeyOf, k);
    }
    QuietExactlyWhenCarried(measured, identity);
  }
}
