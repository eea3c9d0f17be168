/** The best matches of a symbol search (crates/app/src/find.rs): a partial selection, a truncation
    and an unstable sort that together give the first entries of the full stable sort. */
module Find {
  import opened Orders

  datatype SymbolKind = Class | Function | Method | Constant | TypeAlias | Protocol | Dataclass | Enum | Decorator

  datatype Symbol = Symbol(name: string, parent: string, kind: SymbolKind)

  datatype Match = Match(path: string, symbol: Symbol)

  function Qualname(symbol: Symbol): string
  {
    if symbol.parent == "" then symbol.name else symbol.parent + "." + symbol.name
  }

  /** 0 for the name as written, 1 in another case, 2 for the qualified name, 3 for a prefix. */
  function MatchRank(symbol: Symbol, written: string, lower: string -> string): (nat, string)
  {
    var lowered, needle := lower(symbol.name), lower(written);
    var rank :=
      if symbol.name == written then 0
      else if lowered == needle then 1
      else if lower(Qualname(symbol)) == needle then 2
      else if needle <= lowered then 3
      else 4;
    (rank, lowered)
  }

  /** A match with its sort key; `at` is its place in the scan. */
  datatype Keyed = Keyed(rank: nat, lowered: string, path: string, at: nat, found: Match)

  function KeyedAt(matches: seq<Match>, written: string, lower: string -> string): seq<Keyed>
  {
    seq(|matches|, i requires 0 <= i < |matches| =>
      var (rank, lowered) := MatchRank(matches[i].symbol, written, lower);
      Keyed(rank, lowered, matches[i].path, i, matches[i]))
  }

  // ----- the order: rank, lowered name, path, and then the scan place

  predicate Before(a: Keyed, b: Keyed)
  {
    if a.rank != b.rank then a.rank < b.rank
    else if a.lowered != b.lowered then StrLe(a.lowered, b.lowered)
    else StrLe(a.path, b.path)
  }

  predicate SameKey(a: Keyed, b: Keyed) { a.rank == b.rank && a.lowered == b.lowered && a.path == b.path }

  predicate BeforeOrAt(a: Keyed, b: Keyed) { if SameKey(a, b) then a.at <= b.at else Before(a, b) }

  lemma BeforeTotal(a: Keyed, b: Keyed)
    ensures Before(a, b) || Before(b, a)
    ensures Before(a, b) && Before(b, a) ==> SameKey(a, b)
  {
    StrLeTotal(a.lowered, b.lowered);
    StrLeTotal(a.path, b.path);
    if StrLe(a.lowered, b.lowered) && StrLe(b.lowered, a.lowered) { StrLeAntisymmetric(a.lowered, b.lowered); }
    if StrLe(a.path, b.path) && StrLe(b.path, a.path) { StrLeAntisymmetric(a.path, b.path); }
  }

  lemma BeforeTransitive(a: Keyed, b: Keyed, c: Keyed)
    requires Before(a, b) && Before(b, c)
    ensures Before(a, c)
  {
    if StrLe(a.lowered, b.lowered) && StrLe(b.lowered, c.lowered) {
      StrLeTransitive(a.lowered, b.lowered, c.lowered);
      if a.lowered == c.lowered { StrLeAntisymmetric(a.lowered, b.lowered); }
    }
    if StrLe(a.path, b.path) && StrLe(b.path, c.path) { StrLeTransitive(a.path, b.path, c.path); }
  }

  lemma KeyOrders()
    ensures TotalPreorder(Before)
    ensures TotalPreorder(BeforeOrAt)
  {
    forall a, b ensures Before(a, b) || Before(b, a) { BeforeTotal(a, b); }
    forall a, b ensures BeforeOrAt(a, b) || BeforeOrAt(b, a) { BeforeTotal(a, b); }
    forall a, b, c | Before(a, b) && Before(b, c) ensures Before(a, c) { BeforeTransitive(a, b, c); }
    forall a, b, c | BeforeOrAt(a, b) && BeforeOrAt(b, c) ensures BeforeOrAt(a, c) {
      BeforeTotal(a, b);
      BeforeTotal(b, c);
      BeforeTotal(a, c);
      assert Before(a, b) && Before(b, c);
      BeforeTransitive(a, b, c);
    }
  }

  /** The keys of one scan separate its entries. */
  lemma KeysSeparate(s: seq<Keyed>)
    requires forall i, j :: 0 <= i < j < |s| ==> s[i].at != s[j].at
    ensures Separates(s, BeforeOrAt)
  {
    forall i, j | 0 <= i < |s| && 0 <= j < |s| && BeforeOrAt(s[i], s[j]) && BeforeOrAt(s[j], s[i])
      ensures s[i] == s[j]
    {
      BeforeTotal(s[i], s[j]);
    }
  }

  // ----- a stable sort breaks ties by the scan place

  predicate Rising(s: seq<Keyed>) { forall i, j :: 0 <= i < j < |s| ==> s[i].at < s[j].at }

  lemma InsertedFrom(x: Keyed, s: seq<Keyed>, y: Keyed)
    requires y in Insert(x, s, Before)
    ensures y == x || y in s
  {
    assert y in multiset([x] + s);
    assert y in [x] + s;
  }

  lemma {:induction false} InsertStable(x: Keyed, s: seq<Keyed>)
    requires SortedBy(s, BeforeOrAt)
    requires forall i :: 0 <= i < |s| ==> x.at < s[i].at
    ensures SortedBy(Insert(x, s, Before), BeforeOrAt)
  {
    KeyOrders();
    if s != [] {
      BeforeTotal(x, s[0]);
      if Before(x, s[0]) {
        forall i | 0 <= i < |s| ensures BeforeOrAt(x, s[i]) {
          assert i > 0 ==> BeforeOrAt(s[0], s[i]);
          assert BeforeOrAt(x, s[0]);
        }
      } else {
        InsertStable(x, s[1..]);
        var rest := Insert(x, s[1..], Before);
        forall i | 0 <= i < |rest| ensures BeforeOrAt(s[0], rest[i]) {
          InsertedFrom(x, s[1..], rest[i]);
        }
      }
    }
  }

  lemma {:induction false} StableByPlace(s: seq<Keyed>)
    requires Rising(s)
    ensures SortedBy(SortBy(s, Before), BeforeOrAt)
  {
    if s == [] {
    } else {
      StableByPlace(s[1..]);
      var rest := SortBy(s[1..], Before);
      forall i | 0 <= i < |rest| ensures s[0].at < rest[i].at {
        SortByMembers(s[1..], Before);
        assert rest[i] in rest && rest[i] in s[1..];
      }
      InsertStable(s[0], rest);
    }
  }

  // ----- the primitives, by what they promise

  /** `select_nth_unstable_by`: any arrangement with the `n`th entry in its place. */
  ghost predicate Selected<T>(s: seq<T>, n: nat, le: (T, T) -> bool, r: seq<T>)
  {
    && multiset(r) == multiset(s) && n < |r|
    && (forall i :: 0 <= i < n ==> le(r[i], r[n]))
    && (forall i :: n < i < |r| ==> le(r[n], r[i]))
  }

  method SelectNth(s: seq<Keyed>, n: nat) returns (r: seq<Keyed>)
    requires n < |s|
    ensures Selected(s, n, BeforeOrAt, r)
  {
    KeyOrders();
    SortBySorted(s, BeforeOrAt);
    r := SortBy(s, BeforeOrAt);
  }

  /** `sort_unstable_by`: any arrangement in order. */
  method SortUnstable(s: seq<Keyed>) returns (r: seq<Keyed>)
    ensures multiset(r) == multiset(s) && SortedBy(r, BeforeOrAt)
  {
    KeyOrders();
    SortBySorted(s, BeforeOrAt);
    r := SortBy(s, BeforeOrAt);
  }

  /** Everything before the selected place precedes everything from it on. */
  lemma SelectedSplits<T(!new)>(s: seq<T>, n: nat, le: (T, T) -> bool, r: seq<T>, a: T, b: T)
    requires TotalPreorder(le) && Selected(s, n, le, r)
    requires a in multiset(r[..n]) && b in multiset(r[n..])
    ensures le(a, b)
  {
  }

  lemma FrontThenTail<T(!new)>(s: seq<T>, n: nat, le: (T, T) -> bool, r: seq<T>, front: seq<T>, tail: seq<T>)
    requires TotalPreorder(le) && Selected(s, n, le, r)
    requires multiset(front) == multiset(r[..n]) && SortedBy(front, le)
    requires multiset(tail) == multiset(r[n..]) && SortedBy(tail, le)
    ensures SortedBy(front + tail, le) && multiset(front + tail) == multiset(s) && |front| == n
  {
    var whole := front + tail;
    forall i, j | 0 <= i < j < |whole| ensures le(whole[i], whole[j]) {
      if i < |front| <= j {
        assert front[i] in multiset(front) && tail[j - |front|] in multiset(tail);
        SelectedSplits(s, n, le, r, front[i], tail[j - |front|]);
      }
    }
    assert r == r[..n] + r[n..];
    SameLength(front, r[..n]);
  }

  /** Every arrangement in key order is the stable sort. */
  lemma AnyOrderIsStable(s: seq<Keyed>, sorted: seq<Keyed>)
    requires Rising(s) && multiset(sorted) == multiset(s) && SortedBy(sorted, BeforeOrAt)
    ensures sorted == SortBy(s, Before)
  {
    KeyOrders();
    StableByPlace(s);
    KeysSeparate(s);
    SeparatesSorted(s, SortBy(s, Before));
    SortedUnique(SortBy(s, Before), sorted, BeforeOrAt);
  }

  /** Whatever the selection and the sort choose, the kept entries are the front of the full sort. */
  lemma SelectionIsFront(s: seq<Keyed>, limit: nat, chosen: seq<Keyed>, kept: seq<Keyed>)
    requires limit < |s| && Rising(s)
    requires Selected(s, limit, BeforeOrAt, chosen)
    requires multiset(kept) == multiset(chosen[..limit]) && SortedBy(kept, BeforeOrAt)
    ensures |kept| == limit && kept == SortBy(s, Before)[..limit]
  {
    KeyOrders();
    var tail := SortBy(chosen[limit..], BeforeOrAt);
    SortBySorted(chosen[limit..], BeforeOrAt);
    FrontThenTail(s, limit, BeforeOrAt, chosen, kept, tail);
    AnyOrderIsStable(s, kept + tail);
    assert (kept + tail)[..limit] == kept;
  }

  lemma SeparatesSorted(s: seq<Keyed>, t: seq<Keyed>)
    requires Separates(s, BeforeOrAt) && multiset(s) == multiset(t)
    ensures Separates(t, BeforeOrAt)
  {
    forall i, j | 0 <= i < |t| && 0 <= j < |t| && BeforeOrAt(t[i], t[j]) && BeforeOrAt(t[j], t[i])
      ensures t[i] == t[j]
    {
      assert t[i] in multiset(s) && t[j] in multiset(s);
      var a :| 0 <= a < |s| && s[a] == t[i];
      var b :| 0 <= b < |s| && s[b] == t[j];
    }
  }

  function Founds(keyed: seq<Keyed>): seq<Match>
  {
    seq(|keyed|, i requires 0 <= i < |keyed| => keyed[i].found)
  }

  // ----- what the order means for the matches

  /** The name is the query as the caller wrote it. */
  predicate AsWritten(m: Match, written: string) { m.symbol.name == written }

  predicate OtherCase(m: Match, written: string, lower: string -> string)
  {
    lower(m.symbol.name) == lower(written)
  }

  predicate QualifiedName(m: Match, written: string, lower: string -> string)
  {
    lower(if m.symbol.parent == "" then m.symbol.name else m.symbol.parent + "." + m.symbol.name) == lower(written)
  }

  predicate StartsWith(m: Match, written: string, lower: string -> string)
  {
    |lower(written)| <= |lower(m.symbol.name)| && lower(m.symbol.name)[..|lower(written)|] == lower(written)
  }

  /** `a` is of an earlier class than `b`: as written, in another case, by qualified name, by prefix, or
      none of these. */
  ghost predicate EarlierClass(a: Match, b: Match, written: string, lower: string -> string)
  {
    if AsWritten(a, written) || AsWritten(b, written) then !AsWritten(b, written)
    else if OtherCase(a, written, lower) || OtherCase(b, written, lower) then !OtherCase(b, written, lower)
    else if QualifiedName(a, written, lower) || QualifiedName(b, written, lower) then
      !QualifiedName(b, written, lower)
    else StartsWith(a, written, lower) && !StartsWith(b, written, lower)
  }

  /** Match `i` comes before match `j`: by class, and inside a class by lowered name, path and scan place. */
  ghost predicate Precedes(matches: seq<Match>, written: string, lower: string -> string, i: nat, j: nat)
    requires i < |matches| && j < |matches|
  {
    var a, b := matches[i], matches[j];
    var nameA, nameB := lower(a.symbol.name), lower(b.symbol.name);
    || EarlierClass(a, b, written, lower)
    || (!EarlierClass(b, a, written, lower) &&
        (if nameA != nameB then LexLe(nameA, nameB) else if a.path != b.path then LexLe(a.path, b.path) else i <= j))
  }

  /** The cards are the matches at `places`, in order, and every match left out comes after each of them. */
  ghost predicate IsTop(matches: seq<Match>, written: string, lower: string -> string, cards: seq<Match>,
                        places: seq<nat>)
  {
    && |places| == |cards| && Distinct(places)
    && (forall k :: 0 <= k < |places| ==> places[k] < |matches| && cards[k] == matches[places[k]])
    && (forall k, l :: 0 <= k < l < |places| ==> Precedes(matches, written, lower, places[k], places[l]))
    && (forall k, j: nat :: 0 <= k < |places| && j < |matches| && j !in places ==>
          Precedes(matches, written, lower, places[k], j))
  }

  lemma BeforeMeans(matches: seq<Match>, written: string, lower: string -> string, i: nat, j: nat)
    requires i < |matches| && j < |matches|
    requires var all := KeyedAt(matches, written, lower); BeforeOrAt(all[i], all[j])
    ensures Precedes(matches, written, lower, i, j)
  {
    StrLeIsLex(lower(matches[i].symbol.name), lower(matches[j].symbol.name));
    StrLeIsLex(matches[i].path, matches[j].path);
  }

  function Places(keyed: seq<Keyed>): seq<nat>
  {
    seq(|keyed|, i requires 0 <= i < |keyed| => keyed[i].at)
  }

  /** A sorted arrangement of the keyed matches holds each match once, at its place. */
  lemma SortedPlaces(matches: seq<Match>, written: string, lower: string -> string, sorted: seq<Keyed>)
    requires multiset(sorted) == multiset(KeyedAt(matches, written, lower))
    ensures |sorted| == |matches| && Distinct(Places(sorted))
    ensures forall k :: 0 <= k < |sorted| ==>
              sorted[k].at < |matches| && sorted[k] == KeyedAt(matches, written, lower)[sorted[k].at]
    ensures forall j: nat :: j < |matches| ==> j in Places(sorted)
  {
    var all := KeyedAt(matches, written, lower);
    SameLength(all, sorted);
    forall k | 0 <= k < |sorted| ensures sorted[k].at < |matches| && sorted[k] == all[sorted[k].at] {
      assert sorted[k] in multiset(sorted) && sorted[k] in all;
    }
    forall i, j | 0 <= i < j < |all| ensures all[i] != all[j] { assert all[i].at != all[j].at; }
    DistinctFromMultiset(all, sorted);
    forall k, l | 0 <= k < l < |sorted| ensures Places(sorted)[k] != Places(sorted)[l] {
      assert sorted[k] != sorted[l];
    }
    forall j: nat | j < |matches| ensures j in Places(sorted) {
      assert all[j] in multiset(all) && all[j] in sorted;
      var k :| 0 <= k < |sorted| && sorted[k] == all[j];
      assert Places(sorted)[k] == j;
    }
  }

  lemma SortedPrecede(matches: seq<Match>, written: string, lower: string -> string, sorted: seq<Keyed>, k: nat, l: nat)
    requires multiset(sorted) == multiset(KeyedAt(matches, written, lower)) && SortedBy(sorted, BeforeOrAt)
    requires k < l < |sorted|
    ensures sorted[k].at < |matches| && sorted[l].at < |matches|
    ensures Precedes(matches, written, lower, sorted[k].at, sorted[l].at)
  {
    SortedPlaces(matches, written, lower, sorted);
    assert BeforeOrAt(sorted[k], sorted[l]);
    BeforeMeans(matches, written, lower, sorted[k].at, sorted[l].at);
  }

  lemma LeftOutLater(sorted: seq<Keyed>, limit: nat, j: nat) returns (l: nat)
    requires limit <= |sorted| && j in Places(sorted) && j !in Places(sorted[..limit])
    ensures limit <= l < |sorted| && sorted[l].at == j
  {
    var front := Places(sorted[..limit]);
    assert forall k :: 0 <= k < limit ==> front[k] in front && front[k] == Places(sorted)[k];
    l :| 0 <= l < |sorted| && Places(sorted)[l] == j;
  }

  /** The front of a sorted arrangement is the top of the matches. */
  lemma FrontIsTop(matches: seq<Match>, written: string, lower: string -> string, sorted: seq<Keyed>, limit: nat)
    requires multiset(sorted) == multiset(KeyedAt(matches, written, lower)) && SortedBy(sorted, BeforeOrAt)
    requires limit <= |matches|
    ensures limit <= |sorted|
    ensures IsTop(matches, written, lower, Founds(sorted[..limit]), Places(sorted[..limit]))
  {
    SortedPlaces(matches, written, lower, sorted);
    var places := Places(sorted[..limit]);
    assert forall k :: 0 <= k < limit ==> places[k] == Places(sorted)[k] == sorted[k].at;
    forall k, l | 0 <= k < l < limit ensures Precedes(matches, written, lower, places[k], places[l]) {
      SortedPrecede(matches, written, lower, sorted, k, l);
    }
    forall k, j: nat | 0 <= k < limit && j < |matches| && j !in places
      ensures Precedes(matches, written, lower, places[k], j)
    {
      var l := LeftOutLater(sorted, limit, j);
      SortedPrecede(matches, written, lower, sorted, k, l);
    }
  }

  /** The cards: the first `limit` matches by class, lowered name, path and scan place. */
  method TopCards(matches: seq<Match>, written: string, lower: string -> string, limit: nat) returns (cards: seq<Match>)
    ensures cards == Founds(SortBy(KeyedAt(matches, written, lower), Before)[..Min(limit, |matches|)])
    ensures |cards| == Min(limit, |matches|) && exists places :: IsTop(matches, written, lower, cards, places)
  {
    var all := KeyedAt(matches, written, lower);
    var keyed := all;
    ghost var chosen := all;
    if |keyed| > limit {
      keyed := SelectNth(keyed, limit);
      chosen := keyed;
      keyed := keyed[..limit];
    }
    keyed := SortUnstable(keyed);
    if |all| > limit {
      SelectionIsFront(all, limit, chosen, keyed);
    } else {
      AnyOrderIsStable(all, keyed);
      assert SortBy(all, Before)[..|all|] == SortBy(all, Before);
    }
    cards := Founds(keyed);
    TopFound(matches, written, lower, limit);
  }

  lemma TopFound(matches: seq<Match>, written: string, lower: string -> string, limit: nat)
    ensures var sorted := SortBy(KeyedAt(matches, written, lower), Before);
            && |sorted| == |matches|
            && exists places :: IsTop(matches, written, lower, Founds(sorted[..Min(limit, |matches|)]), places)
  {
    StableByPlace(KeyedAt(matches, written, lower));
    FrontIsTop(matches, written, lower, SortBy(KeyedAt(matches, written, lower), Before), Min(limit, |matches|));
  }
}
