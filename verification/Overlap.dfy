/** The rows of `callee_overlap` (crates/checks/src/callees.rs): the three best functions that meet the
    rule with a small family, and one row for a mutual pair. */
module Overlap {
  import opened Options
  import opened Orders
  import opened Callees

  // ----- the families

  type Counts = map<nat, nat>

  function CountFor(counts: Counts, h: nat): nat { if h in counts then counts[h] else 0 }

  /** `counts` is `counts0` with one more for each entry of `list`. */
  ghost predicate Counted(counts0: Counts, counts: Counts, list: seq<(nat, nat)>)
  {
    && (forall h: nat :: CountFor(counts, h) == CountFor(counts0, h) + |Pushed(list, h, 0)|)
    && (forall h: nat :: h in counts ==> h in counts0 || |Pushed(list, h, 0)| > 0)
  }

  lemma CountedNext(counts0: Counts, counts: Counts, list: seq<(nat, nat)>, entry: (nat, nat))
    requires Counted(counts0, counts, list)
    ensures Counted(counts0, counts[entry.0 := CountFor(counts, entry.0) + 1], list + [entry])
  {
  }

  method CountList(list: seq<(nat, nat)>, counts0: Counts) returns (counts: Counts)
    ensures Counted(counts0, counts, list)
  {
    counts := counts0;
    for i := 0 to |list|
      invariant Counted(counts0, counts, list[..i])
    {
      CountedNext(counts0, counts, list[..i], list[i]);
      assert list[..i + 1] == list[..i] + [list[i]];
      counts := counts[list[i].0 := CountFor(counts, list[i].0) + 1];
    }
    assert list[..|list|] == list;
  }

  /** `counts` numbers the callees that each function shares with `mine`. */
  ghost predicate Numbers(counts: Counts, functions: seq<TreeFunction>, mine: seq<Callee>)
  {
    && (forall h: nat :: CountFor(counts, h) == |SlotsWith(functions, mine, h)|)
    && (forall h: nat :: h in counts ==> h < |functions|)
  }

  lemma NumbersNext(functions: seq<TreeFunction>, callees: seq<Callee>, slot: nat, before: Counts, counts: Counts,
                    list: seq<(nat, nat)>)
    requires slot < |callees| && Numbers(before, functions, callees[..slot])
    requires Counted(before, counts, list)
    requires forall h: nat :: |Pushed(list, h, 0)| == |PairFor(functions, callees[slot].id, h, slot)|
    ensures Numbers(counts, functions, callees[..slot + 1])
  {
    forall h: nat
      ensures CountFor(counts, h) == |SlotsWith(functions, callees[..slot + 1], h)|
      ensures h in counts ==> h < |functions|
    {
      SlotsNext(functions, callees, slot, h);
      assert CountFor(counts, h) == CountFor(before, h) + |Pushed(list, h, 0)|;
    }
  }

  method CountShared(functions: seq<TreeFunction>, callers: Callers, g: nat) returns (counts: Counts)
    requires Indexes(callers, functions) && g < |functions|
    ensures Numbers(counts, functions, functions[g].callees)
  {
    counts := map[];
    var callees := functions[g].callees;
    for slot := 0 to |callees|
      invariant Numbers(counts, functions, callees[..slot])
    {
      var id := callees[slot].id;
      var list := Lookup(callers, id);
      ghost var before := counts;
      counts := CountList(list, counts);
      forall h: nat ensures |Pushed(list, h, 0)| == |PairFor(functions, id, h, slot)| {
        PushedCallers(functions, id, h, 0);
        if h < |functions| { SameCount(functions[h].callees, 0, slot, id); }
      }
      NumbersNext(functions, callees, slot, before, counts, list);
    }
    assert callees[..|callees|] == callees;
  }

  /** The slots the index finds number the callees the sets share. */
  lemma SlotsAreShared(functions: seq<TreeFunction>, f: nat, g: nat)
    requires AllProper(functions) && f < |functions| && g < |functions|
    ensures |SlotsWith(functions, functions[f].callees, g)| == Shared(functions, f, g) == Shared(functions, g, f)
  {
    assert Proper(functions[f]) && Proper(functions[g]);
    SharedSlotsCount(functions[f].callees, functions[g].callees);
    var a, b := Ids(functions[f].callees), Ids(functions[g].callees);
    assert a * b == b * a;
  }

  method Spells(one: TreeFunction, name: string) returns (found: bool)
    requires Proper(one)
    ensures found <==> name in one.spelled
  {
    StrLeIsTotalOrder();
    found := BinarySearch(one.spelled, name, StrLe);
  }

  /** The rule, given the number of callees that f and g share. */
  method MeetsRule(functions: seq<TreeFunction>, f: nat, g: nat, shared: nat) returns (ok: bool)
    requires AllProper(functions) && f < |functions| && g < |functions|
    requires shared == Shared(functions, f, g)
    ensures ok <==> Meets(functions, f, g)
  {
    var total := |functions[g].callees|;
    var spelled := Spells(functions[f], functions[g].name);
    ok := total >= MIN_CALLEES && SHARE_WHOLE * shared >= SHARE_PARTS * total && !spelled;
  }

  predicate NatLe(a: nat, b: nat) { a <= b }

  ghost predicate IsMemberList(functions: seq<TreeFunction>, g: nat, list: seq<nat>)
    requires g < |functions|
  {
    SortedBy(list, NatLe) && Distinct(list) && forall h: nat :: h in list <==> h in MembersOf(functions, g)
  }

  method Members(functions: seq<TreeFunction>, callers: Callers, g: nat) returns (members: seq<nat>)
    requires AllProper(functions) && Indexes(callers, functions) && g < |functions|
    ensures IsMemberList(functions, g, members)
  {
    var counts := CountShared(functions, callers, g);
    var list: seq<nat> := [];
    var todo := counts.Keys;
    while todo != {}
      invariant todo <= counts.Keys && Distinct(list)
      invariant forall h: nat :: h in list <==> h in counts.Keys - todo && h in MembersOf(functions, g)
    {
      var h :| h in todo;
      SlotsAreShared(functions, g, h);
      assert CountFor(counts, h) == |SlotsWith(functions, functions[g].callees, h)|;
      if h != g {
        var ok := MeetsRule(functions, h, g, counts[h]);
        if ok {
          DistinctAppend(list, [h]);
          list := list + [h];
        }
      }
      todo := todo - {h};
    }
    forall h: nat | h in MembersOf(functions, g) ensures h in counts {
      SlotsAreShared(functions, g, h);
      assert CountFor(counts, h) == |SlotsWith(functions, functions[g].callees, h)|;
    }
    SortBySorted(list, NatLe);
    SortByMembers(list, NatLe);
    members := SortBy(list, NatLe);
    DistinctFromMultiset(list, members);
  }

  lemma {:induction false} ListSize(list: seq<nat>, members: set<nat>)
    requires Distinct(list) && forall h: nat :: h in list <==> h in members
    ensures |list| == |members|
  {
    if list == [] {
      assert members == {};
    } else {
      var last := |list| - 1;
      var front, x := list[..last], list[last];
      forall h: nat ensures h in front <==> h in members - {x} {
        assert list == front + [x];
      }
      ListSize(front, members - {x});
      assert x in members;
    }
  }

  lemma FamilySize(functions: seq<TreeFunction>, g: nat, f: nat, list: seq<nat>)
    requires g < |functions| && IsMemberList(functions, g, list)
    ensures |list| == FamilyOf(functions, g, f) + (if f in list then 1 else 0)
  {
    var members := MembersOf(functions, g);
    ListSize(list, members);
    if f in list {
      assert members == (members - {f}) + {f};
    } else {
      assert members - {f} == members;
    }
  }

  /** The member lists found so far in a run. */
  class Families {
    var members: map<nat, seq<nat>>

    ghost predicate Valid(functions: seq<TreeFunction>)
      reads this
    {
      forall g :: g in members ==> g < |functions| && IsMemberList(functions, g, members[g])
    }

    constructor ()
      ensures members == map[]
    {
      members := map[];
    }

    /** How many functions besides f and g meet the rule for g, whatever was asked before. */
    method Of(functions: seq<TreeFunction>, callers: Callers, g: nat, f: nat) returns (family: nat)
      requires AllProper(functions) && Indexes(callers, functions) && g < |functions|
      requires Valid(functions)
      modifies this
      ensures Valid(functions)
      ensures family == FamilyOf(functions, g, f)
    {
      if g !in members {
        var list := Members(functions, callers, g);
        members := members[g := list];
      }
      var found := BinarySearch(members[g], f, NatLe);
      FamilySize(functions, g, f, members[g]);
      family := |members[g]| - (if found then 1 else 0);
    }
  }

  // ----- the rows of one unit

  /** One candidate row: the unit's function and an existing function it overlaps. */
  datatype Row = Row(unit: nat, other: nat, shared: seq<(nat, nat)>, family: nat)

  /** The slots of the callees that the names spell. */
  ghost function SpelledSlots(callees: seq<Callee>, names: set<string>): set<nat>
  {
    set slot: nat | slot < |callees| && callees[slot].name in names
  }

  function NamedIn(callees: seq<Callee>, names: set<string>): (count: nat)
    ensures count == |SpelledSlots(callees, names)|
  {
    if callees == [] then
      assert SpelledSlots(callees, names) == {};
      0
    else
      var last := |callees| - 1;
      assert SpelledSlots(callees, names) ==
             SpelledSlots(callees[..last], names) + (if callees[last].name in names then {last} else {});
      NamedIn(callees[..last], names) + (if callees[last].name in names then 1 else 0)
  }

  /** The old body already spelled four fifths of g's callee names. */
  ghost predicate OldMet(names: set<string>, g: TreeFunction)
  {
    5 * |SpelledSlots(g.callees, names)| >= 4 * |g.callees|
  }

  predicate SpelledEnough(names: set<string>, g: TreeFunction)
    ensures SpelledEnough(names, g) <==> OldMet(names, g)
  {
    SHARE_WHOLE * NamedIn(g.callees, names) >= SHARE_PARTS * |g.callees|
  }

  /** g gives the unit a row: the rule holds, the rewrite made it hold, and the family is small. */
  ghost predicate Eligible(functions: seq<TreeFunction>, f: nat, before: Option<set<string>>, g: nat)
    requires f < |functions|
  {
    && g < |functions| && g != f && Meets(functions, f, g)
    && !(before.Some? && OldMet(before.value, functions[g]))
    && FamilyOf(functions, g, f) < 5
  }

  ghost function RowFor(functions: seq<TreeFunction>, f: nat, g: nat): Row
    requires f < |functions| && g < |functions|
  {
    Row(f, g, SharedSlots(functions[f].callees, functions[g].callees), FamilyOf(functions, g, f))
  }

  datatype Rank = Rank(shared: nat, callees: nat, path: string, line: nat, other: nat)

  function RankOf(functions: seq<TreeFunction>, row: Row): Rank
  {
    if row.other < |functions| then
      var other := functions[row.other];
      Rank(|row.shared|, |other.callees|, other.path, other.line, row.other)
    else Rank(|row.shared|, 0, "", 0, row.other)
  }

  /** More shared callees first, then the larger set, then path, line and tree order. */
  predicate RankLe(a: Rank, b: Rank)
  {
    if a.shared != b.shared then a.shared > b.shared
    else if a.callees != b.callees then a.callees > b.callees
    else if a.path != b.path then StrLe(a.path, b.path)
    else if a.line != b.line then a.line < b.line
    else a.other <= b.other
  }

  function ByRank(functions: seq<TreeFunction>): (Row, Row) -> bool
  {
    (a: Row, b: Row) => RankLe(RankOf(functions, a), RankOf(functions, b))
  }

  lemma RankIsTotalOrder()
    ensures TotalPreorder(RankLe) && Antisymmetric(RankLe)
  {
    StrLeIsTotalOrder();
    forall a, b, c | RankLe(a, b) && RankLe(b, c) ensures RankLe(a, c) {
      if a.path != b.path && a.path == c.path && StrLe(a.path, b.path) && StrLe(b.path, c.path) {
        StrLeAntisymmetric(a.path, b.path);
      }
    }
  }

  lemma ByRankIsPreorder(functions: seq<TreeFunction>)
    ensures TotalPreorder(ByRank(functions))
  {
    RankIsTotalOrder();
  }

  /** Every row the unit has, once, in rank order. */
  ghost predicate IsRanking(functions: seq<TreeFunction>, f: nat, before: Option<set<string>>, rows: seq<Row>)
    requires f < |functions|
  {
    && SortedBy(rows, ByRank(functions))
    && Gathers(functions, f, before, rows, Below(|functions|))
  }

  /** The rows of the eligible functions in `from`, each once. */
  ghost predicate Gathers(functions: seq<TreeFunction>, f: nat, before: Option<set<string>>, rows: seq<Row>,
                          from: set<nat>)
    requires f < |functions|
  {
    && Distinct(rows)
    && (forall row :: row in rows <==>
          row.other in from && Eligible(functions, f, before, row.other) && row == RowFor(functions, f, row.other))
  }

  /** The ranking is one sequence, so no hash order can change it. */
  lemma RankingUnique(functions: seq<TreeFunction>, f: nat, before: Option<set<string>>, a: seq<Row>, b: seq<Row>)
    requires f < |functions|
    requires IsRanking(functions, f, before, a) && IsRanking(functions, f, before, b)
    ensures a == b
  {
    ByRankIsPreorder(functions);
    forall row ensures multiset(a)[row] == multiset(b)[row] {
      DistinctCount(a, row);
      DistinctCount(b, row);
    }
    assert multiset(a) == multiset(b);
    RankIsTotalOrder();
    forall i, j | 0 <= i < |a| && 0 <= j < |a| && ByRank(functions)(a[i], a[j]) && ByRank(functions)(a[j], a[i])
      ensures a[i] == a[j]
    {
      assert a[i] in a && a[j] in a;
    }
    SortedUnique(a, b, ByRank(functions));
  }

  method RowOf(functions: seq<TreeFunction>, callers: Callers, f: nat, before: Option<set<string>>, g: nat,
               pairs: seq<(nat, nat)>, families: Families) returns (row: Option<Row>)
    requires AllProper(functions) && Indexes(callers, functions) && f < |functions| && g < |functions|
    requires pairs == SharedSlots(functions[f].callees, functions[g].callees)
    requires families.Valid(functions)
    modifies families
    ensures families.Valid(functions)
    ensures row.Some? <==> Eligible(functions, f, before, g)
    ensures row.Some? ==> row.value == RowFor(functions, f, g)
  {
    SlotsAreShared(functions, f, g);
    if g == f {
      return None;
    }
    var ok := MeetsRule(functions, f, g, |pairs|);
    if !ok || (before.Some? && SpelledEnough(before.value, functions[g])) {
      return None;
    }
    var family := families.Of(functions, callers, g, f);
    if family < FAMILY_LIMIT {
      return Some(Row(f, g, pairs, family));
    }
    return None;
  }

  lemma GathersNext(functions: seq<TreeFunction>, f: nat, before: Option<set<string>>, rows: seq<Row>, from: set<nat>,
                    g: nat, row: Option<Row>)
    requires f < |functions| && g < |functions| && g !in from
    requires Gathers(functions, f, before, rows, from)
    requires row.Some? <==> Eligible(functions, f, before, g)
    requires row.Some? ==> row.value == RowFor(functions, f, g)
    ensures Gathers(functions, f, before, if row.Some? then rows + [row.value] else rows, from + {g})
  {
  }

  function Below(n: nat): (r: set<nat>)
    ensures forall g: nat :: g in r <==> g < n
  {
    if n == 0 then {} else Below(n - 1) + {n - 1}
  }

  ghost function RowOnce(functions: seq<TreeFunction>, f: nat, before: Option<set<string>>, g: nat): seq<Row>
    requires f < |functions| && g < |functions|
  {
    if Eligible(functions, f, before, g) then [RowFor(functions, f, g)] else []
  }

  /** The rows of the eligible functions among the first `n`, in tree order. */
  ghost function EligibleRows(functions: seq<TreeFunction>, f: nat, before: Option<set<string>>, n: nat): seq<Row>
    requires f < |functions| && n <= |functions|
  {
    if n == 0 then [] else EligibleRows(functions, f, before, n - 1) + RowOnce(functions, f, before, n - 1)
  }

  /** The three best rows of one unit: the eligible functions by the direct rule, in rank order. */
  ghost function Best(functions: seq<TreeFunction>, f: nat, before: Option<set<string>>): seq<Row>
    requires f < |functions|
  {
    var ranking := SortBy(EligibleRows(functions, f, before, |functions|), ByRank(functions));
    ranking[..Min(3, |ranking|)]
  }

  ghost predicate GatheredTo(functions: seq<TreeFunction>, f: nat, before: Option<set<string>>, n: nat)
    requires f < |functions| && n <= |functions|
  {
    Gathers(functions, f, before, EligibleRows(functions, f, before, n), Below(n))
  }

  lemma GatheredStart(functions: seq<TreeFunction>, f: nat, before: Option<set<string>>)
    requires f < |functions|
    ensures GatheredTo(functions, f, before, 0)
  {
    var rows := EligibleRows(functions, f, before, 0);
    assert rows == [] && Below(0) == {};
  }

  lemma GatheredNext(functions: seq<TreeFunction>, f: nat, before: Option<set<string>>, n: nat)
    requires f < |functions| && n < |functions| && GatheredTo(functions, f, before, n)
    ensures GatheredTo(functions, f, before, n + 1)
  {
    var earlier := EligibleRows(functions, f, before, n);
    assert Below(n + 1) == Below(n) + {n};
    if Eligible(functions, f, before, n) {
      GathersNext(functions, f, before, earlier, Below(n), n, Some(RowFor(functions, f, n)));
    } else {
      GathersNext(functions, f, before, earlier, Below(n), n, None);
      assert earlier + [] == earlier;
    }
  }

  lemma {:induction false} EligibleGathered(functions: seq<TreeFunction>, f: nat, before: Option<set<string>>, n: nat)
    requires f < |functions| && n <= |functions|
    ensures GatheredTo(functions, f, before, n)
  {
    if n == 0 {
      GatheredStart(functions, f, before);
    } else {
      var m := n - 1;
      EligibleGathered(functions, f, before, m);
      GatheredNext(functions, f, before, m);
    }
  }

  /** Whatever ranking a run finds, its front is the three best rows. */
  lemma BestOfRanking(functions: seq<TreeFunction>, f: nat, before: Option<set<string>>, ranking: seq<Row>)
    requires f < |functions| && IsRanking(functions, f, before, ranking)
    ensures ranking[..Min(3, |ranking|)] == Best(functions, f, before)
  {
    var rows := EligibleRows(functions, f, before, |functions|);
    EligibleGathered(functions, f, before, |functions|);
    RankedRows(functions, f, before, rows);
    RankingUnique(functions, f, before, ranking, SortBy(rows, ByRank(functions)));
  }

  lemma RankedRows(functions: seq<TreeFunction>, f: nat, before: Option<set<string>>, rows: seq<Row>)
    requires f < |functions| && Gathers(functions, f, before, rows, Below(|functions|))
    ensures IsRanking(functions, f, before, SortBy(rows, ByRank(functions)))
  {
    ByRankIsPreorder(functions);
    SortBySorted(rows, ByRank(functions));
    SortByMembers(rows, ByRank(functions));
    DistinctFromMultiset(rows, SortBy(rows, ByRank(functions)));
  }

  /** Row `a` goes ahead of row `b`: more shared callees, then the larger callee set, then the path in byte
      order, the line and the place in the tree. */
  ghost predicate Ahead(functions: seq<TreeFunction>, a: Row, b: Row)
    requires a.other < |functions| && b.other < |functions|
  {
    var f, g := functions[a.other], functions[b.other];
    || |a.shared| > |b.shared|
    || (|a.shared| == |b.shared| &&
         (|| |f.callees| > |g.callees|
          || (|f.callees| == |g.callees| &&
               (|| (f.path != g.path && LexLe(f.path, g.path))
                || (f.path == g.path && (f.line < g.line || (f.line == g.line && a.other <= b.other)))))))
  }

  lemma RankIsAhead(functions: seq<TreeFunction>, a: Row, b: Row)
    requires a.other < |functions| && b.other < |functions|
    ensures ByRank(functions)(a, b) <==> Ahead(functions, a, b)
  {
    StrLeIsLex(functions[a.other].path, functions[b.other].path);
  }

  ghost function EligibleSet(functions: seq<TreeFunction>, f: nat, before: Option<set<string>>): set<nat>
    requires f < |functions|
  {
    set g: nat | g < |functions| && Eligible(functions, f, before, g)
  }

  lemma {:induction false} RowsCount(rows: seq<Row>, members: set<nat>, rowFor: nat -> Row)
    requires Distinct(rows) && forall g: nat :: rowFor(g).other == g
    requires forall row :: row in rows <==> row.other in members && row == rowFor(row.other)
    ensures |rows| == |members|
  {
    if rows == [] {
      assert forall g: nat :: g in members ==> rowFor(g) in rows;
      assert members == {};
    } else {
      var last := |rows| - 1;
      var row, front := rows[last], rows[..last];
      assert rows == front + [row] && row in rows;
      forall r ensures r in front <==> r.other in members - {row.other} && r == rowFor(r.other) {
        assert r in rows <==> r in front || r == row;
      }
      RowsCount(front, members - {row.other}, rowFor);
    }
  }

  /** `best` are up to three of the members' rows, each ahead of those after it and of those left out. */
  ghost predicate Leads(best: seq<Row>, members: set<nat>, rowFor: nat -> Row, ahead: (Row, Row) -> bool)
  {
    && |best| == Min(3, |members|)
    && (forall i :: 0 <= i < |best| ==> best[i].other in members && best[i] == rowFor(best[i].other))
    && (forall i, j :: 0 <= i < j < |best| ==> best[i] != best[j] && ahead(best[i], best[j]))
    && (forall i, g: nat :: 0 <= i < |best| && g in members && rowFor(g) !in best ==> ahead(best[i], rowFor(g)))
  }

  lemma FrontLeads(ranking: seq<Row>, members: set<nat>, rowFor: nat -> Row, ahead: (Row, Row) -> bool)
    requires Distinct(ranking) && SortedBy(ranking, ahead) && forall g: nat :: rowFor(g).other == g
    requires forall row :: row in ranking <==> row.other in members && row == rowFor(row.other)
    ensures Leads(ranking[..Min(3, |ranking|)], members, rowFor, ahead)
  {
    var best := ranking[..Min(3, |ranking|)];
    assert forall k :: 0 <= k < |best| ==> ranking[k] in best;
    RowsCount(ranking, members, rowFor);
    forall i | 0 <= i < |best| ensures best[i].other in members && best[i] == rowFor(best[i].other) {
      assert ranking[i] in ranking;
    }
    forall i, g: nat | 0 <= i < |best| && g in members && rowFor(g) !in best ensures ahead(best[i], rowFor(g)) {
      assert rowFor(g) in ranking;
      var j :| 0 <= j < |ranking| && ranking[j] == rowFor(g);
      assert ranking[j] !in best;
    }
  }

  ghost function RowsFor(functions: seq<TreeFunction>, f: nat): nat -> Row
    requires f < |functions|
  {
    (g: nat) => if g < |functions| then RowFor(functions, f, g) else Row(f, g, [], 0)
  }

  ghost function AheadIn(functions: seq<TreeFunction>): (Row, Row) -> bool
  {
    (a: Row, b: Row) => a.other < |functions| && b.other < |functions| && Ahead(functions, a, b)
  }

  /** The best rows are three, or all when there are fewer; each goes ahead of the ones after it and of
      every eligible function's row that is left out. */
  lemma BestExactly(functions: seq<TreeFunction>, f: nat, before: Option<set<string>>)
    requires f < |functions|
    ensures Leads(Best(functions, f, before), EligibleSet(functions, f, before), RowsFor(functions, f),
                  AheadIn(functions))
  {
    var rows := EligibleRows(functions, f, before, |functions|);
    var ranking := SortBy(rows, ByRank(functions));
    EligibleGathered(functions, f, before, |functions|);
    RankedRows(functions, f, before, rows);
    RankingMembers(functions, f, before, ranking);
    RankingLeads(functions, f, EligibleSet(functions, f, before), ranking);
  }

  lemma RankingLeads(functions: seq<TreeFunction>, f: nat, members: set<nat>, ranking: seq<Row>)
    requires f < |functions| && Distinct(ranking) && SortedBy(ranking, ByRank(functions))
    requires forall row :: row in ranking <==> row.other in members && row == RowsFor(functions, f)(row.other)
    requires forall row :: row in ranking ==> row.other < |functions|
    ensures Leads(ranking[..Min(3, |ranking|)], members, RowsFor(functions, f), AheadIn(functions))
  {
    forall i, j | 0 <= i < j < |ranking| ensures AheadIn(functions)(ranking[i], ranking[j]) {
      assert ranking[i] in ranking && ranking[j] in ranking;
      RankIsAhead(functions, ranking[i], ranking[j]);
    }
    FrontLeads(ranking, members, RowsFor(functions, f), AheadIn(functions));
  }

  lemma RankingMembers(functions: seq<TreeFunction>, f: nat, before: Option<set<string>>, ranking: seq<Row>)
    requires f < |functions| && IsRanking(functions, f, before, ranking)
    ensures Distinct(ranking) && SortedBy(ranking, ByRank(functions))
    ensures forall row :: row in ranking <==>
              row.other in EligibleSet(functions, f, before) && row == RowsFor(functions, f)(row.other)
    ensures forall row :: row in ranking ==> row.other < |functions|
  {
  }

  /** The rows of one unit are its three best, in whatever order the maps give the candidates and
      whatever families were asked for before. */
  method Rows(functions: seq<TreeFunction>, callers: Callers, f: nat, before: Option<set<string>>, families: Families)
    returns (rows: seq<Row>)
    requires AllProper(functions) && Indexes(callers, functions) && f < |functions|
    requires families.Valid(functions)
    modifies families
    ensures families.Valid(functions)
    ensures rows == Best(functions, f, before)
  {
    var shared := SharedWith(functions, callers, f);
    var found: seq<Row> := [];
    var todo := shared.Keys;
    ghost var seen: set<nat> := {};
    while todo != {}
      invariant todo <= shared.Keys && seen == shared.Keys - todo
      invariant families.Valid(functions)
      invariant Gathers(functions, f, before, found, seen)
    {
      var g :| g in todo;
      assert PairsWith(shared, g) == SlotsWith(functions, functions[f].callees, g);
      var row := RowOf(functions, callers, f, before, g, shared[g], families);
      GathersNext(functions, f, before, found, seen, g, row);
      if row.Some? {
        found := found + [row.value];
      }
      todo := todo - {g};
      seen := seen + {g};
    }
    AllGathered(functions, f, before, found, shared);
    RankedRows(functions, f, before, found);
    var ranking := SortBy(found, ByRank(functions));
    BestOfRanking(functions, f, before, ranking);
    rows := ranking[..Min(MAX_ROWS_PER_UNIT, |ranking|)];
  }

  /** A function that shares no callee is never eligible, so the index misses none. */
  lemma AllGathered(functions: seq<TreeFunction>, f: nat, before: Option<set<string>>, rows: seq<Row>,
                    shared: SharedMap)
    requires AllProper(functions) && f < |functions|
    requires Holds(shared, functions, functions[f].callees)
    requires Gathers(functions, f, before, rows, shared.Keys)
    ensures Gathers(functions, f, before, rows, Below(|functions|))
  {
    forall g: nat | Eligible(functions, f, before, g) ensures g in shared {
      SlotsAreShared(functions, f, g);
      assert PairsWith(shared, g) == SlotsWith(functions, functions[f].callees, g);
    }
  }

  // ----- one row for a mutual pair

  predicate PlaceLt(a: TreeFunction, b: TreeFunction)
  {
    if a.path != b.path then StrLe(a.path, b.path) else a.nameLine < b.nameLine
  }

  /** `a` stands first: by path in byte order, in one file by the line of the name. */
  ghost predicate StandsFirst(a: TreeFunction, b: TreeFunction)
  {
    (a.path != b.path && LexLe(a.path, b.path)) || (a.path == b.path && a.nameLine < b.nameLine)
  }

  lemma PlaceLtFirst(a: TreeFunction, b: TreeFunction)
    ensures PlaceLt(a, b) <==> StandsFirst(a, b)
  {
    StrLeIsLex(a.path, b.path);
  }

  predicate InTree(functions: seq<TreeFunction>, rows: seq<Row>)
  {
    forall i :: 0 <= i < |rows| ==> rows[i].unit < |functions| && rows[i].other < |functions|
  }

  function Pairs(rows: seq<Row>): set<(nat, nat)> { set i | 0 <= i < |rows| :: (rows[i].unit, rows[i].other) }

  predicate KeepsRow(functions: seq<TreeFunction>, found: set<(nat, nat)>, row: Row)
    requires row.unit < |functions| && row.other < |functions|
  {
    (row.other, row.unit) !in found || PlaceLt(functions[row.unit], functions[row.other])
  }

  function OncePerPair(functions: seq<TreeFunction>, rows: seq<Row>, found: set<(nat, nat)>): seq<Row>
    requires InTree(functions, rows)
  {
    if rows == [] then []
    else
      var last := |rows| - 1;
      OncePerPair(functions, rows[..last], found) +
      (if KeepsRow(functions, found, rows[last]) then [rows[last]] else [])
  }

  lemma {:induction false} KeptRows(functions: seq<TreeFunction>, rows: seq<Row>, found: set<(nat, nat)>, row: Row)
    requires InTree(functions, rows) && row.unit < |functions| && row.other < |functions|
    ensures row in OncePerPair(functions, rows, found) <==> row in rows && KeepsRow(functions, found, row)
  {
    if rows == [] {
    } else {
      var last := |rows| - 1;
      KeptRows(functions, rows[..last], found, row);
      assert rows == rows[..last] + [rows[last]];
    }
  }

  lemma OnceNext(functions: seq<TreeFunction>, rows: seq<Row>, row: Row, found: set<(nat, nat)>)
    requires InTree(functions, rows + [row])
    ensures InTree(functions, rows) && row.unit < |functions| && row.other < |functions|
    ensures OncePerPair(functions, rows + [row], found) ==
            OncePerPair(functions, rows, found) + (if KeepsRow(functions, found, row) then [row] else [])
  {
    var more := rows + [row];
    assert more[|rows|] == row && more[..|rows|] == rows;
    forall i | 0 <= i < |rows| ensures rows[i].unit < |functions| && rows[i].other < |functions| {
      assert more[i] == rows[i];
    }
  }

  lemma KeptNext(functions: seq<TreeFunction>, a: seq<Row>, front: seq<Row>, row: Row, found: set<(nat, nat)>)
    requires InTree(functions, a) && InTree(functions, front + [row]) && InTree(functions, a + front + [row])
    requires InTree(functions, front) && InTree(functions, a + front)
    requires OncePerPair(functions, a + front, found) ==
             OncePerPair(functions, a, found) + OncePerPair(functions, front, found)
    ensures OncePerPair(functions, a + front + [row], found) ==
            OncePerPair(functions, a, found) + OncePerPair(functions, front + [row], found)
  {
    OnceNext(functions, a + front, row, found);
    OnceNext(functions, front, row, found);
  }

  /** What stays keeps the order of the rows. */
  lemma {:induction false} KeptInOrder(functions: seq<TreeFunction>, a: seq<Row>, b: seq<Row>, found: set<(nat, nat)>)
    requires InTree(functions, a) && InTree(functions, b)
    ensures OncePerPair(functions, a + b, found) == OncePerPair(functions, a, found) + OncePerPair(functions, b, found)
    decreases |b|
  {
    if b == [] {
      assert a + b == a;
    } else {
      var front, row := b[..|b| - 1], b[|b| - 1];
      KeptInOrder(functions, a, front, found);
      assert b == front + [row] && a + b == (a + front) + [row];
      KeptNext(functions, a, front, row, found);
    }
  }

  /** A row whose mirror is absent stays; of a mutual pair at two places exactly the row of the first
      place stays; and a mutual pair at one place loses both rows. */
  lemma MutualPairs(functions: seq<TreeFunction>, rows: seq<Row>, row: Row, mirror: Row)
    requires InTree(functions, rows) && row in rows
    requires row.unit < |functions| && row.other < |functions|
    requires mirror.unit == row.other && mirror.other == row.unit
    ensures var kept := OncePerPair(functions, rows, Pairs(rows));
            && ((row.other, row.unit) !in Pairs(rows) ==> row in kept)
            && (mirror in rows ==>
                 var f, g := functions[row.unit], functions[row.other];
                 if f.path == g.path && f.nameLine == g.nameLine then row !in kept && mirror !in kept
                 else (row in kept <==> mirror !in kept) && (row in kept <==> StandsFirst(f, g)))
  {
    var f, g := functions[row.unit], functions[row.other];
    KeptRows(functions, rows, Pairs(rows), row);
    KeptRows(functions, rows, Pairs(rows), mirror);
    PlaceLtFirst(f, g);
    var i :| 0 <= i < |rows| && rows[i] == row;
    assert (row.unit, row.other) in Pairs(rows);
    if mirror in rows {
      var j :| 0 <= j < |rows| && rows[j] == mirror;
      assert (row.other, row.unit) in Pairs(rows);
      StrLeTotal(f.path, g.path);
      if StrLe(f.path, g.path) && StrLe(g.path, f.path) { StrLeAntisymmetric(f.path, g.path); }
    }
  }
}
