/** A run of `callee_overlap` over all checked units (crates/checks/src/callees.rs): each unit's best
    rows in turn, then one row for each mutual pair. */
module OverlapRun {
  import opened Options
  import opened Orders
  import opened Callees
  import opened Overlap

  /** A unit the check reads: its tree function and, when it was rewritten, the names its old body
      spelled. */
  datatype Checked = Checked(at: nat, before: Option<set<string>>)

  predicate Known(functions: seq<TreeFunction>, checked: seq<Checked>)
  {
    forall i :: 0 <= i < |checked| ==> checked[i].at < |functions|
  }

  /** The three best rows of a unit of the tree. */
  ghost function BestOf(functions: seq<TreeFunction>): Checked -> seq<Row>
  {
    (unit: Checked) => if unit.at < |functions| then Best(functions, unit.at, unit.before) else []
  }

  ghost function Lists(best: Checked -> seq<Row>, checked: seq<Checked>): (lists: seq<seq<Row>>)
    ensures |lists| == |checked| && forall i :: 0 <= i < |lists| ==> lists[i] == best(checked[i])
  {
    seq(|checked|, i requires 0 <= i < |checked| => best(checked[i]))
  }

  function Flat(lists: seq<seq<Row>>): seq<Row>
  {
    if lists == [] then [] else Flat(lists[..|lists| - 1]) + lists[|lists| - 1]
  }

  ghost predicate InLists(lists: seq<seq<Row>>, row: Row)
  {
    exists i :: 0 <= i < |lists| && row in lists[i]
  }

  lemma InListsNext(lists: seq<seq<Row>>, list: seq<Row>, row: Row)
    ensures InLists(lists + [list], row) <==> InLists(lists, row) || row in list
  {
    var more := lists + [list];
    if InLists(lists, row) {
      var i :| 0 <= i < |lists| && row in lists[i];
      assert more[i] == lists[i];
    }
    assert more[|lists|] == list;
  }

  lemma {:induction false} FlatMembers(lists: seq<seq<Row>>, row: Row)
    ensures row in Flat(lists) <==> InLists(lists, row)
  {
    if lists == [] {
    } else {
      var last := |lists| - 1;
      FlatMembers(lists[..last], row);
      InListsNext(lists[..last], lists[last], row);
      assert lists == lists[..last] + [lists[last]];
    }
  }

  ghost predicate ListsInTree(functions: seq<TreeFunction>, lists: seq<seq<Row>>)
  {
    forall i :: 0 <= i < |lists| ==> InTree(functions, lists[i])
  }

  lemma FlatInTree(functions: seq<TreeFunction>, lists: seq<seq<Row>>)
    requires ListsInTree(functions, lists)
    ensures InTree(functions, Flat(lists))
  {
    var rows := Flat(lists);
    forall k | 0 <= k < |rows| ensures rows[k].unit < |functions| && rows[k].other < |functions| {
      FlatMembers(lists, rows[k]);
      var i :| 0 <= i < |lists| && rows[k] in lists[i];
      var j :| 0 <= j < |lists[i]| && lists[i][j] == rows[k];
    }
  }

  lemma BestAreEligible(functions: seq<TreeFunction>, f: nat, before: Option<set<string>>, row: Row)
    requires f < |functions| && row in Best(functions, f, before)
    ensures Eligible(functions, f, before, row.other) && row == RowFor(functions, f, row.other)
  {
    var rows := EligibleRows(functions, f, before, |functions|);
    EligibleGathered(functions, f, before, |functions|);
    SortByMembers(rows, ByRank(functions));
    var ranking := SortBy(rows, ByRank(functions));
    assert row in ranking;
  }

  lemma BestInTree(functions: seq<TreeFunction>, f: nat, before: Option<set<string>>)
    requires f < |functions|
    ensures InTree(functions, Best(functions, f, before))
  {
    var rows := Best(functions, f, before);
    forall k | 0 <= k < |rows| ensures rows[k].unit < |functions| && rows[k].other < |functions| {
      BestAreEligible(functions, f, before, rows[k]);
    }
  }

  lemma BestListsInTree(functions: seq<TreeFunction>, checked: seq<Checked>)
    requires Known(functions, checked)
    ensures ListsInTree(functions, Lists(BestOf(functions), checked))
  {
    forall i | 0 <= i < |checked| ensures InTree(functions, Lists(BestOf(functions), checked)[i]) {
      BestInTree(functions, checked[i].at, checked[i].before);
    }
  }

  /** The candidates of all units, less the later row of each mutual pair. */
  ghost function Survivors(functions: seq<TreeFunction>, lists: seq<seq<Row>>): seq<Row>
    requires ListsInTree(functions, lists)
  {
    FlatInTree(functions, lists);
    OncePerPair(functions, Flat(lists), Pairs(Flat(lists)))
  }

  ghost function Reported(functions: seq<TreeFunction>, checked: seq<Checked>): seq<Row>
    requires Known(functions, checked)
  {
    BestListsInTree(functions, checked);
    Survivors(functions, Lists(BestOf(functions), checked))
  }

  lemma ListsNext(best: Checked -> seq<Row>, checked: seq<Checked>, i: nat)
    requires i < |checked|
    ensures Lists(best, checked[..i + 1]) == Lists(best, checked[..i]) + [best(checked[i])]
  {
  }

  lemma FlatNext(lists: seq<seq<Row>>, list: seq<Row>)
    ensures Flat(lists + [list]) == Flat(lists) + list
  {
    assert (lists + [list])[..|lists|] == lists;
  }

  /** The run as it goes: one index, one memo of families for all units, and the mutual pairs last. */
  method Report(functions: seq<TreeFunction>, checked: seq<Checked>) returns (kept: seq<Row>)
    requires AllProper(functions) && Known(functions, checked)
    ensures kept == Reported(functions, checked)
  {
    var callers := NewIndex(functions);
    var families := new Families();
    var rows: seq<Row> := [];
    for i := 0 to |checked|
      invariant families.Valid(functions) && fresh(families)
      invariant rows == Flat(Lists(BestOf(functions), checked[..i]))
    {
      var more := Rows(functions, callers, checked[i].at, checked[i].before, families);
      ListsNext(BestOf(functions), checked, i);
      FlatNext(Lists(BestOf(functions), checked[..i]), more);
      rows := rows + more;
    }
    assert checked[..|checked|] == checked;
    BestListsInTree(functions, checked);
    FlatInTree(functions, Lists(BestOf(functions), checked));
    kept := OncePerPair(functions, rows, Pairs(rows));
  }

  ghost predicate HasMirror(lists: seq<seq<Row>>, unit: nat, other: nat)
  {
    exists mirror :: InLists(lists, mirror) && mirror.unit == other && mirror.other == unit
  }

  /** A candidate of any unit survives exactly when no candidate is its mirror, or its own unit comes
      first by path and line. */
  lemma SurvivesExactly(functions: seq<TreeFunction>, lists: seq<seq<Row>>, row: Row)
    requires ListsInTree(functions, lists)
    ensures row in Survivors(functions, lists) <==>
              && InLists(lists, row) && row.unit < |functions| && row.other < |functions|
              && (HasMirror(lists, row.unit, row.other) ==> StandsFirst(functions[row.unit], functions[row.other]))
  {
    var rows := Flat(lists);
    FlatInTree(functions, lists);
    FlatMembers(lists, row);
    if row.unit < |functions| && row.other < |functions| {
      KeptRows(functions, rows, Pairs(rows), row);
      PlaceLtFirst(functions[row.unit], functions[row.other]);
      MirrorListed(lists, row.unit, row.other);
    } else {
      KeptInTree(functions, rows, Pairs(rows), row);
    }
  }

  lemma MirrorListed(lists: seq<seq<Row>>, unit: nat, other: nat)
    ensures (other, unit) in Pairs(Flat(lists)) <==> HasMirror(lists, unit, other)
  {
    var rows := Flat(lists);
    if (other, unit) in Pairs(rows) {
      var k :| 0 <= k < |rows| && (rows[k].unit, rows[k].other) == (other, unit);
      FlatMembers(lists, rows[k]);
    }
    if HasMirror(lists, unit, other) {
      var mirror :| InLists(lists, mirror) && mirror.unit == other && mirror.other == unit;
      FlatMembers(lists, mirror);
      var k :| 0 <= k < |rows| && rows[k] == mirror;
    }
  }

  lemma {:induction false} KeptInTree(functions: seq<TreeFunction>, rows: seq<Row>, found: set<(nat, nat)>, row: Row)
    requires InTree(functions, rows)
    ensures row in OncePerPair(functions, rows, found) ==> row.unit < |functions| && row.other < |functions|
  {
    if rows == [] {
    } else {
      KeptInTree(functions, rows[..|rows| - 1], found, row);
    }
  }

  /** A row is reported exactly when it is among the three best of a checked unit, and none of the best
      is its mirror or its own unit comes first by path and line. */
  lemma ReportedExactly(functions: seq<TreeFunction>, checked: seq<Checked>, row: Row)
    requires Known(functions, checked)
    ensures var lists := Lists(BestOf(functions), checked);
            row in Reported(functions, checked) <==>
              && InLists(lists, row) && row.unit < |functions| && row.other < |functions|
              && (HasMirror(lists, row.unit, row.other) ==> StandsFirst(functions[row.unit], functions[row.other]))
  {
    BestListsInTree(functions, checked);
    SurvivesExactly(functions, Lists(BestOf(functions), checked), row);
  }

  // ----- each row once

  /** The lists hold each row once, and rows of different lists are of different units. */
  ghost predicate OneUnitEach(lists: seq<seq<Row>>, units: seq<nat>)
  {
    && |lists| == |units| && Distinct(units)
    && (forall i :: 0 <= i < |lists| ==> Distinct(lists[i]))
    && (forall i: nat, row: Row :: i < |lists| && row in lists[i] ==> row.unit == units[i])
  }

  lemma {:induction false} FlatDistinct(lists: seq<seq<Row>>, units: seq<nat>)
    requires OneUnitEach(lists, units)
    ensures Distinct(Flat(lists))
  {
    if lists == [] {
    } else {
      var last := |lists| - 1;
      var unit := units[last];
      assert forall row :: row in lists[last] ==> row.unit == unit;
      FlatDistinct(lists[..last], units[..last]);
      forall row | row in Flat(lists[..last]) ensures row !in lists[last] {
        FlatMembers(lists[..last], row);
        var i :| 0 <= i < last && row in lists[..last][i];
        assert row in lists[i] && row.unit == units[i] != unit;
      }
      DistinctAppend(Flat(lists[..last]), lists[last]);
    }
  }

  lemma {:induction false} KeptDistinct(functions: seq<TreeFunction>, rows: seq<Row>, found: set<(nat, nat)>)
    requires InTree(functions, rows) && Distinct(rows)
    ensures Distinct(OncePerPair(functions, rows, found))
    ensures forall row :: row in OncePerPair(functions, rows, found) ==> row in rows
  {
    if rows == [] {
    } else {
      var last := |rows| - 1;
      KeptDistinct(functions, rows[..last], found);
      assert rows[last] !in rows[..last];
      if KeepsRow(functions, found, rows[last]) {
        DistinctAppend(OncePerPair(functions, rows[..last], found), [rows[last]]);
      }
    }
  }

  lemma BestDistinct(functions: seq<TreeFunction>, f: nat, before: Option<set<string>>)
    requires f < |functions|
    ensures Distinct(Best(functions, f, before))
  {
    var rows := EligibleRows(functions, f, before, |functions|);
    EligibleGathered(functions, f, before, |functions|);
    RankedRows(functions, f, before, rows);
    var ranking := SortBy(rows, ByRank(functions));
    assert Distinct(ranking);
  }

  function Units(checked: seq<Checked>): seq<nat>
  {
    seq(|checked|, i requires 0 <= i < |checked| => checked[i].at)
  }

  /** A run whose checked units are different functions reports each row once. */
  lemma ReportedOnce(functions: seq<TreeFunction>, checked: seq<Checked>)
    requires Known(functions, checked) && Distinct(Units(checked))
    ensures Distinct(Reported(functions, checked))
  {
    var lists := Lists(BestOf(functions), checked);
    BestListsInTree(functions, checked);
    FlatInTree(functions, lists);
    forall i | 0 <= i < |lists| ensures Distinct(lists[i]) {
      BestDistinct(functions, checked[i].at, checked[i].before);
    }
    forall i: nat, row: Row | i < |lists| && row in lists[i] ensures row.unit == Units(checked)[i] {
      BestAreEligible(functions, checked[i].at, checked[i].before, row);
    }
    FlatDistinct(lists, Units(checked));
    KeptDistinct(functions, Flat(lists), Pairs(Flat(lists)));
  }

  // ----- two functions at one place

  /** Two functions at one path and line with the same three callees, neither spelling the other. */
  ghost predicate Twins(functions: seq<TreeFunction>)
  {
    && |functions| == 2 && AllProper(functions)
    && functions[0].path == functions[1].path && functions[0].nameLine == functions[1].nameLine
    && functions[0].callees == functions[1].callees && |functions[0].callees| == 3
    && functions[0].name !in functions[1].spelled && functions[1].name !in functions[0].spelled
  }

  lemma SomeTwins(path: string, line: nat, callees: seq<Callee>)
    requires |callees| == 3 && OnceEach(callees)
    ensures Twins([TreeFunction(path, "f", line, line, callees, []), TreeFunction(path, "g", line, line, callees, [])])
  {
  }

  lemma ThreeIds(callees: seq<Callee>)
    requires |callees| == 3 && OnceEach(callees)
    ensures |Ids(callees)| == 3
  {
    assert Ids(callees) == {callees[0].id, callees[1].id, callees[2].id};
  }

  lemma TwinsEligible(functions: seq<TreeFunction>, f: nat, g: nat)
    requires Twins(functions) && f < 2 && g == 1 - f
    ensures Eligible(functions, f, None, g)
  {
    assert Proper(functions[f]);
    ThreeIds(functions[f].callees);
    var ids := Ids(functions[f].callees);
    assert ids * ids == ids;
    assert MembersOf(functions, g) - {f} == {};
  }

  lemma TwoRows(functions: seq<TreeFunction>, f: nat)
    requires |functions| == 2 && f < 2
    ensures EligibleRows(functions, f, None, |functions|) ==
            RowOnce(functions, f, None, 0) + RowOnce(functions, f, None, 1)
  {
    var n := |functions|;
    assert EligibleRows(functions, f, None, n - 2) == [];
    assert EligibleRows(functions, f, None, n - 1) == [] + RowOnce(functions, f, None, 0);
  }

  lemma OneRow(functions: seq<TreeFunction>, f: nat, g: nat)
    requires |functions| == 2 && f < 2 && g == 1 - f && Eligible(functions, f, None, g)
    ensures RowOnce(functions, f, None, 0) + RowOnce(functions, f, None, 1) == [RowFor(functions, f, g)]
  {
    var mine, other := RowOnce(functions, f, None, f), RowOnce(functions, f, None, g);
    var row := RowFor(functions, f, g);
    assert mine == [] && other == [row];
    assert mine + other == [row] && other + mine == [row];
  }

  lemma OneBest(functions: seq<TreeFunction>, f: nat, g: nat)
    requires |functions| == 2 && f < 2 && g == 1 - f && Eligible(functions, f, None, g)
    ensures Best(functions, f, None) == [RowFor(functions, f, g)]
  {
    TwoRows(functions, f);
    OneRow(functions, f, g);
    BestOfOne(functions, f, None, RowFor(functions, f, g));
  }

  lemma BestOfOne(functions: seq<TreeFunction>, f: nat, before: Option<set<string>>, row: Row)
    requires f < |functions| && EligibleRows(functions, f, before, |functions|) == [row]
    ensures Best(functions, f, before) == [row]
  {
    SortOne(row, ByRank(functions));
  }

  /** A mirrored row whose own place does not come first. */
  ghost predicate Tied(functions: seq<TreeFunction>, lists: seq<seq<Row>>, row: Row)
  {
    && row.unit < |functions| && row.other < |functions| && !StandsFirst(functions[row.unit], functions[row.other])
    && HasMirror(lists, row.unit, row.other)
  }

  lemma NoneSurvives(functions: seq<TreeFunction>, lists: seq<seq<Row>>)
    requires ListsInTree(functions, lists)
    requires forall row :: InLists(lists, row) ==> Tied(functions, lists, row)
    ensures Survivors(functions, lists) == []
  {
    var kept := Survivors(functions, lists);
    if kept != [] { SurvivesExactly(functions, lists, kept[0]); }
  }

  lemma TwoTied(functions: seq<TreeFunction>, lists: seq<seq<Row>>, a: Row, b: Row)
    requires lists == [[a], [b]] && a.unit == b.other && a.other == b.unit
    requires a.unit < |functions| && a.other < |functions|
    requires !StandsFirst(functions[a.unit], functions[a.other]) && !StandsFirst(functions[b.unit], functions[b.other])
    ensures forall row :: InLists(lists, row) ==> Tied(functions, lists, row)
  {
    assert a in lists[0] && b in lists[1];
  }

  lemma TwoLists(best: Checked -> seq<Row>, a: Checked, b: Checked)
    ensures Lists(best, [a, b]) == [best(a), best(b)]
  {
  }

  lemma TwinBest(functions: seq<TreeFunction>, f: nat, g: nat)
    requires Twins(functions) && f < 2 && g == 1 - f
    ensures BestOf(functions)(Checked(f, None)) == Best(functions, f, None) == [RowFor(functions, f, g)]
  {
    TwinsEligible(functions, f, g);
    OneBest(functions, f, g);
  }

  lemma TwinLists(functions: seq<TreeFunction>, checked: seq<Checked>)
    requires Twins(functions) && checked == [Checked(0, None), Checked(1, None)]
    ensures Lists(BestOf(functions), checked) == [[RowFor(functions, 0, 1)], [RowFor(functions, 1, 0)]]
  {
    TwinBest(functions, 0, 1);
    TwinBest(functions, 1, 0);
    TwoLists(BestOf(functions), Checked(0, None), Checked(1, None));
  }

  /** Such twins, when both are new, are each other's best row and only row. */
  lemma TwinsAreBest(functions: seq<TreeFunction>)
    requires Twins(functions)
    ensures Best(functions, 0, None) == [RowFor(functions, 0, 1)]
    ensures Best(functions, 1, None) == [RowFor(functions, 1, 0)]
  {
    TwinBest(functions, 0, 1);
    TwinBest(functions, 1, 0);
  }

  lemma TwinsTied(functions: seq<TreeFunction>, lists: seq<seq<Row>>)
    requires Twins(functions) && lists == [[RowFor(functions, 0, 1)], [RowFor(functions, 1, 0)]]
    ensures forall row :: InLists(lists, row) ==> Tied(functions, lists, row)
  {
    TwoTied(functions, lists, RowFor(functions, 0, 1), RowFor(functions, 1, 0));
  }

  lemma NoneReported(functions: seq<TreeFunction>, checked: seq<Checked>)
    requires Known(functions, checked)
    requires var lists := Lists(BestOf(functions), checked);
             forall row :: InLists(lists, row) ==> Tied(functions, lists, row)
    ensures Reported(functions, checked) == []
  {
    BestListsInTree(functions, checked);
    NoneSurvives(functions, Lists(BestOf(functions), checked));
  }

  /** And the run reports neither of them. */
  lemma TwinsLoseBoth(functions: seq<TreeFunction>, checked: seq<Checked>)
    requires Twins(functions) && checked == [Checked(0, None), Checked(1, None)]
    ensures Reported(functions, checked) == []
  {
    TwinLists(functions, checked);
    TwinsTied(functions, Lists(BestOf(functions), checked));
    NoneReported(functions, checked);
  }
}
