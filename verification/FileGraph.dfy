/** The modules a bounded flowchart draws (crates/app/src/file_graph.rs): the neighbourhood of a
    focus, found hop by hop, and the best-ranked candidates of it. */
module FileGraph {
  import opened Options
  import opened Orders

  datatype Graph = Graph(nodes: seq<string>, edges: seq<(string, string)>)

  // Two hops is what "what touches this" means: what it calls, and what those call.
  const FOCUS_DISTANCE: nat := 2

  // ----- the reference: undirected walks

  ghost predicate Linked(edges: seq<(string, string)>, a: string, b: string)
  {
    (a, b) in edges || (b, a) in edges
  }

  ghost predicate IsWalk(edges: seq<(string, string)>, walk: seq<string>)
  {
    walk != [] && forall i :: 0 <= i < |walk| - 1 ==> Linked(edges, walk[i], walk[i + 1])
  }

  /** A walk of exactly `hops` links joins `a` and `b`. */
  ghost predicate Joined(edges: seq<(string, string)>, a: string, b: string, hops: nat)
  {
    exists walk :: IsWalk(edges, walk) && |walk| == hops + 1 && walk[0] == a && walk[hops] == b
  }

  ghost predicate Within(edges: seq<(string, string)>, a: string, b: string, hops: nat)
  {
    exists k :: 0 <= k <= hops && Joined(edges, a, b, k)
  }

  ghost predicate AtDistance(edges: seq<(string, string)>, a: string, b: string, hops: nat)
  {
    Joined(edges, a, b, hops) && forall k :: 0 <= k < hops ==> !Joined(edges, a, b, k)
  }

  lemma JoinedZero(edges: seq<(string, string)>, a: string, b: string)
    ensures Joined(edges, a, b, 0) <==> a == b
  {
    if a == b { assert IsWalk(edges, [a]); }
  }

  /** The last link of a walk. */
  lemma JoinedNext(edges: seq<(string, string)>, a: string, c: string, hops: nat)
    ensures Joined(edges, a, c, hops + 1) <==> exists b :: Joined(edges, a, b, hops) && Linked(edges, b, c)
  {
    if Joined(edges, a, c, hops + 1) {
      var walk :| IsWalk(edges, walk) && |walk| == hops + 2 && walk[0] == a && walk[hops + 1] == c;
      var front := walk[..hops + 1];
      assert IsWalk(edges, front) && front[hops] == walk[hops];
      assert Joined(edges, a, walk[hops], hops) && Linked(edges, walk[hops], walk[hops + 1]);
    }
    if exists b :: Joined(edges, a, b, hops) && Linked(edges, b, c) {
      var b :| Joined(edges, a, b, hops) && Linked(edges, b, c);
      var walk :| IsWalk(edges, walk) && |walk| == hops + 1 && walk[0] == a && walk[hops] == b;
      var more := walk + [c];
      forall i | 0 <= i < |more| - 1 ensures Linked(edges, more[i], more[i + 1]) {
        assert i < hops ==> more[i] == walk[i] && more[i + 1] == walk[i + 1];
      }
      assert IsWalk(edges, more);
    }
  }

  /** One hop of the search, on walks: a node first met at the next distance is a node not met
      before that is linked to one first met at this distance. */
  lemma NextDistance(edges: seq<(string, string)>, a: string, c: string, hops: nat)
    ensures AtDistance(edges, a, c, hops + 1) <==>
            !Within(edges, a, c, hops) && exists b :: AtDistance(edges, a, b, hops) && Linked(edges, b, c)
  {
    JoinedNext(edges, a, c, hops);
    if AtDistance(edges, a, c, hops + 1) {
      var b :| Joined(edges, a, b, hops) && Linked(edges, b, c);
      forall k | 0 <= k < hops ensures !Joined(edges, a, b, k) {
        JoinedNext(edges, a, c, k);
      }
      assert AtDistance(edges, a, b, hops);
    }
    if !Within(edges, a, c, hops) && exists b :: AtDistance(edges, a, b, hops) && Linked(edges, b, c) {
      var b :| AtDistance(edges, a, b, hops) && Linked(edges, b, c);
      forall k | 0 <= k < hops + 1 ensures !Joined(edges, a, c, k) {
        assert Within(edges, a, c, hops) <==> exists k :: 0 <= k <= hops && Joined(edges, a, c, k);
      }
    }
  }

  lemma WithinNext(edges: seq<(string, string)>, a: string, c: string, hops: nat)
    ensures Within(edges, a, c, hops + 1) <==> Within(edges, a, c, hops) || AtDistance(edges, a, c, hops + 1)
  {
  }

  // ----- the search

  type Adjacent = map<string, set<string>>

  function Neighbours(adjacent: Adjacent, node: string): set<string>
  {
    if node in adjacent then adjacent[node] else {}
  }

  function Link(adjacent: Adjacent, a: string, b: string): Adjacent
  {
    adjacent[a := Neighbours(adjacent, a) + {b}]
  }

  lemma LinkNeighbours(adjacent: Adjacent, a: string, b: string, x: string)
    ensures Neighbours(Link(adjacent, a, b), x) == Neighbours(adjacent, x) + (if x == a then {b} else {})
  {
  }

  ghost predicate Adjacency(adjacent: Adjacent, edges: seq<(string, string)>)
  {
    forall a, b :: b in Neighbours(adjacent, a) <==> Linked(edges, a, b)
  }

  method BuildAdjacent(edges: seq<(string, string)>) returns (adjacent: Adjacent)
    ensures Adjacency(adjacent, edges)
  {
    adjacent := map[];
    for i := 0 to |edges|
      invariant Adjacency(adjacent, edges[..i])
    {
      var (source, target) := edges[i];
      var once := Link(adjacent, source, target);
      forall a, b ensures b in Neighbours(Link(once, target, source), a) <==> Linked(edges[..i + 1], a, b) {
        assert edges[..i + 1] == edges[..i] + [edges[i]];
        LinkNeighbours(adjacent, source, target, a);
        LinkNeighbours(once, target, source, a);
        assert b in Neighbours(adjacent, a) <==> Linked(edges[..i], a, b);
      }
      adjacent := Link(once, target, source);
    }
    assert edges[..|edges|] == edges;
  }

  /** After `hops` hops: everything within that distance is reached, and the frontier is what lies
      at that distance, each node once. */
  ghost predicate Searched(edges: seq<(string, string)>, centre: string, hops: nat, reached: set<string>,
                           frontier: seq<string>)
  {
    && (forall x :: x in reached <==> Within(edges, centre, x, hops))
    && (forall x :: x in frontier <==> AtDistance(edges, centre, x, hops))
    && Distinct(frontier)
  }

  /** One node's turn: its neighbours not reached before, each once, in the order the set gives. */
  method Spread(neighbours: set<string>, reached0: set<string>) returns (reached: set<string>, found: seq<string>)
    ensures reached == reached0 + neighbours
    ensures Distinct(found) && forall x :: x in found <==> x in neighbours && x !in reached0
  {
    reached, found := reached0, [];
    var todo := neighbours;
    while todo != {}
      invariant todo <= neighbours && reached == reached0 + (neighbours - todo)
      invariant Distinct(found)
      invariant forall x :: x in found <==> x in neighbours - todo && x !in reached0
    {
      var next :| next in todo;
      if next !in reached {
        found := found + [next];
      }
      reached := reached + {next};
      todo := todo - {next};
    }
  }

  /** The neighbours of the frontier not reached before, which this hop reaches. */
  method OneHop(adjacent: Adjacent, frontier: seq<string>, reached0: set<string>)
    returns (next: seq<string>, reached: set<string>)
    ensures Distinct(next)
    ensures forall x :: x in reached <==> x in reached0 || exists b :: b in frontier && x in Neighbours(adjacent, b)
    ensures forall x :: x in next <==> x in reached && x !in reached0
  {
    next, reached := [], reached0;
    for i := 0 to |frontier|
      invariant Distinct(next)
      invariant forall x :: x in reached <==>
                x in reached0 || exists b :: b in frontier[..i] && x in Neighbours(adjacent, b)
      invariant forall x :: x in next <==> x in reached && x !in reached0
    {
      var wider, found := Spread(Neighbours(adjacent, frontier[i]), reached);
      assert frontier[..i + 1] == frontier[..i] + [frontier[i]];
      ghost var before := reached;
      DistinctAppend(next, found);
      next, reached := next + found, wider;
      forall x
        ensures x in reached <==> x in reached0 || exists b :: b in frontier[..i + 1] && x in Neighbours(adjacent, b)
      {
        if x in Neighbours(adjacent, frontier[i]) { assert frontier[i] in frontier[..i + 1]; }
        if x in before && x !in reached0 {
          var b :| b in frontier[..i] && x in Neighbours(adjacent, b);
          assert b in frontier[..i + 1];
        }
      }
    }
    assert frontier[..|frontier|] == frontier;
  }

  lemma HopSearches(edges: seq<(string, string)>, adjacent: Adjacent, centre: string, hops: nat,
                    reached: set<string>, frontier: seq<string>, wider: set<string>, next: seq<string>)
    requires Adjacency(adjacent, edges) && Searched(edges, centre, hops, reached, frontier)
    requires Distinct(next)
    requires forall x :: x in wider <==> x in reached || exists b :: b in frontier && x in Neighbours(adjacent, b)
    requires forall x :: x in next <==> x in wider && x !in reached
    ensures Searched(edges, centre, hops + 1, wider, next)
  {
    forall x
      ensures x in wider <==> Within(edges, centre, x, hops + 1)
      ensures x in next <==> AtDistance(edges, centre, x, hops + 1)
    {
      NextDistance(edges, centre, x, hops);
      WithinNext(edges, centre, x, hops);
      if x in next {
        var b :| b in frontier && x in Neighbours(adjacent, b);
        assert AtDistance(edges, centre, b, hops) && Linked(edges, b, x);
      }
      if AtDistance(edges, centre, x, hops + 1) {
        var b :| AtDistance(edges, centre, b, hops) && Linked(edges, b, x);
        assert b in frontier && x in Neighbours(adjacent, b);
      }
    }
  }

  lemma StartSearched(edges: seq<(string, string)>, centre: string)
    ensures Searched(edges, centre, 0, {centre}, [centre])
  {
    forall x
      ensures x in {centre} <==> Within(edges, centre, x, 0)
      ensures x in [centre] <==> AtDistance(edges, centre, x, 0)
    {
      JoinedZero(edges, centre, x);
      assert Within(edges, centre, x, 0) ==> Joined(edges, centre, x, 0);
    }
  }

  /** `hops` hops from a centre that the graph holds; an unknown centre reaches nothing. */
  method Neighbourhood(graph: Graph, centre: string, hops: nat) returns (reached: set<string>, frontier: seq<string>)
    requires Distinct(graph.nodes)
    ensures centre in graph.nodes ==> Searched(graph.edges, centre, hops, reached, frontier)
    ensures centre !in graph.nodes ==> reached == {}
  {
    var adjacent := BuildAdjacent(graph.edges);
    var known := centre in graph.nodes;
    frontier := if known then [centre] else [];
    reached := if known then {centre} else {};
    StartSearched(graph.edges, centre);
    for hop := 0 to hops
      invariant known ==> Searched(graph.edges, centre, hop, reached, frontier)
      invariant !known ==> reached == {} && forall x :: x !in frontier
    {
      var next, wider := OneHop(adjacent, frontier, reached);
      if known {
        HopSearches(graph.edges, adjacent, centre, hop, reached, frontier, wider, next);
      } else {
        assert wider == {};
      }
      frontier, reached := next, wider;
    }
  }

  // ----- the bound

  /** Higher rank first, then the path. */
  predicate RankLe(ranks: map<string, real>, a: string, b: string)
  {
    var ra, rb := RankOf(ranks, a), RankOf(ranks, b);
    if ra != rb then ra > rb else StrLe(a, b)
  }

  function RankOf(ranks: map<string, real>, node: string): real { if node in ranks then ranks[node] else 0.0 }

  function ByRank(ranks: map<string, real>): (string, string) -> bool { (a: string, b: string) => RankLe(ranks, a, b) }

  lemma ByRankIsTotalOrder(ranks: map<string, real>)
    ensures TotalPreorder(ByRank(ranks)) && Antisymmetric(ByRank(ranks))
  {
    StrLeIsTotalOrder();
  }

  method Position(list: seq<string>, node: string) returns (at: Option<nat>)
    ensures at.None? ==> node !in list
    ensures at.Some? ==> at.value < |list| && list[at.value] == node
  {
    for i := 0 to |list|
      invariant forall k :: 0 <= k < i ==> list[k] != node
    {
      if list[i] == node {
        return Some(i);
      }
    }
    return None;
  }

  /** `a` goes before `b`: the higher rank, no rank being 0, then the name in byte order. */
  ghost predicate Outranks(ranks: map<string, real>, a: string, b: string)
  {
    var ra, rb := if a in ranks then ranks[a] else 0.0, if b in ranks then ranks[b] else 0.0;
    ra > rb || (ra == rb && LexLe(a, b))
  }

  lemma RankLeOutranks(ranks: map<string, real>)
    ensures forall a, b :: RankLe(ranks, a, b) <==> Outranks(ranks, a, b)
  {
    forall a, b ensures RankLe(ranks, a, b) <==> Outranks(ranks, a, b) {
      StrLeIsLex(a, b);
    }
  }

  /** A bounded choice of the candidates that leaves out none that outranks a chosen one, the focus
      before all others. */
  ghost predicate Chosen(candidates: set<string>, ranks: map<string, real>, focus: Option<string>, bound: nat,
                         chosen: seq<string>)
  {
    && Distinct(chosen) && |chosen| == Min(bound, |candidates|)
    && (forall x :: x in chosen ==> x in candidates)
    && (focus.Some? && focus.value in candidates && bound >= 1 ==> focus.value in chosen)
    && (forall x, y :: x in chosen && y in candidates && y !in chosen && Some(x) != focus ==> Outranks(ranks, x, y))
  }

  lemma FrontIsChosen(candidates: set<string>, ranks: map<string, real>, focus: Option<string>, bound: nat,
                      ordered: seq<string>)
    requires Distinct(ordered) && |ordered| == |candidates| && forall x :: x in ordered <==> x in candidates
    requires focus.Some? && focus.value in candidates ==>
               ordered != [] && ordered[0] == focus.value && SortedBy(ordered[1..], ByRank(ranks))
    requires focus.None? || focus.value !in candidates ==> SortedBy(ordered, ByRank(ranks))
    ensures Chosen(candidates, ranks, focus, bound, ordered[..Min(bound, |ordered|)])
  {
    RankLeOutranks(ranks);
  }

  lemma MoveToFront(ordered: seq<string>, at: nat, ranks: map<string, real>)
    requires at < |ordered| && Distinct(ordered) && SortedBy(ordered, ByRank(ranks))
    ensures var moved := [ordered[at]] + ordered[..at] + ordered[at + 1..];
            && Distinct(moved) && |moved| == |ordered| && (forall x :: x in moved <==> x in ordered)
            && SortedBy(moved[1..], ByRank(ranks))
  {
  }

  /** Keeps the best-ranked candidates up to the bound, the focus always among them, in path order. */
  method Select(candidates: set<string>, ranks: map<string, real>, bound: nat, focus: Option<string>)
    returns (selected: seq<string>, ghost chosen: seq<string>)
    ensures Chosen(candidates, ranks, focus, bound, chosen)
    ensures multiset(selected) == multiset(chosen) && SortedBy(selected, StrLe)
  {
    var ordered := Ordered(candidates, ranks);
    var at: Option<nat> := None;
    if focus.Some? {
      at := Position(ordered, focus.value);
    }
    if at.Some? {
      MoveToFront(ordered, at.value, ranks);
      ordered := [ordered[at.value]] + ordered[..at.value] + ordered[at.value + 1..];
    }
    FrontIsChosen(candidates, ranks, focus, bound, ordered);
    ordered := ordered[..Min(bound, |ordered|)];
    chosen := ordered;
    selected := ByName(ordered);
  }

  method ByName(nodes: seq<string>) returns (sorted: seq<string>)
    ensures multiset(sorted) == multiset(nodes) && SortedBy(sorted, StrLe)
  {
    StrLeIsTotalOrder();
    SortBySorted(nodes, StrLe);
    sorted := SortBy(nodes, StrLe);
  }

  /** Every candidate once, the best-ranked first. */
  method Ordered(candidates: set<string>, ranks: map<string, real>) returns (ordered: seq<string>)
    ensures Distinct(ordered) && |ordered| == |candidates| && forall x :: x in ordered <==> x in candidates
    ensures SortedBy(ordered, ByRank(ranks))
  {
    var list := Elements(candidates);
    ByRankIsTotalOrder(ranks);
    SortBySorted(list, ByRank(ranks));
    SortByMembers(list, ByRank(ranks));
    ordered := SortBy(list, ByRank(ranks));
    DistinctFromMultiset(list, ordered);
  }

  /** The modules a flowchart draws: every module, or those within two links of the focus. */
  method SelectModules(graph: Graph, ranks: map<string, real>, bound: nat, focus: Option<string>)
    returns (selected: seq<string>, total: nat, ghost candidates: set<string>)
    requires Distinct(graph.nodes)
    ensures total == |candidates|
    ensures focus.None? ==> candidates == set x | x in graph.nodes
    ensures focus.Some? ==> forall x :: x in candidates <==>
              focus.value in graph.nodes && Within(graph.edges, focus.value, x, 2)
    ensures exists chosen :: Chosen(candidates, ranks, focus, bound, chosen) && multiset(selected) == multiset(chosen)
    ensures SortedBy(selected, StrLe)
  {
    var near: set<string> := set x | x in graph.nodes;
    if focus.Some? {
      var frontier;
      near, frontier := Neighbourhood(graph, focus.value, FOCUS_DISTANCE);
    }
    candidates := near;
    ghost var chosen;
    selected, chosen := Select(near, ranks, bound, focus);
    total := |near|;
  }
}
