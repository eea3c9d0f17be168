/** The reference sites that a bounded answer shows (crates/app/src/refs.rs): one site per line, and
    a limit that is spent breadth first over the files. */
module Refs {
  import opened Orders
  import opened Pairing
  import opened Fairness

  datatype Site = Site(path: string, line: nat, name: string)

  const PathOf: Site -> string := (site: Site) => site.path

  // ----- one site per line, in place order

  predicate PlaceLt(a: Site, b: Site)
  {
    if a.path != b.path then StrLe(a.path, b.path) else a.line < b.line
  }

  predicate SamePlace(a: Site, b: Site) { a.path == b.path && a.line == b.line }

  predicate StrictlyByPlace(sites: seq<Site>)
  {
    forall i, j :: 0 <= i < j < |sites| ==> PlaceLt(sites[i], sites[j])
  }

  lemma PlaceLtOrder(a: Site, b: Site, c: Site)
    ensures PlaceLt(a, b) || PlaceLt(b, a) || SamePlace(a, b)
    ensures PlaceLt(a, b) ==> !PlaceLt(b, a) && !SamePlace(a, b)
    ensures PlaceLt(a, b) && (PlaceLt(b, c) || SamePlace(b, c)) ==> PlaceLt(a, c)
  {
    StrLeTotal(a.path, b.path);
    if a.path != b.path && StrLe(a.path, b.path) && StrLe(b.path, a.path) { StrLeAntisymmetric(a.path, b.path); }
    if StrLe(a.path, b.path) && StrLe(b.path, c.path) {
      StrLeTransitive(a.path, b.path, c.path);
      if a.path == c.path { StrLeAntisymmetric(a.path, b.path); }
    }
  }

  /** `insert` on the sorted map: replaces the entry of an equal place, or adds one in order. */
  function Put(entries: seq<Site>, site: Site): seq<Site>
  {
    if entries == [] then [site]
    else if PlaceLt(entries[0], site) then [entries[0]] + Put(entries[1..], site)
    else if SamePlace(entries[0], site) then [site] + entries[1..]
    else [site] + entries
  }

  /** The map's contract: still sorted, holds the site, keeps every other place. */
  lemma {:induction false} PutFacts(entries: seq<Site>, site: Site)
    requires StrictlyByPlace(entries)
    ensures StrictlyByPlace(Put(entries, site))
    ensures forall x :: x in Put(entries, site) <==> x == site || (x in entries && !SamePlace(x, site))
  {
    if entries == [] {
    } else {
      var first, rest := entries[0], entries[1..];
      forall x | x in entries ensures x == first || (x in rest && PlaceLt(first, x)) {
        var i :| 0 <= i < |entries| && entries[i] == x;
        assert i > 0 ==> rest[i - 1] == x;
      }
      PlaceLtOrder(first, site, site);
      if PlaceLt(first, site) {
        PutFacts(rest, site);
        var more := Put(rest, site);
        forall i | 0 <= i < |more| ensures PlaceLt(first, more[i]) { assert more[i] in more; }
      } else {
        forall x | x in rest ensures PlaceLt(site, x) {
          PlaceLtOrder(site, first, x);
          if SamePlace(site, first) { assert PlaceLt(first, x); }
        }
        forall x | x in rest ensures !SamePlace(x, site) { PlaceLtOrder(site, x, x); }
        forall i | 0 <= i < |rest| ensures PlaceLt(site, rest[i]) { assert rest[i] in rest; }
      }
    }
  }

  /** `site` is the last spelling of its line. */
  ghost predicate LastSpelling(spellings: seq<Site>, site: Site)
  {
    exists j :: 0 <= j < |spellings| && spellings[j] == site &&
                forall k :: j < k < |spellings| ==> !SamePlace(spellings[k], site)
  }

  lemma LastSpellingAppend(spellings: seq<Site>, next: Site, site: Site)
    ensures LastSpelling(spellings + [next], site) <==>
            site == next || (LastSpelling(spellings, site) && !SamePlace(next, site))
  {
    var more := spellings + [next];
    if LastSpelling(more, site) && site != next {
      var j :| 0 <= j < |more| && more[j] == site && forall k :: j < k < |more| ==> !SamePlace(more[k], site);
      assert more[|spellings|] == next;
      forall k | j < k < |spellings| ensures !SamePlace(spellings[k], site) { assert more[k] == spellings[k]; }
      assert spellings[j] == site;
    }
    if site == next {
      assert more[|spellings|] == site;
    } else if LastSpelling(spellings, site) && !SamePlace(next, site) {
      var j :| 0 <= j < |spellings| && spellings[j] == site &&
               forall k :: j < k < |spellings| ==> !SamePlace(spellings[k], site);
      assert more[j] == site;
    }
  }

  function Deduped(spellings: seq<Site>): seq<Site>
  {
    if spellings == [] then [] else Put(Deduped(spellings[..|spellings| - 1]), spellings[|spellings| - 1])
  }

  /** Exactly the last spelling of each line, in file and line order. */
  lemma {:induction false} DedupedIsLast(spellings: seq<Site>)
    ensures StrictlyByPlace(Deduped(spellings))
    ensures forall x :: x in Deduped(spellings) <==> LastSpelling(spellings, x)
  {
    if spellings == [] {
    } else {
      var before, next := spellings[..|spellings| - 1], spellings[|spellings| - 1];
      DedupedIsLast(before);
      PutFacts(Deduped(before), next);
      assert spellings == before + [next];
      forall x ensures x in Deduped(spellings) <==> LastSpelling(spellings, x) {
        LastSpellingAppend(before, next, x);
      }
    }
  }

  method Dedupe(spellings: seq<Site>) returns (sites: seq<Site>)
    ensures sites == Deduped(spellings)
  {
    sites := [];
    for i := 0 to |spellings|
      invariant sites == Deduped(spellings[..i])
    {
      assert spellings[..i + 1][..i] == spellings[..i];
      sites := Put(sites, spellings[i]);
    }
    assert spellings[..|spellings|] == spellings;
  }

  // ----- the limit, spent one site per file at a time

  predicate ByPath(sites: seq<Site>)
  {
    forall i, j :: 0 <= i < j < |sites| ==> StrLe(sites[i].path, sites[j].path)
  }

  lemma PlaceOrderIsByPath(sites: seq<Site>)
    requires StrictlyByPlace(sites)
    ensures ByPath(sites)
  {
    forall i, j | 0 <= i < j < |sites| ensures StrLe(sites[i].path, sites[j].path) {
      assert PlaceLt(sites[i], sites[j]);
      StrLeTotal(sites[i].path, sites[j].path);
    }
  }

  /** In path order, a path that differs from the one before it is new. */
  lemma NewPath(sites: seq<Site>)
    requires ByPath(sites) && |sites| >= 2 && sites[|sites| - 2].path != sites[|sites| - 1].path
    ensures Count(sites[..|sites| - 1], PathOf, sites[|sites| - 1].path) == 0
  {
    var last := |sites| - 1;
    var before, p, q := sites[..last], sites[last].path, sites[last - 1].path;
    forall x | x in before ensures x.path != p {
      var i :| 0 <= i < |before| && before[i] == x;
      assert sites[i] == x;
      if i < last - 1 && x.path == p { StrLeAntisymmetric(p, q); }
    }
    CountZero(before, PathOf, p);
  }

  lemma {:induction false} FileGroups(sites: seq<Site>)
    requires ByPath(sites)
    ensures GroupsOf(Groups(sites, PathOf), sites, PathOf)
    ensures sites != [] ==> Groups(sites, PathOf) != []
    ensures sites != [] ==> PathOf(Groups(sites, PathOf)[|Groups(sites, PathOf)| - 1][0]) == sites[|sites| - 1].path
  {
    if sites == [] {
    } else {
      var before, site := sites[..|sites| - 1], sites[|sites| - 1];
      FileGroups(before);
      if before != [] && before[|before| - 1].path != site.path {
        NewPath(sites);
      }
      AddItemFacts(Groups(before, PathOf), before, PathOf, site);
      assert sites == before + [site];
    }
  }

  /** The first `limit` sites, one site per file at a time. */
  method RoundRobin(sites: seq<Site>, limit: nat) returns (kept: seq<Site>)
    ensures kept == Take(Rounds(Groups(sites, PathOf), Longest(Groups(sites, PathOf))), limit)
  {
    var byFile: seq<seq<Site>> := [];
    for i := 0 to |sites|
      invariant byFile == Groups(sites[..i], PathOf)
    {
      assert sites[..i + 1][..i] == sites[..i];
      byFile := AddItem(byFile, PathOf, sites[i]);
    }
    assert sites[..|sites|] == sites;
    var rounds := Longest(byFile);
    kept := [];
    for round := 0 to rounds
      invariant kept == Rounds(byFile, round)
    {
      var column := OneRound(byFile, round);
      kept := kept + column;
    }
    kept := Take(kept, limit);
  }

  /** One site of each file that has one left for this round. */
  method OneRound(byFile: seq<seq<Site>>, round: nat) returns (column: seq<Site>)
    ensures column == Column(byFile, round)
  {
    column := [];
    for g := 0 to |byFile|
      invariant column == Column(byFile[..g], round)
    {
      assert byFile[..g + 1][..g] == byFile[..g];
      if round < |byFile[g]| {
        column := column + [byFile[g][round]];
      }
    }
    assert byFile[..|byFile|] == byFile;
  }

  /** For sites in path order, as `Dedupe` gives them: the limit is spent in full, each file keeps
      its first sites, and a file that loses a site keeps at most one less than any other file. */
  lemma RoundRobinIsFair(sites: seq<Site>, limit: nat, p: string, q: string)
    requires ByPath(sites)
    ensures var kept := Take(Rounds(Groups(sites, PathOf), Longest(Groups(sites, PathOf))), limit);
            && |kept| == Min(limit, |sites|)
            && Filter(kept, PathOf, p) <= Filter(sites, PathOf, p)
            && (Count(kept, PathOf, p) < Count(sites, PathOf, p) ==>
                  Count(kept, PathOf, q) <= Count(kept, PathOf, p) + 1)
  {
    FileGroups(sites);
    CutIsFair(sites, Groups(sites, PathOf), PathOf, limit, p, q);
  }

  /** The sites a bounded answer shows, from the spellings found: fair over the files. */
  method Shown(spellings: seq<Site>, limit: nat) returns (kept: seq<Site>)
    ensures |kept| == Min(limit, |Deduped(spellings)|)
    ensures forall p :: Filter(kept, PathOf, p) <= Filter(Deduped(spellings), PathOf, p)
    ensures forall p, q :: Count(kept, PathOf, p) < Count(Deduped(spellings), PathOf, p) ==>
              Count(kept, PathOf, q) <= Count(kept, PathOf, p) + 1
  {
    var sites := Dedupe(spellings);
    DedupedIsLast(spellings);
    PlaceOrderIsByPath(sites);
    kept := RoundRobin(sites, limit);
    RoundRobinIsFair(sites, limit, "", "");
    forall p ensures Filter(kept, PathOf, p) <= Filter(sites, PathOf, p) { RoundRobinIsFair(sites, limit, p, p); }
    forall p, q | Count(kept, PathOf, p) < Count(sites, PathOf, p)
      ensures Count(kept, PathOf, q) <= Count(kept, PathOf, p) + 1
    {
      RoundRobinIsFair(sites, limit, p, q);
    }
  }
}
