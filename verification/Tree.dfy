/** The directory tree view (crates/app/src/tree.rs): the tree of a list of paths, and its rendering
    under a depth and an entry budget. */
module Tree {
  import opened Orders
  import opened Text

  datatype Directory = Directory(entries: map<string, Child>)

  datatype Child = File | Sub(directory: Directory)

  const EMPTY := Directory(map[])

  type Path = parts: seq<string> | parts != [] witness [""]

  // ----- what a tree holds

  datatype Kind = Absent | IsFile | IsDirectory

  function KindAt(d: Directory, path: Path): Kind
    decreases |path|
  {
    if path[0] !in d.entries then Absent
    else
      match d.entries[path[0]]
      case File => if |path| == 1 then IsFile else Absent
      case Sub(child) => if |path| == 1 then IsDirectory else KindAt(child, path[1..])
  }

  /** A tree is what it holds. */
  lemma {:induction false} SameKinds(a: Directory, b: Directory)
    requires forall path: Path :: KindAt(a, path) == KindAt(b, path)
    ensures a == b
    decreases a
  {
    forall name ensures name in a.entries <==> name in b.entries {
      assert KindAt(a, [name]) == KindAt(b, [name]);
    }
    forall name | name in a.entries ensures a.entries[name] == b.entries[name] {
      assert KindAt(a, [name]) == KindAt(b, [name]);
      if a.entries[name].Sub? {
        var left, right := a.entries[name].directory, b.entries[name].directory;
        forall path: Path ensures KindAt(left, path) == KindAt(right, path) {
          var longer: Path := [name] + path;
          assert longer[1..] == path;
          assert KindAt(a, longer) == KindAt(b, longer);
        }
        SameKinds(left, right);
      }
    }
    assert a.entries == b.entries;
  }

  // ----- building the tree

  /** Adds one file: its directories replace a file of the same name, and the file itself replaces
      nothing. */
  function Insert(d: Directory, path: Path): Directory
    decreases |path|
  {
    var name := path[0];
    if |path| == 1 then
      if name in d.entries then d else Directory(d.entries[name := File])
    else
      var child := if name in d.entries && d.entries[name].Sub? then d.entries[name].directory else EMPTY;
      Directory(d.entries[name := Sub(Insert(child, path[1..]))])
  }

  lemma {:induction false} InsertKinds(d: Directory, path: Path, at: Path)
    ensures KindAt(Insert(d, path), at) ==
            if at < path then IsDirectory
            else if at == path && KindAt(d, at) == Absent then IsFile
            else KindAt(d, at)
    decreases |path|
  {
    if |path| > 1 && at[0] == path[0] && |at| > 1 {
      var name := path[0];
      var child := if name in d.entries && d.entries[name].Sub? then d.entries[name].directory else EMPTY;
      InsertKinds(child, path[1..], at[1..]);
      assert at == [name] + at[1..] && path == [name] + path[1..];
      assert at < path <==> at[1..] < path[1..];
      assert at == path <==> at[1..] == path[1..];
    } else if |path| == 1 {
      assert at < path ==> |at| == 0;
    }
  }

  /** What a list of paths says of one place: a directory when a path goes through it, else a file
      when a path is it. */
  ghost function Meaning(paths: set<Path>, at: Path): Kind
  {
    if exists path :: path in paths && at < path then IsDirectory
    else if at in paths then IsFile
    else Absent
  }

  function PathOf(file: string): Path { Split(file, '/') }

  /** The path of a file name: its parts between slashes. */
  lemma PathBySlashes(file: string, path: Path)
    ensures PathOf(file) == path <==>
            Join(path, '/') == file && forall i :: 0 <= i < |path| ==> '/' !in path[i]
  {
    SplitExactly(file, '/', path);
  }

  ghost function PathsOf(files: seq<string>): set<Path> { set i | 0 <= i < |files| :: PathOf(files[i]) }

  function TreeOf(files: seq<string>): Directory
  {
    if files == [] then EMPTY else Insert(TreeOf(files[..|files| - 1]), PathOf(files[|files| - 1]))
  }

  /** The tree holds at each place exactly what the paths say of it. */
  lemma {:induction false} TreeMeaning(files: seq<string>, at: Path)
    ensures KindAt(TreeOf(files), at) == Meaning(PathsOf(files), at)
  {
    if files == [] {
    } else {
      var last := |files| - 1;
      TreeMeaning(files[..last], at);
      InsertKinds(TreeOf(files[..last]), PathOf(files[last]), at);
      PathsNext(files, last);
      assert files[..last + 1] == files;
      MeaningNext(PathsOf(files[..last]), PathOf(files[last]), at);
    }
  }

  method BuildTree(files: seq<string>) returns (root: Directory)
    ensures root == TreeOf(files)
  {
    root := EMPTY;
    for i := 0 to |files|
      invariant root == TreeOf(files[..i])
    {
      assert files[..i + 1][..i] == files[..i];
      root := Insert(root, PathOf(files[i]));
    }
    assert files[..|files|] == files;
  }

  lemma PathsNext(files: seq<string>, i: nat)
    requires i < |files|
    ensures PathsOf(files[..i + 1]) == PathsOf(files[..i]) + {PathOf(files[i])}
  {
  }

  lemma MeaningNext(paths: set<Path>, path: Path, at: Path)
    ensures Meaning(paths + {path}, at) ==
            if at < path then IsDirectory
            else if at == path && Meaning(paths, at) == Absent then IsFile
            else Meaning(paths, at)
  {
  }

  /** Every order of the paths, and any repetition, gives the same tree. */
  lemma OrderDoesNotMatter(a: seq<string>, b: seq<string>)
    requires forall file :: file in a <==> file in b
    ensures TreeOf(a) == TreeOf(b)
  {
    SamePaths(a, b);
    SamePaths(b, a);
    forall at: Path ensures KindAt(TreeOf(a), at) == KindAt(TreeOf(b), at) {
      TreeMeaning(a, at);
      TreeMeaning(b, at);
    }
    SameKinds(TreeOf(a), TreeOf(b));
  }

  lemma SamePaths(a: seq<string>, b: seq<string>)
    requires forall file :: file in a ==> file in b
    ensures PathsOf(a) <= PathsOf(b)
  {
    forall path | path in PathsOf(a) ensures path in PathsOf(b) {
      var i :| 0 <= i < |a| && path == PathOf(a[i]);
      assert a[i] in b;
      var j :| 0 <= j < |b| && b[j] == a[i];
    }
  }

  // ----- the names of a directory, in order

  ghost predicate IsListing(names: seq<string>, members: set<string>)
  {
    SortedBy(names, StrLe) && Distinct(names) && forall x :: x in names <==> x in members
  }

  method ListNames(members: set<string>) returns (names: seq<string>)
    ensures IsListing(names, members)
  {
    var list := Elements(members);
    StrLeIsTotalOrder();
    SortBySorted(list, StrLe);
    SortByMembers(list, StrLe);
    names := SortBy(list, StrLe);
    DistinctFromMultiset(list, names);
  }

  lemma {:induction false} ListingExists(members: set<string>) returns (names: seq<string>)
    ensures IsListing(names, members)
  {
    if members == {} {
      names := [];
    } else {
      var x :| x in members;
      var rest := ListingExists(members - {x});
      StrLeIsTotalOrder();
      InsertSorted(x, rest, StrLe);
      names := Orders.Insert(x, rest, StrLe);
      assert [x] + rest == [x] + rest;
      DistinctAppend([x], rest);
      DistinctFromMultiset([x] + rest, names);
      forall y ensures y in names <==> y in members {
        assert y in multiset(names) <==> y in multiset([x] + rest);
        assert y in [x] + rest <==> y == x || y in rest;
      }
    }
  }

  ghost function Listing(members: set<string>): (names: seq<string>)
    ensures IsListing(names, members)
  {
    assert exists names :: IsListing(names, members) by { var names := ListingExists(members); }
    var names :| IsListing(names, members);
    names
  }

  lemma ListingUnique(a: seq<string>, b: seq<string>, members: set<string>)
    requires IsListing(a, members) && IsListing(b, members)
    ensures a == b
  {
    StrLeIsTotalOrder();
    forall x ensures multiset(a)[x] == multiset(b)[x] {
      DistinctCount(a, x);
      DistinctCount(b, x);
    }
    assert multiset(a) == multiset(b);
    SortedUnique(a, b, StrLe);
  }

  // ----- counting the names under a directory

  /** The names of a directory in iteration order. */
  ghost function Names(d: Directory): (names: seq<string>)
    ensures IsListing(names, d.entries.Keys)
  {
    Listing(d.entries.Keys)
  }

  ghost predicate Known(d: Directory, names: seq<string>)
  {
    forall i :: 0 <= i < |names| ==> names[i] in d.entries
  }

  ghost function CountOf(d: Directory, names: seq<string>): nat
    requires Known(d, names)
    decreases d, |names|
  {
    if names == [] then 0
    else
      var child := d.entries[names[0]];
      1 + (if child.Sub? then CountEntriesOf(child.directory) else 0) + CountOf(d, names[1..])
  }

  /** The names under a directory, at every depth. */
  ghost function CountEntriesOf(d: Directory): nat
    decreases d, |Names(d)| + 1
  {
    CountOf(d, Names(d))
  }

  method CountEntries(d: Directory) returns (count: nat)
    ensures count == CountEntriesOf(d)
    decreases d
  {
    var names := ListNames(d.entries.Keys);
    ListingUnique(names, Names(d), d.entries.Keys);
    count := 0;
    for i := 0 to |names|
      invariant count + CountOf(d, names[i..]) == CountEntriesOf(d)
    {
      var child := d.entries[names[i]];
      assert names[i..][1..] == names[i + 1..];
      var below := 0;
      if child.Sub? {
        below := CountEntries(child.directory);
      }
      count := count + 1 + below;
    }
  }

  // ----- the depth-limited preorder

  /** One name of the preorder; a directory at the depth limit hides the names under it. */
  datatype Item = Item(level: nat, name: string, directory: bool, cut: bool, hidden: nat)

  ghost function ItemsOf(child: Child, name: string, level: nat, depth: nat): seq<Item>
    decreases child, 0
  {
    match child
    case File => [Item(level, name, false, false, 0)]
    case Sub(d) =>
      if level + 1 >= depth then [Item(level, name, true, true, CountEntriesOf(d))]
      else [Item(level, name, true, false, 0)] + Items(d, Names(d), level + 1, depth)
  }

  ghost function Items(d: Directory, names: seq<string>, level: nat, depth: nat): seq<Item>
    requires Known(d, names)
    decreases d, |names|
  {
    if names == [] then []
    else ItemsOf(d.entries[names[0]], names[0], level, depth) + Items(d, names[1..], level, depth)
  }

  /** A name, and what a directory at the depth limit hides, count as one and the hidden names. */
  ghost function Weight(items: seq<Item>): nat
  {
    if items == [] then 0 else 1 + items[0].hidden + Weight(items[1..])
  }

  ghost function HiddenIn(items: seq<Item>): nat
  {
    if items == [] then 0 else items[0].hidden + HiddenIn(items[1..])
  }

  lemma {:induction false} WeightConcat(a: seq<Item>, b: seq<Item>)
    ensures Weight(a + b) == Weight(a) + Weight(b)
  {
    if a == [] {
      assert a + b == b;
    } else {
      WeightConcat(a[1..], b);
      assert (a + b)[1..] == a[1..] + b;
    }
  }

  lemma {:induction false} WeightParts(items: seq<Item>)
    ensures Weight(items) == |items| + HiddenIn(items)
  {
    if items == [] {
    } else {
      WeightParts(items[1..]);
    }
  }

  /** The preorder accounts for every name of the tree, whatever the depth. */
  lemma {:induction false} WeightIsCount(d: Directory, names: seq<string>, level: nat, depth: nat)
    requires Known(d, names)
    ensures Weight(Items(d, names, level, depth)) == CountOf(d, names)
    decreases d, |names|
  {
    if names == [] {
    } else {
      var child := d.entries[names[0]];
      var first := ItemsOf(child, names[0], level, depth);
      WeightIsCount(d, names[1..], level, depth);
      WeightConcat(first, Items(d, names[1..], level, depth));
      ChildWeight(d, names[0], level, depth);
    }
  }

  lemma {:induction false} ChildWeight(d: Directory, name: string, level: nat, depth: nat)
    requires name in d.entries
    ensures var child := d.entries[name];
            Weight(ItemsOf(child, name, level, depth)) ==
                1 + (if child.Sub? then CountEntriesOf(child.directory) else 0)
    decreases d, 0
  {
    var child := d.entries[name];
    if child.Sub? && level + 1 < depth {
      var inner := child.directory;
      WeightIsCount(inner, Names(inner), level + 1, depth);
      var items := ItemsOf(child, name, level, depth);
      assert items[1..] == Items(inner, Names(inner), level + 1, depth);
    } else {
      var items := ItemsOf(child, name, level, depth);
      assert items[1..] == [];
    }
  }

  // ----- the preorder by its paths

  /** `a` comes before `b` in the preorder: it is above `b`, or the first name they differ in is smaller. */
  ghost predicate Before(a: Path, b: Path)
  {
    a < b || exists k: nat :: DifferAt(a, b, k)
  }

  ghost predicate DifferAt(a: Path, b: Path, k: nat)
  {
    k < |a| && k < |b| && a[..k] == b[..k] && a[k] != b[k] && LexLe(a[k], b[k])
  }

  /** The item is the entry at `path`, `level` levels further down. */
  ghost predicate Shows(d: Directory, path: Path, level: nat, depth: nat, item: Item)
  {
    && KindAt(d, path) != Absent
    && item.level + 1 == level + |path|
    && item.name == path[|path| - 1]
    && item.directory == (KindAt(d, path) == IsDirectory)
    && item.cut == (KindAt(d, path) == IsDirectory && level + |path| >= depth)
  }

  /** An entry is shown when it is at the top or no deeper than the limit. */
  ghost predicate Reached(d: Directory, names: seq<string>, path: Path, level: nat, depth: nat)
  {
    path[0] in names && KindAt(d, path) != Absent && (|path| == 1 || level + |path| <= depth)
  }

  /** The items are the entries under `names` within the depth limit, each once, a directory before what
      it holds and siblings by name. */
  ghost predicate InPreorder(d: Directory, names: seq<string>, level: nat, depth: nat, paths: seq<Path>,
                             items: seq<Item>)
  {
    && |paths| == |items|
    && (forall i :: 0 <= i < |items| ==> Shows(d, paths[i], level, depth, items[i]))
    && (forall path: Path :: path in paths <==> Reached(d, names, path, level, depth))
    && (forall i, j :: 0 <= i < j < |paths| ==> Before(paths[i], paths[j]))
  }

  ghost predicate InOrder(names: seq<string>)
  {
    SortedBy(names, StrLe) && Distinct(names)
  }

  lemma {:induction false} ItemsInPreorder(d: Directory, names: seq<string>, level: nat, depth: nat)
    returns (paths: seq<Path>)
    requires Known(d, names) && InOrder(names)
    ensures InPreorder(d, names, level, depth, paths, Items(d, names, level, depth))
    decreases d, |names|
  {
    if names == [] {
      paths := [];
    } else {
      var first := ItemInPreorder(d, names[0], level, depth);
      var rest := ItemsInPreorder(d, names[1..], level, depth);
      paths := first + rest;
      PreorderNext(d, names, level, depth, first, rest);
    }
  }

  lemma PreorderNext(d: Directory, names: seq<string>, level: nat, depth: nat, first: seq<Path>, rest: seq<Path>)
    requires names != [] && Known(d, names) && InOrder(names)
    requires InPreorder(d, [names[0]], level, depth, first, ItemsOf(d.entries[names[0]], names[0], level, depth))
    requires InPreorder(d, names[1..], level, depth, rest, Items(d, names[1..], level, depth))
    ensures InPreorder(d, names, level, depth, first + rest, Items(d, names, level, depth))
  {
    var paths := first + rest;
    forall path: Path ensures path in paths <==> Reached(d, names, path, level, depth) {
      assert path in first <==> Reached(d, [names[0]], path, level, depth);
      assert path in rest <==> Reached(d, names[1..], path, level, depth);
    }
    forall i, j | 0 <= i < |first| && 0 <= j < |rest| ensures Before(first[i], rest[j]) {
      assert first[i] in first && rest[j] in rest;
      StrLeIsLex(first[i][0], rest[j][0]);
      assert DifferAt(first[i], rest[j], 0);
    }
  }

  lemma {:induction false} ItemInPreorder(d: Directory, name: string, level: nat, depth: nat)
    returns (paths: seq<Path>)
    requires name in d.entries
    ensures InPreorder(d, [name], level, depth, paths, ItemsOf(d.entries[name], name, level, depth))
    decreases d, 0
  {
    var child := d.entries[name];
    var top: Path := [name];
    paths := [top];
    if child.Sub? && level + 1 < depth {
      var inner := child.directory;
      var below := ItemsInPreorder(inner, Names(inner), level + 1, depth);
      paths := [top] + Under(name, below);
      PreorderUnder(d, name, level, depth, below);
    } else {
      forall path: Path ensures path in paths <==> Reached(d, [name], path, level, depth) {
        assert |path| == 1 && path[0] == name ==> path == top;
      }
    }
  }

  ghost function Under(name: string, below: seq<Path>): seq<Path>
  {
    seq(|below|, i requires 0 <= i < |below| => [name] + below[i])
  }

  lemma ShowsUnder(d: Directory, name: string, path: Path, level: nat, depth: nat, item: Item)
    requires name in d.entries && d.entries[name].Sub?
    requires Shows(d.entries[name].directory, path, level + 1, depth, item)
    ensures Shows(d, [name] + path, level, depth, item)
  {
    assert ([name] + path)[1..] == path;
  }

  lemma ReachedUnder(d: Directory, name: string, path: Path, level: nat, depth: nat, below: seq<Path>)
    requires name in d.entries && d.entries[name].Sub? && level + 1 < depth
    requires var inner := d.entries[name].directory;
             forall p: Path :: p in below <==> Reached(inner, Names(inner), p, level + 1, depth)
    ensures path in [[name]] + Under(name, below) <==> Reached(d, [name], path, level, depth)
  {
    var inner := d.entries[name].directory;
    var top: Path, under := [name], Under(name, below);
    assert path in [top] + under <==> path == top || path in under;
    if |path| > 1 && path[0] == name {
      UnderHolds(name, below, path);
      assert path[1..] in below <==> Reached(inner, Names(inner), path[1..], level + 1, depth);
      assert KindAt(d, path) == KindAt(inner, path[1..]);
    } else {
      NotUnder(name, below, path);
      assert |path| == 1 && path[0] == name ==> path == top;
    }
  }

  lemma PreorderUnder(d: Directory, name: string, level: nat, depth: nat, below: seq<Path>)
    requires name in d.entries && d.entries[name].Sub? && level + 1 < depth
    requires var inner := d.entries[name].directory;
             InPreorder(inner, Names(inner), level + 1, depth, below, Items(inner, Names(inner), level + 1, depth))
    ensures InPreorder(d, [name], level, depth, [[name]] + Under(name, below),
                       ItemsOf(d.entries[name], name, level, depth))
  {
    var inner := d.entries[name].directory;
    var top: Path, under := [name], Under(name, below);
    forall i | 0 <= i < |below|
      ensures Shows(d, under[i], level, depth, Items(inner, Names(inner), level + 1, depth)[i])
    {
      ShowsUnder(d, name, below[i], level, depth, Items(inner, Names(inner), level + 1, depth)[i]);
    }
    forall path: Path ensures path in [top] + under <==> Reached(d, [name], path, level, depth) {
      ReachedUnder(d, name, path, level, depth, below);
    }
    forall i, j | 0 <= i < j < |below| ensures Before(under[i], under[j]) {
      BeforeUnder(name, below[i], below[j]);
    }
  }

  lemma NotUnder(name: string, below: seq<Path>, path: Path)
    requires |path| == 1 || path[0] != name
    ensures path !in Under(name, below)
  {
    forall i | 0 <= i < |below| ensures Under(name, below)[i] != path {
      assert Under(name, below)[i] == [name] + below[i] && |below[i]| > 0;
    }
  }

  lemma UnderHolds(name: string, below: seq<Path>, path: Path)
    requires |path| > 1 && path[0] == name
    ensures path in Under(name, below) <==> path[1..] in below
  {
    var under := Under(name, below);
    assert path == [name] + path[1..];
    forall i | 0 <= i < |below| ensures under[i] == path <==> below[i] == path[1..] {
      assert under[i][1..] == below[i];
    }
    assert path[1..] in below ==> exists i :: 0 <= i < |below| && below[i] == path[1..] && under[i] == path;
  }

  lemma BeforeUnder(name: string, a: Path, b: Path)
    requires Before(a, b)
    ensures Before([name] + a, [name] + b)
  {
    var c: Path, e: Path := [name] + a, [name] + b;
    if k: nat :| DifferAt(a, b, k) {
      assert c[..k + 1] == [name] + a[..k] && e[..k + 1] == [name] + b[..k];
      assert DifferAt(c, e, k + 1);
    }
  }

  // ----- the count by its paths

  /** The paths under `names` that the tree holds anything at, each once. */
  ghost predicate Enumerates(d: Directory, names: seq<string>, paths: seq<Path>)
  {
    Distinct(paths) && forall path: Path :: path in paths <==> path[0] in names && KindAt(d, path) != Absent
  }

  /** The count is the number of paths the tree holds anything at. */
  lemma {:induction false} CountIsPaths(d: Directory, names: seq<string>) returns (paths: seq<Path>)
    requires Known(d, names) && Distinct(names)
    ensures |paths| == CountOf(d, names) && Enumerates(d, names, paths)
    decreases d, |names|
  {
    if names == [] {
      paths := [];
    } else {
      var name, child := names[0], d.entries[names[0]];
      var top: Path := [name];
      var below: seq<Path> := [];
      if child.Sub? {
        below := CountIsPaths(child.directory, Names(child.directory));
      }
      var rest := CountIsPaths(d, names[1..]);
      paths := ([top] + Under(name, below)) + rest;
      EnumeratesUnder(d, name, below);
      EnumeratesNext(d, names, [top] + Under(name, below), rest);
    }
  }

  lemma EnumeratesUnder(d: Directory, name: string, below: seq<Path>)
    requires name in d.entries
    requires if d.entries[name].Sub?
             then Enumerates(d.entries[name].directory, Names(d.entries[name].directory), below)
             else below == []
    ensures Enumerates(d, [name], [[name]] + Under(name, below))
  {
    var top: Path, under := [name], Under(name, below);
    forall path: Path ensures path in [top] + under <==> path[0] == name && KindAt(d, path) != Absent {
      assert path in [top] + under <==> path == top || path in under;
      if |path| > 1 && path[0] == name {
        UnderHolds(name, below, path);
      } else {
        NotUnder(name, below, path);
        assert |path| == 1 && path[0] == name ==> path == top;
      }
    }
    forall i, j | 0 <= i < j < |below| ensures under[i] != under[j] {
      assert under[i][1..] == below[i] && under[j][1..] == below[j];
    }
    NotUnder(name, below, top);
  }

  lemma EnumeratesNext(d: Directory, names: seq<string>, first: seq<Path>, rest: seq<Path>)
    requires names != [] && Distinct(names)
    requires Enumerates(d, [names[0]], first) && Enumerates(d, names[1..], rest)
    ensures Enumerates(d, names, first + rest)
  {
    forall path: Path ensures path in first + rest <==> path[0] in names && KindAt(d, path) != Absent {
      assert path in first <==> path[0] in [names[0]] && KindAt(d, path) != Absent;
    }
    forall i, j | 0 <= i < |first| && 0 <= j < |rest| ensures first[i] != rest[j] {
      assert first[i] in first && rest[j] in rest;
    }
  }

  // ----- rendering under a budget

  datatype Line = Name(level: nat, name: string, directory: bool) | Dots(level: nat)

  /** An item's own line, and the dots under a directory at the depth limit. */
  ghost function OwnLines(item: Item): seq<Line>
  {
    [Name(item.level, item.name, item.directory)] + (if item.cut then [Dots(item.level + 1)] else [])
  }

  ghost function LinesOf(items: seq<Item>): seq<Line>
  {
    if items == [] then [] else OwnLines(items[0]) + LinesOf(items[1..])
  }

  lemma {:induction false} LinesConcat(a: seq<Item>, b: seq<Item>)
    ensures LinesOf(a + b) == LinesOf(a) + LinesOf(b)
  {
    if a == [] {
      assert a + b == b;
    } else {
      var own, rest := OwnLines(a[0]), LinesOf(a[1..]);
      LinesConcat(a[1..], b);
      assert (a + b)[0] == a[0] && (a + b)[1..] == a[1..] + b;
      Associate(own, rest, LinesOf(b));
    }
  }

  /** The budget and the lines so far. */
  datatype Progress = Progress(remaining: nat, omitted: nat, lines: seq<Line>)

  /** The entries of `items` met a budget: the names it pays for are lines, the rest only counted. */
  ghost predicate Spends(items: seq<Item>, before: Progress, after: Progress)
  {
    var shown := Min(before.remaining, |items|);
    && after.remaining == before.remaining - shown
    && after.omitted == before.omitted + Weight(items[shown..])
    && after.lines == before.lines + LinesOf(items[..shown])
  }

  lemma SpendsConcat(a: seq<Item>, b: seq<Item>, start: Progress, middle: Progress, end: Progress)
    requires Spends(a, start, middle) && Spends(b, middle, end)
    ensures Spends(a + b, start, end)
  {
    var whole := a + b;
    var m, k := Min(start.remaining, |a|), Min(middle.remaining, |b|);
    var shown := Min(start.remaining, |whole|);
    if start.remaining <= |a| {
      assert shown == m && k == 0;
      assert whole[..shown] == a[..m] && whole[shown..] == a[m..] + b && b[0..] == b && b[..0] == [];
      WeightConcat(a[m..], b);
      assert end.lines == middle.lines + [];
    } else {
      assert shown == m + k && a[..m] == a && a[m..] == [];
      assert whole[..shown] == a + b[..k] && whole[shown..] == b[k..];
      LinesConcat(a, b[..k]);
      assert (start.lines + LinesOf(a)) + LinesOf(b[..k]) == start.lines + (LinesOf(a) + LinesOf(b[..k]));
    }
  }

  lemma SpendsNothing(progress: Progress)
    ensures Spends([], progress, progress)
  {
  }

  lemma ItemsNext(d: Directory, names: seq<string>, i: nat, level: nat, depth: nat, done: seq<Item>)
    requires Known(d, names) && i < |names|
    ensures done + Items(d, names[i..], level, depth) ==
            (done + ItemsOf(d.entries[names[i]], names[i], level, depth)) + Items(d, names[i + 1..], level, depth)
  {
  }

  class Rendering {
    var remaining: nat
    var omitted: nat
    var lines: seq<Line>

    function View(): Progress
      reads this
    {
      Progress(remaining, omitted, lines)
    }

    constructor (maxEntries: nat)
      ensures View() == Progress(maxEntries, 0, [])
    {
      remaining, omitted, lines := maxEntries, 0, [];
    }

    /** Renders one directory: the names in preorder while the budget lasts, then only counts. */
    method RenderLevel(d: Directory, level: nat, depth: nat)
      modifies this
      ensures Spends(Items(d, Names(d), level, depth), old(View()), View())
      decreases d, 1
    {
      var names := ListNames(d.entries.Keys);
      ListingUnique(names, Names(d), d.entries.Keys);
      ghost var done: seq<Item> := [];
      SpendsNothing(View());
      assert done + Items(d, names[0..], level, depth) ==
             Items(d, names, level, depth) by
      {
        assert names[0..] == names;
      }
      for i := 0 to |names|
        invariant Spends(done, old(View()), View())
        invariant done + Items(d, names[i..], level, depth) == Items(d, names, level, depth)
      {
        ghost var before := View();
        ItemsNext(d, names, i, level, depth, done);
        RenderChild(d, names[i], level, depth);
        SpendsConcat(done, ItemsOf(d.entries[names[i]], names[i], level, depth), old(View()), before, View());
        done := done + ItemsOf(d.entries[names[i]], names[i], level, depth);
      }
      assert done + [] == done;
    }

    /** One entry of a directory. */
    method RenderChild(d: Directory, name: string, level: nat, depth: nat)
      requires name in d.entries
      modifies this
      ensures Spends(ItemsOf(d.entries[name], name, level, depth), old(View()), View())
      decreases d, 0
    {
      var child := d.entries[name];
      ghost var items := ItemsOf(child, name, level, depth);
      if remaining == 0 {
        var below := 0;
        if child.Sub? {
          below := CountEntries(child.directory);
        }
        omitted := omitted + below + 1;
        ChildWeight(d, name, level, depth);
        assert items[0..] == items && items[..0] == [];
        return;
      }
      remaining := remaining - 1;
      if child.File? {
        lines := lines + [Name(level, name, false)];
        assert items[..1] == items && items[1..] == [] && items[..0] == [];
        return;
      }
      lines := lines + [Name(level, name, true)];
      if level + 1 >= depth {
        lines := lines + [Dots(level + 1)];
        assert items[..1] == items && items[1..] == [] && items[..0] == [];
        return;
      }
      ghost var first, middle := [Item(level, name, true, false, 0)], View();
      assert first[..1] == first && first[1..] == [] && first[..0] == [];
      assert Spends(first, old(View()), middle);
      RenderLevel(child.directory, level + 1, depth);
      SpendsConcat(first, Items(child.directory, Names(child.directory), level + 1, depth), old(View()), middle,
          View());
    }
  }

  /** The rendered tree: the first `maxEntries` names of the depth-limited preorder, and every name
      accounted for as rendered, omitted, or hidden under a rendered directory. */
  method RenderTree(files: seq<string>, depth: nat, maxEntries: nat) returns (lines: seq<Line>, omitted: nat)
    ensures var root := TreeOf(files);
            var items := Items(root, Names(root), 0, depth);
            var shown := items[..Min(maxEntries, |items|)];
            && lines == LinesOf(shown)
            && |shown| + omitted + HiddenIn(shown) == CountEntriesOf(root)
  {
    var root := BuildTree(files);
    var rendering := new Rendering(maxEntries);
    rendering.RenderLevel(root, 0, depth);
    lines, omitted := rendering.lines, rendering.omitted;
    AllAccounted(root, depth, maxEntries, rendering.View());
  }

  lemma AllAccounted(root: Directory, depth: nat, maxEntries: nat, end: Progress)
    requires Spends(Items(root, Names(root), 0, depth), Progress(maxEntries, 0, []), end)
    ensures var items := Items(root, Names(root), 0, depth);
            var shown := items[..Min(maxEntries, |items|)];
            && end.lines == LinesOf(shown)
            && |shown| + end.omitted + HiddenIn(shown) == CountEntriesOf(root)
  {
    var items := Items(root, Names(root), 0, depth);
    var shown, rest := items[..Min(maxEntries, |items|)], items[Min(maxEntries, |items|)..];
    assert [] + LinesOf(shown) == LinesOf(shown);
    assert items == shown + rest;
    WeightConcat(shown, rest);
    WeightParts(shown);
    WeightIsCount(root, Names(root), 0, depth);
  }
}
