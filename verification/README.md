# Verified models of agentless-mcp's checks and bounded views

agentless-mcp navigates and checks code repositories. Its erosion checks compare the two sides of a
change and report what the change added; its views cut large answers to a budget; its own build
holds a policy gate and a scanner of Rust token trees. This project models the exact algorithms
behind them in Dafny, in the form they have in the source (loops and objects that update state as
methods and classes, expressions as functions), and proves what they promise for every input,
every run and every interleaving.

`dafny verify dfyconfig.toml` checks the whole project.

## Reading order

- **Clone delta**: `Pairing`, `Copies` (one pass), `Added` (the five passes), `CloneRun` (the run as
  an object, the outermost sweep). The model assumes that equal exact keys imply equal Type-2 keys;
  the kept-line map of the diff is an arbitrary given map.
- **Boundary globs**: `Globs`. The greedy segment matcher against an existential filling of stars,
  and the forward pass over segments against a recursive relation.
- **Parallel map**: `Parallel`. A step relation over the shared counter and the workers' results.
- **Budgets and bounded views**: `Budget`, `Fairness` and `Refs`, `Find` and `NameMatch`,
  `FileGraph`, `Tree`.
- **Contract drift**: `Contract`, on the same pairing as the clone delta, and `ContractMoves`.
- **Callee overlap**: `Callees` (the index), `Overlap` (families, rows, mutual pairs), `OverlapRun`
  (the whole run).
- **Policy gate**: `Policy` (the judgement), `Trailers` (the commit parser and its printer),
  `TrailerForms` (its bytes as characters and UTF-8 text).
- **Token scanner**: `Tokens` and `TokenWalk` (what is read, as functions), `TokenForms` (each test as the
  token pattern it is), `TokenCoverage` and `TokenOrigins` (attributes, both ways), `TokenRecords` (words,
  calls, use names and definitions), `TokenRefusals` (the forms refused), `TokenIncludes` (the `include`
  names), `Scanner` (the loops that push into one scan).
- Shared: `Options`, `Orders` (string order, sorting, uniqueness of sorted results), `Text`
  (splitting and joining).

## Where the code does less than one might expect

- A macro named `use` (written `r#use`) is taken for a use item by the include pass but not by the
  walk, so the bare `include` in `macro_rules! r#use { () => { include } }` is recorded nowhere
  (`TokenIncludes.HiddenByUse`). What is recorded is exactly the literal calls, the names in use items
  and the bare names outside every `use` span (`TokenIncludes.RecordedExactly`); where no macro is
  named `use`, that is every `include` (`TokenIncludes.EveryIncludeIsRecorded`).
- Two functions at the same path and line that are each other's rows both lose their row
  (`Overlap.MutualPairs`); `OverlapRun.TwinsLoseBoth` gives such a run. At distinct places exactly one
  row stays.
- A value that holds a NaN is unequal to itself. A HEAD with one is always refused, and a commit that
  keeps one counts as a change: it must be approved although it altered nothing, even when HEAD holds
  no NaN (`Policy.KeptNanIsRefused`). On linear histories that is all a NaN does (`Policy.LinearClean`).

## Model

| member | source | states |
|---|---|---|
| `Copies.Enqueue` | crates/checks/src/copies.rs:166-174 | The queues hold, under each key, exactly the old blocks with that key in their order, and stand in the order in which the keys first appear. |
| `Copies.PairBy` | crates/checks/src/copies.rs:159-186 | One pass splits both sides into pairs of equal key and leftovers with no key left on both sides; under each key pairs take old and new from the first; the new leftovers are the unpaired ones in order, and the old leftovers are exactly what each queue keeps, queue by queue, in a stable sort by place. |
| `Copies.Serve` | crates/checks/src/copies.rs:175-182 | The new blocks in turn pop their queues: what is paired, what is left on the new side, and what waits. |
| `Copies.QueuesLeft` | crates/checks/src/copies.rs:183-184 | After all new blocks, each key's queue is its old blocks without as many from the front as there are new ones. |
| `Copies.SortByPlace` | crates/checks/src/copies.rs:110-112 | The stable sort by path, start and end: sorted, and blocks at one place keep their order. |
| `Pairing.SortStable` | crates/checks/src/copies.rs:110-112 | A sort by an order that cannot tell the items of one key apart keeps their order. |
| `Copies.ByPlaceIsPreorder` | crates/checks/src/copies.rs:24-26 | The place order is total and transitive over all blocks. |
| `Added.Conserves` | crates/checks/src/copies.rs:159-186 | Whatever key a pass pairs by, if it refines a coarser key then the pass keeps, under each coarser key, the difference of new and old leftovers. |
| `Added.StayedPair` | crates/checks/src/copies.rs:137-147 | A new block is paired by the first pass whenever, under its line and exact key, there are no more new blocks than old blocks that the diff kept there. |
| `Added.ThreePasses` | crates/checks/src/copies.rs:137-147 | Any three pairings in sequence, by kept line, exact key and Type-2 key, of which the first leaves the new blocks that find nothing waiting, leave on each side of a file exactly the excess of that side under each Type-2 key, under each exact key no more than that side outgrew the other there, and no new block that stayed in place. |
| `Added.ExactPasses` | crates/checks/src/copies.rs:137-145 | After the passes by kept line and exact key a file has, under each exact key, exactly max(0, new − old) new blocks and max(0, old − new) old blocks left. |
| `Added.WithinFile` | crates/checks/src/copies.rs:137-147 | Inside one file, the three passes leave max(0, new − old) new blocks and max(0, old − new) old blocks under each Type-2 key, under each exact key no more of a side than it outgrew the other there, and no new block that stayed in place. |
| `Added.EachFile` | crates/checks/src/copies.rs:119-123 | The leftovers of both sides are the concatenated leftovers of the files, each bounded under every exact key by its own file, and balanced under each Type-2 key with the two whole sides. |
| `Added.FileShare` | crates/checks/src/copies.rs:116-134 | No file contributes more added blocks under a Type-2 key or under an exact key than its own growth under that key. |
| `Added.LeftShare` | crates/checks/src/copies.rs:116-134 | Of any part of all leftovers, each file's share under a key is at most what that file left. |
| `Added.TwoPasses` | crates/checks/src/copies.rs:124-133 | Any two pairings across files, by exact key and then Type-2 key, of any permutation of the balanced leftovers, leave the Type-2 growth of the run, none that stayed in place, and per file no more than grew there. |
| `Added.OneResult` | crates/checks/src/copies.rs:116-147 | The five passes over the same run have one result: every order of pairing is fixed by the order of the sides and the sorts by place. |
| `Added.ExactFirst` | crates/checks/src/copies.rs:124-133 | Across files the exact pass comes first: under each exact key no more is added than the new leftovers outnumber the old ones, and what is added is the end of them by place. |
| `Pairing.UnpairedLeavesEnds` | crates/checks/src/copies.rs:175-182 | What a pass leaves on the new side keeps its order and is, under each key, the last of the items: the first ones are paired. |
| `Added.PassesInTurn` | crates/checks/src/copies.rs:137-147 | Inside a file the three passes in turn leave the last blocks of each line and tokens, of these the last of each exact key, and of these the last of each Type-2 key, in the file's order and in numbers fixed by both sides. |
| `Added.AcrossPassesInTurn` | crates/checks/src/copies.rs:124-133 | Across files the two passes in turn leave the last blocks by place of each exact key, and of these the last of each Type-2 key. |
| `Added.StaysByLine` | crates/checks/src/copies.rs:137-141 | A new block stays in place if and only if the new blocks on its line with its tokens are no more than the old blocks with those tokens that the diff kept on that line, counted by their fields. |
| `Added.CountsByField` | crates/checks/src/copies.rs:149-155 | The counts under a Type-2 and an exact key number the blocks that carry that value in that field. |
| `Added.AddedBlocks` | crates/checks/src/copies.rs:116-134 | All five passes: exactly max(0, new count − old count) added blocks under each Type-2 key over all files, each one a new block, none that stayed in place, and per file at most its own growth under each Type-2 and each exact key; of the leftovers of the files, under each exact key no more than the new ones outnumber the old ones, namely the last ones by place; and they are the one result of the passes in the source's order. |
| `Added.NothingAdded` | crates/checks/src/copies.rs:116-186 | If no Type-2 key has more new than old blocks (any move, reorder or Type-2 rename), nothing is added. |
| `Added.GrowthIsAdded` | crates/checks/src/copies.rs:116-186 | A Type-2 key that grew has an added block. |
| `Added.MovedIsNotAdded` | crates/checks/src/copies.rs:116-134 | When no file pairs anything inside itself, no more blocks are added under an exact key than grew under it over the whole run: a block moved untouched to another file is not added while another with its Type-2 key is. |
| `CloneRun.FoldedByOuter` | crates/checks/src/copies.rs:204-213 | Being inside the one remembered copy is the same as being inside any earlier copy, for arbitrary, even partly overlapping ranges. |
| `CloneRun.SweepStep` | crates/checks/src/copies.rs:206-213 | One turn of the sweep keeps what the remembered copy means and extends the kept list by exactly the specified copy. |
| `CloneRun.Sweep` | crates/checks/src/copies.rs:204-215 | The sweep keeps exactly the copies that no earlier copy contains and that are not reported functions; a reported function still folds what is inside it. |
| `CloneRun.Outermost` | crates/checks/src/copies.rs:190-215 | From any list of copies: those that the stable sort leaves unfolded and that are not reported functions. |
| `CloneRun.UnfoldedIsMaximal` | crates/checks/src/copies.rs:190-228 | A copy is not folded if and only if whatever contains it has the same range and comes no earlier: the outer copies are the containment-maximal ranges, one per equal range. |
| `CloneRun.WithinIsLines` | crates/checks/src/copies.rs:223-229 | A block lies within another if and only if it is in the same file and each of its lines is a line of the other. |
| `CloneRun.EveryCopyHasOuter` | crates/checks/src/copies.rs:188-215 | Every copy, folded or not, lies inside a copy that is not folded. |
| `CloneRun.KeptMembers` | crates/checks/src/copies.rs:190-221 | An id is kept if and only if it is at an unfolded place of the sorted list and is not a reported function. |
| `CloneRun.Run.constructor` | crates/checks/src/copies.rs:44-73 | A new run holds the untouched indexed files and the new side of each changed file as present, and one entry per changed file whose ids show exactly the blocks read. |
| `CloneRun.Run.PushAll` | crates/checks/src/copies.rs:75-80 | Appends exactly the file's blocks and returns their new consecutive ids; nothing else changes. |
| `CloneRun.Run.AddInstances` | crates/checks/src/copies.rs:82-87 | The instances of every Type-2 key stay exactly the present blocks of that key, in order. |
| `CloneRun.Run.AddPair` | crates/checks/src/copies.rs:60-71 | Adds one changed file: only its new side becomes present, the entry shows both sides, and all earlier entries still hold. |
| `CloneRun.Run.Instances` | crates/checks/src/copies.rs:93-97 | Every present block with the block's Type-2 key, in order, and no other. |
| `CloneRun.Run.Reportable` | crates/checks/src/copies.rs:105-108 | True exactly for at least 40 tokens and at least two present instances. |
| `CloneRun.Run.Findings` | crates/checks/src/clone.rs:46-58 | The findings are exactly the unfolded, not yet reported copies among the added blocks worth reporting, where the added blocks are the one result of all five passes and meet its counts; none when no Type-2 key grew. |
| `Globs.Find` | crates/checks/src/globs.rs:71-75 | The first place of a piece, or none when it is nowhere. |
| `Globs.LeftmostSuffices` | crates/checks/src/globs.rs:70-76 | Taking the leftmost place of a piece loses no match: the rest can be placed after it exactly when all can be placed at all. |
| `Globs.LaidByEnds` | crates/checks/src/globs.rs:59-69 | Pieces laid over a text, in order: the same as fixed ends that do not overlap and middle pieces placed between them. |
| `Globs.SegmentMatchIsLaid` | crates/checks/src/globs.rs:59-78 | Some filling of every `*` gives the text if and only if the pieces between stars can be laid in order, for any number of stars, adjacent ones too. |
| `Globs.PlaceMiddle` | crates/checks/src/globs.rs:70-76 | The greedy loop places the middle pieces if and only if some placement exists; its bounds never cross. |
| `Globs.SegmentMatches` | crates/checks/src/globs.rs:59-78 | The greedy matcher accepts if and only if some string for each `*`, possibly empty, makes the pattern equal the text. |
| `Globs.Step` | crates/checks/src/globs.rs:29-38 | One ordinary element moves each reached place over one segment it matches, with one test per reached place. |
| `Globs.Globstar` | crates/checks/src/globs.rs:41-55 | One `**` reaches exactly the places that non-empty segments lead to: none or more when inner, one or more when last. |
| `Globs.StepContinues` | crates/checks/src/globs.rs:29-38 | The places after one ordinary element continue to a match if and only if the places before did. |
| `Globs.GlobstarContinues` | crates/checks/src/globs.rs:41-55 | The same for one `**`, inner or last. |
| `Globs.GlobMatches` | crates/checks/src/globs.rs:15-27 | The forward pass accepts if and only if the recursive glob relation holds, spending at most one segment test per segment on each element and none on `**`: at most elements × segments in all. |
| `Globs.InBoundary` | crates/checks/src/globs.rs:5-11 | A path is in the boundary if and only if some glob matches its segments. |
| `Text.SplitExactly` | crates/checks/src/globs.rs:5-11 | Splitting gives the one non-empty list of pieces without the separator that joins back to the text. |
| `Parallel.StepKeepsInv` | crates/app/src/parallel.rs:54-63 | Each step of any worker keeps: every index below the counter and the length is claimed once, none above, and each result is `f` of its item. |
| `Parallel.EveryRunIsSafe` | crates/app/src/parallel.rs:27-63 | In every reachable state of every interleaving the invariant holds, the counter is at most items plus workers, and the run has at most 2 × items + workers steps, so every run ends. |
| `Parallel.ClaimsAreDisjoint` | crates/app/src/parallel.rs:54-63 | In every run no two workers ever hold the same index. |
| `Parallel.ClaimsCoverTheItems` | crates/app/src/parallel.rs:27-63 | When all workers have returned, each index of the input is claimed exactly once and the claims made number items plus workers. |
| `Parallel.CompleteRunIsSerialMap` | crates/app/src/parallel.rs:27-51 | For every interleaving of any positive number of workers, sorting the gathered results by index gives the serial map. |
| `Parallel.MapWith` | crates/app/src/parallel.rs:27-51 | The pool returns the serial map for every thread count, with the schedule chosen arbitrarily; the workers are the threads asked for, at least one and at most the items, and more than one share a complete run. |
| `Budget.PouredMonotone` | crates/app/src/budget.rs:10-33 | Pouring to a higher level takes no less, and never more than all the costs. |
| `Budget.LevelByNext` | crates/app/src/budget.rs:10-33 | A level that fits while the next does not is the water level, and the costs exceed the budget. |
| `Budget.WaterLevelUnique` | crates/app/src/budget.rs:10-33 | There is one largest level s with Σ min(cost, s) ≤ budget. |
| `Budget.StuckIsLevel` | crates/app/src/budget.rs:17-22 | When no pending item fits the share, the share is the water level, integer division included. |
| `Budget.PayOne` | crates/app/src/budget.rs:23-26 | Paying one item that fits the share never underflows and keeps enough for every waiting item to get the share. |
| `Budget.Settle` | crates/app/src/budget.rs:23-26 | Settling every item that fits removes exactly those and keeps the account. |
| `Budget.Allocate` | crates/app/src/budget.rs:10-33 | The cut is empty if and only if the costs fit the budget; otherwise the share is the water level and the cut is exactly the items that cost more. |
| `Budget.LongestFitting` | crates/app/src/budget.rs:37-48 | The result fits or is `low`, one more does not fit, nothing longer fits when fitting is downward closed, and the tests are at most logarithmic in the width. |
| `Contract.CountSide` | crates/checks/src/contract.rs:165-176 | Counting one old side adds exactly its hits under their keys. |
| `Contract.Carried` | crates/checks/src/contract.rs:159-178 | The carried counts are the number of old hits under each key. |
| `Contract.SpendOne` | crates/checks/src/contract.rs:125-134 | Spending one carried hit, or reporting when none is left, keeps the reported hits equal to the unpaired ones so far. |
| `Contract.TakeHit` | crates/checks/src/contract.rs:131-134 | One new hit spends a carried one of its key or is reported. |
| `Contract.FileHits` | crates/checks/src/contract.rs:118-135 | One file's new hits, taken in order, and the state rows of all of them. |
| `Contract.NewFindings` | crates/checks/src/contract.rs:100-139 | The findings are the new hits, in order, left after pairing with the old hits of the whole run by key; the state rows are all new hits, sorted. |
| `Contract.FreshCount` | crates/checks/src/contract.rs:100-183 | Under each (rule, place, unit, capture) key the findings number max(0, new hits − old hits). |
| `Contract.QuietExactlyWhenCarried` | crates/checks/src/contract.rs:100-183 | A run reports nothing if and only if under every key there are no more new hits than old ones. |
| `Contract.OldKeyedByFields` | crates/checks/src/contract.rs:170-183 | An old hit is counted under its rule, its path, its unit's name or `<module>`, and its capture. |
| `Contract.NewKeyedByFields` | crates/checks/src/contract.rs:118-130 | A new hit takes the path and name that its unit keeps, and outside every unit its own path and `<module>`. |
| `Contract.StatesByFields` | crates/checks/src/contract.rs:121-129 | A state row is the hit under its own path and its unit's own name, whatever identity the unit keeps. |
| `Contract.StatesByPath` | crates/checks/src/contract.rs:137-137 | The state rows are in byte order of their paths, and those of one path in scan order. |
| `ContractMoves.MovesFindNothing` | crates/checks/src/contract.rs:100-183 | If every new unit keeps an old unit of its own, and neither a unit nor a module gains a hit of any rule and capture, nothing is found, whatever moved or was renamed. |
| `ContractMoves.OriginCount` | crates/checks/src/contract.rs:118-130 | Under each old owner, rule and capture, the new hits that come from it are no more than its old hits. |
| `Refs.PutFacts` | crates/app/src/refs.rs:355-360 | Inserting a site keeps the place order and replaces only the site of the same place. |
| `Refs.DedupedIsLast` | crates/app/src/refs.rs:354-360 | The entries of the sorted map are exactly the last spelling of each place, strictly ordered by path and line. |
| `Refs.Dedupe` | crates/app/src/refs.rs:355-360 | Collecting the spellings gives those entries. |
| `Refs.FileGroups` | crates/app/src/refs.rs:374-380 | In path order, the groups are each file's own sites in order, one group per file. |
| `Refs.RoundRobin` | crates/app/src/refs.rs:374-389 | The nested loops give the first `limit` sites of the rounds over the files. |
| `Refs.RoundRobinIsFair` | crates/app/src/refs.rs:374-389 | Exactly min(limit, sites) are kept, each file keeps a prefix of its own sites, and a file that loses a site keeps at least one less than any other file keeps. |
| `Refs.Shown` | crates/app/src/refs.rs:355-389 | Deduplication and rounds together, from any list of spellings: the limit is spent in full and fairly over the files. |
| `Fairness.RoundsAreAll` | crates/app/src/refs.rs:374-389 | All rounds together hold each item once. |
| `Fairness.CutIsFair` | crates/app/src/refs.rs:374-389 | The fairness of a cut at any limit, for any items grouped by any key. |
| `Find.SelectionIsFront` | crates/app/src/find.rs:185-204 | For any result a selection primitive may give, cutting and sorting it is the front of the full stable sort. |
| `Find.AnyOrderIsStable` | crates/app/src/find.rs:200-200 | The scan place makes any sort of the keys equal to the stable sort. |
| `Find.StableByPlace` | crates/app/src/find.rs:183-184 | A stable sort by rank, lowered name and path orders ties by scan place. |
| `Find.BeforeMeans` | crates/app/src/find.rs:261-277 | The sort key orders two matches as the classes, lowered names, paths and scan places do, written without the key. |
| `Find.FrontIsTop` | crates/app/src/find.rs:185-204 | The front of any sorted arrangement of the keys is the top of the matches in that order. |
| `Orders.StrLeIsLex` | crates/app/src/find.rs:197-200 | The string order is the lexicographic one: a prefix, or the first differing character is smaller. |
| `Find.TopCards` | crates/app/src/find.rs:185-204 | The cards are min(limit, matches) matches in order, and none that is left out comes before one that is kept: first the names spelled as written, then those in another case, the exact qualified names, the prefixes and the rest, and inside a class by lowered name, path and scan place. They are the front of the stable sort. |
| `NameMatch.ShortAsciiHolds` | crates/app/src/find.rs:228-246 | The buffer test answers exactly for ASCII names of at most 128 characters, and says whether the lowered qualified name holds the query. |
| `NameMatch.OneTestCoversBoth` | crates/app/src/find.rs:226-227 | For an ASCII name, the lowered name or qualified name holds the query if and only if the lowered qualified name does. |
| `NameMatch.Matches` | crates/app/src/find.rs:217-224 | For every name and kind filter, the fast test and its fallback agree with the definition by both lowered forms. |
| `NameMatch.LowersLetters` | crates/app/src/find.rs:242-242 | Lowering in place turns each of the twenty-six capital letters into its small one and changes nothing else. |
| `FileGraph.BuildAdjacent` | crates/app/src/file_graph.rs:119-123 | The adjacency holds exactly the undirected neighbours of each node. |
| `FileGraph.OneHop` | crates/app/src/file_graph.rs:136-148 | One hop reaches exactly the neighbours of the frontier, and the next frontier is the new ones without repeats. |
| `FileGraph.NextDistance` | crates/app/src/file_graph.rs:136-148 | A node is at distance k + 1 if and only if it is not within k and is linked to one at distance k. |
| `FileGraph.WithinNext` | crates/app/src/file_graph.rs:136-148 | Being within k + 1 is being within k or at distance k + 1, where within k means some walk of at most k links. |
| `FileGraph.HopSearches` | crates/app/src/file_graph.rs:136-148 | If k hops found the ball and its shell, one more finds the next ball and shell. |
| `FileGraph.Neighbourhood` | crates/app/src/file_graph.rs:118-133 | After any number of hops, the reached set is exactly the nodes within that undirected distance and the frontier those at it, without repeats; nothing for an unknown centre. |
| `FileGraph.FrontIsChosen` | crates/app/src/file_graph.rs:91-104 | Cutting the focus-first ranked list keeps min(bound, candidates), the focus when present and the bound allows, and no one left out ranks before one kept. |
| `FileGraph.RankLeOutranks` | crates/app/src/file_graph.rs:91-97 | The order of the candidates is the higher rank, no rank being 0, then the name in byte order. |
| `FileGraph.Ordered` | crates/app/src/file_graph.rs:91-97 | The candidates once each, best rank first and name on ties. |
| `FileGraph.Select` | crates/app/src/file_graph.rs:83-107 | The chosen nodes in name order. |
| `FileGraph.SelectModules` | crates/app/src/file_graph.rs:83-107 | The candidates are all nodes, or those within two links of the focus; the drawn ones are min(bound, candidates) best ranked with the focus, in path order, and the total is reported. |
| `Tree.SameKinds` | crates/app/src/tree.rs:127-140 | Two trees that say the same of every path are the same tree. |
| `Tree.InsertKinds` | crates/app/src/tree.rs:128-138 | Inserting a path makes its parents directories, adds the file where nothing is, and changes nothing else. |
| `Tree.TreeMeaning` | crates/app/src/tree.rs:125-140 | The tree of a list of paths has a directory at every proper prefix of a path, a file at every other path, and nothing else; a directory wins over a file. |
| `Tree.PathBySlashes` | crates/app/src/tree.rs:127-132 | A file name's path is the one list of parts without a slash that joins back to the name. |
| `Tree.BuildTree` | crates/app/src/tree.rs:127-140 | The loop over the files builds that tree. |
| `Tree.OrderDoesNotMatter` | crates/app/src/tree.rs:127-140 | Lists with the same paths, in any order and with repeats, give the same tree. |
| `Tree.WeightIsCount` | crates/app/src/tree.rs:142-176 | At every depth limit, the listed entries and the ones hidden under dots number all entries of the tree. |
| `Tree.ItemsInPreorder` | crates/app/src/tree.rs:142-167 | The listed entries are exactly those at the top or no deeper than the limit, each once, directories before what they hold and siblings by name, with their level, name and kind; a directory is cut exactly when the limit is reached under it. |
| `Tree.CountIsPaths` | crates/app/src/tree.rs:169-176 | The count of entries is the number of paths that the tree holds anything at. |
| `Tree.SpendsConcat` | crates/app/src/tree.rs:142-167 | Spending a budget on one list and then on another is spending it on both together. |
| `Tree.CountEntries` | crates/app/src/tree.rs:170-176 | The recursive count over the sorted listing of each directory. |
| `Tree.Rendering.RenderLevel` | crates/app/src/tree.rs:142-167 | One level spends the budget on the depth-limited preorder of the directory, however much budget is left. |
| `Tree.Rendering.RenderChild` | crates/app/src/tree.rs:150-166 | One entry spends the budget on its own preorder: over budget it is omitted with everything under it. |
| `Tree.RenderTree` | crates/app/src/tree.rs:105-123 | The lines are exactly the first `max_entries` names of the depth-limited preorder with their dots, and rendered + omitted + hidden under dots = all entries. |
| `Callees.NewIndex` | crates/checks/src/callees.rs:142-164 | The index lists, for each callee, exactly the functions that call it with every slot that does, in order, for any callee lists. |
| `Callees.IndexFunction` | crates/checks/src/callees.rs:148-154 | One function extends the lists by exactly its own callees. |
| `Callees.SharedWith` | crates/checks/src/callees.rs:196-201 | The gathered slots with each function are exactly the slots of the callees both call. |
| `Callees.SharedSlotsCount` | crates/checks/src/callees.rs:194-201 | Without repeats, the shared slots number the intersection of the two callee sets. |
| `Callees.SharedSlotsExactly` | crates/checks/src/callees.rs:196-201 | The shared slots are the pairs of slots of one callee, each once and in reading order. |
| `Callees.PushedCallers` | crates/checks/src/callees.rs:196-201 | The list of one callee gives each function exactly its own slots of that callee. |
| `Overlap.SlotsAreShared` | crates/checks/src/callees.rs:194-233 | The slots found through the index number the intersection, and the count is symmetric. |
| `Overlap.CountShared` | crates/checks/src/callees.rs:259-267 | The counts through the index are the shared-slot numbers with every function. |
| `Overlap.Spells` | crates/checks/src/callees.rs:372-377 | The binary search on sorted names is membership. |
| `Overlap.MeetsRule` | crates/checks/src/callees.rs:227-233 | The test on a precomputed count is the direct rule on callee sets. |
| `Overlap.Members` | crates/checks/src/callees.rs:259-273 | The members are exactly the functions that meet the direct rule with the function, once each. |
| `Overlap.Families.Of` | crates/checks/src/callees.rs:284-287 | The memoised family equals the direct count whatever was asked before, and the memo stays true. |
| `Overlap.RowOf` | crates/checks/src/callees.rs:203-218 | A function gives a row if and only if it is eligible by the direct rule, and the row is determined by it. |
| `Overlap.NamedIn` | crates/checks/src/callees.rs:236-243 | The count for a rewritten unit is the number of callees whose name the old body spelled. |
| `Overlap.AllGathered` | crates/checks/src/callees.rs:202-219 | Functions outside the shared map are never eligible, so looking only at shared callees misses none. |
| `Overlap.RankingUnique` | crates/checks/src/callees.rs:194-256 | The ranked list of eligible functions is one sequence: no hash or query order can change it. |
| `Overlap.Rows` | crates/checks/src/callees.rs:194-224 | The rows are the three best eligible functions by rank, for every order in which the map is read and every state of the memo. |
| `Overlap.BestOfRanking` | crates/checks/src/callees.rs:202-223 | Whatever ranking a run gathers and sorts, its front is the three best rows of the direct rule. |
| `Overlap.BestExactly` | crates/checks/src/callees.rs:194-224 | The best rows are three, or all when there are fewer eligible functions; each goes ahead of those after it and of every row left out, by shared callees, size of the callee set, path, line and tree order. |
| `Overlap.KeptInOrder` | crates/checks/src/callees.rs:301-306 | What the mutual-pair filter keeps stays in the order of the rows. |
| `OverlapRun.BestAreEligible` | crates/checks/src/callees.rs:194-224 | Each of the best rows is that of an eligible function. |
| `Overlap.KeptRows` | crates/checks/src/callees.rs:292-307 | A row survives the mutual-pair filter if and only if it has no mirror or is the mirror to keep. |
| `Overlap.MutualPairs` | crates/checks/src/callees.rs:292-307 | A row without a mirror stays; of a mutual pair at distinct places exactly the row whose unit stands first by path and line stays, and at one and the same place neither does. |
| `OverlapRun.Report` | crates/checks/src/callees.rs:100-110 | The whole run: one index and one memo for all checked units, each unit's best rows in turn, then the mutual pairs; equal to its definition by the direct rule. |
| `OverlapRun.ReportedExactly` | crates/checks/src/callees.rs:105-110 | A row is reported if and only if it is among the three best of a checked unit and none of the best is its mirror, or its own unit comes first by path and line. |
| `OverlapRun.ReportedOnce` | crates/checks/src/callees.rs:105-110 | When the checked units are different functions, each row is reported once. |
| `OverlapRun.SurvivesExactly` | crates/checks/src/callees.rs:292-307 | For any candidate lists, a candidate survives if and only if no candidate is its mirror or its unit comes first. |
| `OverlapRun.TwinsLoseBoth` | crates/checks/src/callees.rs:292-307 | Of two new functions at one path and line with the same three callees, the run reports neither's row. |
| `OverlapRun.TwinsAreBest` | crates/checks/src/callees.rs:194-224 | Such two functions are each other's best and only row. |
| `OverlapRun.SomeTwins` | crates/checks/src/callees.rs:44-62 | Such two functions exist for any path, line and three callees. |
| `Policy.Judge` | xtask/src/policy.rs:83-124 | The problem list of the loops is the specified one, for every history. |
| `Policy.CleanMeans` | xtask/src/policy.rs:83-166 | A verdict is clean if and only if the working tree equals HEAD or the reference, and HEAD holds the reference or every counted change is approved and one of them made HEAD's value. |
| `Policy.UnapprovedExactly` | xtask/src/policy.rs:95-115 | A commit is complained of if and only if HEAD does not hold the reference and the commit is unapproved, differs from each parent (or keeps a NaN) and is not the one commit that creates a file the base lacks: in the fields of the history alone. |
| `Policy.NotMadeExactly` | xtask/src/policy.rs:116-123 | That no commit made HEAD is said if and only if HEAD does not hold the reference and no such commit has HEAD's value. |
| `Policy.TreeChangedExactly` | xtask/src/policy.rs:83-93 | The working tree is refused if and only if it neither equals HEAD nor holds the reference. |
| `Policy.ReferenceByFields` | xtask/src/policy.rs:126-147 | The reference is the base, nothing, the one creating commit's value, or none when several create. |
| `Policy.HeldExactly` | xtask/src/policy.rs:149-158 | A value holds the reference if and only if it is the base's, the one creation's, or absent where the file never was, and equals itself. |
| `Policy.WeighedExactly` | xtask/src/policy.rs:160-170 | A commit counts if and only if it is a change that is not the one creation. |
| `Policy.NanHeadIsRefused` | xtask/src/policy.rs:149-170 | A HEAD value with a NaN is never clean. |
| `Policy.ReferencePermute` | xtask/src/policy.rs:126-138 | The reference does not depend on the order of the steps. |
| `Policy.OrderDoesNotMatter` | xtask/src/policy.rs:83-170 | Permuting the steps of any history permutes the problems and keeps the verdict. |
| `Policy.LinearHeadIsMade` | xtask/src/policy.rs:95-124 | On every linear history, a HEAD without a NaN that does not hold the reference was made by a counted change, whatever the earlier commits hold. |
| `Policy.LinearClean` | xtask/src/policy.rs:83-170 | On every linear history with the tree at HEAD, clean if and only if HEAD has the reference's content or every non-exempt commit that alters the content is approved, and no NaN is refused: HEAD holds none and, unless HEAD is the reference, the non-exempt commits that keep one are approved. |
| `Policy.ChangedExactly` | xtask/src/policy.rs:168-170 | A commit counts as a change if and only if its content differs from each parent's, or it keeps content that holds a NaN. |
| `Policy.LinearVerdict` | xtask/src/policy.rs:83-170 | The same verdict by the code's own equality: HEAD has no NaN, and holds the reference or every counted change is approved. |
| `Policy.KeptNanIsRefused` | xtask/src/policy.rs:168-170 | A history whose one unapproved commit keeps the base's content is clean if and only if that content holds no NaN, although HEAD holds none either way. |
| `Trailers.HeaderEnd` | xtask/src/policy.rs:278-278 | The first empty line, or none. |
| `Trailers.ShownOfPrinted` | xtask/src/policy.rs:274-283 | A printed object shows exactly its message. |
| `Trailers.ApprovalExact` | xtask/src/policy.rs:300-307 | A line approves a path if and only if it is exactly the trailer line of a clean path. |
| `Trailers.TrailerLineIsTrailer` | xtask/src/policy.rs:287-298 | Every printed trailer line is a trailer and is not blank. |
| `Trailers.LastParagraph` | xtask/src/policy.rs:260-264 | The last paragraph of the split is the last run of non-blank lines, with another one before it exactly when there are two. |
| `Trailers.RoundTrip` | xtask/src/policy.rs:255-307 | Parsing the printed commit object of any proper header, title and non-empty list of clean paths returns exactly those paths. |
| `Trailers.OnlyTrailersApprove` | xtask/src/policy.rs:255-307 | Every returned path is an exact trailer line of an all-trailer last paragraph that is not the title, in an object without NUL and `encoding`. |
| `Trailers.ApprovedExactly` | xtask/src/policy.rs:255-307 | For every byte string and path, the path is returned if and only if such a line is there. |
| `TrailerForms.WordsAsText` | xtask/src/policy.rs:300-305 | The line that approves a path is the text `Policy-Change: ` and the path; the header that hides a message starts with `encoding`. |
| `TrailerForms.EmptyLine` | xtask/src/policy.rs:278-278 | The header ends at two line feeds in a row. |
| `TrailerForms.EncodedByWord` | xtask/src/policy.rs:279-281 | A header names an encoding if and only if one of its lines starts with that word. |
| `TrailerForms.BlankByChar` | xtask/src/policy.rs:261-261 | A line is blank if and only if it holds only spaces, tabs, line feeds, form feeds and carriage returns. |
| `TrailerForms.TrailerExactly` | xtask/src/policy.rs:285-298 | A line is a trailer if and only if it is one or more letters, digits and dashes, then spaces or tabs, then a colon. |
| `TrailerForms.Utf8Exactly` | xtask/src/policy.rs:301-301 | The UTF-8 test accepts exactly the encodings of sequences of Unicode scalar values. |
| `TrailerForms.CleanPathExactly` | xtask/src/policy.rs:301-306 | A path is clean if and only if it encodes a non-empty text without control characters. |
| `TrailerForms.HeaderByLines` | xtask/src/policy.rs:274-283 | The headers of the round trip are those without a NUL, without an empty line after the first and without an `encoding` line. |
| `TokenCoverage.SkippedKinds` | xtask/src/tokens.rs:117-143 | What the walk steps over is only a `!`, a macro's name, an attribute's own group or a definition's body. |
| `Tokens.AttributeGroup` | xtask/src/tokens.rs:145-157 | A hash opens an attribute at a place if and only if it is the first place after the hash and an optional `!`, and a group in square brackets stands there. |
| `TokenCoverage.RulesHold` | xtask/src/tokens.rs:334-354 | A body read as rules holds only rule groups and the arrow and separator marks. |
| `TokenCoverage.GroupIsWalked` | xtask/src/tokens.rs:117-143 | A group that is no definition's body is walked under the fragments in force around it. |
| `TokenCoverage.RuleGroupIsWalked` | xtask/src/tokens.rs:299-332 | A matcher and its transcriber are walked under exactly what that matcher binds. |
| `TokenCoverage.PlaceIsWalked` | xtask/src/tokens.rs:117-143 | Every stream at every depth is walked under exactly the fragments in force at its place (those around it, none in an unreadable body, its own matcher's in a rule), unless it is a list of rules. |
| `TokenCoverage.ItemScanRecords` | xtask/src/tokens.rs:159-186 | Every leaf of a nested `cfg_attr` becomes an attribute, an accepted binding, a bound fragment or an unreadable entry; none is dropped. |
| `TokenCoverage.EveryHashIsSeen` | xtask/src/tokens.rs:117-186 | Every `#` at every place is refused as a lone hash when no bracket group follows it and an optional `!`, and otherwise every leaf of that group is accounted for under exactly the fragments in force there. |
| `TokenCoverage.FragmentMustBeBound` | xtask/src/tokens.rs:159-186 | A fragment attribute that its own rule does not bind is unreadable, whatever other rules bind. |
| `TokenOrigins.AttributesExactly` | xtask/src/tokens.rs:117-186 | An attribute is recorded if and only if some hash, in a stream that is read, has it as a leaf. |
| `TokenOrigins.UnreadsExactly` | xtask/src/tokens.rs:117-186 | An entry is unreadable if and only if some hash has it as a leaf that cannot be read under the fragments in force there, or it is a definition whose body is no list of rules. |
| `TokenOrigins.MetasOfItem` | xtask/src/tokens.rs:159-186 | The attribute reader records exactly the leaves, `cfg_attr` unwrapped at every depth, that read as an attribute. |
| `TokenOrigins.UnreadsOfItem` | xtask/src/tokens.rs:159-186 | It records as unreadable exactly the leaves that cannot be read or are fragments not bound. |
| `TokenForms.PlainExactly` | xtask/src/tokens.rs:589-595 | An identifier's plain name is a name if and only if it spells that name, or `r#` before it. |
| `TokenForms.OneToken` | xtask/src/tokens.rs:585-587 | The tests of one token hold exactly of a mark of that character, an identifier, an identifier of that plain name, a group. |
| `TokenForms.PathExactly` | xtask/src/tokens.rs:245-258 | The path read is the longest sequence of identifiers joined by `::` that the tokens start with, and the count is its tokens. |
| `TokenForms.ShapeExactly` | xtask/src/tokens.rs:188-218 | The readable shapes are `$name`, `$name:kind`, and a path alone, before one group or before a `=`; each is given exactly to the tokens of its pattern. |
| `TokenForms.CfgAttrForm` | xtask/src/tokens.rs:163-170 | An attribute is unwrapped if and only if it is `cfg_attr` and one group. |
| `TokenForms.OnePart` | xtask/src/tokens.rs:232-243 | A list without a comma is one part. |
| `TokenForms.CommasCut` | xtask/src/tokens.rs:232-243 | A comma cuts a list in two, each side cut on its own. |
| `TokenForms.ListItemExactly` | xtask/src/tokens.rs:220-230 | A list item is an assignment if and only if it holds a `=`, otherwise a path if and only if all of it is one. |
| `TokenForms.RulesExactly` | xtask/src/tokens.rs:334-354 | The rules of a body are exactly the list of group, `=>`, group and an optional `;` that fills it from its start to its end. |
| `TokenForms.BindingsExactly` | xtask/src/tokens.rs:356-396 | A matcher binds a name if and only if, at some depth, brackets after a `#` or `#!` hold exactly `$name:meta`. |
| `TokenRefusals.RefusalsExactly` | xtask/src/tokens.rs:410-425 | A form is refused if and only if one of the seven tests holds at some token of some depth. |
| `TokenRefusals.GatherExactly` | xtask/src/tokens.rs:410-425 | A pass over every group gathers exactly what is given at some place. |
| `TokenRefusals.AnywhereExactly` | xtask/src/tokens.rs:484-510 | The searches for a nested definition, a fragment or `clippy` find exactly what stands at some place of the tree they look in. |
| `TokenRefusals.LoneHashesExactly` | xtask/src/tokens.rs:427-429 | A line is refused for a lone hash if and only if, at some depth, a `#` on it has no bracket group after it and an optional `!`. |
| `TokenForms.FragmentCallExactly` | xtask/src/tokens.rs:431-463 | A fragment call is a `!` that starts no `!=`, right after `$name` other than `$crate`, or after `$(..)`, at most three tokens that are no groups and a repetition mark. |
| `TokenForms.TtFragmentExactly` | xtask/src/tokens.rs:465-471 | The tt form is `$name:tt`. |
| `TokenForms.NestedExactly` | xtask/src/tokens.rs:473-493 | The nested form is `macro_rules!` whose group holds `macro_rules!` at some depth. |
| `TokenForms.UseFragmentExactly` | xtask/src/tokens.rs:495-510 | The use form is a use item that holds, at some depth, a `$` other than that of `$crate`. |
| `TokenForms.CfgAttributeExactly` | xtask/src/tokens.rs:512-517 | The cfg form is a `#` whose bracket group hides from clippy. |
| `TokenForms.HidesExactly` | xtask/src/tokens.rs:521-538 | A path that ends in `cfg` hides when its list names `clippy` or holds a `$` at some depth; one that ends in `cfg_attr` when its predicate does or a later part hides. |
| `TokenForms.CfgMacroExactly` | xtask/src/tokens.rs:540-560 | The macro form is `cfg!` with a group that names `clippy` or holds a `$` at some depth. |
| `TokenForms.HereSpelled` | xtask/src/tokens.rs:10-18 | At one token the seven rules are tried in that order, each refusing under its own name. |
| `TokenIncludes.RecordedOrVeiled` | xtask/src/tokens.rs:260-332 | In every tree each `include` identifier is recorded as a call, a use name or a refusal, or lies in the span after a macro named `use`. |
| `TokenRecords.RecordsExactly` | xtask/src/tokens.rs:260-332 | Under any fragments, the walk records a word, macro call, use name or definition if and only if it stands at some place of the tree: an identifier that is no macro's own name; one before `!` and a group; an identifier between such a `use` and its `;`; a macro's name on the line of its `macro_rules`. |
| `TokenRecords.GivenIsHeld` | xtask/src/tokens.rs:117-133 | Each of these that stands in the tree is recorded, inside attributes, rules and unreadable bodies too. |
| `TokenRecords.HeldByWalk` | xtask/src/tokens.rs:117-133 | Nothing else is recorded. |
| `TokenForms.CallForm` | xtask/src/tokens.rs:280-283 | A call is an identifier before a `!` and a group. |
| `TokenForms.DefinitionForm` | xtask/src/tokens.rs:299-312 | A definition is `macro_rules`, `!`, a name and a group. |
| `TokenForms.UseItemExactly` | xtask/src/tokens.rs:285-297 | A use item goes from the word `use`, not before a `<`, to the next `;` or the end. |
| `TokenForms.IdentifiersExactly` | xtask/src/tokens.rs:398-408 | The identifiers gathered from a use item are those that stand in it at any depth. |
| `TokenIncludes.RecordedExactly` | xtask/src/tokens.rs:117-133 | In every tree and under any fragments, a line is recorded if and only if it has a literal call, an `include` in a use item, or a bare `include` outside every `use` span: three conditions on the tree alone. |
| `TokenIncludes.RefusedIsBare` | xtask/src/tokens.rs:562-583 | The include pass refuses exactly the lines of `include` identifiers that are no call and have no `use` span around them at any depth. |
| `TokenIncludes.CallIsNamed` | xtask/src/tokens.rs:260-283 | Every literal `include!(..)` at any depth is among the macro calls. |
| `TokenIncludes.UseIsNamed` | xtask/src/tokens.rs:285-297 | Every `include` between a `use` that is no macro's name and its `;` is among the use names. |
| `TokenIncludes.NamedByWalk` | xtask/src/tokens.rs:117-133 | What the walk records as an `include` call or use name is such a call or lies in such a use item. |
| `TokenIncludes.OccurrenceKinds` | xtask/src/tokens.rs:260-332 | Every `include` identifier is of one of the three kinds or lies after a macro named `use`. |
| `TokenIncludes.RecordedOccurs` | xtask/src/tokens.rs:117-186 | In every tree, what is recorded as an `include` is an identifier of the tree on that line. |
| `TokenIncludes.EveryIncludeIsRecorded` | xtask/src/tokens.rs:562-583 | Where no macro is named `use`, the recorded lines are exactly those of the `include` identifiers at every depth. |
| `TokenIncludes.NothingVeiled` | xtask/src/tokens.rs:285-297 | Where no macro is named `use`, no `include` is in such a span. |
| `TokenIncludes.HiddenByUse` | xtask/src/tokens.rs:299-332 | A macro named `r#use` hides the bare `include` of its rule from all three, on any line and with any delimiter, and leaves nothing unreadable. |
| `Scanner.SplitCommas` | xtask/src/tokens.rs:232-243 | The loop gives the non-empty parts between commas. |
| `Scanner.Rules` | xtask/src/tokens.rs:334-354 | The loop finds the rules, or none when the body does not read as rules. |
| `Scanner.Path` | xtask/src/tokens.rs:245-258 | The loop reads the longest leading path and its length. |
| `Scanner.RefusalsPass` | xtask/src/tokens.rs:410-425 | The nested loops try every test at every token, group by group, in order. |
| `Scanner.IncludePass` | xtask/src/tokens.rs:562-583 | The lines of the bare `include` names outside use items and literal calls. |
| `Scanner.Scanner.Item` | xtask/src/tokens.rs:159-186 | Appends exactly what the attribute says, nested `cfg_attr` unwrapped. |
| `Scanner.Scanner.AttributeAt` | xtask/src/tokens.rs:135-143 | Appends the attribute and the walk of its contents, and goes on after the group. |
| `Scanner.Scanner.Definition` | xtask/src/tokens.rs:299-332 | Appends the word, each rule walked under its own bindings (or an unreadable entry and the body walked), and the definition. |
| `Scanner.Scanner.IdentAt` | xtask/src/tokens.rs:260-278 | Appends the call, the use names and the word of one identifier, and goes on at the right place. |
| `Scanner.Scanner.Walk` | xtask/src/tokens.rs:117-133 | Appends exactly the walk of the tokens to what the scan held. |
| `Scanner.ScanTokens` | xtask/src/tokens.rs:83-98 | The whole scan, less the shebang: the walk and all refusals stably by line. Every hash at every place is read or refused; the attributes, unreadable entries, words, calls, use names, definitions and refused forms are exactly those that stand in the tree; the `include` lines are exactly those of the literal calls, the use items and the bare names. |
| `Scanner.SortedHas` | xtask/src/tokens.rs:91-97 | The refusals returned are exactly the forms the tests refuse and the lines the include pass refuses. |

## Left out

- Git, the file system, subprocesses, SQLite, deadlines and signals: effects and foreign calls.
- Tree-sitter parsing, metric measurement, `matching_blocks`, PageRank and unit matching: their
  results are given data (the kept-line map, the ranks as reals, the map from each new unit to the
  path and name it keeps). `Contract` requires what the matcher gives: every hit's unit is in range
  and every new unit is identified.
- Thread creation, panics and memory ordering: the counter is one atomic step. A helper thread that
  the system refuses runs its work at once on the caller, which is one of the interleavings.
- Machine-integer overflow: `usize` values are unbounded, so `low + high` in `LongestFitting` and
  the sums in `Allocate` cannot overflow here.
- proc-macro2 tokenizing, spans, and the shebang line with its refusal: token trees with line numbers are the input.
  Unreadable entries keep their tokens instead of the printed text, and paths their segments.
- TOML and JSON parsing: a policy value is an opaque content with a flag for a NaN inside.
- Finding texts, row texts, JSON schemas, the command line and the MCP server: text and tables.
  `Judge` lists problems as values, `RenderTree` lists lines as records of level and name; the
  closing truncation line is left out and its count returned.
- Unicode lowering: a function parameter, required only to lower ASCII texts character by character
  in `NameMatch`. Strings are sequences of code points, whose order is that of their UTF-8 bytes.
- `build_tree` moves a cursor through nested maps in place; the model inserts each path by recursion on
  values, so the in-place update of one shared tree is not captured.
- Callee overlap takes the changed unit's index and old names as given: the join of measured units
  to the tree by place (`Index::checked`) is not modelled.
- The rule and the families of callee overlap are stated for functions that list each callee once and
  whose spelled names are sorted, as the fields of a tree function promise (callees.rs:58-61).
- FileGraph.Neighbourhood: requires distinct graph nodes; the hop count is general, the source
  always takes two.
- Data matches, other kinds and unparsed mentions of `find`, and the reference resolver: not modelled.
