# Monodromy coverage core, modelled in Dafny

This project models the core of `monodromy`. The core computes, for a native two-qubit gate set, a cost-ordered list of circuit shapes that together cover the Weyl alcove of two-qubit unitaries. It has two parts.

- **The monodromy inequalities** (`qlr_table.dfy`, module `QlrTable`). A stored table of 44 quantum Littlewood–Richardson coefficients is turned row by row into linear inequalities over (a, b, c) alcove coordinates. Each row first becomes a 13-wide raw row: a constant, then four alpha, four beta and four gamma slots, filled by in-place "pokes" at the Biswas subscripts `k + (i+1) - p_i`. The raw row is then collapsed to 10 entries using `x4 = -x1 - x2 - x3` in each block. Rows with `a != b` also emit their a/b-swapped copy. The alcove and its PU(4) refinement `alcove_c2` are small constant systems.
- **The coverage search.**
  - `coverage.dfy`, module `Coverage`, holds the gate-polytope order, the rho rewrite of the c-coordinates, and `intersect_and_project_to_c`.
  - `coverage_search.dfy`, module `CoverageSearch`, holds `build_coverage_set`. This is a Dijkstra-like loop over a heap of gate sequences. It keeps an append-only list of necessary regions and a batch of equal-cost regions waiting to be trimmed.

The polytope library is not modelled: intersection, union, redundancy reduction, cylinderization, coordinate elimination, volume and trimming. `polytopes.dfy` (module `Polytopes`) gives their data shapes and the meaning of an inequality. The operations themselves are the fields of a `Geometry` value and stay uninterpreted. Every property proved about the search therefore holds for any implementation of the library.

Exact rationals (`Fraction`) are modelled as `real`. Python's negative list indices are modelled explicitly (`PyIndex`), and so is the slice `[1:-3]` (`MiddleCoefficients`). The in-place parts of the source are written as imperative Dafny:

- the pokes into `new_row` (an `array<real>`);
- the list-building loops;
- the rho loop;
- the projection loop;
- the search loop.

Each of these is proved equal to a specification function, or proved to keep an invariant. The search loop is also specified by its run. A run is a sequence of `SearchState`s (list, running total, frontier, batch, waiting cost) with one `Move` (popped entry, remaining frontier, outcome) between each pair. Each pair is related by `SearchStep`: pop a least entry, flush when it is dearer than the waiting cost, explore it. The search returns its run as ghost results.

## Model

| member | source | states |
|---|---|---|
| QlrTable.Table | monodromy/qlr_table.py:27-72 | The stored table, entry for entry; what holds of its rows is stated by `TableShape`, `TableRow` and `TableGenerates` (a constant, with no contract of its own) |
| QlrTable.TableShape | monodromy/qlr_table.py:27-72 | Every stored entry has `0 < r`, `0 < k`, `r + k = 4`, and three partitions a, b, c of length r with parts in 0..k, non-increasing |
| QlrTable.TableRow | monodromy/qlr_table.py:27-72 | Each row is valid. All pokes of the row and of its swapped copy are legal Python indices. `a == b` holds exactly for the 16 rows listed in `SymmetricRow` |
| QlrTable.SymmetricRowCount | monodromy/qlr_table.py:27-72 | 16 of the 44 rows have `a == b` |
| QlrTable.TableGenerates | monodromy/qlr_table.py:27-72 | The table has 44 rows, every row can be generated without an index error, and 28 rows have `a != b` |
| QlrTable.ValidEntryWellFormed | monodromy/qlr_table.py:91-102 | For a valid entry, every subscript `k+(i+1)-p_i` lies in 1..4, so no poke reaches the constant slot or crosses into another block. Within a block the subscripts strictly increase. The entry and its swap are both pokeable |
| QlrTable.PyIndex | monodromy/qlr_table.py:91-102 | A Python index in -13..12 denotes a position in 0..12; a non-negative index denotes itself |
| QlrTable.PokeBlock | monodromy/qlr_table.py:91-102 | The row after the first n pokes of one block stays 13 wide; `PokeBlockAt` and `PokeBlockValue` give what the pokes add |
| QlrTable.RawRow | monodromy/qlr_table.py:87-102 | The raw row (constant, then the alpha, beta and gamma pokes in that order) is 13 wide; `RawRowIndicators` and `RawRowValue` give its entries and its value |
| QlrTable.InitialRow | monodromy/qlr_table.py:87-90 | The row the poke loops start from: `d`, then twelve zeros (a definition, with no contract; `RawRowSlot` and `RawRowValue` state what the poked row holds) |
| QlrTable.Collapse | monodromy/qlr_table.py:104-109 | Eliminating each block's fourth coordinate leaves 10 entries; `CollapseSound` shows the value is kept on block-sum-zero points |
| QlrTable.QlrInequality | monodromy/qlr_table.py:75-111 | An entry's inequality has 10 entries; `QlrInequalityMeaning` gives its value |
| QlrTable.PokeLoop | monodromy/qlr_table.py:91-102 | One poke loop run in place on the 13-slot array: the array afterwards is the old one with `delta` added at `k+(i+1)-p_i+offset` for each part, in order |
| QlrTable.IneqFromQlr | monodromy/qlr_table.py:75-111 | `ineq_from_qlr`: the row built in place by the three poke loops and then collapsed is the entry's inequality, and it has exactly 10 entries |
| QlrTable.PokeBlockAt | monodromy/qlr_table.py:91-102 | After a block's pokes, slot j holds its old value plus `delta` times the number of parts whose subscript is `j - offset` |
| QlrTable.HitsOutside | monodromy/qlr_table.py:91-102 | No part's subscript lies outside 1..4 |
| QlrTable.HitsSum | monodromy/qlr_table.py:91-102 | The four hit counts of a block add up to the number of parts poked |
| QlrTable.HitsDistinct | monodromy/qlr_table.py:91-102 | With strictly increasing subscripts, each block coordinate is hit at most once: exactly when some part has that subscript |
| QlrTable.WellFormedPokeable | monodromy/qlr_table.py:91-102 | Subscripts in 1..4 make every poke of the entry and of its swap a legal index |
| QlrTable.RawRowSlot | monodromy/qlr_table.py:87-102 | Slot j of the raw row is `d` at 0. Otherwise it is minus the alpha hits, minus the beta hits or plus the gamma hits of coordinate j, by block |
| QlrTable.RawRowBlocks | monodromy/qlr_table.py:87-102 | The raw row is `[d]` followed by the negated alpha hit counts, the negated beta hit counts and the gamma hit counts |
| QlrTable.IndicatorCounts | monodromy/qlr_table.py:91-102 | With strictly increasing subscripts, a block's hit counts are the 0/1 indicator of its subscript set |
| QlrTable.RawRowIndicators | monodromy/qlr_table.py:87-102 | For a valid entry, the raw row is `[d]`, minus a's indicator, minus b's indicator, plus c's indicator. The alpha and beta blocks each sum to `-r` and the gamma block to `+r` |
| QlrTable.PokeValue | monodromy/qlr_table.py:91-102 | One poke of `delta` at slot `pos` changes the inequality's value at x by `delta * x[pos-1]` |
| QlrTable.PokeBlockValue | monodromy/qlr_table.py:91-102 | A block's pokes change the value at x by `delta` times the sum of x over the block's subscripts |
| QlrTable.RawRowValue | monodromy/qlr_table.py:80-102 | The raw row evaluated at x is `d - sum alpha_(k+i-a_i) - sum beta_(k+i-b_i) + sum gamma_(k+i-c_i)`, the left side of the cited Biswas inequality |
| QlrTable.CollapseSound | monodromy/qlr_table.py:104-109 | Let x be a point whose four coordinates sum to zero in each block. The collapsed row evaluated on x's retained coordinates equals the raw row evaluated on x |
| QlrTable.BlockCollapse | monodromy/qlr_table.py:104-109 | One block: subtracting the fourth coefficient from the other three keeps the value when the coordinates sum to zero |
| QlrTable.QlrInequalityMeaning | monodromy/qlr_table.py:80-109 | On block-sum-zero points, the 10-wide inequality has the value of the Biswas expression of its entry |
| QlrTable.QlrInequalityShape | monodromy/qlr_table.py:87-109 | The inequality of a well-formed entry has 10 entries, and the first is `d` |
| QlrTable.SwapExchangesBlocks | monodromy/qlr_table.py:91-123 | Swapping a and b exchanges entries 1..3 with 4..6 and leaves the constant and entries 7..9 unchanged |
| QlrTable.GenerateQlrInequalities | monodromy/qlr_table.py:114-125 | `generate_qlr_inequalities`: the appending loop's output is the specification: for each row in table order, its inequality, then its swapped copy when `a != b`. Its length is the row count plus the number of rows with `a != b` |
| QlrTable.RowPlacement | monodromy/qlr_table.py:119-123 | Row i's inequality sits at position i plus the number of earlier rows with `a != b`. Its swapped copy follows immediately exactly when `a != b` |
| QlrTable.GeneratedLength | monodromy/qlr_table.py:119-125 | The output for n rows has n entries plus one per row with `a != b` |
| QlrTable.GeneratedWidth | monodromy/qlr_table.py:119-125 | Every emitted inequality is 10 wide |
| QlrTable.GeneratedPrefix | monodromy/qlr_table.py:119-125 | The output for the first m rows is a prefix of the output for the first n rows, for m <= n |
| QlrTable.Swapped | monodromy/qlr_table.py:123 | The entry with its `a` and `b` exchanged, as passed to the second `ineq_from_qlr` call (a definition, with no contract; `RowPlacement` places its inequality right after the entry's own) |
| QlrTable.RowInequalities | monodromy/qlr_table.py:119-123 | What one table row contributes: its inequality, then the swapped one when `a != b` (a definition, with no contract; `RowPlacement` states where both land) |
| QlrTable.QlrInequalities | monodromy/qlr_table.py:119-123 | The rows' contributions concatenated in table order (a definition, with no contract; `GeneratedLength`, `GeneratedWidth`, `GeneratedPrefix` and `RowPlacement` state its length, width, prefix order and placement, and `GenerateQlrInequalities` is proved to compute it) |
| QlrTable.AsymmetricRowsCount | monodromy/qlr_table.py:119-125 | Rows with `a != b` plus rows with `a == b` among the first n is n |
| QlrTable.SmallPartitionSound | monodromy/qlr_table.py:27-72 | The explicit per-length partition check implies the general partition predicate |
| QlrTable.TableInequalitiesShape | monodromy/qlr_table.py:114-132 | The stored table generates exactly 72 inequalities, each 10 wide |
| QlrTable.QlrPolytope | monodromy/qlr_table.py:128-132 | `qlr_polytope` is one convex piece of exactly 72 inequalities (44 + 28), each 10 wide |
| QlrTable.Fractionify | monodromy/qlr_table.py:135-142 | Same shape as the input table, and every entry is the exact rational value of the integer it came from |
| QlrTable.Alcove | monodromy/qlr_table.py:149-154 | `alcove` is one convex piece of 4 inequalities; `AlcoveMeaning` gives the points it contains |
| QlrTable.AlcoveC2 | monodromy/qlr_table.py:160-163 | `alcove_c2` is one convex piece of 5 inequalities; `AlcoveC2Meaning` gives the points it contains |
| QlrTable.AlcoveShape | monodromy/qlr_table.py:145-163 | `alcove` is one piece of 4 inequalities of width 4. `alcove_c2` is exactly `alcove`'s inequalities followed by `[1, -2, 0, 2]` |
| QlrTable.AlcoveMeaning | monodromy/qlr_table.py:145-154 | A point is in `alcove` exactly when `a1 >= a2 >= a3 >= a4 >= a1 - 1`, where `a4 = -a1-a2-a3` |
| QlrTable.AlcoveC2Meaning | monodromy/qlr_table.py:156-163 | A point is in `alcove_c2` exactly when it is in `alcove` and `a3 + 1/2 - a1 >= 0` |
| Coverage.Gt | monodromy/coverage.py:24-26 | `__gt__`: dearer, or as dear and of larger volume (a definition, with no contract; `ComparisonsAgree` relates it to the others) |
| Coverage.Ge | monodromy/coverage.py:28-30 | `__ge__`: dearer, or as dear and of at least the volume (a definition, with no contract) |
| Coverage.Lt | monodromy/coverage.py:32-34 | `__lt__`: cheaper, or as cheap and of smaller volume (a definition, with no contract; `LtStrictOrder` shows it is a strict order) |
| Coverage.Le | monodromy/coverage.py:36-38 | `__le__`: cheaper, or as cheap and of at most the volume (a definition, with no contract) |
| Coverage.ComparisonsAgree | monodromy/coverage.py:24-38 | `>` is the converse of `<` and `>=` the converse of `<=`. `<=` is `<` or a tie on both cost and volume. `<=` holds exactly when `>` does not, and `>=` exactly when `<` does not |
| Coverage.LtStrictOrder | monodromy/coverage.py:32-34 | `<` is irreflexive, asymmetric and transitive. Any two gate polytopes are `<`-comparable unless they tie on both cost and volume |
| Coverage.MiddleCoefficients | monodromy/coverage.py:73 | `inequality[1:-3]`: for width at least 4, the `width - 4` coefficients between the constant and the last three; otherwise empty |
| Coverage.RhoRotate | monodromy/coverage.py:70-73 | The rewrite of one inequality keeps its width from 4 entries up; a 3-entry inequality becomes 4 entries wide, as the source's list display makes it. `RhoRotateMeaning` gives its meaning |
| Coverage.RhoPoint | monodromy/coverage.py:61-65 | Rho on a point changes only its last three coordinates and keeps its length |
| Coverage.RhoRotateMeaning | monodromy/coverage.py:61-75 | The rotated inequality keeps its width. Its value at x equals the original's value at rho(x), where rho sends (a1, a2, a3) to (a3 + 1/2, a4 + 1/2, a1 - 1/2) |
| Coverage.RhoPointInvolution | monodromy/coverage.py:61-65 | Rho applied twice to a point gives the point back |
| Coverage.RhoRotateEntries | monodromy/coverage.py:70-74 | The rotated entries: constant `d + x/2 + y/2 - z/2`, middle unchanged, last three `(z-y, -y, x-y)` |
| Coverage.RotatedTwice | monodromy/coverage.py:70-74 | Two rotations in a row restore every entry |
| Coverage.RhoRotateInvolution | monodromy/coverage.py:70-74 | For width at least 4, the rotation keeps the length and the middle coefficients `[1:-3]`. Rotating twice returns the original inequality |
| Coverage.RhoConvex | monodromy/coverage.py:68-76 | A rotated piece has as many inequalities as the original |
| Coverage.RhoPolytope | monodromy/coverage.py:66-77 | `rho_p` has as many convex pieces as `p`, and each has as many inequalities as its original |
| Coverage.RhoConvexContains | monodromy/coverage.py:66-77 | A point is in a rotated piece exactly when its rho-image is in the original piece |
| Coverage.RhoPolytopeContains | monodromy/coverage.py:66-77 | A point is in `rho_p` exactly when its rho-image is in `p` |
| Coverage.RhoUnionSymmetric | monodromy/coverage.py:61-79 | The points of `p` together with those of `rho_p` form a rho-symmetric set: x is in it exactly when rho(x) is |
| Coverage.RhoPolytopeInvolution | monodromy/coverage.py:66-77 | For inequalities at least 4 wide, rotating the polytope twice gives it back |
| Coverage.RotatePiece | monodromy/coverage.py:68-76 | The inner rho loop returns the rotated piece exactly when every inequality has at least 3 entries. Otherwise it reports the `IndexError` the source raises |
| Coverage.RhoSymmetrize | monodromy/coverage.py:66-77 | The nested rho loop returns `rho_p` exactly when every inequality has at least 3 entries. Otherwise it reports the `IndexError` |
| Coverage.Constrained | monodromy/coverage.py:53-59 | The four intersections, in source order (a definition, with no contract) |
| Coverage.AMap | monodromy/coverage.py:49 | The `a` coordinates: the constant term, then coordinates 1-3 (a constant, with no contract) |
| Coverage.BMap | monodromy/coverage.py:50 | The `b` coordinates: the constant term, then coordinates 4-6 (a constant, with no contract) |
| Coverage.CMap | monodromy/coverage.py:51 | The `c` coordinates: the constant term, then coordinates 7-9 (a constant, with no contract) |
| Coverage.ProjectDown | monodromy/coverage.py:85-88 | Project then reduce for indices n, n-1, ..., 1 (a definition, with no contract; `ProjectAway` is the loop proved equal to it) |
| Coverage.ComposeSpec | monodromy/coverage.py:41-90 | The composition fails (the rho loop raises) exactly when some inequality of the constrained polytope has fewer than 3 entries |
| Coverage.IntersectAndProjectToC | monodromy/coverage.py:41-90 | The result is the specified composition. The steps, in order: intersect `qlr_polytope` with the alcove on A and on B, then with the given a- and b-regions; union with `rho_p` (or raise); intersect with `alcove_c2` on C; reduce; project away coordinates 6..1, reducing after each |
| Coverage.ProjectAway | monodromy/coverage.py:84-88 | Reduce, then project and reduce at indices 6, 5, 4, 3, 2, 1, in that order |
| Coverage.Eliminate | monodromy/coverage.py:86 | Eliminating one coordinate leaves one coordinate fewer |
| Coverage.SurvivingSuffix | monodromy/coverage.py:85-88 | Eliminating positions n, n-1, ..., 1, in that order, removes exactly the first n coordinates |
| Coverage.ProjectionKeepsC | monodromy/coverage.py:51-88 | Of the nine coordinates, projecting 6 down to 1 leaves 7, 8, 9, the c-coordinates on which `alcove_c2` was imposed |
| CoverageSearch.IdentityEntry | monodromy/coverage.py:111-116 | The starting entry: the identity region, cost 0, no operations (a definition, with no contract) |
| CoverageSearch.DropLast | monodromy/coverage.py:149 | `operations[:-1]`: a non-empty list is the result plus its last element; an empty list gives the empty list |
| CoverageSearch.Select | monodromy/coverage.py:133-135 | The selected entries are at most n, and each is among the first n candidates |
| CoverageSearch.Trim | monodromy/coverage.py:133-135 | `trim_polytope_set` keeps at most the whole batch, and only members of the batch |
| CoverageSearch.UnionAll | monodromy/coverage.py:136-137 | `total.union(b).reduce()` over the batch in order (a definition, with no contract; `Flush` is the loop proved equal to it) |
| CoverageSearch.Flush | monodromy/coverage.py:132-139 | A flush appends the trimmed batch to the necessary list; it never shrinks or reorders it. It merges every batch member into the total with union then reduce, in order |
| CoverageSearch.PopMin | monodromy/coverage.py:129 | `heappop` removes one occurrence of one frontier entry, and no frontier entry is `<` it |
| CoverageSearch.FindAncestor | monodromy/coverage.py:146-150 | No ancestor is found exactly when no necessary entry has the key as its operations. Otherwise the result is the first entry that does |
| CoverageSearch.Expansions | monodromy/coverage.py:182-187 | One continuation per operation; `ExpansionsExtend` gives their regions, costs and gate sequences |
| CoverageSearch.ExpansionsExtend | monodromy/coverage.py:180-187 | One continuation per operation. Each carries that operation's region, ends with that operation's gates and costs `next.cost + op.cost`. For a one-gate operation, its operations minus the last gate are `next`'s |
| CoverageSearch.PushExpansions | monodromy/coverage.py:180-187 | The push loop appends exactly the continuations, in operation order |
| CoverageSearch.StepFrom | monodromy/coverage.py:157-190 | Given the ancestor: the rho error, or the reduced composition with `next`'s cost and operations, classed by volume against `alcove_c2` (a definition, with no contract; `Explore` is proved to follow it) |
| CoverageSearch.Explore | monodromy/coverage.py:145-190 | A popped entry is skipped exactly when no necessary entry matches its `operations[:-1]`. Otherwise the step composes it with the first matching entry. The result is the rho `IndexError`, or the reduced composed region with `next`'s cost and operations, marked to expand exactly when its volume is below `alcove_c2`'s and to stop otherwise |
| CoverageSearch.EntryComposed | monodromy/coverage.py:157-168 | A new batch entry keeps `next`'s cost and operations. It is the composition of its first ancestor with the region of the operation whose gates end its gate sequence |
| CoverageSearch.BuiltFromExtend | monodromy/coverage.py:133-135 | Appending to the necessary list does not move an entry's first ancestor |
| CoverageSearch.SequenceComposes | monodromy/coverage.py:145-168 | With one-gate operations, every entry after the identity has gate sequence `s' + op` and the reduced composition of the region of `s'` (an earlier entry) with `op`'s region |
| CoverageSearch.EntryComposes | monodromy/coverage.py:145-168 | The same for one entry built from an earlier first ancestor |
| CoverageSearch.PrefixClosed | monodromy/coverage.py:131-168 | Prefix closure: each entry after the first has, earlier in the list, an entry whose operations are its own minus the last gate |
| CoverageSearch.FlushKeepsOrder | monodromy/coverage.py:131-139 | After a flush, every necessary entry is still built from an earlier first ancestor |
| CoverageSearch.FlushKeepsCosts | monodromy/coverage.py:131-139 | The batch is all at the waiting cost, and the list is sorted and no dearer. Then appending the trimmed batch keeps the list sorted by cost |
| CoverageSearch.FlushStep | monodromy/coverage.py:129-139 | Popping an entry dearer than the waiting cost and flushing keeps the search invariant, with the waiting cost raised to the popped cost, so it never decreases |
| CoverageSearch.WaitStep | monodromy/coverage.py:129-131 | Popping an entry at most the waiting cost keeps the invariant. With non-negative costs it is exactly at the waiting cost |
| CoverageSearch.ExploreStep | monodromy/coverage.py:145-190 | Exploring keeps the invariant: the new entry joins the batch at the waiting cost, and any pushed continuations continue by an operation and are no cheaper than it |
| CoverageSearch.BatchGrows | monodromy/coverage.py:157-168 | An entry built from the necessary list joins the batch without breaking the batch invariant. If it and the batch are at the waiting cost, so is the grown batch |
| CoverageSearch.FrontierGrows | monodromy/coverage.py:180-187 | After the push, every frontier entry carries an operation's region and ends with its gates. With non-negative costs, none is below the waiting cost |
| CoverageSearch.InitialFrontier | monodromy/coverage.py:118-121 | The first frontier, the operations themselves, continues by the operations |
| CoverageSearch.Advance | monodromy/coverage.py:128-139 | The loop head: pops an entry no frontier entry is `<`. If it is dearer than the waiting cost, the batch is flushed (trimmed batch appended, total merged), the batch emptied and the waiting cost raised to it; otherwise nothing else changes. The search invariant is kept |
| CoverageSearch.Record | monodromy/coverage.py:145-190 | The loop body after the pop: skipped or rho error leaves frontier and batch alone. An expanded entry joins the batch and its continuations the frontier. A full-volume entry joins the batch as its last member. The invariant is kept except on the error |
| CoverageSearch.Iterate | monodromy/coverage.py:128-190 | One iteration is a `SearchStep`: it pops a least frontier entry, flushes when that entry is dearer than the waiting cost, and explores it (skipped exactly without an ancestor, otherwise the step from the first ancestor). The search invariant is kept except on the rho error |
| CoverageSearch.StepOf | monodromy/coverage.py:128-190 | A pop of a least entry, the flush it triggers (`AfterPop`) and an exploration (`Explored`) make up a `SearchStep` |
| CoverageSearch.StepEnds | monodromy/coverage.py:157-190 | In any step, a `Full` outcome leaves the full-volume region as the last member of the batch, and a rho error comes from a popped entry whose first ancestor's composition raises |
| CoverageSearch.IterateRun | monodromy/coverage.py:128-190 | An iteration extends the run by the step taken. The earlier moves still let the loop go round, and the new one does too when its outcome is `Skipped` or `Expanded` |
| CoverageSearch.TraceExtend | monodromy/coverage.py:128-190 | A run extended by one `SearchStep` from its last state is a run |
| CoverageSearch.TraceSteps | monodromy/coverage.py:128-190 | Every step of a run is a `SearchStep` between consecutive states |
| CoverageSearch.MainLoop | monodromy/coverage.py:128-190 | The `while` loop, for at most `fuel` iterations, returns its run: states from the given state to the returned one, each consecutive pair a `SearchStep`, and every move but the last `Skipped` or `Expanded`. It was left drained (frontier empty), on a `Full` last move (whose region ends the batch), on a rho-error last move (for the popped entry, whose first ancestor's composition raises), or after exactly `fuel` continuing moves with entries left. Except on the error, the search invariant holds at exit |
| CoverageSearch.Conclude | monodromy/coverage.py:192-199 | After the loop: reports the exhausted budget or the rho error as the loop was left; otherwise it returns the last list followed by the trimmed last batch, which starts with the identity, is built in order, composes each later entry from an earlier one for one-gate operations, and is sorted for non-negative costs |
| CoverageSearch.FinalFlush | monodromy/coverage.py:192-199 | The last flush leaves a list that starts with the identity and is built in order; with one-gate operations every entry composes as `SequenceComposes` states. With non-negative costs it is sorted by cost |
| CoverageSearch.BuildCoverageSet | monodromy/coverage.py:93-199 | Returns the run of the main loop, which starts from the identity list, the identity total, the operations as frontier, an empty batch and waiting cost 0, and whose every step is a `SearchStep`. The result is `Concluded` from the run's last state: the rho error exactly when the last move raised it, for an entry whose first ancestor's composition raises; `FuelExhausted` only after `fuel` continuing moves with entries left; otherwise the last list followed by the trimmed last batch, on both ways out (frontier empty after continuing moves, or a `Full` last move whose region ends the batch). That list starts with the identity entry. Each later entry is the reduced composition of its first earlier ancestor with the region of the operation its gates end with; with one-gate operations its gates are that ancestor's plus the operation's. With non-negative operation costs it is sorted by cost |

## Left out

- The polytope library is not part of this model: intersection, union, reduce, volume, cylinderize, project, trimming and `identity_polytope`. These are uninterpreted fields of `Geometry`. The model does not state exhaustiveness or irredundancy of the returned cover, because those depend on what the library computes.
- `trim_polytope_set` is modelled as a per-candidate keep/drop decision returned by the library. The kept candidates stay in batch order. Whether the library preserves that order is not checked, since its source is not part of this model.
- `PolytopeVolume` is compared lexicographically on (dimension, volume). Its ordering comes from the library and is taken as given here.
- PopMin: the heap (`heapq`) is a sequence with a pop-minimum step under `__lt__`. Which of several tied entries is popped is left open; no proved property depends on it.
- BuildCoverageSet: the source loop is unbounded, and the model bounds it by a `fuel` count of iterations. When the fuel runs out it reports `FuelExhausted`, where the source would keep looping.
- BuildCoverageSet: the `IndexError` that `intersect_and_project_to_c` can raise propagates out of the search in the source. In the model it is the `RhoFailed` result, and the final flush is skipped on that path, as in the source.
- BuildCoverageSet: only the region of `total_polytope` is kept. Its cost and operations tags are never read.
- The `chatty` progress printing and `print_coverage_set` are left out (console output and float percentages).
- `monodromy/xx_decompose/defaults.py` and the tests under `test/xx_decompose/` are not part of this model. They cover floating-point cost models and circuit synthesis.
- RhoRotate: every coefficient is modelled as an exact rational. The inequalities of `qlr_polytope` are `Fraction`s, so `x / 2` is exact on them. A coefficient that reaches the rho loop as a plain Python `int`, for example from padding added by `cylinderize` (whose source is not part of this model), would make `x / 2` a float; the model does not represent that.
- Coverage.Eliminate, Coverage.SurvivingCoordinates, Coverage.SurvivingSuffix and Coverage.ProjectionKeepsC track only which coordinate labels survive the projection loop. They are not connected to `ProjectDown` or to the library's `project`, which is uninterpreted.
- RhoRotateInvolution: stated for inequalities of width at least 4. For width 3 the source's rewrite returns 4 entries, and no involution holds.
- IneqFromQlr: its precondition excludes entries whose pokes fall outside the 13-slot list; the source would raise `IndexError` for those. `TableRow` proves that every stored row, and its swap, satisfies it. `PokeBlock` leaves the row unchanged for such a poke only so that it is total.
- IneqFromQlr: the source's argument `r` is unused; the model keeps it in the entry.
- GenerateQlrInequalities takes the table as a parameter rather than reading the global. `QlrPolytope` is defined from the same specification function applied to `Table`.
- Fractionify: modelled on integer tables only. Conversion of floats, which the source warns about, is not modelled.
