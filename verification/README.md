# P-SPHRAY, verified

P-SPHRAY traces ionising radiation through particle data.  Its sources come with
three libraries: a port of the LSODA solver, jemalloc, and libconfig.  This
project models the parts of all four whose correctness rests on an argument over
many steps, and proves what each of them is for.

| files | component | main results |
|---|---|---|
| `Vectors`, `LinearSolver` | dense LU solver | `Dgefa`, `Dgesl`, `InfoDecidesSingularity` |
| `Nordsieck` | history of the integrator | `RetractedShifts`, `RescalingKeepsInterpolant`, `IntDy`, `DerivativeIsSlope` |
| `PageRuns`, `Tallies`, `Run*`, `Arena*` | page-run allocator | every public operation of `Arenas.Arena` keeps `ValidState` |
| `ChunkDss` | free extents of the data segment | `Recycle`, `Record`, `Dealloc` |
| `Octree*`, `SegmentBox` | ray tracer | `Build`, `CrowdedNeverBuilt`, `UpdateBoxes`, `Trace`, `PlueckerExact` |
| `RTree*` | packed R-tree | `Build`, `Neighbours`, `VisitReached`, `ExactIff` |
| `Cuckoo` | cuckoo hash table | `Insert`, `Remove`, `Grow`, `Shrink` refine a finite map |
| `ArraySort`, `Balance` | sorting, distribution over ranks | `Argsort`, `Argpermute`, `Run` |
| `AliasTable` | alias tables | `Preproc0`, `SampleRegion`, `EventLaw` |
| `Peano` | Peano-Hilbert keys | `MachinesAgree`, `KeyOfCell`, `KeysFollowCells` |
| `Config*` | configuration writer and parser | `PrintedIsRead`, `ReadIsKept` |
| `Photons` | photon bookkeeping | `RunEpoch`, `Step` |
| `Numbers`, `Options`, `Sums` | shared definitions | |

`dafny verify dfyconfig.toml` checks all of it.

## How the model reads the program

Code that updates memory is modelled by classes and methods that update fields
and arrays in the same loops; each method is tied to a function or a predicate
of the state, and the laws are proved about those.

Floating-point numbers are exact reals, and integers are unbounded, except where
the width decides the result: the numbers of configuration texts are 32 and 64
bits wide, and Peano-Hilbert digits are bit vectors.  Random numbers, results of
system calls and of allocation, and what other threads do while a lock is not
held are parameters, so that the results hold for all of them; the last section
names the exceptions.  Regions under a lock are atomic.  Ordered trees are sets with the searches that the code uses.

Where the code differs from what one might expect of it, the code is followed:

- The octree build never ends when more than `CFG_OCTTREE_PPC` particles
  coincide (`CrowdBuildsNothing`).  `Build` assumes that this is not so, and
  `CrowdedNeverBuilt` shows that nothing weaker would do.
- `rt_trace` tests the distance to the infinite line.  It may report particles
  behind the start or beyond the end of the segment (`TraceBehindStart`);
  `Trace` says exactly which, and when there are none.
- `rtree_neighbours` stops at the first walk that meets n particles, which need
  not be the nearest (`MissedNeighbour`).  `Neighbours` says when they are.
  With a hint of zero or less it doubles for ever unless the first walk meets n
  (`FillsIff`).
- `ckh_insert` loses the item in hand when it cannot grow (`LoseKey`).  `Insert`
  names it, and says when the insertion is sure to succeed and when a failure
  is sure to lose an old key.
- The splitters of `balance` are not always the closest possible, because the
  search never tries the greatest key (`RunUnevenly`).  `Bisect` and `Run` say
  exactly when they are.
- A setting that is called `true` or `false`, in any mixture of cases, is
  accepted by `config_setting_add` but its printed text cannot be read
  (`ReservedNameRejected`).  So is a setting of a group without a name
  (`UnnamedRejected`).
- A setting of type string without a value is printed as an empty string
  (`MissingStringIsEmpty`).
- The padding that `chunk_alloc_dss` puts below a new range is never used.

## Model

| member | source | states |
|---|---|---|
| `LinearSolver.Dgefa` | support/lsoda/dgefa.c:51-102 | For every n and matrix, the array ends up factored: A applied to the replay of the multipliers and pivots on any y is the lower triangle applied to y; info is 0 exactly when A is nonsingular, and otherwise names the last zero on the diagonal |
| `LinearSolver.FactorStep` | support/lsoda/dgefa.c:58-96 | One column step keeps the factorization invariant A·(P1 M1 … Pk Mk y) = A_k·y, also when the pivot row is already zero |
| `LinearSolver.StepKeepsFactored` | support/lsoda/dgefa.c:72-95 | Interchange, multipliers and row elimination on row-stored data extend the invariant by one column |
| `LinearSolver.ZeroPivotKeepsFactored` | support/lsoda/dgefa.c:68-71 | Skipping a zero pivot row keeps the invariant with the identity pivot |
| `LinearSolver.InfoDecidesSingularity` | support/lsoda/dgefa.c:57-100 | Of any factored matrix: info is 0 if and only if the original matrix maps no nonzero vector to zero |
| `LinearSolver.Idamax` | support/lsoda/idamax.c:32-70 | The smallest index of the largest magnitude in the rest of row k |
| `LinearSolver.FormMultipliers` | support/lsoda/dgefa.c:75-84 | The pivot row is interchanged and its tail becomes the negated quotients by the pivot; no other row changes |
| `LinearSolver.EliminateRow` | support/lsoda/dgefa.c:88-95 | A lower row is interchanged and loses its multiple of the pivot row, so that the swapped row is recovered by the multipliers |
| `LinearSolver.EliminateColumn` | support/lsoda/dgefa.c:72-95 | All rows below are eliminated, rows above and their diagonal stay |
| `LinearSolver.Ddot` | support/lsoda/ddot.c:35-80 | The inner product of a row part with a vector part |
| `LinearSolver.Daxpy` | support/lsoda/daxpy.c:46-92 | The tail of a row gains t times the tail of the pivot row; all else stays, with t = 0 included |
| `LinearSolver.Dgesl` | support/lsoda/dgesl.c:47-101 | From any factorization with a nonzero diagonal, job 0 leaves x with A·x = b in b, and every other job leaves x with Transpose(A)·x = b |
| `LinearSolver.SolveLower` | support/lsoda/dgesl.c:60-63 | Forward substitution: the lower triangle applied to the result is the old b |
| `LinearSolver.ReplayPivots` | support/lsoda/dgesl.c:67-75 | The reverse replay of multipliers and interchanges equals the replay function of the factorization invariant |
| `LinearSolver.PullBack` | support/lsoda/dgesl.c:83-91 | The transposed first pass yields c with c·y = b·(replay of y) for every y |
| `LinearSolver.SolveUpper` | support/lsoda/dgesl.c:95-99 | The transposed second pass yields x with x·(L y) = c·y for every y |
| `LinearSolver.TransposeSolved` | support/lsoda/dgesl.c:78-99 | The two transposed passes together solve Transpose(A)·x = b |
| `LinearSolver.FactorAndSolve` | support/lsoda/dgefa.c:51-102 | Factor, then solve when info is 0: the solver gets an answer exactly for nonsingular matrices, and that answer satisfies A·x = b |
| `LinearSolver.SolutionUnique` | support/lsoda/dgesl.c:11-31 | A nonsingular system has at most one solution, so the computed one is the solution |
| `LinearSolver.ReplayOnto` | support/lsoda/dgefa.c:35-37 | The product of interchanges and multipliers reaches every vector |
| `LinearSolver.ReplayZero` | support/lsoda/dgefa.c:35-37 | … and takes only zero to zero, so it is a bijection |
| `Nordsieck.History.CorFailure` | support/lsoda/corfailure.c:6-24 | Every column of the history is retracted (pairwise differences from every order down), counters and tn are reset, and 2 is returned exactly at the smallest step or after MXNCF failures |
| `Nordsieck.History.RetractFrom` | support/lsoda/corfailure.c:14-18 | One pass of the triangular subtraction replaces a column tail by its differences |
| `Polynomials.RetractedShifts` | support/lsoda/corfailure.c:13-18 | For every order, the retracted coefficients are those of the polynomial shifted by one: q(x - 1) |
| `Nordsieck.RetractionKeepsInterpolant` | support/lsoda/corfailure.c:13-18 | When tn = told + h, the interpolant as a function of t is the same before and after corfailure |
| `Nordsieck.History.ScaleH` | support/lsoda/scaleh.c:5-42 | Row j is scaled by the j-th power of the ratio, h and rc by the ratio, ialth is the number of rows. Outside the stability restriction the ratio is the largest that exceeds neither the wanted one nor rmax and keeps |h|·hmxi within 1; under it, which sets irflag, the ratio times pdh is sm1[nq] |
| `Nordsieck.CappedLargest` | support/lsoda/scaleh.c:17-18 | The capped ratio is the largest r with r ≤ rh, r ≤ rmax and |h|·hmxi·r ≤ 1, and one of the three is an equality |
| `Nordsieck.LongestStep` | support/lsoda/scaleh.c:17-41 | Where the stability region does not matter, h grows by the wanted ratio, or by rmax, or to exactly 1 / hmxi |
| `Polynomials.EvalRescaled` | support/lsoda/scaleh.c:32-37 | Rescaled coefficients at x are the original ones at r·x |
| `Nordsieck.RescalingKeepsInterpolant` | support/lsoda/scaleh.c:32-38 | The interpolant as a function of t is the same before and after scaleh |
| `Nordsieck.History.LimitRatio` | support/lsoda/scaleh.c:17-31 | The ratio used is the wanted one, capped by rmax, by the largest step and, for Adams, by the stability region |
| `Nordsieck.RatioLimits` | support/lsoda/scaleh.c:11-31 | The limited ratio is positive, exceeds the wanted one and the largest step by at most the tolerance, and respects the stability limit |
| `Nordsieck.History.IntDy` | support/lsoda/intdy.c:32-68 | For every k up to the order and every t between tn - hu - 100·ETA·(tn + hu) and tn, in either direction, dky is the k-th derivative of the interpolant at t; a bad k or t is reported and dky is left alone |
| `Nordsieck.History.Horner` | support/lsoda/intdy.c:46-61 | The reverse summation is the value of the k-th derivative polynomial |
| `Polynomials.DerivativeEntry` | support/lsoda/intdy.c:26-28 | Entry m of the k-th derivative is (k+m)(k+m-1)…(m+1) times coefficient k+m |
| `Polynomials.DerivativeIsSlope` | support/lsoda/intdy.c:16-28 | The coefficient derivative is the derivative: f(y) - f(x) = (y - x) f'(x) + (y - x)² g for an explicit polynomial g |
| `Nordsieck.InterpolantDerives` | support/lsoda/intdy.c:16-28 | The (k+1)-st interpolated derivative is the slope of the k-th as a function of t |
| `Arenas.Arena.constructor` | support/jemalloc/arena.c:2213-2252 | A new arena is empty and satisfies the invariant |
| `Arenas.Arena.RunSplit` | support/jemalloc/arena.c:311-465 | Splitting a free run keeps the whole invariant; the first pages become the run in use, the rest a free run of the same dirtiness; no other page changes its use, and none its dirtiness |
| `Arenas.Arena.ReuseSpare` | support/jemalloc/arena.c:473-490 | The spare becomes splittable again, and nothing else changes |
| `Arenas.Arena.FreshChunk` | support/jemalloc/arena.c:497-541 | Whatever other threads did while the lock was dropped, a freshly mapped chunk becomes one splittable free run, and nothing else changes |
| `Arenas.Arena.ChunkDealloc` | support/jemalloc/arena.c:548-579 | A wholly free chunk becomes the spare; the old spare leaves with its dirty pages subtracted from ndirty |
| `Arenas.Arena.RunAllocBegin` | support/jemalloc/arena.c:591-626 | The invariant is kept, a run of exactly the requested size is handed out from pages that were free, as dirty as they were, no other page changes, and nactive grows by its size; without a fit the spare is used; the lock is dropped exactly when no run fits and there is no spare |
| `Arenas.Arena.RunAllocEnd` | support/jemalloc/arena.c:621-660 | The same from any state that other threads left while the lock was dropped: the new chunk is split, or without one the searches are made again; there is no run exactly when there is no chunk and nothing fits then |
| `Arenas.Arena.SearchRun` | support/jemalloc/arena.c:591-616 | The run split is the best fit among the dirty runs, and only if none fits there, that among the clean ones |
| `ArenaChoices.BestFit` | support/jemalloc/arena.c:218-245 | The run chosen is the smallest that fits, the lowest of those in address order |
| `Arenas.Arena.RunDallocCore` | support/jemalloc/arena.c:955-1116 | Freeing a run makes exactly its pages free, and dirty if the caller or the run says so, adds them to the dirty count of the chunk, coalesces with both neighbours of the same dirtiness, keeps the invariant, and lowers nactive by its pages; only a completely free old spare can disappear, with its dirty pages |
| `Arenas.Arena.RunDalloc` | support/jemalloc/arena.c:955-1121 | The same, and then the purge when the run was dirty: if more is dirty than a chunk and than the ratio allows, ndirty ends at or below the ratio, and otherwise nothing more happens |
| `Arenas.Arena.PurgeBegin` | support/jemalloc/arena.c:718-790 | The dirty free runs of a chunk are taken as allocated clean runs: no dirty page is left in it, nactive has grown by them, the invariant holds in between |
| `Arenas.Arena.PurgeEnd` | support/jemalloc/arena.c:845-855 | Whatever other threads did to the arena while the lock was dropped, releasing the held runs keeps the invariant, lowers nactive by exactly their pages, and leaves every other run in use alone |
| `Arenas.Arena.ChunkPurge` | support/jemalloc/arena.c:675-855 | Purging a chunk keeps the invariant, nactive and every run in use; the chunk has no dirty page afterwards, and ndirty has lost exactly what it had, and at most a dirty spare besides |
| `Arenas.Arena.NextDirty` | support/jemalloc/arena.c:893-941 | Walking the dirty list drops chunks without dirty pages; if the list runs out, nothing is dirty |
| `Arenas.Arena.Purge` | support/jemalloc/arena.c:858-943 | Purging ends with ndirty at or below the target, and at most two chunks below it, without touching runs in use |
| `Arenas.Arena.MaybePurge` | support/jemalloc/arena.c:663-672 | When more is dirty than a chunk and than the ratio allows, it is purged down to the ratio; otherwise nothing changes |
| `ArenaPurges.ShareIs` | support/jemalloc/arena.c:663-672 | The number of dirty pages that the ratio allows is nactive divided by the power of two, rounded down |
| `Arenas.Arena.TrimHead` | support/jemalloc/arena.c:1124-1165 | Exactly the head pages are released, as dirty as the run was; the tail stays in use |
| `Arenas.Arena.TrimTail` | support/jemalloc/arena.c:1168-1209 | Exactly the tail pages are released, dirty if the caller or the run says so; the head stays in use |
| `Arenas.Arena.GrowInto` | support/jemalloc/arena.c:2013-2052 | Split and join: the run takes exactly the wanted pages of the free run after it, and keeps the invariant |
| `Arenas.Arena.RallocLargeGrow` | support/jemalloc/arena.c:1992-2065 | A large run grows in place exactly when the following run is free and large enough for the size asked; then it takes as many pages as there are, up to the extra, and is dirty if either was; otherwise nothing changes |
| `Arenas.Arena.DallocBinRun` | support/jemalloc/arena.c:1739-1787 | A small run is released entirely: of a clean run exactly the pages that were touched become dirty, and the others stay clean; of a dirty run all; then the purge as for any release |
| `Arenas.Arena.Palloc` | support/jemalloc/arena.c:1545-1587 | An aligned large run of exactly the wanted size is handed out, lead and trail are given back, nactive grows by that size only, and if the run is clean no other page has changed its use or its dirtiness |
| `RunSplitting.SplitLayoutTiled` | support/jemalloc/arena.c:340-370 | After a split the runs still exactly tile the chunk |
| `RunSplitting.WriteSplit` | support/jemalloc/arena.c:345-465 | The page-map entries written encode the split layout, with the dirty, large and allocated flags |
| `RunReleasing.FreedLayoutCoalesced` | support/jemalloc/arena.c:1020-1089 | After a release no two adjacent free runs have the same dirtiness |
| `RunReleasing.FreedLayoutPages` | support/jemalloc/arena.c:991-1089 | A release frees exactly the pages of the run, with the dirtiness given; no other page changes its use or its dirtiness |
| `RunReleasing.WriteFreed` | support/jemalloc/arena.c:985-1089 | The page-map entries written by release and both merges encode the merged layout |
| `ArenaStates.SplitKeepsCore` | support/jemalloc/arena.c:311-465 | A split keeps tiling, coalescing, the two available sets, the per-chunk and total counters and the dirty list |
| `ArenaReleases.FreeKeepsCore` | support/jemalloc/arena.c:991-1105 | A release keeps all of them |
| `ArenaChunks.DeallocKeepsCore` | support/jemalloc/arena.c:548-579 | Replacing the spare keeps all of them |
| `ArenaChunks.UnspareKeepsCore` | support/jemalloc/arena.c:475-491 | Bringing the spare back keeps all of them |
| `ArenaChunks.FreshKeepsCore` | support/jemalloc/arena.c:493-543 | A fresh chunk keeps all of them |
| `ArenaPurges.TakenKeepsValid` | support/jemalloc/arena.c:722-790 | Taking all dirty runs of a chunk as large runs keeps the invariant |
| `ArenaPurges.TakeDirtyRuns` | support/jemalloc/arena.c:725-790 | The page-map walk finds exactly the dirty free runs, and their pages add up to the dirty count |
| `ArenaFrames.KeepsInUseTrans` | support/jemalloc/arena.c:582-660 | What two operations leave in use, their sequence leaves in use |
| `PageRuns.Retile` | support/jemalloc/arena.c:340-370 | Repainting pages between two run boundaries keeps the tiling |
| `Octrees.Octree.Build` | src/raytrace.c:41-98 | Whatever the order of the particles and the first pool size, building with retries terminates for every input that can be built at all; every particle in the root box is then in exactly one leaf, whose octant contains it, and no leaf is over the limit |
| `Octrees.Octree.CrowdedNeverBuilt` | src/raytrace.c:77-94 | The converse: a finished tree shows that no more than the limit of particles coincide, so the condition of Build is exact |
| `Octrees.CrowdBuildsNothing` | src/raytrace.c:77-94 | One particle more than the limit at one point of the root box: no tree is ever complete |
| `Octrees.Octree.BuildPass` | src/raytrace.c:47-94 | One pass either completes the tree or stops with a full pool, which a large enough pool rules out |
| `Octrees.Octree.MakeRoom` | src/raytrace.c:77-92 | Splitting until there is room keeps every filed particle filed and stays within the depth budget |
| `Octrees.Octree.Split` | src/raytrace.c:268-305 | Splitting hands every particle to the one octant that contains it, or leaves everything alone when the pool is full |
| `Octrees.Octree.HandDown` | src/raytrace.c:295-302 | One particle of the split cell moves to its octant; the lists of all cells stay threaded |
| `Octrees.Octree.Distribute` | src/raytrace.c:297-301 | The eight inside tests add the particle exactly once |
| `Octrees.Octree.Add` | src/raytrace.c:232-240 | A particle becomes the head of a leaf's list |
| `Octrees.Octree.Climb` | src/raytrace.c:66-69 | Climbing ends at a cell that contains the position, or outside the root box |
| `OctreeCells.OctantsPartition` | src/raytrace.c:282-287 | Every position in a cell is in exactly one of its octants |
| `OctreeCells.FindsLeaf` | src/raytrace.c:250-267 | find ends at a leaf that contains the position and never at the error exit |
| `OctreeCells.FindFromRoot` | src/raytrace.c:64-77 | find from any cell on the way gives the leaf that find from the root gives |
| `OctreeCells.LeafUnique` | src/raytrace.c:250-267 | A leaf contains a position exactly when find leads there |
| `OctreeBounds.SpreadOut` | src/raytrace.c:79-92 | If no more than the limit of particles coincide, some depth separates them |
| `OctreeBounds.CompleteNotCrowded` | src/raytrace.c:241-246 | A complete tree within the limit has no crowd |
| `OctreeBounds.BudgetSplit` | src/raytrace.c:268-305 | A split keeps the potential that bounds how many cells the tree can still grow |
| `Octrees.Octree.UpdateBoxes` | src/raytrace.c:100-150 | The repeated sweeps process each cell exactly once, after its children, terminate, and leave each cell with the hull of its particles' kernel cubes or of its children's boxes |
| `Octrees.Octree.Process` | src/raytrace.c:111-147 | Processing one cell keeps the sweep's state: processed cells have their final box, counters count processed children |
| `OctreeBoxes.FoldIsHull` | src/raytrace.c:116-141 | The running minimum and maximum is the smallest box around the items, and does not depend on the box before |
| `OctreeBoxes.ProcessKeeps` | src/raytrace.c:142-147 | Crediting the parent keeps every counter equal to the number of processed children |
| `OctreeBoxes.LastCanProcess` | src/raytrace.c:111-149 | Until all cells are done some cell can be processed, so every sweep makes progress |
| `OctreeBoxes.BoxesNest` | src/raytrace.c:100-149 | Every box contains its children's boxes and its particles' cubes |
| `OctreeBoxes.BoxesOrdered` | src/raytrace.c:100-149 | Every box has bottom below top |
| `Octrees.Octree.SwitchEpoch` | src/raytrace.c:41-151 | Build and box pass together establish what tracing needs |
| `Octrees.Octree.Walk` | src/raytrace.c:160-208 | The stackless walk reports what a recursive descent through the hit cells reports, in that order, and terminates |
| `Octrees.Octree.Trace` | src/raytrace.c:153-210 | For a unit direction: nothing is reported twice, and each report has the squared distance from the start and the squared distance from the line; a particle is reported if and only if it is inserted and valid, within sml of the ray's line, and in a leaf whose box the segment meets. All whose kernel sphere meets the segment are among them, and there are no others if and only if none of those misses the segment |
| `Octrees.TraceBehindStart` | src/raytrace.c:153-210 | A scene in which a particle behind the start of the ray is reported, with its two distances, though its sphere misses the segment |
| `OctreeTrace.VisitExact` | src/raytrace.c:160-208 | The recursive descent reports exactly the inserted valid particles whose sphere meets the line and whose leaf's box meets the segment |
| `OctreeTrace.ExactUnlessStray` | src/raytrace.c:153-210 | That is brute force over the segment if and only if no particle that is reported misses the segment |
| `OctreeTrace.SegmentReported` | src/raytrace.c:153-210 | Every particle whose sphere meets the segment is reported |
| `OctreeTrace.VisitNoRepeat` | src/raytrace.c:160-208 | The descent meets no particle twice |
| `OctreeTrace.Descend` | src/raytrace.c:162-166 | Going to the first child keeps what remains to be reported |
| `OctreeTrace.MoveOn` | src/raytrace.c:198-207 | Going to the next sibling, or to the parent, keeps what remains to be reported |
| `OctreeTrace.TakesIsLine` | src/raytrace.c:174-186 | The distance test is the distance to the infinite line, no more than sml |
| `OctreeTrace.LineDistance` | src/raytrace.c:174-183 | The squared distance of a point of the line splits into the perpendicular part and the rest |
| `OctreeTrace.R2IsNearest` | src/raytrace.c:180-190 | The number reported as impact parameter is the least squared distance of a point of the line from the particle |
| `OctreeTrace.Dist2Is` | src/raytrace.c:176-180 | The squared distance is the sum of the squares of the three coordinate differences |
| `OctreeTrace.SphereHitsBox` | src/raytrace.c:220-231 | A sphere that meets the segment makes the segment meet every box around its cube |
| `SegmentBox.PlueckerExact` | src/pluecker-sse.c:28-198 | In all eight sign classes, zero components included, the test is 1 if and only if some t in [0, dist] puts the point inside the closed box |
| `SegmentBox.PlueckerByAxes` | src/pluecker-sse.c:28-198 | The eight cases are one conjunction of end tests and pairwise tests |
| `SegmentBox.PairExact` | src/pluecker-sse.c:46-59 | A pairwise product test holds exactly when the two axes' parameter intervals overlap |
| `RTrees.RTree.Build` | src/rtree.c:31-101 | For every number of particles, the packed tree has the announced size; its leaves have twelve particles each in order, every node's box is the smallest around its particles' cubes, parent links and last-child marks are right |
| `RTreeNodes.SnugParent` | src/rtree.c:80-92 | The box over the boxes of the children is the smallest around all their particles' cubes |
| `RTreeNodes.ParentAdded` | src/rtree.c:72-95 | Adding one parent over the next (up to) eight children keeps the half-built tree well formed |
| `RTrees.RTree.BuildLevel` | src/rtree.c:71-99 | One level takes all nodes of the level below |
| `RTrees.RTree.Walk` | src/rtree.c:165-191 | The stackless walk adds exactly the particles of leaves reachable through intersecting boxes, in order, to the bounded list |
| `RTreeWalks.Descend` | src/rtree.c:168-172 | Descending keeps what remains to be visited |
| `RTreeWalks.MoveOn` | src/rtree.c:180-190 | Moving to the next node or climbing past last children keeps what remains to be visited |
| `RTreeWalks.VisitIncreasing` | src/rtree.c:165-191 | Particles are visited in increasing order, hence at most once |
| `RTreeReach.VisitReached` | src/rtree.c:103-191 | Over the packed tree, a particle is visited if and only if, along every axis, some kernel cube of its leaf begins before the end of the search box and some ends after its beginning |
| `RTreeReach.ReachedIff` | src/rtree.c:103-128 | For half-widths that are not negative this means: the search cube has a point in common with the smallest box around the kernel cubes of the leaf |
| `RTreeReach.LeafReached` | src/rtree.c:103-128 | The comparisons of intersect with the box of a leaf are comparisons with its particles |
| `RTreeReach.MetIsReached` | src/rtree.c:165-191 | A walk meets each of these particles once and no other |
| `RTreeReach.ReachedMonotone` | src/rtree.c:160-193 | A wider search meets the same particles, and maybe more |
| `RTreeReach.InsideReached` | src/rtree.c:103-128 | Every particle inside the search box is met |
| `RTrees.RTree.Neighbours` | src/rtree.c:151-194 | Whenever the doubling search ends, it ends at the first half-width hint·2^k at which min(n, npar) particles are in leaves whose kernel cubes' hull meets the search cube, with the nearest of those, distinct and sorted; the answer is that of all particles if and only if none that was not met is nearer than the n-th nearest that was, and always when n particles are within the first half-width |
| `RTreeExact.FillsIff` | src/rtree.c:160-193 | The doubling search ends if and only if the first half-width is positive or the first walk meets n particles already: a half-width of zero or less never reaches more |
| `RTrees.MissedNeighbour` | src/rtree.c:160-193 | An input at which the answer is not the nearest particle: a leaf whose box meets the search box hides a nearer particle of another leaf |
| `RTreeExact.ExactIff` | src/rtree.c:160-193 | The list of a walk has the n nearest of all particles if and only if, for every particle that was not met, at least n of those met are as near |
| `RTreeExact.LastIsNth` | src/rtree.c:129-150 | The last distance of the list is at most d exactly when n of the particles met are within d |
| `RTreeExact.CloseIsExact` | src/rtree.c:160-193 | If n particles are within the half-width, the walk fills the list, and with the nearest particles of all |
| `RTreeExact.NearIsInside` | src/rtree.c:161-164 | A particle nearer than the half-width is inside the search box |
| `BoundedLists.AddToList` | src/rtree.c:129-150 | Inserting in place, with the shift and the drop of the last entry, is insertion into the bounded sorted list |
| `BoundedLists.AddAllNearest` | src/rtree.c:129-150 | For every sequence of insertions the list holds the n nearest, sorted; all others are at least as far |
| `BoundedLists.AddAllDistinct` | src/rtree.c:129-150 | Distinct particles stay distinct |
| `Cuckoo.Table.New` | support/jemalloc/ckh.c:348-404 | A new table is empty, at least a third larger than asked, and no larger than a power of two demands; there is none exactly when that power is beyond the memory |
| `Cuckoo.MinCells` | support/jemalloc/ckh.c:368-382 | The least power of two cells that hold the items at a load of three quarters |
| `Cuckoo.Table.ISearch` | support/jemalloc/ckh.c:71-90 | The cell of a key is found exactly when the table has it, in one of its two buckets |
| `Cuckoo.Table.BucketSearch` | support/jemalloc/ckh.c:53-68 | A bucket scan finds the key's cell in it, or there is none |
| `Cuckoo.Table.TryBucketInsert` | support/jemalloc/ckh.c:93-122 | From a random start every cell is tried: the item is added, or the bucket is full and nothing has changed |
| `Cuckoo.Table.EvictRelocInsert` | support/jemalloc/ckh.c:125-191 | At every eviction the table and the item in hand together are conserved; every key stays in one of its two buckets; a chain that comes back to its first bucket ends with an old item in hand, never the new one, and with both buckets of that item full |
| `Cuckoo.Table.EvictOne` | support/jemalloc/ckh.c:145-163 | One eviction swaps the item in hand with one of its bucket, leaves all other items where they are, and names the other bucket of the item that was evicted |
| `Cuckoo.Table.TryInsert` | support/jemalloc/ckh.c:194-216 | The item is added, always if one of its buckets has a free cell, or one item is left in hand and the rest of the map is in the table |
| `Cuckoo.Table.Rebuild` | support/jemalloc/ckh.c:223-243 | The new table gets the whole map of the old array, always if the map is no larger than a bucket, or the old array is unchanged |
| `Cuckoo.Table.Grow` | support/jemalloc/ckh.c:246-298 | Growing keeps the map, also across failed attempts; without memory the old table is restored as it was; a map no larger than a bucket is sure to fit into a table of twice the size |
| `Cuckoo.Table.Shrink` | support/jemalloc/ckh.c:301-345 | Shrinking keeps the map and halves the table, surely when the map is no larger than a bucket; a failed attempt restores the old table cell by cell |
| `Cuckoo.Table.Insert` | support/jemalloc/ckh.c:462-484 | Success is map update, and is certain when a bucket of the key has a free cell; when growth fails for memory exactly one item, which the result names, is missing from the table, and neither of its buckets has a free cell: the map is as it was if and only if that is the new item, and it never is when there was no room to grow to begin with |
| `Cuckoo.LoseKey` | support/jemalloc/ckh.c:462-484 | A full table of one bucket without room to grow: inserting a fifth key leaves a map with the fifth key in place of one of the four that were stored |
| `Cuckoo.Table.Remove` | support/jemalloc/ckh.c:487-516 | Removal is map deletion and returns the value; the table is halved only if it was left less than a quarter full and is larger than at first, and then surely when the map is no larger than a bucket |
| `Cuckoo.Table.Search` | support/jemalloc/ckh.c:519-536 | Search is map lookup |
| `Cuckoo.Table.Iter` | support/jemalloc/ckh.c:442-459 | Iteration yields the entries in cell order, each once, and ends when none is left |
| `CuckooTables.Evict` | support/jemalloc/ckh.c:140-175 | Swapping the item in hand with a cell conserves the two together |
| `ArraySort.Argsort` | support/array.h:138-193 | For every length the caller's buffer ends with the stable sorting permutation, whichever of the two buffers the passes end in |
| `ArraySort.Pass` | support/array.h:168-186 | One pass merges all neighbouring blocks of a width into blocks of twice the width |
| `ArraySort.Merge` | support/array.h:169-185 | Merging two sorted blocks gives one sorted block with the same indices, ties in index order |
| `ArraySort.StableSort` | support/array.h:138-193 | A sorted block over everything is a permutation that sorts the keys, keeps them as a multiset, and keeps the order of equal keys |
| `ArraySort.StableUnique` | support/array.h:138-193 | There is only one such permutation, so the result is determined |
| `ArraySort.Argpermute` | support/array.h:217-262 | In place, element i becomes the old element p[i], for every permutation; a target gets the same |
| `ArraySort.Leader` | support/array.h:227-230 | The unmarked search along the cycle terminates, and ends at i exactly when i is the least of its cycle |
| `ArraySort.Shuffle` | support/array.h:237-258 | One cycle is moved in place and nothing else |
| `ArraySort.SearchSplits` | support/array.h:70-96 | On a sorted non-empty array the result splits it: everything left of it is below (or not above) the key, everything from it on is not |
| `Permutations.PermutedSameItems` | support/array.h:217-262 | Permuting keeps the items as a multiset |
| `Permutations.PermutationOnto` | support/array.h:217-262 | Distinct indices in range reach every index |
| `Balance.Run` | src/balance.c:162-283 | From locally sorted non-empty ranks: the concatenation over the ranks afterwards is sorted and has exactly the original particles; the first j+1 ranks together have at most (j+1)/size of them, and no splitter up to the greatest key would bring them closer to it if and only if more than that is below the greatest key or no key is just below it |
| `Balance.RunUnevenly` | src/balance.c:192-239 | An input at which the splitters are not the closest: of two ranks with keys 0 and 1, the first ends empty |
| `Balance.Bisect` | src/balance.c:184-225 | The bisection of all splitters terminates; they are non-decreasing, each has at most its share of keys below it, and it has the largest count within the share that is possible up to the greatest key if and only if that key is not needed as a splitter |
| `Balance.TightClosest` | src/balance.c:209-224 | Where the search ends, the count is the largest possible within the share if and only if more than the share of keys is below the greatest key, or no key equals its predecessor |
| `Balance.CountIs` | src/balance.c:194-205 | The counts of all ranks add up to the number of keys below the splitter |
| `Balance.CountNext` | src/balance.c:196-206 | The global count grows from one splitter value to the next exactly where there is a key |
| `Balance.Round` | src/balance.c:192-224 | One round keeps the brackets right and in order, and narrows one of them unless it is the last round, which leaves the splitters tight |
| `Balance.StepAll` | src/balance.c:207-223 | Each bracket moves by its own count; when bad is 0 every splitter is settled, and otherwise a bracket has become narrower |
| `Balance.SettledTight` | src/balance.c:209-223 | A splitter that does not move meets its share, or is one below a value with too many keys, or within one of the greatest key |
| `Balance.StepInOrder` | src/balance.c:209-223 | Neighbouring brackets, bisected independently, stay in order |
| `Balance.Displacements` | src/balance.c:234-239 | The displacements cut a sorted pool at the splitters, from 0 to its length |
| `Balance.SortPool` | src/balance.c:262-264 | argsort then argpermute sorts a pool in place and keeps its particles |
| `Balance.ExchangeAndSort` | src/balance.c:241-266 | Every rank ends with what it received, sorted |
| `Balance.Receive` | src/balance.c:245-255 | What a rank receives is the concatenation of its segments in rank order |
| `Ranks.ExchangeConserves` | src/balance.c:241-256 | For all pools and cuts the all-to-all exchange conserves the particles as a multiset |
| `Balance.ReceivedBetween` | src/balance.c:234-255 | What rank r receives has keys between splitters r-1 and r |
| `Balance.ReceivedCount` | src/balance.c:204-256 | The first j+1 ranks receive exactly the keys counted below splitter j |
| `Balance.FlattenSorted` | src/balance.c:262-266 | Sorted ranks between increasing splitters concatenate to a sorted whole |
| `Balance.SearchMonotone` | src/balance.c:202-202 | A larger splitter has at least as many keys below it |
| `AliasSampler.Preproc0` | src/discrete.c:213-349 | With positive total weight: all F and A are in range, and index k has probability exactly P[k] / total if P[k] is positive, and else none; no events is an error |
| `AliasSampler.BuildTable` | src/discrete.c:231-342 | The table of every weight vector has exactly the normalised weights as its law |
| `AliasSampler.Turn` | src/discrete.c:282-308 | One turn finishes the small it popped, with all three outcomes for the big, and conserves every index's mass; no push overflows |
| `AliasSampler.Drain` | src/discrete.c:310-314 | The bigs that are left have exactly the mean, so F = 1 is right for them |
| `AliasSampler.FillStacks` | src/discrete.c:271-278 | The two stacks, made for the counts, take every index without overflow |
| `AliasSampler.Knuth` | src/discrete.c:338-341 | F becomes (k + F)/K |
| `AliasLaws.FinishedLaw` | src/discrete.c:282-341 | A finished table over conserved mass has the law of the weights |
| `AliasLaws.TurnPair` | src/discrete.c:283-308 | Pairing a small with a big keeps the construction's invariant whichever stack the big goes to |
| `AliasLaws.TurnNoBigs` | src/discrete.c:284-288 | A small without bigs has exactly the mean |
| `AliasLaws.SampleRegion` | src/discrete.c:357-381 | Of each column of the unit interval, the u for which the sampler returns k are an interval whose length is that column's share of k |
| `AliasSampler.Pdf` | src/discrete.c:391-410 | For k up to K the loop computes the law of k; beyond K it is 0 |
| `AliasSampler.Stack.Push` | src/discrete.c:177-186 | Push appends, or reports a full stack and changes nothing |
| `AliasSampler.Stack.Pop` | src/discrete.c:188-195 | Pop undoes a push |
| `BlockSampler.Preproc` | src/ompdiscrete.c:12-42 | With positive block totals every block's table and the root table have the laws of their weights |
| `BlockSampler.EventLaw` | src/ompdiscrete.c:29-48 | Every index is in exactly one place of one block; the two-level sampler draws it exactly when it draws that block and that place, with probability P[i] / total if P[i] is positive, and else none |
| `BlockSampler.TwoLevelLaw` | src/ompdiscrete.c:44-48 | The product of root and block probabilities is max(0, P[i]) / total for the index i that a block and a place in it stand for |
| `BlockSampler.SampleIsPair` | src/ompdiscrete.c:44-48 | The two-level sampler returns an index exactly when the root returns its block and the block its offset |
| `BlockSampler.UnitDrawable` | src/ompdiscrete.c:44-48 | Every pair of numbers in [0, 1) leads to a block and an offset in range |
| `BlockSampler.FitsLaid` | src/ompdiscrete.c:12-48 | What the preprocessing builds is what the two-level sampler needs |
| `BlockSampler.BlockUnique` | src/ompdiscrete.c:29-32 | No index is in two blocks |
| `Peano.PeanoHilbertKey` | src/peano.c:122-138 | The mask loop computes the recursive key for every number of bits; the halves of the cube that x, y and z are in decide the eighth that the key is in, in the order of the first row of the table |
| `Peano.PeanoHilbertKeyOld` | src/peano.c:233-275 | The rotation-and-sense loop computes the same key |
| `Peano.MachinesAgree` | src/peano.c:122-275 | For every state pair of the bisimulation, cell and number of bits, the 48-state machine and the 24-rotation machine with sense give the same key |
| `Peano.StepAgrees` | src/peano.c:185-272 | One step of both machines gives the same digit and related states |
| `Peano.CellOfKey` | src/peano.c:122-138 | Decoding the key of a cell gives the cell back |
| `Peano.KeyOfCell` | src/peano.c:122-138 | Every number below 8^bits is the key of its decoded cell: the key is a bijection from the cube |
| `Peano.KeyBound` | src/peano.c:122-138 | Keys are below 8^bits |
| `Peano.KeysFollowCells` | src/peano.c:119-138 | Cells with consecutive keys share a face, which is what makes the curve a Hilbert curve |
| `Peano.CurveEnds` | src/peano.c:122-138 | For every number of bits the curve starts at the origin and ends at the far end of the z axis |
| `Peano.LeadingDigit` | src/peano.c:122-138 | Which eighth of the keys each of the eight octants of the cube has |
| `PeanoTables.DigitsDistinct` | src/peano.c:68-117 | Every row of subpix3 is a permutation of the eight digits |
| `PeanoTables.NextTouches` | src/peano.c:17-117 | For all states the exit corner of each octant touches the entry corner of the next |
| `PeanoTables.DigitAgrees` | src/peano.c:68-216 | All 48 rows of subpix3 against quadrants: equal, or mirrored for the reversed sense |
| `Peano.Turn` | src/peano.c:261-271 | The two counting loops apply the rotation tables as often as asked |
| `ChunkDss.Dss.Boot` | support/jemalloc/chunk_dss.c:268-281 | Nothing is free at first |
| `ChunkDss.Dss.Recycle` | support/jemalloc/chunk_dss.c:33-70 | Both trees keep the same nodes; the range recycled is the front of the smallest extent that is large enough, the lowest of those; it was free and is not any more, all else is as before; failure means no extent is large enough; aligned extents give an aligned range and stay aligned |
| `ChunkDss.Dss.Alloc` | support/jemalloc/chunk_dss.c:72-127 | When an extent is large enough, a range of exactly that size leaves the free space; otherwise, whatever other threads do before the lock is taken again and between the calls of sbrk, there is an aligned range above all that the segment had if and only if sbrk gives one, and the padding below it is in no extent; recycled ranges are aligned if all extents are |
| `ChunkDss.Dss.Record` | support/jemalloc/chunk_dss.c:129-200 | Recording a range makes exactly it free, joined with exactly the extents that touch it; the lock is dropped to allocate a node exactly when no extent follows the range; aligned extents and an aligned range give aligned extents |
| `ChunkDss.Dss.CoalesceBackward` | support/jemalloc/chunk_dss.c:176-197 | Joining the preceding extent keeps the space and leaves no adjacent extents |
| `ChunkDss.Dss.Dealloc` | support/jemalloc/chunk_dss.c:218-266 | A range of the segment becomes free; if with what it was joined to it ends the segment, and sbrk gives it back, the segment shrinks to its start; a range outside is refused and changes nothing |
| `ChunkDss.Dss.SzadNsearch` | support/jemalloc/chunk_dss.c:40-44 | The extent chosen is the least that is large enough, by size then address |
| `Extents.JoinForward` | support/jemalloc/chunk_dss.c:138-148 | Joining the following extent covers exactly the old space and the new range |
| `Extents.JoinBackward` | support/jemalloc/chunk_dss.c:176-197 | Joining the preceding extent covers the same space with one extent less |
| `Extents.NoneBackward` | support/jemalloc/chunk_dss.c:176-197 | If the preceding extent does not reach the new one, the extents are disjoint and not adjacent |
| `ConfigRoundTrip.PrintedIsRead` | support/libconfig/libconfig.c:168-392 | For every tree the library can hold (floats aside), settings without a name included, every layout and default format: the printed text is read back as the tree with explicit formats if and only if it has no setting without a value, no setting of a group without a name, no setting named true or false in any case, and only arrays of scalars of one type; otherwise it is rejected |
| `ConfigRoundTrip.ReservedNameRejected` | support/libconfig/libconfig.c:168-392 | A tree that the library can hold but whose text it rejects: a setting named True |
| `ConfigRoundTrip.UnnamedRejected` | support/libconfig/libconfig.c:168-392 | A tree that the library can hold but whose text it rejects: a setting of a group that was added without a name |
| `ConfigRoundTrip.MissingStringIsEmpty` | support/libconfig/libconfig.c:265-304 | A string setting without a value is read back as an empty string |
| `ConfigRoundTrip.WriteThenRead` | support/libconfig/libconfig.c:631-662 | config_write followed by a read of the text, as run: writer, scanner and parser |
| `ConfigSamples.SampleText` | support/libconfig/libconfig.c:168-392 | The text of one tree with every kind of value, character by character |
| `ConfigSamples.OtherIsRead` | support/libconfig/grammar.c:1497-1780 | A text in another layout: signs, cases, separators and adjacent strings that the writer does not use |
| `ConfigReading.ReadIsKept` | support/libconfig/libconfig.c:551-628 | The tree read from any text (without floats, comments and includes) can be printed and read back, and comes back as it was |
| `ConfigRoundTrip.ScanShow` | support/libconfig/libconfig.c:168-392 | The scanner finds in the text of a value exactly the value's tokens, at every depth and indentation |
| `ConfigRoundTrip.QuotedText` | support/libconfig/scanner.c:983-1042 | Escaping and unescaping are inverse for all byte strings |
| `ConfigRoundTrip.LexDigits` | support/libconfig/scanner.c:1143-1152 | The longest match on a printed decimal number is the number |
| `ConfigRoundTrip.LexHexText` | support/libconfig/scanner.c:1153-1165 | A negative number printed as an unsigned hexadecimal one is read back as itself, in 32 and in 64 bits |
| `ConfigRoundTrip.LexHexDigits` | support/libconfig/scanner.c:1153-1165 | Any hexadecimal number, also one beyond 64 bits, is read as the value reduced to the signed range of its type |
| `ConfigRoundTrip.ToSignedIs` | support/libconfig/scanner.c:1153-1165 | That reduction keeps the value modulo 2^32 or 2^64 |
| `ConfigScanner.ScanText` | support/libconfig/scanner.c:957-1226 | The scanner loop computes the token sequence of the text |
| `ConfigScanner.ReservedIs` | support/libconfig/scanner.c:957-1226 | The reserved words are true and false with each letter in either case |
| `ConfigTokens.ParseTokens` | support/libconfig/grammar.c:511-519 | The grammar rebuilds a value from its tokens exactly when it is readable, and leaves the rest of the input |
| `ConfigTokens.GroupTokens` | support/libconfig/grammar.c:1478-1495 | The same for the settings of a group, with the duplicate check |
| `ConfigTokens.ReadSame` | support/libconfig/libconfig.c:1131-1135 | Under the default format exactly the trees without missing strings are read back unchanged |
| `ConfigTokens.ReadAgain` | support/libconfig/grammar.c:1478-1780 | What was read has explicit formats and can be read again |
| `ConfigParser.Context.Value` | support/libconfig/grammar.c:1497-1780 | The actions on ctx->parent and ctx->setting put into the tree exactly the value that the grammar reads |
| `ConfigParser.Context.Settings` | support/libconfig/grammar.c:1478-1495 | They add the settings to the group in order, and fail on a duplicate name |
| `ConfigParser.Context.Configuration` | support/libconfig/grammar.c:511-519 | The whole input is read, or rejected |
| `ConfigParser.Context.Open` | support/libconfig/grammar.c:1497-1549 | An opening bracket starts a new child of a list, or the setting that waits for its value |
| `ConfigParser.Context.Close` | support/libconfig/grammar.c:1516-1521 | A closing bracket puts the finished node into its parent |
| `ConfigParser.Context.PutScalar` | support/libconfig/grammar.c:1569-1752 | A scalar goes to the end of an array or list, with the array's type check, or to the waiting setting |
| `ConfigTree.Writer.Write` | support/libconfig/libconfig.c:631-662 | The recursive writer appends exactly the specified text to the stream |
| `ConfigTree.Writer.WriteValue` | support/libconfig/libconfig.c:168-392 | The same for a value at a depth |
| `ConfigTree.DigitsSpell` | support/libconfig/libconfig.c:186-213 | The digits of a number spell the number |
| `Photons.Emitter.RunEpoch` | src/loop.c:103-149 | Over any number of ticks with arbitrary sampling, each source has emitted, for every tick at which it was sampled, its luminosity of that tick times the time since it was sampled before; a source of constant luminosity, however its history is divided, exactly its luminosity times lastemit times tick_time |
| `Photons.Emitter.Step` | src/loop.c:163-373 | A sampled source gives all that was due since its last emission, the others nothing; a sampled pool ends at exactly zero, the others stay; the rays of a pool carry its value times the number of atoms, those of a source what it gives, in equal parts |
| `Photons.Emitter.Account` | src/loop.c:324-369 | The subtractions ray by ray never fall below zero and end at zero for every sampled pool |
| `Photons.SplitPhotons` | src/loop.c:305-321 | After the run-length pass over the sorted rays each ray carries an equal part of its source or pool |
| `Photons.SharedWhole` | src/loop.c:305-321 | The rays of a sampled source or pool add up to its full weight |
| `Photons.Emitter.WeightSources` | src/sources.c:67-78 | Weights are the luminosity at the advanced cursor times the time since the last emission |
| `Photons.Emitter.AdvanceCursor` | src/sources.c:58-66 | The cursor moves over entries that are due, and stops before one that is not |
| `Photons.Emitter.FollowNext` | src/loop.c:128-148 | If every source was in the state that n ticks lead to, one tick of each, sampled or not, leads to the state after n + 1 |
| `Photons.Emitter.ConstantNextAll` | src/loop.c:128-148 | A tick keeps, for every source of constant luminosity, sampled or not, that it has given its luminosity times the time up to its last emission |

## Left out

- Floating-point rounding, overflow and comparison effects, everywhere: exact reals.
- Square roots: the tracer and the R-tree compare and report squared distances.
- Overflow of machine integers (sizes, counters, keys of more than 21 bits a side): unbounded integers.
- Statistics, debugging output, memory filling, profiling, red zones: no influence on the modelled state.
- jemalloc's size classes, bins, region bitmaps and thread caches, and the balancing of red-black trees: the arena model starts at runs and their page counts.
- jemalloc's page map is a sequence of decoded entries; the bit layout of `CHUNK_MAP_*` words is not modelled, nothing is claimed about `CHUNK_MAP_UNZEROED`, and the header of a small run is its page count.
- Arenas.Arena.RunAlloc: states the whole of `arena_run_alloc` for the case that no other thread runs while the lock is dropped; its two halves, `RunAllocBegin` and `RunAllocEnd`, hold with any interference between them.
- Arenas.Arena.ChunkPurge: states the whole purge for the case that no other thread runs while the lock is dropped for `madvise`; its two halves, `PurgeBegin` and `PurgeEnd`, hold with any interference between them.
- Arenas.Arena.Purge: likewise.
- Arenas.Arena.MaybePurge: likewise, because it purges; with other threads running, the bound on dirty pages need not hold afterwards.
- Arenas.Arena.RunDalloc: for the case that no other thread runs where the lock is dropped: at the end of `RunDallocCore`, around the unmapping of a chunk, and in the purge after it. Each of its parts starts from any state in which the invariant holds.
- Arenas.Arena.TrimHead: likewise, because it ends with a release.
- Arenas.Arena.TrimTail: likewise.
- Arenas.Arena.DallocBinRun: likewise.
- Arenas.Arena.Palloc: likewise, between allocating the run and trimming its two ends; sizes are page counts, and alignments any number of pages of at least two.
- jemalloc's `mmap`, `swap`, `zone` and huge allocation: system interfaces.
- Cuckoo.Table.EvictRelocInsert: whether an eviction chain ends depends on the pseudo-random sequence; a bound on the number of evictions is a parameter, and running out of it is an outcome of its own that promises nothing for the operation.
- Cuckoo.Table.New: buckets of four cells; keys are compared with equality.
- Octrees.Octree.Build: the initial pool size, a positive number, and the growth of the result buffer of `rt_trace` are parameters or left out.
- RTrees.RTree.Neighbours: at least one particle and one neighbour wanted; with none, `add_to_list` reads before the start of its array.
- The largest Hilbert key of an R-tree node (`lhv`): written, never read by the search.
- Balance.Run: MPI ranks are a sequence of pools and the collectives functions over all of them; the key of a particle is a function; `build_framework` and `split_child` after the exchange are unfinished in the source.
- BlockSampler.Preproc: the threads of the parallel region run one after the other.
- AliasSampler.Preproc0: a total of zero makes the source divide by zero; failures of allocation are left out.
- ChunkDss.Dss.Alloc: addresses do not wrap around.
- The integrator's drivers (`stoda`, step and order selection, `cfode`): no crisp specification.
- Configuration texts with comments, include directives, float literals or decimal numbers outside their type: the scanner model ends there with a result of its own, about which nothing is claimed; floats are printed with ten digits and do not come back.
- ConfigParser.Context.Configuration: the grammar is read by recursive rules in place of the generated tables; error messages, line numbers and the partial tree of a rejected text are left out.
- Photons.Emitter.Step: positions, directions, frequencies and lengths of rays, and how they are drawn; rays arrive sorted, as the library sort leaves them.
- Photons.Emitter.RunEpoch: tracing, deposition and chemistry between the ticks; the pools they leave behind are a parameter.
- Readers, units, cosmology, spectra, rate tables, `morton` keys: no behaviour of the kind proved here.
