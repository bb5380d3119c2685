# QEM edge-collapse decimator — a Dafny model

This project models the mesh decimator in `Decimation/js/Decimation.js`. It
simplifies a triangle mesh by repeatedly collapsing the cheapest edge, with
cost measured by Garland and Heckbert's quadric error metric. The model covers:

- **Quadric algebra** (module `Quadrics`): the 10-coefficient symmetric matrix,
  its sum, the plane quadric, the 3x3 determinant and the error
  `vertexError`. All of it is over exact `real`s.
- **Collapse-point selection** (module `Evaluator`, `calculateError`). When the
  block is regular and the edge is not border–border, the point comes from
  Cramer's rule. Otherwise it is the cheapest of the two endpoints and their
  midpoint.
- **The working set** (module `MeshModel`): an arena of vertex and triangle
  records addressed by dense ids, plus a flat reference table. Each vertex owns
  the contiguous slice `[triangleStart, triangleStart + triangleCount)` of the
  table.
- **The reference-table rebuild** (module `ReferenceTable`, `updateMesh`). It
  drops tombstones, then builds the table with a counting sort: count, prefix
  sum, fill.
- **Border classification** (module `Border`, `identifyBorder`).
- **One edge collapse** (module `Collapse`): the flip test `isFlipped`, the
  triangle rewrite `updateTriangles`, the patch of the surviving vertex's
  slice, and the per-triangle edge scan of a pass.
- **The export** (module `Reconstruct`, the array part of `reconstructMesh`).
- **The driver** (module `Driver`, `runDecimation`): the target count, the
  passes, and the final export.

The working set is a value. Every operation takes the arena and returns the
updated arena, so "the source mutates field f of record k" becomes "the result
differs from the input only in f of record k". That is what the contracts
state.

## Model

| member | source | states |
|---|---|---|
| Quadrics.FromArray | Decimation/js/Decimation.js:54-62 | slot i of the new matrix is `data[i]` when the array has an entry there and 0 past its end (a zero entry stays 0) |
| Quadrics.Zero | Decimation/js/Decimation.js:45 | the matrix a fresh vertex starts with has error 0 at every point |
| Quadrics.Add | Decimation/js/Decimation.js:81-87 | every coefficient of the result is the sum of the two operands' coefficients |
| Quadrics.AddArrayInPlace | Decimation/js/Decimation.js:75-79 | after the loop each of the 10 coefficients has been increased by the matching array entry |
| Quadrics.AddInPlace | Decimation/js/Decimation.js:69-73 | the in-place sum leaves the receiver equal to the value `add` returns for the same operands |
| Quadrics.AddCommutesAndAssociates | Decimation/js/Decimation.js:81-87 | quadric addition is commutative and associative, so the order in which quadrics are accumulated does not matter |
| Quadrics.ErrorOfSum | Decimation/js/Decimation.js:513-518 | the error of a sum of quadrics at a point is the sum of their errors there |
| Quadrics.FromDataMatchesNumbers | Decimation/js/Decimation.js:89-97 | `FromData` and `DataFromNumbers` produce the same 10 coefficients |
| Quadrics.PlaneError | Decimation/js/Decimation.js:89-92 | the error of the plane quadric at p is the square of the plane equation `a x + b y + c z + d`, hence never negative |
| Quadrics.Expansion | Decimation/js/Decimation.js:513-518 | moving the point by v changes the error by the gradient term plus the homogeneous part `v^T A v` |
| Quadrics.CramerRows | Decimation/js/Decimation.js:64-67 | each row of the block applied to the signed cofactor determinants gives that row's right-hand side times the block determinant |
| Quadrics.SolveFromRows | Decimation/js/Decimation.js:530-532 | scaling the cofactors by -1/det, 1/det and -1/det gives a solution of the 3x3 system whenever det is not 0 |
| Quadrics.CramerPointSolves | Decimation/js/Decimation.js:524-532 | when the block determinant is non-zero, the point `calculateError` computes solves `A p = -(q3, q6, q8)`, and the gradient of the error vanishes there |
| Quadrics.CramerPointIsStationary | Decimation/js/Decimation.js:524-533 | at the Cramer point the error of any displaced point exceeds the point's own error by exactly `v^T A v` |
| Vectors.Midpoint | Decimation/js/Decimation.js:541 | twice the midpoint is the sum of the two endpoints |
| Evaluator.Min3 | Decimation/js/Decimation.js:546 | the result is one of the three arguments and is no larger than any of them |
| Evaluator.CalculateError | Decimation/js/Decimation.js:520-570 | in every branch the cost is the summed quadric's error at the returned point. In the Cramer branch that point solves the block system. In the fallback the cost is at most all three candidate errors, and point, normal and uv come from vertex1, then vertex2, then the midpoint, where the midpoint takes vertex1's uv |
| Evaluator.QuadraticPartOfSum | Decimation/js/Decimation.js:81-87 | the homogeneous part of a sum of quadrics is the sum of their homogeneous parts |
| Evaluator.PlaneSumConcat | Decimation/js/Decimation.js:409 | accumulating two lists of plane quadrics one after the other gives the sum of the two accumulations |
| Evaluator.PlaneSumErrorNonNegative | Decimation/js/Decimation.js:409 | a quadric accumulated from plane quadrics has non-negative error everywhere |
| Evaluator.PlaneSumQuadraticPartNonNegative | Decimation/js/Decimation.js:409 | a quadric accumulated from plane quadrics has a positive semi-definite block |
| Evaluator.CollapseOfPlaneSums | Decimation/js/Decimation.js:520-546 | for vertices whose quadrics are plane sums, the collapse cost is non-negative. In the Cramer branch it is the minimum of the summed error over all points |
| MeshModel.LiveTriangles | Decimation/js/Decimation.js:467-472 | the kept triangles are all live and all come from the input, and their number is the input length minus the tombstones |
| MeshModel.TombstonesUpdate | Decimation/js/Decimation.js:388-389 | rewriting one triangle changes the tombstone count by exactly the change in that triangle's deleted flag, so tombstoning a live triangle adds one |
| ReferenceTable.CompactTriangles | Decimation/js/Decimation.js:465-474 | the compaction loop leaves exactly the non-deleted triangles, in their original order |
| ReferenceTable.RefsOfCharacterised | Decimation/js/Decimation.js:497-505 | vertex v's expected slice holds exactly the pairs (j, i) with `triangles[i].vertices[j] == v`, ordered by triangle and then by corner |
| ReferenceTable.RefsBeforeCount | Decimation/js/Decimation.js:481-487 | the number of references to v among the first i triangles equals how often v occurs among their corners, which is what the counting loop tallies |
| ReferenceTable.SliceStartCounts | Decimation/js/Decimation.js:489-495 | the prefix sum for v counts the corners that name a vertex below v |
| ReferenceTable.SlicesOrdered | Decimation/js/Decimation.js:489-495 | the slice of a lower vertex ends before the slice of a higher vertex starts, so slices never overlap |
| ReferenceTable.SlicesCoverTable | Decimation/js/Decimation.js:489-497 | when every corner names a vertex, the slices together fill the `3 × triangles.length` table exactly |
| ReferenceTable.SlicesWithinTable | Decimation/js/Decimation.js:489-497 | every vertex's slice lies inside the table |
| ReferenceTable.SlotOwner | Decimation/js/Decimation.js:497-505 | every table slot belongs to the slice of some vertex |
| ReferenceTable.CountCorners | Decimation/js/Decimation.js:476-487 | after clearing and counting, every vertex's count is the number of corners naming it, and nothing outside the slice fields changes |
| ReferenceTable.RunningSum | Decimation/js/Decimation.js:489-495 | each vertex's start is the sum of the counts of the vertices before it, and its count is reset to 0 |
| ReferenceTable.CountsBeforeIsStart | Decimation/js/Decimation.js:489-495 | the running sum of the counted triangle counts equals the start of the vertex's expected slice |
| ReferenceTable.AssignSliceStarts | Decimation/js/Decimation.js:489-495 | after the prefix-sum loop each vertex's start is the start of its expected slice and its count is 0 |
| ReferenceTable.PlaceCorner | Decimation/js/Decimation.js:500-504 | placing one corner appends `Reference(j, i)` to the owner's partial slice and leaves every other slice unchanged |
| ReferenceTable.FillTriangle | Decimation/js/Decimation.js:498-505 | after triangle i, every vertex's partial slice holds its references from triangles 0..i, in order |
| ReferenceTable.FillReferences | Decimation/js/Decimation.js:497-506 | after the fill, each vertex's slice of the new table is exactly its expected reference list, and each count is that list's length |
| ReferenceTable.RebuildReferences | Decimation/js/Decimation.js:476-506 | clear, count, prefix-sum and fill build the table for the given triangles (`3 × length` entries, each slice starting at the prefix sum and listing the vertex's corners in order) and change nothing but slice fields |
| ReferenceTable.RebuiltLinked | Decimation/js/Decimation.js:497-506 | a table built this way only names existing triangles and corners 0..2 |
| ReferenceTable.TableByCorners | Decimation/js/Decimation.js:489-505 | the counting-sort table depends only on the triangles' corners, so clearing flags keeps a rebuilt table valid |
| ReferenceTable.UpdateMesh | Decimation/js/Decimation.js:463-511 | the triangles are the live ones in order (all of them when `init`), the table is rebuilt for them, and no vertex changes outside its slice and border flag. Without `init` the flags are kept. With `init`, each flag is what `identifyBorder` computes on the rebuilt arena |
| Border.NeighbourIds | Decimation/js/Decimation.js:434-438 | a vertex visits `3 × triangleCount` ids, each of them an existing vertex |
| Border.CountNeighbours | Decimation/js/Decimation.js:434-451 | the collected ids are distinct and are exactly the visited ids. Each count is that id's number of occurrences (so at least 1), and the counts sum to the number of visited ids |
| Border.SumIncrement | Decimation/js/Decimation.js:448 | bumping one count raises the sum of counts by one |
| Border.ApplyTally | Decimation/js/Decimation.js:453-459 | each collected id's flag becomes `count == 1`, every other vertex is unchanged, and nothing but flags changes |
| Border.VisitVertex | Decimation/js/Decimation.js:430-460 | after vertex i is processed, every flag is the verdict of the last vertex among 0..i that collected it (last write wins) |
| Border.IdentifyBorder | Decimation/js/Decimation.js:429-461 | only border flags change, and each ends as the verdict of the last vertex that collected it |
| Border.NeverCollectedKeepsFlag | Decimation/js/Decimation.js:429-461 | a vertex that no slice collects keeps the flag it had |
| Collapse.IsFlipped | Decimation/js/Decimation.js:349-378 | the test rejects exactly when some live triangle of the slice not on the edge fails the host's geometry check. When it accepts, entry i is marked exactly when its live triangle contains the edge and the border factor is below 2 |
| Collapse.Redirect | Decimation/js/Decimation.js:392-397 | the rewritten triangle names the vertex in the given corner, keeps its other corners, is dirty, and its cached costs match its corners (slot 3 is the minimum) |
| Collapse.PushesBound | Decimation/js/Decimation.js:383-398 | one visit pushes at most one reference, and every pushed reference is an entry of the slice |
| Collapse.MarkedOff | Decimation/js/Decimation.js:383-390 | after a pass over a slice, a triangle is a tombstone exactly when it was one or some entry of it was marked while it was still live |
| Collapse.PushedStep | Decimation/js/Decimation.js:383-398 | visiting entry i appends the entry exactly when its triangle is live on reaching it and the entry is unmarked, and sets the triangle's tombstone flag exactly when it is marked; so `PushedSoFar` holds for i + 1 |
| Collapse.PushedSkip | Decimation/js/Decimation.js:386-387 | passing over a tombstone pushes nothing and changes no flag |
| Collapse.PushedTombstone | Decimation/js/Decimation.js:388-391 | tombstoning a marked live entry pushes nothing |
| Collapse.PushedRedirect | Decimation/js/Decimation.js:392-398 | redirecting an unmarked live entry pushes exactly that entry |
| Collapse.PushesByFlags | Decimation/js/Decimation.js:386 | the pushes and liveness depend on the triangles only through their tombstone flags |
| Collapse.BlockByMarks | Decimation/js/Decimation.js:308-309 | two mark arrays that agree on the slice's entries give the same block and the same tombstones |
| Collapse.CollapsedEdge | Decimation/js/Decimation.js:290-323 | a collapse run with the marks the flip tests returned has the effect `EdgeCollapsed` states, with the block given by the marks `Shares` defines |
| Collapse.RefreshedKept | Decimation/js/Decimation.js:392-398 | writing a tombstone or a refreshed triangle at entry i keeps every earlier live entry dirty with fresh costs, and adds entry i |
| Collapse.EvolvesTrans | Decimation/js/Decimation.js:380-401 | the changes `updateTriangles` may make to a triangle compose, so two calls together still make an allowed change |
| Collapse.StepTombstone | Decimation/js/Decimation.js:387-390 | tombstoning a marked live entry keeps the loop facts and adds one to the deleted counter |
| Collapse.StepRedirect | Decimation/js/Decimation.js:392-398 | redirecting an unmarked live entry and pushing its reference keeps the loop facts, and the entry's triangle is dirty with recomputed costs |
| Collapse.VisitEntry | Decimation/js/Decimation.js:383-398 | one round of the loop: tombstones are skipped, marked entries are tombstoned and counted, and the rest are redirected, made dirty with recomputed costs (slot 3 the minimum), and re-appended; the pushes so far are exactly `Pushes` of the visited entries |
| Collapse.VisitTombstone | Decimation/js/Decimation.js:386-387 | an entry whose triangle is already a tombstone leaves the state and the counter as they were, and the loop facts carry over |
| Collapse.VisitMarked | Decimation/js/Decimation.js:388-391 | a marked live entry makes exactly its triangle a tombstone, adds one to the counter and pushes nothing |
| Collapse.VisitKept | Decimation/js/Decimation.js:392-398 | an unmarked live entry pushes exactly itself onto the table and leaves the counter and the vertices unchanged |
| Collapse.PushesByMarks | Decimation/js/Decimation.js:388 | the pushes and liveness read the mark array only at the slice's own entries |
| Collapse.UpdateTriangles | Decimation/js/Decimation.js:380-401 | the counter grows by exactly the number of new tombstones. Exactly one reference is pushed per slice entry, in slice order, when the entry's triangle is still live on reaching it and the entry is unmarked; after the call, a triangle is a tombstone exactly when it was one before or some visited entry of it was marked. Each appended reference names the vertex. Every marked entry's triangle is a tombstone. Every live slice triangle names the vertex, is re-appended, is dirty, and has costs recomputed from the current vertices. Triangles outside the slice are unchanged |
| Collapse.PatchSlice | Decimation/js/Decimation.js:313-318 | the copy loop writes the appended block over the start of the old slice and changes no other entry |
| Collapse.PlaceSlice | Decimation/js/Decimation.js:311-321 | the new slice stays at the old start when it fits (`tCount <= triangleCount`) and moves to `tStart` otherwise, and in both cases holds the appended block |
| Collapse.MoveAndUpdate | Decimation/js/Decimation.js:302-309 | v0 takes the collapse point, normal, uv and the summed quadric. Then both endpoint slices are rewritten onto v0, and every surviving triangle of either slice is dirty with costs recomputed against the moved v0. The table grows by exactly `Block`, and the tombstones are exactly those `LiveAfterBoth` excludes |
| Collapse.TwoUpdates | Decimation/js/Decimation.js:308-309 | the two `updateTriangles` calls together tombstone both marked sets and redirect every surviving triangle of both slices to v0. Those survivors are dirty with recomputed costs, and each appended reference names v0 unless its triangle is a tombstone |
| Collapse.TwoPushes | Decimation/js/Decimation.js:306-311 | the references the two calls append are exactly `Block`: v0's pushes over the triangles before the collapse, then v1's pushes over the triangles the first call left, so `tCount` is the length of that block. The tombstones after both calls are exactly those `LiveAfterBoth` excludes |
| Collapse.RefreshedEvolve | Decimation/js/Decimation.js:380-401 | a dirty triangle with fresh costs stays so, or becomes a tombstone, under a later `updateTriangles` against the same vertices |
| Collapse.RefreshedWider | Decimation/js/Decimation.js:308-309 | the second call's refreshed entries of v1's slice, seen from the table before the collapse |
| Collapse.Patched | Decimation/js/Decimation.js:306-323 | after the patch, v0's slice is exactly the references the two updates appended. It sits at the old start when it fits and at `tStart` otherwise, no other entry of the old table changes, and the arena stays well formed |
| Collapse.CollapseEdge | Decimation/js/Decimation.js:302-323 | an accepted collapse moves v0 to the optimal point and changes no other vertex. v0's new slice is the appended block: copied over the old start when `tCount <= triangleCount`, otherwise left at `tStart`, with no other old entry changed. Every appended reference names v0 or a tombstone. Every live triangle of either slice names v0, is dirty and has recomputed costs. Marked triangles are tombstones, the counter tracks them, and triangles outside both slices are unchanged. The appended block, and so `tCount`, is exactly `Block` of the two marks, and a triangle is a tombstone afterwards exactly when `LiveAfterBoth` says it is not live |
| Collapse.TryEdge | Decimation/js/Decimation.js:279-323 | the edge collapses exactly when its cost is below the threshold, the border flags agree and neither flip test rejects. Otherwise nothing changes. A collapse has the full effect of `CollapseEdge`, and every triangle either flip test found on the edge is a tombstone. The appended block and the tombstones are exactly those for the marks `Shares` gives at both ends |
| Collapse.TryEdgesFrom | Decimation/js/Decimation.js:279-325 | the edges from corner j on are tried in order and the first accepted one collapses with the effect `EdgeCollapsed` states. Nothing changes exactly when none of the three edges is accepted |
| Collapse.ProcessTriangle | Decimation/js/Decimation.js:263-326 | a triangle that is over threshold, deleted or dirty is left alone. Otherwise the first accepted edge in corner order collapses onto its first corner, with the full effect of `CollapseEdge`. The triangle is left alone only when no edge is accepted |
| Collapse.FirstAccepted | Decimation/js/Decimation.js:279-300 | the chosen edge is accepted and no earlier corner's edge is. The value 3 means no edge is accepted |
| Collapse.OutcomeSteps | Decimation/js/Decimation.js:263-326 | whatever the pass body returns for triangle i is the one step `Steps` allows: no change when the triangle is skipped or has no accepted edge, otherwise the collapse of its first accepted edge |
| Reconstruct.MarkUsed | Decimation/js/Decimation.js:160-171 | a vertex is marked exactly when some live triangle names it, and the collected triangles are the live ones in order |
| Reconstruct.CompactVertices | Decimation/js/Decimation.js:173-186 | the used vertices are listed in strictly increasing index order, the remap sends each used vertex to its position in that list, and record d receives the position, normal and uv of the d-th used vertex |
| Reconstruct.RemapCorners | Decimation/js/Decimation.js:188-216 | the index array lists the renumbered corners of the live triangles, three per triangle, in order |
| Reconstruct.ExportVertices | Decimation/js/Decimation.js:200-209 | the position, normal and uv arrays interleave the first `dst` records' components |
| Reconstruct.LiveCornersUsed | Decimation/js/Decimation.js:163-171 | every corner of a live triangle names an existing, marked vertex |
| Reconstruct.ReconstructMesh | Decimation/js/Decimation.js:157-216 | output vertex d is the d-th used vertex, in strictly increasing index order, and every used vertex appears. The index array has three entries per live triangle, each below the vertex count, and renumbering back yields the original corners |
| Driver.Truncate | Decimation/js/Decimation.js:246 | truncation toward zero: the result lies within one of x, on the side of zero |
| Driver.ToInt32 | Decimation/js/Decimation.js:246 | the result is the signed 32-bit value congruent to the input modulo 2^32, and the identity on that range |
| Driver.TargetCountBounds | Decimation/js/Decimation.js:246 | for quality in [0, 1] and fewer than 2^31 triangles the target is `floor(n × quality)`, between 0 and n |
| Driver.FullQualityTarget | Decimation/js/Decimation.js:246 | at quality 1 the target is the whole triangle count |
| Driver.TargetCountWraps | Decimation/js/Decimation.js:246 | with 2^31 triangles at quality 1 the 32-bit conversion wraps the target to -2^31 |
| Driver.CompactionKeepsLive | Decimation/js/Decimation.js:465-474 | dropping the tombstones does not change the number of live triangles |
| Driver.ClearDirty | Decimation/js/Decimation.js:257-259 | every triangle's dirty flag is cleared and nothing else changes |
| Driver.Prepare | Decimation/js/Decimation.js:251-259 | the start of a pass: the rebuild on every fifth pass (border detection on pass 0, compaction otherwise), then dirty flags cleared. The live count is kept, and the table is the counting-sort table when rebuilt. Every vertex keeps everything but its slice fields and border flag. The flag changes only on pass 0, where it is the `identifyBorder` verdict over the rebuilt table |
| Driver.PreparedAfterUpdate | Decimation/js/Decimation.js:252-259 | clearing the dirty flags after `updateMesh` keeps its vertex frame and its pass-0 border verdict |
| Driver.PreparedUnchanged | Decimation/js/Decimation.js:251-259 | a pass that does not rebuild keeps every vertex as it was |
| Driver.ScanPass | Decimation/js/Decimation.js:263-330 | the scan returns the trace of states it went through. Each state is the pass body's step on the previous state at the next triangle index, and the target was unmet before each step. The scan stops before the end only when the target is reached, and it does nothing when the target is already met. The deleted counter stays in step with the tombstones |
| Driver.ScannedStep | Decimation/js/Decimation.js:263-326 | a step of the pass body from the last state, taken while the target is unmet, extends the scan trace |
| Driver.Pass | Decimation/js/Decimation.js:251-331 | one pass reports its start state: the triangles of the rebuilt or unchanged table with dirty flags cleared, and the table rebuilt on every fifth pass. It also reports the scan trace from that state. Live triangles plus the deleted counter stay constant. The start state's vertices keep everything but their slice fields and border flag, which changes only on pass 0, to the `identifyBorder` verdict |
| Driver.RunDecimation | Decimation/js/Decimation.js:238-347 | the run fails exactly when not initialised and runs at most 100 passes. Stopping early means the target was reached, and a mesh already at the target is untouched. The export has three indices per remaining triangle, each naming an exported vertex |

## Left out

- `Decimation/js/BabylonInit.js` is not part of this model: it only sets up the engine, scene, camera, lights and render loop.
- Mesh input and output through the engine (`getVerticesData`, `getIndices`, `new BABYLON.Mesh`, `setVerticesData`, `setIndices`, material and skeleton handling) is left out. The model takes the working set as a value and returns flat arrays (`Reconstruct.Output`).
- `initWithMesh`, `reInit` and `init` (building records from arrays, face normals via cross product and `normalize`, the first edge costs) are left out because they are floating-point geometry and I/O. `Driver.Ready` states what they leave for the driver. `Evaluator.PlaneSum` models the per-vertex accumulation of plane quadrics that `init` performs.
- Cooperative scheduling (`SyncToAsyncForLoop`, `AsyncLoop`, `setTimeout`) is left out; `RaananW.Tools` is not part of this model. The model runs each loop sequentially.
- Driver.ScanPass: the source checks the target between chunks of the scan. The model checks it before every triangle, which is the chunked behaviour with a chunk size of 1. With larger chunks the source may collapse edges past the target until the chunk ends.
- Floating-point geometry is replaced by exact reals. Vector normalisation and the dot/cross part of `isFlipped` are host functions, passed in through `MeshModel.Geometry`. The threshold `1e-9 × (k + 3)^agressiveness` (`Math.pow`) is the input `thresholds`.
- The `iterations` argument of `runDecimation` is ignored by the code, which always allows 100 passes (`AsyncLoop(100, ...)`), although the documented interface describes it as the pass cap. The model follows the code: `Driver.MaxPasses` is 100 and there is no iterations input. `agressiveness` only enters through `thresholds`.
- `~~` applied to NaN or infinity (giving 0) is not modelled, because quality is a real.
- `borderFactor` is only ever 0 in the source. The model keeps it as a general field, so its `< 2` test and `/ 2` terms are modelled as written.
- The unused locals `tIdx` and `dst` and the `if (!t)` guard are left out. The guard cannot fire for an index below the array length.
- Reconstruct.ReconstructMesh: the source reuses `triangleCount` as the "used" mark and `triangleStart` as the new index, rewrites the live triangles' corners in place, and truncates `vertices`. The model keeps these in local sequences and does not state what the decimator's own records hold after export.
- ReferenceTable.FillReferences: the fill loop keeps its running per-vertex counts in a separate sequence instead of reusing `triangleCount` as the fill cursor. It writes `triangleCount` back at the end, so the resulting counts and slices are the same.
- Driver.RunDecimation: states counts, bounds and the target condition of the export. It does not return the final working set, so the full `Reconstruct.ReconstructMesh` contract on that set is not restated.
- Quadrics.FromArray: the constructor's truthiness test also maps NaN to 0, which exact reals cannot express.
- `add` leaving both operands unchanged holds by construction, since quadrics are values.
