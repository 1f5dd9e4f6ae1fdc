# FractalErode: a Dafny model of the erosion engine and its terrain

FractalErode generates a fractal height map over a square `width × width`
grid, stored row-major with cell `(z, x)` at index `z*width + x`. It erodes
the map with a CPU simulation that alternates a hydraulic pass (water and
sediment flowing to the eight Moore neighbours) with a thermal pass
(material sliding down slopes steeper than a talus threshold). It then
renders the result as a terrain mesh, a smoothed water mesh and a scatter
of trees, seen through an orbital or a free camera.

This project models the engine and its buffer-level neighbours:

- `ErosionManager`, in modules `Erosion`, `Passes`, `Hydraulic`, `Thermal`
  and `Roughness`:
  - the six in/out buffers and the initial fill;
  - the rain injection and the hydraulic and thermal passes;
  - the evaporation-and-rotation sweep;
  - the run loop with its `step` counter and `eroding` flag, and start/stop;
  - the roughness score.
- `HeightMesh` (module `Meshes`): the index buffer, the heights copy, the
  normal accumulation and the `generated` / `needSendGPU` /
  `createdOnGPU` flags.
- `Terrain` (module `Terrains`):
  - the interior-only height-map fill and its running maximum;
  - the tree placement lattice and the lock-step tree filter;
  - the 3×3 water smoothing and the altitude copy;
  - the flag effects of upload and clean.
- `OrbitalCamera` and `FreeCamera` (module `Cameras`): the azimuth wrap, the
  polar, radius and pitch clamps, the yaw accumulation and the key-driven
  moves.

Each source loop is a Dafny `method` with a `while` loop over arrays or
object fields. The method is proved against a reference function of the
inputs or of the old state; the properties the code relies on are proved
about those functions as lemmas. Module `Layout` holds the row-major index
arithmetic they all share, and `Vectors` the three-component vectors.

The source runs its passes under OpenMP with atomic scatter-adds. Every
pass reads only the in buffers and only adds into the out buffers, so the
result does not depend on the order the cells are visited. The model
therefore visits them sequentially, in row-major order, with plain `+=`.
It computes over `real`, so the accounting identities hold exactly.

## Model

| member | source | states |
|---|---|---|
| Layout.InteriorIndexIff | src/erosionManager.cpp:134-135 | a flat index is visited by the `1 .. width-2` row and column loops exactly when its row and column are both inside the boundary ring |
| Layout.IdxInjective | src/erosionManager.cpp:136 | distinct in-grid cells have distinct row-major indices |
| Layout.InteriorIndexBounds | src/erosionManager.cpp:134-135 | an interior index lies between `width+1` and the start of the last interior row and decodes to its own row and column |
| Layout.RingBeforeFirst | src/erosionManager.cpp:134-135 | the indices before cell (1, 1) are all on the boundary ring |
| Layout.RingBetweenRows | src/erosionManager.cpp:134-135 | the indices from the last column of an interior row to the first interior cell of the next row are on the ring |
| Layout.RingAfterLast | src/erosionManager.cpp:134-135 | the indices after the last interior row are on the ring |
| Hydraulic.FlowNeighbours | src/erosionManager.cpp:249-296 | the second neighbour scan of a cell: each neighbour lower in total height takes a share `min(water, dH)·dH/totalDeltaH` of its water, with sediment carried up to `kC` times that water and the excess deposited at rate `kD`, or ground eroded at rate `kS`; a neighbour not lower makes the cell deposit `kD` of its sediment when its ground is not lower. The cell keeps running totals of its own changes |
| Hydraulic.CloseCell | src/erosionManager.cpp:297-302 | the cell's running height, sediment and water totals added into its own out entries |
| Hydraulic.HydraulicCell | src/erosionManager.cpp:221-303 | one cell of the hydraulic pass: a cell with no water is skipped, otherwise both neighbour scans and its own three updates |
| Hydraulic.HydraulicPass | src/erosionManager.cpp:211-306 | the hydraulic pass: every interior cell, in row-major order, reads only the in buffers and adds into the out buffers |
| Hydraulic.Neighbour | src/erosionManager.cpp:215-231 | the i-th Moore neighbour of an interior cell, via the `dX`/`dZ` tables, has an index inside the grid equal to `(z+dZ[i])*width + x+dX[i]` |
| Hydraulic.TotalDownCovers | src/erosionManager.cpp:230-238 | every positive drop of the first scan is at most the accumulated `totalDeltaH`, so each share `deltaH/totalDeltaH` has a non-zero divisor no smaller than its numerator |
| Hydraulic.TotalDownNonNegative | src/erosionManager.cpp:228-238 | the accumulated `totalDeltaH` is never negative |
| Hydraulic.TotalDownZero | src/erosionManager.cpp:236-238 | a zero total means no neighbour read so far was downhill |
| Hydraulic.Carry | src/erosionManager.cpp:267-295 | a downhill transfer sends the cell's `Portion` of water, `min(water, deltaH)·deltaH/totalDeltaH`, and the sediment sent, the height change and the sediment change of the cell cancel exactly in both the deposition and the erosion branch |
| Hydraulic.FlowNeighbour | src/erosionManager.cpp:249-296 | the flow towards one neighbour never writes the out heights (only water and sediment go to the neighbour) |
| Hydraulic.FlowNeighbourBalances | src/erosionManager.cpp:257-295 | each of the three branches (deposit here, deposition, erosion) keeps grid water plus the cell's running water total, and grid height plus sediment plus the running totals, unchanged |
| Hydraulic.FlowNeighboursBalance | src/erosionManager.cpp:249-296 | the whole second scan keeps grid water plus the running water total, and grid mass plus the running height and sediment totals |
| Hydraulic.SendBalances | src/erosionManager.cpp:272-293 | a send moves water from the running total into the neighbour, and keeps mass exactly when its three amounts cancel |
| Hydraulic.CloseCellSums | src/erosionManager.cpp:297-302 | the cell's three closing writes move its running totals into the grid sums |
| Hydraulic.HydraulicCellConserves | src/erosionManager.cpp:221-302 | one cell's scatter keeps the total water and the total height plus sediment of the out buffers |
| Hydraulic.HydraulicRowConserves | src/erosionManager.cpp:220-303 | a row of cells keeps both totals |
| Hydraulic.HydraulicRowsConserve | src/erosionManager.cpp:219-304 | rows 1 .. k-1 keep both totals |
| Hydraulic.HydraulicPassConserves | src/erosionManager.cpp:211-306 | the hydraulic pass conserves the water summed over the grid and the height plus sediment summed over the grid |
| Hydraulic.PortionBounded | src/erosionManager.cpp:254-270 | the water sent down one drop is non-negative, zero for a drop that is not downhill, and scaled by the total at most the cell's water times the drop |
| Hydraulic.PortionSumBounded | src/erosionManager.cpp:249-273 | the portions of a list of drops sum to a non-negative amount that, scaled by the total, is at most the water times the summed downhill drops |
| Hydraulic.PortionSumWithinWater | src/erosionManager.cpp:249-273 | when the total is the sum of the downhill drops, the portions sent add up to at most the cell's water |
| Hydraulic.FlowNeighboursTakes | src/erosionManager.cpp:249-273 | the second scan lowers the cell's running water total by exactly the water it sends to the neighbours |
| Hydraulic.Drops | src/erosionManager.cpp:231-233 | the list of drops holds, for each of the first n neighbours, the difference of the two cells' height plus water |
| Hydraulic.FoldsAreSums | src/erosionManager.cpp:230-273 | the fold over the neighbours equals the list form: the total is the sum of the downhill drops, and the outflow is the summed portions |
| Hydraulic.HydraulicCellOutflowBounded | src/erosionManager.cpp:249-302 | a cell's total outgoing water is at most its `waterIn` |
| Hydraulic.HydraulicDryCellInert | src/erosionManager.cpp:223-225 | a cell holding no water changes none of the out buffers; it follows directly from the definition |
| Thermal.Credit | src/erosionManager.cpp:343 | the height moved to one lower neighbour: `cT·(dH − kT)` scaled by its share `dH/totalDeltaH` |
| Thermal.Settle | src/erosionManager.cpp:342-349 | every listed neighbour is credited, then the cell takes the negated sum of the credits |
| Thermal.ThermalCell | src/erosionManager.cpp:318-349 | one cell of the thermal pass: its list of steeper interior neighbours, then the credits and the cell's own update |
| Thermal.ThermalPass | src/erosionManager.cpp:308-352 | the thermal pass: every interior cell, in row-major order, reads only the in heights and adds into the out heights; it is defined for `kT >= 0` |
| Thermal.Lowers | src/erosionManager.cpp:324-340 | the compacted list holds at most as many neighbours as were scanned, each with a drop above `kT` and a target inside the grid |
| Thermal.LowersNext | src/erosionManager.cpp:326-338 | one more neighbour is appended, with its drop added to the total, exactly when it is off the boundary and its drop exceeds `kT` |
| Thermal.LowersExactly | src/erosionManager.cpp:324-340 | the list holds exactly the interior neighbours whose drop exceeds `kT`, each with its drop, in scan order |
| Thermal.LowersInterior | src/erosionManager.cpp:326-327 | every credited neighbour lies strictly inside the boundary ring, so the pass writes only interior cells |
| Thermal.LowersWithin | src/erosionManager.cpp:333-343 | with `kT >= 0` every kept drop is positive and at most `totalDeltaH`, so each share is defined |
| Thermal.CreditNonNegative | src/erosionManager.cpp:343 | with `cT >= 0` and a drop above `kT` and at most the total, the credit `cT·(dH−kT)·dH/total` is non-negative |
| Thermal.CreditsBalance | src/erosionManager.cpp:342-347 | the credit loop moves height from the cell's running total into the neighbours, exactly |
| Thermal.SettleConserves | src/erosionManager.cpp:342-349 | crediting the neighbours and then adding the running total to the cell keeps the sum of `heightOut` |
| Thermal.ThermalRowConserves | src/erosionManager.cpp:317-350 | a row keeps the sum of `heightOut` |
| Thermal.ThermalRowsConserve | src/erosionManager.cpp:316-351 | rows 1 .. k-1 keep the sum of `heightOut` |
| Thermal.ThermalPassConserves | src/erosionManager.cpp:308-352 | with `kT >= 0` the thermal pass conserves the sum of `heightOut` |
| Thermal.ThermalCellKeepsBoundary | src/erosionManager.cpp:342-349 | one cell of the pass leaves every boundary entry of `heightOut` as it was |
| Thermal.ThermalRowKeepsBoundary | src/erosionManager.cpp:317-350 | a row of the pass leaves every boundary entry of `heightOut` as it was |
| Thermal.ThermalRowsKeepBoundary | src/erosionManager.cpp:316-351 | rows 1 .. k-1 leave every boundary entry of `heightOut` as it was |
| Thermal.CreditsKeepOthers | src/erosionManager.cpp:342-347 | the credit loop writes only the listed neighbours |
| Thermal.ThermalPassKeepsBoundary | src/erosionManager.cpp:315-351 | the thermal pass leaves every boundary entry of `heightOut` as it was |
| Thermal.ThermalFlatCellInert | src/erosionManager.cpp:333-349 | a cell whose scanned list of steeper neighbours is empty changes nothing; it follows directly from the definition |
| Thermal.ScanCell | src/erosionManager.cpp:321-340 | the list scanned for an interior cell is that cell's neighbour list |
| Thermal.ScanIsValid | src/erosionManager.cpp:321-343 | with `kT >= 0` every scanned list has defined shares and credits only interior cells |
| Thermal.ScanAt | src/erosionManager.cpp:321-340 | the scan of the grid holds at each index that cell's own list |
| Thermal.PositiveDropsWithin | src/erosionManager.cpp:333-343 | a list of positive drops has every drop at most their sum, so each share is defined |
| Passes.Apply | src/erosionManager.cpp:136-177 | the body of each interior-cell sweep: the fill sets water to the rain depth and clears the sediment, the rain adds the rain depth, and the evaporation scales the out water by `kE` before the dry check and copies out to in |
| Passes.SweepPass | src/erosionManager.cpp:133-179 | a sweep over the interior cells in row-major order, leaving the boundary ring alone |
| Passes.RainDue | src/erosionManager.cpp:150-151 | rain falls at a step exactly when `rainFrequency` is non-zero and divides the step counter |
| Passes.Step | src/erosionManager.cpp:147-179 | one loop iteration: the optional rain and hydraulic pass, the optional thermal pass, then the evaporation-and-rotation sweep |
| Passes.Run | src/erosionManager.cpp:146-188 | k iterations of the loop, the first with the given step counter, each with the counter one higher |
| Passes.PutAt | src/erosionManager.cpp:136-142 | a write to one cell's six values changes that cell and no other |
| Passes.PutPut | src/erosionManager.cpp:136-142 | writing a cell twice keeps the second write; it follows directly from the definition |
| Passes.SweepUpToAt | src/erosionManager.cpp:134-143 | after a sweep has passed indices 0 .. n-1, exactly the interior cells among them hold the loop body's values |
| Passes.SweepPassAt | src/erosionManager.cpp:133-144 | a whole sweep gives every interior cell the loop body's values and leaves every boundary cell alone |
| Passes.SweepSkips | src/erosionManager.cpp:134-135 | passing only boundary indices changes nothing |
| Passes.SweepVisits | src/erosionManager.cpp:136-142 | visiting an interior cell applies the loop body to that cell of the sweep so far |
| Passes.SweepEnds | src/erosionManager.cpp:133-144 | after the last interior row the row loops have done the whole sweep |
| Passes.FillSets | src/erosionManager.cpp:133-144 | after the fill every interior cell has `waterIn == waterOut == rain·heightIn/maxHeight`, zero sediment in both buffers and `heightOut == heightIn` |
| Passes.RainAdds | src/erosionManager.cpp:200-209 | rain adds `rain·heightIn/maxHeight` to `waterIn` of each interior cell and copies the result into `waterOut`; nothing else changes |
| Passes.NoRainUnlessDue | src/erosionManager.cpp:148-156 | without hydraulic erosion, or when `rainFrequency == 0` or `step % rainFrequency != 0`, the hydraulic stage leaves the in buffers untouched; it follows directly from the definition |
| Passes.EvaporateRotates | src/erosionManager.cpp:162-179 | on an interior cell `waterOut` is scaled by `kE`; below 1e-6 water and sediment become 0 and `heightOut` gains `sedimentIn`; then the in buffers take the out values |
| Passes.EvaporationNeverAddsWater | src/erosionManager.cpp:168-173 | with `0 <= kE <= 1` and no negative water, evaporation never raises any cell's water |
| Passes.EvaporateCellWater | src/erosionManager.cpp:168-173 | one cell's evaporated water lies between 0 and what it was |
| Passes.StepKeepsBoundary | src/erosionManager.cpp:146-179 | one iteration leaves every boundary cell of `heightmap`, `water` and `sedimentIn` as it was |
| Passes.RunKeepsBoundary | src/erosionManager.cpp:146-188 | any number of iterations leaves every boundary cell of `heightmap`, `water` and `sedimentIn` as it was |
| Passes.StepRotates | src/erosionManager.cpp:175-177 | after an iteration the in buffers equal the out buffers on every interior cell |
| Erosion.Iterations | src/erosionManager.cpp:146 | the loop `while (eroding && step < nSteps)` runs between 1 and `nSteps - step` iterations when it is entered, and none otherwise |
| Erosion.LoopMeshes | src/erosionManager.cpp:184-187 | the loop asks for at most one mesh per iteration, none when the terrain does not show the erosion, each with the terrain's `showWater` flag |
| Erosion.LoopAdvances | src/erosionManager.cpp:146-188 | one more iteration keeps the loop's accounting: iterations so far, the exit flag and the mesh requests |
| Erosion.UnstoppedRunsToEnd | src/erosionManager.cpp:146-182 | with no stop request the loop runs all remaining steps and exits with `step == nSteps` and the flag still set |
| Erosion.ErodingAtExit | src/erosionManager.cpp:146-197 | the flag when the loop exits: set exactly when the loop ran out of steps without a stop request, which is when the final mesh is asked for |
| Erosion.ErodingExitMeansDone | src/erosionManager.cpp:146-191 | the flag is still set at loop exit exactly when the counter reached `nSteps` without a stop request at the end |
| Erosion.LoopAtNext | src/erosionManager.cpp:146-188 | one pass of the loop body, entered with the flag set and `step < nSteps`, moves the loop's accounting one step on: counter plus one, the flag cleared by a stop request, the buffers one `Step` further, one more mesh request when due |
| Erosion.ErosionManager.Init | src/erosionManager.cpp:12-30 | default construction followed by the first init: the default parameters of `erosionManager.hpp:54-69`, flag cleared and counter 0; the terrain's width and size, its heightmap and water as the in buffers, and four new zero buffers |
| Erosion.ErosionManager.Reinit | src/erosionManager.cpp:12-30 | init on a manager that has already been used: the terrain's width and size, its heightmap and water as the in buffers, four new zero buffers; the parameters, the counter and the flag keep their old values |
| Erosion.ErosionManager.RunSweep | src/erosionManager.cpp:133-144 | the row and column loops of a single-cell sweep leave exactly `SweepPass` of the old buffers |
| Erosion.ErosionManager.SweepRow | src/erosionManager.cpp:135-143 | one row of a sweep advances the sweep to the end of the row |
| Erosion.ErosionManager.SweepCell | src/erosionManager.cpp:136-142 | the loop body writes the sweep's values into its own cell only |
| Erosion.ErosionManager.FillCell | src/erosionManager.cpp:136-142 | the fill of one interior cell |
| Erosion.ErosionManager.RainCell | src/erosionManager.cpp:204-206 | the rain of one interior cell |
| Erosion.ErosionManager.EvaporateCell | src/erosionManager.cpp:165-177 | evaporation then rotation of one interior cell |
| Erosion.ErosionManager.EvaporateOut | src/erosionManager.cpp:168-173 | evaporation of one cell's out buffers |
| Erosion.ErosionManager.RotateCell | src/erosionManager.cpp:175-177 | the in buffers of one cell take its out values |
| Erosion.ErosionManager.DistributeRain | src/erosionManager.cpp:200-209 | the rain loop leaves exactly the rain sweep of the old buffers |
| Erosion.ErosionManager.HydraulicErosion | src/erosionManager.cpp:211-306 | the out buffers become `HydraulicPass` of the in buffers and the old out buffers; the in buffers are unchanged |
| Erosion.ErosionManager.HydraulicRowStep | src/erosionManager.cpp:220-303 | one row of the hydraulic loop |
| Erosion.ErosionManager.HydraulicCellStep | src/erosionManager.cpp:221-302 | one interior cell: skipped when dry, otherwise the two scans and the closing writes |
| Erosion.ErosionManager.ScanNeighbours | src/erosionManager.cpp:228-242 | the first scan fills the two scratch arrays with the neighbour indices and drops and returns the total downhill drop |
| Erosion.ErosionManager.ScanNeighbour | src/erosionManager.cpp:231-241 | one neighbour of the first scan |
| Erosion.ErosionManager.FlowNeighboursStep | src/erosionManager.cpp:244-296 | the second scan leaves the out buffers and the running totals `FlowNeighbours` gives |
| Erosion.ErosionManager.FlowNext | src/erosionManager.cpp:250-295 | one neighbour of the second scan |
| Erosion.ErosionManager.FlowStep | src/erosionManager.cpp:254-295 | the branch of one neighbour of the second scan |
| Erosion.ErosionManager.CloseCellStep | src/erosionManager.cpp:297-302 | the cell's own three additions |
| Erosion.ErosionManager.ThermalErosion | src/erosionManager.cpp:308-352 | `heightOut` becomes `ThermalPass` of `heightIn` and the old `heightOut`; nothing else changes |
| Erosion.ErosionManager.ThermalRowStep | src/erosionManager.cpp:317-350 | one row of the thermal loop |
| Erosion.ErosionManager.ThermalCellStep | src/erosionManager.cpp:318-349 | one cell: the scan, the credits and the cell's own total |
| Erosion.ErosionManager.ScanLower | src/erosionManager.cpp:321-340 | the scratch arrays hold the cell's compacted list of steeper interior neighbours and the total drop |
| Erosion.ErosionManager.ScanLowerOne | src/erosionManager.cpp:325-339 | one neighbour of the thermal scan |
| Erosion.ErosionManager.AppendLower | src/erosionManager.cpp:334-337 | appending one kept neighbour to the scratch arrays |
| Erosion.ErosionManager.CreditLower | src/erosionManager.cpp:342-347 | the credit loop's out heights and running total are `Credits` of the list |
| Erosion.ErosionManager.CreditOne | src/erosionManager.cpp:343-346 | one credit |
| Erosion.ErosionManager.SettleStep | src/erosionManager.cpp:348-349 | the cell's own total added after the credits |
| Erosion.ErosionManager.ErosionStep | src/erosionManager.cpp:147-179 | one iteration: rain when due, the enabled passes, then evaporation and rotation, equal to `Step` of the old buffers |
| Erosion.ErosionManager.ErosionLoop | src/erosionManager.cpp:146-188 | the loop adds `Iterations` to the counter, leaves the flag `ErodingAtExit`, the buffers `Run` of the old ones, and the mesh requests `LoopMeshes` |
| Erosion.ErosionManager.PipelineIteration | src/erosionManager.cpp:147-187 | one iteration keeps the loop's accounting and increments `step` by exactly 1 |
| Erosion.ErosionManager.PollStop | src/erosionManager.cpp:108-113 | a stop request seen at the current counter clears the flag, otherwise the flag is unchanged |
| Erosion.ErosionManager.ErosionPipeline | src/erosionManager.cpp:131-198 | the fill, then a stop request that arrived before the first loop test, then the loop; the counter, buffers and mesh requests are those of the loop's iterations; a loop that ran out of steps without a stop asks for a final mesh with water; the flag is false on exit |
| Erosion.ErosionManager.StartErosion | src/erosionManager.cpp:97-102 | the counter restarts at 0, the flag is set, and the CPU pipeline runs from there; a stop before the first loop test leaves the counter at 0, the buffers as filled, and no mesh request |
| Erosion.ErosionManager.StopErosion | src/erosionManager.cpp:108-113 | clears `eroding` and changes nothing else, so a second call changes nothing |
| Erosion.ErosionManager.CalculateScore | src/erosionManager.cpp:63-95 | returns `Score` of the height map; the height map is not modified |
| Roughness.Mean | src/erosionManager.cpp:84 | the mean slope: the sum of the scored cells' slopes over the full grid size |
| Roughness.TotalVariance | src/erosionManager.cpp:86-91 | the sum of the squared deviations of the scored cells' slopes from the mean |
| Roughness.Score | src/erosionManager.cpp:63-95 | the roughness score: the standard deviation `sqrt(totalVariance / size)` over the mean; no score when the mean is zero |
| Roughness.Slope | src/erosionManager.cpp:74-80 | a slope is never negative |
| Roughness.SlopeIsLargestDifference | src/erosionManager.cpp:75-80 | the slope is at least each of the four absolute von Neumann differences and equal to one of them |
| Roughness.NeighbourCells | src/erosionManager.cpp:76-79 | the four neighbours of a scored cell lie inside the grid, `width` and 1 cells either side |
| Roughness.MeanNonNegative | src/erosionManager.cpp:81-84 | the mean slope, taken over `size = width²`, is never negative |
| Roughness.VarianceNonNegative | src/erosionManager.cpp:87-91 | the total variance is never negative, whatever the mean |
| Roughness.FlatHasNoScore | src/erosionManager.cpp:75-94 | a flat grid has every slope 0 and mean 0, so the score divides by zero |
| Roughness.NarrowHasNoScore | src/erosionManager.cpp:71-94 | grids narrower than five cells have no scored cell, hence no score |
| Roughness.GridScore | src/erosionManager.cpp:63-95 | the slope loop, the mean over `size`, the variance loop and `sqrt(variance/size)/mean` give `Score`; `h` is not modified |
| Roughness.SlopeLoop | src/erosionManager.cpp:70-83 | every scored row of the slope map holds its slopes and the total is the sum of the slopes |
| Roughness.SlopeRow | src/erosionManager.cpp:72-82 | one row of the slope loop |
| Roughness.RowSlopeLoop | src/erosionManager.cpp:72-82 | the column loop writes every scored cell of its row with its slope, adds the row's slopes to the total, and leaves the earlier rows alone |
| Roughness.CellSlope | src/erosionManager.cpp:74-80 | the slope of one scored cell |
| Roughness.VarianceLoop | src/erosionManager.cpp:87-91 | the total squared deviation of the filled slope map from the mean |
| Roughness.VarianceRow | src/erosionManager.cpp:88-90 | one row of the variance loop |
| Meshes.QuadNormals | src/heightMesh.cpp:88-94 | the two face normals of a quad, from the cross products of its corner differences |
| Meshes.AccumQuad | src/heightMesh.cpp:95-102 | the face normals added into the quad's four corners: their sum at the first and third, each triangle's own at the second and fourth |
| Meshes.NormalPass | src/heightMesh.cpp:78-104 | the normal pass: every quad strictly inside the outer quad ring adds its face normals into its corners, in row-major order |
| Meshes.NumIndicesNonNegative | src/heightMesh.cpp:28 | `(xWidth−1)(zWidth−1)·6` is a valid buffer length for widths of at least 1 |
| Meshes.SlotDecode | src/heightMesh.cpp:38-44 | slot j of quad (z, x) holds the quad's j-th vertex |
| Meshes.SlotInRange | src/heightMesh.cpp:38-44 | the six slots of every quad lie inside `[0, numIndices)` |
| Meshes.SlotsDisjoint | src/heightMesh.cpp:38 | distinct quads, or distinct positions in one quad, never share a slot |
| Meshes.SlotEnd | src/heightMesh.cpp:28-46 | the face loop ends exactly at `numIndices` |
| Meshes.SlotOwner | src/heightMesh.cpp:35-46 | every slot in `[0, numIndices)` belongs to exactly one quad of the grid, so the face loop writes each slot once |
| Meshes.QuadsExist | src/heightMesh.cpp:28-37 | a non-empty index buffer needs at least two vertices each way |
| Meshes.IndexInRange | src/heightMesh.cpp:39-44 | every index value lies in `[0, xWidth·zWidth)` |
| Meshes.SharedDiagonal | src/heightMesh.cpp:39-44 | within a quad `indices[k] == indices[k+3]` and `indices[k+2] == indices[k+4]` |
| Meshes.Vert | src/heightMesh.cpp:88-91 | the flat index of a vertex lies inside the vertex buffers |
| Meshes.AccumQuadKeepsRing | src/heightMesh.cpp:99-102 | one quad's accumulation leaves every outer-ring normal as it was |
| Meshes.RowQuadsKeepRing | src/heightMesh.cpp:81-103 | one row of quads leaves every outer-ring normal as it was |
| Meshes.RowsBeforeKeepRing | src/heightMesh.cpp:80-104 | the rows so far leave every outer-ring normal as it was |
| Meshes.RingNormalsStayZero | src/heightMesh.cpp:78-104 | normals accumulate only into vertices with `1 <= x <= xWidth−2` and `1 <= z <= zWidth−2`, so outer-ring normals stay zero |
| Meshes.HeightMesh.constructor | src/heightMesh.hpp:13-26 | the default mesh: 256 by 256, cell size 1, nothing generated, nothing pending, nothing on the GPU |
| Meshes.HeightMesh.Init | src/heightMesh.cpp:16-20 | sets the cell size and both widths |
| Meshes.HeightMesh.Generate | src/heightMesh.cpp:22-108 | ends generated and pending upload with `numIndices = (xWidth−1)(zWidth−1)·6`; a first call allocates fresh buffers and a repeat call reuses them with `indices` unchanged; the heights equal `hmap` and the normals are `NormalPass` of the heights from zero |
| Meshes.HeightMesh.Allocate | src/heightMesh.cpp:27-47 | allocates the three buffers at their sizes and fills the index buffer |
| Meshes.HeightMesh.FillIndices | src/heightMesh.cpp:35-46 | every slot of the index buffer holds its quad's vertex |
| Meshes.HeightMesh.WriteQuad | src/heightMesh.cpp:38-44 | writes the six slots of one quad and nothing else |
| Meshes.HeightMesh.ResetVertices | src/heightMesh.cpp:49-75 | every height is copied from `hmap` and every normal zeroed |
| Meshes.HeightMesh.AccumulateNormals | src/heightMesh.cpp:78-104 | the normal loop gives `NormalPass` of the heights |
| Meshes.HeightMesh.AccumulateRow | src/heightMesh.cpp:81-103 | one row of the normal loop |
| Meshes.HeightMesh.AccumulateQuad | src/heightMesh.cpp:82-102 | one quad adds its face normals into its four corners |
| Meshes.HeightMesh.QuadCorners | src/heightMesh.cpp:83-86 | the corners the index buffer lists for a quad are its vertices (z,x), (z+1,x), (z+1,x+1), (z,x+1) |
| Meshes.HeightMesh.FaceNormals | src/heightMesh.cpp:88-94 | the two face normals are the cross products of the corner differences |
| Meshes.HeightMesh.SendGPU | src/heightMesh.cpp:110-143 | the mesh is on the GPU afterwards and nothing is pending |
| Meshes.HeightMesh.Clean | src/heightMesh.cpp:153-172 | `generated`, `needSendGPU` and `createdOnGPU` become false and `numIndices` 0 |
| Terrains.MaxHeight | src/terrain.cpp:24-56 | the generated maximum: the running maximum, starting at 0, of the interior heights |
| Terrains.RowTrees | src/terrain.cpp:61-69 | the trees of one lattice row: a candidate below the tree line whose roll is a multiple of `TREE_CHANCE` gets a tree 0.2 below its height |
| Terrains.Trees | src/terrain.cpp:58-70 | the trees placed on the height map, in the loop's row-major lattice order |
| Terrains.Smoothed | src/terrain.cpp:124-134 | the smoothed water height of an interior cell: the mean of its 3×3 window |
| Terrains.HeightsUpTo | src/terrain.cpp:29-31 | the partly generated map has the grid's size |
| Terrains.Heights | src/terrain.cpp:25-55 | the generated map has `width²` cells |
| Terrains.HeightsAt | src/terrain.cpp:25-48 | the boundary ring of the generated map is 0 and each interior cell holds its noise height |
| Terrains.MaxUpToIsMax | src/terrain.cpp:24-53 | the running maximum is at least 0 and every interior height met so far, and equals 0 or one of them |
| Terrains.MaxHeightIsMax | src/terrain.cpp:24-56 | `maxHeight` is the largest of 0 and every interior height, and equals 0 or one of them |
| Terrains.HeightsSkip | src/terrain.cpp:30-31 | passing boundary cells changes neither the map nor the maximum |
| Terrains.HeightsStart | src/terrain.cpp:30-31 | the loop starts at cell (1, 1) with a zero map and maximum 0 |
| Terrains.HeightsNextRow | src/terrain.cpp:30-31 | between rows only ring cells are passed |
| Terrains.HeightsEnd | src/terrain.cpp:30-55 | after the last interior row the loop has generated the whole map |
| Terrains.HeightsNarrow | src/terrain.cpp:30 | a one-cell-wide grid has no interior cell, so its map stays zero |
| Terrains.HeightsVisit | src/terrain.cpp:48-53 | visiting an interior cell writes its noise height and updates the running maximum |
| Terrains.PlacedAt | src/terrain.cpp:63-67 | the tree placed on a growing candidate is a placed tree |
| Terrains.RowTreesSound | src/terrain.cpp:61-69 | every tree of a row is on a growing candidate of that row |
| Terrains.RowTreesComplete | src/terrain.cpp:61-69 | every growing candidate of a row carries a tree |
| Terrains.TreesFromSound | src/terrain.cpp:60-70 | every tree from row z on is a placed tree |
| Terrains.TreesFromComplete | src/terrain.cpp:60-70 | every growing candidate from row z on carries a tree |
| Terrains.TreesExactly | src/terrain.cpp:60-70 | trees stand exactly on candidates with row and column in 1, 5, 9, … below `width−1`, height below 85 and a draw that is a multiple of 10 |
| Terrains.TreePositionMatchesIndex | src/terrain.cpp:62-66 | a tree's position has the column and row of its index and sits 0.2 below the cell's height |
| Terrains.IndexesAppend | src/terrain.cpp:65-66 | appending trees appends their indexes and their positions, so the two vectors grow in lock-step |
| Terrains.KeptIndexes | src/terrain.cpp:88-108 | the filter keeps a sub-list no longer than the original |
| Terrains.KeptPositions | src/terrain.cpp:88-108 | the positions kept are exactly as many as the indexes kept, so the two vectors stay aligned |
| Terrains.KeptShrinksIffBare | src/terrain.cpp:99-107 | the filter removes something exactly when some tree's grass weight is below 0.5; otherwise it keeps the list as it is |
| Terrains.KeptExactly | src/terrain.cpp:99-107 | exactly the entries with grass weight at least 0.5 survive |
| Terrains.KeptInOrder | src/terrain.cpp:88-108 | survivors keep their original order: filtering a concatenation filters each part in place |
| Terrains.KeptIdempotent | src/terrain.cpp:88-108 | filtering twice removes nothing more |
| Terrains.KeptSnoc | src/terrain.cpp:91-107 | one more visited entry adds itself, or nothing, to the kept prefix |
| Terrains.AnyBareSnoc | src/terrain.cpp:99-103 | one more visited entry makes the list bare exactly when it or an earlier one is |
| Terrains.Surface | src/terrain.cpp:115-117 | the water surface is heightmap plus water, cell by cell |
| Terrains.WindowCells | src/terrain.cpp:124-134 | the nine window cells of an interior cell lie inside the grid, `width` and 1 cells either side |
| Terrains.SmoothedIsWindowMean | src/terrain.cpp:124-134 | the smoothed height is the sum of the 3×3 window, in coordinates, divided by 9 |
| Terrains.SmoothingKeepsLevel | src/terrain.cpp:124-134 | smoothing a level surface gives the same level |
| Terrains.SmoothingBounded | src/terrain.cpp:124-134 | the smoothed height lies between the lowest and the highest surface heights |
| Terrains.SmoothedKept | src/terrain.cpp:122-137 | writing row z or later keeps the rows already smoothed |
| Terrains.SmoothedSurface | src/terrain.cpp:111-137 | a fresh array whose interior holds the smoothed surface of heightmap plus water |
| Terrains.SurfaceInto | src/terrain.cpp:115-117 | the surface loop writes heightmap plus water into every cell |
| Terrains.SmoothInto | src/terrain.cpp:121-137 | the smoothing loop writes the 3×3 mean into every interior cell |
| Terrains.SmoothRow | src/terrain.cpp:123-136 | one row of the smoothing loop |
| Terrains.CellSmoothed | src/terrain.cpp:124-134 | the mean of one cell's window |
| Terrains.Terrain.NeedMeshSentGPU | src/terrain.hpp:74-76 | something waits for upload: either mesh, or the tree positions |
| Terrains.Terrain.constructor | src/terrain.hpp:26-52 | the default terrain: no grid, `maxHeight` 0, no trees, nothing pending |
| Terrains.Terrain.GenerateHeightmap | src/terrain.cpp:20-77 | width and size `width²`; fresh zero-ringed `heightmap` equal to `Heights`, `altitude` equal to it, zero `water`; `maxHeight` is `MaxHeight`; the placed trees appended to both vectors in order; `treesUpdated`; both meshes span the grid with unit cells |
| Terrains.Terrain.Allocate | src/terrain.cpp:21-27 | width, size and three fresh zero vectors |
| Terrains.Terrain.ResizeMeshes | src/terrain.cpp:74-75 | both meshes take the terrain's width and cell size 1 |
| Terrains.Terrain.FillHeights | src/terrain.cpp:29-56 | the height loop leaves `heightmap` and `altitude` equal to `Heights` and returns `MaxHeight` |
| Terrains.Terrain.FillRow | src/terrain.cpp:31-54 | one row of the height loop |
| Terrains.Terrain.PlaceTrees | src/terrain.cpp:58-70 | both tree vectors gain the indexes and positions of `Trees`, in order |
| Terrains.Terrain.PlaceRow | src/terrain.cpp:61-69 | one row of the tree loop |
| Terrains.Terrain.GenerateMesh | src/terrain.cpp:79-109 | the terrain mesh is generated from the heightmap, its normals the normal pass over it; with `genWater` the water mesh holds the smoothed surface with normals the normal pass over that surface, otherwise it is untouched; the tree vectors become the kept ones; `treesUpdated` is set when a tree was removed, else unchanged; something is pending upload |
| Terrains.Terrain.GenerateTerrainMesh | src/terrain.cpp:80 | the terrain mesh is generated and marked for upload, its heights the heightmap and its normals the normal pass over the heightmap from zero |
| Terrains.Terrain.GenerateWaterMeshIf | src/terrain.cpp:83-85 | when asked, the water mesh holds the smoothed surface and the normal pass over it; otherwise the water mesh is untouched |
| Terrains.Terrain.GenerateWaterMesh | src/terrain.cpp:111-143 | every interior vertex of the water mesh holds the smoothed surface of heightmap plus water, and its normals are the normal pass over those heights from zero |
| Terrains.Terrain.FilterTrees | src/terrain.cpp:88-108 | erasing in lock-step leaves `KeptIndexes` and `KeptPositions`, and `treesUpdated` set exactly when it was set or some tree was bare |
| Terrains.Terrain.SendMeshGPU | src/terrain.cpp:145-156 | each pending mesh is uploaded and `treesUpdated` is cleared, so nothing is pending afterwards |
| Terrains.Terrain.UpdateAltitude | src/terrain.cpp:158-164 | `altitude` equals the unchanged `heightmap`; the terrain mesh is redone, with heights and normal pass from the heightmap; the tree filter is redone; the water mesh is untouched |
| Terrains.Terrain.CopyAltitude | src/terrain.cpp:159-161 | the copy loop makes `altitude` equal to `heightmap` |
| Terrains.Terrain.Clean | src/terrain.cpp:166-174 | both meshes are released and the tree vectors emptied |
| Cameras.Moved | src/freeCamera.cpp:41-56 | the free camera's key moves in one frame: W and S along the front, D and A along the strafe, SPACE and LEFT_SHIFT up and down |
| Cameras.Window.constructor | src/window.hpp:18-22 | the default window: 1280 × 720, the cursor in its middle, no scroll, no button, no key |
| Cameras.WrapAzimuth | src/orbitalCamera.cpp:32-35 | the wrapped azimuth lies in `[0, MAX_AZIMUTH]`, is unchanged in range, 0 above it and `MAX_AZIMUTH` below 0 |
| Cameras.ClampSymmetric | src/orbitalCamera.cpp:39-42 | the clamped value lies in `[−m, m]` and is unchanged inside it |
| Cameras.Clamp | src/orbitalCamera.cpp:50-53 | with `lo <= hi` the clamped value lies in `[lo, hi]`, is unchanged inside it, and is always the value or one of the bounds |
| Cameras.ClampIsNearest | src/orbitalCamera.cpp:50-53 | the clamp picks the point of `[lo, hi]` nearest to the value |
| Cameras.ClampSymmetricIsNearest | src/freeCamera.cpp:30-33 | the pitch clamp picks the point of `[−89, 89]` nearest to the value |
| Cameras.ClampsAgree | src/orbitalCamera.cpp:39-42 | the upper-first symmetric clamp agrees with the lower-first clamp on `[−m, m]` |
| Cameras.ClampIdempotent | src/orbitalCamera.cpp:50-53 | clamping twice changes nothing more |
| Cameras.OrbitalCamera.constructor | src/orbitalCamera.hpp:14-20 | the defaults of the camera and the orbit, with the remembered cursor in the middle of the window |
| Cameras.OrbitalCamera.Update | src/orbitalCamera.cpp:20-56 | with button 1 held azimuth is wrapped and polar clamped after the cursor movement; without it both are unchanged; the angles stay in range; radius is clamped to `[minRadius, maxRadius]` after the zoom; the cursor is remembered and the scroll reset to 0 |
| Cameras.OrbitalCamera.Orbit | src/orbitalCamera.cpp:31-42 | the drag turns and wraps the azimuth and tilts and clamps the polar angle |
| Cameras.OrbitalCamera.Zoom | src/orbitalCamera.cpp:49-53 | the zoom moves the radius by `scroll·zoomSpeed·dt` and clamps it |
| Cameras.FreeCamera.constructor | src/freeCamera.hpp:12-15 | the defaults of the camera, with the remembered cursor in the middle of the window |
| Cameras.FreeCamera.Update | src/freeCamera.cpp:17-57 | yaw gains `(mx−mxOld)·sensitivity·dt` unclamped; pitch gains `(myOld−my)·sensitivity·dt` and is clamped to `[−89, 89]`; the cursor is remembered; the position is `Moved` by the held keys |
| Cameras.FreeCamera.Look | src/freeCamera.cpp:26-36 | the cursor part of the frame |
| Cameras.FreeCamera.Walk | src/freeCamera.cpp:41-56 | the keyboard part of the frame gives `Moved` of the old position |
| Cameras.FreeCamera.Pair | src/freeCamera.cpp:41-49 | a pair of opposing keys moves along its vector: forward when only the first is held, back when only the second |
| Cameras.FreeCamera.Climb | src/freeCamera.cpp:52-56 | the vertical keys change only y |
| Cameras.StillWithoutKeys | src/freeCamera.cpp:41-56 | with no movement key held the position is unchanged |
| Cameras.ForwardAndBackAlone | src/freeCamera.cpp:41-44 | W alone moves by `+front·speed·dt` and S alone by `−front·speed·dt` |
| Cameras.SidewaysAlone | src/freeCamera.cpp:45-49 | D alone moves by the strafe vector and A alone by its negation |
| Cameras.UpAndDownAlone | src/freeCamera.cpp:52-56 | SPACE alone raises y by `speed·dt` and LEFT_SHIFT alone lowers it; x and z stay |
| Cameras.OpposingKeysCancel | src/freeCamera.cpp:41-56 | holding both keys of every opposing pair leaves the position where it was |
| Cameras.VerticalKeysKeepGround | src/freeCamera.cpp:52-56 | the vertical keys never change x or z |

## Left out

- GPU erosion (`erosionPipelineGPU`, the buffer set-up in `init`, `clean`): OpenGL calls and compute shaders are outside the model. The GPU path never clears `eroding`.
- Concurrency: OpenMP loops, atomic adds and `std::async` are modelled as a sequential row-major visit. For the erosion passes this is faithful because every pass reads only the in buffers and only adds into the out buffers. It does not hold for the height-map maximum, as the next line says. The data race in the slope loop's `totalHeight += …` and in the normal accumulation is not modelled.
- The busy-wait `while (terrain->needMeshSentGPU()) {}` before the final mesh is not modelled. The final request is logged directly.
- Stop requests and mesh requests arrive from other threads. They are modelled as inputs: `stops` holds the counters at which the loop test sees that `stopErosion` has run, and `pending` the counters at which a mesh is still waiting for upload. A stop with counter 0 arrived before the first test: during the fill or right after the run was started. A stop with counter j > 0 arrived during the iteration that brought the counter to j. The mesh requests are returned as a log of their `genWater` flags.
- The erosion parameters are fixed for a run. In the source the Erosion menu's sliders and checkboxes (`src/main.cpp:427-441`) stay live while a CPU run is in progress. They can change `kC`, `kD`, `kS`, `kE`, `rain`, `rainFrequency`, `kT`, `cT`, the two enable flags or `nSteps` between or during iterations. The model's `ErosionPipeline` and `StartErosion` take the parameters as they are when the run starts.
- Floating point: every `float` and `long double` is a `real`. The π of the camera limits is the float value 3.1415927. Rounding, overflow and NaN are not modelled.
- `sqrt` and `pow` in `calculateScore`: the square root is a parameter and `pow(·, 2)` is a product.
- Roughness.Score: with a zero mean the engine divides by zero. The model returns no score then.
- Erosion.ErosionManager.Init: models default construction followed by the first init only. A later init, after the Generate button has made a new heightmap, is Erosion.ErosionManager.Reinit: neither `clean` nor `init` resets the parameters, the counter or the flag.
- Erosion.ErosionManager.Init: requires `width >= 2`. Below that, `width − 2` wraps around as an unsigned value in `calculateScore`.
- Erosion.ErosionManager.Reinit: requires `width >= 2`, for the same reason.
- Passes.Defined: the fill and the rain require `maxHeight != 0`, because they divide by it.
- Thermal.ThermalPass: requires `kT >= 0`, and so does the whole thermal model: Thermal.ThermalPassConserves, Thermal.ThermalPassKeepsBoundary, and, through Passes.StepDefined, Passes.Step, Passes.Run, Erosion.ErosionManager.ErosionLoop, Erosion.ErosionManager.ErosionPipeline and Erosion.ErosionManager.StartErosion whenever thermal erosion is enabled. With a negative threshold a kept drop can be negative and a share undefined. In the engine `kT` starts at 0.6 (`src/erosionManager.hpp:65`) and is otherwise set only by its slider, whose range is 0 to 1 (`src/main.cpp:437`).
- The noise (`perlinOctave`), `rand()` and the grass weight (`hermite` of the normal slope and of the heights) are oracles. They are parameters `noise: (int, int) -> real`, `roll: int -> nat` and `grass: int -> real`. The grass weight's computation from the mesh normals is not modelled.
- Terrains.Terrain.GenerateHeightmap: the maximum height is the sequential running maximum (Terrains.MaxHeight). In the source the test `height > heightMaxAtomic` and the store that follows it (`src/terrain.cpp:51-53`) are two separate atomic operations inside an OpenMP loop. Two threads can interleave them so that a smaller height overwrites a larger one, and the source's `maxHeight` can then be below the true maximum. The model does not capture that race.
- Terrains.Terrain.GenerateHeightmap: requires `w >= 1`. A zero width would make the unsigned `width − 1` loop bounds wrap around.
- The two-argument `Terrain` constructor, and the parameterised constructors of the meshes and cameras, are not modelled: they only copy their arguments.
- The calls of `erosionManager.init` and `erosionManager.clean` from `Terrain` (`src/terrain.cpp:76` and `:173`) are not wired into the model's `Terrain`, which does not own a manager. The CPU part of `init` (width, size and the four new buffers) is Erosion.ErosionManager.Init and Erosion.ErosionManager.Reinit. Its shader compilation and GPU buffer creation, and all of `clean` (deleting GPU buffers and shaders), are GPU set-up and are not modelled.
- `trees.init`/`setPositions`/`clean` and `terrainMesh.updateAltitude` are not modelled: they are GPU uploads and rendering set-up.
- Meshes.HeightMesh.Init: requires that a generated mesh keep its widths. `generate` reuses the buffers of a generated mesh, so new widths would overrun them. Each call in the source (`src/terrain.cpp:74-75`) is on a fresh terrain (`src/main.cpp:105`) or follows `Terrain::clean` (`src/main.cpp:379-380`), and both leave `generated` false.
- `TerrainMesh` and `WaterMesh` are modelled as `HeightMesh`: the vertex buffer they take is GPU state, and both generate from the height map passed in.
- The boundary ring of the smoothed water heights is never written by the source. The model leaves it unspecified.
- `sendGPU`, `render` and the buffer uploads keep only their flag effects.
- The static `mxOld`/`myOld` of each camera's `update` are fields, initialised in the constructor from the window size. In the source they are shared by every instance of the class.
- The window's key and mouse-button maps are reduced to the six keys and one button the cameras read. The GLFW callbacks that fill them are not modelled.
- `normalize` in the free camera's strafe is a parameter `Vec3 -> Vec3`. `cross` is defined.
- `calculateEye` and `getViewProjection` use trigonometry and are not modelled. Neither is the rest of the rendering code (`main.cpp`, `window.cpp`, `tree.cpp`, textures, shaders, matrices).
