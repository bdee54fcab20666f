# Wind-tunnel solver and radiator analysis in Dafny

This project models the core of a 2D wind-tunnel simulator.

**The fluid solver** (`fluid.dfy`, module `FluidSim`) is an Eulerian grid
solver on a staggered (MAC) grid.
- The grid is `num_x` by `num_y` cells, including one ghost layer on every side.
- Horizontal velocity `u` lives on vertical faces and vertical velocity `v`
  on horizontal faces.
- Pressure `p`, openness `s` (0 solid, 1 open) and dye `m` live at cell centres.
- Every field is an `array2<real>` inside the `Fluid` class, and each step
  updates the fields in place.

The class models the solver's steps:
- gravity;
- Gauss–Seidel pressure projection with over-relaxation and an early stop;
- boundary extrapolation;
- bilinear field sampling;
- semi-Lagrangian advection of velocity and dye;
- the inflow, no-slip and outflow boundary conditions;
- one whole simulation step;
- the boundary-layer heuristic.

Most methods are proved against functions of the old state, which give the
new value of every cell:
- gravity, extrapolation, the boundary conditions, advection and the
  boundary-layer passes, each by a function of the old fields;
- the pressure projection, by `Projected`, a value-level model of the
  sweeps over copies of the fields. It visits the cells in the loops' order
  and states how many sweeps ran and the largest pressure change of the last
  one.

`SimulateWithBoundaries` composes the steps. It states properties of the
whole step (the boundary conditions hold afterwards, the dye stays within
its bounds), not every cell's final value.

The lemmas beside the methods state what the steps promise:
- sampling at a node returns the stored value;
- sampling creates no new extremes, and neither does advection of `u`, `v`
  or the dye (`AdvectedUWithin`, `AdvectedVWithin`, `AdvectedSmokeWithin`);
- a divergence-free field is a fixed point of the projection;
- a zero time step reproduces the field;
- the relaxations contract towards their targets;
- the boundary conditions hold after a step.

**Obstacles** (`obstacle.dfy`, module `Obstacles`) are circles, cylinders,
rotated rectangles and four-digit symmetric airfoils.
- Point containment and the distance to the surface are computed in the
  obstacle's own frame.
- `ObstacleManager` keeps a list of obstacles. It stamps them into the
  solver's arrays in two passes. `MarkCells` and `EnforceNoSlip` state the
  new value of every cell and face; `ApplyToFluid`, which applies the whole
  list, states the invariants the list keeps.
  - The first pass marks the cells whose centre lies inside an obstacle.
    A porous obstacle sets the openness to its porosity and scales the
    cell's faces. A solid obstacle empties the cell and its dye.
  - The second pass zeroes every face next to a solid cell, and every face
    whose own point lies inside the obstacle.
- As in the source, the first pass stops one cell short of the last
  interior column and row (`1..num_x-2`). The second pass covers the whole
  interior.

**Radiator analysis** (`radiator.dfy`, module `Radiators`):
- A radiator is a porous rotated rectangle.
- Stamping it applies Darcy-Forchheimer damping: a factor in `(0, 1]` that
  brakes each velocity component without changing its sign or the
  direction of the velocity. It also sets the openness to the porosity.
- The measurements read the fluid without changing it:
  - the mass flow summed over twenty segments of the radiator face;
  - the pressure drop between two lines of ten probes, placed
    symmetrically before and after the radiator;
  - the bilinear pressure probe;
  - the probe speeds;
  - the cooling and fan-power estimates of the performance record.

**Conventions:**
- `f64` is modelled as `real`.
- The floating-point library's `sqrt`, `cos` and `sin` arrive as a `MathLib`
  value. Where a property needs `sqrt` to be a square root, `SqrtLaw(lib)`
  says so.
- `numerics.dfy` (module `Numerics`) holds `abs`, `min` and `max`, the
  bilinear blend and its convexity, and sums and means.

## Model

| member | source | states |
|---|---|---|
| Numerics.BilinearIsConvex | rust/src/fluid.rs:179-185 | with fractions in [0,1] the four bilinear weights make a convex combination, so the blend lies between the smallest and largest corner |
| Numerics.MeanWithin | rust/src/radiator.rs:200-204 | the mean of a non-empty list of samples lies within any bounds of the samples |
| FluidSim.ScaledCoordinateRange | rust/src/fluid.rs:153-171 | the clamped, offset and scaled sampling coordinate lies in [0.5, n-1] for every input |
| FluidSim.FieldAxis | rust/src/fluid.rs:169-177 | the floor and next node of a sampling axis are on the grid (saturating like the usize cast, capped at n-1), adjacent or equal, and the fraction is in [0,1] |
| FluidSim.NodeInsideClamp | rust/src/fluid.rs:157-158 | nodes 1..n-1 (offset 0) or 1..n-2 (offset h/2) lie inside the clamp range [h, (n-1)h] |
| FluidSim.FieldAxisAtNode | rust/src/fluid.rs:157-177 | on such a node the stencil's lower node is that node and the fraction is zero |
| FluidSim.CopyInto | rust/src/fluid.rs:239-240 | `assign` makes every entry of the destination equal to the source |
| FluidSim.Fill | rust/src/fluid.rs:272 | `fill` sets every entry to the given value |
| FluidSim.RelaxationContracts | rust/src/fluid.rs:324-357 | a band update closes one fifth of the gap to its wall target, a core update one twentieth of the gap to the inflow speed |
| FluidSim.SuctionBounds | rust/src/fluid.rs:318-346 | the suction is non-positive below the top wall, non-negative above the bottom wall, at most 0.05*2/3 in size, and zero in the third row |
| FluidSim.Fluid.constructor | rust/src/fluid.rs:38-61 | the grid gains one ghost layer per side; all fields are zero except the openness, which is all 1 |
| FluidSim.Fluid.Integrate | rust/src/fluid.rs:64-72 | gravity*dt is added to exactly the v faces in range between two open cells; every other face keeps its value |
| FluidSim.Fluid.RelaxCell | rust/src/fluid.rs:88-113 | one Gauss-Seidel update scales the cell's divergence by (1 - omega), adds cp times the correction to its pressure, and moves only its four faces, each weighted by the neighbour's openness |
| FluidSim.Fluid.CellRelaxed | rust/src/fluid.rs:84-113 | the fields after visiting one cell keep the grid's shape |
| FluidSim.Fluid.Visited | rust/src/fluid.rs:82-114 | the fields and running largest change after visiting, in loop order, every cell before (i, j), starting from zero |
| FluidSim.Fluid.Swept | rust/src/fluid.rs:80-115 | the fields after one whole sweep keep the grid's shape |
| FluidSim.Fluid.Projected | rust/src/fluid.rs:79-121 | the fields after k sweeps keep the grid's shape |
| FluidSim.Fluid.CellAtRest | rust/src/fluid.rs:84-113 | visiting a cell of a divergence-free field changes neither the field nor the running largest change |
| FluidSim.Fluid.VisitedAtRest | rust/src/fluid.rs:82-114 | every prefix of a sweep over a divergence-free field leaves it alone with largest change zero |
| FluidSim.Fluid.ProjectedAtRest | rust/src/fluid.rs:79-121 | a divergence-free field is a fixed point of any number of sweeps, each reporting a largest change of zero |
| FluidSim.Fluid.CellFrame | rust/src/fluid.rs:84-113 | visiting a cell writes at most its pressure and four faces, and the running largest change takes in the size of its pressure change |
| FluidSim.Fluid.ColumnEnd | rust/src/fluid.rs:82-83 | the cells updated before a column starts are those updated by the end of the previous column |
| FluidSim.Fluid.CellEnd | rust/src/fluid.rs:83-84 | advancing the inner loop by one cell adds exactly that cell, when it is updated |
| FluidSim.Fluid.SweepEnd | rust/src/fluid.rs:82-83 | by the end of a sweep every updatable cell has been updated |
| FluidSim.Fluid.VisitedFrame | rust/src/fluid.rs:82-114 | a partial sweep writes only the pressure of cells it has updated, and a face only when one of its two cells was updated |
| FluidSim.Fluid.BoundStep | rust/src/fluid.rs:105-107 | visiting one more cell keeps the running largest change an upper bound of every pressure change made so far, and never lowers it |
| FluidSim.Fluid.AttainStep | rust/src/fluid.rs:105-107 | visiting one more cell keeps the running largest change zero or equal to one of the pressure changes made so far |
| FluidSim.Fluid.VisitedChangeBound | rust/src/fluid.rs:80-115 | the running largest change is non-negative and bounds every pressure change made so far |
| FluidSim.Fluid.VisitedChangeAttained | rust/src/fluid.rs:80-115 | the running largest change is zero or equal to one of the pressure changes made so far |
| FluidSim.Fluid.SweepFrame | rust/src/fluid.rs:80-115 | a sweep leaves the pressure of skipped cells and the faces between two skipped cells alone |
| FluidSim.Fluid.SweepChangeBounds | rust/src/fluid.rs:80-115 | a sweep's largest change is non-negative, bounds every pressure change of the sweep, and is zero or one of them |
| FluidSim.Fluid.ProjectedFrame | rust/src/fluid.rs:79-121 | any number of sweeps leaves skipped cells' pressure and the faces between skipped cells alone |
| FluidSim.Fluid.ProjectedHeld | rust/src/fluid.rs:79-121 | when the arrays hold k sweeps of the old fields, skipped cells and faces between them hold their old values |
| FluidSim.Fluid.OpennessAgrees | rust/src/fluid.rs:84-96 | the skip test on a copy of the openness is the skip test on the array |
| FluidSim.Fluid.VisitCell | rust/src/fluid.rs:84-113 | one pass of the inner loop takes arrays holding f to arrays holding CellRelaxed of f, and returns the new running largest change |
| FluidSim.Fluid.SweepColumn | rust/src/fluid.rs:83-114 | the inner loop takes the arrays from holding Visited at the column's first cell to holding it at the column's end, with the matching running largest change |
| FluidSim.Fluid.Sweep | rust/src/fluid.rs:80-115 | one sweep takes arrays holding f to arrays holding Swept of f, and returns SweepChange of f, the sweep's largest pressure change |
| FluidSim.Fluid.SolveIncompressibility | rust/src/fluid.rs:75-122 | the arrays end holding `sweeps` sweeps of the old fields; at most num_iters sweeps and at least min(num_iters, 5); the loop stops early only after five sweeps, when the last sweep's largest change is below 1e-6, and every earlier sweep from the fifth on reached 1e-6; skipped cells keep pressure and untouched faces keep velocity |
| FluidSim.Fluid.Extrapolate | rust/src/fluid.rs:125-149 | new u and v are ExtrapolatedU/V of the old; no flow through the top and bottom walls, zero-gradient outlet, nonzero inflow kept, interior untouched |
| FluidSim.Fluid.EnforceBoundaryConditions | rust/src/fluid.rs:285-308 | new u and v are EnforcedU/V of the old, and afterwards the inflow columns, no-slip walls and zero-gradient outlet all hold |
| FluidSim.Fluid.SampleField | rust/src/fluid.rs:152-186 | the sample lies between the smallest and largest of the four stencil values |
| FluidSim.Fluid.XAxisAtNode | rust/src/fluid.rs:166-172 | at a node of the field the horizontal stencil sits exactly on that node |
| FluidSim.Fluid.YAxisAtNode | rust/src/fluid.rs:167-177 | at a node of the field the vertical stencil sits exactly on that node |
| FluidSim.Fluid.SampleFieldAtNode | rust/src/fluid.rs:152-186 | sampling a field at one of its own nodes inside the clamp range returns the stored value |
| FluidSim.Fluid.SampleFieldWithin | rust/src/fluid.rs:152-186 | a field within [lo, hi] is sampled within [lo, hi] everywhere |
| FluidSim.Fluid.AvgU | rust/src/fluid.rs:189-193 | avg_u is the face itself on row 0, elsewhere between the smallest and largest of the four surrounding u faces |
| FluidSim.Fluid.AvgV | rust/src/fluid.rs:196-200 | avg_v is the face itself on column 0, elsewhere between the smallest and largest of the four surrounding v faces |
| FluidSim.Fluid.AdvectedUZeroStep | rust/src/fluid.rs:212-221 | with dt = 0 the advected u of a face is its old value |
| FluidSim.Fluid.AdvectedVZeroStep | rust/src/fluid.rs:225-234 | with dt = 0 the advected v of a face is its old value |
| FluidSim.Fluid.AdvectedSmokeZeroStep | rust/src/fluid.rs:251-260 | with dt = 0 the advected dye of a cell is its old value |
| FluidSim.Fluid.AdvectedSmokeWithin | rust/src/fluid.rs:251-260 | advected dye stays within any bounds of the old dye |
| FluidSim.Fluid.AdvectedUWithin | rust/src/fluid.rs:212-221 | advected u stays within any bounds of the old u |
| FluidSim.Fluid.AdvectedVWithin | rust/src/fluid.rs:223-233 | advected v stays within any bounds of the old v |
| FluidSim.Fluid.AdvectFacesAt | rust/src/fluid.rs:211-235 | one cell of the sweep writes the scratch u and v faces at (i, j) exactly when they are advected, and nothing else |
| FluidSim.Fluid.AdvectFaceU | rust/src/fluid.rs:212-221 | the scratch u face at (i, j) takes its traced-back value exactly when it is advected; nothing else is written |
| FluidSim.Fluid.AdvectFaceV | rust/src/fluid.rs:223-233 | the scratch v face at (i, j) takes its traced-back value exactly when it is advected; nothing else is written |
| FluidSim.Fluid.AdvectVelocityInto | rust/src/fluid.rs:209-237 | every advected face of the scratch buffers holds its traced-back value; other entries are unchanged |
| FluidSim.Fluid.AdvectVelocity | rust/src/fluid.rs:203-241 | every face between two open cells takes u or v sampled at its departure point, computed from the old fields; others keep their value; the scratch buffers end equal to the fields |
| FluidSim.Fluid.AdvectSmokeInto | rust/src/fluid.rs:247-263 | every open interior cell of the scratch buffer holds its traced-back dye; other entries are unchanged |
| FluidSim.Fluid.AdvectSmoke | rust/src/fluid.rs:244-266 | every open interior cell takes the dye sampled at its departure point; others keep theirs; dye bounds that held before still hold |
| FluidSim.Fluid.SimulateWithBoundaries | rust/src/fluid.rs:269-282 | after one step the boundary conditions hold, skipped cells have zero pressure, dye changes only in open interior cells and stays within its old bounds |
| FluidSim.Fluid.TopBandPass | rust/src/fluid.rs:315-331 | exactly the three rows below the top wall (columns 2..num_x-2) are relaxed towards the wall target and given the top suction |
| FluidSim.Fluid.BottomBandPass | rust/src/fluid.rs:334-349 | exactly the three rows above the bottom wall are relaxed towards the wall target and given the bottom suction |
| FluidSim.Fluid.CorePass | rust/src/fluid.rs:352-359 | exactly the core faces are nudged 5% towards the inflow speed |
| FluidSim.Fluid.ApplyBoundaryLayerControl | rust/src/fluid.rs:311-360 | every face's u and v after the three passes, as a function of its old value and position; every other face is unchanged |
| FluidSim.Fluid.BandsOverlapOnlyOnSmallGrids | rust/src/fluid.rs:315-349 | the two wall bands are disjoint for num_y >= 8; for 5 to 7 rows row 3 lies in both |
| Obstacles.ContainsPoint | rust/src/obstacle.rs:78-117 | an airfoil contains no point outside its chord range, and an airfoil of zero chord contains none at all |
| Obstacles.DistanceToSurface | rust/src/obstacle.rs:119-146 | only an airfoil reports an infinite distance, only a zero-chord airfoil a NaN; every other shape gives a finite number |
| Obstacles.CircleIsCylinder | rust/src/obstacle.rs:89-133 | a circle and a cylinder of the same radius contain the same points and report the same distance |
| Obstacles.RectangleGapOfContained | rust/src/obstacle.rs:96-141 | the squared distance to a rectangle is non-negative and zero at every point it contains |
| Obstacles.RectangleDistance | rust/src/obstacle.rs:119-141 | with a true square root, a rectangle's distance is a finite non-negative number, zero at every point it contains |
| Obstacles.RectangleContainsCentre | rust/src/obstacle.rs:78-98 | a rectangle with non-negative sides contains its own centre at any rotation |
| Obstacles.AirfoilOutsideChord | rust/src/obstacle.rs:99-146 | an airfoil contains no point before its leading or past its trailing edge, and reports an infinite distance there |
| Obstacles.MarkedOpennessInUnitRange | rust/src/obstacle.rs:217-229 | marking keeps openness in [0,1] when the porosity is in [0,1] |
| Obstacles.ObstacleManager.constructor | rust/src/obstacle.rs:169-173 | a new manager has no obstacles |
| Obstacles.ObstacleManager.AddObstacle | rust/src/obstacle.rs:176-178 | appends exactly the given obstacle |
| Obstacles.ObstacleManager.Clear | rust/src/obstacle.rs:181-183 | leaves no obstacles |
| Obstacles.ObstacleManager.MarkCells | rust/src/obstacle.rs:211-232 | after the first pass each cell's openness and dye and each face's velocity are the marked values of the old ones; nothing else changes |
| Obstacles.ObstacleManager.MarkCell | rust/src/obstacle.rs:214-230 | one cell: the result says whether the obstacle contains its centre; porous marks set openness to porosity and scale the four faces; solid marks zero the openness and dye; nothing else is written |
| Obstacles.ObstacleManager.ScaleCellFaces | rust/src/obstacle.rs:220-224 | the cell's four faces are multiplied by the porosity and nothing else changes |
| Obstacles.ObstacleManager.EnforceNoSlip | rust/src/obstacle.rs:234-259 | exactly the interior faces next to a solid cell or inside the obstacle become zero; all other faces keep their value |
| Obstacles.ObstacleManager.ZeroFacesAt | rust/src/obstacle.rs:238-257 | one cell of the second pass zeroes its u face or v face exactly when blocked |
| Obstacles.ObstacleManager.ApplySingleObstacle | rust/src/obstacle.rs:201-260 | the composed two passes, per cell; a solid obstacle seals every marked cell (openness, dye and four faces zero); openness stays in [0,1]; the ghost ring is untouched |
| Obstacles.ObstacleManager.ApplyToFluid | rust/src/obstacle.rs:186-198 | the ghost ring is untouched; openness stays in [0,1] when every porosity is; with only solid obstacles every marked cell ends solid and dye-free |
| Obstacles.AnyContains | rust/src/obstacle.rs:263-265 | true exactly when some obstacle of the list contains the point |
| Obstacles.ObstacleManager.AnyObstacleContains | rust/src/obstacle.rs:263-265 | true exactly when some obstacle of the manager's list contains the point |
| Obstacles.MarkedByNextCell | rust/src/obstacle.rs:212-213 | advancing the row-major scan by one cell visits exactly that cell |
| Obstacles.MarkedByNextColumn | rust/src/obstacle.rs:212-213 | finishing a column of the scan is starting the next one |
| Obstacles.MarkedByAll | rust/src/obstacle.rs:212-213 | a finished scan has visited every marked cell |
| Radiators.CoversAsObstacle | rust/src/radiator.rs:51-70 | the radiator's coverage check is the porous rectangle obstacle's containment check |
| Radiators.ResistanceFactor | rust/src/radiator.rs:90-102 | the scaled Darcy plus Forchheimer resistance is non-negative for physical parameters |
| Radiators.Damping | rust/src/radiator.rs:105 | the damping factor lies in (0, 1] |
| Radiators.ResistanceOnlyBrakes | rust/src/radiator.rs:82-108 | each velocity component keeps its sign and does not grow in size |
| Radiators.ResistanceKeepsDirection | rust/src/radiator.rs:107-108 | both components are scaled by one factor, so the new velocity is parallel to the old |
| Radiators.ResistedSInUnitRange | rust/src/radiator.rs:84-111 | openness stays in [0,1] when the porosity is in (0,1] |
| Radiators.CellCoordinate | rust/src/radiator.rs:249-250 | the probe's cell coordinate is clamped into [0, n-1] |
| Radiators.PressureAxis | rust/src/radiator.rs:249-258 | the probe's stencil nodes are on the grid and adjacent (or both the last node), and the fraction is in [0,1) |
| Radiators.CellCoordinateAtNode | rust/src/radiator.rs:249-250 | the grid point k*h has cell coordinate k |
| Radiators.SamplePressureAtPoint | rust/src/radiator.rs:248-264 | the probe lies between the smallest and largest of its four stencil pressures |
| Radiators.SamplePressureWithin | rust/src/radiator.rs:248-264 | a pressure field within [lo, hi] is probed within [lo, hi] |
| Radiators.SamplePressureAtWholeCell | rust/src/radiator.rs:248-264 | at whole cell coordinates (k, l) the probe returns p[k, l] |
| Radiators.SamplePressureAtNode | rust/src/radiator.rs:248-264 | at the grid point (k*h, l*h) the probe returns p[k, l] |
| Radiators.LineValuesWithin | rust/src/radiator.rs:185-198 | every counted line sample of a pressure field within [lo, hi] is within [lo, hi] |
| Radiators.LineMeanBetweenSamples | rust/src/radiator.rs:200-204 | the line average is zero without counted samples, else between any bounds of them |
| Radiators.LineMeanWithin | rust/src/radiator.rs:177-205 | a pressure field within [lo, hi] gives a line average within [lo, hi] when a sample counts |
| Radiators.ProbesSymmetric | rust/src/radiator.rs:159-167 | the two probe lines are symmetric about the centre, 2*(width/2 + 2h) apart along (cos, sin) |
| Radiators.PressureDropBounded | rust/src/radiator.rs:154-174 | with both lines sampled, a pressure field within [lo, hi] gives a drop between lo-hi and hi-lo |
| Radiators.FlowSumOutsideDomain | rust/src/radiator.rs:133-137 | segments whose samples lie outside the domain add no flow |
| Radiators.FlowSumAtRest | rust/src/radiator.rs:125-148 | a fluid at rest has zero mass flow through the radiator |
| Radiators.SpeedNonNegative | rust/src/radiator.rs:309 | with a true square root a speed is non-negative |
| Radiators.SpeedsNonNegative | rust/src/radiator.rs:309 | with a true square root every speed is non-negative |
| Radiators.ProbeVelocitiesNonNegative | rust/src/radiator.rs:299-323 | the inlet and outlet speeds are non-negative |
| Radiators.CoolingEfficiency | rust/src/radiator.rs:277 | the cooling estimate lies in [0, 1) and is zero exactly when there is no mass flow |
| Radiators.CoolingEfficiencyMonotone | rust/src/radiator.rs:277 | more mass flow never lowers the cooling estimate |
| Radiators.FanPowerSign | rust/src/radiator.rs:280-281 | for positive density the fan power has the sign of the pressure drop and vanishes without flow or drop |
| Radiators.RadiatorAnalyzer.constructor | rust/src/radiator.rs:37-42 | a new analyzer has no radiators and no history |
| Radiators.RadiatorAnalyzer.AddRadiator | rust/src/radiator.rs:45-47 | appends exactly the given radiator and leaves the history alone |
| Radiators.RadiatorAnalyzer.ApplyPorousMediumResistance | rust/src/radiator.rs:79-112 | unless the cell is slower than 1e-6 both components are damped and the openness becomes the porosity; nothing else is written |
| Radiators.RadiatorAnalyzer.ApplyRadiatorToFluid | rust/src/radiator.rs:50-76 | exactly the interior cells whose centre the radiator covers are damped, each from its own old values; others unchanged; openness stays in [0,1] |
| Radiators.RadiatorAnalyzer.CalculateMassFlow | rust/src/radiator.rs:115-151 | the magnitude of the signed flow summed over the twenty in-domain face segments; never negative |
| Radiators.RadiatorAnalyzer.SamplePressureLineAverage | rust/src/radiator.rs:177-205 | the running sum and count give the mean of the counted samples, or zero |
| Radiators.RadiatorAnalyzer.CalculatePressureDrop | rust/src/radiator.rs:154-174 | the upstream line average minus the downstream one |
| Radiators.RadiatorAnalyzer.AnalyzePerformance | rust/src/radiator.rs:267-297 | the record holds the mass flow, drop, probe speeds, degrees, cooling estimate in [0,1) and fan power; it is appended to the history; radiators unchanged |

## Left out

- `calculate_forces` (rust/src/radiator.rs:208-245) is not modelled. `AnalyzePerformance` takes the drag and lift it would return as inputs.
- The visualizer, the animator, the scenes and the command-line driver are not part of this model.
- `save_metrics` and `print_summary` are not modelled, because they do file and console output.
- `get_obstacles` and `Default` are not modelled. They only expose or build the list.
- `new_circle`, `new_rectangle` and `new_airfoil` are plain datatype values here. Only `new_porous_rectangle` has a function of its own, with no contract: it only builds the value.
- Floating point is not modelled: `f64` is `real`, with no rounding, NaN or infinities. Two exceptions:
  - an airfoil's infinite distance is kept as the `Infinity` case;
  - its zero-chord NaN is kept as the `NotANumber` case.
- `sqrt`, `cos` and `sin` are parameters.
  - The properties that need `sqrt` to be a square root assume `SqrtLaw`.
  - No property depends on `cos` or `sin`.
- Concurrency and the `ndarray` library are not modelled. Arrays are Dafny `array2` values, and the `Valid` predicate requires them to be distinct and of the grid's size.
- FluidSim.Fluid.SolveIncompressibility: requires `dt != 0`, because the source divides by `dt`. The number of sweeps and the last sweep's largest change are ghost results; the source returns neither.
- FluidSim.Fluid.constructor: requires at least one interior cell in each direction and a positive cell size. The scenes that build a solver meet this (rust/src/scene.rs:81-88).
- FluidSim.Fluid.SimulateWithBoundaries: states the properties of the composed step, not every cell's final value.
- FluidSim.Fluid.ApplyBoundaryLayerControl: requires `numX >= 10`. Below that, the source's core range `2..num_x-10` underflows a `usize`.
- Obstacles.ObstacleManager.ApplyToFluid: states the invariants the list of obstacles keeps, not the composed state after several obstacles.
- Obstacles.RectangleDistance: states that a contained point is at distance zero, not the converse.
- Radiators.ProbeVelocitiesNonNegative: states only that the probe speeds are non-negative.
- Radiators.RadiatorAnalyzer.ApplyPorousMediumResistance: requires a porosity in `(0, 1]`, a positive resistance, and a non-negative density and cell size.
  - Outside those ranges the source's damping involves infinities or NaN, or may exceed one.
  - The threshold is stated on the square root of the squared speed, as the source computes it.
- Radiators.RadiatorAnalyzer.AnalyzePerformance: requires a nonzero density, because the volumetric flow divides by it.
