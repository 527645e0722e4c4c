# Marching cubes with vertex welding

This project models the marching-cubes engine of a small Python repository that
extracts a triangle mesh of an isosurface. A scalar field is sampled at the eight
corners of each cell (voxel) of a regular lattice, and the case tables triangulate
the voxel according to which corners lie below the isolevel. The cut points on
the voxel's edges are found by linear interpolation, and the triangles of all
voxels are welded into one mesh. Welding gives each distinct vertex the next ID
1, 2, 3, … and stores each triangle as a face of three IDs.

Three source files repeat the same core:

- `src/march.py` is the engine. It has `get_topology`, `get_edge_cut`,
  `vertex_interpolate`, `get_triangles`, `get_bbox` and the grid walk `march`.
- `march.py` is a script. It has the same four voxel helpers and a top-level walk
  over a fixed 21 × 21 × 21 lattice.
- `test_onecube.py` is the single-cube experiment. It has the same helpers and a
  `get_bbox` that adds a slack of 1e-6. Its `Cube` class welds, into its own
  dictionary, both its eight corners (tagged by colour) and its triangle vertices.
  Its driver keeps one `Cube` per integer position of corner 0.

The four voxel helpers are textually identical in the three files. They are
modelled once, in module `Voxel`, and the table cites `src/march.py`. The same
definitions are at `march.py:35-71` and `test_onecube.py:29-68`.

Modules:

- `Optional` is `None`-or-value results.
- `Geometry` is points with exact real coordinates.
- `Bits` is powers of two and single-bit tests, for the case index and the edge mask.
- `Lookup` is the case tables. Their contents come from a module outside this
  model, so they are a parameter, with the shape the engine's indexing needs.
- `Voxel` is classification, interpolation, edge cuts and triangle extraction.
- `BBox` is `get_bbox`: step counts and the `np.mgrid` lattice.
- `Weld` is the insertion-ordered vertex dictionary and the face list.
- `Walk` is the engine's walk and the root script's walk.
- `OneCube` is the `Cube` class and the driver of the single-cube experiment.

The engine's `march` loops over `range(step)` for each axis, where `step` is the
number of lattice points on that axis. It therefore visits one cell per lattice
point, n_x × n_y × n_z cells, and the cells at the last point of an axis reach
one delta past the box. The model follows the code. A version that visits
step − 1 cells per axis, as the root script does, is modelled beside it
(see "## Findings"). The step count is Python's `int()`, which truncates toward
zero; it is not a floor, and the two differ for an extent below zero.

The single-cube driver also loops over lattice points rather than cells. This
matches its comments ("Two Cube", "Eight small cube"), so it is modelled as
written.

## Model

| member | source | states |
|---|---|---|
| Voxel.Topology | src/march.py:22-27 | The case index exists exactly when there are 8 samples (otherwise the assert fails), and it is below 256 |
| Voxel.CaseIndex | test_onecube.py:29-34 | For 8 samples the case index is the value of `get_topology` and lies in 0..255 |
| Voxel.InsideSumBound | src/march.py:24-26 | The sum of 2^i over the inside corners among the first n is below 2^n |
| Voxel.InsideSumBits | src/march.py:24-26 | Bit i of that sum is set exactly when i < n and corner i is strictly below the isolevel |
| Voxel.TopologyBits | src/march.py:24-26 | Bit i of the case index is set exactly when corner i's sample is strictly below the isolevel |
| Voxel.TopologyDeterminedByInside | march.py:35-40 | Two voxels get the same case index exactly when the same corners are inside, in both directions |
| Voxel.InsideSumUniform | src/march.py:25-26 | No corner inside gives a sum of 0; all n corners inside give 2^n − 1 |
| Voxel.TopologyExtremes | src/march.py:25-26 | All corners outside give case 0; all inside give case 255 |
| Voxel.Interpolate | src/march.py:41-47 | When the samples differ by at most 1e-5 the result is one of the two ends; when the two ends coincide it is that point |
| Voxel.InterpolateDegenerate | src/march.py:42-45 | When the samples differ by at most 1e-5 the result is the canonical first point: p2 if some coordinate of p1 exceeds p2's, else p1 |
| Voxel.CrossingFractionReverse | src/march.py:43-46 | Swapping the ends turns the crossing fraction t into 1 − t |
| Voxel.InterpolateCrossing | src/march.py:41-47 | Otherwise the result is p1 + (p2 − p1)(iso − v1)/(v2 − v1), whichever way the swap went |
| Voxel.InterpolateOrderIndependent | src/march.py:41-47 | For pointwise comparable ends, interpolating (p1, p2, v1, v2) and (p2, p1, v2, v1) gives the same point |
| Voxel.IncomparableDegenerateEdgeDependsOnOrder | src/march.py:42-45 | For two incomparable points with equal samples the two argument orders give different points |
| Voxel.CrossingFraction | src/march.py:45-46 | When iso lies between distinct samples the fraction is in [0, 1] and the linear field equals iso there |
| Voxel.InterpolateOnSegment | src/march.py:41-47 | When iso lies between v1 and v2 the cut point lies on the segment p1–p2 |
| Voxel.CutRow | src/march.py:34-38 | A row whose bit of the mask is clear stays the zero row; a row whose bit is set, on an edge whose two corners lie on opposite sides of the isolevel, lies on that edge |
| Voxel.EdgeCuts | src/march.py:29-39 | None exactly when `EDGE_TABLE[c]` is 0 (the early return); otherwise a buffer of 12 rows |
| Voxel.EdgeCutsRows | src/march.py:29-39 | None exactly when `EDGE_TABLE[c]` is 0; otherwise 12 rows, row i the interpolation between the corners `EDGE_VERTEX[i]` with their samples when bit i is set, and the zero row when it is not |
| Voxel.GetEdgeCut | src/march.py:29-39 | The loop that fills the zeroed 12-row buffer returns exactly the rows stated by EdgeCutsRows |
| Voxel.CutRowsOnEdges | src/march.py:36-38 | With the standard edge table, every row whose bit is set lies on its edge between the two corners |
| Lookup.Triples | src/march.py:54-55 | The padded row is cut into (\|row\| + 2) / 3 triples; entry m of triple k is `row[3k + m]`, or −1 past the end |
| Voxel.TriplesOk | src/march.py:54-55 | For valid tables every triple has three entries usable as row indices |
| Voxel.TriangleOf | src/march.py:56 | `edge_cut[e]` for a triple is a triangle of three points |
| Voxel.Extract | src/march.py:56 | Every extracted triangle has three points |
| Voxel.Selected | src/march.py:56 | The selected triple positions are positions of the row |
| Voxel.SelectedSpec | src/march.py:56 | The selected positions are strictly increasing, and position j is selected exactly when the triple's first entry is not negative |
| Voxel.ExtractSelected | src/march.py:56 | One triangle per selected triple, in table order, made of the rows that triple names |
| Voxel.Triangulate | src/march.py:49-58 | Every triangle of a surface has three points |
| Voxel.GetTriangles | src/march.py:49-58 | The method returns the triangulation stated by TriangulateSpec |
| Voxel.TriangulateSpec | src/march.py:49-58 | No surface exactly when the case's mask is 0; otherwise one 3-point triangle per triple with a non-negative first entry, in table order, and at least one |
| Voxel.UniformVoxelHasNoSurface | src/march.py:30-32 | With the standard tables, a voxel with all corners inside or all outside has no surface |
| Voxel.TriangleVerticesOnEdges | src/march.py:49-58 | With the standard tables every triangle vertex lies on a cut edge of the voxel, between its two corners |
| BBox.Trunc | test_onecube.py:75-77 | `int()` truncates toward zero: the result is within 1 of x, on the side of 0 |
| BBox.GetBBox | src/march.py:61-69 | No lattice exactly when delta is 0, where the division raises |
| BBox.StepCount | src/march.py:65-67 | None exactly when delta is 0, where the division raises; otherwise, for a non-negative quotient, the largest whole number not above it (`int()` truncating) |
| BBox.PointCount | src/march.py:68 | `(steps + 1) * 1j` asks for steps + 1 points for a non-negative step count, and for none exactly when steps is −1 |
| BBox.Linspace | src/march.py:68 | `mgrid` with n points along an axis gives n coordinates |
| BBox.Axis | src/march.py:65-68 | None exactly when delta is 0; otherwise the coordinates start at min, and there is at least one unless the step count is −1 |
| BBox.StepCountFits | test_onecube.py:75-77 | For a positive delta, the step count n satisfies n·delta ≤ extent + slack < (n + 1)·delta |
| BBox.LinspaceSpec | src/march.py:68 | `mgrid` with n points gives n coordinates from min to max inclusive, in equal steps |
| BBox.ExactMultipleSteps | test_onecube.py:75-77 | An extent of m whole deltas, with a slack below delta, gives m steps |
| BBox.ExactMultipleLinspace | test_onecube.py:78 | m + 1 points from lo to lo + m·delta are lo + t·delta |
| BBox.ExactMultipleAxis | test_onecube.py:71-79 | An axis m deltas long has the m + 1 coordinates lo + t·delta |
| BBox.AxisPoint | src/march.py:68 | Coordinate t of n + 1 points is lo + t·(hi − lo)/n |
| BBox.SpacingAtLeastDelta | src/march.py:65-68 | The lattice spacing is at least delta |
| BBox.LinspaceStride | src/march.py:68 | Consecutive coordinates are at least delta apart and stay within [lo, hi] |
| BBox.AxisStride | src/march.py:61-69 | A cube of edge delta anchored at any coordinate but the last ends inside the range |
| BBox.AxisLastOvershoots | src/march.py:61-69 | A cube anchored at the last coordinate ends beyond max |
| Weld.EmptyMeshWelded | src/march.py:89-90 | The empty `vs` and `fs` are the welded mesh of the empty triangle list: no faces and no keys |
| Weld.IdMap | src/march.py:104-105 | Every ID the dictionary gives lies between 1 and the number of points inserted |
| Weld.IdMapDomain | src/march.py:104-105 | The dictionary holds exactly the inserted points |
| Weld.IdMapPositions | src/march.py:104-105 | Distinct points inserted in order get IDs 1..n by position |
| Weld.IdMapSpec | src/march.py:104-105 | Together, and each ID names its point by 1-based position |
| Weld.FirstIndex | src/march.py:102-105 | The index of the first occurrence of a point in the list: it holds the point and no earlier index does |
| Weld.NewKeysSpec | src/march.py:102-105 | The points `if v not in vs` appends to a dictionary already holding `seen`: exactly the points of the list not in `seen`, each once, ordered by their first occurrence in the list |
| Weld.NewKeysAppend | src/march.py:100-106 | The new points of a + b are the new points of a, followed by the points of b that are new after a |
| Weld.DenseLookup | src/march.py:104-106 | In a dense dictionary the ID of a present point is its first-insertion position |
| Weld.DecodesExtends | src/march.py:104-106 | A face stays valid when the dictionary only grows |
| Weld.DecodesSnoc | src/march.py:106 | Appending a point's ID to `vid_list` extends what the face names by that point |
| Weld.Insert | src/march.py:104-106 | A present point keeps its ID and leaves `vs` unchanged; a new point is appended with ID len(vs) + 1; IDs stay dense |
| Weld.InsertNew | src/march.py:104-105 | Appending a new point with the next ID keeps the dictionary dense and extends it |
| Weld.WeldAll | src/march.py:101-106 | Welding a triangle's points keeps the dictionary dense, only extends it, and the ID list names the points in order |
| Weld.WeldAllKeys | src/march.py:101-106 | Welding a triangle's points appends to `vs` exactly its points not yet there, each once, in first-seen order, and nothing else |
| Weld.WeldPoints | src/march.py:101-106 | The loop `for v in t` computes WeldAll |
| Weld.WeldAllPrefix | src/march.py:102-106 | Welding one more point of the list inserts it after the points before it |
| Weld.AddAll | src/march.py:100-107 | Welding triangles keeps IDs dense, keeps the old faces, and appends one face per triangle naming its points |
| Weld.AddAllKeys | src/march.py:100-107 | Welding triangles appends to `vs` exactly their points not yet there, each once, in first-seen order across the triangles, and nothing else |
| Weld.AddOneFace | src/march.py:100-107 | One more welded triangle appends a face naming its points while the earlier faces keep naming theirs |
| Weld.AddTriangles | src/march.py:100-107 | The loop `for t in tri` computes AddAll |
| Weld.AddAllFaithful | src/march.py:100-107 | A mesh representing a triangle list then represents that list followed by the new triangles |
| Weld.AddAllWelded | src/march.py:89-107 | A mesh welded from a triangle list stays welded when more triangles are added: its faces represent the longer list, and `vs` lists exactly its distinct points, once each, in first-seen order |
| Walk.Corners | src/march.py:77-95 | Corner n of a cube is the cell's base point plus `inc[n]`·delta |
| Walk.Samples | src/march.py:96 | One field value per corner, in corner order |
| Walk.Visit | src/march.py:95-107 | Visiting a cell keeps IDs dense |
| Walk.Accumulate | src/march.py:92-107 | Visiting the cells in order keeps IDs dense |
| Walk.AccumulateSnoc | src/march.py:92-107 | Visiting one more cell is one more Visit |
| Walk.VisitCell | src/march.py:95-107 | The loop body samples, triangulates and welds one cell, or skips it without a surface, as Visit states |
| Walk.WalkRow | src/march.py:94-107 | The innermost loop visits the cells (i, j, 0..nz − 1) in order |
| Walk.WalkSlab | src/march.py:93-107 | The middle loop visits rows 0..ny − 1 of slab i in order |
| Walk.WalkCells | src/march.py:92-107 | The three nested loops visit `range(nx) × range(ny) × range(nz)` in row-major order from an empty mesh |
| Walk.March | src/march.py:71-108 | None exactly when delta is 0; otherwise the walk over one cell per lattice point, whose result is the welded mesh of those cells' triangle soup: face n names the points of triangle n, and `vs` lists exactly the soup's distinct points, once each, in first-seen order |
| Walk.CellCount | march.py:95-97 | `range(n − 1)` has n − 1 cells for n ≥ 1 and none for n = 0 |
| Walk.MarchWithinBox | march.py:95-110 | The same walk, and the same welded result, over step − 1 cells per axis, as the root script does |
| Walk.RootLattice | march.py:86-87 | The fixed lattice has 21 points per axis |
| Walk.RootScript | march.py:85-110 | The root script walks the 20 × 20 × 20 cells of its lattice, and its mesh is the welded mesh of their triangle soup |
| Walk.CellsZSpec | src/march.py:94 | Row (i, j) of length k is the cells (i, j, 0..k − 1) |
| Walk.CellsYLength | src/march.py:93-94 | A slab of j rows of nz cells has j·nz cells |
| Walk.CellsYAt | src/march.py:93-94 | Position n of a slab holds the cell at row-major offset n |
| Walk.CellsYIndex | src/march.py:93-94 | Cell (i, j', k') of the slab sits at offset j'·nz + k' |
| Walk.CellsXLength | src/march.py:92-94 | The walk visits nx·ny·nz cells |
| Walk.CellsXAt | src/march.py:92-94 | Position n holds a cell inside the ranges whose row-major rank is n |
| Walk.CellsXIndex | src/march.py:92-94 | Every cell inside the ranges sits at the position given by its rank |
| Walk.CellsOrder | src/march.py:92-94 | The walk visits exactly the cells of the three ranges, each once, in row-major order |
| Walk.CellsMembership | src/march.py:92-94 | A cell is visited exactly when it lies inside the three ranges |
| Walk.RootCellCount | march.py:95-97 | The root script visits 8000 cells |
| Walk.Soup | src/march.py:92-107 | Every triangle of the soup has three points |
| Walk.SoupAppend | src/march.py:92-107 | The triangle soup of consecutive runs of cells is the concatenation of their soups |
| Walk.VisitWelded | src/march.py:95-107 | Visiting a cell keeps the mesh welded: it represents the triangle list extended by that cell's triangles, and `vs` lists exactly the extended list's distinct points in first-seen order |
| Walk.AccumulateWelded | src/march.py:92-107 | Visiting cells in order keeps the mesh welded, for the triangle list extended by their soup |
| Walk.WalkWelded | src/march.py:89-108 | After the walk, IDs are 1..\|vs\| in first-seen order, one per distinct point; there is one face per triangle; and face n names the points of triangle n |
| Walk.MarchSamplesBeyondBox | src/march.py:74-95 | For a positive delta and non-empty ranges the engine visits a cube with a corner beyond x max |
| Walk.CorrectedCubesInsideBox | src/march.py:61-95 | With step − 1 cells per axis every corner of every visited cube lies inside the box |
| Walk.CubeCornerInside | src/march.py:95 | A cube whose base lies in the box at least delta below each maximum has all eight corners in the box |
| Walk.NeighbourCubesShareFaceX | src/march.py:95 | Where the spacing is delta, the x = 1 face of a cube is the x = 0 face of the next cube along x |
| OneCube.RoundHalfEven | test_onecube.py:140 | `np.round` gives an integer within one half of x, and the even one on a tie |
| OneCube.RoundHalfEvenNearest | test_onecube.py:140 | Any integer closer than one half is the rounding |
| OneCube.GridPositions | test_onecube.py:140 | One position per corner |
| OneCube.GridPosOnLattice | test_onecube.py:140 | A point on the lattice of `meter_per_voxel` rounds to its own integer position |
| OneCube.CornerKeys | test_onecube.py:148-152 | Corner n is keyed by its own point, blue exactly when its value exceeds the isolevel, red otherwise, never green |
| OneCube.Tagged | test_onecube.py:157-160 | Each triangle vertex is keyed by its point with the green tag |
| OneCube.CubeMesh | test_onecube.py:145-164 | Marching a cube keeps IDs dense and only extends the dictionary |
| OneCube.CubeMeshSteps | test_onecube.py:146-164 | Without a surface only the corners are welded; with one, the green triangles are then added |
| OneCube.CubeMeshKeys | test_onecube.py:145-164 | Marching a cube appends to `vs` exactly the coloured corners and then the green triangle vertices that are not there yet, each once, in first-seen order, and nothing else |
| OneCube.CubeMeshWeldsCorners | test_onecube.py:148-156 | All eight coloured corners are in `vs` afterwards, even when there is no surface |
| OneCube.CubeMeshFaithful | test_onecube.py:155-164 | One face per triangle: a mesh representing a keyed triangle list then represents it followed by the cube's green triangles |
| OneCube.TriangleKeysAreNotCornerKeys | test_onecube.py:149-160 | No triangle key equals a corner key, so triangle vertices and corners never share an ID |
| OneCube.FirstSeen | test_onecube.py:197-198 | The insertion order holds at most one key per entry |
| OneCube.FirstSeenSnoc | test_onecube.py:197-198 | One more entry is kept exactly when its key is not yet in the dictionary |
| OneCube.FirstSeenKeys | test_onecube.py:197-198 | Each key is kept once, and the insertion order lists exactly the dictionary's keys |
| OneCube.FirstSeenMembership | test_onecube.py:197-198 | A key is in the dictionary exactly when some entry has it |
| OneCube.FirstSeenValues | test_onecube.py:197-198 | Every stored value is the value of an entry with its key |
| OneCube.FirstSeenFirst | test_onecube.py:197-198 | A key is bound to the value of the first entry that has it |
| OneCube.FirstSeenAllKept | test_onecube.py:197-198 | With no repeated key, every entry is kept, in order |
| OneCube.CubeEntry | test_onecube.py:194-197 | A cell's candidate has 8 corners and is keyed by the rounded position of corner 0 |
| OneCube.Entries | test_onecube.py:191-197 | Every candidate has 8 corners and is keyed by its rounded corner 0 |
| OneCube.EntriesSnoc | test_onecube.py:191-197 | One more lattice cell adds its candidate at the end |
| OneCube.KeepStep | test_onecube.py:194-198 | One loop step keeps every key already present, with its position and its cube, and adds at most one key, at the end |
| OneCube.KeptFromSnoc | test_onecube.py:197-198 | One more cell is one more keep step |
| OneCube.KeptFromAppend | test_onecube.py:191-198 | Visiting a + b is visiting a, then b |
| OneCube.RowFromIsKeptFrom | test_onecube.py:193-198 | The innermost loop visits the cells of its row in order |
| OneCube.SlabFromIsKeptFrom | test_onecube.py:192-198 | The middle loop visits the cells of its slab in order |
| OneCube.BoxFromIsKeptFrom | test_onecube.py:191-198 | The outer loop visits all cells in row-major order |
| OneCube.KeptFromIsFirstSeen | test_onecube.py:191-198 | From an empty dictionary, the loop keeps the first candidate seen at each position |
| OneCube.Cube.constructor | test_onecube.py:124-136 | A new cube has the isolevel, zero corner values, no corners yet, edge length `voxel_per_edge · meter_per_voxel`, and empty `vs` and `fs` |
| OneCube.Cube.SetCube | test_onecube.py:138-140 | Stores the corners and their rounded positions, and changes nothing else |
| OneCube.Cube.MarchingCube | test_onecube.py:145-164 | Samples the corners and welds as CubeMesh states, keeping IDs dense |
| OneCube.MarchCorners | test_onecube.py:147-164 | Welding the coloured corners, then the green triangles, computes CubeMesh |
| OneCube.CollectRow | test_onecube.py:193-198 | The innermost driver loop keeps each cell's cube unless its position is taken |
| OneCube.CollectSlab | test_onecube.py:192-198 | The middle driver loop, row after row |
| OneCube.CollectBox | test_onecube.py:189-198 | The driver's loops keep, from an empty dictionary, the first candidate at each position, in insertion order |
| OneCube.MakeCubes | test_onecube.py:195-198 | One fresh cube per kept position, set to that position's corners |
| OneCube.CollectCubes | test_onecube.py:189-198 | The driver's dictionary holds one fresh unmarched cube per kept position, in insertion order, with the first corners seen there |
| OneCube.MarchCube | test_onecube.py:200 | A cube fresh from `set_cube` ends marched into its own dictionary |
| OneCube.KeptCubesDistinct | test_onecube.py:197-199 | Cubes stored under distinct keys, each key being the cube's own corner-0 position, are distinct objects, so marching one leaves the others untouched |
| OneCube.MarchAll | test_onecube.py:199-200 | Every kept cube is marched once, each into its own dictionary |
| OneCube.Experiment | test_onecube.py:183-200 | None exactly when `voxel_per_edge` is 0; otherwise the kept positions are the first-seen ones, in order, and each kept cube is fresh and marched |
| OneCube.KeptCubesKeyed | test_onecube.py:197-198 | Every kept cube has 8 corners, and its rounded corner 0 is its key |
| OneCube.AllEntries | test_onecube.py:191-196 | When every cell is on the lattice, each contributes its candidate |
| OneCube.CubeEntryKey | test_onecube.py:194-197 | A cube's key is the rounded position of its lattice point |
| OneCube.StridedKeyInjective | test_onecube.py:197 | Keys a + s·i, b + s·j, c + s·k with s ≥ 1 tell cells apart |
| OneCube.ShiftedKeysKept | test_onecube.py:197-198 | When the loop's cells have such keys, every candidate is kept, in order |
| OneCube.AlignedEntryKeys | test_onecube.py:189-197 | On a lattice of whole multiples of `meter_per_voxel`, each cell's key is its scaled and shifted indices |
| OneCube.AlignedKeepsEveryCube | test_onecube.py:189-198 | On such a lattice with stride s ≥ 1 the driver keeps one cube per cell, in loop order |
| OneCube.AlignedKeptByRank | test_onecube.py:189-198 | The same for every cell inside the ranges: its cube is kept at its row-major rank |
| OneCube.TwoLargeLattice | test_onecube.py:180-189 | The first experiment's lattice has 2 × 1 × 1 points at multiples −16 + 2t, −6 and 0 of `meter_per_voxel` |
| OneCube.TwoLargeCubesKept | test_onecube.py:180-198 | The first experiment keeps two cubes, at positions (−16, −6, 0) and (−14, −6, 0) |

## Left out

- `write_obj` and the `torus.obj` writing (src/march.py:110-119, march.py:112-119, test_onecube.py:82-91) are file output.
- The `save` branch of `marching_cube` (test_onecube.py:166-169) is file output and a `print`. `Cube.MarchingCube` models `marching_cube` without it.
- Floating point is not modelled. Coordinates and samples are exact reals, and welding is exact key equality. The float rounding in `mgrid`, in `/` and in `int()` is not modelled.
- The scalar field (functions.py and march.py:5-15) is an arbitrary function parameter.
- `main.py` is a parameter-passing wrapper and is not part of this model.
- The contents of `lookup.py` are not part of this model. The tables are a parameter, and the properties of the standard tables that some lemmas need are separate predicates (`Lookup.Tables.CutsMatchCase`, `Lookup.Tables.TrianglesUseCutEdges`).
- `Cube.find_fine_face` (test_onecube.py:171-175) has an empty body.
- The unused `Vertex` and `Edge` objects and the fields `corner_vertex_ids`, `edges`, `vertexs` and `edges_on_face` (test_onecube.py:94-105, 127-129, 136) are never read by the core. Neither is `__getitem__` (test_onecube.py:142-143).
- `tqdm` progress reporting does not affect results.
- Class attributes `Cube.func` and `Cube.isolevel` become the `field` constant and `OneCube.CubeIsolevel`.
- The single-cube driver's two experiments run in sequence in the source; `OneCube.Experiment` models one experiment and is called once per run.
- `OneCube.CollectCubes` creates a `Cube` only for the positions it keeps. The source also creates a `Cube` for every rejected cell and then drops it; those objects are never read.
- Lookup.Tables.Valid: a non-zero edge mask whose first triangle slot is empty would make `np.stack([])` raise (src/march.py:57); tables are assumed not to do that.
- Walk.Accumulate, Walk.Soup, OneCube.Entries and OneCube.KeepStep pass over a cell off the lattice. The loops never produce one; this only keeps the functions total.
- `OneCube.TwoLargeCubesKept` covers the first experiment only. The second ("eight small cubes", test_onecube.py:202-220) is covered by `OneCube.AlignedKeptByRank` with a = −16, b = −6, c = 0 and stride 1, but its lattice is not computed as a separate lemma.

## Findings

| source | as written | input that shows it | evidently intended | confidence | as-written member | corrected member |
|---|---|---|---|---|---|---|
| src/march.py:75,92-94 | The walk loops `range(step_x)` over the number of lattice POINTS per axis, so it also visits the cells anchored at the last point of each axis, whose cubes reach one delta beyond the box | ranges (0, 1) on each axis with delta = 1: the lattice has 2 points per axis, the walk visits 8 cells, and the cell at x index 1 has corners at x = 2 | `range(step_x - 1)`, the loop bound march.py:95-97 uses, so that the engine's cubes of edge delta stay inside the box; the root script is a precedent for the bound only, since its cubes have edge 0.2 on a 0.1 lattice, overlap, and reach x = 1.1 at i = 19 | likely; not executed | Walk.March, Walk.MarchSamplesBeyondBox | Walk.MarchWithinBox, Walk.CorrectedCubesInsideBox |
