/** The lattice walk of `march`: every cell (i, j, k) is visited in row-major
    order, its eight corners are sampled, the voxel is triangulated and the
    triangles are welded into the growing mesh. The engine walks one cell per
    lattice point; the root script walks one fewer per axis on its fixed
    21-point lattice. */
module Walk {
  import opened Optional
  import opened Geometry
  import opened Lookup
  import opened Voxel
  import opened Weld
  import opened BBox

  /** The lattice index of a cell's corner 0. */
  datatype Cell = Cell(i: nat, j: nat, k: nat)

  /** What one run of the walk works with: the case tables, the scalar field, the
      iso level, the sample lattice and the cube edge length. */
  datatype Sweep = Sweep(t: Tables, f: Point -> real, iso: real, lat: Lattice, delta: real)

  /** `inc`: the offset of each corner from corner 0, in the corner numbering of
      the case tables. */
  const Inc: seq<Point> := [
    Point(0.0, 0.0, 0.0), Point(0.0, 1.0, 0.0), Point(1.0, 1.0, 0.0), Point(1.0, 0.0, 0.0),
    Point(0.0, 0.0, 1.0), Point(0.0, 1.0, 1.0), Point(1.0, 1.0, 1.0), Point(1.0, 0.0, 1.0)
  ]

  predicate InLattice(lat: Lattice, c: Cell) {
    c.i < |lat.xs| && c.j < |lat.ys| && c.k < |lat.zs|
  }

  /** `box[:, i, j, k]`. */
  function Base(lat: Lattice, c: Cell): Point
    requires InLattice(lat, c)
  {
    Point(lat.xs[c.i], lat.ys[c.j], lat.zs[c.k])
  }

  /** `box[:, i, j, k] + inc * delta`. */
  function Corners(base: Point, delta: real): (cube: seq<Point>)
    ensures |cube| == 8
    ensures forall n :: 0 <= n < 8 ==> Sub(cube[n], base) == Scale(Inc[n], delta)
  {
    seq(8, n requires 0 <= n < 8 => Add(base, Scale(Inc[n], delta)))
  }

  /** `np.apply_along_axis(func, 1, cube)`. */
  function Samples(f: Point -> real, cube: seq<Point>): (vals: seq<real>)
    ensures |vals| == |cube|
    ensures forall n :: 0 <= n < |cube| ==> vals[n] == f(cube[n])
  {
    seq(|cube|, n requires 0 <= n < |cube| => f(cube[n]))
  }

  /** The triangulation of one cell. */
  function CellSurface(s: Sweep, c: Cell): Triangulation
    requires s.t.Valid() && InLattice(s.lat, c)
  {
    var cube := Corners(Base(s.lat, c), s.delta);
    Triangulate(s.t, cube, Samples(s.f, cube), s.iso)
  }

  /** The triangles one cell contributes (none where there is no surface). */
  function CellTriangles(s: Sweep, c: Cell): seq<seq<Point>>
    requires s.t.Valid() && InLattice(s.lat, c)
  {
    match CellSurface(s, c)
    case NoSurface => []
    case Surface(tris) => tris
  }

  /** Visiting one cell: skip it (`continue`) without a surface, else weld its
      triangles in. */
  function Visit(s: Sweep, mesh: Mesh<Point>, c: Cell): (r: Mesh<Point>)
    requires s.t.Valid() && InLattice(s.lat, c) && Dense(mesh.vs)
    ensures Dense(r.vs)
  {
    match CellSurface(s, c)
    case NoSurface => mesh
    case Surface(tris) => AddAll(mesh, tris)
  }

  /** The mesh after visiting `cells` in order, starting from `mesh` (a cell off
      the lattice, which the walk never visits, is passed over). */
  function Accumulate(s: Sweep, mesh: Mesh<Point>, cells: seq<Cell>): (r: Mesh<Point>)
    requires s.t.Valid() && Dense(mesh.vs)
    ensures Dense(r.vs)
  {
    if cells == [] then mesh
    else
      var c := cells[|cells| - 1];
      var m := Accumulate(s, mesh, cells[..|cells| - 1]);
      if InLattice(s.lat, c) then Visit(s, m, c) else m
  }

  lemma AccumulateSnoc(s: Sweep, mesh: Mesh<Point>, cells: seq<Cell>, c: Cell)
    requires s.t.Valid() && Dense(mesh.vs) && InLattice(s.lat, c)
    ensures Accumulate(s, mesh, cells + [c]) == Visit(s, Accumulate(s, mesh, cells), c)
  {
    assert (cells + [c])[..|cells|] == cells;
  }

  /** The body of the innermost loop: sample cell c's cube, triangulate it and
      weld the triangles in, or `continue` when there is no surface. */
  method VisitCell(s: Sweep, m: Mesh<Point>, c: Cell) returns (r: Mesh<Point>)
    requires s.t.Valid() && Dense(m.vs) && InLattice(s.lat, c)
    ensures r == Visit(s, m, c)
  {
    var cube := Corners(Point(s.lat.xs[c.i], s.lat.ys[c.j], s.lat.zs[c.k]), s.delta);
    var vals := Samples(s.f, cube);
    var tri := GetTriangles(s.t, cube, vals, s.iso);
    if tri.NoSurface? {
      return m;
    }
    r := AddTriangles(m, tri.triangles);
  }

  /** The innermost loop `for k in range(nz)`, after the cells `done`. */
  method WalkRow(s: Sweep, m: Mesh<Point>, i: nat, j: nat, nz: nat, ghost done: seq<Cell>) returns (r: Mesh<Point>)
    requires s.t.Valid() && i < |s.lat.xs| && j < |s.lat.ys| && nz <= |s.lat.zs|
    requires m == Accumulate(s, EmptyMesh(), done)
    ensures r == Accumulate(s, EmptyMesh(), done + CellsZ(i, j, nz))
  {
    r := m;
    assert done + CellsZ(i, j, 0) == done;
    for k := 0 to nz
      invariant r == Accumulate(s, EmptyMesh(), done + CellsZ(i, j, k))
    {
      AccumulateSnoc(s, EmptyMesh(), done + CellsZ(i, j, k), Cell(i, j, k));
      r := VisitCell(s, r, Cell(i, j, k));
      CellsZSnoc(done, i, j, k);
    }
  }

  lemma CellsZSnoc(done: seq<Cell>, i: nat, j: nat, k: nat)
    ensures (done + CellsZ(i, j, k)) + [Cell(i, j, k)] == done + CellsZ(i, j, k + 1)
  {
    ConcatAssoc(done, CellsZ(i, j, k), [Cell(i, j, k)]);
  }

  lemma CellsYSnoc(i: nat, j: nat, nz: nat)
    ensures CellsY(i, j + 1, nz) == CellsY(i, j, nz) + CellsZ(i, j, nz)
  {
  }

  /** The middle loop `for j in range(ny)`, after the cells `done`. */
  method WalkSlab(s: Sweep, m: Mesh<Point>, i: nat, ny: nat, nz: nat, ghost done: seq<Cell>) returns (r: Mesh<Point>)
    requires s.t.Valid() && i < |s.lat.xs| && ny <= |s.lat.ys| && nz <= |s.lat.zs|
    requires m == Accumulate(s, EmptyMesh(), done)
    ensures r == Accumulate(s, EmptyMesh(), done + CellsY(i, ny, nz))
  {
    r := m;
    assert done + CellsY(i, 0, nz) == done;
    for j := 0 to ny
      invariant r == Accumulate(s, EmptyMesh(), done + CellsY(i, j, nz))
    {
      r := WalkRow(s, r, i, j, nz, done + CellsY(i, j, nz));
      CellsYSnoc(i, j, nz);
      ConcatAssoc(done, CellsY(i, j, nz), CellsZ(i, j, nz));
    }
  }

  /** The three nested loops over nx × ny × nz cells, starting from empty `vs`
      and `fs`. */
  method WalkCells(s: Sweep, nx: nat, ny: nat, nz: nat) returns (m: Mesh<Point>)
    requires s.t.Valid()
    requires nx <= |s.lat.xs| && ny <= |s.lat.ys| && nz <= |s.lat.zs|
    ensures m == Accumulate(s, EmptyMesh(), CellsX(nx, ny, nz))
  {
    m := EmptyMesh();
    for i := 0 to nx
      invariant m == Accumulate(s, EmptyMesh(), CellsX(i, ny, nz))
    {
      m := WalkSlab(s, m, i, ny, nz, CellsX(i, ny, nz));
    }
  }

  /** `march(func, isolevel, ranges, delta)` of the engine: None where
      `get_bbox` divides by a zero delta; otherwise the walk over one cell per
      lattice point. */
  method March(t: Tables, f: Point -> real, iso: real, ranges: ((real, real), (real, real), (real, real)), delta: real)
    returns (r: Option<Mesh<Point>>)
    requires t.Valid()
    ensures r.None? <==> delta == 0.0
    ensures r.Some? ==> var lat := GetBBox(ranges.0, ranges.1, ranges.2, delta, 0.0).value;
      var s := Sweep(t, f, iso, lat, delta);
      var cells := CellsX(|lat.xs|, |lat.ys|, |lat.zs|);
      r.value == Accumulate(s, EmptyMesh(), cells) && Welded(r.value, Soup(s, cells))
  {
    var box := GetBBox(ranges.0, ranges.1, ranges.2, delta, 0.0);
    if box.None? {
      return None;
    }
    var lat := box.value;
    var s := Sweep(t, f, iso, lat, delta);
    var m := WalkCells(s, |lat.xs|, |lat.ys|, |lat.zs|);
    WalkWelded(s, CellsX(|lat.xs|, |lat.ys|, |lat.zs|));
    r := Some(m);
  }

  /** `range(n - 1)` is empty for n = 0. */
  function CellCount(points: nat): (cells: nat)
    ensures points >= 1 ==> cells + 1 == points
    ensures points == 0 ==> cells == 0
  {
    if points == 0 then 0 else points - 1
  }

  /** `march` walking `step - 1` cells per axis, as the root script does: the cubes
      anchored at the last lattice coordinate of each axis are left out. */
  method MarchWithinBox(t: Tables, f: Point -> real, iso: real, ranges: ((real, real), (real, real), (real, real)), delta: real)
    returns (r: Option<Mesh<Point>>)
    requires t.Valid()
    ensures r.None? <==> delta == 0.0
    ensures r.Some? ==> var lat := GetBBox(ranges.0, ranges.1, ranges.2, delta, 0.0).value;
      var s := Sweep(t, f, iso, lat, delta);
      var cells := CellsX(CellCount(|lat.xs|), CellCount(|lat.ys|), CellCount(|lat.zs|));
      r.value == Accumulate(s, EmptyMesh(), cells) && Welded(r.value, Soup(s, cells))
  {
    var box := GetBBox(ranges.0, ranges.1, ranges.2, delta, 0.0);
    if box.None? {
      return None;
    }
    var lat := box.value;
    var s := Sweep(t, f, iso, lat, delta);
    var m := WalkCells(s, CellCount(|lat.xs|), CellCount(|lat.ys|), CellCount(|lat.zs|));
    WalkWelded(s, CellsX(CellCount(|lat.xs|), CellCount(|lat.ys|), CellCount(|lat.zs|)));
    r := Some(m);
  }

  /** The root script's fixed lattice `np.mgrid[-1:1:21j, -1:1:21j, -1:1:21j]`. */
  function RootLattice(): (lat: Lattice)
    ensures |lat.xs| == 21 && |lat.ys| == 21 && |lat.zs| == 21
  {
    Lattice(Linspace(-1.0, 1.0, 21), Linspace(-1.0, 1.0, 21), Linspace(-1.0, 1.0, 21))
  }

  /** The root script's cube edge `delta = 0.2` and level `isolevel = 0.4 ** 2`. */
  const RootDelta: real := 0.2
  const RootIso: real := 0.16

  /** The root script's walk: `step - 1` cells per axis, 20 × 20 × 20. */
  method RootScript(t: Tables, f: Point -> real) returns (m: Mesh<Point>)
    requires t.Valid()
    ensures var lat := RootLattice();
      var s, cells := Sweep(t, f, RootIso, lat, RootDelta), CellsX(|lat.xs| - 1, |lat.ys| - 1, |lat.zs| - 1);
      m == Accumulate(s, EmptyMesh(), cells) && Welded(m, Soup(s, cells))
  {
    var lat := RootLattice();
    var s := Sweep(t, f, RootIso, lat, RootDelta);
    m := WalkCells(s, |lat.xs| - 1, |lat.ys| - 1, |lat.zs| - 1);
    WalkWelded(s, CellsX(|lat.xs| - 1, |lat.ys| - 1, |lat.zs| - 1));
  }

  // ---------------------------------------------------------------------------
  // The cells in visiting order, and the triangle soup they produce.

  function CellsZ(i: nat, j: nat, k: nat): seq<Cell> {
    if k == 0 then [] else CellsZ(i, j, k - 1) + [Cell(i, j, k - 1)]
  }

  function CellsY(i: nat, j: nat, nz: nat): seq<Cell> {
    if j == 0 then [] else CellsY(i, j - 1, nz) + CellsZ(i, j - 1, nz)
  }

  /** The cells `range(nx) × range(ny) × range(nz)` in the order the loops visit them. */
  function CellsX(i: nat, ny: nat, nz: nat): seq<Cell> {
    if i == 0 then [] else CellsX(i - 1, ny, nz) + CellsY(i - 1, ny, nz)
  }

  /** A cell's position in row-major order. */
  function Rank(c: Cell, ny: nat, nz: nat): nat {
    c.i * (ny * nz) + (c.j * nz + c.k)
  }

  predicate Within(c: Cell, nx: nat, ny: nat, nz: nat) {
    c.i < nx && c.j < ny && c.k < nz
  }

  /** The triangle soup of a list of cells: their triangles, cell after cell (a
      cell off the lattice, which the walk never visits, contributes nothing). */
  function Soup(s: Sweep, cells: seq<Cell>): (r: seq<seq<Point>>)
    requires s.t.Valid()
    ensures forall k :: 0 <= k < |r| ==> |r[k]| == 3
  {
    if cells == [] then []
    else
      var c := cells[|cells| - 1];
      Soup(s, cells[..|cells| - 1]) + (if InLattice(s.lat, c) then CellTriangles(s, c) else [])
  }

  lemma {:induction false} CellsZSpec(i: nat, j: nat, k: nat)
    ensures |CellsZ(i, j, k)| == k
    ensures forall n :: 0 <= n < k ==> CellsZ(i, j, k)[n] == Cell(i, j, n)
  {
    if k > 0 {
      CellsZSpec(i, j, k - 1);
    }
  }

  lemma RowIndexBound(j: nat, k: nat, j': nat, nz: nat)
    requires j < j' && k < nz
    ensures j * nz + k < j' * nz
  {
    assert j' * nz == (j' - j - 1) * nz + j * nz + nz;
  }

  lemma {:induction false} CellsYLength(i: nat, j: nat, nz: nat)
    ensures |CellsY(i, j, nz)| == j * nz
  {
    if j > 0 {
      CellsYLength(i, j - 1, nz);
      CellsZSpec(i, j - 1, nz);
      LengthStep(|CellsY(i, j - 1, nz)|, |CellsZ(i, j - 1, nz)|, j, nz);
    }
  }

  /** n runs of m cells, counted as n - 1 runs and one more. */
  lemma LengthStep(a: nat, b: nat, n: nat, m: nat)
    requires n > 0 && a == (n - 1) * m && b == m
    ensures a + b == n * m
  {
    assert n * m == (n - 1) * m + m;
  }

  /** Position n of slab i holds the cell of row-major offset n within the slab. */
  lemma {:induction false} CellsYAt(i: nat, j: nat, nz: nat, n: nat)
    requires n < |CellsY(i, j, nz)|
    ensures var c := CellsY(i, j, nz)[n];
      c.i == i && c.j < j && c.k < nz && c.j * nz + c.k == n
  {
    var init, last := CellsY(i, j - 1, nz), CellsZ(i, j - 1, nz);
    assert CellsY(i, j, nz) == init + last;
    CellsZSpec(i, j - 1, nz);
    CellsYLength(i, j - 1, nz);
    if n < |init| {
      CellsYAt(i, j - 1, nz, n);
      assert (init + last)[n] == init[n];
    } else {
      var k := n - |init|;
      assert (init + last)[n] == last[k] == Cell(i, j - 1, k);
    }
  }

  /** Cell (i, j', k') of slab i sits at offset j' * nz + k'. */
  lemma {:induction false} CellsYIndex(i: nat, j: nat, nz: nat, j': nat, k': nat)
    requires j' < j && k' < nz
    ensures j' * nz + k' < |CellsY(i, j, nz)| && CellsY(i, j, nz)[j' * nz + k'] == Cell(i, j', k')
  {
    if j' < j - 1 {
      CellsYIndex(i, j - 1, nz, j', k');
    }
    CellsZSpec(i, j - 1, nz);
    CellsYLength(i, j - 1, nz);
    RowStep(CellsY(i, j - 1, nz), CellsZ(i, j - 1, nz), i, j, nz, j', k');
  }

  /** One step of `CellsYIndex`: the rows before row j - 1, then row j - 1. */
  lemma RowStep(init: seq<Cell>, last: seq<Cell>, i: nat, j: nat, nz: nat, j': nat, k': nat)
    requires j' < j && k' < nz
    requires |init| == (j - 1) * nz && |last| == nz
    requires forall n :: 0 <= n < nz ==> last[n] == Cell(i, j - 1, n)
    requires j' < j - 1 ==> j' * nz + k' < |init| && init[j' * nz + k'] == Cell(i, j', k')
    ensures j' * nz + k' < |init + last| && (init + last)[j' * nz + k'] == Cell(i, j', k')
  {
    var n := j' * nz + k';
    if j' < j - 1 {
      RowIndexBound(j', k', j - 1, nz);
      assert (init + last)[n] == init[n];
    } else {
      assert j' == j - 1;
      assert n == |init| + k';
      assert (init + last)[n] == last[k'];
    }
  }

  lemma {:induction false} CellsXLength(nx: nat, ny: nat, nz: nat)
    ensures |CellsX(nx, ny, nz)| == nx * (ny * nz)
  {
    if nx > 0 {
      CellsXLength(nx - 1, ny, nz);
      CellsYLength(nx - 1, ny, nz);
      LengthStep(|CellsX(nx - 1, ny, nz)|, |CellsY(nx - 1, ny, nz)|, nx, ny * nz);
    }
  }

  lemma {:induction false} CellsXAt(nx: nat, ny: nat, nz: nat, n: nat)
    requires n < |CellsX(nx, ny, nz)|
    ensures Within(CellsX(nx, ny, nz)[n], nx, ny, nz) && Rank(CellsX(nx, ny, nz)[n], ny, nz) == n
  {
    var init, last := CellsX(nx - 1, ny, nz), CellsY(nx - 1, ny, nz);
    assert CellsX(nx, ny, nz) == init + last;
    if n < |init| {
      CellsXAt(nx - 1, ny, nz, n);
      assert (init + last)[n] == init[n];
    } else {
      var r := n - |init|;
      assert (init + last)[n] == last[r];
      CellsYAt(nx - 1, ny, nz, r);
      CellsXLength(nx - 1, ny, nz);
    }
  }

  lemma {:induction false} CellsXIndex(nx: nat, ny: nat, nz: nat, c: Cell)
    requires Within(c, nx, ny, nz)
    ensures Rank(c, ny, nz) < |CellsX(nx, ny, nz)| && CellsX(nx, ny, nz)[Rank(c, ny, nz)] == c
  {
    if c.i < nx - 1 {
      CellsXIndex(nx - 1, ny, nz, c);
    } else {
      CellsYIndex(nx - 1, ny, nz, c.j, c.k);
    }
    CellsXLength(nx - 1, ny, nz);
    SlabStep(CellsX(nx - 1, ny, nz), CellsY(nx - 1, ny, nz), nx, ny, nz, c);
  }

  /** One step of `CellsXIndex`: the slabs before slab nx - 1, then slab nx - 1. */
  lemma SlabStep(init: seq<Cell>, last: seq<Cell>, nx: nat, ny: nat, nz: nat, c: Cell)
    requires Within(c, nx, ny, nz) && |init| == (nx - 1) * (ny * nz)
    requires c.i < nx - 1 ==> Rank(c, ny, nz) < |init| && init[Rank(c, ny, nz)] == c
    requires c.i == nx - 1 ==> c.j * nz + c.k < |last| && last[c.j * nz + c.k] == c
    ensures Rank(c, ny, nz) < |init + last| && (init + last)[Rank(c, ny, nz)] == c
  {
    var r, n := c.j * nz + c.k, Rank(c, ny, nz);
    if c.i < nx - 1 {
      assert (init + last)[n] == init[n];
    } else {
      assert n == |init| + r;
      assert (init + last)[n] == last[r];
    }
  }

  /** The walk visits exactly the nx × ny × nz cells `range(nx) × range(ny) ×
      range(nz)`, each once, in row-major order: position n holds the cell of rank
      n, and every such cell sits at the position given by its rank. */
  lemma CellsOrder(nx: nat, ny: nat, nz: nat)
    ensures |CellsX(nx, ny, nz)| == nx * (ny * nz)
    ensures forall n :: 0 <= n < |CellsX(nx, ny, nz)| ==>
      Within(CellsX(nx, ny, nz)[n], nx, ny, nz) && Rank(CellsX(nx, ny, nz)[n], ny, nz) == n
    ensures forall c :: Within(c, nx, ny, nz) ==>
      Rank(c, ny, nz) < |CellsX(nx, ny, nz)| && CellsX(nx, ny, nz)[Rank(c, ny, nz)] == c
  {
    CellsXLength(nx, ny, nz);
    forall n | 0 <= n < |CellsX(nx, ny, nz)|
      ensures Within(CellsX(nx, ny, nz)[n], nx, ny, nz) && Rank(CellsX(nx, ny, nz)[n], ny, nz) == n
    {
      CellsXAt(nx, ny, nz, n);
    }
    forall c | Within(c, nx, ny, nz)
      ensures Rank(c, ny, nz) < |CellsX(nx, ny, nz)| && CellsX(nx, ny, nz)[Rank(c, ny, nz)] == c
    {
      CellsXIndex(nx, ny, nz, c);
    }
  }

  /** Membership form of the above. */
  lemma CellsMembership(nx: nat, ny: nat, nz: nat)
    ensures forall c :: c in CellsX(nx, ny, nz) <==> Within(c, nx, ny, nz)
  {
    CellsOrder(nx, ny, nz);
    forall c | c in CellsX(nx, ny, nz) ensures Within(c, nx, ny, nz) {
      var n :| 0 <= n < |CellsX(nx, ny, nz)| && CellsX(nx, ny, nz)[n] == c;
    }
  }

  /** The root script visits 8000 cells. */
  lemma RootCellCount()
    ensures |CellsX(20, 20, 20)| == 8000
  {
    CellsOrder(20, 20, 20);
  }

  lemma ConcatAssoc<T>(x: seq<T>, y: seq<T>, z: seq<T>)
    ensures (x + y) + z == x + (y + z)
  {
  }

  /** The soup of consecutive runs of cells is the concatenation of their soups. */
  lemma {:induction false} SoupAppend(s: Sweep, a: seq<Cell>, b: seq<Cell>)
    requires s.t.Valid()
    ensures Soup(s, a + b) == Soup(s, a) + Soup(s, b)
  {
    if b == [] {
      assert a + b == a;
    } else {
      var init, last := b[..|b| - 1], b[|b| - 1];
      var ab := a + b;
      assert ab[..|ab| - 1] == a + init && ab[|ab| - 1] == last;
      var tail := if InLattice(s.lat, last) then CellTriangles(s, last) else [];
      assert Soup(s, ab) == Soup(s, a + init) + tail;
      assert Soup(s, b) == Soup(s, init) + tail;
      SoupAppend(s, a, init);
      ConcatAssoc(Soup(s, a), Soup(s, init), tail);
    }
  }

  /** Visiting a cell extends the represented triangle list by that cell's triangles. */
  lemma VisitWelded(s: Sweep, mesh: Mesh<Point>, soup: seq<seq<Point>>, c: Cell)
    requires s.t.Valid() && InLattice(s.lat, c) && Welded(mesh, soup)
    ensures Welded(Visit(s, mesh, c), soup + CellTriangles(s, c))
  {
    match CellSurface(s, c)
    case NoSurface =>
      assert soup + [] == soup;
    case Surface(tris) =>
      AddAllWelded(mesh, soup, tris);
  }

  /** Visiting cells in order extends the represented triangle list by their soup. */
  lemma {:induction false} AccumulateWelded(s: Sweep, mesh: Mesh<Point>, soup: seq<seq<Point>>, cells: seq<Cell>)
    requires s.t.Valid() && Welded(mesh, soup)
    ensures Welded(Accumulate(s, mesh, cells), soup + Soup(s, cells))
  {
    if cells == [] {
      assert soup + [] == soup;
    } else {
      var init, c := cells[..|cells| - 1], cells[|cells| - 1];
      AccumulateWelded(s, mesh, soup, init);
      var a := Soup(s, init);
      if InLattice(s.lat, c) {
        VisitWelded(s, Accumulate(s, mesh, init), soup + a, c);
        ConcatAssoc(soup, a, CellTriangles(s, c));
      } else {
        assert Soup(s, cells) == a + [] == a;
      }
    }
  }

  /** The walk's result represents the triangle soup of all visited cells in
      visiting order: IDs 1, 2, … in first-seen order with one per distinct point,
      one face per triangle, and face n names the points of triangle n. */
  lemma WalkWelded(s: Sweep, cells: seq<Cell>)
    requires s.t.Valid()
    ensures Welded(Accumulate(s, EmptyMesh(), cells), Soup(s, cells))
  {
    EmptyMeshWelded<Point>();
    AccumulateWelded(s, EmptyMesh(), [], cells);
    assert [] + Soup(s, cells) == Soup(s, cells);
  }

  // ---------------------------------------------------------------------------
  // Where the cubes lie.

  predicate InBox(p: Point, ranges: ((real, real), (real, real), (real, real))) {
    && ranges.0.0 <= p.x <= ranges.0.1
    && ranges.1.0 <= p.y <= ranges.1.1
    && ranges.2.0 <= p.z <= ranges.2.1
  }

  /** The engine's walk always reaches past the box: for a positive delta and
      non-empty ranges it visits the cell anchored at the last x coordinate, and
      that cube's corner 3 lies at x = (last coordinate) + delta > x max. */
  lemma MarchSamplesBeyondBox(ranges: ((real, real), (real, real), (real, real)), delta: real)
    requires delta > 0.0
    requires ranges.0.0 <= ranges.0.1 && ranges.1.0 <= ranges.1.1 && ranges.2.0 <= ranges.2.1
    ensures var lat := GetBBox(ranges.0, ranges.1, ranges.2, delta, 0.0).value;
      && |lat.xs| >= 1 && |lat.ys| >= 1 && |lat.zs| >= 1
      && var c := Cell(|lat.xs| - 1, 0, 0);
      && c in CellsX(|lat.xs|, |lat.ys|, |lat.zs|)
      && !InBox(Corners(Base(lat, c), delta)[3], ranges)
  {
    var lat := GetBBox(ranges.0, ranges.1, ranges.2, delta, 0.0).value;
    AxisLastOvershoots(ranges.0.0, ranges.0.1, delta);
    AxisStride(ranges.1.0, ranges.1.1, delta, 0);
    AxisStride(ranges.2.0, ranges.2.1, delta, 0);
    var c := Cell(|lat.xs| - 1, 0, 0);
    CellsXIndex(|lat.xs|, |lat.ys|, |lat.zs|, c);
    assert Corners(Base(lat, c), delta)[3].x == lat.xs[c.i] + delta;
  }

  /** With a positive delta and non-empty ranges, every corner of every cube the
      corrected walk samples lies inside the box. */
  lemma CorrectedCubesInsideBox(ranges: ((real, real), (real, real), (real, real)), delta: real)
    requires delta > 0.0
    requires ranges.0.0 <= ranges.0.1 && ranges.1.0 <= ranges.1.1 && ranges.2.0 <= ranges.2.1
    ensures var lat := GetBBox(ranges.0, ranges.1, ranges.2, delta, 0.0).value;
      forall c, n :: Within(c, CellCount(|lat.xs|), CellCount(|lat.ys|), CellCount(|lat.zs|)) && 0 <= n < 8 ==>
        InBox(Corners(Base(lat, c), delta)[n], ranges)
  {
    var lat := GetBBox(ranges.0, ranges.1, ranges.2, delta, 0.0).value;
    assert lat.xs == Axis(ranges.0.0, ranges.0.1, delta, 0.0).value;
    assert lat.ys == Axis(ranges.1.0, ranges.1.1, delta, 0.0).value;
    assert lat.zs == Axis(ranges.2.0, ranges.2.1, delta, 0.0).value;
    forall c, n | Within(c, CellCount(|lat.xs|), CellCount(|lat.ys|), CellCount(|lat.zs|)) && 0 <= n < 8
      ensures InBox(Corners(Base(lat, c), delta)[n], ranges)
    {
      AxisStride(ranges.0.0, ranges.0.1, delta, c.i);
      AxisStride(ranges.1.0, ranges.1.1, delta, c.j);
      AxisStride(ranges.2.0, ranges.2.1, delta, c.k);
      CubeCornerInside(lat, delta, ranges, c, n);
    }
  }

  /** A cube of edge delta whose base is at least delta below the box's maximum on
      each axis, and inside the box, lies inside the box. */
  lemma CubeCornerInside(lat: Lattice, delta: real, ranges: ((real, real), (real, real), (real, real)), c: Cell, n: nat)
    requires InLattice(lat, c) && n < 8 && delta > 0.0
    requires ranges.0.0 <= lat.xs[c.i] && lat.xs[c.i] + delta <= ranges.0.1
    requires ranges.1.0 <= lat.ys[c.j] && lat.ys[c.j] + delta <= ranges.1.1
    requires ranges.2.0 <= lat.zs[c.k] && lat.zs[c.k] + delta <= ranges.2.1
    ensures InBox(Corners(Base(lat, c), delta)[n], ranges)
  {
  }

  /** Where the lattice spacing equals delta along x (as for an extent that is an
      exact multiple of delta), the cube of cell (i + 1, j, k) starts where the cube
      of cell (i, j, k) ends: each corner on the x = 1 face of the first is the
      matching x = 0 corner of the second. */
  lemma NeighbourCubesShareFaceX(lat: Lattice, delta: real, c: Cell)
    requires InLattice(lat, c) && c.i + 1 < |lat.xs| && lat.xs[c.i + 1] == lat.xs[c.i] + delta
    ensures var here, there := Corners(Base(lat, c), delta), Corners(Base(lat, Cell(c.i + 1, c.j, c.k)), delta);
      here[3] == there[0] && here[2] == there[1] && here[6] == there[5] && here[7] == there[4]
  {
  }
}
