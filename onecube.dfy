/** The single-cube experiment: a `Cube` object that knows its eight corners and
    their integer lattice positions, triangulates itself and welds both its
    corners (tagged by colour) and its triangle vertices into its own vertex
    dictionary; and the driver that keeps one cube per corner-0 position. */
module OneCube {
  import opened Optional
  import opened Geometry
  import opened Lookup
  import opened Voxel
  import opened Weld
  import opened BBox
  import opened Walk

  /** `Cube.meter_per_voxel`. */
  const MeterPerVoxel: real := 0.1

  /** `Cube.isolevel = 0.5 ** 2`. */
  const CubeIsolevel: real := 0.25

  /** `np.round` on one value: the nearest integer, ties to the even one. */
  function RoundHalfEven(x: real): (n: int)
    ensures -0.5 <= n as real - x <= 0.5
    ensures (n as real - x == 0.5 || x - n as real == 0.5) ==> n % 2 == 0
  {
    var f := x.Floor;
    var r := x - f as real;
    if r < 0.5 then f
    else if r > 0.5 then f + 1
    else if f % 2 == 0 then f else f + 1
  }

  /** Any integer closer than one half to x is what `np.round` gives. */
  lemma RoundHalfEvenNearest(x: real, m: int)
    requires -0.5 < m as real - x < 0.5
    ensures RoundHalfEven(x) == m
  {
    var n := RoundHalfEven(x);
    assert -1.0 < n as real - m as real < 1.0;
  }

  /** An integer triple: a point's position in units of `meter_per_voxel`. */
  datatype IPos = IPos(x: int, y: int, z: int)

  /** `np.array(np.round(p / meter_per_voxel), np.int)` on one corner. */
  function GridPos(p: Point): IPos {
    IPos(RoundHalfEven(p.x / MeterPerVoxel), RoundHalfEven(p.y / MeterPerVoxel), RoundHalfEven(p.z / MeterPerVoxel))
  }

  function GridPositions(corners: seq<Point>): (ps: seq<IPos>)
    ensures |ps| == |corners|
  {
    seq(|corners|, n requires 0 <= n < |corners| => GridPos(corners[n]))
  }

  /** Points already on the lattice of `meter_per_voxel` keep their exact position. */
  lemma GridPosOnLattice(a: int, b: int, c: int)
    ensures GridPos(Point(a as real * MeterPerVoxel, b as real * MeterPerVoxel, c as real * MeterPerVoxel)) == IPos(a, b, c)
  {
    RoundHalfEvenNearest(a as real, a);
    RoundHalfEvenNearest(b as real, b);
    RoundHalfEvenNearest(c as real, c);
  }

  /** The colour appended to a welded point: [1, 0, 0], [0, 1, 0] or [0, 0, 1]. */
  datatype Tag = Red | Green | Blue

  /** `tuple(np.r_[v, colour])`: a point with its colour. */
  datatype Key = Key(p: Point, tag: Tag)

  /** Corners above the level are blue, the others red. */
  function CornerKeys(corners: seq<Point>, vals: seq<real>, iso: real): (keys: seq<Key>)
    requires |vals| == |corners|
    ensures |keys| == |corners|
    ensures forall n :: 0 <= n < |keys| ==> keys[n].p == corners[n] && keys[n].tag != Green
    ensures forall n :: 0 <= n < |keys| ==> (keys[n].tag == Blue <==> vals[n] > iso)
  {
    seq(|corners|, n requires 0 <= n < |corners| => Key(corners[n], if vals[n] > iso then Blue else Red))
  }

  /** Triangle vertices are green. */
  function Tagged(tris: seq<seq<Point>>): (keyed: seq<seq<Key>>)
    ensures |keyed| == |tris|
    ensures forall a :: 0 <= a < |tris| ==> |keyed[a]| == |tris[a]|
    ensures forall a, b :: 0 <= a < |tris| && 0 <= b < |tris[a]| ==> keyed[a][b] == Key(tris[a][b], Green)
  {
    seq(|tris|, a requires 0 <= a < |tris| => seq(|tris[a]|, b requires 0 <= b < |tris[a]| => Key(tris[a][b], Green)))
  }

  /** The triangles of the cube whose corners and corner values are given. */
  function CubeTriangles(t: Tables, corners: seq<Point>, vals: seq<real>): seq<seq<Point>>
    requires t.Valid() && |corners| == 8 && |vals| == 8
  {
    match Triangulate(t, corners, vals, CubeIsolevel)
    case NoSurface => []
    case Surface(tris) => tris
  }

  /** What `marching_cube` does to the dictionary and face list: weld the eight
      coloured corners, then, if there is a surface, weld each green triangle and
      append its face. */
  function CubeMesh(t: Tables, corners: seq<Point>, vals: seq<real>, mesh: Mesh<Key>): (r: Mesh<Key>)
    requires t.Valid() && |corners| == 8 && |vals| == 8 && Dense(mesh.vs)
    ensures Dense(r.vs) && Extends(mesh.vs, r.vs)
  {
    var vs := WeldAll(mesh.vs, CornerKeys(corners, vals, CubeIsolevel)).0;
    match Triangulate(t, corners, vals, CubeIsolevel)
    case NoSurface => Mesh(vs, mesh.fs)
    case Surface(tris) =>
      var r := AddAll(Mesh(vs, mesh.fs), Tagged(tris));
      ExtendsTransitive(mesh.vs, vs, r.vs);
      r
  }

  /** CubeMesh in terms of the triangulation and the welded corners. */
  lemma CubeMeshSteps(t: Tables, corners: seq<Point>, vals: seq<real>, mesh: Mesh<Key>, tri: Triangulation, welded: VertexMap<Key>)
    requires t.Valid() && |corners| == 8 && |vals| == 8 && Dense(mesh.vs)
    requires tri == Triangulate(t, corners, vals, CubeIsolevel)
    requires welded == WeldAll(mesh.vs, CornerKeys(corners, vals, CubeIsolevel)).0
    ensures Dense(welded)
    ensures tri.NoSurface? ==> CubeMesh(t, corners, vals, mesh) == Mesh(welded, mesh.fs)
    ensures tri.Surface? ==> CubeMesh(t, corners, vals, mesh) == AddAll(Mesh(welded, mesh.fs), Tagged(tri.triangles))
  {
  }

  /** All eight coloured corners end up in `vs`, whether or not the cube has a
      surface. */
  lemma CubeMeshWeldsCorners(t: Tables, corners: seq<Point>, vals: seq<real>, mesh: Mesh<Key>)
    requires t.Valid() && |corners| == 8 && |vals| == 8 && Dense(mesh.vs)
    ensures var keys := CornerKeys(corners, vals, CubeIsolevel);
      forall n :: 0 <= n < 8 ==> keys[n] in CubeMesh(t, corners, vals, mesh).vs.ids
  {
    var keys := CornerKeys(corners, vals, CubeIsolevel);
    var (vs, ids) := WeldAll(mesh.vs, keys);
    forall n | 0 <= n < 8 ensures keys[n] in vs.ids {
      assert vs.keys[ids[n] - 1] == keys[n];
      DenseLookup(vs, keys[n]);
    }
    match Triangulate(t, corners, vals, CubeIsolevel)
    case NoSurface =>
      assert CubeMesh(t, corners, vals, mesh).vs == vs;
    case Surface(tris) =>
      assert CubeMesh(t, corners, vals, mesh) == AddAll(Mesh(vs, mesh.fs), Tagged(tris));
  }

  /** A cube appends one face per triangle; if the mesh represented a list of keyed
      triangles before, it represents that list followed by the cube's green
      triangles afterwards. */
  lemma CubeMeshFaithful(t: Tables, corners: seq<Point>, vals: seq<real>, mesh: Mesh<Key>, soup: seq<seq<Key>>)
    requires t.Valid() && |corners| == 8 && |vals| == 8 && Faithful(mesh, soup)
    ensures Faithful(CubeMesh(t, corners, vals, mesh), soup + Tagged(CubeTriangles(t, corners, vals)))
  {
    var vs := WeldAll(mesh.vs, CornerKeys(corners, vals, CubeIsolevel)).0;
    forall k | 0 <= k < |soup| ensures Decodes(vs, mesh.fs[k], soup[k]) {
      DecodesExtends(mesh.vs, vs, mesh.fs[k], soup[k]);
    }
    assert Faithful(Mesh(vs, mesh.fs), soup);
    match Triangulate(t, corners, vals, CubeIsolevel)
    case NoSurface =>
      assert Tagged([]) == [];
      assert soup + [] == soup;
    case Surface(tris) =>
      AddAllFaithful(Mesh(vs, mesh.fs), soup, Tagged(tris));
  }

  /** The cube's dictionary gains exactly the coloured corners and then the green
      triangle vertices not in it yet, each once, in the order first seen. */
  lemma CubeMeshKeys(t: Tables, corners: seq<Point>, vals: seq<real>, mesh: Mesh<Key>)
    requires t.Valid() && |corners| == 8 && |vals| == 8 && Dense(mesh.vs)
    ensures CubeMesh(t, corners, vals, mesh).vs.keys ==
      mesh.vs.keys + NewKeys(mesh.vs.keys, CornerKeys(corners, vals, CubeIsolevel) + Flatten(Tagged(CubeTriangles(t, corners, vals))))
  {
    var keys := CornerKeys(corners, vals, CubeIsolevel);
    var vs := WeldAll(mesh.vs, keys).0;
    var tri := Triangulate(t, corners, vals, CubeIsolevel);
    WeldAllKeys(mesh.vs, keys);
    CubeMeshSteps(t, corners, vals, mesh, tri, vs);
    if tri.NoSurface? {
      assert Tagged([]) == [] && keys + Flatten([]) == keys;
    } else {
      var tagged := Tagged(tri.triangles);
      AddAllKeys(Mesh(vs, mesh.fs), tagged);
      KeysStep(mesh.vs.keys, keys, Flatten(tagged), vs.keys, AddAll(Mesh(vs, mesh.fs), tagged).vs.keys);
    }
  }

  /** A triangle vertex never shares a key, and so never an ID, with a corner. */
  lemma TriangleKeysAreNotCornerKeys(tris: seq<seq<Point>>, corners: seq<Point>, vals: seq<real>, iso: real)
    requires |vals| == |corners|
    ensures forall a, b, n :: 0 <= a < |tris| && 0 <= b < |tris[a]| && 0 <= n < |corners| ==>
      Tagged(tris)[a][b] != CornerKeys(corners, vals, iso)[n]
  {
  }

  /** A dictionary filled by `if key not in d: d[key] = value` over `entries`, in
      order: its keys in insertion order and its contents. */
  function FirstSeen<K(==,!new), V(!new)>(entries: seq<(K, V)>): (r: (seq<K>, map<K, V>))
    ensures |r.0| <= |entries|
  {
    if entries == [] then ([], map[])
    else
      var e := entries[|entries| - 1];
      var (ks, m) := FirstSeen(entries[..|entries| - 1]);
      if e.0 in m then (ks, m) else (ks + [e.0], m[e.0 := e.1])
  }

  lemma FirstSeenSnoc<K(!new), V(!new)>(entries: seq<(K, V)>, e: (K, V))
    ensures FirstSeen(entries + [e]) ==
      var (ks, m) := FirstSeen(entries);
      if e.0 in m then (ks, m) else (ks + [e.0], m[e.0 := e.1])
  {
    assert (entries + [e])[..|entries|] == entries;
  }

  /** The dictionary keeps each key once, and lists exactly the keys it holds. */
  lemma {:induction false} FirstSeenKeys<K(!new), V(!new)>(entries: seq<(K, V)>)
    ensures Distinct(FirstSeen(entries).0)
    ensures forall k :: k in FirstSeen(entries).1 <==> k in FirstSeen(entries).0
  {
    if entries != [] {
      var init := entries[..|entries| - 1];
      var e := entries[|entries| - 1];
      FirstSeenKeys(init);
      assert entries == init + [e];
      FirstSeenSnoc(init, e);
      var (ks, m) := FirstSeen(init);
      if e.0 !in m {
        forall a, b | 0 <= a < b < |ks + [e.0]| ensures At(ks + [e.0], a) != At(ks + [e.0], b) {
          if b == |ks| {
            assert (ks + [e.0])[a] == ks[a];
          } else {
            assert At(ks, a) != At(ks, b);
          }
        }
      }
    }
  }

  /** A key is in the dictionary exactly when some entry has it. */
  lemma {:induction false} FirstSeenMembership<K(!new), V(!new)>(entries: seq<(K, V)>)
    ensures forall k :: k in FirstSeen(entries).1 <==> exists n :: 0 <= n < |entries| && entries[n].0 == k
  {
    if entries != [] {
      var init := entries[..|entries| - 1];
      var e := entries[|entries| - 1];
      FirstSeenMembership(init);
      FirstSeenSnoc(init, e);
      assert entries == init + [e];
      forall k ensures k in FirstSeen(entries).1 <==> exists n :: 0 <= n < |entries| && entries[n].0 == k {
        if k in FirstSeen(init).1 {
          var n :| 0 <= n < |init| && init[n].0 == k;
          assert entries[n] == init[n];
        } else if k == e.0 {
          assert entries[|init|].0 == k;
        } else {
          forall n | 0 <= n < |entries| ensures entries[n].0 != k {
            if n < |init| {
              assert entries[n] == init[n];
            }
          }
        }
      }
    }
  }

  /** Every value in the dictionary is the value of an entry with its key. */
  lemma {:induction false} FirstSeenValues<K(!new), V(!new)>(entries: seq<(K, V)>)
    ensures forall k :: k in FirstSeen(entries).1 ==> exists n :: 0 <= n < |entries| && entries[n] == (k, FirstSeen(entries).1[k])
  {
    if entries != [] {
      var init := entries[..|entries| - 1];
      var e := entries[|entries| - 1];
      FirstSeenValues(init);
      FirstSeenSnoc(init, e);
      assert entries == init + [e];
      forall k | k in FirstSeen(entries).1
        ensures exists n :: 0 <= n < |entries| && entries[n] == (k, FirstSeen(entries).1[k])
      {
        if k in FirstSeen(init).1 && FirstSeen(entries).1[k] == FirstSeen(init).1[k] {
          var n :| 0 <= n < |init| && init[n] == (k, FirstSeen(init).1[k]);
          assert entries[n] == init[n];
        } else {
          assert entries[|entries| - 1] == (k, FirstSeen(entries).1[k]);
        }
      }
    }
  }

  /** A key is bound to the value of the first entry that has it. */
  lemma {:induction false} FirstSeenFirst<K(!new), V(!new)>(entries: seq<(K, V)>, n: nat)
    requires n < |entries| && forall m :: 0 <= m < n ==> entries[m].0 != entries[n].0
    ensures entries[n].0 in FirstSeen(entries).1 && FirstSeen(entries).1[entries[n].0] == entries[n].1
  {
    var init := entries[..|entries| - 1];
    var e := entries[|entries| - 1];
    assert entries == init + [e];
    FirstSeenSnoc(init, e);
    FirstSeenMembership(init);
    if n < |init| {
      assert entries[n] == init[n];
      forall m | 0 <= m < n ensures init[m].0 != init[n].0 {
        assert entries[m] == init[m];
      }
      FirstSeenFirst(init, n);
      assert entries[n].0 in FirstSeen(init).1;
    } else {
      forall m | 0 <= m < |init| ensures init[m].0 != e.0 {
        assert entries[m] == init[m];
      }
    }
  }

  /** When no two entries share a key, every entry is kept, in order. */
  lemma {:induction false} FirstSeenAllKept<K(!new), V(!new)>(entries: seq<(K, V)>)
    requires forall m, n :: 0 <= m < n < |entries| ==> entries[m].0 != entries[n].0
    ensures |FirstSeen(entries).0| == |entries|
    ensures forall n :: 0 <= n < |entries| ==> FirstSeen(entries).0[n] == entries[n].0
  {
    if entries != [] {
      var init := entries[..|entries| - 1];
      var e := entries[|entries| - 1];
      assert entries == init + [e];
      FirstSeenSnoc(init, e);
      forall m, n | 0 <= m < n < |init| ensures init[m].0 != init[n].0 {
        assert entries[m] == init[m] && entries[n] == init[n];
      }
      FirstSeenAllKept(init);
      FirstSeenMembership(init);
      forall m | 0 <= m < |init| ensures init[m].0 != e.0 {
        assert entries[m] == init[m];
      }
    }
  }

  /** Cell c's cube as the driver builds it: the corner-0 position and the corners. */
  function CubeEntry(lat: Lattice, delta: real, c: Cell): (e: (IPos, seq<Point>))
    requires InLattice(lat, c)
    ensures |e.1| == 8 && e.0 == GridPositions(e.1)[0]
  {
    var corners := Corners(Base(lat, c), delta);
    (GridPos(corners[0]), corners)
  }

  /** The driver's candidate cubes for the cells, in visiting order. */
  function Entries(lat: Lattice, delta: real, cells: seq<Cell>): (es: seq<(IPos, seq<Point>)>)
    ensures forall n :: 0 <= n < |es| ==> |es[n].1| == 8 && es[n].0 == GridPositions(es[n].1)[0]
  {
    if cells == [] then []
    else
      var c := cells[|cells| - 1];
      Entries(lat, delta, cells[..|cells| - 1]) + (if InLattice(lat, c) then [CubeEntry(lat, delta, c)] else [])
  }

  lemma EntriesSnoc(lat: Lattice, delta: real, cells: seq<Cell>, c: Cell)
    requires InLattice(lat, c)
    ensures Entries(lat, delta, cells + [c]) == Entries(lat, delta, cells) + [CubeEntry(lat, delta, c)]
  {
    assert (cells + [c])[..|cells|] == cells;
  }

  /** One step of the innermost loop on the dictionary: the cube of cell c is
      kept unless a cube is already kept at its corner-0 position. */
  function KeepStep(lat: Lattice, delta: real, kept: (seq<IPos>, map<IPos, seq<Point>>), c: Cell): (r: (seq<IPos>, map<IPos, seq<Point>>))
    ensures |kept.0| <= |r.0| <= |kept.0| + 1 && r.0[..|kept.0|] == kept.0
    ensures forall p :: p in kept.1 ==> p in r.1 && r.1[p] == kept.1[p]
  {
    if !InLattice(lat, c) then kept
    else
      var e := CubeEntry(lat, delta, c);
      if e.0 in kept.1 then kept else (kept.0 + [e.0], kept.1[e.0 := e.1])
  }

  /** The dictionary after visiting the cells, starting from the dictionary s. */
  function KeptFrom(lat: Lattice, delta: real, s: (seq<IPos>, map<IPos, seq<Point>>), cells: seq<Cell>): (seq<IPos>, map<IPos, seq<Point>>)
  {
    if cells == [] then s
    else KeepStep(lat, delta, KeptFrom(lat, delta, s, cells[..|cells| - 1]), cells[|cells| - 1])
  }

  /** The dictionary after the first k cells of row (i, j), starting from s. */
  function RowFrom(lat: Lattice, delta: real, s: (seq<IPos>, map<IPos, seq<Point>>), i: nat, j: nat, k: nat): (seq<IPos>, map<IPos, seq<Point>>)
  {
    if k == 0 then s else KeepStep(lat, delta, RowFrom(lat, delta, s, i, j, k - 1), Cell(i, j, k - 1))
  }

  /** The dictionary after the first j rows of slab i, starting from s. */
  function SlabFrom(lat: Lattice, delta: real, s: (seq<IPos>, map<IPos, seq<Point>>), i: nat, j: nat, nz: nat): (seq<IPos>, map<IPos, seq<Point>>)
  {
    if j == 0 then s else RowFrom(lat, delta, SlabFrom(lat, delta, s, i, j - 1, nz), i, j - 1, nz)
  }

  /** The dictionary after the first i slabs, starting from s. */
  function BoxFrom(lat: Lattice, delta: real, s: (seq<IPos>, map<IPos, seq<Point>>), i: nat, ny: nat, nz: nat): (seq<IPos>, map<IPos, seq<Point>>)
  {
    if i == 0 then s else SlabFrom(lat, delta, BoxFrom(lat, delta, s, i - 1, ny, nz), i - 1, ny, nz)
  }

  lemma KeptFromSnoc(lat: Lattice, delta: real, s: (seq<IPos>, map<IPos, seq<Point>>), cells: seq<Cell>, c: Cell)
    ensures KeptFrom(lat, delta, s, cells + [c]) == KeepStep(lat, delta, KeptFrom(lat, delta, s, cells), c)
  {
    assert (cells + [c])[..|cells|] == cells;
  }

  /** Visiting a + b is visiting a, then b. */
  lemma {:induction false} KeptFromAppend(lat: Lattice, delta: real, s: (seq<IPos>, map<IPos, seq<Point>>), a: seq<Cell>, b: seq<Cell>)
    ensures KeptFrom(lat, delta, s, a + b) == KeptFrom(lat, delta, KeptFrom(lat, delta, s, a), b)
  {
    if b == [] {
      assert a + b == a;
    } else {
      var init := b[..|b| - 1];
      var c := b[|b| - 1];
      assert b == init + [c];
      assert a + b == (a + init) + [c];
      KeptFromAppend(lat, delta, s, a, init);
      KeptFromSnoc(lat, delta, s, a + init, c);
      KeptFromSnoc(lat, delta, KeptFrom(lat, delta, s, a), init, c);
    }
  }

  /** The loop over a row visits the cells of the row in order. */
  lemma {:induction false} RowFromIsKeptFrom(lat: Lattice, delta: real, s: (seq<IPos>, map<IPos, seq<Point>>), i: nat, j: nat, k: nat)
    ensures RowFrom(lat, delta, s, i, j, k) == KeptFrom(lat, delta, s, CellsZ(i, j, k))
  {
    if k > 0 {
      RowFromIsKeptFrom(lat, delta, s, i, j, k - 1);
      KeptFromSnoc(lat, delta, s, CellsZ(i, j, k - 1), Cell(i, j, k - 1));
    }
  }

  lemma {:induction false} SlabFromIsKeptFrom(lat: Lattice, delta: real, s: (seq<IPos>, map<IPos, seq<Point>>), i: nat, j: nat, nz: nat)
    ensures SlabFrom(lat, delta, s, i, j, nz) == KeptFrom(lat, delta, s, CellsY(i, j, nz))
  {
    if j > 0 {
      var b := SlabFrom(lat, delta, s, i, j - 1, nz);
      var y, z := CellsY(i, j - 1, nz), CellsZ(i, j - 1, nz);
      calc {
        SlabFrom(lat, delta, s, i, j, nz);
        RowFrom(lat, delta, b, i, j - 1, nz);
        { RowFromIsKeptFrom(lat, delta, b, i, j - 1, nz); }
        KeptFrom(lat, delta, b, z);
        { SlabFromIsKeptFrom(lat, delta, s, i, j - 1, nz); }
        KeptFrom(lat, delta, KeptFrom(lat, delta, s, y), z);
        { KeptFromAppend(lat, delta, s, y, z); }
        KeptFrom(lat, delta, s, y + z);
      }
    }
  }

  lemma {:induction false} BoxFromIsKeptFrom(lat: Lattice, delta: real, s: (seq<IPos>, map<IPos, seq<Point>>), i: nat, ny: nat, nz: nat)
    ensures BoxFrom(lat, delta, s, i, ny, nz) == KeptFrom(lat, delta, s, CellsX(i, ny, nz))
  {
    if i > 0 {
      var b := BoxFrom(lat, delta, s, i - 1, ny, nz);
      var x, y := CellsX(i - 1, ny, nz), CellsY(i - 1, ny, nz);
      calc {
        BoxFrom(lat, delta, s, i, ny, nz);
        SlabFrom(lat, delta, b, i - 1, ny, nz);
        { SlabFromIsKeptFrom(lat, delta, b, i - 1, ny, nz); }
        KeptFrom(lat, delta, b, y);
        { BoxFromIsKeptFrom(lat, delta, s, i - 1, ny, nz); }
        KeptFrom(lat, delta, KeptFrom(lat, delta, s, x), y);
        { KeptFromAppend(lat, delta, s, x, y); }
        KeptFrom(lat, delta, s, x + y);
      }
    }
  }

  /** From an empty dictionary, visiting the cells step by step keeps `FirstSeen`
      of their entries. */
  lemma {:induction false} KeptFromIsFirstSeen(lat: Lattice, delta: real, cells: seq<Cell>)
    ensures KeptFrom(lat, delta, ([], map[]), cells) == FirstSeen(Entries(lat, delta, cells))
  {
    if cells != [] {
      var init := cells[..|cells| - 1];
      var c := cells[|cells| - 1];
      KeptFromIsFirstSeen(lat, delta, init);
      assert cells == init + [c];
      if InLattice(lat, c) {
        EntriesSnoc(lat, delta, init, c);
        FirstSeenSnoc(Entries(lat, delta, init), CubeEntry(lat, delta, c));
      } else {
        assert Entries(lat, delta, cells) == Entries(lat, delta, init);
      }
    }
  }

  /** The cubes kept so far: one unmarched `Cube` per kept position, holding the
      corners of the first cube seen there. A cube's rounded corner 0 is its
      position, so no object is kept under two positions. */
  ghost predicate Collected(f: Point -> real, vpe: int, order: seq<IPos>, cubes: map<IPos, Cube>, kept: (seq<IPos>, map<IPos, seq<Point>>))
    reads cubes.Values
  {
    order == kept.0 && cubes.Keys == kept.1.Keys &&
    forall p :: p in cubes ==> cubes[p].Unmarched(f, vpe, kept.1[p])
  }

  /** `Cube`: one voxel of the experiment with its own vertex dictionary. */
  class Cube {
    /** `Cube.func`, the scalar field shared by all cubes. */
    const field: Point -> real
    const voxelPerEdge: int
    const edgeLength: real
    var isoValue: real
    var cornerValues: seq<real>
    var cubeCorners: Option<seq<Point>>
    var cubeCornerPos: Option<seq<IPos>>
    var vs: VertexMap<Key>
    var fs: seq<seq<nat>>

    /** The dictionary gives IDs 1, 2, … in first-insertion order. */
    ghost predicate Valid()
      reads this
    {
      Dense(vs)
    }

    /** A cube after `set_cube(corners)` and before `marching_cube`. */
    ghost predicate Unmarched(f: Point -> real, vpe: int, corners: seq<Point>)
      reads this
    {
      field == f && voxelPerEdge == vpe && isoValue == CubeIsolevel &&
      cubeCorners == Some(corners) && cubeCornerPos == Some(GridPositions(corners)) &&
      vs == VertexMap([], map[]) && fs == []
    }

    /** A cube after `marching_cube` on a fresh dictionary. */
    ghost predicate Marched(t: Tables, f: Point -> real, vpe: int, corners: seq<Point>)
      requires t.Valid()
      reads this
    {
      |corners| == 8 && field == f && voxelPerEdge == vpe && isoValue == CubeIsolevel &&
      cubeCorners == Some(corners) && cubeCornerPos == Some(GridPositions(corners)) &&
      cornerValues == Samples(f, corners) && Mesh(vs, fs) == CubeMesh(t, corners, Samples(f, corners), EmptyMesh()) && Valid()
    }

    /** `Cube(voxel_per_edge)`. */
    constructor (field: Point -> real, voxelPerEdge: int)
      ensures this.field == field && this.voxelPerEdge == voxelPerEdge
      ensures edgeLength == voxelPerEdge as real * MeterPerVoxel
      ensures isoValue == CubeIsolevel && cornerValues == seq(8, _ => 0.0)
      ensures cubeCorners == None && cubeCornerPos == None
      ensures vs == VertexMap([], map[]) && fs == []
      ensures Valid()
    {
      this.field := field;
      this.voxelPerEdge := voxelPerEdge;
      edgeLength := voxelPerEdge as real * MeterPerVoxel;
      isoValue := CubeIsolevel;
      cornerValues := seq(8, _ => 0.0);
      cubeCorners := None;
      cubeCornerPos := None;
      vs := VertexMap([], map[]);
      fs := [];
    }

    /** `set_cube(cube_corners)`: store the corners and their rounded positions. */
    method SetCube(corners: seq<Point>)
      modifies this
      ensures cubeCorners == Some(corners) && cubeCornerPos == Some(GridPositions(corners))
      ensures isoValue == old(isoValue) && cornerValues == old(cornerValues)
      ensures vs == old(vs) && fs == old(fs)
    {
      cubeCorners := Some(corners);
      cubeCornerPos := Some(GridPositions(corners));
    }

    /** `marching_cube(save)` without the file output: sample the corners, weld
        the coloured corners, and weld and record each green triangle. */
    method MarchingCube(t: Tables)
      requires t.Valid() && Valid() && cubeCorners.Some? && |cubeCorners.value| == 8
      modifies this`cornerValues, this`vs, this`fs
      ensures Valid()
      ensures cornerValues == Samples(field, cubeCorners.value)
      ensures Mesh(vs, fs) == CubeMesh(t, cubeCorners.value, cornerValues, old(Mesh(vs, fs)))
    {
      var corners := cubeCorners.value;
      var vals := Samples(field, corners);
      var m := MarchCorners(t, corners, vals, Mesh(vs, fs));
      cornerValues, vs, fs := vals, m.vs, m.fs;
    }
  }

  /** The computation of `marching_cube` on the cube's corners, their sampled
      values and its mesh so far: weld the coloured corners, then, if there is a
      surface, weld and record each green triangle. */
  method MarchCorners(t: Tables, corners: seq<Point>, vals: seq<real>, mesh: Mesh<Key>) returns (r: Mesh<Key>)
    requires t.Valid() && |corners| == 8 && |vals| == 8 && Dense(mesh.vs)
    ensures r == CubeMesh(t, corners, vals, mesh)
  {
    var tri := GetTriangles(t, corners, vals, CubeIsolevel);
    var welded, _ := WeldPoints(mesh.vs, CornerKeys(corners, vals, CubeIsolevel));
    r := Mesh(welded, mesh.fs);
    if tri.Surface? {
      r := AddTriangles(r, Tagged(tri.triangles));
    }
    CubeMeshSteps(t, corners, vals, mesh, tri, welded);
  }

  /** The innermost loop `for k in range(step_z)` on the dictionary's contents:
      the cube of each cell is kept if no cube was kept at its corner-0 position
      yet. */
  method CollectRow(lat: Lattice, delta: real, i: nat, j: nat, nz: nat, kept: (seq<IPos>, map<IPos, seq<Point>>))
    returns (kept': (seq<IPos>, map<IPos, seq<Point>>))
    requires i < |lat.xs| && j < |lat.ys| && nz <= |lat.zs|
    ensures kept' == RowFrom(lat, delta, kept, i, j, nz)
  {
    kept' := kept;
    for k := 0 to nz
      invariant kept' == RowFrom(lat, delta, kept, i, j, k)
    {
      var corners := Corners(Point(lat.xs[i], lat.ys[j], lat.zs[k]), delta);
      var key := GridPositions(corners)[0];
      if key !in kept'.1 {
        kept' := (kept'.0 + [key], kept'.1[key := corners]);
      }
    }
  }

  /** The middle loop `for j in range(step_y)`. */
  method CollectSlab(lat: Lattice, delta: real, i: nat, ny: nat, nz: nat, kept: (seq<IPos>, map<IPos, seq<Point>>))
    returns (kept': (seq<IPos>, map<IPos, seq<Point>>))
    requires i < |lat.xs| && ny <= |lat.ys| && nz <= |lat.zs|
    ensures kept' == SlabFrom(lat, delta, kept, i, ny, nz)
  {
    kept' := kept;
    for j := 0 to ny
      invariant kept' == SlabFrom(lat, delta, kept, i, j, nz)
    {
      kept' := CollectRow(lat, delta, i, j, nz, kept');
    }
  }

  /** The three nested loops of the driver over every lattice point, from an
      empty dictionary: the positions in insertion order and the corners of the
      first cube seen at each. */
  method CollectBox(lat: Lattice, delta: real) returns (kept: (seq<IPos>, map<IPos, seq<Point>>))
    ensures kept == FirstSeen(Entries(lat, delta, CellsX(|lat.xs|, |lat.ys|, |lat.zs|)))
  {
    kept := ([], map[]);
    for i := 0 to |lat.xs|
      invariant kept == BoxFrom(lat, delta, ([], map[]), i, |lat.ys|, |lat.zs|)
    {
      kept := CollectSlab(lat, delta, i, |lat.ys|, |lat.zs|, kept);
    }
    BoxFromIsKeptFrom(lat, delta, ([], map[]), |lat.xs|, |lat.ys|, |lat.zs|);
    KeptFromIsFirstSeen(lat, delta, CellsX(|lat.xs|, |lat.ys|, |lat.zs|));
  }

  /** `c = Cube(voxel_per_edge); c.set_cube(cube_corners); dict[key] = c` for
      each kept position in insertion order. */
  method MakeCubes(f: Point -> real, vpe: int, order: seq<IPos>, corners: map<IPos, seq<Point>>)
    returns (cubes: map<IPos, Cube>)
    requires forall p :: p in order ==> p in corners
    ensures forall p :: p in cubes <==> p in order
    ensures forall p :: p in cubes ==> fresh(cubes[p]) && cubes[p].Unmarched(f, vpe, corners[p])
  {
    cubes := map[];
    for n := 0 to |order|
      invariant forall p :: p in cubes <==> p in order[..n]
      invariant forall p :: p in cubes ==> fresh(cubes[p]) && cubes[p].Unmarched(f, vpe, corners[p])
    {
      var key := order[n];
      var cube := new Cube(f, vpe);
      cube.SetCube(corners[key]);
      cubes := cubes[key := cube];
      assert order[..n + 1] == order[..n] + [key];
    }
    assert order[..|order|] == order;
  }

  /** The driver's dictionary: one unmarched `Cube` for each position kept by the
      nested loops, holding the corners of the first cube seen there. */
  method CollectCubes(f: Point -> real, vpe: int, lat: Lattice, delta: real)
    returns (order: seq<IPos>, cubes: map<IPos, Cube>)
    ensures Collected(f, vpe, order, cubes, FirstSeen(Entries(lat, delta, CellsX(|lat.xs|, |lat.ys|, |lat.zs|))))
    ensures forall p :: p in cubes ==> fresh(cubes[p])
  {
    var kept := CollectBox(lat, delta);
    FirstSeenKeys(Entries(lat, delta, CellsX(|lat.xs|, |lat.ys|, |lat.zs|)));
    order := kept.0;
    cubes := MakeCubes(f, vpe, order, kept.1);
  }

  /** `cube.marching_cube(True)` on a cube fresh from `set_cube`, without the file
      output: the cube ends up marched into its own dictionary. */
  method MarchCube(t: Tables, f: Point -> real, vpe: int, cube: Cube, ghost corners: seq<Point>)
    requires t.Valid() && |corners| == 8 && cube.Unmarched(f, vpe, corners)
    modifies cube`cornerValues, cube`vs, cube`fs
    ensures cube.Marched(t, f, vpe, corners)
  {
    cube.MarchingCube(t);
  }

  /** `for key, cube in cubes.items(): cube.marching_cube(True)`, without the file
      output: every kept cube is marched once, each into its own dictionary. */
  method MarchAll(t: Tables, f: Point -> real, vpe: int, order: seq<IPos>, cubes: map<IPos, Cube>, ghost corners: map<IPos, seq<Point>>)
    requires t.Valid() && Distinct(order)
    requires forall a :: 0 <= a < |order| ==> order[a] in cubes && order[a] in corners
    requires forall a :: 0 <= a < |order| ==>
      |corners[order[a]]| == 8 && GridPositions(corners[order[a]])[0] == order[a] && cubes[order[a]].Unmarched(f, vpe, corners[order[a]])
    modifies cubes.Values
    ensures forall a :: 0 <= a < |order| ==> cubes[order[a]].Marched(t, f, vpe, corners[order[a]])
  {
    KeptCubesDistinct(f, vpe, order, cubes, corners);
    for n := 0 to |order|
      invariant forall a :: 0 <= a < n ==> cubes[order[a]].Marched(t, f, vpe, corners[order[a]])
      invariant forall a :: n <= a < |order| ==> cubes[order[a]].Unmarched(f, vpe, corners[order[a]])
    {
      MarchCube(t, f, vpe, cubes[order[n]], corners[order[n]]);
    }
  }

  /** Unmarched cubes at distinct positions, each knowing its own corner-0
      position, are distinct objects. */
  lemma KeptCubesDistinct(f: Point -> real, vpe: int, order: seq<IPos>, cubes: map<IPos, Cube>, corners: map<IPos, seq<Point>>)
    requires Distinct(order)
    requires forall a :: 0 <= a < |order| ==> order[a] in cubes && order[a] in corners
    requires forall a :: 0 <= a < |order| ==>
      |corners[order[a]]| == 8 && GridPositions(corners[order[a]])[0] == order[a] && cubes[order[a]].Unmarched(f, vpe, corners[order[a]])
    ensures forall a, b :: 0 <= a < |order| && 0 <= b < |order| && a != b ==> cubes[order[a]] != cubes[order[b]]
  {
    forall a, b | 0 <= a < |order| && 0 <= b < |order| && a != b ensures cubes[order[a]] != cubes[order[b]] {
      if a < b {
        assert At(order, a) != At(order, b);
      } else {
        assert At(order, b) != At(order, a);
      }
      assert cubes[order[a]].cubeCornerPos.value[0] == order[a];
    }
  }

  /** One experiment of the driver: the lattice of `get_bbox` with the slack, one
      cube per lattice point, the first cube at each corner-0 position kept, and
      every kept cube marched. None where `delta = voxel_per_edge *
      meter_per_voxel` is zero and the division in `get_bbox` raises. */
  method Experiment(t: Tables, f: Point -> real, vpe: int, xr: (real, real), yr: (real, real), zr: (real, real))
    returns (r: Option<(seq<IPos>, map<IPos, Cube>)>)
    requires t.Valid()
    ensures r.None? <==> vpe == 0
    ensures r.Some? ==>
      var delta := vpe as real * MeterPerVoxel;
      var lat := GetBBox(xr, yr, zr, delta, CubeSlack).value;
      var kept := FirstSeen(Entries(lat, delta, CellsX(|lat.xs|, |lat.ys|, |lat.zs|)));
      r.value.0 == kept.0 && r.value.1.Keys == kept.1.Keys &&
      forall p :: p in r.value.1 ==> fresh(r.value.1[p]) && r.value.1[p].Marched(t, f, vpe, kept.1[p])
  {
    var delta := vpe as real * MeterPerVoxel;
    var box := GetBBox(xr, yr, zr, delta, CubeSlack);
    if box.None? {
      return None;
    }
    var lat := box.value;
    var order, cubes := CollectCubes(f, vpe, lat, delta);
    ghost var es := Entries(lat, delta, CellsX(|lat.xs|, |lat.ys|, |lat.zs|));
    ghost var kept := FirstSeen(es);
    FirstSeenKeys(es);
    KeptCubesKeyed(es);
    assert forall a :: 0 <= a < |order| ==> order[a] in cubes && order[a] in kept.1 by {
      forall a | 0 <= a < |order| ensures order[a] in kept.1 {
        assert order[a] in kept.0;
      }
    }
    MarchAll(t, f, vpe, order, cubes, kept.1);
    forall p | p in cubes ensures cubes[p].Marched(t, f, vpe, kept.1[p]) {
      var a :| 0 <= a < |order| && order[a] == p;
    }
    r := Some((order, cubes));
  }

  /** Every kept cube has eight corners, and its rounded corner 0 is its key. */
  lemma KeptCubesKeyed(es: seq<(IPos, seq<Point>)>)
    requires forall n :: 0 <= n < |es| ==> |es[n].1| == 8 && es[n].0 == GridPositions(es[n].1)[0]
    ensures forall p :: p in FirstSeen(es).1 ==> |FirstSeen(es).1[p]| == 8 && GridPositions(FirstSeen(es).1[p])[0] == p
  {
    FirstSeenValues(es);
    forall p | p in FirstSeen(es).1 ensures |FirstSeen(es).1[p]| == 8 && GridPositions(FirstSeen(es).1[p])[0] == p {
      var n :| 0 <= n < |es| && es[n] == (p, FirstSeen(es).1[p]);
    }
  }

  /** When every cell is on the lattice, each contributes its cube entry. */
  lemma {:induction false} AllEntries(lat: Lattice, delta: real, cells: seq<Cell>)
    requires forall n :: 0 <= n < |cells| ==> InLattice(lat, cells[n])
    ensures Entries(lat, delta, cells) == seq(|cells|, n requires 0 <= n < |cells| => CubeEntry(lat, delta, cells[n]))
  {
    if cells != [] {
      var init := cells[..|cells| - 1];
      AllEntries(lat, delta, init);
    }
  }

  /** A cube's corner 0 is its lattice point. */
  lemma CubeEntryKey(lat: Lattice, delta: real, c: Cell)
    requires InLattice(lat, c)
    ensures CubeEntry(lat, delta, c).0 == GridPos(Base(lat, c))
  {
    assert Corners(Base(lat, c), delta)[0] == Base(lat, c);
  }

  /** Keys a + s * i, b + s * j, c + s * k with a positive stride s tell cells apart. */
  lemma StridedKeyInjective(a: int, b: int, c: int, s: int, p: Cell, q: Cell)
    requires s >= 1
    ensures IPos(a + s * p.i, b + s * p.j, c + s * p.k) == IPos(a + s * q.i, b + s * q.j, c + s * q.k) ==> p == q
  {
    MulCancel(s, p.i, q.i);
    MulCancel(s, p.j, q.j);
    MulCancel(s, p.k, q.k);
  }

  lemma MulCancel(s: int, x: int, y: int)
    requires s >= 1
    ensures s * x == s * y ==> x == y
  {
    if x < y {
      assert s * y == s * x + s * (y - x);
    } else if y < x {
      assert s * x == s * y + s * (x - y);
    }
  }

  /** When the cells are the loop's cells and their keys are their indices scaled
      by a stride s >= 1 and shifted by (a, b, c), no two share a key, so every
      entry is kept. */
  lemma ShiftedKeysKept(es: seq<(IPos, seq<Point>)>, cells: seq<Cell>, nx: nat, ny: nat, nz: nat, a: int, b: int, c: int, s: int)
    requires s >= 1 && cells == CellsX(nx, ny, nz) && |es| == |cells|
    requires forall n :: 0 <= n < |es| ==> es[n].0 == IPos(a + s * cells[n].i, b + s * cells[n].j, c + s * cells[n].k)
    ensures |FirstSeen(es).0| == |es|
    ensures forall n :: 0 <= n < |es| ==> FirstSeen(es).0[n] == es[n].0
  {
    CellsOrder(nx, ny, nz);
    forall m, n | 0 <= m < n < |es| ensures es[m].0 != es[n].0 {
      assert Rank(cells[m], ny, nz) == m && Rank(cells[n], ny, nz) == n;
      StridedKeyInjective(a, b, c, s, cells[m], cells[n]);
    }
    FirstSeenAllKept(es);
  }

  /** On a lattice whose coordinates are the whole multiples a + s * t, b + s * t,
      c + s * t of `meter_per_voxel`, each cell's key is its indices scaled by s
      and shifted by (a, b, c). */
  lemma AlignedEntryKeys(lat: Lattice, delta: real, cells: seq<Cell>, a: int, b: int, c: int, s: int)
    requires forall n :: 0 <= n < |cells| ==> InLattice(lat, cells[n])
    requires forall t :: 0 <= t < |lat.xs| ==> lat.xs[t] == (a + s * t) as real * MeterPerVoxel
    requires forall t :: 0 <= t < |lat.ys| ==> lat.ys[t] == (b + s * t) as real * MeterPerVoxel
    requires forall t :: 0 <= t < |lat.zs| ==> lat.zs[t] == (c + s * t) as real * MeterPerVoxel
    ensures |Entries(lat, delta, cells)| == |cells|
    ensures forall n :: 0 <= n < |cells| ==>
      Entries(lat, delta, cells)[n].0 == IPos(a + s * cells[n].i, b + s * cells[n].j, c + s * cells[n].k)
  {
    AllEntries(lat, delta, cells);
    forall n | 0 <= n < |cells|
      ensures Entries(lat, delta, cells)[n].0 == IPos(a + s * cells[n].i, b + s * cells[n].j, c + s * cells[n].k)
    {
      CubeEntryKey(lat, delta, cells[n]);
      GridPosOnLattice(a + s * cells[n].i, b + s * cells[n].j, c + s * cells[n].k);
    }
  }

  /** On such a lattice with s >= 1 no two cells share a corner-0 position, so the
      driver keeps one cube per cell, in loop order. */
  lemma AlignedKeepsEveryCube(lat: Lattice, delta: real, a: int, b: int, c: int, s: int, cells: seq<Cell>, kept: seq<IPos>)
    requires s >= 1
    requires forall t :: 0 <= t < |lat.xs| ==> lat.xs[t] == (a + s * t) as real * MeterPerVoxel
    requires forall t :: 0 <= t < |lat.ys| ==> lat.ys[t] == (b + s * t) as real * MeterPerVoxel
    requires forall t :: 0 <= t < |lat.zs| ==> lat.zs[t] == (c + s * t) as real * MeterPerVoxel
    requires cells == CellsX(|lat.xs|, |lat.ys|, |lat.zs|) && kept == FirstSeen(Entries(lat, delta, cells)).0
    ensures |kept| == |cells|
    ensures forall n :: 0 <= n < |cells| ==> kept[n] == IPos(a + s * cells[n].i, b + s * cells[n].j, c + s * cells[n].k)
  {
    CellsMembership(|lat.xs|, |lat.ys|, |lat.zs|);
    assert forall n :: 0 <= n < |cells| ==> cells[n] in cells;
    AlignedEntryKeys(lat, delta, cells, a, b, c, s);
    ShiftedKeysKept(Entries(lat, delta, cells), cells, |lat.xs|, |lat.ys|, |lat.zs|, a, b, c, s);
  }

  /** The same in terms of cells: the cube of each cell is kept at the cell's rank. */
  lemma AlignedKeptByRank(lat: Lattice, delta: real, a: int, b: int, c: int, s: int, kept: seq<IPos>)
    requires s >= 1
    requires forall t :: 0 <= t < |lat.xs| ==> lat.xs[t] == (a + s * t) as real * MeterPerVoxel
    requires forall t :: 0 <= t < |lat.ys| ==> lat.ys[t] == (b + s * t) as real * MeterPerVoxel
    requires forall t :: 0 <= t < |lat.zs| ==> lat.zs[t] == (c + s * t) as real * MeterPerVoxel
    requires kept == FirstSeen(Entries(lat, delta, CellsX(|lat.xs|, |lat.ys|, |lat.zs|))).0
    ensures |kept| == |lat.xs| * (|lat.ys| * |lat.zs|)
    ensures forall cell :: Within(cell, |lat.xs|, |lat.ys|, |lat.zs|) ==>
      Rank(cell, |lat.ys|, |lat.zs|) < |kept| && kept[Rank(cell, |lat.ys|, |lat.zs|)] == IPos(a + s * cell.i, b + s * cell.j, c + s * cell.k)
  {
    var cells := CellsX(|lat.xs|, |lat.ys|, |lat.zs|);
    AlignedKeepsEveryCube(lat, delta, a, b, c, s, cells, kept);
    CellsOrder(|lat.xs|, |lat.ys|, |lat.zs|);
    forall cell | Within(cell, |lat.xs|, |lat.ys|, |lat.zs|)
      ensures Rank(cell, |lat.ys|, |lat.zs|) < |kept| && kept[Rank(cell, |lat.ys|, |lat.zs|)] == IPos(a + s * cell.i, b + s * cell.j, c + s * cell.k)
    {
      var n := Rank(cell, |lat.ys|, |lat.zs|);
      assert n < |cells| && cells[n] == cell;
    }
  }

  /** The corner of the driver's experiments, `origin = [-1.6, -0.6, 0.0]`. */
  const ExperimentOrigin: Point := Point(-1.6, -0.6, 0.0)

  /** The lattice of the first experiment: two points along x, one along y and z,
      at the multiples -16 + 2t, -6 and 0 of `meter_per_voxel`. */
  lemma TwoLargeLattice()
    ensures var delta := 2 as real * MeterPerVoxel;
      var lat := GetBBox((ExperimentOrigin.x, ExperimentOrigin.x + delta), (ExperimentOrigin.y, ExperimentOrigin.y), (ExperimentOrigin.z, ExperimentOrigin.z), delta, CubeSlack).value;
      |lat.xs| == 2 && |lat.ys| == 1 && |lat.zs| == 1 &&
      (forall t :: 0 <= t < |lat.xs| ==> lat.xs[t] == (-16 + 2 * t) as real * MeterPerVoxel) &&
      (forall t :: 0 <= t < |lat.ys| ==> lat.ys[t] == (-6 + 2 * t) as real * MeterPerVoxel) &&
      (forall t :: 0 <= t < |lat.zs| ==> lat.zs[t] == (0 + 2 * t) as real * MeterPerVoxel)
  {
    var delta := 2 as real * MeterPerVoxel;
    ExactMultipleAxis(ExperimentOrigin.x, delta, 1, CubeSlack);
    ExactMultipleAxis(ExperimentOrigin.y, delta, 0, CubeSlack);
    ExactMultipleAxis(ExperimentOrigin.z, delta, 0, CubeSlack);
    assert ExperimentOrigin.x + 1 as real * delta == ExperimentOrigin.x + delta;
    assert ExperimentOrigin.y + 0 as real * delta == ExperimentOrigin.y && ExperimentOrigin.z + 0 as real * delta == ExperimentOrigin.z;
  }

  /** The first experiment: `voxel_per_edge = 2` over `x_range = (ox, ox + delta)`
      and single-point y and z ranges gives two cubes, at positions -16 and -14 along x. */
  lemma TwoLargeCubesKept()
    ensures var delta := 2 as real * MeterPerVoxel;
      var lat := GetBBox((ExperimentOrigin.x, ExperimentOrigin.x + delta), (ExperimentOrigin.y, ExperimentOrigin.y), (ExperimentOrigin.z, ExperimentOrigin.z), delta, CubeSlack).value;
      FirstSeen(Entries(lat, delta, CellsX(|lat.xs|, |lat.ys|, |lat.zs|))).0 == [IPos(-16, -6, 0), IPos(-14, -6, 0)]
  {
    TwoLargeLattice();
    var delta := 2 as real * MeterPerVoxel;
    var lat := GetBBox((ExperimentOrigin.x, ExperimentOrigin.x + delta), (ExperimentOrigin.y, ExperimentOrigin.y), (ExperimentOrigin.z, ExperimentOrigin.z), delta, CubeSlack).value;
    var cells := CellsX(|lat.xs|, |lat.ys|, |lat.zs|);
    var kept := FirstSeen(Entries(lat, delta, cells)).0;
    AlignedKeepsEveryCube(lat, delta, -16, -6, 0, 2, cells, kept);
    assert cells == [Cell(0, 0, 0), Cell(1, 0, 0)];
    assert kept == [IPos(-16, -6, 0), IPos(-14, -6, 0)];
  }
}
