/** One voxel's pass through the engine: case classification, edge-cut
    selection, canonicalising edge interpolation and triangle extraction.
    These helpers appear verbatim in all three source files of the engine. */
module Voxel {
  import opened Optional
  import opened Geometry
  import opened Bits
  import opened Lookup

  /** An edge whose two samples differ by at most this much is degenerate. */
  const Tolerance: real := 0.00001

  /** The zero row `np.zeros((12, 3))` leaves in `cuts`. */
  const Origin: Point := Point(0.0, 0.0, 0.0)

  // ---------------------------------------------------------------- classification

  /** A corner is inside when its sample lies strictly below the isolevel. */
  predicate Inside(v: real, iso: real) { v < iso }

  /** Σ 2^i over the corners i < n that are inside. */
  function InsideSum(vals: seq<real>, iso: real, n: nat): nat
    requires n <= |vals|
  {
    if n == 0 then 0
    else InsideSum(vals, iso, n - 1) + (if Inside(vals[n - 1], iso) then Pow2(n - 1) else 0)
  }

  lemma {:induction false} InsideSumBound(vals: seq<real>, iso: real, n: nat)
    requires n <= |vals|
    ensures InsideSum(vals, iso, n) < Pow2(n)
  {
    if n > 0 {
      InsideSumBound(vals, iso, n - 1);
    }
  }

  /** `get_topology`: the 8-bit case index, or None where the source's
      `assert len(gridval) == 8` fails. */
  function Topology(vals: seq<real>, iso: real): (r: Option<nat>)
    ensures r.Some? <==> |vals| == 8
    ensures r.Some? ==> r.value < 256
  {
    if |vals| != 8 then None
    else
      InsideSumBound(vals, iso, 8);
      Some(InsideSum(vals, iso, 8))
  }

  /** The case index of a voxel with its 8 samples. */
  function CaseIndex(vals: seq<real>, iso: real): (c: nat)
    requires |vals| == 8
    ensures Topology(vals, iso) == Some(c) && c < 256
  {
    Topology(vals, iso).value
  }

  lemma {:induction false} InsideSumBits(vals: seq<real>, iso: real, n: nat, i: nat)
    requires n <= |vals|
    ensures Bit(InsideSum(vals, iso, n), i) <==> i < n && Inside(vals[i], iso)
  {
    if n == 0 {
      NoBitAtOrAbove(0, 0, i);
    } else {
      var prev := InsideSum(vals, iso, n - 1);
      InsideSumBound(vals, iso, n - 1);
      if Inside(vals[n - 1], iso) {
        if i < n - 1 {
          BitAddHigh(prev, n - 1, i);
          InsideSumBits(vals, iso, n - 1, i);
        } else if i == n - 1 {
          BitAtTop(prev, n - 1);
        } else {
          assert prev + Pow2(n - 1) < Pow2(n);
          NoBitAtOrAbove(prev + Pow2(n - 1), n, i);
        }
      } else {
        if i < n - 1 {
          InsideSumBits(vals, iso, n - 1, i);
        } else {
          NoBitAtOrAbove(prev, n - 1, i);
        }
      }
    }
  }

  /** Bit i of the case index is set exactly when corner i is inside. */
  lemma TopologyBits(vals: seq<real>, iso: real)
    requires |vals| == 8
    ensures forall i :: 0 <= i < 8 ==> (Bit(CaseIndex(vals, iso), i) <==> Inside(vals[i], iso))
  {
    forall i | 0 <= i < 8 ensures Bit(CaseIndex(vals, iso), i) <==> Inside(vals[i], iso) {
      InsideSumBits(vals, iso, 8, i);
    }
  }

  /** Two voxels get the same case index exactly when the same corners are inside. */
  lemma TopologyDeterminedByInside(vals: seq<real>, vals': seq<real>, iso: real)
    requires |vals| == 8 && |vals'| == 8
    ensures CaseIndex(vals, iso) == CaseIndex(vals', iso)
        <==> forall i :: 0 <= i < 8 ==> (Inside(vals[i], iso) <==> Inside(vals'[i], iso))
  {
    TopologyBits(vals, iso);
    TopologyBits(vals', iso);
    if forall i :: 0 <= i < 8 ==> (Inside(vals[i], iso) <==> Inside(vals'[i], iso)) {
      assert Pow2(8) == 256;
      BitsDetermine(CaseIndex(vals, iso), CaseIndex(vals', iso), 8);
    }
  }

  /** All corners outside gives case 0, all corners inside case 255. */
  lemma {:induction false} InsideSumUniform(vals: seq<real>, iso: real, n: nat)
    requires n <= |vals|
    ensures (forall i :: 0 <= i < n ==> !Inside(vals[i], iso)) ==> InsideSum(vals, iso, n) == 0
    ensures (forall i :: 0 <= i < n ==> Inside(vals[i], iso)) ==> InsideSum(vals, iso, n) == Pow2(n) - 1
  {
    if n > 0 {
      InsideSumUniform(vals, iso, n - 1);
    }
  }

  lemma TopologyExtremes(vals: seq<real>, iso: real)
    requires |vals| == 8
    ensures (forall i :: 0 <= i < 8 ==> !Inside(vals[i], iso)) ==> CaseIndex(vals, iso) == 0
    ensures (forall i :: 0 <= i < 8 ==> Inside(vals[i], iso)) ==> CaseIndex(vals, iso) == 255
  {
    InsideSumUniform(vals, iso, 8);
    assert Pow2(8) == 256;
  }

  // ---------------------------------------------------------------- interpolation

  /** `vertex_interpolate`: the pair is first put in canonical order (swapped when
      some coordinate of p1 exceeds p2's); a degenerate edge yields the first point,
      any other the linear crossing `p1 + (p2 - p1) * (iso - v1) / (v2 - v1)`. */
  function Interpolate(p1: Point, p2: Point, v1: real, v2: real, iso: real): (r: Point)
    ensures Abs(v1 - v2) <= Tolerance ==> r == p1 || r == p2
    ensures p1 == p2 ==> r == p1
  {
    var (a, b, va, vb) := if AnyGreater(p1, p2) then (p2, p1, v2, v1) else (p1, p2, v1, v2);
    if Abs(va - vb) > Tolerance then Lerp(a, b, (iso - va) / (vb - va)) else a
  }

  /** A degenerate edge yields the canonical first point. */
  lemma InterpolateDegenerate(p1: Point, p2: Point, v1: real, v2: real, iso: real)
    requires Abs(v1 - v2) <= Tolerance
    ensures Interpolate(p1, p2, v1, v2, iso) == if AnyGreater(p1, p2) then p2 else p1
  {
  }

  lemma CrossingFractionReverse(v1: real, v2: real, iso: real)
    requires v1 != v2
    ensures (iso - v2) / (v1 - v2) == 1.0 - (iso - v1) / (v2 - v1)
  {
    var d := v2 - v1;
    var t := (iso - v1) / d;
    assert t * d == iso - v1;
    var s := (iso - v2) / (v1 - v2);
    assert s * (v1 - v2) == iso - v2;
    assert (1.0 - t) * (v1 - v2) == iso - v2;
    assert (s - (1.0 - t)) * (v1 - v2) == 0.0;
    ProductZero(s - (1.0 - t), v1 - v2);
  }

  lemma ProductZero(a: real, b: real)
    requires a * b == 0.0 && b != 0.0
    ensures a == 0.0
  {
  }

  /** Off the degenerate branch the result is the linear crossing from p1 towards p2,
      whichever way the swap went. */
  lemma InterpolateCrossing(p1: Point, p2: Point, v1: real, v2: real, iso: real)
    requires Abs(v1 - v2) > Tolerance
    ensures Interpolate(p1, p2, v1, v2, iso) == Lerp(p1, p2, (iso - v1) / (v2 - v1))
  {
    if AnyGreater(p1, p2) {
      CrossingFractionReverse(v1, v2, iso);
      LerpReverse(p1, p2, (iso - v1) / (v2 - v1));
    }
  }

  /** The canonical order makes the cut point independent of the order in which a
      voxel names the ends of an edge whose ends are pointwise comparable. */
  lemma InterpolateOrderIndependent(p1: Point, p2: Point, v1: real, v2: real, iso: real)
    requires Comparable(p1, p2)
    ensures Interpolate(p1, p2, v1, v2, iso) == Interpolate(p2, p1, v2, v1, iso)
  {
    if Abs(v1 - v2) > Tolerance {
      InterpolateCrossing(p1, p2, v1, v2, iso);
      InterpolateCrossing(p2, p1, v2, v1, iso);
      CrossingFractionReverse(v2, v1, iso);
      LerpReverse(p2, p1, (iso - v2) / (v1 - v2));
    } else {
      InterpolateDegenerate(p1, p2, v1, v2, iso);
      InterpolateDegenerate(p2, p1, v2, v1, iso);
    }
  }

  /** For two points that are not comparable the swap fires both ways, so a
      degenerate edge yields a point that depends on the argument order. */
  lemma IncomparableDegenerateEdgeDependsOnOrder()
    ensures var p, q := Point(1.0, 0.0, 0.0), Point(0.0, 1.0, 0.0);
      !Comparable(p, q) && Interpolate(p, q, 0.0, 0.0, 0.0) != Interpolate(q, p, 0.0, 0.0, 0.0)
  {
  }

  /** When the isolevel lies between the two samples, the cut point lies on the edge,
      at the fraction where the linearly interpolated field equals the isolevel. */
  lemma InterpolateOnSegment(p1: Point, p2: Point, v1: real, v2: real, iso: real)
    requires v1 <= iso <= v2 || v2 <= iso <= v1
    ensures OnSegment(p1, p2, Interpolate(p1, p2, v1, v2, iso))
    ensures Abs(v1 - v2) > Tolerance ==>
      var t := (iso - v1) / (v2 - v1);
      0.0 <= t <= 1.0 && v1 + t * (v2 - v1) == iso
  {
    if Abs(v1 - v2) > Tolerance {
      var t := (iso - v1) / (v2 - v1);
      CrossingFraction(v1, v2, iso);
      InterpolateCrossing(p1, p2, v1, v2, iso);
      assert Interpolate(p1, p2, v1, v2, iso) == Lerp(p1, p2, t);
    } else {
      EndpointsOnSegment(p1, p2);
      InterpolateDegenerate(p1, p2, v1, v2, iso);
    }
  }

  lemma CrossingFraction(v1: real, v2: real, iso: real)
    requires v1 != v2
    requires v1 <= iso <= v2 || v2 <= iso <= v1
    ensures var t := (iso - v1) / (v2 - v1);
      0.0 <= t <= 1.0 && v1 + t * (v2 - v1) == iso
  {
    var t := (iso - v1) / (v2 - v1);
    assert t * (v2 - v1) == iso - v1;
    if v1 < v2 {
      assert 0.0 <= iso - v1 <= v2 - v1;
    } else {
      var b := v1 - v2;
      assert t == (v1 - iso) / b;
      assert t * b == v1 - iso;
      assert 0.0 <= v1 - iso <= b;
    }
  }

  // ---------------------------------------------------------------- edge cuts

  /** Row i of `cuts`: the cut point of edge i when bit i of the mask is set,
      the zero row otherwise. */
  function CutRow(t: Tables, grid: seq<Point>, vals: seq<real>, mask: nat, iso: real, i: nat): (r: Point)
    requires t.Valid() && |grid| == 8 && |vals| == 8 && i < 12
    ensures !Bit(mask, i) ==> r == Origin
    ensures var (c1, c2) := t.edgeVertex[i];
      Bit(mask, i) && Inside(vals[c1], iso) != Inside(vals[c2], iso) ==> OnSegment(grid[c1], grid[c2], r)
  {
    if Bit(mask, i) then
      var (c1, c2) := t.edgeVertex[i];
      var p := Interpolate(grid[c1], grid[c2], vals[c1], vals[c2], iso);
      if Inside(vals[c1], iso) != Inside(vals[c2], iso) then
        InterpolateOnSegment(grid[c1], grid[c2], vals[c1], vals[c2], iso);
        p
      else p
    else Origin
  }

  /** The 12 cut rows of case c, or None when `EDGE_TABLE[c]` is 0. */
  function EdgeCuts(t: Tables, grid: seq<Point>, vals: seq<real>, c: nat, iso: real): (r: Option<seq<Point>>)
    requires t.Valid() && |grid| == 8 && |vals| == 8 && c < 256
    ensures r.None? <==> t.edgeTable[c] == 0
    ensures r.Some? ==> |r.value| == 12
  {
    if t.edgeTable[c] == 0 then None
    else Some(seq(12, i requires 0 <= i < 12 => CutRow(t, grid, vals, t.edgeTable[c], iso, i)))
  }

  /** None exactly on an empty mask; otherwise a row is written only for an edge whose
      bit is set, from that edge's two corners and their samples, and stays zero elsewhere. */
  lemma EdgeCutsRows(t: Tables, grid: seq<Point>, vals: seq<real>, c: nat, iso: real)
    requires t.Valid() && |grid| == 8 && |vals| == 8 && c < 256
    ensures EdgeCuts(t, grid, vals, c, iso).None? <==> t.edgeTable[c] == 0
    ensures EdgeCuts(t, grid, vals, c, iso).Some? ==>
      var cuts := EdgeCuts(t, grid, vals, c, iso).value;
      |cuts| == 12 &&
      forall i :: 0 <= i < 12 ==>
        var (c1, c2) := t.edgeVertex[i];
        cuts[i] == if Bit(t.edgeTable[c], i) then Interpolate(grid[c1], grid[c2], vals[c1], vals[c2], iso) else Origin
  {
  }

  /** `get_edge_cut`: fills the rows of a zeroed 12×3 buffer edge by edge. */
  method GetEdgeCut(t: Tables, grid: seq<Point>, vals: seq<real>, c: nat, iso: real) returns (cuts: Option<seq<Point>>)
    requires t.Valid() && |grid| == 8 && |vals| == 8 && c < 256
    ensures cuts == EdgeCuts(t, grid, vals, c, iso)
  {
    var edges := t.edgeTable[c];
    if edges == 0 {
      return None;
    }
    var rows := new Point[12](_ => Origin);
    for i := 0 to 12
      invariant forall j :: 0 <= j < 12 ==> rows[j] == if j < i then CutRow(t, grid, vals, edges, iso, j) else Origin
    {
      if Bit(edges, i) {
        var (p1, p2) := t.edgeVertex[i];
        rows[i] := Interpolate(grid[p1], grid[p2], vals[p1], vals[p2], iso);
      }
    }
    assert rows[..] == seq(12, i requires 0 <= i < 12 => CutRow(t, grid, vals, edges, iso, i));
    cuts := Some(rows[..]);
  }

  /** With the standard edge table every cut row lies on its edge. */
  lemma CutRowsOnEdges(t: Tables, grid: seq<Point>, vals: seq<real>, iso: real, e: nat)
    requires t.Valid() && t.CutsMatchCase() && |grid| == 8 && |vals| == 8 && e < 12
    requires Bit(t.edgeTable[CaseIndex(vals, iso)], e)
    ensures var (c1, c2) := t.edgeVertex[e];
      OnSegment(grid[c1], grid[c2], CutRow(t, grid, vals, t.edgeTable[CaseIndex(vals, iso)], iso, e))
  {
    var (c1, c2) := t.edgeVertex[e];
    TopologyBits(vals, iso);
    assert Inside(vals[c1], iso) != Inside(vals[c2], iso);
    InterpolateOnSegment(grid[c1], grid[c2], vals[c1], vals[c2], iso);
  }

  // ---------------------------------------------------------------- triangles

  /** A triple as `TRI_TABLE` holds it, entries usable as numpy row indices. */
  predicate TripleOk(triple: seq<int>) {
    |triple| == 3 && forall m :: 0 <= m < 3 ==> -12 <= triple[m] < 12
  }

  /** numpy row indexing, a negative index counting from the end. */
  function PyIndex<T>(s: seq<T>, e: int): T
    requires -|s| <= e < |s|
  {
    if e < 0 then s[|s| + e] else s[e]
  }

  /** `edge_cut[e]` for a triple e: the three rows it names. */
  function TriangleOf(triple: seq<int>, cuts: seq<Point>): (tri: seq<Point>)
    requires TripleOk(triple) && |cuts| == 12
    ensures |tri| == 3
  {
    [PyIndex(cuts, triple[0]), PyIndex(cuts, triple[1]), PyIndex(cuts, triple[2])]
  }

  /** `[edge_cut[e] for e in tri_edges if e[0] >= 0]`. */
  function Extract(ts: seq<seq<int>>, cuts: seq<Point>): (tris: seq<seq<Point>>)
    requires |cuts| == 12 && forall k :: 0 <= k < |ts| ==> TripleOk(ts[k])
    ensures forall n :: 0 <= n < |tris| ==> |tris[n]| == 3
    decreases |ts|
  {
    if ts == [] then []
    else
      var last := ts[|ts| - 1];
      assert TripleOk(last);
      Extract(ts[..|ts| - 1], cuts) + (if last[0] >= 0 then [TriangleOf(last, cuts)] else [])
  }

  /** The positions of the triples whose first entry is not negative, in order. */
  function Selected(ts: seq<seq<int>>): (s: seq<nat>)
    requires forall k :: 0 <= k < |ts| ==> TripleOk(ts[k])
    ensures forall a :: 0 <= a < |s| ==> s[a] < |ts|
    decreases |ts|
  {
    if ts == [] then []
    else
      assert TripleOk(ts[|ts| - 1]);
      Selected(ts[..|ts| - 1]) + (if ts[|ts| - 1][0] >= 0 then [|ts| - 1] else [])
  }

  /** `Selected` lists, in increasing order, exactly the positions whose first entry is not negative. */
  lemma {:induction false} SelectedSpec(ts: seq<seq<int>>)
    requires forall k :: 0 <= k < |ts| ==> TripleOk(ts[k])
    ensures var s := Selected(ts);
      (forall a, b :: 0 <= a < b < |s| ==> s[a] < s[b]) &&
      (forall a :: 0 <= a < |s| ==> s[a] < |ts|) &&
      (forall j :: 0 <= j < |ts| ==> (j in s <==> ts[j][0] >= 0))
  {
    if ts != [] {
      var init := ts[..|ts| - 1];
      SelectedSpec(init);
      forall j | 0 <= j < |ts| - 1 ensures ts[j] == init[j] { }
    }
  }

  /** Extraction emits, in table order, one triangle per selected triple. */
  lemma {:induction false} ExtractSelected(ts: seq<seq<int>>, cuts: seq<Point>)
    requires |cuts| == 12 && forall k :: 0 <= k < |ts| ==> TripleOk(ts[k])
    ensures var s, tris := Selected(ts), Extract(ts, cuts);
      |tris| == |s| && forall n :: 0 <= n < |s| ==> s[n] < |ts| && tris[n] == TriangleOf(ts[s[n]], cuts)
  {
    SelectedSpec(ts);
    if ts != [] {
      var init := ts[..|ts| - 1];
      ExtractSelected(init, cuts);
      SelectedSpec(init);
    }
  }

  /** What `get_triangles` returns: None, or the stacked triangles. */
  datatype Triangulation = NoSurface | Surface(triangles: seq<seq<Point>>)

  lemma TriplesOk(t: Tables, c: nat)
    requires t.Valid() && c < 256
    ensures forall k :: 0 <= k < |Triples(t.triTable[c])| ==> TripleOk(Triples(t.triTable[c])[k])
  {
  }

  function Triangulate(t: Tables, grid: seq<Point>, vals: seq<real>, iso: real): (r: Triangulation)
    requires t.Valid() && |grid| == 8 && |vals| == 8
    ensures r.Surface? ==> forall n :: 0 <= n < |r.triangles| ==> |r.triangles[n]| == 3
  {
    var c := CaseIndex(vals, iso);
    match EdgeCuts(t, grid, vals, c, iso)
    case None => NoSurface
    case Some(cuts) =>
      TriplesOk(t, c);
      Surface(Extract(Triples(t.triTable[c]), cuts))
  }

  /** `get_triangles`. */
  method GetTriangles(t: Tables, grid: seq<Point>, vals: seq<real>, iso: real) returns (r: Triangulation)
    requires t.Valid() && |grid| == 8 && |vals| == 8
    ensures r == Triangulate(t, grid, vals, iso)
  {
    var topId := Topology(vals, iso).value;
    var edgeCut := GetEdgeCut(t, grid, vals, topId, iso);
    if edgeCut.None? {
      return NoSurface;
    }
    TriplesOk(t, topId);
    var triEdges := Triples(t.triTable[topId]);
    r := Surface(Extract(triEdges, edgeCut.value));
  }

  /** No surface exactly when the case's mask is empty; otherwise one 3-point triangle
      per triple of the padded row whose first entry is not negative, in table order,
      each made of the cut rows that triple names, and at least one of them. */
  lemma TriangulateSpec(t: Tables, grid: seq<Point>, vals: seq<real>, iso: real)
    requires t.Valid() && |grid| == 8 && |vals| == 8
    ensures var c := CaseIndex(vals, iso);
      Triangulate(t, grid, vals, iso).NoSurface? <==> t.edgeTable[c] == 0
    ensures var c := CaseIndex(vals, iso);
      Triangulate(t, grid, vals, iso).Surface? ==>
        var ts, tris := Triples(t.triTable[c]), Triangulate(t, grid, vals, iso).triangles;
        var cuts := EdgeCuts(t, grid, vals, c, iso).value;
        |tris| == |Selected(ts)| && |tris| >= 1 &&
        (forall n :: 0 <= n < |tris| ==> |tris[n]| == 3 && tris[n] == TriangleOf(ts[Selected(ts)[n]], cuts))
  {
    var c := CaseIndex(vals, iso);
    if t.edgeTable[c] != 0 {
      var ts := Triples(t.triTable[c]);
      TriplesOk(t, c);
      ExtractSelected(ts, EdgeCuts(t, grid, vals, c, iso).value);
      SelectedSpec(ts);
      assert ts[0][0] >= 0;
      assert 0 in Selected(ts);
    }
  }

  /** With the standard tables a voxel whose corners are all outside, or all inside,
      (cases 0 and 255) produces no surface. */
  lemma UniformVoxelHasNoSurface(t: Tables, grid: seq<Point>, vals: seq<real>, iso: real)
    requires t.Valid() && t.CutsMatchCase() && |grid| == 8 && |vals| == 8
    requires forall i :: 0 <= i < 8 ==> (Inside(vals[i], iso) <==> Inside(vals[0], iso))
    ensures Triangulate(t, grid, vals, iso) == NoSurface
  {
    var c := CaseIndex(vals, iso);
    TopologyBits(vals, iso);
    forall e | 0 <= e < 12 ensures !Bit(t.edgeTable[c], e) {
      assert t.edgeVertex[e].0 < 8 && t.edgeVertex[e].1 < 8;
    }
    assert Pow2(12) == 4096;
    NoBitsIsZero(t.edgeTable[c], 12);
  }

  /** With the standard tables every vertex of every triangle lies on a cut edge of
      the voxel, between that edge's two corners. */
  lemma TriangleVerticesOnEdges(t: Tables, grid: seq<Point>, vals: seq<real>, iso: real, n: nat, m: nat)
    requires t.Valid() && t.CutsMatchCase() && t.TrianglesUseCutEdges() && |grid| == 8 && |vals| == 8
    requires Triangulate(t, grid, vals, iso).Surface?
    requires n < |Triangulate(t, grid, vals, iso).triangles| && m < 3
    ensures exists e :: (0 <= e < 12 && Bit(t.edgeTable[CaseIndex(vals, iso)], e) &&
      OnSegment(grid[t.edgeVertex[e].0], grid[t.edgeVertex[e].1], Triangulate(t, grid, vals, iso).triangles[n][m]))
  {
    var c := CaseIndex(vals, iso);
    var ts := Triples(t.triTable[c]);
    TriangulateSpec(t, grid, vals, iso);
    SelectedSpec(ts);
    var k := Selected(ts)[n];
    assert k in Selected(ts);
    var e := ts[k][m];
    assert e >= 0 && Bit(t.edgeTable[c], e as nat);
    CutRowsOnEdges(t, grid, vals, iso, e as nat);
  }
}
