/** Vertex welding: the insertion-ordered dictionary `vs` that gives each distinct
    key the next dense ID (`vs[v] = len(vs) + 1`), and the face list `fs` of ID
    lists. The same accumulation code appears in `march`, in the top-level walk
    of the root script and in `Cube.marching_cube`. */
module Weld {
  /** A Python dictionary: its keys in insertion order and the key → ID mapping. */
  datatype VertexMap<K(==)> = VertexMap(keys: seq<K>, ids: map<K, nat>)

  /** The accumulated mesh: the vertex dictionary and the faces. */
  datatype Mesh<K(==)> = Mesh(vs: VertexMap<K>, fs: seq<seq<nat>>)

  function EmptyMesh<K(==,!new)>(): Mesh<K> {
    Mesh(VertexMap([], map[]), [])
  }

  /** The ID the insertion-ordered dictionary gives each of `ks`, inserted in order. */
  function IdMap<K(==,!new)>(ks: seq<K>): (ids: map<K, nat>)
    ensures forall k :: k in ids ==> 1 <= ids[k] <= |ks|
    decreases |ks|
  {
    if ks == [] then map[]
    else
      var last := ks[|ks| - 1];
      var m := IdMap(ks[..|ks| - 1]);
      if last in m then m else m[last := |ks|]
  }

  /** `ks[a]` as a term of its own, so that `Distinct` is instantiated only where a
      proof names the two positions it compares. */
  ghost function At<K>(ks: seq<K>, a: nat): K
    requires a < |ks|
  {
    ks[a]
  }

  /** No key occurs twice. */
  ghost predicate Distinct<K(!new)>(ks: seq<K>) {
    forall a, b :: 0 <= a < b < |ks| ==> At(ks, a) != At(ks, b)
  }

  /** IDs are 1, 2, 3, … in first-insertion order, one per distinct key. */
  ghost predicate Dense<K(!new)>(vm: VertexMap<K>) {
    Distinct(vm.keys) && vm.ids == IdMap(vm.keys)
  }

  /** Every key already present is still present, with the same ID and position. */
  ghost predicate Extends<K(!new)>(vm: VertexMap<K>, vm': VertexMap<K>) {
    && |vm.keys| <= |vm'.keys|
    && vm'.keys[..|vm.keys|] == vm.keys
    && (forall p :: p in vm.ids ==> p in vm'.ids && vm'.ids[p] == vm.ids[p])
  }

  /** A face's IDs refer into the dictionary and name, in order, the given keys. */
  ghost predicate Decodes<K(!new)>(vm: VertexMap<K>, face: seq<nat>, pts: seq<K>) {
    |face| == |pts| && forall m :: 0 <= m < |face| ==> 1 <= face[m] <= |vm.keys| && vm.keys[face[m] - 1] == pts[m]
  }

  /** The mesh represents the triangle list `soup`: face k names the points of triangle k. */
  ghost predicate Faithful<K(!new)>(mesh: Mesh<K>, soup: seq<seq<K>>) {
    Dense(mesh.vs) && |mesh.fs| == |soup| && forall k :: 0 <= k < |soup| ==> Decodes(mesh.vs, mesh.fs[k], soup[k])
  }

  /** The mesh is the one welding `soup` triangle by triangle into an empty
      dictionary builds: it represents the soup, and its keys are the soup's
      distinct points in first-seen order, with nothing else. */
  ghost predicate Welded<K(!new)>(mesh: Mesh<K>, soup: seq<seq<K>>) {
    Faithful(mesh, soup) && mesh.vs.keys == NewKeys([], Flatten(soup))
  }

  /** The points of `ps` that are not among `seen`, each once, in the order of
      their first occurrence in `ps`. */
  function NewKeys<K(==)>(seen: seq<K>, ps: seq<K>): seq<K>
    decreases |ps|
  {
    if ps == [] then []
    else
      var n, last := NewKeys(seen, ps[..|ps| - 1]), ps[|ps| - 1];
      if last in seen || last in n then n else n + [last]
  }

  /** The triangles' points one after another. */
  function Flatten<K>(tris: seq<seq<K>>): seq<K> {
    if tris == [] then [] else Flatten(tris[..|tris| - 1]) + tris[|tris| - 1]
  }

  /** The position of the first occurrence of p in ps. */
  function FirstIndex<K(==)>(ps: seq<K>, p: K): (i: nat)
    requires p in ps
    ensures i < |ps| && ps[i] == p && forall j :: 0 <= j < i ==> ps[j] != p
  {
    if ps[0] == p then 0 else 1 + FirstIndex(ps[1..], p)
  }

  /** Appending a point leaves the first occurrences of earlier points alone and
      puts a point not seen before at the end. */
  lemma FirstIndexSnoc<K(!new)>(ps: seq<K>, x: K, p: K)
    requires p in ps + [x]
    ensures p in ps ==> FirstIndex(ps + [x], p) == FirstIndex(ps, p)
    ensures p !in ps ==> FirstIndex(ps + [x], p) == |ps|
  {
    var i := FirstIndex(ps + [x], p);
    if p in ps {
      var k := FirstIndex(ps, p);
      assert (ps + [x])[k] == p;
      assert i <= k;
      assert ps[i] == (ps + [x])[i];
    } else {
      assert (ps + [x])[|ps|] == p;
    }
  }

  /** NewKeys holds exactly the unseen points of ps, each once, ordered by where
      each first occurs in ps. */
  lemma {:induction false} NewKeysSpec<K(!new)>(seen: seq<K>, ps: seq<K>)
    ensures forall p :: p in NewKeys(seen, ps) <==> p in ps && p !in seen
    ensures Distinct(NewKeys(seen, ps))
    ensures forall a, b :: 0 <= a < b < |NewKeys(seen, ps)| ==>
      FirstIndex(ps, NewKeys(seen, ps)[a]) < FirstIndex(ps, NewKeys(seen, ps)[b])
  {
    if ps != [] {
      var init, x := ps[..|ps| - 1], ps[|ps| - 1];
      var n := NewKeys(seen, init);
      NewKeysSpec(seen, init);
      assert ps == init + [x];
      var r := NewKeys(seen, ps);
      forall p ensures p in r <==> p in ps && p !in seen {
        assert p in ps <==> p in init || p == x;
      }
      forall a | 0 <= a < |n| ensures FirstIndex(ps, n[a]) == FirstIndex(init, n[a]) {
        FirstIndexSnoc(init, x, n[a]);
      }
      if x !in seen && x !in n {
        assert r == n + [x];
        FirstIndexSnoc(init, x, x);
        forall a, b | 0 <= a < b < |r| ensures At(r, a) != At(r, b) {
          if b < |n| {
            assert At(n, a) != At(n, b);
          }
        }
        forall a, b | 0 <= a < b < |r| ensures FirstIndex(ps, r[a]) < FirstIndex(ps, r[b]) {
          assert r[a] == n[a];
          if b < |n| {
            assert r[b] == n[b];
          }
        }
      }
    }
  }

  /** Welding a + b adds a's new points, then b's points new after those. */
  lemma {:induction false} NewKeysAppend<K(!new)>(seen: seq<K>, a: seq<K>, b: seq<K>)
    ensures NewKeys(seen, a + b) == NewKeys(seen, a) + NewKeys(seen + NewKeys(seen, a), b)
  {
    if b == [] {
      assert a + b == a;
    } else {
      var init, x := b[..|b| - 1], b[|b| - 1];
      NewKeysAppend(seen, a, init);
      var ab := a + b;
      assert ab[..|ab| - 1] == a + init && ab[|ab| - 1] == x;
      var na := NewKeys(seen, a);
      var nb := NewKeys(seen + na, init);
      assert x in seen + na <==> x in seen || x in na;
      assert x in na + nb <==> x in na || x in nb;
      if !(x in seen + na || x in nb) {
        assert (na + nb) + [x] == na + (nb + [x]);
      }
    }
  }

  lemma {:induction false} FlattenAppend<K>(a: seq<seq<K>>, b: seq<seq<K>>)
    ensures Flatten(a + b) == Flatten(a) + Flatten(b)
  {
    if b == [] {
      assert a + b == a;
    } else {
      var init := b[..|b| - 1];
      FlattenAppend(a, init);
      var ab := a + b;
      assert ab[..|ab| - 1] == a + init && ab[|ab| - 1] == b[|b| - 1];
      assert (Flatten(a) + Flatten(init)) + b[|b| - 1] == Flatten(a) + (Flatten(init) + b[|b| - 1]);
    }
  }

  lemma EmptyMeshWelded<K(!new)>()
    ensures Welded(EmptyMesh<K>(), [])
  {
  }

  /** The mapped keys are exactly the inserted ones. */
  lemma {:induction false} IdMapDomain<K(!new)>(ks: seq<K>)
    ensures forall p :: p in IdMap(ks) <==> p in ks
  {
    if ks != [] {
      var init := ks[..|ks| - 1];
      IdMapDomain(init);
      assert ks == init + [ks[|ks| - 1]];
    }
  }

  /** Distinct keys get the IDs 1..|ks| by position. */
  lemma {:induction false} IdMapPositions<K(!new)>(ks: seq<K>)
    requires Distinct(ks)
    ensures forall a :: 0 <= a < |ks| ==> ks[a] in IdMap(ks) && IdMap(ks)[ks[a]] == a + 1
  {
    if ks != [] {
      var init, last := ks[..|ks| - 1], ks[|ks| - 1];
      assert Distinct(init) by {
        forall a, b | 0 <= a < b < |init| ensures At(init, a) != At(init, b) {
          assert At(ks, a) != At(ks, b);
        }
      }
      IdMapPositions(init);
      IdMapDomain(init);
      assert last !in init by {
        forall a | 0 <= a < |init| ensures init[a] != last {
          assert At(ks, a) != At(ks, |ks| - 1);
        }
      }
      assert IdMap(ks) == IdMap(init)[last := |ks|];
      forall a | 0 <= a < |ks| ensures ks[a] in IdMap(ks) && IdMap(ks)[ks[a]] == a + 1 {
        if a < |init| {
          assert ks[a] == init[a] && ks[a] != last;
        }
      }
    }
  }

  /** Distinct keys get the IDs 1..|ks| by position, and nothing else is mapped. */
  lemma {:induction false} IdMapSpec<K(!new)>(ks: seq<K>)
    requires Distinct(ks)
    ensures forall p :: p in IdMap(ks) <==> p in ks
    ensures forall a :: 0 <= a < |ks| ==> ks[a] in IdMap(ks) && IdMap(ks)[ks[a]] == a + 1
    ensures forall p :: p in IdMap(ks) ==> 1 <= IdMap(ks)[p] <= |ks| && ks[IdMap(ks)[p] - 1] == p
  {
    IdMapDomain(ks);
    IdMapPositions(ks);
    forall p | p in IdMap(ks) ensures 1 <= IdMap(ks)[p] <= |ks| && ks[IdMap(ks)[p] - 1] == p {
      var a :| 0 <= a < |ks| && ks[a] == p;
    }
  }

  /** In a dense dictionary the ID of a present key is its 1-based position. */
  lemma DenseLookup<K(!new)>(vm: VertexMap<K>, p: K)
    requires Dense(vm)
    ensures p in vm.ids <==> p in vm.keys
    ensures p in vm.ids ==> 1 <= vm.ids[p] <= |vm.keys| && vm.keys[vm.ids[p] - 1] == p
  {
    IdMapSpec(vm.keys);
  }

  lemma DecodesExtends<K(!new)>(vm: VertexMap<K>, vm': VertexMap<K>, face: seq<nat>, pts: seq<K>)
    requires Decodes(vm, face, pts) && Extends(vm, vm')
    ensures Decodes(vm', face, pts)
  {
    forall m | 0 <= m < |face| ensures vm'.keys[face[m] - 1] == pts[m] {
      assert vm'.keys[..|vm.keys|][face[m] - 1] == vm.keys[face[m] - 1];
    }
  }

  lemma DecodesSnoc<K(!new)>(vm: VertexMap<K>, face: seq<nat>, pts: seq<K>, id: nat)
    requires pts != [] && Decodes(vm, face, pts[..|pts| - 1])
    requires 1 <= id <= |vm.keys| && vm.keys[id - 1] == pts[|pts| - 1]
    ensures Decodes(vm, face + [id], pts)
  {
    forall m | 0 <= m < |face| ensures (face + [id])[m] == face[m] && pts[m] == pts[..|pts| - 1][m] {
    }
  }

  lemma ExtendsTransitive<K(!new)>(a: VertexMap<K>, b: VertexMap<K>, c: VertexMap<K>)
    requires Extends(a, b) && Extends(b, c)
    ensures Extends(a, c)
  {
    assert c.keys[..|a.keys|] == c.keys[..|b.keys|][..|a.keys|];
  }

  /** `if v not in vs: vs[v] = len(vs) + 1` followed by `vs[v]`: a key already present
      keeps its ID and leaves the dictionary alone; a new key is appended with the next ID. */
  function Insert<K(==,!new)>(vm: VertexMap<K>, p: K): (r: (VertexMap<K>, nat))
    requires Dense(vm)
    ensures Dense(r.0) && Extends(vm, r.0)
    ensures 1 <= r.1 <= |r.0.keys| && r.0.keys[r.1 - 1] == p && p in r.0.ids && r.0.ids[p] == r.1
    ensures p in vm.ids ==> r.0 == vm
    ensures p !in vm.ids ==> r.0.keys == vm.keys + [p]
    ensures forall q :: q in r.0.ids <==> q in vm.ids || q == p
  {
    DenseLookup(vm, p);
    if p in vm.ids then
      (vm, vm.ids[p])
    else
      var r := VertexMap(vm.keys + [p], vm.ids[p := |vm.keys| + 1]);
      InsertNew(vm, p);
      (r, |vm.keys| + 1)
  }

  /** Appending a new key with the next ID keeps the dictionary dense. */
  lemma InsertNew<K(!new)>(vm: VertexMap<K>, p: K)
    requires Dense(vm) && p !in vm.ids
    ensures Dense(VertexMap(vm.keys + [p], vm.ids[p := |vm.keys| + 1]))
    ensures Extends(vm, VertexMap(vm.keys + [p], vm.ids[p := |vm.keys| + 1]))
  {
    var keys := vm.keys + [p];
    DenseLookup(vm, p);
    forall a, b | 0 <= a < b < |keys| ensures At(keys, a) != At(keys, b) {
      assert keys[a] == vm.keys[a];
      if b < |vm.keys| {
        assert At(vm.keys, a) != At(vm.keys, b);
      }
    }
    assert keys[..|keys| - 1] == vm.keys;
    assert IdMap(keys) == vm.ids[p := |vm.keys| + 1];
    assert keys[..|vm.keys|] == vm.keys;
  }

  /** Welding the points of one triangle in order, collecting their IDs (`vid_list`). */
  function WeldAll<K(==,!new)>(vm: VertexMap<K>, ps: seq<K>): (r: (VertexMap<K>, seq<nat>))
    requires Dense(vm)
    ensures Dense(r.0) && Extends(vm, r.0)
    ensures Decodes(r.0, r.1, ps)
    decreases |ps|
  {
    if ps == [] then (vm, [])
    else
      var mid := WeldAll(vm, ps[..|ps| - 1]);
      var last := Insert(mid.0, ps[|ps| - 1]);
      WeldStep(vm, ps, mid.0, mid.1);
      (last.0, mid.1 + [last.1])
  }

  /** The step of WeldAll: all points but the last welded into `mid`, then the
      last inserted. */
  lemma WeldStep<K(!new)>(vm: VertexMap<K>, ps: seq<K>, mid: VertexMap<K>, ids: seq<nat>)
    requires ps != [] && Dense(mid) && Extends(vm, mid)
    requires Decodes(mid, ids, ps[..|ps| - 1])
    ensures var (vm', id) := Insert(mid, ps[|ps| - 1]);
      Extends(vm, vm') && Decodes(vm', ids + [id], ps)
  {
    var init, x := ps[..|ps| - 1], ps[|ps| - 1];
    var (vm', id) := Insert(mid, x);
    DenseLookup(mid, x);
    ExtendsTransitive(vm, mid, vm');
    DecodesExtends(mid, vm', ids, init);
    DecodesSnoc(vm', ids, ps, id);
  }

  /** Welding appends exactly the points not in the dictionary yet, each once, in
      the order of their first occurrence. */
  lemma {:induction false} WeldAllKeys<K(!new)>(vm: VertexMap<K>, ps: seq<K>)
    requires Dense(vm)
    ensures WeldAll(vm, ps).0.keys == vm.keys + NewKeys(vm.keys, ps)
    decreases |ps|
  {
    if ps == [] {
      assert vm.keys + [] == vm.keys;
    } else {
      var init, x := ps[..|ps| - 1], ps[|ps| - 1];
      WeldAllKeys(vm, init);
      var mid := WeldAll(vm, init).0;
      DenseLookup(mid, x);
      WeldKeysStep(vm.keys, NewKeys(vm.keys, init), x, mid.keys, Insert(mid, x).0.keys);
    }
  }

  /** The step of WeldAll's keys: inserting x after the points new so far. */
  lemma WeldKeysStep<K>(seen: seq<K>, n: seq<K>, x: K, keys: seq<K>, keys': seq<K>)
    requires keys == seen + n
    requires x in keys ==> keys' == keys
    requires x !in keys ==> keys' == keys + [x]
    ensures keys' == seen + (if x in seen || x in n then n else n + [x])
  {
    assert x in keys <==> x in seen || x in n;
    assert seen + n + [x] == seen + (n + [x]);
  }

  /** The loop `for v in t` of the welding code. */
  method WeldPoints<K(==,!new)>(vm: VertexMap<K>, ps: seq<K>) returns (vs: VertexMap<K>, vidList: seq<nat>)
    requires Dense(vm)
    ensures (vs, vidList) == WeldAll(vm, ps)
  {
    vs, vidList := vm, [];
    for i := 0 to |ps|
      invariant (vs, vidList) == WeldAll(vm, ps[..i])
    {
      WeldAllPrefix(vm, ps, i);
      var v := ps[i];
      if v !in vs.ids {
        vs := VertexMap(vs.keys + [v], vs.ids[v := |vs.keys| + 1]);
      }
      vidList := vidList + [vs.ids[v]];
    }
    assert ps[..|ps|] == ps;
  }

  /** Welding one more point of ps inserts it after the points before it. */
  lemma WeldAllPrefix<K(!new)>(vm: VertexMap<K>, ps: seq<K>, i: nat)
    requires Dense(vm) && i < |ps|
    ensures WeldAll(vm, ps[..i + 1]) ==
      var r := WeldAll(vm, ps[..i]);
      var l := Insert(r.0, ps[i]);
      (l.0, r.1 + [l.1])
  {
    assert ps[..i + 1][..i] == ps[..i];
  }

  /** Welding a list of triangles, one face per triangle appended in order. */
  function AddAll<K(==,!new)>(mesh: Mesh<K>, tris: seq<seq<K>>): (r: Mesh<K>)
    requires Dense(mesh.vs)
    ensures Dense(r.vs) && Extends(mesh.vs, r.vs)
    ensures |r.fs| == |mesh.fs| + |tris| && r.fs[..|mesh.fs|] == mesh.fs
    ensures forall k :: 0 <= k < |tris| ==> Decodes(r.vs, r.fs[|mesh.fs| + k], tris[k])
    decreases |tris|
  {
    if tris == [] then mesh
    else
      var m' := AddAll(mesh, tris[..|tris| - 1]);
      AddOneFace(mesh, tris, m');
      var (vs', face) := WeldAll(m'.vs, tris[|tris| - 1]);
      Mesh(vs', m'.fs + [face])
  }

  /** Welding a list of triangles appends exactly the points of the list not in
      the dictionary yet, each once, in the order of their first occurrence. */
  lemma {:induction false} AddAllKeys<K(!new)>(mesh: Mesh<K>, tris: seq<seq<K>>)
    requires Dense(mesh.vs)
    ensures AddAll(mesh, tris).vs.keys == mesh.vs.keys + NewKeys(mesh.vs.keys, Flatten(tris))
    decreases |tris|
  {
    if tris == [] {
      assert mesh.vs.keys + [] == mesh.vs.keys;
    } else {
      AddAllKeys(mesh, tris[..|tris| - 1]);
      var m' := AddAll(mesh, tris[..|tris| - 1]);
      WeldAllKeys(m'.vs, tris[|tris| - 1]);
      AddKeysStep(mesh.vs.keys, tris, m'.vs.keys, AddAll(mesh, tris).vs.keys);
    }
  }

  /** The step of AddAll's keys: the keys new in all triangles but the last,
      then those new in the last. */
  lemma AddKeysStep<K(!new)>(seen: seq<K>, tris: seq<seq<K>>, keys: seq<K>, keys': seq<K>)
    requires tris != []
    requires keys == seen + NewKeys(seen, Flatten(tris[..|tris| - 1]))
    requires keys' == keys + NewKeys(keys, tris[|tris| - 1])
    ensures keys' == seen + NewKeys(seen, Flatten(tris))
  {
    KeysStep(seen, Flatten(tris[..|tris| - 1]), tris[|tris| - 1], keys, keys');
  }

  /** The step of AddAll: a mesh `m'` built from all triangles but the last, and
      the last one welded into it. */
  lemma AddOneFace<K(!new)>(mesh: Mesh<K>, tris: seq<seq<K>>, m': Mesh<K>)
    requires tris != [] && Dense(m'.vs) && Extends(mesh.vs, m'.vs)
    requires |m'.fs| == |mesh.fs| + |tris| - 1 && m'.fs[..|mesh.fs|] == mesh.fs
    requires forall k {:trigger tris[..|tris| - 1][k]} :: 0 <= k < |tris| - 1 ==> Decodes(m'.vs, m'.fs[|mesh.fs| + k], tris[..|tris| - 1][k])
    ensures var (vs', face) := WeldAll(m'.vs, tris[|tris| - 1]);
      var fs := m'.fs + [face];
      Extends(mesh.vs, vs') &&
      |fs| == |mesh.fs| + |tris| && fs[..|mesh.fs|] == mesh.fs &&
      forall k :: 0 <= k < |tris| ==> Decodes(vs', fs[|mesh.fs| + k], tris[k])
  {
    var (vs', face) := WeldAll(m'.vs, tris[|tris| - 1]);
    AppendFace(mesh, tris, m', vs', face);
  }

  /** The faces of AddAll's step: the faces so far still decode in the larger
      dictionary, and the new face decodes to the last triangle. */
  lemma AppendFace<K(!new)>(mesh: Mesh<K>, tris: seq<seq<K>>, m': Mesh<K>, vs': VertexMap<K>, face: seq<nat>)
    requires tris != []
    requires Extends(mesh.vs, m'.vs) && Extends(m'.vs, vs') && Decodes(vs', face, tris[|tris| - 1])
    requires |m'.fs| == |mesh.fs| + |tris| - 1 && m'.fs[..|mesh.fs|] == mesh.fs
    requires forall k {:trigger tris[..|tris| - 1][k]} :: 0 <= k < |tris| - 1 ==> Decodes(m'.vs, m'.fs[|mesh.fs| + k], tris[..|tris| - 1][k])
    ensures Extends(mesh.vs, vs')
    ensures var fs := m'.fs + [face];
      |fs| == |mesh.fs| + |tris| && fs[..|mesh.fs|] == mesh.fs &&
      forall k :: 0 <= k < |tris| ==> Decodes(vs', fs[|mesh.fs| + k], tris[k])
  {
    var fs := m'.fs + [face];
    ExtendsTransitive(mesh.vs, m'.vs, vs');
    forall k | 0 <= k < |tris| ensures Decodes(vs', fs[|mesh.fs| + k], tris[k]) {
      if k < |tris| - 1 {
        assert fs[|mesh.fs| + k] == m'.fs[|mesh.fs| + k] && tris[..|tris| - 1][k] == tris[k];
        DecodesExtends(m'.vs, vs', m'.fs[|mesh.fs| + k], tris[k]);
      } else {
        assert fs[|mesh.fs| + k] == face;
      }
    }
    assert fs[..|mesh.fs|] == m'.fs[..|mesh.fs|];
  }

  /** The loop `for t in tri` of the welding code. */
  method AddTriangles<K(==,!new)>(mesh: Mesh<K>, tris: seq<seq<K>>) returns (r: Mesh<K>)
    requires Dense(mesh.vs)
    ensures r == AddAll(mesh, tris)
  {
    r := mesh;
    for n := 0 to |tris|
      invariant Dense(r.vs) && r == AddAll(mesh, tris[..n])
    {
      assert tris[..n + 1][..n] == tris[..n];
      var vs, vidList := WeldPoints(r.vs, tris[n]);
      r := Mesh(vs, r.fs + [vidList]);
    }
    assert tris[..|tris|] == tris;
  }

  /** Adding triangles to a mesh that represents a triangle list yields one that
      represents that list followed by the new triangles. */
  lemma AddAllFaithful<K(!new)>(mesh: Mesh<K>, soup: seq<seq<K>>, tris: seq<seq<K>>)
    requires Faithful(mesh, soup)
    ensures Faithful(AddAll(mesh, tris), soup + tris)
  {
    var r := AddAll(mesh, tris);
    forall k | 0 <= k < |soup| + |tris| ensures Decodes(r.vs, r.fs[k], (soup + tris)[k]) {
      if k < |soup| {
        assert r.fs[k] == r.fs[..|mesh.fs|][k] == mesh.fs[k];
        DecodesExtends(mesh.vs, r.vs, mesh.fs[k], soup[k]);
      } else {
        assert r.fs[k] == r.fs[|mesh.fs| + (k - |soup|)];
      }
    }
  }

  /** Adding triangles to the mesh welded from a triangle list yields the mesh
      welded from that list followed by the new triangles. */
  lemma AddAllWelded<K(!new)>(mesh: Mesh<K>, soup: seq<seq<K>>, tris: seq<seq<K>>)
    requires Welded(mesh, soup)
    ensures Welded(AddAll(mesh, tris), soup + tris)
  {
    AddAllFaithful(mesh, soup, tris);
    AddAllKeys(mesh, tris);
    FlattenAppend(soup, tris);
    assert mesh.vs.keys == [] + NewKeys([], Flatten(soup));
    KeysStep([], Flatten(soup), Flatten(tris), mesh.vs.keys, AddAll(mesh, tris).vs.keys);
  }

  /** Welding the points a then the points b into a dictionary holding seen. */
  lemma KeysStep<K(!new)>(seen: seq<K>, a: seq<K>, b: seq<K>, keys: seq<K>, keys': seq<K>)
    requires keys == seen + NewKeys(seen, a) && keys' == keys + NewKeys(keys, b)
    ensures keys' == seen + NewKeys(seen, a + b)
  {
    NewKeysAppend(seen, a, b);
    assert keys' == seen + (NewKeys(seen, a) + NewKeys(keys, b));
  }
}
