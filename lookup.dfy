/** The marching-cubes lookup tables. Their contents come from a module outside
    this model; they are parameters here, together with the shape the engine's
    indexing relies on and the two defining properties of the standard tables. */
module Lookup {
  import opened Bits

  /** `EDGE_TABLE` (case → 12-bit cut mask), `TRI_TABLE` (case → edge indices,
      three per triangle, -1 as filler) and `EDGE_VERTEX` (edge → its two corners). */
  datatype Tables = Tables(edgeTable: seq<nat>, triTable: seq<seq<int>>, edgeVertex: seq<(nat, nat)>)
  {
    /** 256 masks below 4096, 12 corner pairs in 0..7, 256 triangle rows with entries
        in -1..11, and a first triple present whenever the mask is non-zero (else
        `np.stack` of an empty list would raise). */
    ghost predicate Valid() {
      && |edgeTable| == 256
      && (forall c :: 0 <= c < 256 ==> edgeTable[c] < 4096)
      && |edgeVertex| == 12
      && (forall e :: 0 <= e < 12 ==> edgeVertex[e].0 < 8 && edgeVertex[e].1 < 8)
      && |triTable| == 256
      && (forall c, n :: 0 <= c < 256 && 0 <= n < |triTable[c]| ==> -1 <= triTable[c][n] < 12)
      && (forall c :: 0 <= c < 256 && edgeTable[c] != 0 ==> |triTable[c]| > 0 && triTable[c][0] >= 0)
    }

    /** Edge e is cut in case c exactly when its two corners are on opposite sides. */
    ghost predicate CutsMatchCase()
      requires Valid()
    {
      forall c, e :: 0 <= c < 256 && 0 <= e < 12 ==>
        (Bit(edgeTable[c], e) <==> Bit(c, edgeVertex[e].0) != Bit(c, edgeVertex[e].1))
    }

    /** Every triangle of case c names three cut edges of case c. */
    ghost predicate TrianglesUseCutEdges()
      requires Valid()
    {
      forall c, k, m :: 0 <= c < 256 && 0 <= k < |Triples(triTable[c])| && 0 <= m < 3 && Triples(triTable[c])[k][0] >= 0 ==>
        Triples(triTable[c])[k][m] >= 0 && Bit(edgeTable[c], Triples(triTable[c])[k][m] as nat)
    }
  }

  /** `row + [-1, -1]` cut into consecutive triples, a trailing partial triple dropped. */
  function Triples(row: seq<int>): (ts: seq<seq<int>>)
    ensures |ts| == (|row| + 2) / 3
    ensures forall k, m :: 0 <= k < |ts| && 0 <= m < 3 ==>
      |ts[k]| == 3 && ts[k][m] == if 3 * k + m < |row| then row[3 * k + m] else -1
  {
    var padded := row + [-1, -1];
    seq(|padded| / 3, k requires 0 <= k < |padded| / 3 => padded[3 * k .. 3 * k + 3])
  }
}
