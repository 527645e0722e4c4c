/** `get_bbox`: per-axis step counts and the `np.mgrid` lattice they define. The
    engine file computes `int((max - min) / delta)`; the single-cube experiment
    adds a slack of 1e-6 before dividing. */
module BBox {
  import opened Optional

  /** The slack the single-cube experiment adds to each extent. */
  const CubeSlack: real := 0.000001

  /** The sample coordinates of the lattice along each axis (`box[:, i, j, k]`
      is the point with coordinates xs[i], ys[j], zs[k]). */
  datatype Lattice = Lattice(xs: seq<real>, ys: seq<real>, zs: seq<real>)

  /** Python's `int()` on a float: truncation toward zero. */
  function Trunc(x: real): (n: int)
    ensures 0.0 <= x ==> 0 <= n && n as real <= x < n as real + 1.0
    ensures x < 0.0 ==> n <= 0 && n as real - 1.0 < x <= n as real
  {
    if x >= 0.0 then x.Floor else -((-x).Floor)
  }

  /** `int((max - min + slack) / delta)`, or None where the division by a zero
      `delta` raises. */
  function StepCount(lo: real, hi: real, delta: real, slack: real): (r: Option<int>)
    ensures r.None? <==> delta == 0.0
    ensures r.Some? && (hi - lo + slack) / delta >= 0.0 ==>
      0 <= r.value && r.value as real <= (hi - lo + slack) / delta < r.value as real + 1.0
  {
    if delta == 0.0 then None else Some(Trunc((hi - lo + slack) / delta))
  }

  /** `np.mgrid` reads `(steps + 1) * 1j` as a request for `|steps + 1|` points. */
  function PointCount(steps: int): (n: nat)
    ensures steps >= 0 ==> n == steps + 1
    ensures n == 0 <==> steps == -1
  {
    if steps + 1 >= 0 then steps + 1 else -(steps + 1)
  }

  /** n evenly spaced coordinates from lo to hi inclusive; a single point is lo. */
  function Linspace(lo: real, hi: real, n: nat): (r: seq<real>)
    ensures |r| == n
  {
    seq(n, t requires 0 <= t < n => if n == 1 then lo else lo + t as real * ((hi - lo) / (n - 1) as real))
  }

  /** The coordinates along one axis, or None where `get_bbox` divides by zero. */
  function Axis(lo: real, hi: real, delta: real, slack: real): (r: Option<seq<real>>)
    ensures r.None? <==> delta == 0.0
    ensures r.Some? ==> |r.value| >= 1 || StepCount(lo, hi, delta, slack).value == -1
    ensures r.Some? && r.value != [] ==> r.value[0] == lo
  {
    match StepCount(lo, hi, delta, slack)
    case None => None
    case Some(steps) => Some(Linspace(lo, hi, PointCount(steps)))
  }

  /** `get_bbox(x_range, y_range, z_range, delta)`. */
  function GetBBox(xr: (real, real), yr: (real, real), zr: (real, real), delta: real, slack: real): (r: Option<Lattice>)
    ensures r.None? <==> delta == 0.0
  {
    if delta == 0.0 then None
    else Some(Lattice(Axis(xr.0, xr.1, delta, slack).value, Axis(yr.0, yr.1, delta, slack).value, Axis(zr.0, zr.1, delta, slack).value))
  }

  /** For a positive delta and a non-negative padded extent, the step count is the
      number of whole deltas that fit in it. */
  lemma StepCountFits(lo: real, hi: real, delta: real, slack: real)
    requires delta > 0.0 && hi - lo + slack >= 0.0
    ensures StepCount(lo, hi, delta, slack).Some?
    ensures var n := StepCount(lo, hi, delta, slack).value;
      0 <= n && n as real * delta <= hi - lo + slack < (n + 1) as real * delta
  {
    var e := hi - lo + slack;
    var q := e / delta;
    var n := Trunc(q);
    assert q * delta == e;
    MulMonotone(n as real, q, delta);
    assert (n + 1) as real == n as real + 1.0;
    MulStrict(q, (n + 1) as real, delta);
    assert e < (n + 1) as real * delta;
    assert StepCount(lo, hi, delta, slack).value == n;
  }

  lemma MultipleUnique(n: int, m: int, d: real, s: real)
    requires d > 0.0 && 0.0 <= s < d
    requires n as real * d <= m as real * d + s < (n + 1) as real * d
    ensures n == m
  {
    assert (n + 1) as real * d == n as real * d + d;
    assert (m + 1) as real * d == m as real * d + d;
    if n < m {
      MulMonotone((n + 1) as real, m as real, d);
    } else if n > m {
      MulMonotone((m + 1) as real, n as real, d);
    }
  }

  lemma DivExact(a: real, b: real)
    requires b != 0.0
    ensures (a * b) / b == a
  {
  }

  lemma MulStrict(a: real, b: real, c: real)
    requires a < b && c > 0.0
    ensures a * c < b * c
  {
  }

  lemma MulMonotone(a: real, b: real, c: real)
    requires a <= b && c > 0.0
    ensures a * c <= b * c
  {
  }

  /** The lattice runs from lo to hi inclusive in equal steps. */
  lemma LinspaceSpec(lo: real, hi: real, n: nat)
    ensures |Linspace(lo, hi, n)| == n
    ensures n >= 1 ==> Linspace(lo, hi, n)[0] == lo
    ensures n >= 2 ==> Linspace(lo, hi, n)[n - 1] == hi
    ensures n >= 2 ==> forall t :: 0 <= t < n - 1 ==>
      Linspace(lo, hi, n)[t + 1] - Linspace(lo, hi, n)[t] == (hi - lo) / (n - 1) as real
  {
    if n >= 2 {
      var d := (hi - lo) / (n - 1) as real;
      assert (n - 1) as real * d == hi - lo;
      forall t | 0 <= t < n - 1
        ensures Linspace(lo, hi, n)[t + 1] - Linspace(lo, hi, n)[t] == d
      {
        assert (t + 1) as real * d == t as real * d + d;
      }
    }
  }

  /** When the extent is an exact multiple m of a positive delta and the slack is
      smaller than delta, the step count is m. */
  lemma ExactMultipleSteps(lo: real, delta: real, m: nat, slack: real)
    requires delta > 0.0 && 0.0 <= slack < delta
    ensures StepCount(lo, lo + m as real * delta, delta, slack) == Some(m)
  {
    var hi := lo + m as real * delta;
    StepCountFits(lo, hi, delta, slack);
    var n := StepCount(lo, hi, delta, slack).value;
    assert hi - lo + slack == m as real * delta + slack;
    MultipleUnique(n, m, delta, slack);
  }

  /** m + 1 evenly spaced points from lo to lo + m * delta are lo + t * delta. */
  lemma ExactMultipleLinspace(lo: real, delta: real, m: nat)
    requires delta > 0.0
    ensures Linspace(lo, lo + m as real * delta, m + 1) == seq(m + 1, t requires 0 <= t <= m => lo + t as real * delta)
  {
    var hi := lo + m as real * delta;
    var l := Linspace(lo, hi, m + 1);
    var want := seq(m + 1, t requires 0 <= t <= m => lo + t as real * delta);
    if m >= 1 {
      assert hi - lo == delta * m as real;
      DivExact(delta, m as real);
      assert ((m + 1) - 1) as real == m as real;
      var step := (hi - lo) / ((m + 1) - 1) as real;
      assert step == delta;
      forall t | 0 <= t <= m ensures l[t] == want[t] {
        assert l[t] == lo + t as real * step;
      }
    } else {
      assert l[0] == lo == want[0];
    }
    assert l == want;
  }

  /** Together: the axis has m + 1 points lo, lo + delta, ..., hi. */
  lemma ExactMultipleAxis(lo: real, delta: real, m: nat, slack: real)
    requires delta > 0.0 && 0.0 <= slack < delta
    ensures Axis(lo, lo + m as real * delta, delta, slack) == Some(seq(m + 1, t requires 0 <= t <= m => lo + t as real * delta))
  {
    ExactMultipleSteps(lo, delta, m, slack);
    assert PointCount(m) == m + 1;
    ExactMultipleLinspace(lo, delta, m);
  }

  /** Coordinate t of an axis of n + 1 points from lo to hi, n >= 1. */
  lemma {:induction false} AxisPoint(lo: real, hi: real, n: nat, t: nat)
    requires n >= 1 && t <= n
    ensures Linspace(lo, hi, n + 1)[t] == lo + t as real * ((hi - lo) / n as real)
  {
    assert ((n + 1) - 1) as real == n as real;
  }

  /** n whole deltas fit in the extent, so the spacing of n + 1 points is at least delta. */
  lemma SpacingAtLeastDelta(lo: real, hi: real, delta: real, n: nat)
    requires delta > 0.0 && n >= 1 && n as real * delta <= hi - lo
    ensures (hi - lo) / n as real >= delta
  {
    var d := (hi - lo) / n as real;
    assert n as real * d == hi - lo;
    if d < delta {
      MulStrict(d, delta, n as real);
    }
  }

  /** Consecutive points of n + 1 evenly spaced ones at least delta apart are
      delta apart or more and stay within [lo, hi]. */
  lemma LinspaceStride(lo: real, hi: real, delta: real, n: nat, t: nat)
    requires delta > 0.0 && n >= 1 && t + 1 <= n && (hi - lo) / n as real >= delta
    ensures var xs := Linspace(lo, hi, n + 1);
      lo <= xs[t] && xs[t] + delta <= xs[t + 1] <= hi
  {
    var d := (hi - lo) / n as real;
    assert n as real * d == hi - lo;
    var xs := Linspace(lo, hi, n + 1);
    AxisPoint(lo, hi, n, t);
    AxisPoint(lo, hi, n, t + 1);
    var a, b := t as real * d, (t + 1) as real * d;
    assert xs[t] == lo + a && xs[t + 1] == lo + b;
    assert b == a + d;
    MulMonotone(0.0, t as real, d);
    MulMonotone((t + 1) as real, n as real, d);
    assert 0.0 <= a && b <= hi - lo;
  }

  /** For a positive delta and lo <= hi, consecutive coordinates of the engine's
      axis are at least delta apart and stay inside [lo, hi]: a cube of edge delta
      anchored at any coordinate but the last ends inside the range. */
  lemma AxisStride(lo: real, hi: real, delta: real, t: nat)
    requires delta > 0.0 && lo <= hi
    ensures |Axis(lo, hi, delta, 0.0).value| >= 1
    ensures t + 1 < |Axis(lo, hi, delta, 0.0).value| ==>
      var xs := Axis(lo, hi, delta, 0.0).value;
      lo <= xs[t] && xs[t] + delta <= xs[t + 1] <= hi
  {
    StepCountFits(lo, hi, delta, 0.0);
    var n := StepCount(lo, hi, delta, 0.0).value;
    assert PointCount(n) == n + 1;
    assert Axis(lo, hi, delta, 0.0).value == Linspace(lo, hi, n + 1);
    if t + 1 <= n {
      SpacingAtLeastDelta(lo, hi, delta, n);
      LinspaceStride(lo, hi, delta, n, t);
    }
  }

  /** A cube of edge delta anchored at the last coordinate of the engine's axis
      ends beyond hi. */
  lemma AxisLastOvershoots(lo: real, hi: real, delta: real)
    requires delta > 0.0 && lo <= hi
    ensures var xs := Axis(lo, hi, delta, 0.0).value;
      |xs| >= 1 && xs[|xs| - 1] + delta > hi
  {
    StepCountFits(lo, hi, delta, 0.0);
    var steps := StepCount(lo, hi, delta, 0.0).value;
    var xs := Axis(lo, hi, delta, 0.0).value;
    assert PointCount(steps) == steps + 1;
    assert xs == Linspace(lo, hi, steps + 1);
    LinspaceSpec(lo, hi, steps + 1);
    if steps == 0 {
      assert xs[0] == lo;
      assert hi - lo < (0 + 1) as real * delta;
    }
  }
}
