/** The intersections with the coordinate planes: the profile of the surface
    along x = 0 and along y = 0, each sampled at resolution + 1 evenly spaced
    points, and the grid points where the surface is within 0.1 of z = 0,
    placed on that plane. The component fixes the resolution at 100; here it
    is a parameter. */
module PlaneIntersections {
  import opened Geometry
  import opened Tracing

  /** The band half-width of the z = 0 trace. */
  const Tolerance: real := 0.1

  /** Point i of the x = 0 profile. */
  function YzPoint(g: (real, real) -> Outcome, d: Domain, r: nat, i: nat): Vec3
    requires r >= 1
  {
    var y := FractionCoord(d.yMin, d.yMax, r, i);
    (0.0, y, TracerZ(g, 0.0, y))
  }

  /** Point i of the y = 0 profile. */
  function XzPoint(g: (real, real) -> Outcome, d: Domain, r: nat, i: nat): Vec3
    requires r >= 1
  {
    var x := FractionCoord(d.xMin, d.xMax, r, i);
    (x, 0.0, TracerZ(g, x, 0.0))
  }

  /** The x = 0 profile: evaluateZ never fails, so every one of the r + 1
      samples is pushed, from y = yMin to y = yMax. */
  method YzProfile(g: (real, real) -> Outcome, d: Domain, r: nat) returns (yzPoints: seq<Vec3>)
    requires r >= 1
    ensures |yzPoints| == r + 1
    ensures forall i :: 0 <= i <= r ==> yzPoints[i] == YzPoint(g, d, r, i)
    ensures yzPoints[0].1 == d.yMin && yzPoints[r].1 == d.yMax
  {
    yzPoints := [];
    var i := 0;
    while i <= r
      invariant 0 <= i <= r + 1
      invariant |yzPoints| == i
      invariant forall k :: 0 <= k < i ==> yzPoints[k] == YzPoint(g, d, r, k)
    {
      var y := FractionCoord(d.yMin, d.yMax, r, i);
      var z := TracerZ(g, 0.0, y);
      // `isFinite(z)` always holds.
      yzPoints := yzPoints + [(0.0, y, z)];
      i := i + 1;
    }
  }

  /** The y = 0 profile: every one of the r + 1 samples, from x = xMin to
      x = xMax. */
  method XzProfile(g: (real, real) -> Outcome, d: Domain, r: nat) returns (xzPoints: seq<Vec3>)
    requires r >= 1
    ensures |xzPoints| == r + 1
    ensures forall i :: 0 <= i <= r ==> xzPoints[i] == XzPoint(g, d, r, i)
    ensures xzPoints[0].0 == d.xMin && xzPoints[r].0 == d.xMax
  {
    xzPoints := [];
    var i := 0;
    while i <= r
      invariant 0 <= i <= r + 1
      invariant |xzPoints| == i
      invariant forall k :: 0 <= k < i ==> xzPoints[k] == XzPoint(g, d, r, k)
    {
      var x := FractionCoord(d.xMin, d.xMax, r, i);
      var z := TracerZ(g, x, 0.0);
      // `isFinite(z)` always holds.
      xzPoints := xzPoints + [(x, 0.0, z)];
      i := i + 1;
    }
  }

  /** The three traces and whether each is drawn: a polyline needs at least
      two points. */
  datatype Traces = Traces(yz: seq<Vec3>, xz: seq<Vec3>, xy: seq<Vec3>, drawYz: bool, drawXz: bool, drawXy: bool)

  /** The component: both profiles over the whole range, the z = 0 trace
      over the full (r+1)² grid, and the render guards. */
  method PlaneIntersections(g: (real, real) -> Outcome, d: Domain, r: nat) returns (t: Traces)
    requires r >= 1
    ensures |t.yz| == r + 1 && forall i :: 0 <= i <= r ==> t.yz[i] == YzPoint(g, d, r, i)
    ensures |t.xz| == r + 1 && forall i :: 0 <= i <= r ==> t.xz[i] == XzPoint(g, d, r, i)
    ensures t.xy == BandGrid(g, d, r, 0.0, Tolerance, r + 1, r + 1)
    ensures t.drawYz && t.drawXz
    ensures t.drawXy <==> |t.xy| > 1
  {
    var yz := YzProfile(g, d, r);
    var xz := XzProfile(g, d, r);
    var xy := TraceBand(g, d, r, 0.0, Tolerance, r + 1);
    t := Traces(yz, xz, xy, |yz| > 1, |xz| > 1, |xy| > 1);
  }

  /** The z = 0 trace holds exactly the grid points, over the whole grid,
      whose height is strictly within 0.1 of zero, each placed at z = 0. */
  lemma XyTraceMembers(g: (real, real) -> Outcome, d: Domain, r: nat, p: Vec3)
    requires r >= 1
    ensures p in BandGrid(g, d, r, 0.0, Tolerance, r + 1, r + 1) <==>
      exists i, j :: 0 <= i <= r && 0 <= j <= r &&
        Abs(TracerZ(g, FractionCoord(d.xMin, d.xMax, r, i), FractionCoord(d.yMin, d.yMax, r, j))) < Tolerance &&
        p == (FractionCoord(d.xMin, d.xMax, r, i), FractionCoord(d.yMin, d.yMax, r, j), 0.0)
  {
    BandGridMembers(g, d, r, 0.0, Tolerance, r + 1, r + 1);
    if p in BandGrid(g, d, r, 0.0, Tolerance, r + 1, r + 1) {
      var i, j :| 0 <= i < r + 1 && 0 <= j < r + 1 && BandHit(g, d, r, i, j, 0.0, Tolerance) &&
        p == BandPoint(d, r, i, j, 0.0);
      assert Abs(TracerZ(g, FractionCoord(d.xMin, d.xMax, r, i), FractionCoord(d.yMin, d.yMax, r, j)) - 0.0) < Tolerance;
    }
    if exists i, j :: 0 <= i <= r && 0 <= j <= r &&
        Abs(TracerZ(g, FractionCoord(d.xMin, d.xMax, r, i), FractionCoord(d.yMin, d.yMax, r, j))) < Tolerance &&
        p == (FractionCoord(d.xMin, d.xMax, r, i), FractionCoord(d.yMin, d.yMax, r, j), 0.0) {
      var i, j :| 0 <= i <= r && 0 <= j <= r &&
        Abs(TracerZ(g, FractionCoord(d.xMin, d.xMax, r, i), FractionCoord(d.yMin, d.yMax, r, j))) < Tolerance &&
        p == (FractionCoord(d.xMin, d.xMax, r, i), FractionCoord(d.yMin, d.yMax, r, j), 0.0);
      assert BandHit(g, d, r, i, j, 0.0, Tolerance) && p == BandPoint(d, r, i, j, 0.0);
    }
  }
}
