/** The 3D canvas: the plain height-field surface (vertices sampled on a
    regular grid, colours by normalised height, two triangles per cell), the
    parametric curve, and the choice between curve, quadric and surface.

    `eval` of the substituted formula is a parameter: for the surface it maps
    the sample (x, y) to `Some(z)`, or `None` when evaluation threw; for the
    curve it maps a component text and the parameter t to the same. What text
    is evaluated is the `Substitution` module's business. */
module Plot3DCanvas {
  import opened Wrappers
  import opened Geometry

  /** The visualisation kinds the canvas accepts. */
  datatype VisualizationType = Surface | Parametric | Contour | VectorField | Implicit | Quadric

  /* ---------------------------------------------------------------------- */
  /* The surface                                                             */

  /** Grid point (i, j): x steps with i, y with j, and z is the evaluator's
      value, or 0 when it threw. */
  function SurfacePoint(f: (real, real) -> Option<real>, d: Domain, r: nat, i: nat, j: nat): Vec3
    requires r >= 1
  {
    var x := StepCoord(d.xMin, d.xMax, r, i);
    var y := StepCoord(d.yMin, d.yMax, r, j);
    (x, y, f(x, y).GetOr(0.0))
  }

  /** The first `j` points of row `i` (fixed x, increasing y). */
  function RowPoints(f: (real, real) -> Option<real>, d: Domain, r: nat, i: nat, j: nat): (ps: seq<Vec3>)
    requires r >= 1
    ensures |ps| == j
  {
    if j == 0 then [] else RowPoints(f, d, r, i, j - 1) + [SurfacePoint(f, d, r, i, j - 1)]
  }

  lemma {:induction false} RowPointsAt(f: (real, real) -> Option<real>, d: Domain, r: nat, i: nat, j: nat, k: nat)
    requires r >= 1 && k < j
    ensures RowPoints(f, d, r, i, j)[k] == SurfacePoint(f, d, r, i, k)
  {
    if k < j - 1 {
      RowPointsAt(f, d, r, i, j - 1, k);
    }
  }

  /** The first `i` full rows, in the order the nested loops visit them. */
  function GridPoints(f: (real, real) -> Option<real>, d: Domain, r: nat, i: nat): (ps: seq<Vec3>)
    requires r >= 1
    ensures |ps| == Mul(i, r + 1)
  {
    if i == 0 then []
    else
      MulSucc(i - 1, r + 1);
      GridPoints(f, d, r, i - 1) + RowPoints(f, d, r, i - 1, r + 1)
  }

  /** Point (i, j) sits at position i(r+1) + j. */
  lemma {:induction false} GridPointsAt(f: (real, real) -> Option<real>, d: Domain, r: nat, n: nat, i: nat, j: nat)
    requires r >= 1 && i < n && j <= r
    ensures Mul(i, r + 1) + j < |GridPoints(f, d, r, n)|
    ensures GridPoints(f, d, r, n)[Mul(i, r + 1) + j] == SurfacePoint(f, d, r, i, j)
  {
    var prev := GridPoints(f, d, r, n - 1);
    MulSucc(i, r + 1);
    if i < n - 1 {
      GridPointsAt(f, d, r, n - 1, i, j);
    } else {
      assert |prev| == Mul(i, r + 1);
      RowPointsAt(f, d, r, i, r + 1, j);
    }
  }

  /** The whole grid: (r+1)² points, point (i, j) at position i(r+1)+j. */
  lemma SurfaceLayout(f: (real, real) -> Option<real>, d: Domain, r: nat, i: nat, j: nat)
    requires r >= 1 && i <= r && j <= r
    ensures Mul(i, r + 1) + j < Cells(r)
    ensures TripleAt(Flatten(GridPoints(f, d, r, r + 1)), Mul(i, r + 1) + j) == SurfacePoint(f, d, r, i, j)
  {
    GridPointsAt(f, d, r, r + 1, i, j);
    TripleAtFlatten(GridPoints(f, d, r, r + 1), Mul(i, r + 1) + j);
  }

  /** The vertex loop: pushes every grid point and keeps the running
      `Math.min` / `Math.max` of the heights, starting from ±Infinity. */
  method SurfaceVertices(f: (real, real) -> Option<real>, d: Domain, resolution: nat)
    returns (vertices: seq<real>, minZ: real, maxZ: real)
    requires resolution >= 1
    ensures vertices == Flatten(GridPoints(f, d, resolution, resolution + 1))
    ensures Lowest(Heights(GridPoints(f, d, resolution, resolution + 1))) == Fin(minZ)
    ensures Highest(Heights(GridPoints(f, d, resolution, resolution + 1))) == Fin(maxZ)
  {
    var r := resolution;
    vertices := [];
    var lo: Bound := PosInf;
    var hi: Bound := NegInf;
    ghost var done := GridPoints(f, d, r, 0);  // the points pushed so far
    var i := 0;
    while i <= r
      invariant 0 <= i <= r + 1
      invariant done == GridPoints(f, d, r, i)
      invariant vertices == Flatten(done)
      invariant lo == Lowest(Heights(done)) && hi == Highest(Heights(done))
    {
      vertices, lo, hi := SurfaceRow(f, d, r, i, done, vertices, lo, hi);
      done := done + RowPoints(f, d, r, i, r + 1);
      i := i + 1;
    }
    minZ := lo.value;
    maxZ := hi.value;
  }

  /** One pass of the inner vertex loop: pushes the points of row `i` after
      the points `done`. */
  method SurfaceRow(f: (real, real) -> Option<real>, d: Domain, r: nat, i: nat, ghost done: seq<Vec3>,
                    vertices0: seq<real>, lo0: Bound, hi0: Bound)
    returns (vertices: seq<real>, lo: Bound, hi: Bound)
    requires r >= 1
    requires vertices0 == Flatten(done)
    requires lo0 == Lowest(Heights(done)) && hi0 == Highest(Heights(done))
    ensures vertices == Flatten(done + RowPoints(f, d, r, i, r + 1))
    ensures lo == Lowest(Heights(done + RowPoints(f, d, r, i, r + 1)))
    ensures hi == Highest(Heights(done + RowPoints(f, d, r, i, r + 1)))
  {
    vertices, lo, hi := vertices0, lo0, hi0;
    ghost var pts := done;  // the points pushed so far
    assert done + RowPoints(f, d, r, i, 0) == done;
    var j := 0;
    while j <= r
      invariant 0 <= j <= r + 1
      invariant pts == done + RowPoints(f, d, r, i, j)
      invariant vertices == Flatten(pts)
      invariant lo == Lowest(Heights(pts)) && hi == Highest(Heights(pts))
    {
      var x := StepCoord(d.xMin, d.xMax, r, i);
      var y := StepCoord(d.yMin, d.yMax, r, j);
      var z := f(x, y).GetOr(0.0);
      PointStep(f, d, r, i, j, done, pts, x, y, z);
      PushVertex(pts, (x, y, z), vertices, lo, hi);
      pts := pts + [(x, y, z)];
      vertices := vertices + [x, y, z];
      lo := MinWith(lo, z);
      hi := MaxWith(hi, z);
      j := j + 1;
    }
  }

  /** The loop body computes grid point (i, j), the next point of the row. */
  lemma PointStep(f: (real, real) -> Option<real>, d: Domain, r: nat, i: nat, j: nat, done: seq<Vec3>,
                  pts: seq<Vec3>, x: real, y: real, z: real)
    requires r >= 1 && pts == done + RowPoints(f, d, r, i, j)
    requires x == StepCoord(d.xMin, d.xMax, r, i) && y == StepCoord(d.yMin, d.yMax, r, j)
    requires z == f(x, y).GetOr(0.0)
    ensures pts + [(x, y, z)] == done + RowPoints(f, d, r, i, j + 1)
  {
    assert SurfacePoint(f, d, r, i, j) == (x, y, z);
  }

  /** Pushing a point extends the buffer and moves the running bounds. */
  lemma PushVertex(ps: seq<Vec3>, p: Vec3, vertices: seq<real>, lo: Bound, hi: Bound)
    requires vertices == Flatten(ps)
    requires lo == Lowest(Heights(ps)) && hi == Highest(Heights(ps))
    ensures vertices + [p.0, p.1, p.2] == Flatten(ps + [p])
    ensures MinWith(lo, p.2) == Lowest(Heights(ps + [p]))
    ensures MaxWith(hi, p.2) == Highest(Heights(ps + [p]))
  {
    FlattenSnoc(ps, p);
    HeightsSnoc(ps, p);
    LowestSnoc(Heights(ps), p.2);
    HighestSnoc(Heights(ps), p.2);
  }

  /** The colour loop: one ramp colour per vertex, from its height normalised
      to [minZ, maxZ] (a flat surface divides by 1). */
  method SurfaceColours(vertices: seq<real>, minZ: real, maxZ: real) returns (colors: seq<real>)
    requires |vertices| % 3 == 0
    ensures |colors| == |vertices|
    ensures forall k :: 0 <= k < |vertices| / 3 ==>
      TripleAt(colors, k) == Ramp(Normalized(TripleAt(vertices, k).2, minZ, maxZ))
  {
    colors := [];
    var i := 0;
    while i < |vertices|
      invariant i % 3 == 0 && 0 <= i <= |vertices|
      invariant |colors| == i
      invariant forall k :: 0 <= k < i / 3 ==>
        TripleAt(colors, k) == Ramp(Normalized(TripleAt(vertices, k).2, minZ, maxZ))
    {
      var z := vertices[i + 2];
      var normalized := (z - minZ) / (if maxZ - minZ == 0.0 then 1.0 else maxZ - minZ);
      colors := colors + [normalized, 0.3, 1.0 - normalized];
      i := i + 3;
    }
  }

  /** The `Surface` component's geometry: the vertex buffer holds the grid
      points row by row (see `SurfaceLayout`), minZ and maxZ are the least and
      greatest height (see `LowestIsMinimum` and `HighestIsMaximum`), every
      vertex gets the ramp colour of its normalised height, and the index
      buffer is the two-triangles-per-cell layout (see `GridIndicesInRange`
      and `GridIndicesCell`). */
  method SurfaceGeometry(f: (real, real) -> Option<real>, d: Domain, resolution: nat)
    returns (vertices: seq<real>, colors: seq<real>, indices: seq<nat>, minZ: real, maxZ: real)
    requires resolution >= 1
    ensures vertices == Flatten(GridPoints(f, d, resolution, resolution + 1))
    ensures Lowest(Heights(GridPoints(f, d, resolution, resolution + 1))) == Fin(minZ)
    ensures Highest(Heights(GridPoints(f, d, resolution, resolution + 1))) == Fin(maxZ)
    ensures |colors| == |vertices|
    ensures forall k :: 0 <= k < |vertices| / 3 ==>
      TripleAt(colors, k) == Ramp(Normalized(TripleAt(vertices, k).2, minZ, maxZ))
    ensures indices == Flatten(GridFaces(resolution, resolution))
  {
    vertices, minZ, maxZ := SurfaceVertices(f, d, resolution);
    colors := SurfaceColours(vertices, minZ, maxZ);
    indices := GridIndices(resolution);
  }

  /** Every colour channel of the surface lies in [0, 1]: each height lies
      between the least and the greatest. */
  lemma SurfaceColoursInRange(f: (real, real) -> Option<real>, d: Domain, r: nat, k: nat)
    requires r >= 1 && k < Cells(r)
    ensures var ps := GridPoints(f, d, r, r + 1);
      var n := Normalized(ps[k].2, Lowest(Heights(ps)).value, Highest(Heights(ps)).value);
      0.0 <= n <= 1.0 && 0.0 <= 1.0 - n <= 1.0
  {
    var ps := GridPoints(f, d, r, r + 1);
    LowestIsMinimum(Heights(ps));
    HighestIsMaximum(Heights(ps));
    HeightsAt(ps, k);
  }

  /* ---------------------------------------------------------------------- */
  /* The parametric curve                                                    */

  /** `s.split(sep)`: the maximal pieces between separators, in order. */
  function Split(s: string, sep: char): (parts: seq<string>)
    ensures |parts| >= 1
    ensures forall k :: 0 <= k < |parts| ==> sep !in parts[k]
    ensures Join(parts, sep) == s
    ensures sep !in s <==> |parts| == 1
  {
    if s == [] then [""]
    else
      var rest := Split(s[1..], sep);
      if s[0] == sep then
        assert ([""] + rest)[1..] == rest;
        [""] + rest
      else
        assert [s[0]] + s[1..] == s;
        assert |rest| > 1 ==> rest[0] + [sep] + Join(rest[1..], sep) == Join(rest, sep);
        assert ([[s[0]] + rest[0]] + rest[1..])[1..] == rest[1..];
        [[s[0]] + rest[0]] + rest[1..]
  }

  /** `parts.join(sep)`. */
  function Join(parts: seq<string>, sep: char): string
    requires |parts| >= 1
  {
    if |parts| == 1 then parts[0] else parts[0] + [sep] + Join(parts[1..], sep)
  }

  /** `evaluateParam` on component `k` of the split formula: a missing
      component is `undefined`, whose `.replace` throws, and a throwing
      evaluation gives 0. */
  function ComponentValue(parts: seq<string>, k: nat, eval: (string, real) -> Option<real>, t: real): real {
    if k < |parts| then eval(parts[k], t).GetOr(0.0) else 0.0
  }

  /** Point i of the curve: t = tMin + i · tStep and the three components. */
  function CurvePoint(formula: string, eval: (string, real) -> Option<real>,
                      tMin: real, tMax: real, r: nat, i: nat): Vec3
    requires r >= 1
  {
    var parts := Split(formula, '|');
    var t := StepCoord(tMin, tMax, r, i);
    (ComponentValue(parts, 0, eval, t), ComponentValue(parts, 1, eval, t), ComponentValue(parts, 2, eval, t))
  }

  /** The curve's sampling loop: r + 1 points from t = tMin to t = tMax. */
  method ParametricCurve(formula: string, eval: (string, real) -> Option<real>,
                         tMin: real, tMax: real, resolution: nat)
    returns (points: seq<Vec3>)
    requires resolution >= 1
    ensures |points| == resolution + 1
    ensures forall i :: 0 <= i <= resolution ==> points[i] == CurvePoint(formula, eval, tMin, tMax, resolution, i)
  {
    var parts := Split(formula, '|');
    var tStep := (tMax - tMin) / (resolution as real);
    points := [];
    var i := 0;
    while i <= resolution
      invariant 0 <= i <= resolution + 1
      invariant |points| == i
      invariant forall k :: 0 <= k < i ==> points[k] == CurvePoint(formula, eval, tMin, tMax, resolution, k)
    {
      var t := tMin + (i as real) * tStep;
      assert t == StepCoord(tMin, tMax, resolution, i);
      var x := ComponentValue(parts, 0, eval, t);
      var y := ComponentValue(parts, 1, eval, t);
      var z := ComponentValue(parts, 2, eval, t);
      assert (x, y, z) == CurvePoint(formula, eval, tMin, tMax, resolution, i);
      points := points + [(x, y, z)];
      i := i + 1;
    }
  }

  /** The curve starts at tMin and ends at tMax, and a formula without `|`
      draws a curve whose y and z stay 0: only the x component exists. */
  lemma CurveEnds(formula: string, eval: (string, real) -> Option<real>, tMin: real, tMax: real, r: nat)
    requires r >= 1
    ensures CurvePoint(formula, eval, tMin, tMax, r, 0).0 == eval(Split(formula, '|')[0], tMin).GetOr(0.0)
    ensures CurvePoint(formula, eval, tMin, tMax, r, r).0 == eval(Split(formula, '|')[0], tMax).GetOr(0.0)
    ensures '|' !in formula ==> forall i :: 0 <= i <= r ==>
      CurvePoint(formula, eval, tMin, tMax, r, i).0 == eval(formula, StepCoord(tMin, tMax, r, i)).GetOr(0.0) &&
      CurvePoint(formula, eval, tMin, tMax, r, i).1 == 0.0 &&
      CurvePoint(formula, eval, tMin, tMax, r, i).2 == 0.0
  {
  }

  /* ---------------------------------------------------------------------- */
  /* Choosing what to draw                                                   */

  /** What the canvas mounts, with the props each child ends up using. */
  datatype Scene =
    | CurveScene(tMin: real, tMax: real, curveResolution: nat)
    | QuadricScene(quadricResolution: nat, showBothSides: bool)
    | SurfaceScene(surfaceResolution: nat)

  /** The canvas's dispatch: "parametric" mounts the curve with its own
      resolution of 100 and the default t range [0, 6.28] when none is given;
      "quadric" mounts the quadric with both sheets; everything else, including
      a missing type, mounts the plain surface. Both surface builders default
      the resolution to 50. */
  function Dispatch(visualizationType: Option<VisualizationType>, tRange: Option<(real, real)>,
                    resolution: Option<nat>): (s: Scene)
    ensures s.CurveScene? <==> visualizationType == Some(Parametric)
    ensures s.QuadricScene? <==> visualizationType == Some(Quadric)
    ensures s.CurveScene? ==> s.curveResolution == 100 && (s.tMin, s.tMax) == tRange.GetOr((0.0, 6.28))
    ensures s.QuadricScene? ==> s.showBothSides && s.quadricResolution == resolution.GetOr(50)
    ensures s.SurfaceScene? ==> s.surfaceResolution == resolution.GetOr(50)
  {
    match visualizationType.GetOr(Surface)
    case Parametric =>
      var range := tRange.GetOr((0.0, 6.28));
      CurveScene(range.0, range.1, 100)
    case Quadric => QuadricScene(resolution.GetOr(50), true)
    case _ => SurfaceScene(resolution.GetOr(50))
  }
}
