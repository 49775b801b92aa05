/** The contour tracer: samples the tracers' `evaluateZ` on the
    (resolution+1)² grid to find the lowest and highest height, splits that
    range into `levels` equal steps, and for each of the levels + 1 target
    heights collects the grid points whose height lies within a tenth of a
    step of it, keeping a line only when it has more than two points. The
    component fixes the resolution at 50 and defaults `levels` to 8; here
    both are parameters. */
module ContourLines {
  import opened Geometry
  import opened Tracing

  /** The heights of the first `j` points of row `i`. */
  function ZRow(g: (real, real) -> Outcome, d: Domain, r: nat, i: nat, j: nat): (zs: seq<real>)
    requires r >= 1
    ensures |zs| == j
  {
    if j == 0 then []
    else ZRow(g, d, r, i, j - 1) + [TracerZ(g, FractionCoord(d.xMin, d.xMax, r, i), FractionCoord(d.yMin, d.yMax, r, j - 1))]
  }

  /** The heights of the first `i` rows, in loop order. */
  function ZGrid(g: (real, real) -> Outcome, d: Domain, r: nat, i: nat): (zs: seq<real>)
    requires r >= 1
    ensures |zs| == Mul(i, r + 1)
  {
    if i == 0 then []
    else
      MulSucc(i - 1, r + 1);
      ZGrid(g, d, r, i - 1) + ZRow(g, d, r, i - 1, r + 1)
  }

  /** Height (i, j) sits at position i(r+1) + j. */
  lemma {:induction false} ZGridAt(g: (real, real) -> Outcome, d: Domain, r: nat, n: nat, i: nat, j: nat)
    requires r >= 1 && i < n && j <= r
    ensures Mul(i, r + 1) + j < |ZGrid(g, d, r, n)|
    ensures ZGrid(g, d, r, n)[Mul(i, r + 1) + j] ==
      TracerZ(g, FractionCoord(d.xMin, d.xMax, r, i), FractionCoord(d.yMin, d.yMax, r, j))
  {
    var prev, row := ZGrid(g, d, r, n - 1), ZRow(g, d, r, n - 1, r + 1);
    assert ZGrid(g, d, r, n) == prev + row;
    MulSucc(i, r + 1);
    if i < n - 1 {
      ZGridAt(g, d, r, n - 1, i, j);
    } else {
      ZRowAt(g, d, r, i, r + 1, j);
    }
  }

  lemma {:induction false} ZRowAt(g: (real, real) -> Outcome, d: Domain, r: nat, i: nat, j: nat, k: nat)
    requires r >= 1 && k < j
    ensures ZRow(g, d, r, i, j)[k] == TracerZ(g, FractionCoord(d.xMin, d.xMax, r, i), FractionCoord(d.yMin, d.yMax, r, k))
  {
    if k < j - 1 {
      ZRowAt(g, d, r, i, j - 1, k);
    }
  }

  /** The height loop: every one of the (r+1)² heights, row by row. */
  method ZValues(g: (real, real) -> Outcome, d: Domain, r: nat) returns (zValues: seq<real>)
    requires r >= 1
    ensures zValues == ZGrid(g, d, r, r + 1)
    ensures |zValues| == Cells(r)
  {
    zValues := [];
    var i := 0;
    while i <= r
      invariant 0 <= i <= r + 1
      invariant zValues == ZGrid(g, d, r, i)
    {
      zValues := ZValuesRow(g, d, r, i, zValues);
      i := i + 1;
    }
  }

  /** One pass of the height loop's inner loop: the heights of row `i`. */
  method ZValuesRow(g: (real, real) -> Outcome, d: Domain, r: nat, i: nat, prefix: seq<real>) returns (zValues: seq<real>)
    requires r >= 1
    ensures zValues == prefix + ZRow(g, d, r, i, r + 1)
  {
    zValues := prefix;
    assert prefix + ZRow(g, d, r, i, 0) == prefix;
    var j := 0;
    while j <= r
      invariant 0 <= j <= r + 1
      invariant zValues == prefix + ZRow(g, d, r, i, j)
    {
      var x := FractionCoord(d.xMin, d.xMax, r, i);
      var y := FractionCoord(d.yMin, d.yMax, r, j);
      var z := TracerZ(g, x, y);
      // `isFinite(z)` always holds: evaluateZ never gives NaN or ±Infinity.
      zValues := zValues + [z];
      j := j + 1;
    }
  }

  /** `minZ + level * zStep` */
  function Target(minZ: real, zStep: real, level: nat): real {
    minZ + (level as real) * zStep
  }

  /** The first target is the lowest height and the last the highest: the
      targets span the sampled range in `levels` equal steps. */
  lemma TargetEnds(minZ: real, maxZ: real, levels: nat)
    requires levels >= 1
    ensures Target(minZ, (maxZ - minZ) / (levels as real), 0) == minZ
    ensures Target(minZ, (maxZ - minZ) / (levels as real), levels) == maxZ
  {
    var l := levels as real;
    assert l * ((maxZ - minZ) / l) == maxZ - minZ;
  }

  /** One contour: its level and its points. */
  datatype Line = Line(level: nat, points: seq<Vec3>)

  /** The points traced at `target`: the grid points (i, j) with i, j < r
      whose height lies strictly within `tol` of `target`, placed at
      `target`. */
  function LevelPoints(g: (real, real) -> Outcome, d: Domain, r: nat, target: real, tol: real): seq<Vec3>
    requires r >= 1
  {
    BandGrid(g, d, r, target, tol, r, r)
  }

  /** The lines of the levels below `level` that have more than two points. */
  function Contours(g: (real, real) -> Outcome, d: Domain, r: nat, minZ: real, zStep: real, level: nat)
    : (lines: seq<Line>)
    requires r >= 1
    ensures |lines| <= level
  {
    if level == 0 then []
    else
      var points := LevelPoints(g, d, r, Target(minZ, zStep, level - 1), zStep * 0.1);
      Contours(g, d, r, minZ, zStep, level - 1) + (if |points| > 2 then [Line(level - 1, points)] else [])
  }

  /** Every line lies below `level`, has more than two points, holds the
      points traced at its own level's target, and the levels rise strictly
      along the list. */
  predicate WellTraced(g: (real, real) -> Outcome, d: Domain, r: nat, minZ: real, zStep: real, level: nat,
                       lines: seq<Line>)
    requires r >= 1
  {
    (forall k :: 0 <= k < |lines| ==> lines[k].level < level && |lines[k].points| > 2) &&
    (forall k :: 0 <= k < |lines| ==>
      lines[k].points == LevelPoints(g, d, r, Target(minZ, zStep, lines[k].level), zStep * 0.1)) &&
    (forall k, m :: 0 <= k < m < |lines| ==> lines[k].level < lines[m].level)
  }

  lemma {:induction false} ContoursShape(g: (real, real) -> Outcome, d: Domain, r: nat, minZ: real, zStep: real, level: nat)
    requires r >= 1
    ensures WellTraced(g, d, r, minZ, zStep, level, Contours(g, d, r, minZ, zStep, level))
  {
    if level > 0 {
      ContoursShape(g, d, r, minZ, zStep, level - 1);
      var prev := Contours(g, d, r, minZ, zStep, level - 1);
      var points := LevelPoints(g, d, r, Target(minZ, zStep, level - 1), zStep * 0.1);
      var lines := Contours(g, d, r, minZ, zStep, level);
      assert lines == prev + (if |points| > 2 then [Line(level - 1, points)] else []);
      forall k | 0 <= k < |lines|
        ensures lines[k].level < level && |lines[k].points| > 2 &&
          lines[k].points == LevelPoints(g, d, r, Target(minZ, zStep, lines[k].level), zStep * 0.1)
      {
        if k < |prev| {
          assert lines[k] == prev[k];
        } else {
          assert |points| > 2 && lines[k] == Line(level - 1, points);
        }
      }
      forall k, m | 0 <= k < m < |lines| ensures lines[k].level < lines[m].level {
        if m < |prev| {
          assert lines[k] == prev[k] && lines[m] == prev[m];
        } else {
          assert lines[k] == prev[k];
        }
      }
    }
  }

  /** With a step of zero no height is strictly within zero of a target,
      so no line is produced. */
  lemma {:induction false} FlatContours(g: (real, real) -> Outcome, d: Domain, r: nat, minZ: real, level: nat)
    requires r >= 1
    ensures Contours(g, d, r, minZ, 0.0, level) == []
  {
    if level > 0 {
      FlatContours(g, d, r, minZ, level - 1);
      BandGridEmpty(g, d, r, Target(minZ, 0.0, level - 1), 0.0 * 0.1, r, r);
    }
  }

  /** The component: the heights, their least and greatest, the step, and
      for each of the levels + 1 targets a line when more than two points
      are within a tenth of a step. */
  method ContourLines(g: (real, real) -> Outcome, d: Domain, r: nat, levels: nat)
    returns (lines: seq<Line>)
    requires r >= 1 && levels >= 1
    ensures var zs := ZGrid(g, d, r, r + 1);
      zs != [] &&
      lines == Contours(g, d, r, Lowest(zs).value,
                        (Highest(zs).value - Lowest(zs).value) / (levels as real), levels + 1)
  {
    var zValues := ZValues(g, d, r);
    var minZ := Lowest(zValues).value;
    var maxZ := Highest(zValues).value;
    var zStep := (maxZ - minZ) / (levels as real);
    lines := TraceLevels(g, d, r, minZ, zStep, levels);
  }

  /** The level loop: for level = 0 .. levels, trace the target
      minZ + level · zStep and keep the line when it has more than two
      points. */
  method TraceLevels(g: (real, real) -> Outcome, d: Domain, r: nat, minZ: real, zStep: real, levels: nat)
    returns (lines: seq<Line>)
    requires r >= 1
    ensures lines == Contours(g, d, r, minZ, zStep, levels + 1)
  {
    lines := [];
    var level := 0;
    while level <= levels
      invariant 0 <= level <= levels + 1
      invariant lines == Contours(g, d, r, minZ, zStep, level)
    {
      var targetZ := minZ + (level as real) * zStep;
      var points := TraceBand(g, d, r, targetZ, zStep * 0.1, r);
      assert points == LevelPoints(g, d, r, Target(minZ, zStep, level), zStep * 0.1);
      if |points| > 2 {
        lines := lines + [Line(level, points)];
      } else {
        assert lines + [] == lines;
      }
      level := level + 1;
    }
  }

  /** A flat function, whose lowest and highest heights agree, draws no
      contour. */
  lemma FlatFunctionNoLines(g: (real, real) -> Outcome, d: Domain, r: nat, levels: nat)
    requires r >= 1 && levels >= 1
    requires var zs := ZGrid(g, d, r, r + 1); zs != [] && Lowest(zs) == Highest(zs)
    ensures var zs := ZGrid(g, d, r, r + 1);
      Contours(g, d, r, Lowest(zs).value, (Highest(zs).value - Lowest(zs).value) / (levels as real), levels + 1) == []
  {
    var zs := ZGrid(g, d, r, r + 1);
    assert (Highest(zs).value - Lowest(zs).value) / (levels as real) == 0.0;
    FlatContours(g, d, r, Lowest(zs).value, levels + 1);
  }
}
