/** What the two tracers (`ContourLines` and `PlaneIntersections`) share:
    their `evaluateZ`, which turns every failure into 0, and the scan of a
    square block of grid points that keeps those whose height lies strictly
    within a tolerance of a target height and places them on that height. */
module Tracing {
  import opened Geometry

  /** The tracers' `evaluateZ`: a finite result is kept; NaN, ±Infinity and
      an exception all become 0. The value is therefore always a finite
      number, and the `isFinite` guards of both tracers always pass. */
  function TracerZ(g: (real, real) -> Outcome, x: real, y: real): real {
    match g(x, y)
    case Finite(v) => v
    case _ => 0.0
  }

  /** `Math.abs` */
  function Abs(v: real): real {
    if v < 0.0 then -v else v
  }

  /** Grid point (i, j), `min + (i / resolution) * (max - min)`, placed on
      the target height. */
  function BandPoint(d: Domain, r: nat, i: nat, j: nat, target: real): Vec3
    requires r >= 1
  {
    (FractionCoord(d.xMin, d.xMax, r, i), FractionCoord(d.yMin, d.yMax, r, j), target)
  }

  /** `Math.abs(z - target) < tol` for the height at grid point (i, j). */
  predicate BandHit(g: (real, real) -> Outcome, d: Domain, r: nat, i: nat, j: nat, target: real, tol: real)
    requires r >= 1
  {
    Abs(TracerZ(g, FractionCoord(d.xMin, d.xMax, r, i), FractionCoord(d.yMin, d.yMax, r, j)) - target) < tol
  }

  /** The points the scan keeps among the first `j` points of row `i`. */
  function BandRow(g: (real, real) -> Outcome, d: Domain, r: nat, target: real, tol: real, i: nat, j: nat)
    : (ps: seq<Vec3>)
    requires r >= 1
    ensures |ps| <= j
  {
    if j == 0 then []
    else
      BandRow(g, d, r, target, tol, i, j - 1) +
      (if BandHit(g, d, r, i, j - 1, target, tol) then [BandPoint(d, r, i, j - 1, target)] else [])
  }

  /** The points the scan keeps in the first `i` rows of `n` points each, in
      loop order. */
  function BandGrid(g: (real, real) -> Outcome, d: Domain, r: nat, target: real, tol: real, n: nat, i: nat)
    : (ps: seq<Vec3>)
    requires r >= 1
    ensures |ps| <= Mul(i, n)
  {
    if i == 0 then []
    else
      MulSucc(i - 1, n);
      BandGrid(g, d, r, target, tol, n, i - 1) + BandRow(g, d, r, target, tol, i - 1, n)
  }

  /** A row keeps exactly its points within the tolerance. */
  lemma {:induction false} BandRowMembers(g: (real, real) -> Outcome, d: Domain, r: nat, target: real, tol: real,
                                          i: nat, j: nat)
    requires r >= 1
    ensures forall p :: p in BandRow(g, d, r, target, tol, i, j) <==>
      exists jj :: 0 <= jj < j && BandHit(g, d, r, i, jj, target, tol) && p == BandPoint(d, r, i, jj, target)
  {
    if j > 0 {
      BandRowMembers(g, d, r, target, tol, i, j - 1);
      var prev := BandRow(g, d, r, target, tol, i, j - 1);
      var hit := BandHit(g, d, r, i, j - 1, target, tol);
      var last := BandPoint(d, r, i, j - 1, target);
      assert BandRow(g, d, r, target, tol, i, j) == prev + (if hit then [last] else []);
      forall p | p in BandRow(g, d, r, target, tol, i, j)
        ensures exists jj :: 0 <= jj < j && BandHit(g, d, r, i, jj, target, tol) && p == BandPoint(d, r, i, jj, target)
      {
        if p !in prev {
          assert hit && p == last;
        }
      }
    }
  }

  /** The scan of `i` rows keeps exactly the points of those rows and of the
      first `n` columns that lie within the tolerance, each placed on the
      target height. */
  lemma {:induction false} BandGridMembers(g: (real, real) -> Outcome, d: Domain, r: nat, target: real, tol: real,
                                           n: nat, i: nat)
    requires r >= 1
    ensures forall p :: p in BandGrid(g, d, r, target, tol, n, i) <==>
      exists ii, jj :: 0 <= ii < i && 0 <= jj < n && BandHit(g, d, r, ii, jj, target, tol) &&
        p == BandPoint(d, r, ii, jj, target)
  {
    if i > 0 {
      BandGridMembers(g, d, r, target, tol, n, i - 1);
      BandRowMembers(g, d, r, target, tol, i - 1, n);
      var prev, row := BandGrid(g, d, r, target, tol, n, i - 1), BandRow(g, d, r, target, tol, i - 1, n);
      assert BandGrid(g, d, r, target, tol, n, i) == prev + row;
      forall p | p in prev + row
        ensures exists ii, jj ::
                  0 <= ii < i && 0 <= jj < n && BandHit(g, d, r, ii, jj, target, tol) && p == BandPoint(d, r, ii, jj, target)
      {
        if p in row {
          var jj :| 0 <= jj < n && BandHit(g, d, r, i - 1, jj, target, tol) && p == BandPoint(d, r, i - 1, jj, target);
        }
      }
      forall ii, jj | 0 <= ii < i && 0 <= jj < n && BandHit(g, d, r, ii, jj, target, tol)
        ensures BandPoint(d, r, ii, jj, target) in prev + row
      {
        if ii == i - 1 {
          assert BandPoint(d, r, ii, jj, target) in row;
        } else {
          assert BandPoint(d, r, ii, jj, target) in prev;
        }
      }
    }
  }

  /** With a tolerance of zero or less nothing is within it. */
  lemma {:induction false} BandGridEmpty(g: (real, real) -> Outcome, d: Domain, r: nat, target: real, tol: real,
                                         n: nat, i: nat)
    requires r >= 1 && tol <= 0.0
    ensures BandGrid(g, d, r, target, tol, n, i) == []
  {
    BandGridMembers(g, d, r, target, tol, n, i);
    if BandGrid(g, d, r, target, tol, n, i) != [] {
      assert BandGrid(g, d, r, target, tol, n, i)[0] in BandGrid(g, d, r, target, tol, n, i);
      assert false;
    }
  }

  lemma BandStep(prefix: seq<Vec3>, g: (real, real) -> Outcome, d: Domain, r: nat, target: real, tol: real,
                 i: nat, j: nat)
    requires r >= 1
    ensures BandHit(g, d, r, i, j, target, tol) ==>
      prefix + BandRow(g, d, r, target, tol, i, j + 1) ==
      (prefix + BandRow(g, d, r, target, tol, i, j)) + [BandPoint(d, r, i, j, target)]
    ensures !BandHit(g, d, r, i, j, target, tol) ==>
      prefix + BandRow(g, d, r, target, tol, i, j + 1) == prefix + BandRow(g, d, r, target, tol, i, j)
  {
    assert BandRow(g, d, r, target, tol, i, j) + [] == BandRow(g, d, r, target, tol, i, j);
  }

  /** The scan: for every grid point (i, j) with i, j < n, row by row, push
      (x, y, target) when the height at (x, y) lies strictly within `tol` of
      `target`. */
  method TraceBand(g: (real, real) -> Outcome, d: Domain, r: nat, target: real, tol: real, n: nat)
    returns (points: seq<Vec3>)
    requires r >= 1
    ensures points == BandGrid(g, d, r, target, tol, n, n)
  {
    points := [];
    var i := 0;
    while i < n
      invariant 0 <= i <= n
      invariant points == BandGrid(g, d, r, target, tol, n, i)
    {
      points := TraceBandRow(g, d, r, target, tol, n, i, points);
      i := i + 1;
    }
  }

  /** One pass of the scan's inner loop: the points of row `i`. */
  method TraceBandRow(g: (real, real) -> Outcome, d: Domain, r: nat, target: real, tol: real, n: nat, i: nat,
                      prefix: seq<Vec3>)
    returns (points: seq<Vec3>)
    requires r >= 1
    ensures points == prefix + BandRow(g, d, r, target, tol, i, n)
  {
    points := prefix;
    assert prefix + BandRow(g, d, r, target, tol, i, 0) == prefix;
    var j := 0;
    while j < n
      invariant 0 <= j <= n
      invariant points == prefix + BandRow(g, d, r, target, tol, i, j)
    {
      var x := FractionCoord(d.xMin, d.xMax, r, i);
      var y := FractionCoord(d.yMin, d.yMax, r, j);
      var z := TracerZ(g, x, y);
      BandStep(prefix, g, d, r, target, tol, i, j);
      if Abs(z - target) < tol {
        points := points + [(x, y, target)];
      }
      j := j + 1;
    }
  }
}
