/** Vocabulary shared by the surface, curve and tracer builders: what one
    evaluation of a formula gives, the flat number buffers handed to the
    renderer, the regular sampling grid, its triangle layout, the running
    minimum and maximum, and the blue-to-red colour ramp. */
module Geometry {

  /** What evaluating a substituted formula at one point gives: a finite
      number, NaN or ±Infinity, or an exception. */
  datatype Outcome = Finite(value: real) | NonFinite | Threw

  /** Three numbers pushed together: a position or an RGB colour. */
  type Vec3 = (real, real, real)

  /** Three vertex indices pushed together. */
  type Face = (nat, nat, nat)

  /** The flat buffer that pushing each triple in turn produces. */
  function Flatten<T>(ts: seq<(T, T, T)>): (r: seq<T>)
    ensures |r| == 3 * |ts|
  {
    if ts == [] then []
    else
      var last := ts[|ts| - 1];
      Flatten(ts[..|ts| - 1]) + [last.0, last.1, last.2]
  }

  lemma FlattenSnoc<T>(ts: seq<(T, T, T)>, t: (T, T, T))
    ensures Flatten(ts + [t]) == Flatten(ts) + [t.0, t.1, t.2]
  {
    assert (ts + [t])[..|ts|] == ts;
  }

  lemma {:induction false} FlattenAppend<T>(a: seq<(T, T, T)>, b: seq<(T, T, T)>)
    ensures Flatten(a + b) == Flatten(a) + Flatten(b)
    decreases |b|
  {
    if b != [] {
      var n := |b| - 1;
      FlattenAppend(a, b[..n]);
      assert a + b == (a + b[..n]) + [b[n]];
      assert b == b[..n] + [b[n]];
      FlattenSnoc(a + b[..n], b[n]);
      FlattenSnoc(b[..n], b[n]);
    } else {
      assert a + b == a;
    }
  }

  lemma SliceMiddle<T>(x: seq<T>, y: seq<T>, z: seq<T>)
    ensures (x + y + z)[|x|..|x| + |y|] == y
  {
  }

  lemma SplitThree<T>(s: seq<T>, lo: nat, hi: nat)
    requires lo <= hi <= |s|
    ensures s == s[..lo] + s[lo..hi] + s[hi..]
  {
    var front := s[..hi];
    assert front[..lo] == s[..lo] && front[lo..] == s[lo..hi];
    assert front == front[..lo] + front[lo..];
    assert s == front + s[hi..];
  }

  /** Flattening a run of triples cuts the matching run out of the buffer. */
  lemma FlattenSlice<T>(ts: seq<(T, T, T)>, lo: nat, hi: nat)
    requires lo <= hi <= |ts|
    ensures Flatten(ts[lo..hi]) == Flatten(ts)[3 * lo..3 * hi]
  {
    var a, b, c := ts[..lo], ts[lo..hi], ts[hi..];
    SplitThree(ts, lo, hi);
    FlattenThree(a, b, c);
    SliceMiddle(Flatten(a), Flatten(b), Flatten(c));
  }

  lemma FlattenThree<T>(a: seq<(T, T, T)>, b: seq<(T, T, T)>, c: seq<(T, T, T)>)
    ensures Flatten(a + b + c) == Flatten(a) + Flatten(b) + Flatten(c)
  {
    FlattenAppend(a + b, c);
    FlattenAppend(a, b);
  }

  /** The triple stored at slot `k` of a flat buffer. */
  function TripleAt<T>(buf: seq<T>, k: nat): (T, T, T)
    requires 3 * k + 2 < |buf|
  {
    (buf[3 * k], buf[3 * k + 1], buf[3 * k + 2])
  }

  /** Slot `k` of the flat buffer holds the `k`-th triple. */
  lemma {:induction false} TripleAtFlatten<T>(ts: seq<(T, T, T)>, k: nat)
    requires k < |ts|
    ensures TripleAt(Flatten(ts), k) == ts[k]
  {
    var n := |ts| - 1;
    if k < n {
      TripleAtFlatten(ts[..n], k);
    }
  }

  /** The rectangle sampled by the surface builders. */
  datatype Domain = Domain(xMin: real, xMax: real, yMin: real, yMax: real)

  /** `min + i * step` with `step = (max - min) / resolution`. */
  function StepCoord(lo: real, hi: real, r: nat, i: nat): (c: real)
    requires r >= 1
    ensures i == 0 ==> c == lo
    ensures i == r ==> c == hi
  {
    lo + (i as real) * ((hi - lo) / (r as real))
  }

  /** `min + (i / resolution) * (max - min)`. */
  function FractionCoord(lo: real, hi: real, r: nat, i: nat): (c: real)
    requires r >= 1
    ensures i == 0 ==> c == lo
    ensures i == r ==> c == hi
  {
    lo + ((i as real) / (r as real)) * (hi - lo)
  }

  /** `a * b` as repeated addition. The grid's index arithmetic is written
      with it so that it stays linear for the verifier; `MulIsProduct` shows
      it is the ordinary product. */
  function Mul(a: nat, b: nat): nat {
    if a == 0 then 0 else Mul(a - 1, b) + b
  }

  lemma {:induction false} MulIsProduct(a: nat, b: nat)
    ensures Mul(a, b) == a * b
  {
    if a > 0 {
      MulIsProduct(a - 1, b);
      assert (a - 1) * b + b == a * b;
    }
  }

  /** Number of points of a grid with `r + 1` samples per side. */
  function Cells(r: nat): nat {
    Mul(r + 1, r + 1)
  }

  lemma {:induction false} MulLeq(a: nat, b: nat, c: nat)
    requires a <= b
    ensures Mul(a, c) <= Mul(b, c)
    decreases b
  {
    if a < b {
      MulLeq(a, b - 1, c);
    }
  }

  lemma MulSucc(i: nat, w: nat)
    ensures Mul(i + 1, w) == Mul(i, w) + w
  {
  }

  /** The two triangles of grid cell (i, j): with a = i(r+1)+j, b = a+1,
      c = a+r+1 and d = c+1, the triangles (a, b, c) and (b, d, c). */
  function CellFaces(r: nat, i: nat, j: nat): seq<Face> {
    var a := Mul(i, r + 1) + j;
    var b := a + 1;
    var c := a + (r + 1);
    var d := c + 1;
    [(a, b, c), (b, d, c)]
  }

  predicate FaceBelow(f: Face, n: nat) {
    f.0 < n && f.1 < n && f.2 < n
  }

  predicate FacesBelow(fs: seq<Face>, n: nat) {
    forall t :: 0 <= t < |fs| ==> FaceBelow(fs[t], n)
  }

  /** Both triangles of a cell of the r×r cell grid index the (r+1)² points. */
  lemma CellFacesInRange(r: nat, i: nat, j: nat)
    requires i < r && j < r
    ensures FacesBelow(CellFaces(r, i, j), Cells(r))
  {
    MulLeq(i, r - 1, r + 1);
    MulSucc(r - 1, r + 1);
    MulSucc(r, r + 1);
    assert FaceBelow(CellFaces(r, i, j)[0], Cells(r)) && FaceBelow(CellFaces(r, i, j)[1], Cells(r));
  }

  lemma FacesBelowAppend(a: seq<Face>, b: seq<Face>, n: nat)
    requires FacesBelow(a, n) && FacesBelow(b, n)
    ensures FacesBelow(a + b, n)
  {
    forall t | 0 <= t < |a + b| ensures FaceBelow((a + b)[t], n) {
      if t >= |a| {
        assert (a + b)[t] == b[t - |a|];
      }
    }
  }

  /** The triangles of the first `j` cells of row `i`. */
  function RowFaces(r: nat, i: nat, j: nat): (fs: seq<Face>)
    ensures |fs| == 2 * j
  {
    if j == 0 then [] else RowFaces(r, i, j - 1) + CellFaces(r, i, j - 1)
  }

  /** The triangles of the first `i` rows of cells, two per cell, in loop
      order. */
  function GridFaces(r: nat, i: nat): (fs: seq<Face>)
    ensures |fs| == 2 * Mul(i, r)
  {
    if i == 0 then []
    else
      MulSucc(i - 1, r);
      GridFaces(r, i - 1) + RowFaces(r, i - 1, r)
  }

  /** Cell k of a row sits at positions 2k and 2k+1. */
  lemma {:induction false} RowFacesAt(r: nat, i: nat, j: nat, k: nat)
    requires k < j
    ensures RowFaces(r, i, j)[2 * k..2 * k + 2] == CellFaces(r, i, k)
  {
    if k < j - 1 {
      RowFacesAt(r, i, j - 1, k);
      var prev := RowFaces(r, i, j - 1);
      assert RowFaces(r, i, j)[2 * k..2 * k + 2] == prev[2 * k..2 * k + 2];
    }
  }

  lemma SliceLeft<T>(x: seq<T>, y: seq<T>, lo: nat, hi: nat)
    requires lo <= hi <= |x|
    ensures (x + y)[lo..hi] == x[lo..hi]
  {
  }

  lemma SliceRight<T>(x: seq<T>, y: seq<T>, lo: nat, hi: nat)
    requires |x| <= lo <= hi <= |x| + |y|
    ensures (x + y)[lo..hi] == y[lo - |x|..hi - |x|]
  {
  }

  /** Cell (i, j) sits at positions 2(ir + j) and 2(ir + j) + 1. */
  lemma {:induction false} GridFacesAt(r: nat, n: nat, i: nat, j: nat)
    requires i < n && j < r
    ensures 2 * (Mul(i, r) + j) + 2 <= |GridFaces(r, n)|
    ensures GridFaces(r, n)[2 * (Mul(i, r) + j)..2 * (Mul(i, r) + j) + 2] == CellFaces(r, i, j)
  {
    var prev, row := GridFaces(r, n - 1), RowFaces(r, n - 1, r);
    var m := Mul(i, r) + j;
    MulSucc(i, r);
    MulSucc(n - 1, r);
    assert GridFaces(r, n) == prev + row;
    if i < n - 1 {
      GridFacesAt(r, n - 1, i, j);
      SliceLeft(prev, row, 2 * m, 2 * m + 2);
    } else {
      RowFacesAt(r, i, r, j);
      SliceRight(prev, row, 2 * m, 2 * m + 2);
    }
  }

  lemma {:induction false} RowFacesInRange(r: nat, i: nat, j: nat)
    requires i < r && j <= r
    ensures FacesBelow(RowFaces(r, i, j), Cells(r))
  {
    if j > 0 {
      RowFacesInRange(r, i, j - 1);
      CellFacesInRange(r, i, j - 1);
      FacesBelowAppend(RowFaces(r, i, j - 1), CellFaces(r, i, j - 1), Cells(r));
    }
  }

  /** Every index of the layout names one of the (r+1)² grid points. */
  lemma {:induction false} GridFacesInRange(r: nat, n: nat)
    requires n <= r
    ensures FacesBelow(GridFaces(r, n), Cells(r))
  {
    if n > 0 {
      GridFacesInRange(r, n - 1);
      RowFacesInRange(r, n - 1, r);
      FacesBelowAppend(GridFaces(r, n - 1), RowFaces(r, n - 1, r), Cells(r));
    }
  }

  lemma FlattenCell(done: seq<Face>, a: nat, b: nat, c: nat, d: nat)
    ensures Flatten(done + [(a, b, c), (b, d, c)]) == Flatten(done) + [a, b, c] + [b, d, c]
  {
    assert done + [(a, b, c), (b, d, c)] == (done + [(a, b, c)]) + [(b, d, c)];
    FlattenSnoc(done, (a, b, c));
    FlattenSnoc(done + [(a, b, c)], (b, d, c));
  }

  lemma RowFacesSnoc(prefix: seq<Face>, r: nat, i: nat, j: nat)
    ensures prefix + RowFaces(r, i, j + 1) == (prefix + RowFaces(r, i, j)) + CellFaces(r, i, j)
  {
  }

  /** The loop body for cell (i, j) pushes that cell's six indices. */
  lemma CellStep(done: seq<Face>, r: nat, i: nat, j: nat, a: nat, b: nat, c: nat, d: nat)
    requires a == Mul(i, r + 1) + j && b == a + 1 && c == a + (r + 1) && d == c + 1
    ensures Flatten(done + CellFaces(r, i, j)) == Flatten(done) + [a, b, c] + [b, d, c]
  {
    assert CellFaces(r, i, j) == [(a, b, c), (b, d, c)];
    FlattenCell(done, a, b, c, d);
  }

  /** The triangle loop of both surface builders: for every cell (i, j) of
      the r×r cell grid, row by row, push (a, b, c) and then (b, d, c). */
  method GridIndices(r: nat) returns (indices: seq<nat>)
    ensures indices == Flatten(GridFaces(r, r))
  {
    indices := [];
    var i := 0;
    while i < r
      invariant 0 <= i <= r
      invariant indices == Flatten(GridFaces(r, i))
    {
      indices := GridRow(r, i, indices);
      i := i + 1;
    }
  }

  /** One pass of the inner loop: the cells of row `i`. */
  method GridRow(r: nat, i: nat, prefix: seq<nat>) returns (indices: seq<nat>)
    requires prefix == Flatten(GridFaces(r, i))
    ensures indices == Flatten(GridFaces(r, i + 1))
  {
    indices := prefix;
    ghost var done := GridFaces(r, i) + RowFaces(r, i, 0);  // the cells pushed so far
    assert done == GridFaces(r, i);
    var j := 0;
    while j < r
      invariant 0 <= j <= r
      invariant done == GridFaces(r, i) + RowFaces(r, i, j)
      invariant indices == Flatten(done)
    {
      var a: nat := Mul(i, r + 1) + j;
      var b: nat := a + 1;
      var c: nat := a + (r + 1);
      var d: nat := c + 1;
      CellStep(done, r, i, j, a, b, c, d);
      indices := indices + [a, b, c];
      indices := indices + [b, d, c];
      RowFacesSnoc(GridFaces(r, i), r, i, j);
      done := done + CellFaces(r, i, j);
      j := j + 1;
    }
  }

  lemma FlattenBelow(fs: seq<Face>, n: nat)
    requires FacesBelow(fs, n)
    ensures forall t :: 0 <= t < |Flatten(fs)| ==> Flatten(fs)[t] < n
  {
    var flat := Flatten(fs);
    forall t | 0 <= t < |flat| ensures flat[t] < n {
      var k := t / 3;
      assert FaceBelow(fs[k], n);
      TripleAtFlatten(fs, k);
      assert t == 3 * k || t == 3 * k + 1 || t == 3 * k + 2;
    }
  }

  /** The triangle loop's 6r² indices each name one of the (r+1)² grid points. */
  lemma GridIndicesInRange(r: nat)
    ensures |Flatten(GridFaces(r, r))| == 6 * Mul(r, r)
    ensures forall t :: 0 <= t < |Flatten(GridFaces(r, r))| ==> Flatten(GridFaces(r, r))[t] < Cells(r)
  {
    GridFacesInRange(r, r);
    FlattenBelow(GridFaces(r, r), Cells(r));
  }

  /** Cell (i, j)'s six indices sit at position 6(ir + j) of the loop's output. */
  lemma GridIndicesCell(r: nat, i: nat, j: nat)
    requires i < r && j < r
    ensures 6 * (Mul(i, r) + j) + 6 <= |Flatten(GridFaces(r, r))|
    ensures Flatten(GridFaces(r, r))[6 * (Mul(i, r) + j)..6 * (Mul(i, r) + j) + 6] == Flatten(CellFaces(r, i, j))
  {
    GridFacesAt(r, r, i, j);
    CellRun(GridFaces(r, r), Mul(i, r) + j, CellFaces(r, i, j));
  }

  /** Two faces at face position 2m are six indices at buffer position 6m. */
  lemma CellRun(fs: seq<Face>, m: nat, cell: seq<Face>)
    requires 2 * m + 2 <= |fs| && fs[2 * m..2 * m + 2] == cell
    ensures 6 * m + 6 <= |Flatten(fs)|
    ensures Flatten(fs)[6 * m..6 * m + 6] == Flatten(cell)
  {
    FlattenSlice(fs, 2 * m, 2 * m + 2);
  }

  /** The blue-to-red colour ramp (n, 0.3, 1 - n). */
  function Ramp(n: real): Vec3 {
    (n, 0.3, 1.0 - n)
  }

  /** `(z - minZ) / (maxZ - minZ || 1)`: a zero range divides by 1. */
  function Normalized(z: real, lo: real, hi: real): (n: real)
    ensures lo <= z <= hi ==> 0.0 <= n <= 1.0
    ensures lo == hi ==> n == z - lo
    ensures lo < hi ==> (n == 0.0 <==> z == lo) && (n == 1.0 <==> z == hi)
  {
    (z - lo) / (if hi - lo == 0.0 then 1.0 else hi - lo)
  }

  /** A running bound that starts at `Infinity` or `-Infinity`. */
  datatype Bound = PosInf | NegInf | Fin(value: real)

  /** `Math.min(b, z)` */
  function MinWith(b: Bound, z: real): Bound {
    match b
    case PosInf => Fin(z)
    case NegInf => NegInf
    case Fin(m) => Fin(if z < m then z else m)
  }

  /** `Math.max(b, z)` */
  function MaxWith(b: Bound, z: real): Bound {
    match b
    case PosInf => PosInf
    case NegInf => Fin(z)
    case Fin(m) => Fin(if z > m then z else m)
  }

  /** The minimum kept by `Math.min` over `zs` in turn, starting from `Infinity`. */
  function Lowest(zs: seq<real>): (b: Bound)
    ensures zs == [] <==> b == PosInf
    ensures zs != [] ==> b.Fin?
  {
    if zs == [] then PosInf
    else MinWith(Lowest(zs[..|zs| - 1]), zs[|zs| - 1])
  }

  /** The maximum kept by `Math.max` over `zs` in turn, starting from `-Infinity`. */
  function Highest(zs: seq<real>): (b: Bound)
    ensures zs == [] <==> b == NegInf
    ensures zs != [] ==> b.Fin?
  {
    if zs == [] then NegInf
    else MaxWith(Highest(zs[..|zs| - 1]), zs[|zs| - 1])
  }

  /** Starting from `Infinity`, the running `Math.min` ends at the least
      element, which is one of the elements. */
  lemma {:induction false} LowestIsMinimum(zs: seq<real>)
    requires zs != []
    ensures forall k :: 0 <= k < |zs| ==> Lowest(zs).value <= zs[k]
    ensures exists k :: 0 <= k < |zs| && zs[k] == Lowest(zs).value
    decreases |zs|
  {
    var n := |zs| - 1;
    var init := zs[..n];
    if init == [] {
      assert zs[0] == Lowest(zs).value;
    } else {
      LowestIsMinimum(init);
      var k :| 0 <= k < |init| && init[k] == Lowest(init).value;
      if zs[n] < Lowest(init).value {
        assert zs[n] == Lowest(zs).value;
      } else {
        assert zs[k] == Lowest(zs).value;
      }
      forall m | 0 <= m < |zs| ensures Lowest(zs).value <= zs[m] {
        if m < n {
          assert zs[m] == init[m];
        }
      }
    }
  }

  /** Starting from `-Infinity`, the running `Math.max` ends at the greatest
      element, which is one of the elements. */
  lemma {:induction false} HighestIsMaximum(zs: seq<real>)
    requires zs != []
    ensures forall k :: 0 <= k < |zs| ==> zs[k] <= Highest(zs).value
    ensures exists k :: 0 <= k < |zs| && zs[k] == Highest(zs).value
    decreases |zs|
  {
    var n := |zs| - 1;
    var init := zs[..n];
    if init == [] {
      assert zs[0] == Highest(zs).value;
    } else {
      HighestIsMaximum(init);
      var k :| 0 <= k < |init| && init[k] == Highest(init).value;
      if zs[n] > Highest(init).value {
        assert zs[n] == Highest(zs).value;
      } else {
        assert zs[k] == Highest(zs).value;
      }
      forall m | 0 <= m < |zs| ensures zs[m] <= Highest(zs).value {
        if m < n {
          assert zs[m] == init[m];
        }
      }
    }
  }

  lemma LowestSnoc(zs: seq<real>, z: real)
    ensures Lowest(zs + [z]) == MinWith(Lowest(zs), z)
  {
    assert (zs + [z])[..|zs|] == zs;
  }

  lemma HighestSnoc(zs: seq<real>, z: real)
    ensures Highest(zs + [z]) == MaxWith(Highest(zs), z)
  {
    assert (zs + [z])[..|zs|] == zs;
  }

  /** The z components of a list of positions. */
  function Heights(ps: seq<Vec3>): (zs: seq<real>)
    ensures |zs| == |ps|
  {
    if ps == [] then [] else Heights(ps[..|ps| - 1]) + [ps[|ps| - 1].2]
  }

  lemma {:induction false} HeightsAt(ps: seq<Vec3>, k: nat)
    requires k < |ps|
    ensures Heights(ps)[k] == ps[k].2
  {
    if k < |ps| - 1 {
      HeightsAt(ps[..|ps| - 1], k);
    }
  }

  lemma HeightsSnoc(ps: seq<Vec3>, p: Vec3)
    ensures Heights(ps + [p]) == Heights(ps) + [p.2]
  {
    assert (ps + [p])[..|ps|] == ps;
  }
}
