/** The quadric surface builder: every grid sample is tagged valid (a finite
    number) or invalid (NaN), the upper sheet stores invalid samples as
    (x, y, 0), the lower sheet mirrors the positive part below the plane,
    colours are normalised over the valid heights only, and the triangles are
    filtered by a validity test on the corners.

    `eval` of the substituted formula (`Substitution.QuadricFormula`) is the
    parameter `g`, which says whether evaluation at (x, y) gave a finite
    number, a NaN or infinity, or threw. */
module QuadricSurface3D {
  import opened Wrappers
  import opened Geometry

  /** One grid sample; `z` is `None` where `evaluateZ` gives NaN. */
  datatype Sample = Sample(x: real, y: real, z: Option<real>)

  /** `evaluateZ`: a finite result is kept; NaN, ±Infinity and an exception
      all become NaN. */
  function QuadricZ(g: (real, real) -> Outcome, x: real, y: real): Option<real> {
    match g(x, y)
    case Finite(v) => Some(v)
    case _ => None
  }

  function QuadricSample(g: (real, real) -> Outcome, d: Domain, r: nat, i: nat, j: nat): Sample
    requires r >= 1
  {
    var x := StepCoord(d.xMin, d.xMax, r, i);
    var y := StepCoord(d.yMin, d.yMax, r, j);
    Sample(x, y, QuadricZ(g, x, y))
  }

  /** The first `j` samples of row `i`. */
  function SampleRow(g: (real, real) -> Outcome, d: Domain, r: nat, i: nat, j: nat): (ss: seq<Sample>)
    requires r >= 1
    ensures |ss| == j
  {
    if j == 0 then [] else SampleRow(g, d, r, i, j - 1) + [QuadricSample(g, d, r, i, j - 1)]
  }

  lemma {:induction false} SampleRowAt(g: (real, real) -> Outcome, d: Domain, r: nat, i: nat, j: nat, k: nat)
    requires r >= 1 && k < j
    ensures SampleRow(g, d, r, i, j)[k] == QuadricSample(g, d, r, i, k)
  {
    if k < j - 1 {
      SampleRowAt(g, d, r, i, j - 1, k);
    }
  }

  /** The first `i` full rows of samples, in loop order. */
  function SampleGrid(g: (real, real) -> Outcome, d: Domain, r: nat, i: nat): (ss: seq<Sample>)
    requires r >= 1
    ensures |ss| == Mul(i, r + 1)
  {
    if i == 0 then []
    else
      MulSucc(i - 1, r + 1);
      SampleGrid(g, d, r, i - 1) + SampleRow(g, d, r, i - 1, r + 1)
  }

  /** Sample (i, j) sits at position i(r+1) + j of the grid. */
  lemma {:induction false} SampleGridAt(g: (real, real) -> Outcome, d: Domain, r: nat, n: nat, i: nat, j: nat)
    requires r >= 1 && i < n && j <= r
    ensures Mul(i, r + 1) + j < |SampleGrid(g, d, r, n)|
    ensures SampleGrid(g, d, r, n)[Mul(i, r + 1) + j] == QuadricSample(g, d, r, i, j)
  {
    var prev, row := SampleGrid(g, d, r, n - 1), SampleRow(g, d, r, n - 1, r + 1);
    assert SampleGrid(g, d, r, n) == prev + row;
    MulSucc(i, r + 1);
    if i < n - 1 {
      SampleGridAt(g, d, r, n - 1, i, j);
    } else {
      SampleRowAt(g, d, r, i, r + 1, j);
    }
  }

  /* ---------------------------------------------------------------------- */
  /* What the vertex loop accumulates                                        */

  /** An upper-sheet vertex: an invalid sample is stored at height 0. */
  function UpperVertex(s: Sample): Vec3 {
    (s.x, s.y, s.z.GetOr(0.0))
  }

  /** The upper sheet: one vertex per sample. */
  function Upper(ss: seq<Sample>): (vs: seq<Vec3>)
    ensures |vs| == |ss|
    ensures forall k :: 0 <= k < |ss| ==> vs[k] == UpperVertex(ss[k])
  {
    if ss == [] then [] else Upper(ss[..|ss| - 1]) + [UpperVertex(ss[|ss| - 1])]
  }

  /** What one sample adds to the lower sheet: the mirror of a positive
      height, a 0 placeholder for an invalid sample, nothing for a valid
      height at or below zero. */
  function LowerPart(s: Sample): seq<Vec3> {
    match s.z
    case Some(z) => if z > 0.0 then [(s.x, s.y, -z)] else []
    case None => [(s.x, s.y, 0.0)]
  }

  /** The lower sheet as the vertex loop builds it. */
  function Lower(ss: seq<Sample>): seq<Vec3> {
    if ss == [] then [] else Lower(ss[..|ss| - 1]) + LowerPart(ss[|ss| - 1])
  }

  /** The heights of the valid samples, in order. */
  function ValidHeights(ss: seq<Sample>): seq<real> {
    if ss == [] then []
    else
      var s := ss[|ss| - 1];
      ValidHeights(ss[..|ss| - 1]) + (if s.z.Some? then [s.z.value] else [])
  }

  /** Valid samples whose height is zero or negative: these are the ones the
      lower sheet drops. */
  function DroppedFromLower(ss: seq<Sample>): (n: nat)
    ensures n <= |ss|
  {
    if ss == [] then 0
    else
      var s := ss[|ss| - 1];
      DroppedFromLower(ss[..|ss| - 1]) + (if s.z.Some? && s.z.value <= 0.0 then 1 else 0)
  }

  /** The lower sheet is one vertex short for every valid sample at or below
      zero. */
  lemma {:induction false} LowerLength(ss: seq<Sample>)
    ensures |Lower(ss)| == |ss| - DroppedFromLower(ss)
    decreases |ss|
  {
    if ss != [] {
      LowerLength(ss[..|ss| - 1]);
    }
  }

  /** Every vertex of the lower sheet lies on or below the plane z = 0. */
  lemma {:induction false} LowerBelowPlane(ss: seq<Sample>)
    ensures forall k :: 0 <= k < |Lower(ss)| ==> Lower(ss)[k].2 <= 0.0
    decreases |ss|
  {
    if ss != [] {
      var init := ss[..|ss| - 1];
      LowerBelowPlane(init);
      var lo := Lower(ss);
      forall k | 0 <= k < |lo| ensures lo[k].2 <= 0.0 {
        if k < |Lower(init)| {
          assert lo[k] == Lower(init)[k];
        } else {
          assert lo[k] == LowerPart(ss[|ss| - 1])[k - |Lower(init)|];
        }
      }
    }
  }

  /** There are valid heights exactly when some sample is valid. */
  lemma {:induction false} ValidHeightsEmpty(ss: seq<Sample>)
    ensures ValidHeights(ss) == [] <==> forall k :: 0 <= k < |ss| ==> ss[k].z.None?
    decreases |ss|
  {
    if ss != [] {
      var init := ss[..|ss| - 1];
      ValidHeightsEmpty(init);
      assert forall k :: 0 <= k < |init| ==> init[k] == ss[k];
    }
  }

  /** Every valid height is a valid sample's z, and every valid sample's z is
      among the valid heights: min and max range over exactly these. */
  lemma {:induction false} ValidHeightsMembers(ss: seq<Sample>)
    ensures forall z :: z in ValidHeights(ss) <==> exists k :: 0 <= k < |ss| && ss[k].z == Some(z)
    decreases |ss|
  {
    if ss != [] {
      var init := ss[..|ss| - 1];
      var last := ss[|ss| - 1];
      ValidHeightsMembers(init);
      forall z ensures z in ValidHeights(ss) <==> exists k :: 0 <= k < |ss| && ss[k].z == Some(z) {
        if z in ValidHeights(init) {
          var k :| 0 <= k < |init| && init[k].z == Some(z);
          assert ss[k] == init[k];
        }
        if exists k :: 0 <= k < |ss| && ss[k].z == Some(z) {
          var k :| 0 <= k < |ss| && ss[k].z == Some(z);
          if k < |init| {
            assert init[k] == ss[k];
          }
        }
      }
    }
  }

  /* ---------------------------------------------------------------------- */
  /* The vertex loop                                                         */

  /** The vertex loop's accumulators: the upper and lower buffers, the
      running minimum and maximum of the valid heights and whether any sample
      was valid. */
  datatype Pass = Pass(vertices: seq<real>, vertices2: seq<real>, minZ: Bound, maxZ: Bound, hasValidPoints: bool)

  /** What the accumulators hold after the samples `ss`: the two sheets
      flattened, the bounds of the valid heights and whether there is one. */
  function Sheets(ss: seq<Sample>, showBothSides: bool): Pass {
    Pass(Flatten(Upper(ss)), if showBothSides then Flatten(Lower(ss)) else [],
         Lowest(ValidHeights(ss)), Highest(ValidHeights(ss)), ValidHeights(ss) != [])
  }

  /** The loop body for one sample. */
  function PushSample(p: Pass, s: Sample, showBothSides: bool): Pass {
    match s.z
    case Some(v) =>
      Pass(p.vertices + [s.x, s.y, v],
           if showBothSides && v > 0.0 then p.vertices2 + [s.x, s.y, -v] else p.vertices2,
           MinWith(p.minZ, v), MaxWith(p.maxZ, v), true)
    case None =>
      Pass(p.vertices + [s.x, s.y, 0.0],
           if showBothSides then p.vertices2 + [s.x, s.y, 0.0] else p.vertices2,
           p.minZ, p.maxZ, p.hasValidPoints)
  }

  /** The accumulators after the loop body has run on the samples `ss`. */
  function VertexPass(ss: seq<Sample>, showBothSides: bool): Pass {
    if ss == [] then Pass([], [], PosInf, NegInf, false)
    else PushSample(VertexPass(ss[..|ss| - 1], showBothSides), ss[|ss| - 1], showBothSides)
  }

  /** One sample more moves the closed form the way the loop body does. */
  lemma PushSampleStep(ss: seq<Sample>, showBothSides: bool)
    requires ss != []
    ensures PushSample(Sheets(ss[..|ss| - 1], showBothSides), ss[|ss| - 1], showBothSides) == Sheets(ss, showBothSides)
  {
    var init, s := ss[..|ss| - 1], ss[|ss| - 1];
    FlattenSnoc(Upper(init), UpperVertex(s));
    if s.z.Some? {
      LowestSnoc(ValidHeights(init), s.z.value);
      HighestSnoc(ValidHeights(init), s.z.value);
      if s.z.value > 0.0 {
        FlattenSnoc(Lower(init), (s.x, s.y, -s.z.value));
      } else {
        assert Lower(init) + [] == Lower(init);
      }
    } else {
      assert ValidHeights(init) + [] == ValidHeights(init);
      FlattenSnoc(Lower(init), (s.x, s.y, 0.0));
    }
  }

  /** The loop's accumulators hold exactly the closed form: the upper sheet,
      the lower sheet when both sides are shown, and min, max and
      `hasValidPoints` over the valid heights. */
  lemma {:induction false} VertexPassSheets(ss: seq<Sample>, showBothSides: bool)
    ensures VertexPass(ss, showBothSides) == Sheets(ss, showBothSides)
    decreases |ss|
  {
    if ss != [] {
      VertexPassSheets(ss[..|ss| - 1], showBothSides);
      PushSampleStep(ss, showBothSides);
    }
  }

  /** The loop body computes sample (i, j), the next sample of the row. */
  lemma SampleStep(g: (real, real) -> Outcome, d: Domain, r: nat, i: nat, j: nat, done: seq<Sample>, s: Sample)
    requires r >= 1
    requires s.x == StepCoord(d.xMin, d.xMax, r, i) && s.y == StepCoord(d.yMin, d.yMax, r, j)
    requires s.z == QuadricZ(g, s.x, s.y)
    ensures done + SampleRow(g, d, r, i, j + 1) == (done + SampleRow(g, d, r, i, j)) + [s]
  {
    assert QuadricSample(g, d, r, i, j) == s;
  }

  /** One more sample is one more run of the loop body. */
  lemma VertexPassSnoc(ss: seq<Sample>, s: Sample, showBothSides: bool)
    ensures VertexPass(ss + [s], showBothSides) == PushSample(VertexPass(ss, showBothSides), s, showBothSides)
  {
    assert (ss + [s])[..|ss|] == ss;
  }

  /** The vertex loop: pushes every sample to the upper sheet (invalid ones
      at height 0), the positive part mirrored and the invalid placeholders
      to the lower sheet when both sides are shown, and keeps min, max and
      `hasValidPoints` over the valid samples only. */
  method QuadricVertices(g: (real, real) -> Outcome, d: Domain, resolution: nat, showBothSides: bool)
    returns (vertices: seq<real>, vertices2: seq<real>, minZ: Bound, maxZ: Bound, hasValidPoints: bool)
    requires resolution >= 1
    ensures Pass(vertices, vertices2, minZ, maxZ, hasValidPoints)
      == VertexPass(SampleGrid(g, d, resolution, resolution + 1), showBothSides)
  {
    var r := resolution;
    vertices, vertices2 := [], [];
    minZ, maxZ := PosInf, NegInf;
    hasValidPoints := false;
    var i := 0;
    while i <= r
      invariant 0 <= i <= r + 1
      invariant Pass(vertices, vertices2, minZ, maxZ, hasValidPoints) == VertexPass(SampleGrid(g, d, r, i), showBothSides)
    {
      vertices, vertices2, minZ, maxZ, hasValidPoints :=
        QuadricRow(g, d, r, i, showBothSides, SampleGrid(g, d, r, i), vertices, vertices2, minZ, maxZ, hasValidPoints);
      SampleGridStep(g, d, r, i, SampleGrid(g, d, r, i));
      i := i + 1;
    }
  }

  /** The grid after row `i` is the grid before it and the row. */
  lemma SampleGridStep(g: (real, real) -> Outcome, d: Domain, r: nat, i: nat, done: seq<Sample>)
    requires r >= 1 && done == SampleGrid(g, d, r, i)
    ensures done + SampleRow(g, d, r, i, r + 1) == SampleGrid(g, d, r, i + 1)
  {
  }

  /** One pass of the inner vertex loop: the samples of row `i`, after the
      samples `done`. */
  method QuadricRow(g: (real, real) -> Outcome, d: Domain, r: nat, i: nat, showBothSides: bool, ghost done: seq<Sample>,
                    vertices0: seq<real>, vertices20: seq<real>, minZ0: Bound, maxZ0: Bound, hasValidPoints0: bool)
    returns (vertices: seq<real>, vertices2: seq<real>, minZ: Bound, maxZ: Bound, hasValidPoints: bool)
    requires r >= 1
    requires Pass(vertices0, vertices20, minZ0, maxZ0, hasValidPoints0) == VertexPass(done, showBothSides)
    ensures Pass(vertices, vertices2, minZ, maxZ, hasValidPoints)
      == VertexPass(done + SampleRow(g, d, r, i, r + 1), showBothSides)
  {
    vertices, vertices2, minZ, maxZ, hasValidPoints := vertices0, vertices20, minZ0, maxZ0, hasValidPoints0;
    ghost var pts := done;  // the samples pushed so far
    assert done + SampleRow(g, d, r, i, 0) == done;
    var j := 0;
    while j <= r
      invariant 0 <= j <= r + 1
      invariant pts == done + SampleRow(g, d, r, i, j)
      invariant Pass(vertices, vertices2, minZ, maxZ, hasValidPoints) == VertexPass(pts, showBothSides)
    {
      var x := StepCoord(d.xMin, d.xMax, r, i);
      var y := StepCoord(d.yMin, d.yMax, r, j);
      var z := QuadricZ(g, x, y);
      ghost var s := Sample(x, y, z);
      SampleStep(g, d, r, i, j, done, s);
      VertexPassSnoc(pts, s, showBothSides);
      match z {
        case Some(v) =>
          vertices := vertices + [x, y, v];
          minZ := MinWith(minZ, v);
          maxZ := MaxWith(maxZ, v);
          hasValidPoints := true;
          if showBothSides && v > 0.0 {
            vertices2 := vertices2 + [x, y, -v];
          }
        case None =>
          vertices := vertices + [x, y, 0.0];
          if showBothSides {
            vertices2 := vertices2 + [x, y, 0.0];
          }
      }
      pts := pts + [s];
      j := j + 1;
    }
  }

  /** The upper sheet has one vertex per grid point, sample (i, j) at
      position i(r+1) + j, an invalid sample stored as (x, y, 0). */
  lemma QuadricLayout(g: (real, real) -> Outcome, d: Domain, r: nat, i: nat, j: nat)
    requires r >= 1 && i <= r && j <= r
    ensures |Upper(SampleGrid(g, d, r, r + 1))| == Cells(r)
    ensures Mul(i, r + 1) + j < Cells(r)
    ensures Upper(SampleGrid(g, d, r, r + 1))[Mul(i, r + 1) + j] == UpperVertex(QuadricSample(g, d, r, i, j))
  {
    SampleGridAt(g, d, r, r + 1, i, j);
  }

  /* ---------------------------------------------------------------------- */
  /* The colour loop                                                         */

  /** The colour loop's `normalized`: 0.5 for every vertex when no sample is
      valid, otherwise the height normalised to [minZ, maxZ] with a zero
      range dividing by 1. With a valid point the bounds are finite. */
  function Shade(z: real, minZ: Bound, maxZ: Bound, hasValidPoints: bool): real
    requires hasValidPoints ==> minZ.Fin? && maxZ.Fin?
  {
    if hasValidPoints then Normalized(z, minZ.value, maxZ.value) else 0.5
  }

  /** The colour loop: one ramp colour per upper vertex, and, when both sides
      are shown, a copy of that colour for every position the lower buffer
      also has. */
  method QuadricColours(vertices: seq<real>, vertices2: seq<real>, minZ: Bound, maxZ: Bound,
                        hasValidPoints: bool, showBothSides: bool)
    returns (colors: seq<real>, colors2: seq<real>)
    requires |vertices| % 3 == 0 && |vertices2| % 3 == 0
    requires hasValidPoints ==> minZ.Fin? && maxZ.Fin?
    ensures |colors| == |vertices|
    ensures forall k :: 0 <= k < |vertices| / 3 ==>
      TripleAt(colors, k) == Ramp(Shade(TripleAt(vertices, k).2, minZ, maxZ, hasValidPoints))
    ensures |colors2| == if showBothSides then Min(|vertices|, |vertices2|) else 0
    ensures forall k :: 0 <= k < |colors2| ==> colors2[k] == colors[k]
  {
    colors, colors2 := [], [];
    var i := 0;
    while i < |vertices|
      invariant i % 3 == 0 && 0 <= i <= |vertices|
      invariant |colors| == i
      invariant forall k :: 0 <= k < i / 3 ==>
        TripleAt(colors, k) == Ramp(Shade(TripleAt(vertices, k).2, minZ, maxZ, hasValidPoints))
      invariant |colors2| == if showBothSides then Min(i, |vertices2|) else 0
      invariant forall k :: 0 <= k < |colors2| ==> colors2[k] == colors[k]
    {
      var z := vertices[i + 2];
      var normalized := if hasValidPoints then Normalized(z, minZ.value, maxZ.value) else 0.5;
      ShadeStep(colors, vertices, i, minZ, maxZ, hasValidPoints);
      colors := colors + [normalized, 0.3, 1.0 - normalized];
      if showBothSides && i < |vertices2| {
        colors2 := colors2 + [normalized, 0.3, 1.0 - normalized];
      }
      i := i + 3;
    }
  }

  /** The colour loop body keeps every earlier colour and adds the one of
      vertex i / 3. */
  lemma ShadeStep(colors: seq<real>, vertices: seq<real>, i: nat, minZ: Bound, maxZ: Bound, hasValidPoints: bool)
    requires i % 3 == 0 && i + 3 <= |vertices| && |colors| == i
    requires hasValidPoints ==> minZ.Fin? && maxZ.Fin?
    requires forall k :: 0 <= k < i / 3 ==>
      TripleAt(colors, k) == Ramp(Shade(TripleAt(vertices, k).2, minZ, maxZ, hasValidPoints))
    ensures var n := Shade(vertices[i + 2], minZ, maxZ, hasValidPoints);
      forall k :: 0 <= k < (i + 3) / 3 ==>
        TripleAt(colors + [n, 0.3, 1.0 - n], k) == Ramp(Shade(TripleAt(vertices, k).2, minZ, maxZ, hasValidPoints))
  {
    var n := Shade(vertices[i + 2], minZ, maxZ, hasValidPoints);
    var next := colors + [n, 0.3, 1.0 - n];
    forall k | 0 <= k < (i + 3) / 3
      ensures TripleAt(next, k) == Ramp(Shade(TripleAt(vertices, k).2, minZ, maxZ, hasValidPoints))
    {
      if k < i / 3 {
        assert TripleAt(next, k) == TripleAt(colors, k);
      } else {
        assert 3 * k == i;
      }
    }
  }

  function Min(a: nat, b: nat): nat {
    if a < b then a else b
  }

  /** A valid vertex's colour channel lies in [0, 1]: its height lies
      between the least and the greatest valid height. */
  lemma QuadricShadeValid(ss: seq<Sample>, k: nat)
    requires k < |ss| && ss[k].z.Some?
    ensures ValidHeights(ss) != []
    ensures var vh := ValidHeights(ss);
      0.0 <= Shade(ss[k].z.value, Lowest(vh), Highest(vh), true) <= 1.0
  {
    var vh := ValidHeights(ss);
    ValidHeightsMembers(ss);
    assert ss[k].z.value in vh;
    var m :| 0 <= m < |vh| && vh[m] == ss[k].z.value;
    LowestIsMinimum(vh);
    HighestIsMaximum(vh);
  }

  /** Without a valid sample every vertex gets n = 0.5, the colour
      (0.5, 0.3, 0.5). */
  lemma QuadricShadeNoValid(ss: seq<Sample>, z: real)
    requires forall k :: 0 <= k < |ss| ==> ss[k].z.None?
    ensures var vh := ValidHeights(ss);
      Ramp(Shade(z, Lowest(vh), Highest(vh), vh != [])) == (0.5, 0.3, 0.5)
  {
    ValidHeightsEmpty(ss);
  }

  /** An invalid sample's 0 placeholder is normalised like a height, so its
      colour can leave [0, 1]: with valid heights 1 and 2, n = -1. */
  lemma PlaceholderShadeOutside()
    ensures var ss := [Sample(0.0, 0.0, None), Sample(1.0, 0.0, Some(1.0)), Sample(2.0, 0.0, Some(2.0))];
      var vh := ValidHeights(ss);
      vh != [] && Shade(UpperVertex(ss[0]).2, Lowest(vh), Highest(vh), true) == -1.0
  {
    var ss := [Sample(0.0, 0.0, None), Sample(1.0, 0.0, Some(1.0)), Sample(2.0, 0.0, Some(2.0))];
    assert ss[..2][..1] == [ss[0]];
    assert ValidHeights(ss[..2][..1]) == [];
    assert ValidHeights(ss[..2]) == [1.0];
    assert ValidHeights(ss) == [1.0, 2.0];
    assert [1.0, 2.0][..1] == [1.0];
  }

  /* ---------------------------------------------------------------------- */
  /* The triangle filter                                                     */

  /** Whether vertex `a` passes the validity test; a read past the end of the
      buffer is `undefined`, which fails it. */
  predicate Keep(valid: seq<bool>, a: nat) {
    a < |valid| && valid[a]
  }

  predicate FaceKept(valid: seq<bool>, f: Face) {
    Keep(valid, f.0) && Keep(valid, f.1) && Keep(valid, f.2)
  }

  /** The triangles of `fs` whose three corners pass, in order. */
  function Filter(fs: seq<Face>, valid: seq<bool>): (kept: seq<Face>)
    ensures |kept| <= |fs|
  {
    if fs == [] then []
    else Filter(fs[..|fs| - 1], valid) + (if FaceKept(valid, fs[|fs| - 1]) then [fs[|fs| - 1]] else [])
  }

  lemma FilterSnoc(fs: seq<Face>, f: Face, valid: seq<bool>)
    ensures Filter(fs + [f], valid) == Filter(fs, valid) + (if FaceKept(valid, f) then [f] else [])
  {
    assert (fs + [f])[..|fs|] == fs;
  }

  /** The filter keeps a triangle exactly when it is in the layout and its
      three corners pass. */
  lemma {:induction false} FilterMembers(fs: seq<Face>, valid: seq<bool>)
    ensures forall f :: f in Filter(fs, valid) <==> f in fs && FaceKept(valid, f)
    decreases |fs|
  {
    if fs != [] {
      var init, last := fs[..|fs| - 1], fs[|fs| - 1];
      FilterMembers(init, valid);
      assert fs == init + [last];
    }
  }

  /** A filter that every triangle passes changes nothing. */
  lemma {:induction false} FilterAll(fs: seq<Face>, valid: seq<bool>)
    requires forall k :: 0 <= k < |fs| ==> FaceKept(valid, fs[k])
    ensures Filter(fs, valid) == fs
    decreases |fs|
  {
    if fs != [] {
      var init := fs[..|fs| - 1];
      assert forall k :: 0 <= k < |init| ==> init[k] == fs[k];
      FilterAll(init, valid);
      assert FaceKept(valid, fs[|fs| - 1]);
      assert init + [fs[|fs| - 1]] == fs;
    }
  }

  /** The loop body for cell (i, j): push (a, b, c) when a, b and c pass,
      then (b, d, c) when b, d and c pass. */
  lemma FilterStep(done: seq<Face>, valid: seq<bool>, r: nat, i: nat, j: nat, a: nat, b: nat, c: nat, d: nat)
    requires a == Mul(i, r + 1) + j && b == a + 1 && c == a + (r + 1) && d == c + 1
    ensures var prefix, after := Flatten(Filter(done, valid)), Flatten(Filter(done + CellFaces(r, i, j), valid));
      var first, second := Keep(valid, a) && Keep(valid, b) && Keep(valid, c), Keep(valid, b) && Keep(valid, d) && Keep(valid, c);
      (first && second ==> after == prefix + [a, b, c] + [b, d, c]) &&
      (first && !second ==> after == prefix + [a, b, c]) &&
      (!first && second ==> after == prefix + [b, d, c]) &&
      (!first && !second ==> after == prefix)
  {
    var kept := Filter(done, valid);
    assert CellFaces(r, i, j) == [(a, b, c), (b, d, c)];
    assert done + [(a, b, c), (b, d, c)] == (done + [(a, b, c)]) + [(b, d, c)];
    FilterSnoc(done, (a, b, c), valid);
    FilterSnoc(done + [(a, b, c)], (b, d, c), valid);
    FlattenSnoc(kept, (a, b, c));
    FlattenSnoc(kept, (b, d, c));
    FlattenSnoc(kept + [(a, b, c)], (b, d, c));
    assert kept + [] == kept;
    assert kept + [(a, b, c)] + [] == kept + [(a, b, c)];
  }

  /** The triangle loop: for every cell (i, j) of the r×r cell grid, row by
      row, push (a, b, c) and (b, d, c), each only when its three corners
      pass the validity test. */
  method QuadricIndices(valid: seq<bool>, r: nat) returns (indices: seq<nat>)
    ensures indices == Flatten(Filter(GridFaces(r, r), valid))
  {
    indices := [];
    ghost var done := GridFaces(r, 0);  // the cells visited so far
    var i := 0;
    while i < r
      invariant 0 <= i <= r
      invariant done == GridFaces(r, i)
      invariant indices == Flatten(Filter(done, valid))
    {
      indices := FilteredRow(valid, r, i, done, indices);
      done := done + RowFaces(r, i, r);
      i := i + 1;
    }
  }

  /** One pass of the inner triangle loop: the cells of row `i`. */
  method FilteredRow(valid: seq<bool>, r: nat, i: nat, ghost done: seq<Face>, prefix: seq<nat>)
    returns (indices: seq<nat>)
    requires prefix == Flatten(Filter(done, valid))
    ensures indices == Flatten(Filter(done + RowFaces(r, i, r), valid))
  {
    indices := prefix;
    ghost var cells := done;  // the cells visited so far
    assert done + RowFaces(r, i, 0) == done;
    var j := 0;
    while j < r
      invariant 0 <= j <= r
      invariant cells == done + RowFaces(r, i, j)
      invariant indices == Flatten(Filter(cells, valid))
    {
      var a: nat := Mul(i, r + 1) + j;
      var b: nat := a + 1;
      var c: nat := a + (r + 1);
      var d: nat := c + 1;
      var aValid, bValid, cValid, dValid := Keep(valid, a), Keep(valid, b), Keep(valid, c), Keep(valid, d);
      FilterStep(cells, valid, r, i, j, a, b, c, d);
      if aValid && bValid && cValid {
        indices := indices + [a, b, c];
      }
      if bValid && dValid && cValid {
        indices := indices + [b, d, c];
      }
      RowFacesSnoc(done, r, i, j);
      cells := cells + CellFaces(r, i, j);
      j := j + 1;
    }
  }

  /** The validity the source's test sees: it reads the height stored in the
      vertex buffer, which is a finite number for every stored vertex because
      invalid samples were stored as 0. Only a read past the end fails. */
  function BufferValidity(vertices: seq<real>): (valid: seq<bool>)
    ensures |valid| == |vertices| / 3
  {
    seq(|vertices| / 3, _ => true)
  }

  /** The test on the buffer passes exactly for the vertices the buffer
      holds. */
  lemma BufferValidityKeeps(vertices: seq<real>, a: nat)
    ensures Keep(BufferValidity(vertices), a) <==> a * 3 + 2 < |vertices|
  {
  }

  /** As written, the triangle filter keeps every triangle of the upper
      sheet: the output is the plain surface's full layout of 2r² triangles. */
  lemma AsWrittenKeepsAll(g: (real, real) -> Outcome, d: Domain, r: nat)
    requires r >= 1
    ensures var vertices := Flatten(Upper(SampleGrid(g, d, r, r + 1)));
      Filter(GridFaces(r, r), BufferValidity(vertices)) == GridFaces(r, r)
  {
    var vertices := Flatten(Upper(SampleGrid(g, d, r, r + 1)));
    var fs := GridFaces(r, r);
    assert |vertices| / 3 == Cells(r);
    GridFacesInRange(r, r);
    forall k | 0 <= k < |fs| ensures FaceKept(BufferValidity(vertices), fs[k]) {
      assert FaceBelow(fs[k], Cells(r));
    }
    FilterAll(fs, BufferValidity(vertices));
  }

  /** Where every evaluation throws, no sample is valid, yet the first
      triangle, whose corner 0 is an invalid sample, is drawn. */
  lemma AsWrittenDrawsInvalidCorner(g: (real, real) -> Outcome, d: Domain, r: nat)
    requires r >= 1
    requires forall x: real, y: real :: g(x, y) == Threw
    ensures var ss := SampleGrid(g, d, r, r + 1);
      var kept := Filter(GridFaces(r, r), BufferValidity(Flatten(Upper(ss))));
      kept != [] && kept[0].0 == 0 && ss[0].z.None?
  {
    AsWrittenKeepsAll(g, d, r);
    FirstFaceCorner(r);
    FirstSampleThrows(g, d, r);
  }

  lemma FirstFaceCorner(r: nat)
    requires r >= 1
    ensures GridFaces(r, r) != [] && GridFaces(r, r)[0].0 == 0
  {
    var fs := GridFaces(r, r);
    assert Mul(0, r + 1) == 0 && Mul(0, r) == 0;
    GridFacesAt(r, r, 0, 0);
    assert fs[0] == fs[0..2][0] == CellFaces(r, 0, 0)[0];
  }

  lemma FirstSampleThrows(g: (real, real) -> Outcome, d: Domain, r: nat)
    requires r >= 1
    requires forall x: real, y: real :: g(x, y) == Threw
    ensures SampleGrid(g, d, r, r + 1)[0].z.None?
  {
    assert Mul(0, r + 1) == 0;
    SampleGridAt(g, d, r, r + 1, 0, 0);
  }

  /** The validity the test is meant to see: whether each sample is valid. */
  function SampleValidity(ss: seq<Sample>): (valid: seq<bool>)
    ensures |valid| == |ss|
    ensures forall k :: 0 <= k < |ss| ==> (valid[k] <==> ss[k].z.Some?)
  {
    seq(|ss|, k requires 0 <= k < |ss| => ss[k].z.Some?)
  }

  /** Filtered by sample validity, a triangle is drawn exactly when it is in
      the layout and its three corners are valid samples. */
  lemma IntendedFacesValid(ss: seq<Sample>, r: nat)
    ensures forall f :: f in Filter(GridFaces(r, r), SampleValidity(ss)) <==>
      f in GridFaces(r, r) && f.0 < |ss| && f.1 < |ss| && f.2 < |ss| &&
      ss[f.0].z.Some? && ss[f.1].z.Some? && ss[f.2].z.Some?
  {
    FilterMembers(GridFaces(r, r), SampleValidity(ss));
  }

  /* ---------------------------------------------------------------------- */
  /* The lower sheet                                                         */

  /** The reflection of a vertex in the plane z = 0. */
  function Mirror(v: Vec3): Vec3 {
    (v.0, v.1, -v.2)
  }

  /** The lower sheet aligned with the upper one: the mirror of every upper
      vertex, so that both sheets can share one index list. */
  function AlignedLower(ss: seq<Sample>): (vs: seq<Vec3>)
    ensures |vs| == |ss|
  {
    if ss == [] then [] else AlignedLower(ss[..|ss| - 1]) + [Mirror(UpperVertex(ss[|ss| - 1]))]
  }

  /** Vertex k of the aligned lower sheet mirrors vertex k of the upper
      sheet. */
  lemma {:induction false} AlignedLowerMirrors(ss: seq<Sample>, k: nat)
    requires k < |ss|
    ensures AlignedLower(ss)[k] == Mirror(Upper(ss)[k])
    decreases |ss|
  {
    if k < |ss| - 1 {
      AlignedLowerMirrors(ss[..|ss| - 1], k);
    }
  }

  /** The lower sheet as written is the aligned one exactly when no valid
      sample lies at or below zero. */
  lemma {:induction false} LowerAlignedIff(ss: seq<Sample>)
    ensures Lower(ss) == AlignedLower(ss) <==> DroppedFromLower(ss) == 0
    decreases |ss|
  {
    LowerLength(ss);
    if ss != [] && DroppedFromLower(ss) == 0 {
      var init, s := ss[..|ss| - 1], ss[|ss| - 1];
      LowerAlignedIff(init);
      assert LowerPart(s) == [Mirror(UpperVertex(s))];
    }
  }

  /** With a valid sample below zero before a positive one, vertex 0 of the
      lower sheet as written mirrors sample 1, not sample 0, and the shared
      triangle (0, 1, 2) names vertices the lower buffer lacks. */
  lemma LowerSheetMisaligned()
    ensures var ss := [Sample(0.0, 0.0, Some(-1.0)), Sample(0.0, 1.0, Some(1.0))];
      Lower(ss) == [(0.0, 1.0, -1.0)] && Lower(ss)[0] != Mirror(Upper(ss)[0])
  {
    var ss := [Sample(0.0, 0.0, Some(-1.0)), Sample(0.0, 1.0, Some(1.0))];
    assert ss[..1] == [ss[0]];
    assert Lower(ss[..1]) == [];
  }

  /** What the colour loop and the lower-mesh guard rely on after the vertex
      loop: whole triples in both buffers, the lower buffer no longer than
      the upper one, and finite bounds once a valid sample has been seen. */
  lemma SheetsShape(ss: seq<Sample>, showBothSides: bool, p: Pass)
    requires p == VertexPass(ss, showBothSides)
    ensures var vh := ValidHeights(ss);
      p.vertices == Flatten(Upper(ss)) && p.minZ == Lowest(vh) && p.maxZ == Highest(vh) && p.hasValidPoints == (vh != [])
    ensures p.vertices2 == if showBothSides then Flatten(Lower(ss)) else []
    ensures |p.vertices| % 3 == 0 && |p.vertices2| % 3 == 0 && |p.vertices2| <= |p.vertices|
    ensures p.hasValidPoints ==> p.minZ.Fin? && p.maxZ.Fin?
    ensures |p.vertices2| > 0 <==> showBothSides && Lower(ss) != []
  {
    VertexPassSheets(ss, showBothSides);
    assert p == Sheets(ss, showBothSides);
    LowerLength(ss);
    var up, lo := |Upper(ss)|, if showBothSides then |Lower(ss)| else 0;
    assert |p.vertices| == 3 * up && |p.vertices2| == 3 * lo && lo <= up;
    WholeTriples(up);
    WholeTriples(lo);
  }

  lemma WholeTriples(n: nat)
    ensures (3 * n) % 3 == 0
  {
  }

  /* ---------------------------------------------------------------------- */
  /* The whole component                                                     */

  /** A mesh as handed to three.js: positions, colours and the index list. */
  datatype Mesh = Mesh(vertices: seq<real>, colors: seq<real>, indices: seq<nat>)

  /** `QuadricSurface3D`: the upper mesh always; the lower mesh, sharing the
      upper index list, only when both sides are shown and the lower buffer
      is not empty. The index list is the plain surface's full layout. */
  method QuadricGeometry(g: (real, real) -> Outcome, d: Domain, resolution: nat, showBothSides: bool)
    returns (upper: Mesh, lower: Option<Mesh>)
    requires resolution >= 1
    ensures var ss := SampleGrid(g, d, resolution, resolution + 1);
      upper.vertices == Flatten(Upper(ss)) &&
      upper.indices == Flatten(GridFaces(resolution, resolution)) &&
      |upper.colors| == |upper.vertices|
    ensures var ss := SampleGrid(g, d, resolution, resolution + 1);
      var vh := ValidHeights(ss);
      forall k :: 0 <= k < |upper.vertices| / 3 ==>
        TripleAt(upper.colors, k) == Ramp(Shade(TripleAt(upper.vertices, k).2, Lowest(vh), Highest(vh), vh != []))
    ensures var ss := SampleGrid(g, d, resolution, resolution + 1);
      lower.Some? <==> showBothSides && Lower(ss) != []
    ensures var ss := SampleGrid(g, d, resolution, resolution + 1);
      lower.Some? ==>
        lower.value.vertices == Flatten(Lower(ss)) && lower.value.indices == upper.indices &&
        |lower.value.colors| == |lower.value.vertices| <= |upper.colors| &&
        forall k :: 0 <= k < |lower.value.colors| ==> lower.value.colors[k] == upper.colors[k]
  {
    ghost var ss := SampleGrid(g, d, resolution, resolution + 1);
    var vertices, vertices2, minZ, maxZ, hasValidPoints := QuadricVertices(g, d, resolution, showBothSides);
    SheetsShape(ss, showBothSides, Pass(vertices, vertices2, minZ, maxZ, hasValidPoints));
    var colors, colors2 := QuadricColours(vertices, vertices2, minZ, maxZ, hasValidPoints, showBothSides);
    var indices := QuadricIndices(BufferValidity(vertices), resolution);
    AsWrittenKeepsAll(g, d, resolution);
    upper := Mesh(vertices, colors, indices);
    if showBothSides && |vertices2| > 0 {
      lower := Some(Mesh(vertices2, colors2, indices));
    } else {
      lower := None;
    }
  }
}
