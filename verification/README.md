# symbo-lab 3D plotting core, modelled in Dafny

symbo-lab is a calculus teaching web application. This project models the
part of it that turns a formula into 3D geometry, plus the text handling
around that:

- **`Plot3DCanvas`** (`Plot3DCanvas.tsx`) has three parts:
  - The plain surface `z = f(x, y)`. It samples a `(resolution+1)²` grid and
    keeps the lowest and highest height. It gives each vertex a blue-to-red
    colour by its height, and lays two triangles over each grid cell.
  - The parametric curve `x(t)|y(t)|z(t)`.
  - The dispatch between the plain surface, the curve and the quadric.
- **`QuadricSurface3D`** draws an upper sheet and a mirrored lower sheet.
  Invalid samples (NaN, ±Infinity, a thrown evaluation) are stored as height
  0. The colour ramp ignores them when it chooses its bounds. Triangles pass
  a corner-validity filter.
- **`ContourLines`** samples the heights, then splits `[minZ, maxZ]` into
  `levels` steps. For each level it collects the grid points whose height is
  within a tenth of a step of the target. A level becomes a line when it has
  more than two points.
- **`PlaneIntersections`** computes the traces on the planes `x = 0` and
  `y = 0`, and the band `|z| < 0.1` for `z = 0`.
- **The formula page** (`Visualization3D.tsx`) has two parts. `latexToPlotly`
  rewrites LaTeX into plotter text. `detectVisualizationType` guesses whether
  a formula is parametric, implicit, a vector field or a surface.
- **The quadric page** (`QuadricSurfaces.tsx`) maps a classifier's surface
  name to a formula.
- **The classification function** (`classify-quadric-surface/index.ts`) does
  two things. It takes the JSON answer out of a Markdown code fence, and it
  re-spaces the surface description.

Where the source updates local buffers in loops (`vertices.push`,
`colors.push`, `indices.push`, `points.push`), the model has methods with
`while` loops. Each method is proved equal to a specification function of
its inputs. The properties are lemmas about those functions. Pure string
rewrites are functions, and their lemmas state what the rewrites guarantee.

Modules, in dependency order:

| module | file | content |
|---|---|---|
| `Wrappers` | `wrappers.dfy` | `Option` |
| `Text` | `text.dfy` | JavaScript `replace`, `\s` whitespace, `trim`, `toLowerCase`, `includes`, `indexOf` |
| `Geometry` | `geometry.dfy` | grid coordinates, flat buffers, the triangle layout, the colour ramp, running min/max |
| `Substitution` | `substitution.dfy` | the variable substitution each evaluator performs before `eval` |
| `Plot3DCanvas` | `plot3dcanvas.dfy` | plain surface, parametric curve, dispatch |
| `QuadricSurface3D` | `quadric_surface.dfy` | two-sheet quadric builder |
| `Tracing` | `tracing.dfy` | the band scan shared by contours and the `z = 0` trace |
| `ContourLines` | `contour_lines.dfy` | contour levels |
| `PlaneIntersections` | `plane_intersections.dfy` | plane traces |
| `Visualization3D` | `visualization.dfy` | `latexToPlotly`, `detectVisualizationType` |
| `QuadricSurfaces` | `quadric_page.dfy` | `getVisualizationFormula` |
| `ClassifyQuadricSurface` | `classify.dfy` | fence extraction, description cleanup |

`eval` is not modelled. Each builder receives the evaluation as a function
parameter:
- `(real, real) -> Option<real>` for the plain surface (`None`: `eval`
  threw, and the source then uses 0).
- `(string, real) -> Option<real>` for the curve.
- `(real, real) -> Outcome` for the quadric, contour and plane tracers.
  `Outcome` is `Finite(v)`, `NonFinite` or `Threw`.

The string that would be handed to `eval` is modelled separately, in
`Substitution`. JavaScript's `Infinity` and `-Infinity` start values of the
running minimum and maximum are the `Bound` values `PosInf` and `NegInf`.

Two places where the model follows the code rather than a natural reading:
- The contour scan reads `i, j < resolution` (`ContourLines.tsx:56-57`). It
  therefore skips the last grid row and column, although the height sampling
  covers them. The model keeps that.
- The `\ln` to `log` rewrite runs before `\log` to `log10`. The model shows
  both the protection this gives (`LnBecomesLog`) and the one input where it
  fails (`BackslashLnBecomesLog10`).

## Model

| member | source | states |
|---|---|---|
| Text.IndexOf | supabase/functions/classify-quadric-surface/index.ts:97 | the first occurrence of the pattern at or after `from`, with no occurrence before it, or `None` when none exists |
| Text.ReplaceAllIntroducesNothing | src/pages/Visualization3D.tsx:25-41 | a global replace never introduces a character that neither the text nor the replacement holds |
| Text.ReplaceAllRemovesChar | src/components/Plot3DCanvas.tsx:69-72 | replacing every occurrence of a character by text that lacks it leaves no occurrence |
| Text.ReplaceAllSkipsPrefix | src/pages/Visualization3D.tsx:34-35 | a prefix that cannot start the pattern is copied and the replace continues after it |
| Text.RemoveWhitespace | src/pages/Visualization3D.tsx:50 | `replace(/\s+/g, '')` leaves no whitespace and never lengthens the text |
| Text.RemoveWhitespaceAppend | src/pages/Visualization3D.tsx:50 | removing whitespace distributes over concatenation |
| Text.DropLeadingWhitespace | src/pages/Visualization3D.tsx:43 | the leading part of `trim`: a suffix, starting with a non-space, whose dropped prefix is all whitespace |
| Text.DropTrailingWhitespace | src/pages/Visualization3D.tsx:43 | the trailing part of `trim`: a prefix, ending with a non-space, whose dropped suffix is all whitespace |
| Text.CollapseHead | src/pages/Visualization3D.tsx:42 | collapsing whitespace runs keeps the first character, turning whitespace into one space |
| Text.CollapseIsSingleSpaced | src/pages/Visualization3D.tsx:42 | after `replace(/\s+/g, ' ')` the only whitespace is single spaces |
| Text.SingleSpacedSlice | src/pages/Visualization3D.tsx:42-43 | every slice of single-spaced text is single-spaced |
| Text.TrimEnds | src/pages/Visualization3D.tsx:43 | `trim` leaves no whitespace at either end |
| Text.TrimKeepsSingleSpaced | src/pages/Visualization3D.tsx:42-43 | trimming single-spaced text keeps it single-spaced |
| Text.TrimSingleSpacedIsTidy | src/pages/Visualization3D.tsx:42-43 | trimming single-spaced text gives tidy text |
| Text.CollapseTrimIsTidy | src/pages/Visualization3D.tsx:42-43 | collapse-then-trim always yields tidy text: no whitespace at the ends, only single spaces inside |
| Text.RemoveWhitespaceDropLeading | src/pages/Visualization3D.tsx:43 | trimming the start changes no non-space character |
| Text.RemoveWhitespaceDropTrailing | src/pages/Visualization3D.tsx:43 | trimming the end changes no non-space character |
| Text.RemoveWhitespaceCollapse | src/pages/Visualization3D.tsx:42 | collapsing whitespace changes no non-space character |
| Text.RemoveWhitespaceTrim | src/pages/Visualization3D.tsx:43 | `trim` changes no non-space character |
| Text.CollapseSingleSpacedIdentity | src/pages/Visualization3D.tsx:42 | collapsing is the identity on single-spaced text |
| Text.TidyIsFixedPoint | src/pages/Visualization3D.tsx:42-43 | collapse-then-trim is the identity on tidy text, so applying it twice equals applying it once |
| Text.ToLower | src/pages/Visualization3D.tsx:50 | lower-casing keeps the length |
| Text.ToLowerIdempotent | src/pages/QuadricSurfaces.tsx:102 | lower-casing twice equals lower-casing once |
| Text.ToLowerRemoveWhitespaceCommute | src/pages/Visualization3D.tsx:50 | lower-casing and whitespace removal commute |
| Text.RemoveWhitespaceIdempotent | src/pages/Visualization3D.tsx:50 | removing whitespace twice equals removing it once |
| Text.ContainsAt | src/pages/Visualization3D.tsx:53-60 | an occurrence at a position makes `includes` true |
| Text.LacksChar | src/pages/QuadricSurfaces.tsx:103-111 | text lacking one character of the pattern does not include the pattern |
| Text.LacksPair | src/pages/QuadricSurfaces.tsx:103 | text lacking the pattern's first two characters as a pair does not include it |
| Text.LacksPairAt | src/pages/QuadricSurfaces.tsx:109 | text lacking any adjacent pair of the pattern does not include it |
| Text.ContainsTail | src/pages/Visualization3D.tsx:53-60 | including a pattern means including each of its suffixes |
| Text.ContainsCharAt | src/pages/Visualization3D.tsx:54-59 | a character at a position makes the one-letter `includes` true |
| Geometry.Flatten | src/components/Plot3DCanvas.tsx:89 | a sequence of triples flattens to three numbers per triple |
| Geometry.FlattenAppend | src/components/Plot3DCanvas.tsx:89 | flattening distributes over concatenation |
| Geometry.FlattenSlice | src/components/Plot3DCanvas.tsx:89 | triples `lo..hi` flatten to buffer positions `3lo..3hi` |
| Geometry.TripleAtFlatten | src/components/Plot3DCanvas.tsx:96-97 | reading triple k of a flattened buffer gives back triple k |
| Geometry.StepCoord | src/components/Plot3DCanvas.tsx:85-86 | `min + i·(max−min)/r` is the range's start at `i = 0` and its end at `i = r` |
| Geometry.FractionCoord | src/components/ContourLines.tsx:37-38 | `min + (i/r)·(max−min)` is the range's start at `i = 0` and its end at `i = r` |
| Geometry.MulIsProduct | src/components/Plot3DCanvas.tsx:107 | the index arithmetic's `Mul` is multiplication |
| Geometry.CellFacesInRange | src/components/Plot3DCanvas.tsx:107-113 | both triangles of a cell index vertices of the `(r+1)²` grid |
| Geometry.RowFaces | src/components/Plot3DCanvas.tsx:106-114 | a row of j cells holds 2j triangles |
| Geometry.GridFaces | src/components/Plot3DCanvas.tsx:105-115 | i rows of r cells hold 2·i·r triangles |
| Geometry.RowFacesAt | src/components/Plot3DCanvas.tsx:106-114 | triangles 2k and 2k+1 of a row are those of cell k |
| Geometry.GridFacesAt | src/components/Plot3DCanvas.tsx:105-115 | triangles `2(i·r+j)` and the next one are cell (i, j)'s `(a,b,c)` and `(b,d,c)` |
| Geometry.RowFacesInRange | src/components/Plot3DCanvas.tsx:105-115 | every triangle of a row indexes an existing vertex |
| Geometry.GridFacesInRange | src/components/Plot3DCanvas.tsx:105-115 | every triangle of the layout indexes an existing vertex |
| Geometry.GridIndices | src/components/Plot3DCanvas.tsx:105-115 | the index loop pushes exactly the flattened triangle layout |
| Geometry.GridRow | src/components/Plot3DCanvas.tsx:106-114 | one inner index loop appends exactly row i's triangles |
| Geometry.CellStep | src/components/Plot3DCanvas.tsx:107-113 | the loop body's `a, b, c, d` push exactly cell (i, j)'s two triangles |
| Geometry.GridIndicesInRange | src/components/Plot3DCanvas.tsx:105-115 | the index buffer holds `6r²` entries, each below `(r+1)²` |
| Geometry.GridIndicesCell | src/components/Plot3DCanvas.tsx:107-113 | entries `6(i·r+j)..+6` of the index buffer are cell (i, j)'s `a,b,c,b,d,c` |
| Geometry.Normalized | src/components/Plot3DCanvas.tsx:98 | `(z−min)/(max−min \|\| 1)` lies in [0,1] inside the range, is `z−min` when the range is flat, and is 0 or 1 exactly at the ends |
| Geometry.Lowest | src/components/Plot3DCanvas.tsx:79-90 | `Math.min` folded from `Infinity` stays `Infinity` exactly on no input, else is finite |
| Geometry.Highest | src/components/Plot3DCanvas.tsx:80-91 | `Math.max` folded from `-Infinity` stays `-Infinity` exactly on no input, else is finite |
| Geometry.LowestIsMinimum | src/components/ContourLines.tsx:44 | the folded minimum is at most every height and equals one of them |
| Geometry.HighestIsMaximum | src/components/ContourLines.tsx:45 | the folded maximum is at least every height and equals one of them |
| Geometry.LowestSnoc | src/components/Plot3DCanvas.tsx:90 | one more height updates the minimum as `Math.min(minZ, z)` does |
| Geometry.HighestSnoc | src/components/Plot3DCanvas.tsx:91 | one more height updates the maximum as `Math.max(maxZ, z)` does |
| Geometry.HeightsAt | src/components/Plot3DCanvas.tsx:97 | the height list's entry k is vertex k's z |
| Substitution.NumberTextLacks | src/components/Plot3DCanvas.tsx:71-72 | a parenthesised number's text holds no letter other than `e` |
| Substitution.SurfaceFormulaClosed | src/components/Plot3DCanvas.tsx:69-73 | after the surface's substitution no `x`, `y` or `^` is left for `eval` |
| Substitution.TracerFormulaClosed | src/components/ContourLines.tsx:18-26 | after the tracers' substitution no `x`, `y` or `^` is left for `eval` |
| Substitution.CurveFormulaClosed | src/components/Plot3DCanvas.tsx:24 | after the curve's substitution no `t` or `^` is left for `eval` |
| Substitution.ReplaceCharAppend | src/components/Plot3DCanvas.tsx:70-72 | replacing a character distributes over concatenation |
| Substitution.ReplaceCharAbsent | src/components/Plot3DCanvas.tsx:70-72 | replacing an absent character changes nothing |
| Substitution.ReplaceCharsCommute | src/components/QuadricSurface3D.tsx:40-41 | replacing two characters in either order gives the same text when neither replacement holds the other character |
| Substitution.CaretDetour | src/components/QuadricSurface3D.tsx:39-44 | turning `**` into `^` and back equals turning every `^` into `**` |
| Substitution.QuadricFormulaIsSurfaceFormula | src/components/QuadricSurface3D.tsx:38-44 | the quadric's `**`→`^`→`**` detour hands `eval` the same text as the plain surface's rewrite |
| Plot3DCanvas.RowPointsAt | src/components/Plot3DCanvas.tsx:84-89 | point k of row i is the sample at `(x_i, y_k)` |
| Plot3DCanvas.GridPointsAt | src/components/Plot3DCanvas.tsx:83-93 | point `i(r+1)+j` of the grid is the sample at `(x_i, y_j)` |
| Plot3DCanvas.SurfaceLayout | src/components/Plot3DCanvas.tsx:83-107 | the vertex that triangle index `i(r+1)+j` names is the sample at `(x_i, y_j)` |
| Plot3DCanvas.SurfaceVertices | src/components/Plot3DCanvas.tsx:79-93 | the vertex loop pushes every grid sample in order, a throwing `eval` as 0, and ends with the lowest and highest height |
| Plot3DCanvas.SurfaceRow | src/components/Plot3DCanvas.tsx:84-92 | one inner vertex loop appends row i and updates the minimum and maximum over it |
| Plot3DCanvas.PointStep | src/components/Plot3DCanvas.tsx:85-89 | the loop body computes the row's next sample |
| Plot3DCanvas.PushVertex | src/components/Plot3DCanvas.tsx:89-91 | one push and one min/max update keep the buffer and bounds equal to their closed form |
| Plot3DCanvas.SurfaceColours | src/components/Plot3DCanvas.tsx:96-102 | one colour triple per vertex, the ramp `(n, 0.3, 1−n)` of its normalised height |
| Plot3DCanvas.SurfaceGeometry | src/components/Plot3DCanvas.tsx:51-115 | the plain surface's buffers: all samples, their ramp colours, the full triangle layout |
| Plot3DCanvas.SurfaceColoursInRange | src/components/Plot3DCanvas.tsx:96-101 | every colour channel of the plain surface lies in [0, 1] |
| Plot3DCanvas.Split | src/components/Plot3DCanvas.tsx:19 | `split("\|")` gives at least one part, no part holds the separator, joining gives the input back, and one part exactly when there is no separator |
| Plot3DCanvas.ParametricCurve | src/components/Plot3DCanvas.tsx:18-40 | r+1 points, point i evaluated at `t = tMin + i·tStep`, a missing or throwing component as 0 |
| Plot3DCanvas.CurveEnds | src/components/Plot3DCanvas.tsx:19-38 | the curve runs from `tMin` to `tMax`, and a formula without `\|` traces `(x(t), 0, 0)` |
| Plot3DCanvas.Dispatch | src/components/Plot3DCanvas.tsx:180-202 | parametric exactly for `"parametric"` (resolution 100, default range `[0, 6.28]`), quadric exactly for `"quadric"` (both sides shown), otherwise the plain surface, the resolution defaulting to 50 |
| QuadricSurface3D.SampleRowAt | src/components/QuadricSurface3D.tsx:63-66 | sample k of row i is at `(x_i, y_k)` with `evaluateZ`'s verdict |
| QuadricSurface3D.SampleGridAt | src/components/QuadricSurface3D.tsx:62-66 | sample `i(r+1)+j` of the grid is at `(x_i, y_j)` |
| QuadricSurface3D.Upper | src/components/QuadricSurface3D.tsx:68-79 | the upper sheet has one vertex per sample, an invalid one at height 0 |
| QuadricSurface3D.DroppedFromLower | src/components/QuadricSurface3D.tsx:75 | the count of valid samples at or below zero is at most the sample count |
| QuadricSurface3D.LowerLength | src/components/QuadricSurface3D.tsx:75-82 | the lower sheet is one vertex short of the upper per valid sample at or below zero |
| QuadricSurface3D.LowerBelowPlane | src/components/QuadricSurface3D.tsx:75-82 | every lower-sheet vertex lies on or below `z = 0` |
| QuadricSurface3D.ValidHeightsEmpty | src/components/QuadricSurface3D.tsx:72 | `hasValidPoints` is false exactly when every sample is invalid |
| QuadricSurface3D.ValidHeightsMembers | src/components/QuadricSurface3D.tsx:68-71 | the heights feeding `minZ`/`maxZ` are exactly the valid samples' heights |
| QuadricSurface3D.PushSampleStep | src/components/QuadricSurface3D.tsx:66-83 | one run of the loop body moves the closed form by one sample |
| QuadricSurface3D.VertexPassSheets | src/components/QuadricSurface3D.tsx:57-85 | the loop's accumulators equal the closed form: both sheets, bounds over the valid heights, `hasValidPoints` iff one exists |
| QuadricSurface3D.QuadricVertices | src/components/QuadricSurface3D.tsx:57-85 | the nested vertex loop leaves the accumulators equal to their fold over all samples in order |
| QuadricSurface3D.QuadricRow | src/components/QuadricSurface3D.tsx:63-84 | one inner vertex loop folds row i into the accumulators |
| QuadricSurface3D.QuadricLayout | src/components/QuadricSurface3D.tsx:62-69 | upper vertex `i(r+1)+j` is sample (i, j), so the triangle indices name the right samples |
| QuadricSurface3D.QuadricColours | src/components/QuadricSurface3D.tsx:88-98 | one ramp colour per upper vertex; the lower colours copy the first `min(upper, lower)` of them when both sides are shown |
| QuadricSurface3D.ShadeStep | src/components/QuadricSurface3D.tsx:89-96 | the colour loop body keeps earlier colours and adds vertex i's ramp colour |
| QuadricSurface3D.QuadricShadeValid | src/components/QuadricSurface3D.tsx:90 | a valid vertex's `normalized` lies in [0, 1] |
| QuadricSurface3D.QuadricShadeNoValid | src/components/QuadricSurface3D.tsx:90 | with no valid sample every vertex gets 0.5 |
| QuadricSurface3D.PlaceholderShadeOutside | src/components/QuadricSurface3D.tsx:79-90 | an invalid sample's 0 placeholder can normalise outside [0, 1] (with valid heights 1 and 2 it becomes −1) |
| QuadricSurface3D.Filter | src/components/QuadricSurface3D.tsx:114-119 | the validity filter never adds triangles |
| QuadricSurface3D.FilterMembers | src/components/QuadricSurface3D.tsx:114-119 | a triangle is kept exactly when it is in the layout and its three corners pass |
| QuadricSurface3D.FilterAll | src/components/QuadricSurface3D.tsx:114-119 | when every triangle passes, the filter changes nothing |
| QuadricSurface3D.FilterStep | src/components/QuadricSurface3D.tsx:103-119 | the loop body pushes `(a,b,c)` and `(b,d,c)` exactly when their corners pass |
| QuadricSurface3D.QuadricIndices | src/components/QuadricSurface3D.tsx:101-121 | the triangle loop pushes exactly the filtered layout, in order |
| QuadricSurface3D.FilteredRow | src/components/QuadricSurface3D.tsx:102-120 | one inner triangle loop appends row i's filtered triangles |
| QuadricSurface3D.BufferValidity | src/components/QuadricSurface3D.tsx:109-112 | one flag per stored vertex, all true: every height in the buffer is finite, because invalid samples were stored as 0 |
| QuadricSurface3D.BufferValidityKeeps | src/components/QuadricSurface3D.tsx:109-112 | the test passes exactly for indices inside the vertex buffer |
| QuadricSurface3D.AsWrittenKeepsAll | src/components/QuadricSurface3D.tsx:101-121 | as written, the filter keeps every triangle of the layout |
| QuadricSurface3D.AsWrittenDrawsInvalidCorner | src/components/QuadricSurface3D.tsx:109-116 | when every evaluation throws, the first triangle is still drawn over an invalid sample |
| QuadricSurface3D.SampleValidity | src/components/QuadricSurface3D.tsx:68 | one flag per sample, true exactly for the valid ones |
| QuadricSurface3D.IntendedFacesValid | src/components/QuadricSurface3D.tsx:108-119 | filtered by sample validity, a triangle is drawn exactly when all three corners are valid samples |
| QuadricSurface3D.AlignedLowerMirrors | src/components/QuadricSurface3D.tsx:74-82 | the aligned lower sheet's vertex k mirrors upper vertex k, so the shared index list fits it |
| QuadricSurface3D.LowerAlignedIff | src/components/QuadricSurface3D.tsx:74-82 | the lower sheet as written is aligned exactly when no valid sample lies at or below zero |
| QuadricSurface3D.LowerSheetMisaligned | src/components/QuadricSurface3D.tsx:74-82 | a sample below zero before a positive one shifts the lower sheet: its vertex 0 mirrors sample 1 |
| QuadricSurface3D.SheetsShape | src/components/QuadricSurface3D.tsx:57-98 | after the vertex loop: whole triples in both buffers, the lower no longer than the upper, finite bounds once a sample is valid, and a non-empty lower buffer exactly when both sides are shown and the lower sheet has a vertex |
| QuadricSurface3D.QuadricGeometry | src/components/QuadricSurface3D.tsx:57-133 | the upper mesh always; the lower mesh, sharing the upper indices and colours, exactly when both sides are shown and the lower buffer is not empty |
| Tracing.BandRow | src/components/ContourLines.tsx:57-65 | a band row holds at most one point per scanned column |
| Tracing.BandGrid | src/components/ContourLines.tsx:56-66 | a band scan holds at most one point per scanned grid point |
| Tracing.BandRowMembers | src/components/ContourLines.tsx:57-65 | a point is in a band row exactly when some scanned column's height is within the tolerance of the target |
| Tracing.BandGridMembers | src/components/ContourLines.tsx:56-66 | a point is in the band exactly when some scanned grid point's height is within the tolerance, placed at the target height |
| Tracing.BandGridEmpty | src/components/ContourLines.tsx:62 | a tolerance of zero or less collects no point |
| Tracing.BandStep | src/components/ContourLines.tsx:58-64 | the loop body pushes a point exactly when `\|z − target\| < tol` |
| Tracing.TraceBand | src/components/ContourLines.tsx:56-66 | the nested scan pushes exactly the band's points, row by row |
| Tracing.TraceBandRow | src/components/ContourLines.tsx:57-65 | one inner scan appends exactly row i's band points |
| ContourLines.ZGridAt | src/components/ContourLines.tsx:35-41 | height `i(r+1)+j` is the height at `(x_i, y_j)`, non-finite and throwing evaluations as 0 |
| ContourLines.ZRowAt | src/components/ContourLines.tsx:36-40 | height k of row i is the height at `(x_i, y_k)` |
| ContourLines.ZValues | src/components/ContourLines.tsx:34-42 | the sampling loop keeps all `(r+1)²` heights, in order |
| ContourLines.ZValuesRow | src/components/ContourLines.tsx:36-41 | one inner sampling loop appends row i's heights |
| ContourLines.TargetEnds | src/components/ContourLines.tsx:46-52 | level 0 targets `minZ` and level `levels` targets `maxZ` |
| ContourLines.Contours | src/components/ContourLines.tsx:51-79 | at most one line per level |
| ContourLines.ContoursShape | src/components/ContourLines.tsx:51-79 | every line has more than two points, all at its level's target within a tenth of a step, and the levels strictly increase |
| ContourLines.FlatContours | src/components/ContourLines.tsx:46-62 | a zero step draws no line |
| ContourLines.ContourLines | src/components/ContourLines.tsx:33-79 | the lines are the contours from `minZ` in steps of `(maxZ − minZ)/levels`, levels 0 to `levels` |
| ContourLines.TraceLevels | src/components/ContourLines.tsx:51-79 | the level loop keeps exactly the levels whose scan finds more than two points |
| ContourLines.FlatFunctionNoLines | src/components/ContourLines.tsx:44-62 | a function whose lowest and highest heights agree draws no contour |
| PlaneIntersections.YzProfile | src/components/PlaneIntersections.tsx:32-40 | r+1 points on `x = 0`, from `yMin` to `yMax` |
| PlaneIntersections.XzProfile | src/components/PlaneIntersections.tsx:42-50 | r+1 points on `y = 0`, from `xMin` to `xMax` |
| PlaneIntersections.PlaneIntersections | src/components/PlaneIntersections.tsx:10-96 | both profiles always drawn; the `z = 0` trace is the 0.1 band over the whole grid, drawn exactly when it has more than one point |
| PlaneIntersections.XyTraceMembers | src/components/PlaneIntersections.tsx:53-64 | a point is on the `z = 0` trace exactly when it is a grid point whose height is below 0.1 in absolute value |
| Visualization3D.CloseBrace | src/pages/Visualization3D.tsx:37 | the first `}` at or after a position, or none |
| Visualization3D.Group | src/pages/Visualization3D.tsx:37-41 | `([^}]+)\}` matches exactly when a non-empty brace-free run ends in `}` |
| Visualization3D.FracMatch | src/pages/Visualization3D.tsx:39 | a `\frac{a}{b}` match has two non-empty groups inside the text |
| Visualization3D.LatexToPlotlyTidy | src/pages/Visualization3D.tsx:24-46 | the plotter text is always tidy: trimmed, single spaces only |
| Visualization3D.SqrtRewrite | src/pages/Visualization3D.tsx:37 | `\sqrt{a}` becomes `sqrt(a)` |
| Visualization3D.FracRewrite | src/pages/Visualization3D.tsx:39 | `\frac{a}{b}` becomes `((a)/(b))` |
| Visualization3D.PowerDigitRewrite | src/pages/Visualization3D.tsx:40 | `^d` becomes `**d` |
| Visualization3D.PowerGroupRewrite | src/pages/Visualization3D.tsx:41 | `^{a}` becomes `**(a)` |
| Visualization3D.PowerRewritesKeepPlainText | src/pages/Visualization3D.tsx:40-41 | text without `^` passes both power rewrites unchanged |
| Visualization3D.CommandRewritesKeepPlainText | src/pages/Visualization3D.tsx:37-39 | text without a backslash passes the root and fraction rewrites unchanged |
| Visualization3D.LnBecomesLog | src/pages/Visualization3D.tsx:34-35 | `\ln` after backslash-free text becomes `log`, and the later `\log` rewrite leaves it alone |
| Visualization3D.LogBecomesLog10 | src/pages/Visualization3D.tsx:34-35 | `\log` becomes `log10` |
| Visualization3D.BackslashLnBecomesLog10 | src/pages/Visualization3D.tsx:34-35 | `\\ln` becomes `log10`: the `log` left by the first rewrite joins the backslash before it |
| Visualization3D.SignedVariable | src/pages/Visualization3D.tsx:65 | `-?[xy]` consumes at least one character |
| Visualization3D.DetectVisualizationType | src/pages/Visualization3D.tsx:49-71 | parametric iff the normalised text looks parametric; implicit iff not parametric and looks implicit; vector field iff neither and it holds a `(-?[xy],\s*-?[xy])` pair; otherwise surface |
| Visualization3D.DetectIgnoresCaseAndSpacing | src/pages/Visualization3D.tsx:50 | the detected type is the same after lower-casing or removing whitespace |
| Visualization3D.NormalizeKeeps | src/pages/Visualization3D.tsx:50 | lower-case, space-free text is its own normal form |
| Visualization3D.NoTNotParametric | src/pages/Visualization3D.tsx:53-54 | text without `t` is never taken as parametric |
| Visualization3D.CdotProductLooksParametric | src/pages/Visualization3D.tsx:53-55 | `\cos(x)\cdot\sin(y)` is taken as parametric, its `t` coming from `\cdot` |
| Visualization3D.SphereLooksImplicit | src/pages/Visualization3D.tsx:59-61 | `x^2+y^2+z^2-1=0` is detected as implicit |
| Visualization3D.RotationLooksVectorField | src/pages/Visualization3D.tsx:65-67 | `(-y,x)` is detected as a vector field |
| QuadricSurfaces.VisualizationFormula | src/pages/QuadricSurfaces.tsx:99-115 | one of the five formulas; the elliptic paraboloid without a classification; otherwise the first key the lower-cased name contains decides, in the order elipsoide, hiperboloide de una hoja, paraboloide elíptico, paraboloide hiperbólico or silla, cono |
| QuadricSurfaces.UnknownFallsBack | src/pages/QuadricSurfaces.tsx:114 | a name with no key gets the same formula as no classification |
| QuadricSurfaces.FormulaIgnoresCase | src/pages/QuadricSurfaces.tsx:102 | the table ignores letter case |
| QuadricSurfaces.TwoSheetsFallsBack | src/pages/QuadricSurfaces.tsx:102-114 | the two-sheet hyperboloid has no entry: its name, in any letter case, is drawn as the elliptic paraboloid |
| ClassifyQuadricSurface.FencedBlock | supabase/functions/classify-quadric-surface/index.ts:97 | a captured block fits inside the answer with its fences |
| ClassifyQuadricSurface.IndexOfAt | supabase/functions/classify-quadric-surface/index.ts:97 | the search stops at the first occurrence |
| ClassifyQuadricSurface.IndexOfNone | supabase/functions/classify-quadric-surface/index.ts:97 | the search fails when no occurrence exists |
| ClassifyQuadricSurface.JsonFenceUnfenced | supabase/functions/classify-quadric-surface/index.ts:97-100 | a ```` ```json ```` fenced answer yields its body |
| ClassifyQuadricSurface.FenceBlock | supabase/functions/classify-quadric-surface/index.ts:97 | either fence pattern captures exactly the body between the fences |
| ClassifyQuadricSurface.PlainFenceUnfenced | supabase/functions/classify-quadric-surface/index.ts:97-100 | a plain-fenced answer, with no `json` fence, yields its body |
| ClassifyQuadricSurface.NoJsonFence | supabase/functions/classify-quadric-surface/index.ts:97 | an answer whose only backticks are one plain fence pair has no `json` match |
| ClassifyQuadricSurface.UnfencedAnswerKept | supabase/functions/classify-quadric-surface/index.ts:97-103 | an answer without backticks is parsed as it is |
| ClassifyQuadricSurface.Cleaned | supabase/functions/classify-quadric-surface/index.ts:106-112 | only a truthy description is rewritten, and no other field changes |
| ClassifyQuadricSurface.SplitWordsNoBoundary | supabase/functions/classify-quadric-surface/index.ts:108-109 | after the split no lower-case letter is followed by an upper-case one, and the first character stays |
| ClassifyQuadricSurface.SplitWordsKeeps | supabase/functions/classify-quadric-surface/index.ts:108-109 | text without such a boundary is unchanged by the split |
| ClassifyQuadricSurface.AsciiSplitIsRedundant | supabase/functions/classify-quadric-surface/index.ts:108-109 | the ASCII split finds nothing after the accented one |
| ClassifyQuadricSurface.CollapseKeepsNoBoundary | supabase/functions/classify-quadric-surface/index.ts:110 | collapsing whitespace creates no boundary |
| ClassifyQuadricSurface.TrimKeepsNoBoundary | supabase/functions/classify-quadric-surface/index.ts:111 | trimming creates no boundary |
| ClassifyQuadricSurface.CleanDescriptionShape | supabase/functions/classify-quadric-surface/index.ts:107-111 | a cleaned description is tidy and has no lower-to-upper boundary |
| ClassifyQuadricSurface.SplitWordsOnlySpaces | supabase/functions/classify-quadric-surface/index.ts:108-109 | the split only inserts whitespace |
| ClassifyQuadricSurface.CleanDescriptionOnlyRespaces | supabase/functions/classify-quadric-surface/index.ts:107-111 | cleanup changes only whitespace: the non-space characters stay, in order |
| ClassifyQuadricSurface.CleanDescriptionIdempotent | supabase/functions/classify-quadric-surface/index.ts:107-111 | cleaning a cleaned description changes nothing |
| ClassifyQuadricSurface.CleanedIdempotent | supabase/functions/classify-quadric-surface/index.ts:106-112 | applying the cleanup step twice equals applying it once |

## Left out

- `eval` and JavaScript arithmetic are not modelled. Every evaluation is a function parameter, and coordinates are exact reals. Floating-point rounding, in `i * xStep` and in the colour arithmetic, is therefore not captured.
- Plot3DCanvas.SurfaceVertices: a NaN or ±Infinity that `eval` *returns* rather than throws is not modelled on the plain surface and the curve. Reals have no NaN, and the source does not filter them there.
- Substitution: the text JavaScript prints for a coordinate (`${x}`) is not modelled. It is a parameter constrained only by `NumberText`, meaning digits, sign, point and exponent.
- Text.ToLower: `toLowerCase` is modelled for ASCII and Latin-1 capitals only. Other scripts are left unchanged.
- ClassifyQuadricSurface: the request handling, CORS headers, the AI gateway call, its error statuses, `JSON.parse` and the response are not modelled. The parsed record is a parameter. A description that is truthy but not a string is not modelled.
- ClassifyQuadricSurface.JsonFenceUnfenced: the fence lemmas assume backtick-free text around and inside the fences. An answer with other backticks is covered only by the general `FencedBlock` definition.
- Resolution and `levels` are required to be at least 1 (`requires r >= 1`). The source divides by them. Its callers pass the defaults 50, 100 and 8 or a user value.
- Rendering is not modelled: three.js meshes, `computeVertexNormals`, materials, HSL contour colours, text labels, React state and `handleVisualize`.
- QuadricSurface3D.QuadricGeometry: builds both meshes as the source writes them, so both findings below are part of it. The corrected filter (`IntendedFacesValid` over `SampleValidity`) and the corrected lower sheet (`AlignedLower`) are separate definitions with their own proofs, and no second builder uses them.

## Findings

| source | as written | input that shows it | evidently intended | confidence | as-written member | corrected member |
|---|---|---|---|---|---|---|
| src/components/QuadricSurface3D.tsx:108-119 | the validity test reads `vertices[a*3+2]`, where an invalid sample was stored as 0, so every stored corner passes | every evaluation throws: no sample is valid, yet triangle (0, 1, r+1) is drawn | skip triangles with an invalid corner | not executed | QuadricSurface3D.AsWrittenDrawsInvalidCorner | QuadricSurface3D.IntendedFacesValid |
| src/components/QuadricSurface3D.tsx:74-82 | the lower sheet skips valid samples at or below zero, but reuses the upper sheet's index list | heights `[-1, 1]`: lower vertex 0 mirrors sample 1, and index 1 points past the lower buffer | one mirrored vertex per upper vertex, so the shared indices fit | not executed | QuadricSurface3D.LowerSheetMisaligned | QuadricSurface3D.AlignedLowerMirrors |
