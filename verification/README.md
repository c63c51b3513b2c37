# A verified model of the Potrace tracing engine

This project is a Dafny model of the tracing engine of a TypeScript port of
Potrace, Peter Selinger's polygon-based bitmap tracer. It also proves
properties of that model. It covers the following parts of the engine:

- **Utils** (`utils.dfy`, src/utils.ts): `mod`, `cyclic`, `clamp` and `range`.
- **Geometry** (`geometry.dfy`, src/types/Point.ts): the exact plane
  geometry. This covers the cross, inner and parallelogram products,
  `ddenom`, `dorthInfty` and `interval`. Coordinates are reals, which in
  Dafny are exact rationals; no operation here takes a square root.
- **QuadForm** (`quad.dfy`, src/types/Quad.ts): the 3x3 quadratic form. This
  covers `scan`, `get`/`set`, `prod` and `quadform`, and the rank-one forms
  `adjustVertices` builds.
- **Histogram** (`histogram.dfy`, src/types/Histogram.ts): the 256-bucket
  histogram. This covers counting, range normalisation, the dominant colour,
  the count-sorted indexes and `getStats` with its cache.
- **Thresholding** (`thresholding.dfy`, src/types/Histogram.ts): the P/S/H
  lookup table of the fast multilevel-thresholding algorithm, and the
  exhaustive cut-point search with its optimality.
- **Bitmaps** (`bitmap.dfy`, src/types/Bitmap.ts): flat row-major indexing,
  binarisation, the turtle walk of `findPath` with its six turn policies,
  the ring-majority vote, `xorPath` and the `findNext` loop.
- **PathSums** (`sums.dfy`, src/types/Path.ts): `calcSums`, and the cyclic
  index wrapping of `penalty3` and `pointslope`.
- **Lon** (`lon.dfy`, src/types/Path.ts): `calcLon`, meaning `nextCorner`,
  the pivot search and the clean-up into `lon`.
- **Polygon** (`polygon.dfy`, src/types/Path.ts): the `bestPolygon` dynamic
  program. This covers `clip0`, `clip1`, `seg0` and `seg1`, the
  penalty/predecessor tables and their optimality, and the read-off of `po`.
- **CurveFit** (`curve.dfy`, src/types/Curve.ts): `reverse`, `smooth`, the
  segment-merging dynamic program of `optiCurve`, and `renderCurve` as a
  list of Move/Curve/Line commands.
- **Posterize** (`posterizer.dfy`, src/Posterizer.ts): the colour-stop logic.
  This covers the threshold and step rules, explicit, automatic and equally
  distributed stops, the tiling of intensity ranges, the fill strategies,
  and the opacity compositing of the layers.
- **Facade** (`facade.dfy`, src/PotraceImage.ts): the `PotraceImage` state
  machine. This covers option validation and assignment, the
  `processed`/`imageLoaded` flags, the `generatePathList` pipeline, lazy
  regeneration and fill resolution in `getPathTag`.
- **Wrappers** (`wrappers.dfy`): `Option` and `Result`.

Numbers are modelled as follows:

- Pixel coordinates, levels, counts and indices are `int`.
- Geometry is `real`.
- JavaScript's `undefined`, `null` and `NaN` become `None`, `Undefined` or a
  `Value` constructor wherever the source can produce them.
- `Math.round(x)` is `floor(x + 1/2)`.
- `Math.trunc`, `Math.sign` and the typed-array wrap-around are written out.

Loops that the source does not bound are handled in two ways:

- The tracer's walk and its find-next loop take a `fuel` argument.
- All other loops are modelled as recursive functions or as methods with
  invariants, and they terminate without fuel.

The model follows the code as written, including these points:

- `smooth` uses alpha0 = 4/3 when `ddenom` is 0 (src/types/Curve.ts:58-66).
  Because 4/3 is above every usual `alphaMax`, such a vertex becomes a
  corner.
- The threshold check accepts any number in [0, 255], fractions included
  (`Facade.FractionalThresholdAccepted`), although its error message asks
  for an integer (src/PotraceImage.ts:96).
- `processed` survives every update that names `color` or `background`, even
  when the update also changes other options
  (`Facade.MixedUpdateKeepsProcessed`).
- `generatePathList` binarises at 128 whenever the threshold is not
  THRESHOLD_AUTO, whatever threshold is configured
  (src/PotraceImage.ts:139-142).
- In `calcLon`, a violated constraint ends the search only after the
  constraints, the corner and k have been moved on. Potrace jumps out at once.
  The model follows the TypeScript.
- `Curve.ts` imports geometry helpers from src/utils.ts, which does not
  define them. The model uses the definitions in src/types/Point.ts.
- The array branch of `getRanges` (src/Posterizer.ts:196-225) cannot be
  reached, because `#getSteps()` always returns a number. The explicit-stop
  normalisation is modelled on its own (`Posterize.ExplicitStops`).
  `getRanges` itself is modelled as it runs.
- The bounds of `range.contains` include both ends. So `pointToIndex`
  accepts x = width and y = height. Column `width` then reads the first pixel
  of the next row, and row `height` lies past the end and reads as 0
  (`Bitmaps.InclusiveBoundsAlias`).

The source calls `between` in src/types/Histogram.ts, but src/utils.ts does
not define it. It is read with inclusive bounds.

## Model

| member | source | states |
|---|---|---|
| Utils.Mod | src/utils.ts:58-59 | the result lies in [0, n) and is the residue of a modulo n for every integer a, negative a included |
| Utils.CyclicMeansModOrder | src/utils.ts:61-63 | for indices of one cycle of length n, `cyclic(a, b, c)` holds exactly when b comes strictly before c on the forward walk from a |
| Utils.CyclicEmptyWhenEndsMeet | src/utils.ts:61-63 | a cyclic interval that starts and ends at the same index contains nothing |
| Utils.Clamp | src/utils.ts:4-5 | the result lies in [min, max] when min <= max; a value already inside is returned unchanged; the result is always one of val, min, max |
| Utils.ClampInt | src/utils.ts:4-5 | the integer clamp has the same bounds and agrees with the real clamp |
| Utils.Length | src/utils.ts:10 | `length` is the distance between the two ends, whichever is larger |
| Utils.MakeRange | src/utils.ts:7-26 | `contains(v)` holds exactly for min <= v <= max: both ends are inclusive |
| Utils.MakeRangeTo | src/utils.ts:8-9 | the one-argument form is the range from 0 to n |
| Utils.Forward | src/utils.ts:15-21 | with a positive step the iteration yields start, start + 1, ..., end - 1, and nothing when end <= start |
| Utils.Backward | src/utils.ts:15-21 | with step -1 the iteration is meant to yield end - 1 down to start |
| Utils.BackwardReversesForward | src/utils.ts:15-21 | the descending iteration visits the ascending iteration's values in reverse order |
| Utils.NegativeStepNeverStops | src/utils.ts:18-19 | as written, step -1 starts at end - 1, increments i and tests i > start - 1, so on a non-empty range the test holds forever |
| Geometry.Sign | src/types/Point.ts:19-20 | `Math.sign` is -1, 0 or 1, is 0 exactly for 0, and sign(r) * r is the absolute value of r |
| Geometry.CrossProductAntisymmetric | src/types/Point.ts:10-12 | u x v = -(v x u), and u x u = 0 |
| Geometry.IntervalEnds | src/types/Point.ts:14-15 | `interval` at 0 is u, at 1 is v, and at one half the midpoint, whichever point comes first |
| Geometry.DDenom | src/types/Point.ts:17-27 | `ddenom(u, v)` is the taxicab length of v - u: never negative, and 0 exactly when u = v |
| Geometry.DPara | src/types/Point.ts:29-33 | `dpara` is the cross product (p1 - p0) x (p2 - p0) |
| Geometry.DParaSymmetries | src/types/Point.ts:29-33 | swapping p1 and p2 negates the area, and it vanishes when two of the points coincide |
| Geometry.LineInSquareBoundsDPara | src/types/Point.ts:22-33 | a point of the unit square around p1 that lies on line p0p2 forces abs(dpara) <= ddenom |
| Geometry.SquareMeetsLine | src/types/Point.ts:22-23 | for p0 != p2, the square of radius 1 around p1 meets the line p0p2 if and only if abs(dpara(p0, p1, p2)) <= ddenom(p0, p2) |
| Geometry.InnerProductsAgree | src/types/Point.ts:46-65 | both inner products are dot products of difference vectors; the quadratic one is the cubic one with a shared base point, and it is symmetric in p1 and p2 |
| Geometry.CubicCrossProduct | src/types/Point.ts:35-44 | the corrected product is (p1 - p0) x (p3 - p2), as the comment states |
| Geometry.CubicCrossProductDiscrepancy | src/types/Point.ts:42-43 | for p1 - p0 = (0, 1) and p3 - p2 = (1, 0) the product as written is 0, while the stated product is -1 |
| QuadForm.NewQuad | src/types/Quad.ts:13-23 | a fresh quad has all nine entries 0 |
| QuadForm.Set | src/types/Quad.ts:27-29 | `set(x, y, v)` makes entry (x, y) equal v and leaves the other eight entries unchanged |
| QuadForm.ScanRows | src/types/Quad.ts:5-11 | the first `rows` rows of the scan have rows * k cells in row-major order and contain every cell of those rows |
| QuadForm.Scan | src/types/Quad.ts:5-11 | `scan(fn, k)` visits k * k cells in row-major order, covering every cell of [0, k) x [0, k) |
| QuadForm.RowMajorInjective | src/types/Quad.ts:5-11 | the scan never visits a cell twice |
| QuadForm.Quadform | src/types/Quad.ts:34-42 | the scan-ordered sum is (x, y, 1) Q (x, y, 1)^T written out as a polynomial in x and y |
| QuadForm.NewQuadIsZeroForm | src/types/Quad.ts:13-42 | a fresh quad gives the zero form at every point |
| QuadForm.ExpandedScales | src/types/Quad.ts:34-42 | multiplying every entry by c multiplies the form by c |
| QuadForm.RankOne | src/types/Path.ts:374-381 | the form built from a line's normal vec and squared length d has entry (x, y) equal to vec[x] * vec[y] / d |
| QuadForm.RankOneIsScaledOuter | src/types/Path.ts:374-381 | that form is the outer product vec vec^T scaled by 1 / d |
| QuadForm.OuterIsSquare | src/types/Path.ts:364-367 | the form of the outer product is the squared line functional (v0 x + v1 y + v2)^2 |
| QuadForm.LineSquare | src/types/Path.ts:364-367 | the squared line functional is never negative |
| QuadForm.RankOneIsSquare | src/types/Path.ts:364-381 | for d > 0 a segment's form is its squared line functional divided by d, so it is never negative |
| QuadForm.RankOneFormNonNegative | src/types/Path.ts:364-381 | the squared distance a segment's quad assigns to any point is never negative |
| QuadForm.Add | src/types/Path.ts:397-404 | the form minimised at a vertex has each entry equal to the sum of the two segments' entries |
| QuadForm.SegmentFormVanishes | src/types/Path.ts:364-381 | a segment's form is 0 at ctr and at ctr + dir, the two points that fix its line |
| QuadForm.SegmentFormNonNegative | src/types/Path.ts:364-381 | a segment's form is never negative, the zero form of a zero direction included |
| QuadForm.SegmentForms | src/types/Path.ts:353-381 | with a form per segment, entry i is the form of the line through ctr[i] with direction dir[i] |
| QuadForm.SegmentFormsAsWritten | src/types/Path.ts:347-381 | with one shared point for ctr, one for dir and one shared quad, every entry holds the form of the last segment |
| QuadForm.AddedRankOneDet | src/types/Path.ts:409-410 | `prod(0, 0, 1, 1) - prod(0, 1, 1, 0)` of the sum of two segment forms is 0 when their normals are parallel and non-zero otherwise |
| QuadForm.CornerDetNonZero | src/types/Path.ts:389-410 | with a form per segment, the determinant at a vertex between two segments of non-zero direction is non-zero exactly when the directions are not parallel |
| QuadForm.AliasedCornerSingular | src/types/Path.ts:347-410 | as written the determinant at every vertex is 0, so the intersection is never solved directly |
| QuadForm.CornerDetsDiffer | src/types/Path.ts:347-410 | at any corner between two non-parallel segments of non-zero direction, a form per segment gives a non-zero determinant and the code as written gives 0 |
| Histogram.SumIncrement | src/types/Histogram.ts:134-136 | one `data[v]++` raises the total count by exactly 1 |
| Histogram.CollectValues | src/types/Histogram.ts:131-137 | the histogram has 256 entries, and entry v is the number of pixels of value v |
| Histogram.CollectValuesTotal | src/types/Histogram.ts:131-137 | the counts add up to the number of pixels |
| Histogram.FromBitmap | src/types/Histogram.ts:62-65 | a histogram built from a bitmap is well formed, and its pixel total is the bitmap's size |
| Histogram.CollectValuesAsWritten | src/types/Histogram.ts:79-92 | each count, as stored in the typed array, is the true count modulo the array's capacity |
| Histogram.CountWrapsInUint8Array | src/types/Histogram.ts:82-87 | a 256-pixel image of one value gets a Uint8Array, so that value's count reads 0 instead of 256 |
| Histogram.AsWrittenExactBelowCapacity | src/types/Histogram.ts:82-87 | when the pixel count is strictly below the capacity of the chosen array, the stored counts are exact |
| Histogram.CountAtMostLength | src/types/Histogram.ts:131-137 | no level's count exceeds the number of pixels |
| Histogram.NormalizeMinMax | src/types/Histogram.ts:20-31 | missing bounds default to 0 and 255; both are rounded and clamped to [0, 255]; the call fails exactly when the clamped min exceeds the clamped max; on success 0 <= min <= max <= 255 |
| Histogram.NormalizeKeepsLevels | src/types/Histogram.ts:20-31 | integral bounds already in [0, 255] with lo <= hi pass through unchanged |
| Histogram.BeatsStep | src/types/Histogram.ts:300-308 | the update rule composes: if i beats d and k does not beat d, then i beats k and k does not beat i |
| Histogram.DominantColorIn | src/types/Histogram.ts:286-311 | for a single level the result is that level if it has pixels, else -1; otherwise the result is -1 exactly when every window sum is 0; a result in range is beaten by no level and beats every lower level |
| Histogram.GetDominantColor | src/types/Histogram.ts:281-312 | the query fails exactly when the range does not normalise, and otherwise returns -1 or a level |
| Histogram.ToleranceOneWindowIsCount | src/types/Histogram.ts:296-298 | with tolerance 1 the window around a level is that level's own count |
| Histogram.DominantColorToleranceOne | src/types/Histogram.ts:281-312 | with tolerance 1 the result is -1 exactly when the range is empty of pixels, and otherwise it is the lowest level of the range with the largest count |
| Histogram.Weight | src/types/Histogram.ts:344 | a level above 0 with pixels adds at least its count to the combined value |
| Histogram.NonZeroLevels | src/types/Histogram.ts:345 | a level counts as unique exactly when it lies in the range and has pixels |
| Histogram.RangePeak | src/types/Histogram.ts:346-348 | the peak bounds every count in the range and is 0 or one of those counts |
| Histogram.RangeTotals | src/types/Histogram.ts:342-349 | the first loop of `getStats` computes the pixel total, the level-weighted total, the number of non-empty levels and the peak count of [min, max] |
| Histogram.WeightedBounds | src/types/Histogram.ts:342-351 | lo * pixels <= combined <= (hi - 1) * pixels, so the mean lies between the range ends |
| Histogram.Insert | src/types/Histogram.ts:154 | inserting a level into a count-sorted sequence keeps it sorted, adds one element, and its elements are the old ones plus the new level |
| Histogram.PrependSorted | src/types/Histogram.ts:154 | a level ordered before every element of a sorted sequence can go in front of it |
| Histogram.SortByCount | src/types/Histogram.ts:142-158 | the sorted indexes are in ascending order of count, ties by level, with exactly the levels 0..n-1 |
| Histogram.SortedIndexesArePermutation | src/types/Histogram.ts:147-154 | the 256 sorted indexes contain every level exactly once |
| Histogram.SumInRangeConcat | src/types/Histogram.ts:357-363 | the in-range pixel sum over two level sequences is the sum of their sums |
| Histogram.SumInRangeInsert | src/types/Histogram.ts:357-363 | inserting a level adds exactly its in-range pixels |
| Histogram.SortKeepsInRangeTotal | src/types/Histogram.ts:357-363 | summing the in-range pixels in sorted order gives the same total as in level order |
| Histogram.PrefixInRangeIsRangeSum | src/types/Histogram.ts:342-363 | the in-range pixels of levels 0..n-1 with n past max are the pixel total of [min, max] |
| Histogram.SortKeepsRangeTotal | src/types/Histogram.ts:342-363 | the median walk over the sorted indexes sees exactly the pixel total of the first loop |
| Histogram.MedianWalk | src/types/Histogram.ts:357-366 | a median found is an in-range level among those walked; once the running total can reach the half mark over an in-range level, a median is found |
| Histogram.PositiveSumHasInRange | src/types/Histogram.ts:357-366 | a positive in-range sum means some walked level lies in the range |
| Histogram.ComputeStats | src/types/Histogram.ts:333-384 | pixels is the pixel total of [min, max]; unique counts its non-empty levels; the median lies in [min, max]; the mean is defined exactly when there are pixels and then lies in [min, max] |
| Histogram.MeanInRange | src/types/Histogram.ts:351 | the mean level of a non-empty range lies between min and max |
| Histogram.GetStats | src/types/Histogram.ts:322-386 | the query fails exactly when the range does not normalise; without refresh a cached entry is returned and the cache is unchanged; otherwise the fresh entry is stored under its key; other entries are kept |
| Histogram.GetStatsCoherent | src/types/Histogram.ts:322-386 | from a coherent cache the result is what a fresh computation gives, and the cache stays coherent |
| Thresholding.FirstRowIsPrefix | src/types/Histogram.ts:170-184 | P[1, row] and S[1, row] are the mass and moment of the levels 1..row |
| Thresholding.ClassSplit | src/types/Histogram.ts:186-192 | the class sums over 1..row split at any col into 1..col-1 and col..row |
| Thresholding.TableIsClassSums | src/types/Histogram.ts:164-192 | for 1 <= col <= row, P[col, row] is the share of pixels with level in [col, row] and S[col, row] their level-weighted share |
| Thresholding.ClassMassNonNegative | src/types/Histogram.ts:164-192 | class masses are never negative |
| Thresholding.TableHShape | src/types/Histogram.ts:194-200 | H is never negative, and it is 0 in column 0 and on and below the diagonal |
| Thresholding.TableHIsClassVariance | src/types/Histogram.ts:194-200 | above the diagonal H is the squared class moment over the class mass, 0 for an empty class |
| Thresholding.ExtendPartial | src/types/Histogram.ts:249-254 | a cut chosen in the loop's bounds extends a reachable placement |
| Thresholding.ExtendVariance | src/types/Histogram.ts:250 | the running variance grows by H[start, i] when cut i is added |
| Thresholding.PlacementThrough | src/types/Histogram.ts:249-254 | a full placement continuing prefix with cut i continues prefix + [i], and its next cut lies above i |
| Thresholding.Search | src/types/Histogram.ts:239-263 | the best total never decreases, and the best state is the one given or a full placement carrying its own total |
| Thresholding.Step | src/types/Histogram.ts:250-261 | one loop pass keeps the best state valid and never lowers the best total |
| Thresholding.SearchCovers | src/types/Histogram.ts:239-263 | every full placement continuing prefix with a cut at or above i has a total no larger than the search's best |
| Thresholding.StepCovers | src/types/Histogram.ts:250-261 | the placement whose next cut is i is covered by that loop pass |
| Thresholding.DeeperCovers | src/types/Histogram.ts:253-254 | below the deepest level the placement is covered by the recursive call |
| Thresholding.DeeperStep | src/types/Histogram.ts:253-254 | below the deepest level a loop pass is the recursive search on prefix + [i] |
| Thresholding.ClosingStep | src/types/Histogram.ts:255-260 | at the deepest level the closed placement's total is compared and kept when it beats `maxSig` |
| Thresholding.MultilevelIn | src/types/Histogram.ts:221-267 | the result is [] or a full placement of min(max - min - 2, trunc(amount)) cuts |
| Thresholding.MultilevelThresholding | src/types/Histogram.ts:216-268 | the query fails exactly when the range does not normalise, and otherwise searches the normalised range |
| Thresholding.PlacementShape | src/types/Histogram.ts:245-249 | a placement is strictly increasing, with its first cut above min and its last at most max - 2 |
| Thresholding.MultilevelOptimal | src/types/Histogram.ts:205-268 | no placement the search enumerates has a larger total than the result, and [] comes back only when no total exceeds 0 |
| Thresholding.AutoThreshold | src/types/Histogram.ts:273-276 | fails exactly when the range does not normalise; a threshold returned lies in (min, max - 2] |
| Bitmaps.PointToIndex | src/types/Bitmap.ts:64-67 | the index is -1 exactly when x lies outside [0, width] or y outside [0, height] (`contains` is inclusive), and width * y + x otherwise |
| Bitmaps.IndexToPoint | src/types/Bitmap.ts:54-59 | for 0 <= index <= size the point has x in [0, width), y in [0, height] and width * y + x = index; any other index gives (-1, -1) |
| Bitmaps.RowBound | src/types/Bitmap.ts:54-57 | the row of an index up to the size is at most height, and below height for an index below the size |
| Bitmaps.IndexPointRoundTrip | src/types/Bitmap.ts:54-67 | inside the picture, `pointToIndex(indexToPoint(i)) = i` |
| Bitmaps.PointIndexRoundTrip | src/types/Bitmap.ts:54-67 | inside the picture, `indexToPoint(pointToIndex(x, y)) = (x, y)`, and the index lies below the size |
| Bitmaps.GetValueAt | src/types/Bitmap.ts:49-52 | the value is 0 (an `undefined` read) or the pixel at `pointToIndex(x, y)`; outside [0, width] x [0, height] it is 0 |
| Bitmaps.InclusiveBoundsAlias | src/types/Bitmap.ts:52-67 | column `width` reads the pixel at column 0 of the next row, and row `height` reads 0 |
| Bitmaps.PastThreshold | src/types/Bitmap.ts:80-82 | the mapped value is 0 or 1, and 1 exactly for lum <= threshold on black-on-white, lum >= threshold otherwise |
| Bitmaps.BinaryBitmap | src/types/Bitmap.ts:74-86 | the corrected thresholding keeps the dimensions, yields a 0/1 bitmap, and pixel i is 1 exactly when its luminance is past the threshold |
| Bitmaps.BinaryBitmapAsWritten | src/types/Bitmap.ts:78-86 | as written the result of `map` is discarded, so the clone keeps the original luminance |
| Bitmaps.BinaryBitmapDiscardsMap | src/types/Bitmap.ts:83 | a one-pixel image of luminance 200 at threshold 128 keeps 200 as written, where the intended result is 0; the written result is not a 0/1 bitmap |
| Bitmaps.Vote | src/types/Bitmap.ts:201-204 | a sample counts +1 when set and -1 otherwise |
| Bitmaps.RingTotal | src/types/Bitmap.ts:198-205 | the count of ring i sums four samples at each offset -i+1..i-1, so its size is at most 4(2i - 1) |
| Bitmaps.FirstDecidingRing | src/types/Bitmap.ts:196-209 | the ring found is the first from i on whose count is not 0, or 5 when every count is 0 |
| Bitmaps.MajorityFrom | src/types/Bitmap.ts:196-209 | the loop answers true exactly when the first deciding ring has a positive count |
| Bitmaps.Majority | src/types/Bitmap.ts:195-210 | `majority` is decided by the first of rings 2, 3, 4 with a non-zero count, true when that count is positive, and false when all three counts are 0 |
| Bitmaps.Toggle | src/types/Bitmap.ts:230 | `Number(!v)` is 0 or 1, and the complement on a 0/1 value |
| Bitmaps.ToggleTimesParity | src/types/Bitmap.ts:230 | on a 0/1 value an even number of toggles is the identity and an odd number the complement |
| Bitmaps.FlipAt | src/types/Bitmap.ts:229-230 | a write at index -1 or past the end changes nothing; otherwise only that pixel is toggled |
| Bitmaps.ApplyFlipsPointwise | src/types/Bitmap.ts:220-234 | each pixel ends up toggled once per time its index is flipped |
| Bitmaps.RowIndexes | src/types/Bitmap.ts:228-229 | row minY is flipped from minX up to maxX - 1, one `pointToIndex` per column |
| Bitmaps.XorPath | src/types/Bitmap.ts:216-237 | `xorPath` toggles each pixel once per time the row-flips list its index and leaves every unlisted pixel as it was |
| Bitmaps.XorIndexesIgnorePixels | src/types/Bitmap.ts:216-234 | which pixels get flipped depends only on the path and the picture's dimensions, not on the pixel values |
| Bitmaps.XorPathInvolution | src/types/Bitmap.ts:212-237 | on a 0/1 bitmap xor-clearing keeps it 0/1, and clearing the same path twice restores it |
| Bitmaps.TurnsAreInverse | src/types/Bitmap.ts:166-185 | the right and left turns undo each other; on a unit heading they give units, distinct from each other and from the heading |
| Bitmaps.PixelsAhead | src/types/Bitmap.ts:147-155 | for a unit heading the halvings are exact; the left and right pixels both touch the current corner, and right is left moved one step to the right of the heading |
| Bitmaps.Turn | src/types/Bitmap.ts:157-186 | the walk goes straight on exactly when only the left pixel is set; it turns right when both are set; it turns left when neither is; when only the right pixel is set the policy decides |
| Bitmaps.NextDirection | src/types/Bitmap.ts:147-186 | the heading read off the two pixels ahead stays an axis unit |
| Bitmaps.ChainAreaStep | src/types/Bitmap.ts:141-143 | each move to q subtracts q.x times the move's dy from the area |
| Bitmaps.StepsExtend | src/types/Bitmap.ts:140-142 | a unit move extends a chain of unit moves |
| Bitmaps.AdvanceKeepsInvariant | src/types/Bitmap.ts:133-145 | one round records p and moves one unit; it keeps the walk's invariant while away from the start and closes the walk on reaching it |
| Bitmaps.RecordKeeps | src/types/Bitmap.ts:134-139 | recording a vertex counts it, keeps the start first and nowhere else, and keeps the bounds covering every vertex |
| Bitmaps.Walk | src/types/Bitmap.ts:131-187 | a walk that finishes is a closed walk from the start with the path's sign, continuing the vertices recorded so far with p and then the point ahead |
| Bitmaps.PrefixOfPrefix | src/types/Bitmap.ts:134 | a walk that continues s + [q] begins with s, and its next vertex is q |
| Bitmaps.FindPath | src/types/Bitmap.ts:122-189 | the traced path is closed; its sign is '+' exactly when the start pixel is set; its second vertex is the point below the start |
| Bitmaps.FirstOne | src/types/Bitmap.ts:97-100 | the scan stops at the first index at or after i holding 1, or at the end |
| Bitmaps.FindPaths | src/types/Bitmap.ts:91-112 | the intended loop leaves a bitmap of the same dimensions with no 1 after the last scan start, and every path it returns is closed, '+' and larger than `turdSize` |
| Bitmaps.Despeckle | src/types/Bitmap.ts:105-108 | a path is kept, in front of the later ones, exactly when its area exceeds `turdSize` |
| Bitmaps.TraceAt | src/types/Bitmap.ts:101-104 | a path traced from a pixel holding 1 is closed and '+', and `len` counts its vertices |
| Bitmaps.ClearPath | src/types/Bitmap.ts:104 | xor-clearing keeps the picture's dimensions and validity |
| Bitmaps.FindNextAsWritten | src/types/Bitmap.ts:91-112 | the generator as written has no loop around its scan, so it yields at most one path |
| Bitmaps.AsWrittenIsFirstPath | src/types/Bitmap.ts:91-112 | what the written generator yields, if anything, is the first path of the intended loop |
| PathSums.Terms | src/types/Path.ts:39-47 | each vertex contributes x, y, xy, x^2 and y^2 of its offset from vertex 0 |
| PathSums.CalcSums | src/types/Path.ts:34-52 | sums[0] is zero, and for every k in 0..len sums[k] holds the five totals of the first k vertices, taken relative to vertex 0 |
| PathSums.LappedAt | src/types/Path.ts:509-530 | the lapped prefix total at r + q*len is the prefix total up to r plus q full laps |
| PathSums.LappedStep | src/types/Path.ts:509-530 | one more vertex adds the term of the vertex it reaches, modulo len |
| PathSums.CycSumIsLappedDifference | src/types/Path.ts:509-530 | the total over a cyclic run of vertices is a difference of two lapped prefix totals |
| PathSums.Penalty3Window | src/types/Path.ts:308-327 | for i <= j < 2 len, with or without the wrap, each total `penalty3` reads is the sum over the cyclic vertices i..j, and the count is j + 1 - i |
| PathSums.PointSlopeWindow | src/types/Path.ts:502-530 | whatever the signs of i and j, after the four normalising loops each total is the sum over the cyclic vertices i..j and the count is j + 1 - i |
| PathSums.LappedWindow | src/types/Path.ts:525-530 | each total reads sums[j' + 1] - sums[i'] + r * sums[len] |
| PathSums.NormalisedWindow | src/types/Path.ts:509-530 | with i = i' + ri len and j = j' + rj len, the lapped reads with r = rj - ri are the cyclic sums over i..j |
| Lon.TracedPathIsCycle | src/types/Path.ts:61-69 | a path the tracer closes is a cycle of unit steps |
| Lon.CycleStep | src/types/Path.ts:61-69 | each vertex and its cyclic successor are one unit apart |
| Lon.CycleAligned | src/types/Path.ts:70-79 | each vertex and its cyclic successor lie on a horizontal or vertical line |
| Lon.NextCornerStep | src/types/Path.ts:72-78 | one round keeps the table's meaning: entry seg takes seg + 1 when vertex seg is off both lines through the next corner, and that corner otherwise |
| Lon.NextCorners | src/types/Path.ts:56-79 | every `nextCorner` entry is 0 or later than its index, and each vertex from i up to nc[i] lies on an axis-parallel line through vertex nc[i] |
| Lon.AxisCodes | src/types/Path.ts:89-94 | each unit step has an integer code in 0..3; the four unit steps have four different codes; a null step counts in no slot |
| Lon.AlignedTowardIsAxis | src/types/Path.ts:108-112 | between aligned points the sign direction is a unit step or null |
| Lon.Tally | src/types/Path.ts:94 | `ct[dir] += 1` keeps four counters |
| Lon.Pass | src/types/Path.ts:107-149 | a pass moves the corner to k and k to its next corner; a search that goes on has k still before seg; seeing all four directions stops it with a pivot at the corner; a pivot, once set, stays |
| Lon.ModNear | src/utils.ts:58-59 | on (-n, 2n), `mod` is one addition or subtraction of n |
| Lon.HopBound | src/types/Path.ts:145-149 | each hop to the next corner moves forward at least one vertex and, while k stays before seg, never past one full lap |
| Lon.Search | src/types/Path.ts:107-150 | the search loop ends, with the corner and k as vertex indices and any pivot found a vertex index |
| Lon.PivotAfter | src/types/Path.ts:156-188 | without a four-direction cut, pivk[seg] is the corner moved j steps towards k, taken modulo len; with a cut it is that corner |
| Lon.PivotOf | src/types/Path.ts:87-189 | every pivk[seg] is a vertex index |
| Lon.FirstStepCounted | src/types/Path.ts:89-94 | the first code counted, the unit step out of seg, always lands in a slot |
| Lon.CornerStepCounted | src/types/Path.ts:108-113 | every later code is a slot, or none when the corner and its next corner coincide |
| Lon.Carry | src/types/Path.ts:194-201 | the middle loop defines lon at every index it visits, keeps defined entries defined, and only ever stores pivots |
| Lon.Wrap | src/types/Path.ts:203-209 | the last loop keeps defined entries defined and changes an entry only to the current j |
| Lon.CleanUpOver | src/types/Path.ts:190-209 | the clean-up defines lon[len - 1] and every index the middle loop visits, and stores only pivots |
| Lon.CleanUpAsWritten | src/types/Path.ts:194-209 | as written, the descending `range(0, len - 2, -1)` visits len - 3 down to 0, so only the indices below len - 2 are sure to be defined |
| Lon.CleanUpAsWrittenLeavesHole | src/types/Path.ts:196 | for four vertices whose pivots are all 0, the written clean-up leaves lon[2] undefined |
| Lon.CarryKeeps | src/types/Path.ts:196-201 | the middle loop leaves an index it does not visit as it was |
| Lon.CleanUp | src/types/Path.ts:190-209 | with the middle loop over len - 2 down to 0, every lon[i] is defined, is a vertex index and is one of the pivots |
| Lon.CalcLon | src/types/Path.ts:55-212 | for a closed path, pivk and lon have one entry per vertex, each a vertex index, and every lon[i] is one of the pivots |
| Polygon.Clip0At | src/types/Path.ts:234-245 | clip0[i] lies strictly after i and at most at len: it is len when the segment would wrap, otherwise lon[i - 1] - 1 modulo len, or i + 1 when that lands on i |
| Polygon.Clip0 | src/types/Path.ts:233-245 | the first loop fills clip0[i] for every vertex, each strictly after i and at most len |
| Polygon.Clip1 | src/types/Path.ts:246-256 | clip1[j], for j in 1..len, is the first vertex whose clip0 reaches j |
| Polygon.Clip1Shape | src/types/Path.ts:246-256 | clip1 never points forward (clip1[j] < j for j >= 1) and is nondecreasing |
| Polygon.Clip1Below | src/types/Path.ts:246-248 | the half of the comment's inverse that always holds: j <= clip0[i] implies clip1[j] <= i |
| Polygon.Clip1Inverse | src/types/Path.ts:246-248 | when clip0 is nondecreasing, j <= clip0[i] if and only if clip1[j] <= i, for i in 0..len-1 and j in 0..len |
| Polygon.Clip1InverseNeedsMonotone | src/types/Path.ts:246-248 | with clip0 = [3, 2, 3], clip1[3] = 0 <= 1 but clip0[1] = 2 < 3: the converse fails without monotonicity |
| Polygon.Seg0 | src/types/Path.ts:258-265 | seg0[t] is where the greedy walk from 0 along clip0 is after t hops; it strictly increases and reaches len after m hops |
| Polygon.Seg1 | src/types/Path.ts:267-273 | seg1[t] is where the greedy walk back from len along clip1 is after m - t hops, and seg1[0] is 0 |
| Polygon.WindowsOrdered | src/types/Path.ts:258-273 | with a nondecreasing clip0, each window starts after the previous one ends: seg0[t - 1] < seg1[t] |
| Polygon.WindowsNonEmpty | src/types/Path.ts:258-273 | every window [seg1[t], seg0[t]] is non-empty |
| Polygon.ChooseFindsLargestArgmin | src/types/Path.ts:284-292 | when every pen[k] read is a number, the innermost loop ends with the least candidate penalty3(k, i) + pen[k] over its range and the largest k attaining it |
| Polygon.Round | src/types/Path.ts:283-293 | one round keeps the tables' shape and changes no entry outside i..seg0[t] |
| Polygon.Relax | src/types/Path.ts:284-292 | one pass of the loop body changes pen and prev at vertex i only |
| Polygon.Rounds | src/types/Path.ts:281-294 | the outer loop keeps the tables' shape |
| Polygon.SolvedAtFrame | src/types/Path.ts:283-292 | whether vertex i is solved depends only on its own entries and those of earlier windows |
| Polygon.EarlierWindowsBelow | src/types/Path.ts:276-280 | every earlier window lies below the window of round t |
| Polygon.RoundSolves | src/types/Path.ts:283-293 | round t solves every vertex of its window and leaves the earlier windows solved |
| Polygon.RelaxSolves | src/types/Path.ts:284-292 | relaxing vertex i solves it and keeps what earlier rounds and vertices solved |
| Polygon.RelaxSolvesVertex | src/types/Path.ts:284-292 | after the pass, pen[i] is the least candidate over clip1[i]..seg0[t - 1] and prev[i] the largest k attaining it |
| Polygon.PreviousWindowDefined | src/types/Path.ts:285-286 | every pen[k] the round reads is a non-negative number |
| Polygon.RoundsSolve | src/types/Path.ts:275-294 | with a nondecreasing clip0 and non-negative penalties, after all m rounds every vertex of every window holds its least penalty and its largest minimiser |
| Polygon.ReadOff | src/types/Path.ts:299-303 | a read-off that succeeds yields m indices that start at 0, strictly increase and lie below len, ending with the part already read |
| Polygon.ReadOffSucceeds | src/types/Path.ts:299-303 | from a vertex of window t, the solved predecessors lead back to 0 in exactly t hops, so the read-off succeeds |
| Polygon.HopBack | src/types/Path.ts:299-303 | the solved predecessor of a vertex of window t is defined, points back, and lands in window t - 1 |
| Polygon.PrependIncreasing | src/types/Path.ts:300-302 | a vertex below an increasing run of later vertices keeps the run increasing |
| Polygon.MakePlan | src/types/Path.ts:214-273 | the plan holds clip0, clip1, seg0, m and seg1 as their loops define them |
| Polygon.BestPolygon | src/types/Path.ts:214-306 | m >= 1; a polygon that comes out has m vertex indices, starts at 0 and increases; with a nondecreasing clip0 and non-negative penalties it always comes out |
| CurveFit.Interleave | src/types/Curve.ts:33 | three points per segment, segment j's at 3j, 3j + 1 and 3j + 2 |
| CurveFit.SwapFrom | src/types/Curve.ts:42-48 | the swap loop from the pair (x, y) inwards mirrors positions x..y and leaves the rest alone |
| CurveFit.Reverse | src/types/Curve.ts:40-50 | `reverse` moves vertex[i] to vertex[n - 1 - i] and changes no other field |
| CurveFit.ReverseInvolution | src/types/Curve.ts:40-50 | reversing twice gives back the curve |
| CurveFit.Alpha0 | src/types/Curve.ts:58-66 | alpha0 lies in [0, 4/3] and is 4/3 when the two neighbours coincide (ddenom = 0) |
| CurveFit.Alpha0Symmetric | src/types/Curve.ts:58-66 | alpha0 does not depend on the direction of travel: swapping the neighbours keeps it |
| CurveFit.Alpha0Straight | src/types/Curve.ts:58-66 | a vertex on the straight line between two distinct neighbours gets alpha0 = 0 |
| CurveFit.SmoothAt | src/types/Curve.ts:55-85 | segment j gets alpha0 from its neighbours; it is a CORNER exactly when alpha0 reaches alphaMax; it ends at the midpoint of vertex j and its successor; a CORNER keeps its first control point and puts the second on the vertex; a CURVE clamps alpha to [0.55, 1] and puts both control points at 0.5 + 0.5 alpha along the legs |
| CurveFit.SmoothVisitsEachOnce | src/types/Curve.ts:55-57 | the loop over i writes segment j = i + 1 once for every j, with neighbours i = j - 1 and i + 2 = j + 1 modulo n |
| CurveFit.Smoothings | src/types/Curve.ts:55-85 | one smoothed segment per vertex |
| CurveFit.BuildSmoothed | src/types/Curve.ts:67-86 | the smoothed curve keeps its vertices, takes each segment's tag, alphas and control points, sets every beta to 1/2 and alphaCurve to 1 |
| CurveFit.SmoothedFields | src/types/Curve.ts:67-83 | the tags, alphas and alpha0s come from the per-segment results |
| CurveFit.SmoothedControls | src/types/Curve.ts:71-81 | the control points come from the per-segment results, laid out as c is |
| CurveFit.Smooth | src/types/Curve.ts:52-89 | `smooth` keeps n and the vertices, smooths every segment, keeps every alpha0 in [0, 4/3] and every CURVE alpha in [0.55, 1] |
| CurveFit.SmoothIdempotent | src/types/Curve.ts:52-89 | smoothing reads only the vertices and the corners' first control points, which it keeps, so smoothing twice changes nothing |
| CurveFit.SmoothAtStable | src/types/Curve.ts:55-85 | a segment smoothed once smooths to the same result again |
| CurveFit.SmoothStraightRun | src/types/Curve.ts:63-78 | for a positive alphaMax, a vertex on a straight run becomes a CURVE with alpha 0.55 |
| CurveFit.Convexity | src/types/Curve.ts:110-118 | convc[i] is -1, 0 or 1, and 0 at every CORNER |
| CurveFit.OptiPenalty | src/types/Curve.ts:244-252 | a run is rejected when i = j or when the vertex after i is not a convex CURVE vertex; otherwise the outcome is the geometric fit's |
| CurveFit.CornerAfterRejects | src/types/Curve.ts:249-252 | a CORNER after i always rejects the run starting at i |
| CurveFit.ChainsKept | src/types/Curve.ts:142-163 | entries the loop no longer writes keep describing chains back to 0 |
| CurveFit.ChainLength | src/types/Curve.ts:142-163 | the chain ending at i has at most i segments |
| CurveFit.Runs | src/types/Curve.ts:147-162 | the inner loop changes only entry j and keeps it a chain back to 0; it stops at the first rejected run and takes a run with fewer segments, or as many at a lower penalty |
| CurveFit.Extend | src/types/Curve.ts:143-145 | before the inner loop, entry j is the chain through j - 1 plus one segment |
| CurveFit.Fill | src/types/Curve.ts:142-163 | after the outer loop every entry 0..m describes a chain back to 0 |
| CurveFit.Start | src/types/Curve.ts:138-140 | pt[0] = -1, pen[0] = 0 and len[0] = 0 start the chains, and no entry holds a fit yet |
| CurveFit.Rebuild | src/types/Curve.ts:169-198 | the read-back yields len[j] segments, each a verbatim copy of an input segment or a fitted CURVE with alpha = alpha0 |
| CurveFit.RebuildWeights | src/types/Curve.ts:180-195 | when every stored fit has s, t > 0, every read-back weight is positive |
| CurveFit.RunsKeepFits | src/types/Curve.ts:147-162 | the inner loop only stores fits the fit function produced |
| CurveFit.FillKeepsFits | src/types/Curve.ts:142-163 | the tables only ever hold fits the fit function produced |
| CurveFit.Pieces | src/types/Curve.ts:164-198 | the optimised curve has between 1 and m segments, each a copy or a fitted CURVE with alpha = alpha0 |
| CurveFit.PiecesWeights | src/types/Curve.ts:164-198 | positive fits give positive weights, so every beta is defined |
| CurveFit.Next | src/types/Curve.ts:201 | the next index is (a + 1) mod om |
| CurveFit.Beta | src/types/Curve.ts:202 | beta = s / (s + t) lies strictly between 0 and 1 for positive weights |
| CurveFit.Betas | src/types/Curve.ts:200-203 | beta[a] = s[a] / (s[a] + t[a + 1]), cyclically |
| CurveFit.Assemble | src/types/Curve.ts:164-206 | the optimised curve takes each segment's tag, vertex, alphas and control points from the pieces, with the cyclic betas and alphaCurve 1 |
| CurveFit.PieceShapes | src/types/Curve.ts:172-187 | the tags and vertices come from the pieces |
| CurveFit.PieceAlphas | src/types/Curve.ts:177-193 | the alphas and alpha0s come from the pieces |
| CurveFit.PieceControls | src/types/Curve.ts:173-186 | the control points come from the pieces, laid out as c is |
| CurveFit.OptiCurve | src/types/Curve.ts:91-209 | `optiCurve` keeps between 1 and m segments; each is a verbatim copy of an input segment or a fitted CURVE with alpha = alpha0; every beta lies strictly between 0 and 1 |
| CurveFit.AssembledSegments | src/types/Curve.ts:169-198 | each assembled segment is a copy of some input segment, or a fitted CURVE |
| CurveFit.NoFitChains | src/types/Curve.ts:142-163 | when every run is rejected, each j keeps the chain through j - 1 |
| CurveFit.NoFitRebuild | src/types/Curve.ts:169-198 | with no run merged, the read-back copies input segment a + 1 (mod m) to position a |
| CurveFit.NoFitRotates | src/types/Curve.ts:91-209 | when no run is accepted the curve keeps all m segments shifted by one, and every beta is 1/2 |
| CurveFit.RotatedFromCopies | src/types/Curve.ts:169-203 | the shifted copies with unit weights make the rotated curve |
| CurveFit.Render | src/types/Curve.ts:367-400 | a curve with no segments throws; otherwise the drawing is a move to the last segment's end point, then one C or L per segment through its scaled control points, and it ends where it started |
| CurveFit.ScaledUnit | src/types/Curve.ts:378-396 | scaling a unit-scaled point is scaling it once |
| CurveFit.RenderScales | src/types/Curve.ts:367-400 | rendering at a size is rendering at unit size with every point scaled |
| Posterize.Invalidate | src/Posterizer.ts:60-64 | once the parent has loaded the bitmap, `loadImage` forgets the memoised threshold and keeps every option |
| Posterize.SetParameters | src/Posterizer.ts:52-55 | as intended, every option the update names takes the given value, every other option keeps its value, and the memoised threshold is forgotten |
| Posterize.EmptyUpdateInvalidates | src/Posterizer.ts:52-64 | an update that names no option does to the stop logic exactly what `loadImage` does |
| Posterize.SamePolarityInvalidates | src/Posterizer.ts:341 | `setParameters({ blackOnWhite })` with the current polarity only forgets the memoised threshold |
| Posterize.New | src/Posterizer.ts:36-47 | as intended, a new posterizer has the initial options overridden by exactly the given ones, and no memo |
| Posterize.NewAsWritten | src/Posterizer.ts:36-47 | as written, a given threshold other than THRESHOLD_AUTO, steps other than [STEPS_AUTO] or a fill strategy other than DOMINANT never survives construction |
| Posterize.ConstructorOptionsLost | src/Posterizer.ts:36-47 | `{ threshold: 100, steps: [3] }` is kept as intended and lost as written |
| Posterize.SuperCall | src/Posterizer.ts:52-64 | a `super` call throws exactly when the method is not on PotraceImage's prototype, which holds none of its arrow-function fields |
| Posterize.SetParametersAsWritten | src/Posterizer.ts:52-55 | as written every call throws before any option is assigned |
| Posterize.LoadImageAsWritten | src/Posterizer.ts:60-64 | as written every call rejects before the bitmap is read |
| Posterize.AutoPick | src/Posterizer.ts:322-324 | the automatic threshold is the second cut for blackOnWhite and the first otherwise, and 128 when that cut is missing or 0, so it is never 0 |
| Posterize.TwoCuts | src/Posterizer.ts:322 | `multilevelThresholding(2)` gives no cut or two ascending levels inside (0, 253] |
| Posterize.GetThreshold | src/Posterizer.ts:312-327 | `#getThreshold` returns the memo when set; otherwise the configured threshold, or in auto mode a level in (0, 253]; the value is stored in the memo |
| Posterize.AutoThresholdIsCut | src/Posterizer.ts:322-324 | in auto mode a fresh threshold is the cut matching blackOnWhite, or 128 when `multilevelThresholding(2)` finds none |
| Posterize.ThresholdMemoised | src/Posterizer.ts:313-315 | once stored, the memo answers every later query with the same value and no further change |
| Posterize.GetSteps | src/Posterizer.ts:287-307 | `#getSteps(true)` with explicit steps counts them; with STEPS_AUTO it is 4 in auto-threshold mode or above 200 levels and 3 otherwise; explicit steps give max(2, steps[0]) capped at the level count, and NaN for an empty array; only the threshold memo may change |
| Posterize.Reversed | src/Posterizer.ts:254 | `reverse` puts element i at position n - 1 - i |
| Posterize.ReversedOrder | src/Posterizer.ts:253-255 | reversing a strictly ordered list gives the opposite strict order and the same elements |
| Posterize.Keep | src/Posterizer.ts:202-206 | the kept stops are distinct levels: exactly the given values that lie in [0, 255], never more than were given |
| Posterize.KeepIgnoresRepeats | src/Posterizer.ts:203 | a value already kept adds nothing when it comes again |
| Posterize.Insert | src/Posterizer.ts:212-214 | inserting a new value into a strictly ordered list keeps it ordered and adds exactly that value |
| Posterize.Sort | src/Posterizer.ts:212-214 | the comparator sorts distinct stops in strict order (descending for blackOnWhite) and keeps the same elements |
| Posterize.TopIsLargest | src/Posterizer.ts:216-222 | the stop at the strict end of an ordered list is its largest |
| Posterize.AddThreshold | src/Posterizer.ts:216-223 | the threshold is added at the strict end exactly when every sorted stop is below it; the list stays ordered and its largest stop is at least the threshold |
| Posterize.ExplicitStops | src/Posterizer.ts:198-223 | the explicit-stop branch gives exactly the kept values, plus the threshold when every kept value is below it, in strict order, with the largest at least the threshold |
| Posterize.EqualStops | src/Posterizer.ts:272-279 | the loop yields one stop per step, none for NaN or fewer than one step, stop k being the pass for i = m - 1 - k |
| Posterize.StepsBelowWhole | src/Posterizer.ts:270-275 | j steps of colors/m stay within colors for j <= m and m steps reach it, so the `min` never cuts |
| Posterize.EqualStopAt | src/Posterizer.ts:275-276 | stop k of m is (m - k) colors/m, mirrored as 255 minus that when not blackOnWhite |
| Posterize.EqualStopsSpacing | src/Posterizer.ts:264-282 | m equal steps start at colors (255 - colors when not blackOnWhite) and are colors/m apart, descending for blackOnWhite and ascending otherwise |
| Posterize.EqualStopGap | src/Posterizer.ts:274-279 | consecutive equal stops are colors/m apart in the direction blackOnWhite chooses |
| Posterize.EqualStopStep | src/Posterizer.ts:275-277 | one pass later a stop is one step of colors/m nearer 0 (nearer 255 when not blackOnWhite) |
| Posterize.RangesEqual | src/Posterizer.ts:264-282 | the first equally distributed stop is the threshold when that is a level; explicit steps never give more stops than the levels on the threshold's side |
| Posterize.CutsShape | src/Posterizer.ts:238-244 | automatic cuts on [lo, hi] are strictly ascending levels in (lo, hi - 2] |
| Posterize.LevelsNormalise | src/Posterizer.ts:243-244 | two ordered levels pass the histogram's range normalisation unchanged |
| Posterize.PinnedCuts | src/Posterizer.ts:242-244 | `multilevelThresholding(amount, lo, hi)` on two levels succeeds with ascending cuts in (lo, hi - 2] |
| Posterize.RangesAuto | src/Posterizer.ts:231-258 | `#getRangesAuto` never fails; its stops are levels in strict order (descending for blackOnWhite), and a pinned threshold is the first stop |
| Posterize.AutoStops | src/Posterizer.ts:237-238 | in auto mode the stops are the automatic cuts on [0, 255], put in stop order |
| Posterize.PinnedStops | src/Posterizer.ts:239-255 | a pinned threshold t comes first, followed by the cuts for one level fewer on [0, t] (blackOnWhite, reversed) or on [t, 255] |
| Posterize.AppendAbove | src/Posterizer.ts:246-247 | pushing a threshold above all cuts keeps them ascending |
| Posterize.PrependBelow | src/Posterizer.ts:248-249 | unshifting a threshold below all cuts keeps them ascending |
| Posterize.RangesTile | src/Posterizer.ts:121-129 | the stops' ranges tile the levels: for blackOnWhite the first ends at the first stop, each starts just above where the next one ends, and the last starts at 0; mirrored otherwise, the last ending at 255 |
| Posterize.RangesNonEmpty | src/Posterizer.ts:121-131 | strictly ordered levels give ranges that each hold at least one level, all within [0, 255] |
| Posterize.SpreadColor | src/Posterizer.ts:143-151 | the SPREAD colour is NaN for a single stop, the saturated end of the range for the first stop, and inside the range otherwise |
| Posterize.Widen | src/Posterizer.ts:149 | max(0.5, fullRange/255) lies in [0.5, 1] for a full range within the levels |
| Posterize.Share | src/Posterizer.ts:130 | index/(length - 1) lies in [0, 1] and is 0 for the first stop |
| Posterize.Shift | src/Posterizer.ts:146-150 | the SPREAD offset is 0 at factor 0 and never exceeds the interval size |
| Posterize.Spaced | src/Posterizer.ts:169-174 | the first stop keeps its colour; every later one is clamped into its range less a tenth of the interval, and a colour already inside stays unchanged |
| Posterize.Intensity | src/Posterizer.ts:176-180 | the colour -1 gives intensity 0; any other colour is read back from its intensity, and a level gives an intensity in [0, 1] |
| Posterize.StopIntensity | src/Posterizer.ts:121-181 | a stop fails exactly when its histogram query cannot normalise the range; otherwise an empty range gives 0, and a first MEAN or MEDIAN stop gets a grey level inside its range |
| Posterize.SpacedStop | src/Posterizer.ts:169-180 | the stop keeps its value; its grey level is the colour itself on the first stop and inside the spaced range on every later one |
| Posterize.QueriedColor | src/Posterizer.ts:132-167 | a strategy other than SPREAD fails on a range that does not normalise, finds nothing in an empty range, and otherwise reads the dominant colour, mean or median, or -1 for an unknown strategy |
| Posterize.ColorIntensities | src/Posterizer.ts:112-182 | `#calcColorIntensity` gives one stop per input exactly when no stop's range fails, each as StopOk describes |
| Posterize.StopsOkSnoc | src/Posterizer.ts:121-181 | appending the next stop's result keeps every earlier stop as computed |
| Posterize.OrderedLevelsNeverFail | src/Posterizer.ts:121-132 | stops that are ordered levels never make the intensity computation throw |
| Posterize.SaneThreshold | src/Posterizer.ts:312-327 | a validated posterizer's threshold is a level, and querying it or clearing the memo keeps it valid |
| Posterize.GetRanges | src/Posterizer.ts:187-194 | `getRanges` stores the threshold; with auto distribution it never throws; with equal distribution or a pinned threshold the first stop is the threshold |
| Posterize.StopsOf | src/Posterizer.ts:187-194 | the stops come from `#getRangesAuto` (ordered levels that never throw) or from the equal distribution |
| Posterize.Thousandths | src/Posterizer.ts:362 | n thousandths times 1000 is n |
| Posterize.NearestThousandth | src/Posterizer.ts:362 | rounding a magnitude to thousandths moves it by at most half a thousandth |
| Posterize.Fixed3 | src/Posterizer.ts:362 | `parseFloat(x.toFixed(3))` is within half a thousandth of x and has three decimals at most |
| Posterize.Magnitude3 | src/Posterizer.ts:362 | a magnitude rounds to the nearest thousandth, halves up |
| Posterize.Fixed3Exact | src/Posterizer.ts:362 | a value with three decimals comes back unchanged |
| Posterize.LayerOpacity | src/Posterizer.ts:355-365 | a layer's opacity is NaN only for a NaN intensity and otherwise lies in [0, 1] |
| Posterize.Over | src/Posterizer.ts:366-367 | compositing multiplies the light let through: 1 - new = (1 - prev)(1 - opacity), and it never lowers an opacity in [0, 1] |
| Posterize.Composite | src/Posterizer.ts:343-383 | one layer per stop; a stop of intensity 0 is skipped, a NaN intensity is painted with a NaN opacity, and no painted layer has opacity 0 |
| Posterize.AddLayer | src/Posterizer.ts:346-381 | a pass keeps the earlier layers and appends one, skipped exactly when the intensity is 0 or its opacity rounds to 0, otherwise painted with that opacity; a skipped layer leaves the combined opacity as it was |
| Posterize.CombinedInUnit | src/Posterizer.ts:343-367 | with no NaN intensity the combined opacity stays defined and in [0, 1] |
| Posterize.CombinedStep | src/Posterizer.ts:366-367 | adding a layer never lowers the combined opacity |
| Posterize.CombinedNeverDecreases | src/Posterizer.ts:343-367 | the combined opacity never decreases from one layer to a later one |
| Posterize.CompositePrefix | src/Posterizer.ts:345-382 | the layers of a prefix of the stops are the prefix of the layers |
| Posterize.CompositeIsProduct | src/Posterizer.ts:343-367 | with no NaN intensity, one minus the combined opacity is the product of one minus each painted layer's opacity |
| Posterize.FirstPaintedTakesOwnIntensity | src/Posterizer.ts:349-381 | the first layer with a non-zero intensity is painted with that intensity, rounded and clamped, or dropped when that rounds to 0 |
| Posterize.LayerSkippedExactly | src/Posterizer.ts:349-381 | layer k is skipped exactly when its intensity is 0 or its opacity over the layers before it rounds to 0 |
| Posterize.TinyIntensityDropped | src/Posterizer.ts:355-381 | a single stop of intensity 0.00025 gets opacity 0 and leaves no tag |
| Posterize.PathLayers | src/Posterizer.ts:333-384 | as intended, the layers fail only when `getRanges` does, never with automatic ranges; on success the options are kept with the memo forgotten, and no painted layer is fully transparent |
| Posterize.PathLayersAsWritten | src/Posterizer.ts:333-341 | as written the call always throws, so `getSVG` and `getSymbol` never return markup |
| Posterize.ZeroPrefixCombined | src/Posterizer.ts:349 | layers of intensity 0 leave the combined opacity at 0 |
| Posterize.LayerReachesIntensity | src/Posterizer.ts:355-367 | over a combined opacity below 1, a layer whose intensity is at least that opacity and needs no rounding brings the combined opacity exactly to its intensity |
| Posterize.ReachOver | src/Posterizer.ts:358-359 | the opacity (prev - x)/(prev - 1) lifts prev exactly to x |
| Facade.TruthyIsNotFalsy | src/PotraceImage.ts:59 | a value is truthy exactly when it is none of JavaScript's falsy values |
| Facade.NumberOf | src/types/Bitmap.ts:106 | a number compares as itself; undefined, NaN and non-numeric strings read as NaN, which fails every comparison |
| Facade.Defaults | src/PotraceImage.ts:29-47 | a new instance holds every option key, with threshold THRESHOLD_AUTO, optCurve and blackOnWhite true, color COLOR_AUTO and turnPolicy "minority" |
| Facade.PolicyName | src/Constants.ts:15-22 | each turn policy has one of the six TURNPOLICIES names |
| Facade.PolicyOf | src/types/Bitmap.ts:158-165 | a policy name selects that policy; any other stored value matches none of the comparisons and turns left |
| Facade.PolicyNameRoundTrip | src/types/Bitmap.ts:158-165 | naming a policy and reading the name back gives the same policy |
| Facade.UnknownPolicyTurnsLeft | src/types/Bitmap.ts:158-165 | a value that names no policy never takes an ambiguous turn to the right |
| Facade.Validate | src/PotraceImage.ts:72-109 | the intended validation passes exactly the acceptable updates; it reports the turnPolicy error exactly for a truthy non-policy value, and the threshold error exactly when the policy passes and the threshold is neither absent, null, THRESHOLD_AUTO nor a number in [0, 255] |
| Facade.PolicyCheckAgrees | src/PotraceImage.ts:73-84 | the intended turnPolicy test, truthy and not a policy name, refuses exactly what the accepted values exclude |
| Facade.ValidateAsWritten | src/PotraceImage.ts:73-84 | as written the turnPolicy error is thrown exactly for a policy name |
| Facade.PolicyCheckInverted | src/PotraceImage.ts:73-84 | {turnPolicy: "black"} is refused as written and accepted as intended; {turnPolicy: "diagonal"} the other way round |
| Facade.FractionalThresholdAccepted | src/PotraceImage.ts:91-97 | the check is `range(255).contains`, so 12.5 passes although the message asks for an integer, and 255.5 fails |
| Facade.SetParameters | src/PotraceImage.ts:58-67 | a missing argument changes nothing; a rejected update throws before anything is assigned; an accepted one is copied over the fields and clears `processed` unless it names color or background; every instance invariant is kept |
| Facade.EmptyUpdateInvalidates | src/PotraceImage.ts:58-67 | `setParameters({})` only marks the paths stale |
| Facade.UpdateIdempotent | src/PotraceImage.ts:58-67 | applying the same accepted update twice is applying it once |
| Facade.MixedUpdateKeepsProcessed | src/PotraceImage.ts:61-66 | {color, threshold} assigns the new threshold but leaves `processed` set, so the next export keeps the paths traced at the old one |
| Facade.New | src/PotraceImage.ts:49-53 | a new instance has no bitmap, no paths and both flags cleared; each option is the given one or its default; invalid options throw |
| Facade.HistogramOf | src/types/Bitmap.ts:44-46 | the histogram of a luminance grid is valid and counts every pixel |
| Facade.TraceThreshold | src/PotraceImage.ts:139-142 | the tracer binarises at the automatic threshold (0 when there is none) when the threshold is THRESHOLD_AUTO, and at 128 for any other threshold |
| Facade.TracePaths | src/PotraceImage.ts:143-147 | every path traced for the stored options is closed and larger than turdSize; a NaN turdSize keeps none |
| Facade.PolygonCurve | src/types/Path.ts:338-499 | the curve has one segment per polygon vertex, vertex j being the adjusted vertex j |
| Facade.Oriented | src/PotraceImage.ts:150 | only a '-' path has its vertex order reversed |
| Facade.AlphaMaxOf | src/types/Curve.ts:68-70 | a numeric alphaMax is used as it is; an undefined one (allowed by `alphaMax?: number`, src/PotraceImage.ts:17) fails `newAlpha >= alphaMax` for every vertex |
| Facade.FitCurve | src/PotraceImage.ts:151-154 | without optimisation every vertex stays and each segment is the smoothed one; with it the curve has between 1 and n segments, each with 0 < beta < 1 |
| Facade.UndefinedAlphaMaxAllCurved | src/PotraceImage.ts:151 | with alphaMax undefined and no optimisation, every segment of the fitted curve is a CURVE |
| Facade.OptimizeAsWritten | src/PotraceImage.ts:152-154 | as written `curve.optimize` does not exist, so the call throws exactly when optCurve is truthy and changes nothing otherwise |
| Facade.DefaultsThrowAsWritten | src/PotraceImage.ts:34 | with the default options (optCurve true) every path's optimisation throws as written |
| Facade.ShapeBound | src/types/Path.ts:295-303 | a polygon of strictly increasing vertex indices below len has at most len vertices |
| Facade.CurveOf | src/PotraceImage.ts:149-155 | a traced path becomes a polygon on its own vertices and a curve of between 1 and that many segments; without optimisation vertex j is the adjusted polygon vertex j, counted from the end for a '-' path |
| Facade.CurvesOf | src/PotraceImage.ts:146-156 | one fitted curve per path, in order |
| Facade.GeneratePathList | src/PotraceImage.ts:138-158 | on success the path list holds one fitted curve per traced path, in order, `processed` is set and nothing else changes; on failure nothing is assigned |
| Facade.LoadImage | src/PotraceImage.ts:117-132 | the bitmap is stored and the options kept; `imageLoaded` is set exactly when generating the paths succeeds, and then the paths are up to date |
| Facade.Fill | src/PotraceImage.ts:167-172 | COLOR_AUTO resolves to black for blackOnWhite and white otherwise; any other colour is kept |
| Facade.FillIdempotent | src/PotraceImage.ts:167-172 | resolving a fill colour twice is resolving it once |
| Facade.RenderAll | src/PotraceImage.ts:182-184 | one drawing per curve, in order, each the curve rendered at the given size |
| Facade.RenderAsWritten | src/PotraceImage.ts:182-184 | as written `curve.render` does not exist, so drawing throws exactly when there is a path |
| Facade.ScaleAsWritten | src/types/Curve.ts:367 | as written a given scale reaches `renderCurve` with neither x nor y, so width and height are undefined; only an absent scale draws at unit size |
| Facade.GetPathTag | src/PotraceImage.ts:163-187 | the call throws while no image is loaded; it regenerates the paths only when they are stale; the tag carries the resolved fill and one drawing per path at the given size, or at unit size |

## Left out

- Image decoding is not modelled: reading an image through Jimp, the RGBA-to-luminance conversion, `u32ToRGB` and `#collectValuesJimp`. Floating-point rounding and foreign code are involved. The model takes a luminance grid as its input (`Facade.LoadImage`).
- The asynchronous side of `loadImage`, and cancelling a superseded load, are not modelled: this is concurrency outside the engine's logic.
- The `.rs` files are a second port and are not modelled.
- Markup is not modelled: `setHtmlAttribute`, `getAttrRegexp`, `svgFromPaths`, `symbolFromPaths`, `getSVG`, `getSymbol` and the number formatting of `fixed`. Drawings are command lists. The one place where a `toFixed(3)` decides a value, the layer opacity, is modelled (`Posterize.Fixed3`).
- The numeric value of `penalty3` is a parameter: a non-negative function of the two end vertices. It takes a square root. The index wrapping it does is modelled (`PathSums.Penalty3Window`).
- The eigenvector and square root of `pointslope` are not modelled. Its index wrapping is modelled (`PathSums.PointSlopeWindow`).
- The minimisation of `adjustVertices` enters as a parameter (`Facade.Kernels`). It solves a small system in floating point. The forms it builds and the determinant it tests first are modelled in QuadForm; the solution and the unit-square search are not.
- QuadForm.RankOne: it states the form of one segment's line. As written, `ctr`, `dir` and `quads` each hold one shared object (src/types/Path.ts:347-349), so no segment keeps a form of its own: every quad is the last segment's form (`QuadForm.SegmentFormsAsWritten`).
- `optiPenalty` beyond its early rejections is the fit function, a parameter of `CurveFit.OptiCurve`. It uses `tangent`, `bezier`, square roots and the `areac` cache. The fits are assumed to have positive s and t, as the tangent construction gives (`CurveFit.PositiveFits`).
- `areac` is not modelled; it feeds only the fit.
- `stdDev` in `getStats` is not modelled; it takes a square root.
- `#addExtraColorStop` is not modelled; it depends on `stdDev`.
- `console.warn` in `multilevelThresholding` is not modelled.
- Fractional thresholds and step values are not modelled, because the Posterize model holds them as integers. The facade's validation still accepts fractions, as the source does.
- Bitmaps.Walk: a walk is bounded by `fuel` moves, and None means the fuel ran out. Only a walk that finishes is described; the source's loop is unbounded.
- Bitmaps.FindPaths: at most `fuel` paths are traced, so a picture with more paths than the fuel allows gives None.
- Facade.TracePaths, Facade.GeneratePathList, Facade.LoadImage and Facade.GetPathTag: these inherit the fuel of `Bitmaps.FindPaths` and fail when it runs out.
- Bitmaps.NextDirection: its contract states only that the heading stays an axis unit. The turn rule itself is the contract of `Bitmaps.Turn`, and the policies are `Bitmaps.GoesRight`.
- Histogram.GetDominantColor: its contract states only the failure case and the kind of result. The value is characterised by `Histogram.DominantColorIn` and `Histogram.DominantColorToleranceOne`.
- Histogram.MedianWalk: it states that a median found is an in-range level and that one is found once the half mark can be reached. It does not state which level that is in count order.
- Histogram.SortByCount: the sorted indexes are stated by order, membership, length and distinctness (`Histogram.SortedIndexesArePermutation`), not as a multiset.
- Lon.Wrap: the model's last clean-up loop stops below index 0. The source's loop has no lower bound and would go on to read `lon[-1]`.
- Polygon.Clip1Inverse: the converse half of the inverse property in the source's comment holds only when `clip0` is nondecreasing. `Polygon.Clip1InverseNeedsMonotone` shows an input where it fails. For the same reason, `Polygon.RoundsSolve` and `Polygon.BestPolygon` state optimality under that hypothesis and for non-negative penalties.
- Polygon.ReadOff: a predecessor table that does not lead back to 0 gives None. The source has no such check.
- Facade.NumberOf: a string that looks like a number reads as NaN, where JavaScript would convert it. The options compared as numbers are declared as optional numbers, so a typed caller passes a number or undefined, and undefined does read as NaN.
- Numbers are exact rationals (`real`) where the source uses IEEE doubles: all geometry, the class-variance table of `Thresholding` (a Float64Array), and the posterizer's stops, intensities and opacities. Ties in the `>` comparison of `multilevelThresholding` and half-way cases of `Math.round` and `toFixed(3)` can therefore resolve differently from the doubles.
- Posterize.PathLayers: the tracing of each layer is not modelled. In the source each painted stop also calls `setParameters({ threshold: colorStop.value })` and `getPathTag` (src/Posterizer.ts:369-371). So the threshold is left at the last painted stop's value, and a layer whose path comes out empty is dropped as well (src/Posterizer.ts:378-381). The model's layers carry only their opacity, and its posterizer keeps the threshold it had.
- Lon.CalcLon: its contract states that both tables have one in-range entry per vertex and that every lon entry is a pivot. It does not state their meaning: pivk[i] as the furthest vertex reachable on one straight line (src/types/Path.ts:81-84), and lon[i] as the largest k with i' < k <= pivk[i'] for every i' in [i, k) (src/types/Path.ts:190-193).
- The sqrt-based geometry of a path enters `Facade.CurveOf` as a parameter, so the curve's control points are only as faithful as the functions supplied.

## Findings

| source | as written | input that shows it | evidently intended | confidence | as-written member | corrected member |
|---|---|---|---|---|---|---|
| src/utils.ts:18-19 | with a negative step the counter starts at end - 1, is incremented, and the loop runs while it exceeds start - 1 | `range(0, 3, -1)`: i = 2, 3, 4, ... always passes the test | yield end - 1 down to start, as calcLon uses it | not executed | Utils.NegativeStepNeverStops | Utils.Backward |
| src/types/Point.ts:42 | uy is taken as `p1.x - p0.x` | p0 = (0, 0), p1 = (0, 1), p2 = (0, 0), p3 = (1, 0): the product is 0 | (p1 - p0) x (p3 - p2), as the comment above it says, here -1 | not executed | Geometry.CubicCrossProductDiscrepancy | Geometry.CubicCrossProduct |
| src/types/Histogram.ts:82-87 | an image of at most 256 pixels gets a Uint8Array of counts | 256 pixels of one level: the count 256 wraps to 0 | each count is the number of pixels of that level | not executed | Histogram.CountWrapsInUint8Array | Histogram.CollectValues |
| src/types/Bitmap.ts:83 | the result of `bm.lum.map(...)` is discarded | one pixel of luminance 200 at threshold 128: the "binary" bitmap keeps 200 | the clone holds 0/1 values past the threshold | not executed | Bitmaps.BinaryBitmapDiscardsMap | Bitmaps.BinaryBitmap |
| src/types/Bitmap.ts:95-110 | the generator scans once and yields at most one path | two separated dark pixels: only the first path is produced | trace paths until no pixel equal to 1 remains | not executed | Bitmaps.FindNextAsWritten | Bitmaps.FindPaths |
| src/types/Path.ts:347-349 | `ctr`, `dir` and `quads` are each filled with one shared object, so every segment's pass overwrites the same point and quad, and the form at each vertex is the last segment's form added to itself | any polygon with a corner between non-parallel segments, e.g. directions (1, 0) then (0, 1): the determinant is 0 as written and 1 with a form per segment | a fresh point and quad per segment, as Potrace allocates | not executed | QuadForm.AliasedCornerSingular | QuadForm.CornerDetNonZero |
| src/types/Path.ts:196 | `range(0, segments - 2, -1)`, read as the descending loop it is meant to be, runs segments - 3 down to 0 and never visits segments - 2 (as written, a negative step never stops at all: see the src/utils.ts row) | four vertices whose pivots are all 0: lon[2] is never assigned | every lon[i] is set, as in Potrace's loop from n - 2 down to 0 | not executed | Lon.CleanUpAsWrittenLeavesHole | Lon.CleanUp |
| src/Posterizer.ts:52-64 | `setParameters` and `loadImage` call `super.setParameters` and `super.loadImage`, but PotraceImage holds both as arrow-function instance fields (src/PotraceImage.ts:58, 117), so its prototype has neither and the call throws a TypeError | any call; `getSVG()` and `getSymbol()` reach `this.setParameters({ blackOnWhite })` and throw (`Posterize.PathLayersAsWritten`) | apply the parent's update or load, then forget the memoised threshold | not executed | Posterize.SetParametersAsWritten | Posterize.SetParameters |
| src/Posterizer.ts:36-47 | the Posterizer's field initialisers run after `super(options)` has applied the options, and put threshold, blackOnWhite, background, steps, rangeDistribution and fillStrategy back to their initial values | `new Posterizer({ threshold: 100, steps: [3] })` ends with THRESHOLD_AUTO and [STEPS_AUTO] (`Posterize.ConstructorOptionsLost`) | the given options override the initial values | not executed | Posterize.NewAsWritten | Posterize.New |
| src/PotraceImage.ts:73-84 | a turnPolicy that is one of the policy names is rejected | `{turnPolicy: "black"}` throws, `{turnPolicy: "diagonal"}` passes | reject only values that name no policy, as the message says | not executed | Facade.PolicyCheckInverted | Facade.Validate |
| src/PotraceImage.ts:152-154 | `curve.optimize(...)` is called but Curve defines `optiCurve` | the default options (optCurve true) with any image that has a path: the call throws | run `optiCurve(optTolerance)` | not executed | Facade.DefaultsThrowAsWritten | Facade.FitCurve |
| src/PotraceImage.ts:182-184 | `path.curve.render(scale)` is called but Curve defines `renderCurve` | any loaded image with at least one path: `getPathTag` throws | draw each curve with `renderCurve`, at unit size when no scale is given | not executed | Facade.RenderAsWritten | Facade.RenderAll |
| src/types/Curve.ts:367 | `renderCurve` destructures its argument as {x: width, y: height}, while `getPathTag` passes its scale {width, height} (src/PotraceImage.ts:165, 183) | any given scale, e.g. {width: 2, height: 2}: width and height are undefined and every coordinate is NaN (`Facade.ScaledDrawingIsNaN`) | draw at the scale's width and height | not executed | Facade.ScaleAsWritten | Facade.GetPathTag |
