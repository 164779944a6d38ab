# LabelPoint in Dafny

A verified model of `LabelPoint`, a small JavaScript library that chooses where to draw a
label inside a polygon that may have holes. It approximates the polygon's "pole of
inaccessibility" with a grid search:

- **find** takes the outer ring, optional holes (default none) and an optional precision
  (default 1). It computes the bounding box of the outer ring and runs one seed scan over it.
  While the area measure `r` exceeds the precision, it re-scans and shrinks the box to a
  twelfth of its width and height (half-widths a twenty-fourth), centred on the latest point.
- **poleScan** samples a 24 x 24 lattice of the box. Among the samples that are inside the
  outer ring, inside no hole, and at a distance above 0 from the perimeter, it returns the
  first (in row-major order) of greatest distance.
- **pointToPerimeterDistance** takes the minimum, over the edges of a ring (closing edge
  included), of **pointToLineDistance**, the distance from a point to a segment.
- **isInside** is the crossing-number point-in-polygon test.

Modules, leaves first: `RealArith` (the few nonlinear real facts the proofs use), `Options`,
`Geometry` (points, segment distance), `Perimeter`, `PointInPolygon`, `GridScan` (lattice,
argmax, poleScan) and `LabelPoint` (bounding box, refinement loop, find). Each loop of the
original is a `method` whose `while` loop is proved against a specification function:
`BoundingBox` against `Bounds`, `PointToPerimeterDistance` against `PerimeterDistance`,
`IsInside` against `Inside`, `PoleScan` against `ScanResult`, and `Refine` against `After`.
The properties the original promises are proved as lemmas about those functions.

Modelling decisions:

- Coordinates are exact `real`s and points are a datatype.
- Distances are **squared**. The original takes `Math.sqrt` only as the last step of
  pointToLineDistance. The square root is monotone and `sqrt(s) > 0` exactly when `s > 0`.
  So the minimum over edges, the strict `>` of the scan and the comparison with the initial
  0 all choose the same way on squares.
- poleScan's "no point" result (`{x: undefined, y: undefined}`) is `None`.
- When a refinement scan finds nothing, find stops and returns `None`. In the original, `dx`,
  `dy` and `r = dx*dy` are computed from the old box, so `r` stays finite, while the new box's
  bounds become NaN. If `dx*dy` is at most the precision the loop ends at once. Otherwise one
  more scan runs over the NaN box, finds nothing, and sets `r` to NaN, which ends the loop.
  Either way the result is the same undefined point.
- The refinement loop is specified over any scan function of the box (`LabelPoint.Scanner`).
  `find` uses it with poleScan over its rings (`PoleScanOf`, `Refinement`).

The model follows the code on these points:

- The initial box is the bounding box of the outer ring only, not of the outer ring together
  with the holes (src/LabelPoint.js:19-29).
- A sample's score is the perimeter distance to ONE ring: the outer vertices followed by every
  hole's vertices, concatenated (src/LabelPoint.js:109). That ring has edges joining the last
  outer vertex to the first hole vertex, hole to hole, and the last hole vertex back to the
  first outer vertex. It is not the union of the separate rings' edges.
- Over exact reals, a scan that follows a found point always finds a point again, scoring at least as much: the
  zoomed box is centred on that point, which is lattice sample 12 in both directions. So the
  only refinement scan that can find nothing is the first pass after an empty seed scan, and
  find returns "no point" exactly when the seed scan finds none (`LabelPoint.RefinementKeepsPoint`).

## Model

| member | source | states |
|---|---|---|
| `LabelPoint.BoundingBox` | src/LabelPoint.js:19-29 | the min/max loop over the outer vertices computes `Bounds(points)` |
| `LabelPoint.BoundsIsTight` | src/LabelPoint.js:19-29 | every outer vertex lies in the box, and each of the four bounds equals some vertex's coordinate |
| `LabelPoint.BoundsOrdered` | src/LabelPoint.js:19-29 | the initial box has `xMin <= xMax` and `yMin <= yMax` |
| `LabelPoint.Find` | src/LabelPoint.js:13-46 | defaults no holes and precision 1; precision at most 0 gives the seed scan only; otherwise each pass is entered with `r` above precision (after the first pass, also with a point in hand); the loop ends with `r` at most precision or after a pass that found nothing; the result is the latest scan's; a returned point is inside the outer ring, in no hole, at positive distance, and scores at least as much as the seed point; no point is returned exactly when the seed scan finds none |
| `LabelPoint.Refine` | src/LabelPoint.js:31-45 | the refinement loop ends in the state `After(scan, start, zooms)`, having been entered after each earlier scan, with `r <= precision` or a failed pass; it terminates on the measure `Measure(r, precision)` |
| `LabelPoint.RefinePass` | src/LabelPoint.js:35-42 | one pass scans the current box and, with a point, yields the next refinement state: box centred on the point with half-widths a twenty-fourth, and `r = dx*dy` |
| `LabelPoint.ZoomedSides` | src/LabelPoint.js:36-41 | the next box is a twelfth of the old width and height (half-widths a twenty-fourth), centred on the point found |
| `LabelPoint.AdvanceFound` | src/LabelPoint.js:36-42 | a pass that finds a point sets `r` to the box's area divided by 576, and the new box's area is `4 r` |
| `LabelPoint.AfterOrdered` | src/LabelPoint.js:36-41 | every box of the refinement keeps `xMin <= xMax` and `yMin <= yMax` when the start box does |
| `LabelPoint.RefinementOrdered` | src/LabelPoint.js:19-41 | every box of find's refinement is ordered |
| `LabelPoint.FirstZoom` | src/LabelPoint.js:30-42 | the first pass re-scans the seed box, so it finds the seed point, and it divides `r` by 576 |
| `LabelPoint.LaterZoom` | src/LabelPoint.js:34-43 | a later pass that finds a point follows one that did, and divides `r` by 144 |
| `LabelPoint.StallIsFixedPoint` | src/LabelPoint.js:34-43 | after a pass that finds nothing, the refinement state no longer changes |
| `LabelPoint.PassLowersMeasure` | src/LabelPoint.js:34-43 | an entered pass that finds a point strictly lowers the termination measure |
| `LabelPoint.MeasureShrinks` | src/LabelPoint.js:34-42 | dividing an `r` above precision by at least 144 lowers the count of 144-fold divisions left |
| `LabelPoint.MeasureMonotone` | src/LabelPoint.js:34 | a smaller `r` never needs more divisions before it is at most precision |
| `LabelPoint.EnteredBeforeMeans` | src/LabelPoint.js:34 | the recursive "loop entered after each scan" predicate means: for every scan `m < n`, `r` was above precision and, after the seed, the latest pass found a point |
| `LabelPoint.FoundPointQualifies` | src/LabelPoint.js:30-45 | any point the refinement holds, seed included, is inside the outer ring, in no hole, and scores above 0 |
| `LabelPoint.ZoomContainsCentre` | src/LabelPoint.js:36-41 | the box zoomed on a point, from a box of positive width and height, has that point among its lattice samples |
| `LabelPoint.RefinementScoreNondecreasing` | src/LabelPoint.js:35-42 | a pass after a found point finds a point again, scoring at least as much |
| `LabelPoint.RefinementKeepsPoint` | src/LabelPoint.js:30-45 | the refinement holds a point after any number of passes exactly when the seed scan found one |
| `LabelPoint.ScoreNeverDrops` | src/LabelPoint.js:34-43 | once a point is found, no later pass scores lower |
| `LabelPoint.TighterPrecisionScoresNoLess` | src/LabelPoint.js:31-45 | a smaller positive precision runs at least as many passes and returns a point scoring no less |
| `Geometry.PointToLineDistance` | src/LabelPoint.js:47-74 | the result is non-negative; it is the squared distance to the segment point at the projection parameter clamped to [0,1]; for a zero-length segment, where nothing is divided, it is the squared distance to `(x1, y1)` |
| `Geometry.SegmentDistanceIsMinimal` | src/LabelPoint.js:53-73 | the segment distance is at most the squared distance to every point of the segment: clamping picks the nearest point |
| `Geometry.DegenerateSegmentDistance` | src/LabelPoint.js:53-62 | on a zero-length segment the result is the point-to-point distance |
| `Geometry.DistinctEndsPositiveLength` | src/LabelPoint.js:53-56 | a segment with distinct ends has positive `len_sq`, so its projection parameter is a real quotient |
| `Perimeter.PointToPerimeterDistance` | src/LabelPoint.js:75-96 | the accumulator loop computes `PerimeterDistance`; an empty ring gives no distance |
| `Perimeter.RunningMinIsMinimum` | src/LabelPoint.js:86-93 | the first value sets the accumulator and only strictly smaller values replace it, so it is at most every value and equals one of them |
| `Perimeter.PerimeterDistanceIsMinimum` | src/LabelPoint.js:77-95 | the perimeter distance is at most the distance to every edge `(p[i], p[(i+1) mod n])`, the closing edge included, and equals one of them |
| `Perimeter.SingleVertexPerimeter` | src/LabelPoint.js:77-95 | for a one-vertex ring it is the distance to that vertex |
| `Perimeter.PerimeterDistanceNonNegative` | src/LabelPoint.js:75-96 | the perimeter distance is never negative |
| `Perimeter.PerimeterDistanceBelowEdgePoints` | src/LabelPoint.js:77-95 | no point of any edge, and so no vertex, is nearer than the perimeter distance |
| `PointInPolygon.IsInside` | src/LabelPoint.js:97-106 | the toggle loop returns the parity of the number of edges `(p[j], p[i])`, `j` trailing `i` and wrapping to the last vertex, that pass the half-open test and then the abscissa test |
| `PointInPolygon.StraddleMeansDistinctOrdinates` | src/LabelPoint.js:101-102 | the half-open test forces `pj.y != pi.y`, so the division is never by zero |
| `PointInPolygon.TinyRingIsOutside` | src/LabelPoint.js:98-105 | an empty, one-vertex or two-vertex ring contains no point |
| `PointInPolygon.StraddleIsExclusiveOr` | src/LabelPoint.js:101 | an edge straddles the point's ordinate exactly when one end is at or below it and the other is not |
| `PointInPolygon.StraddleCountParity` | src/LabelPoint.js:98-103 | the half-open test is an exclusive or of the two ends' sides, so when every straddling edge is crossed the crossing parity telescopes to the sides of the last vertex and vertex k - 1 |
| `PointInPolygon.LeftOfExtentIsOutside` | src/LabelPoint.js:98-105 | a point strictly left of every vertex crosses every straddling edge, an even number on a closed ring, and is outside |
| `PointInPolygon.BeyondExtentIsOutside` | src/LabelPoint.js:98-105 | a point at or right of, at or above, or below every vertex crosses no edge and is outside |
| `GridScan.LatticeShape` | src/LabelPoint.js:110-111 | with `lo < hi` the loop visits exactly `lo + k (hi - lo)/24` for k = 0..23, increasing and inside `[lo, hi)`; otherwise none |
| `GridScan.LatticeNext` | src/LabelPoint.js:110-111 | adding the step to lattice value k gives value k + 1 while one is left, and fails the loop test after the 24th |
| `GridScan.SamplesLength` | src/LabelPoint.js:110-111 | the nested loops visit one row per lattice y and one sample per lattice x in each row |
| `GridScan.SamplesFromLattices` | src/LabelPoint.js:110-111 | every sample pairs a lattice x with a lattice y |
| `GridScan.FlattenKeepsHoleVertices` | src/LabelPoint.js:109 | every hole vertex is in the concatenated vertex list |
| `GridScan.FlattenOnlyHoleVertices` | src/LabelPoint.js:109 | the holes' part of the concatenated list holds only hole vertices |
| `GridScan.InAnyHole` | src/LabelPoint.js:113-117 | the early-exit hole loop returns whether the point is inside some hole |
| `GridScan.VisitSample` | src/LabelPoint.js:112-125 | the inner loop body takes the scan state over the samples seen to the state with one more sample |
| `GridScan.ScanRow` | src/LabelPoint.js:111-127 | the inner loop takes the scan state over one more row of lattice samples |
| `GridScan.PoleScan` | src/LabelPoint.js:107-133 | the nested loops return `ScanResult` of the region |
| `GridScan.BestIndexIsFirstArgmax` | src/LabelPoint.js:121-125 | the kept index is none exactly when no qualifying candidate scores above 0, and otherwise the first qualifying candidate of greatest score |
| `GridScan.ScanKeepsBestIndex` | src/LabelPoint.js:121-125 | the running `maxDistance`, `px`, `py` are the score and sample of the kept index |
| `GridScan.ScanResultIsBestSample` | src/LabelPoint.js:108-128 | a returned point is a lattice sample inside the outer ring, in no hole, scoring above 0, at least as far as every qualifying sample and strictly farther than every earlier qualifying sample (row-major order) |
| `GridScan.ScanResultQualifies` | src/LabelPoint.js:112-125 | a returned point is inside the outer ring, in no hole, and scores above 0 |
| `GridScan.ScanFindsNothing` | src/LabelPoint.js:108-132 | poleScan returns no point exactly when no qualifying sample scores above 0 |
| `GridScan.EmptyRegionFindsNothing` | src/LabelPoint.js:110-111 | a region with `xMax <= xMin` or `yMax <= yMin` has no samples and gives no point |
| `GridScan.RegionBeyondOuterFindsNothing` | src/LabelPoint.js:110-132 | a region wholly right of, left of, above, or below the outer ring's vertices gives no point |
| `GridScan.SamplesContain` | src/LabelPoint.js:110-111 | every pair of a lattice x and a lattice y is visited |
| `GridScan.ScanFoundMeansWideBox` | src/LabelPoint.js:110-111 | a region in which a point is found has positive width and height |
| `GridScan.ScanFindsAtLeast` | src/LabelPoint.js:112-125 | a qualifying sample scoring above 0 makes the scan find a point scoring at least as much |

## Left out

- The `window` global and the immediately-invoked wrapper that exports the object (src/LabelPoint.js:11, 135) are host plumbing.
- IEEE floating-point rounding. Coordinates are exact reals. With floats, the accumulating `x += step` can overshoot or undershoot and give a 25th sample; the real-number model always gives 24. For the same reason, the twelfth lattice step of a zoomed box need not land exactly on the point it is centred on, so with floats a refinement pass could in principle miss that point; the lemmas that a found point is never lost (`LabelPoint.RefinementKeepsPoint`, `LabelPoint.ScoreNeverDrops`) hold over exact reals.
- `Math.sqrt`: every distance is squared, which leaves every comparison the original makes unchanged.
- JavaScript `undefined` and NaN propagation. A scan that finds nothing returns `None`, and find then stops. The original keeps a finite `r` from the old box; when that `r` is still above the precision it runs one more scan over a NaN box, which finds nothing and makes `r` NaN. The model does not count that scan, and the returned result is the same. This can happen only after an empty seed scan.
- Empty `points`: the original reads `points[0]` unguarded, so `Find` requires at least one vertex. pointToPerimeterDistance on an empty ring returns `None` (undefined in the original), and isInside on an empty ring returns false.
- Any claim that the result is near the true pole of inaccessibility (for example the centre of a square). The code does not promise this, and settling it for a concrete polygon would mean evaluating hundreds of lattice samples inside the verifier. That a smaller positive precision never lowers the score is proved (`LabelPoint.TighterPrecisionScoresNoLess`); that it strictly improves is not promised. A precision at most 0 is not "tighter" in this sense: find then skips the refinement loop (src/LabelPoint.js:31) and returns the seed point, which can score less than the result at a positive precision.
- An iteration cap on the refinement loop. The original has none; over reals the loop terminates whenever precision is positive, which `Refine` proves.
