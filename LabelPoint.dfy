/**
 * find: the bounding box of the outer ring, one seed scan over it, then the
 * refinement loop that re-scans a box shrunk around the latest point while
 * the loop's area measure exceeds the requested precision.
 */
module LabelPoint {
  import opened RealArith
  import opened Geometry
  import opened Options
  import opened GridScan

  /** The box grown, where needed, to take in p. */
  function Extend(b: Box, p: Point): Box
  {
    Box(if b.xMin > p.x then p.x else b.xMin,
        if b.yMin > p.y then p.y else b.yMin,
        if b.xMax < p.x then p.x else b.xMax,
        if b.yMax < p.y then p.y else b.yMax)
  }

  /** The box the bounding-box loop computes: the first vertex, extended by each later one. */
  function Bounds(points: Ring): Box
    requires |points| >= 1
    decreases |points|
  {
    if |points| == 1 then Box(points[0].x, points[0].y, points[0].x, points[0].y)
    else Extend(Bounds(points[..|points| - 1]), points[|points| - 1])
  }

  /**
   * The box is the tight bounding box of the vertices: every vertex lies in
   * it and each of its four bounds is some vertex's coordinate.
   */
  lemma {:induction false} BoundsIsTight(points: Ring)
    requires |points| >= 1
    ensures var b := Bounds(points);
            forall v :: v in points ==> b.xMin <= v.x <= b.xMax && b.yMin <= v.y <= b.yMax
    ensures exists i :: 0 <= i < |points| && points[i].x == Bounds(points).xMin
    ensures exists i :: 0 <= i < |points| && points[i].x == Bounds(points).xMax
    ensures exists i :: 0 <= i < |points| && points[i].y == Bounds(points).yMin
    ensures exists i :: 0 <= i < |points| && points[i].y == Bounds(points).yMax
    decreases |points|
  {
    if |points| > 1 {
      var init := points[..|points| - 1];
      BoundsIsTight(init);
      assert forall i :: 0 <= i < |init| ==> init[i] == points[i];
      assert forall v :: v in points ==> v in init || v == points[|points| - 1];
    }
  }

  /** A bounding box is ordered: its lower bounds do not exceed its upper bounds. */
  lemma BoundsOrdered(points: Ring)
    requires |points| >= 1
    ensures Bounds(points).xMin <= Bounds(points).xMax && Bounds(points).yMin <= Bounds(points).yMax
  {
    BoundsIsTight(points);
    assert points[0] in points;
  }

  /** The bounding-box loop over the outer ring's vertices. */
  method BoundingBox(points: Ring) returns (xMin: real, yMin: real, xMax: real, yMax: real)
    requires |points| >= 1
    ensures Box(xMin, yMin, xMax, yMax) == Bounds(points)
  {
    var p := points[0];
    xMin, xMax := p.x, p.x;
    yMin, yMax := p.y, p.y;
    var i := 1;
    while i < |points|
      invariant 1 <= i <= |points|
      invariant Box(xMin, yMin, xMax, yMax) == Bounds(points[..i])
    {
      p := points[i];
      if xMin > p.x { xMin := p.x; }
      if xMax < p.x { xMax := p.x; }
      if yMin > p.y { yMin := p.y; }
      if yMax < p.y { yMax := p.y; }
      assert points[..i + 1][..i] == points[..i];
      i := i + 1;
    }
    assert points[..i] == points;
  }

  /** The area of a box, the loop's measure `r` before the first zoom. */
  function Area(b: Box): real
  {
    Mul(b.xMax - b.xMin, b.yMax - b.yMin)
  }

  /** A box whose lower bounds do not exceed its upper bounds. */
  predicate Ordered(b: Box)
  {
    b.xMin <= b.xMax && b.yMin <= b.yMax
  }

  /** The state of the refinement after some number of passes. */
  datatype Search = Search(box: Box, lp: Option<Point>, r: real)

  /** The box of half-widths a twenty-fourth of b's width and height, centred on q. */
  function Zoom(b: Box, q: Point): Box
  {
    var dx := Step(b.xMin, b.xMax);
    var dy := Step(b.yMin, b.yMax);
    Box(q.x - dx, q.y - dy, q.x + dx, q.y + dy)
  }

  /**
   * The update of one pass of the refinement loop, given what its scan
   * found: with a point, centre the shrunk box on it and set r to the
   * product of the half-widths; with none, keep the box and r. The loop
   * itself sets r from the old box's half-widths in that case too, but find
   * stops after a pass that found nothing, so the r kept here is never read.
   */
  function Advance(s: Search, found: Option<Point>): (t: Search)
    ensures t.lp == found
  {
    if found.None? then Search(s.box, None, s.r)
    else Search(Zoom(s.box, found.value), found, Mul(Step(s.box.xMin, s.box.xMax), Step(s.box.yMin, s.box.yMax)))
  }

  /**
   * A scan of a region. The refinement is stated for any scan; find uses
   * poleScan over its rings (PoleScanOf), so the facts about the loop do
   * not depend on how a scan is computed.
   */
  type Scanner = Box -> Option<Point>

  /** poleScan over the outer ring and holes, as a function of the region. */
  function PoleScanOf(points: Ring, holes: seq<Ring>): Scanner
  {
    box => ScanResult(box, points, holes)
  }

  /** scan computes what poleScan over these rings returns. */
  ghost predicate ScansAs(scan: Scanner, points: Ring, holes: seq<Ring>)
  {
    forall box {:trigger ScanResult(box, points, holes)} :: scan(box) == ScanResult(box, points, holes)
  }

  /**
   * The result of scan n: the seed scan of the start box for n == 0, and
   * otherwise the scan of pass n of the loop, over the box that pass n - 1
   * left.
   */
  function Scanned(scan: Scanner, start: Box, n: nat): Option<Point>
    decreases n, 0
  {
    scan(if n == 0 then start else After(scan, start, n - 1).box)
  }

  /** The state after the seed scan (n == 0) and after n passes of the loop. */
  function After(scan: Scanner, start: Box, n: nat): Search
    decreases n, 1
  {
    if n == 0 then Search(start, Scanned(scan, start, 0), Area(start))
    else Advance(After(scan, start, n - 1), Scanned(scan, start, n))
  }

  /** find's refinement: poleScan over the rings, starting from the outer ring's bounding box. */
  function Refinement(points: Ring, holes: seq<Ring>, n: nat): Search
    requires |points| >= 1
  {
    After(PoleScanOf(points, holes), Bounds(points), n)
  }

  /** A pass keeps the box ordered. */
  lemma AdvanceOrdered(s: Search, found: Option<Point>)
    requires Ordered(s.box)
    ensures Ordered(Advance(s, found).box)
  {
  }

  /** The zoomed box is a twelfth of the old width and height, centred on q. */
  lemma ZoomedSides(b: Box, q: Point)
    ensures Zoom(b, q).xMax - Zoom(b, q).xMin == (b.xMax - b.xMin) / 12.0
    ensures Zoom(b, q).yMax - Zoom(b, q).yMin == (b.yMax - b.yMin) / 12.0
    ensures Zoom(b, q).xMin + Zoom(b, q).xMax == 2.0 * q.x
    ensures Zoom(b, q).yMin + Zoom(b, q).yMax == 2.0 * q.y
  {
  }

  /**
   * A pass that finds a point divides the box's area by 576 to give the new
   * r, and the new box's area is four times that r.
   */
  lemma AdvanceFound(s: Search, q: Point)
    ensures Advance(s, Some(q)).r == Area(s.box) / 576.0
    ensures Area(Advance(s, Some(q)).box) == 4.0 * Advance(s, Some(q)).r
  {
    var dx, dy := Step(s.box.xMin, s.box.xMax), Step(s.box.yMin, s.box.yMax);
    ProductOfTwentyFourths(s.box.xMax - s.box.xMin, s.box.yMax - s.box.yMin);
    ProductOfDoubles(dx, dy);
  }

  /** Every box of the refinement is ordered when the start box is. */
  lemma {:induction false} AfterOrdered(scan: Scanner, start: Box, n: nat)
    requires Ordered(start)
    ensures Ordered(After(scan, start, n).box)
  {
    if n > 0 {
      AfterOrdered(scan, start, n - 1);
      AdvanceOrdered(After(scan, start, n - 1), Scanned(scan, start, n));
    }
  }

  /** Every box of find's refinement is ordered. */
  lemma RefinementOrdered(points: Ring, holes: seq<Ring>, n: nat)
    requires |points| >= 1
    ensures Ordered(Refinement(points, holes, n).box)
  {
    BoundsOrdered(points);
    AfterOrdered(PoleScanOf(points, holes), Bounds(points), n);
  }

  /**
   * The first pass scans the start box again, so it finds the seed point;
   * and with a point it divides the area measure by 576.
   */
  lemma FirstZoom(scan: Scanner, start: Box)
    ensures After(scan, start, 1).lp == After(scan, start, 0).lp
    ensures After(scan, start, 1).lp.Some? ==> After(scan, start, 1).r == After(scan, start, 0).r / 576.0
  {
    var seed := After(scan, start, 0);
    assert Scanned(scan, start, 1) == Scanned(scan, start, 0);
    if seed.lp.Some? {
      AdvanceFound(seed, seed.lp.value);
    }
  }

  /** After a pass that found a point, the box's area is four times the measure r. */
  lemma ZoomedArea(scan: Scanner, start: Box, n: nat)
    requires n >= 1 && After(scan, start, n).lp.Some?
    ensures Area(After(scan, start, n).box) == 4.0 * After(scan, start, n).r
  {
    AdvanceFound(After(scan, start, n - 1), After(scan, start, n).lp.value);
  }

  /** A pass that finds nothing leaves the state as it is for good. */
  lemma StallIsFixedPoint(scan: Scanner, start: Box, n: nat)
    requires n >= 1 && After(scan, start, n).lp.None?
    ensures After(scan, start, n + 1) == After(scan, start, n)
  {
    assert Scanned(scan, start, n + 1) == Scanned(scan, start, n);
  }

  /** Every later pass that finds a point divides the area measure by 144. */
  lemma LaterZoom(scan: Scanner, start: Box, n: nat)
    requires n >= 1 && After(scan, start, n + 1).lp.Some?
    ensures After(scan, start, n).lp.Some?
    ensures After(scan, start, n + 1).r == After(scan, start, n).r / 144.0
  {
    if After(scan, start, n).lp.None? {
      StallIsFixedPoint(scan, start, n);
    }
    ZoomedArea(scan, start, n);
    AdvanceFound(After(scan, start, n), After(scan, start, n + 1).lp.value);
  }

  /** Any point find's refinement holds (seed included) qualifies and scores above 0. */
  lemma FoundPointQualifies(points: Ring, holes: seq<Ring>, n: nat)
    requires |points| >= 1
    ensures Refinement(points, holes, n).lp.Some? ==>
              Qualifies(Refinement(points, holes, n).lp.value, points, holes)
              && Score(Refinement(points, holes, n).lp.value, points, holes) > 0.0
  {
    var scan, start := PoleScanOf(points, holes), Bounds(points);
    var box := if n == 0 then start else After(scan, start, n - 1).box;
    assert Refinement(points, holes, n).lp == Scanned(scan, start, n) == ScanResult(box, points, holes);
    ScanResultQualifies(box, points, holes);
  }

  /**
   * The box zoomed on q is sampled at q itself: lattice value 12 of
   * [q.x - dx, q.x + dx] is q.x, and likewise for y.
   */
  lemma ZoomContainsCentre(b: Box, q: Point)
    requires b.xMin < b.xMax && b.yMin < b.yMax
    ensures q in Grid(Zoom(b, q))
  {
    var z := Zoom(b, q);
    LatticeAt(z.xMin, z.xMax, 12);
    LatticeAt(z.yMin, z.yMax, 12);
    SamplesContain(Lattice(z.xMin, z.xMax), Lattice(z.yMin, z.yMax), 12, 12);
  }

  /**
   * A scan after a found point finds a point again, scoring at least as
   * much: the first pass re-scans the seed box, and every later box is
   * centred on the latest point, which is one of its samples.
   */
  lemma RefinementScoreNondecreasing(points: Ring, holes: seq<Ring>, n: nat)
    requires |points| >= 1 && Refinement(points, holes, n).lp.Some?
    ensures Refinement(points, holes, n + 1).lp.Some?
    ensures Score(Refinement(points, holes, n + 1).lp.value, points, holes)
         >= Score(Refinement(points, holes, n).lp.value, points, holes)
  {
    var scan, start := PoleScanOf(points, holes), Bounds(points);
    if n == 0 {
      FirstZoom(scan, start);
    } else {
      var prev := After(scan, start, n - 1);
      var q := Refinement(points, holes, n).lp.value;
      assert Scanned(scan, start, n) == ScanResult(prev.box, points, holes) == Some(q);
      ScanFoundMeansWideBox(prev.box, points, holes);
      assert After(scan, start, n).box == Zoom(prev.box, q);
      ZoomContainsCentre(prev.box, q);
      FoundPointQualifies(points, holes, n);
      ScanFindsAtLeast(Zoom(prev.box, q), points, holes, q);
      assert Refinement(points, holes, n + 1).lp == Scanned(scan, start, n + 1)
          == ScanResult(Zoom(prev.box, q), points, holes);
    }
  }

  /**
   * find's refinement holds a point after any number of passes exactly when
   * the seed scan found one: the only pass that finds nothing is the first,
   * after an empty seed.
   */
  lemma {:induction false} RefinementKeepsPoint(points: Ring, holes: seq<Ring>, n: nat)
    requires |points| >= 1
    ensures Refinement(points, holes, n).lp.None? <==> Refinement(points, holes, 0).lp.None?
  {
    if n > 0 {
      RefinementKeepsPoint(points, holes, n - 1);
      if Refinement(points, holes, n - 1).lp.Some? {
        RefinementScoreNondecreasing(points, holes, n - 1);
      } else if n == 1 {
        FirstZoom(PoleScanOf(points, holes), Bounds(points));
      } else {
        StallIsFixedPoint(PoleScanOf(points, holes), Bounds(points), n - 1);
      }
    }
  }

  /** Once a point is found, no later pass of find's refinement scores lower. */
  lemma {:induction false} ScoreNeverDrops(points: Ring, holes: seq<Ring>, m: nat, n: nat)
    requires |points| >= 1 && m <= n && Refinement(points, holes, m).lp.Some?
    ensures Refinement(points, holes, n).lp.Some?
    ensures Score(Refinement(points, holes, n).lp.value, points, holes)
         >= Score(Refinement(points, holes, m).lp.value, points, holes)
    decreases n - m
  {
    if m < n {
      RefinementScoreNondecreasing(points, holes, m);
      ScoreNeverDrops(points, holes, m + 1, n);
    }
  }

  /**
   * The loop measure: how many times r can still be divided by 144 before it
   * is at most precision.
   */
  function Measure(r: real, precision: real): nat
    requires precision > 0.0
    decreases (r / precision).Floor
  {
    if r > precision then
      QuotientAboveOne(r, precision);
      QuotientMonotone(r / 144.0, r / 144.0, precision);
      QuotientCommutes(r, precision);
      FloorShrinks(r / precision, (r / 144.0) / precision);
      1 + Measure(r / 144.0, precision)
    else 0
  }

  /** A smaller r never needs more divisions. */
  lemma {:induction false} MeasureMonotone(r: real, r2: real, precision: real)
    requires precision > 0.0 && r2 <= r
    ensures Measure(r2, precision) <= Measure(r, precision)
    decreases (r / precision).Floor
  {
    if r2 > precision {
      QuotientAboveOne(r, precision);
      QuotientCommutes(r, precision);
      FloorShrinks(r / precision, (r / 144.0) / precision);
      MeasureMonotone(r / 144.0, r2 / 144.0, precision);
    }
  }

  /** Dividing an r above precision by 144 or more lowers the loop measure. */
  lemma MeasureShrinks(r: real, r2: real, precision: real)
    requires precision > 0.0 && r > precision && r2 <= r / 144.0
    ensures Measure(r2, precision) < Measure(r, precision)
  {
    MeasureMonotone(r / 144.0, r2, precision);
  }

  /**
   * Pass m + 1 of the loop is entered: the measure r after scan m is above
   * precision and, after the seed, the latest pass found a point.
   */
  predicate Continues(scan: Scanner, start: Box, precision: real, m: nat)
  {
    After(scan, start, m).r > precision && (m == 0 || After(scan, start, m).lp.Some?)
  }

  /** The loop was entered after each of the first n scans. */
  predicate EnteredBefore(scan: Scanner, start: Box, precision: real, n: nat)
    decreases n
  {
    n == 0 || (EnteredBefore(scan, start, precision, n - 1) && Continues(scan, start, precision, n - 1))
  }

  /** EnteredBefore spelled out: the loop continued after each scan m < n. */
  lemma {:induction false} EnteredBeforeMeans(scan: Scanner, start: Box, precision: real, n: nat)
    ensures EnteredBefore(scan, start, precision, n)
        <==> forall m :: 0 <= m < n ==> Continues(scan, start, precision, m)
  {
    if n > 0 {
      EnteredBeforeMeans(scan, start, precision, n - 1);
    }
  }

  /** The loop continuing at a precision continues at any smaller one. */
  lemma ContinuesAtSmallerPrecision(scan: Scanner, start: Box, p1: real, p2: real, m: nat)
    requires p1 <= p2 && Continues(scan, start, p2, m)
    ensures Continues(scan, start, p1, m)
  {
  }

  /**
   * A tighter positive precision never gives find a lower score. The
   * refinement does not depend on precision; a loop stopping after z1 passes
   * at precision 0 < p1 <= p2 runs at least the z2 passes it runs at p2, and
   * no later pass scores lower. A precision at most 0 is excluded: find then
   * skips the loop and returns the seed point.
   */
  lemma TighterPrecisionScoresNoLess(points: Ring, holes: seq<Ring>, p1: real, p2: real, z1: nat, z2: nat)
    requires |points| >= 1 && 0.0 < p1 <= p2
    requires forall m :: 0 <= m < z1 ==> Continues(PoleScanOf(points, holes), Bounds(points), p1, m)
    requires !Continues(PoleScanOf(points, holes), Bounds(points), p1, z1)
    requires forall m :: 0 <= m < z2 ==> Continues(PoleScanOf(points, holes), Bounds(points), p2, m)
    requires Refinement(points, holes, z2).lp.Some?
    ensures z2 <= z1 && Refinement(points, holes, z1).lp.Some?
    ensures Score(Refinement(points, holes, z1).lp.value, points, holes)
         >= Score(Refinement(points, holes, z2).lp.value, points, holes)
  {
    if z1 < z2 {
      ContinuesAtSmallerPrecision(PoleScanOf(points, holes), Bounds(points), p1, p2, z1);
      assert false;
    }
    ScoreNeverDrops(points, holes, z2, z1);
  }

  /**
   * A pass that is entered and finds a point lowers the loop measure: the
   * first divides r by 576, every later one by 144.
   */
  lemma PassLowersMeasure(scan: Scanner, start: Box, precision: real, n: nat)
    requires precision > 0.0 && Continues(scan, start, precision, n)
    requires After(scan, start, n + 1).lp.Some?
    ensures Measure(After(scan, start, n + 1).r, precision) < Measure(After(scan, start, n).r, precision)
  {
    var s := After(scan, start, n);
    if n >= 1 {
      ZoomedArea(scan, start, n);
    }
    AdvanceFound(s, After(scan, start, n + 1).lp.value);
    MeasureShrinks(s.r, After(scan, start, n + 1).r, precision);
  }

  /**
   * Pass n + 1 of find's refinement loop: poleScan over the box pass n left,
   * then the box shrunk to a twelfth of its width and height (half-widths a
   * twenty-fourth) centred on the point found, with r the product of the
   * half-widths.
   */
  method RefinePass(xMin: real, yMin: real, xMax: real, yMax: real, points: Ring, holes: seq<Ring>,
                    ghost scan: Scanner, ghost start: Box, ghost n: nat)
    returns (lp: Option<Point>, xMin': real, yMin': real, xMax': real, yMax': real, r: real)
    requires ScansAs(scan, points, holes) && After(scan, start, n).box == Box(xMin, yMin, xMax, yMax)
    ensures lp == After(scan, start, n + 1).lp
    ensures lp.Some? ==> Search(Box(xMin', yMin', xMax', yMax'), lp, r) == After(scan, start, n + 1)
  {
    lp := PoleScan(xMin, yMin, xMax, yMax, points, holes);
    assert lp == Scanned(scan, start, n + 1);
    var dx := Step(xMin, xMax);
    var dy := Step(yMin, yMax);
    xMin', yMin', xMax', yMax' := xMin, yMin, xMax, yMax;
    if lp.Some? {
      xMin' := lp.value.x - dx;
      xMax' := lp.value.x + dx;
      yMin' := lp.value.y - dy;
      yMax' := lp.value.y + dy;
    }
    r := Mul(dx, dy);
  }

  /**
   * The refinement loop of find, entered after the seed scan of the start
   * box with r its area. Each pass is entered with r above precision (and,
   * after the first, with a point in hand); the loop stops with r at most
   * precision or after a pass that found nothing. The result is the latest
   * scan's.
   */
  method Refine(xMin: real, yMin: real, xMax: real, yMax: real, points: Ring, holes: seq<Ring>,
                precision: real, seed: Option<Point>, ghost scan: Scanner)
    returns (lp: Option<Point>, ghost zooms: nat)
    requires precision > 0.0 && ScansAs(scan, points, holes)
    requires seed == After(scan, Box(xMin, yMin, xMax, yMax), 0).lp
    ensures lp == After(scan, Box(xMin, yMin, xMax, yMax), zooms).lp
    ensures EnteredBefore(scan, Box(xMin, yMin, xMax, yMax), precision, zooms)
    ensures After(scan, Box(xMin, yMin, xMax, yMax), zooms).r <= precision || (zooms >= 1 && lp.None?)
  {
    ghost var start := Box(xMin, yMin, xMax, yMax);
    var xMin, yMin, xMax, yMax := xMin, yMin, xMax, yMax;
    lp := seed;
    zooms := 0;
    var r := Area(Box(xMin, yMin, xMax, yMax));
    while r > precision
      invariant Search(Box(xMin, yMin, xMax, yMax), lp, r) == After(scan, start, zooms)
      invariant zooms >= 1 ==> lp.Some?
      invariant EnteredBefore(scan, start, precision, zooms)
      decreases Measure(r, precision)
    {
      assert Continues(scan, start, precision, zooms);
      var found, xMin', yMin', xMax', yMax', r' := RefinePass(xMin, yMin, xMax, yMax, points, holes, scan, start, zooms);
      lp := found;
      zooms := zooms + 1;
      if lp.None? {
        break;
      }
      PassLowersMeasure(scan, start, precision, zooms - 1);
      xMin, yMin, xMax, yMax, r := xMin', yMin', xMax', yMax', r';
    }
  }

  /**
   * find. The defaults are no holes and precision 1. With precision at most
   * 0 only the seed scan runs; otherwise the refinement loop makes `zooms`
   * passes, entered after each scan while r exceeds precision and the
   * latest pass found a point. The result is the latest scan's, and any
   * point it holds is inside the outer ring, in no hole, and at a positive
   * distance from the concatenated vertex list.
   */
  method Find(points: Ring, holes: seq<Ring> := [], precision: real := 1.0)
    returns (lp: Option<Point>, ghost zooms: nat)
    requires |points| >= 1
    ensures lp == Refinement(points, holes, zooms).lp
    ensures precision <= 0.0 ==> zooms == 0
    ensures precision > 0.0 ==>
              forall m :: 0 <= m < zooms ==> Continues(PoleScanOf(points, holes), Bounds(points), precision, m)
    ensures precision > 0.0 ==>
              Refinement(points, holes, zooms).r <= precision || (zooms >= 1 && lp.None?)
    ensures precision > 0.0 ==> !Continues(PoleScanOf(points, holes), Bounds(points), precision, zooms)
    ensures lp.Some? ==> Qualifies(lp.value, points, holes) && Score(lp.value, points, holes) > 0.0
    ensures lp.None? <==> ScanResult(Bounds(points), points, holes).None?
    ensures lp.Some? ==>
              Score(lp.value, points, holes) >= Score(ScanResult(Bounds(points), points, holes).value, points, holes)
  {
    ghost var scan := PoleScanOf(points, holes);
    var xMin, yMin, xMax, yMax := BoundingBox(points);
    lp := PoleScan(xMin, yMin, xMax, yMax, points, holes);
    assert lp == Scanned(scan, Bounds(points), 0);
    zooms := 0;
    if precision > 0.0 {
      lp, zooms := Refine(xMin, yMin, xMax, yMax, points, holes, precision, lp, scan);
      EnteredBeforeMeans(scan, Bounds(points), precision, zooms);
    }
    FoundPointQualifies(points, holes, zooms);
    RefinementKeepsPoint(points, holes, zooms);
    assert Refinement(points, holes, 0).lp == ScanResult(Bounds(points), points, holes);
    if lp.Some? {
      ScoreNeverDrops(points, holes, 0, zooms);
    }
  }
}
