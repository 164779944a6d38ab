/**
 * poleScan: the 24 x 24 lattice search for the qualifying sample farthest
 * from the perimeter.
 *
 * A sample qualifies when it is inside the outer ring and inside no hole. Its
 * score is the perimeter distance measured against ONE ring: the outer
 * vertices followed by every hole's vertices, concatenated in order. Visiting
 * the samples in row-major order (rows of equal y from the bottom, x
 * increasing within a row), the scan replaces its kept sample whenever one
 * scores strictly more than the best so far, starting from 0. It therefore
 * returns the first sample of greatest score among the qualifying samples
 * that score above 0.
 */
module GridScan {
  import opened RealArith
  import opened Geometry
  import opened Options
  import opened PointInPolygon
  import opened Perimeter

  /** The number of lattice steps along each axis. */
  const Resolution: nat := 24

  /** The search region, in the argument order of the original. */
  datatype Box = Box(xMin: real, yMin: real, xMax: real, yMax: real)

  /** The lattice spacing along an axis from lo to hi. */
  function Step(lo: real, hi: real): real
  {
    (hi - lo) / Resolution as real
  }

  /** v advanced by k steps, one addition at a time. */
  function Stepped(v: real, step: real, k: nat): real
    decreases k
  {
    if k == 0 then v else Stepped(v, step, k - 1) + step
  }

  /**
   * The values a loop `for (v = lo; v < hi; v += (hi - lo) / 24)` visits
   * over exact reals: 24 values from lo when lo < hi, each one step above
   * the one before, and none otherwise.
   */
  function Lattice(lo: real, hi: real): (vs: seq<real>)
    ensures |vs| == if lo < hi then Resolution else 0
  {
    if lo < hi then seq(Resolution, k requires 0 <= k < Resolution => Stepped(lo, Step(lo, hi), k)) else []
  }

  /** k steps of size step add up to k step. */
  lemma {:induction false} SteppedIsMultiple(v: real, step: real, k: nat)
    ensures Stepped(v, step, k) == v + Mul(k as real, step)
    decreases k
  {
    if k == 0 {
      ProductWithZero(step, 0.0);
      MulCommutative(0.0, step);
    } else {
      SteppedIsMultiple(v, step, k - 1);
      MulSucc((k - 1) as real, step);
      assert (k - 1) as real + 1.0 == k as real;
    }
  }

  /** With a positive step, more steps never lead lower. */
  lemma {:induction false} SteppedIncreasing(v: real, step: real, i: nat, j: nat)
    requires step > 0.0 && i <= j
    ensures Stepped(v, step, i) <= Stepped(v, step, j)
    decreases j - i
  {
    if i < j {
      SteppedIncreasing(v, step, i, j - 1);
    }
  }

  /** The loop starts at lo, and enters exactly when the lattice is not empty. */
  lemma LatticeStart(lo: real, hi: real)
    ensures (lo < hi) == (0 < |Lattice(lo, hi)|)
    ensures 0 < |Lattice(lo, hi)| ==> Lattice(lo, hi)[0] == lo
  {
  }

  /** The last lattice value is exactly one step below hi. */
  lemma LatticeLast(lo: real, hi: real)
    requires lo < hi
    ensures Lattice(lo, hi)[Resolution - 1] + Step(lo, hi) == hi
  {
    SteppedIsMultiple(lo, Step(lo, hi), Resolution - 1);
  }

  /** The last lattice value is one step below hi; every earlier one, two or more. */
  lemma LatticeBelowTop(lo: real, hi: real, k: nat)
    requires k < |Lattice(lo, hi)|
    ensures Lattice(lo, hi)[k] + Step(lo, hi) <= hi
    ensures Lattice(lo, hi)[k] + Step(lo, hi) < hi <==> k + 1 < |Lattice(lo, hi)|
  {
    var vs, step, last := Lattice(lo, hi), Step(lo, hi), Resolution - 1;
    assert lo < hi && step > 0.0 && |vs| == Resolution;
    LatticeLast(lo, hi);
    if k < last {
      SteppedIncreasing(lo, step, k + 1, last);
      assert vs[k] + step < hi;
    } else {
      assert k == last;
    }
  }

  /**
   * Stepping the loop variable: from lattice value k, adding the step
   * gives value k + 1 while there is one, and leaves the loop otherwise.
   */
  lemma LatticeNext(lo: real, hi: real, k: nat)
    requires k < |Lattice(lo, hi)|
    ensures (Lattice(lo, hi)[k] + Step(lo, hi) < hi) == (k + 1 < |Lattice(lo, hi)|)
    ensures k + 1 < |Lattice(lo, hi)| ==> Lattice(lo, hi)[k + 1] == Lattice(lo, hi)[k] + Step(lo, hi)
  {
    LatticeBelowTop(lo, hi, k);
  }

  /** Lattice value k is lo + k (hi - lo) / 24, in [lo, hi), below value k + 1. */
  lemma LatticeAt(lo: real, hi: real, k: nat)
    requires k < |Lattice(lo, hi)|
    ensures Lattice(lo, hi)[k] == lo + Mul(k as real, Step(lo, hi))
    ensures lo <= Lattice(lo, hi)[k] < hi
    ensures k + 1 < |Lattice(lo, hi)| ==> Lattice(lo, hi)[k] < Lattice(lo, hi)[k + 1]
  {
    var step := Step(lo, hi);
    SteppedIsMultiple(lo, step, k);
    assert step > 0.0;
    ProductNonNegative(k as real, step);
    LatticeBelowTop(lo, hi, k);
  }

  /**
   * The loop visits exactly lo + k (hi - lo) / 24 for k = 0 .. 23 when
   * lo < hi (all in [lo, hi), strictly increasing), and nothing otherwise.
   */
  lemma LatticeShape(lo: real, hi: real)
    ensures |Lattice(lo, hi)| == if lo < hi then Resolution else 0
    ensures forall k :: 0 <= k < |Lattice(lo, hi)| ==>
              Lattice(lo, hi)[k] == lo + Mul(k as real, Step(lo, hi))
    ensures forall k :: 0 <= k < |Lattice(lo, hi)| ==> lo <= Lattice(lo, hi)[k] < hi
    ensures forall k :: 0 <= k < |Lattice(lo, hi)| - 1 ==> Lattice(lo, hi)[k] < Lattice(lo, hi)[k + 1]
  {
    forall k | 0 <= k < |Lattice(lo, hi)| {
      LatticeAt(lo, hi, k);
    }
  }

  /** One row of samples: every lattice x at ordinate y, left to right. */
  function Row(xs: seq<real>, y: real): (row: seq<Point>)
    ensures |row| == |xs|
  {
    seq(|xs|, c requires 0 <= c < |xs| => Point(xs[c], y))
  }

  /** The samples in the order the nested loops visit them: y outer, x inner. */
  function Samples(xs: seq<real>, ys: seq<real>): seq<Point>
    decreases |ys|
  {
    if |ys| == 0 then []
    else Samples(xs, ys[..|ys| - 1]) + Row(xs, ys[|ys| - 1])
  }

  /** The samples of a region. */
  function Grid(box: Box): seq<Point>
  {
    Samples(Lattice(box.xMin, box.xMax), Lattice(box.yMin, box.yMax))
  }

  /** The samples of the first r + 1 rows are those of the first r, then row r. */
  lemma SamplesNextRow(xs: seq<real>, ys: seq<real>, r: nat)
    requires r < |ys|
    ensures Samples(xs, ys[..r + 1]) == Samples(xs, ys[..r]) + Row(xs, ys[r])
  {
    assert ys[..r + 1][..r] == ys[..r];
  }

  lemma RowPrefixStart(done: seq<Point>, xs: seq<real>, y: real)
    ensures done + Row(xs, y)[..0] == done
  {
  }

  /** The samples visited so far gain one point of the row at a time. */
  lemma RowPrefixNext(done: seq<Point>, xs: seq<real>, y: real, col: nat)
    requires col < |xs|
    ensures done + Row(xs, y)[..col + 1] == (done + Row(xs, y)[..col]) + [Point(xs[col], y)]
  {
  }

  lemma RowPrefixEnd(done: seq<Point>, xs: seq<real>, y: real)
    ensures done + Row(xs, y)[..|xs|] == done + Row(xs, y)
  {
  }

  /** Every sample pairs a lattice x with a lattice y. */
  lemma {:induction false} SamplesFromLattices(xs: seq<real>, ys: seq<real>)
    ensures forall i :: 0 <= i < |Samples(xs, ys)| ==>
              Samples(xs, ys)[i].x in xs && Samples(xs, ys)[i].y in ys
  {
    if |ys| > 0 {
      SamplesFromLattices(xs, ys[..|ys| - 1]);
      var init, last := Samples(xs, ys[..|ys| - 1]), Row(xs, ys[|ys| - 1]);
      forall i | 0 <= i < |Samples(xs, ys)|
        ensures Samples(xs, ys)[i].x in xs && Samples(xs, ys)[i].y in ys
      {
        if i < |init| {
          assert Samples(xs, ys)[i] == init[i];
          assert init[i].y in ys[..|ys| - 1];
        } else {
          assert Samples(xs, ys)[i] == last[i - |init|];
        }
      }
    }
  }

  /** All hole vertices, hole after hole. */
  function Flatten(holes: seq<Ring>): Ring
    decreases |holes|
  {
    if |holes| == 0 then [] else Flatten(holes[..|holes| - 1]) + holes[|holes| - 1]
  }

  /** Every vertex of every hole is in the flattened vertex list. */
  lemma {:induction false} FlattenKeepsHoleVertices(holes: seq<Ring>, h: nat, v: Point)
    requires h < |holes| && v in holes[h]
    ensures v in Flatten(holes)
    decreases |holes|
  {
    if h < |holes| - 1 {
      FlattenKeepsHoleVertices(holes[..|holes| - 1], h, v);
    }
  }

  /** Every vertex of the flattened list is a vertex of some hole. */
  lemma {:induction false} FlattenOnlyHoleVertices(holes: seq<Ring>, v: Point)
    requires v in Flatten(holes)
    ensures exists h :: 0 <= h < |holes| && v in holes[h]
    decreases |holes|
  {
    var init := holes[..|holes| - 1];
    if v in Flatten(init) {
      FlattenOnlyHoleVertices(init, v);
      var h :| 0 <= h < |init| && v in init[h];
      assert holes[h] == init[h];
    } else {
      assert v in holes[|holes| - 1];
    }
  }

  /** The vertex list scores are measured against: outer ring, then the holes. */
  function AllPoints(outer: Ring, holes: seq<Ring>): Ring
  {
    outer + Flatten(holes)
  }

  /** p lies in some hole. */
  predicate InSomeHole(p: Point, holes: seq<Ring>)
  {
    exists h :: 0 <= h < |holes| && Inside(p, holes[h])
  }

  /** A sample qualifies when it is inside the outer ring and in no hole. */
  predicate Qualifies(p: Point, outer: Ring, holes: seq<Ring>)
  {
    Inside(p, outer) && !InSomeHole(p, holes)
  }

  /**
   * The score of a sample: the perimeter distance to the concatenated
   * vertex list. An empty list has no distance, which never beats the
   * running best (at least 0); it scores 0, which has the same effect.
   */
  function Score(p: Point, outer: Ring, holes: seq<Ring>): real
  {
    var all := AllPoints(outer, holes);
    if |all| == 0 then 0.0 else PerimeterDistance(p, all)
  }

  /** What the scan needs to know of a sample: whether it qualifies, and its score. */
  datatype Candidate = Candidate(ok: bool, score: real)

  /** The candidate record of each sample. */
  function Rate(s: seq<Point>, outer: Ring, holes: seq<Ring>): (cs: seq<Candidate>)
    ensures |cs| == |s|
  {
    seq(|s|, i requires 0 <= i < |s| => Candidate(Qualifies(s[i], outer, holes), Score(s[i], outer, holes)))
  }

  /** The score of the kept candidate, or the initial 0 when none is kept. */
  function BestScore(cs: seq<Candidate>, b: Option<nat>): real
    requires b.Some? ==> b.value < |cs|
  {
    if b.None? then 0.0 else cs[b.value].score
  }

  /**
   * The index of the candidate the scan keeps after visiting cs: the last
   * one replaces the kept one when it qualifies and its score is strictly
   * greater than the kept score.
   */
  function BestIndex(cs: seq<Candidate>): (b: Option<nat>)
    ensures b.Some? ==> b.value < |cs| && cs[b.value].ok && cs[b.value].score > 0.0
    decreases |cs|
  {
    if |cs| == 0 then None
    else
      var init := cs[..|cs| - 1];
      var prev := BestIndex(init);
      var c := cs[|cs| - 1];
      if c.ok && c.score > BestScore(init, prev) then Some(|cs| - 1) else prev
  }

  /** The scan's running state: the best score so far and the kept point. */
  datatype Best = Best(maxDistance: real, lp: Option<Point>)

  /**
   * The state of the scan after visiting the samples s, rated cs: it starts
   * at score 0 with no point, and a sample replaces the kept one when it
   * qualifies and its score is strictly greater than the best so far.
   */
  function ScanOver(s: seq<Point>, cs: seq<Candidate>): (b: Best)
    requires |s| == |cs|
    ensures b.maxDistance >= 0.0
    decreases |s|
  {
    if |s| == 0 then Best(0.0, None)
    else
      var prev := ScanOver(s[..|s| - 1], cs[..|s| - 1]);
      var c := cs[|s| - 1];
      if c.ok && c.score > prev.maxDistance then Best(c.score, Some(s[|s| - 1])) else prev
  }

  /** The state of the scan after visiting the samples s. */
  function Scan(s: seq<Point>, outer: Ring, holes: seq<Ring>): Best
  {
    ScanOver(s, Rate(s, outer, holes))
  }

  /** The result of poleScan over a region. */
  function ScanResult(box: Box, outer: Ring, holes: seq<Ring>): Option<Point>
  {
    Scan(Grid(box), outer, holes).lp
  }

  /** Visiting one more sample takes one scan state to the next. */
  lemma ScanExtend(s: seq<Point>, q: Point, outer: Ring, holes: seq<Ring>)
    ensures Scan(s + [q], outer, holes)
         == if Qualifies(q, outer, holes) && Score(q, outer, holes) > Scan(s, outer, holes).maxDistance
            then Best(Score(q, outer, holes), Some(q))
            else Scan(s, outer, holes)
  {
    var c := Candidate(Qualifies(q, outer, holes), Score(q, outer, holes));
    RateExtend(s, q, outer, holes);
    assert (s + [q])[..|s|] == s;
    assert (Rate(s, outer, holes) + [c])[..|s|] == Rate(s, outer, holes);
  }

  /** Visiting one more candidate updates the kept index as the scan body does. */
  lemma BestIndexExtend(cs: seq<Candidate>, c: Candidate)
    ensures var prev := BestIndex(cs);
            BestScore(cs + [c], prev) == BestScore(cs, prev)
            && BestIndex(cs + [c]) == if c.ok && c.score > BestScore(cs, prev) then Some(|cs|) else prev
  {
    assert (cs + [c])[..|cs|] == cs;
  }

  /** Rating one more sample appends its candidate record. */
  lemma RateExtend(s: seq<Point>, q: Point, outer: Ring, holes: seq<Ring>)
    ensures Rate(s + [q], outer, holes)
         == Rate(s, outer, holes) + [Candidate(Qualifies(q, outer, holes), Score(q, outer, holes))]
  {
  }

  /**
   * Candidate b is the first argmax of the qualifying candidates and scores
   * above 0: it qualifies, scores at least as much as every qualifying
   * candidate and strictly more than every earlier one.
   */
  predicate FirstArgmax(cs: seq<Candidate>, b: nat)
  {
    && b < |cs| && cs[b].ok && cs[b].score > 0.0
    && (forall i :: 0 <= i < |cs| && cs[i].ok ==> cs[i].score <= cs[b].score)
    && (forall i :: 0 <= i < b && cs[i].ok ==> cs[i].score < cs[b].score)
  }

  /**
   * The kept index is an argmax with the earliest-wins tie-break: nothing is
   * kept exactly when no qualifying candidate scores above 0, and otherwise
   * the kept index is the first argmax.
   */
  lemma {:induction false} BestIndexIsFirstArgmax(cs: seq<Candidate>)
    ensures BestIndex(cs).None? <==> forall i :: 0 <= i < |cs| && cs[i].ok ==> cs[i].score <= 0.0
    ensures BestIndex(cs).Some? ==> FirstArgmax(cs, BestIndex(cs).value)
    decreases |cs|
  {
    if |cs| > 0 {
      var init := cs[..|cs| - 1];
      BestIndexIsFirstArgmax(init);
      assert forall i :: 0 <= i < |init| ==> init[i] == cs[i];
    }
  }

  /**
   * The scan keeps exactly the first argmax: its state is the score and the
   * sample of the kept index.
   */
  lemma {:induction false} ScanKeepsBestIndex(s: seq<Point>, cs: seq<Candidate>)
    requires |s| == |cs|
    ensures var b := BestIndex(cs);
            ScanOver(s, cs) == Best(BestScore(cs, b), if b.None? then None else Some(s[b.value]))
    decreases |s|
  {
    if |s| > 0 {
      var init, c := cs[..|cs| - 1], cs[|cs| - 1];
      ScanKeepsBestIndex(s[..|s| - 1], init);
      BestIndexExtend(init, c);
      assert cs == init + [c];
    }
  }

  /**
   * The scan over rated samples keeps nothing exactly when no qualifying
   * candidate scores above 0, and otherwise the sample of the first argmax.
   */
  lemma ScanOverKeepsFirstArgmax(s: seq<Point>, cs: seq<Candidate>)
    requires |s| == |cs|
    ensures ScanOver(s, cs).lp.None? <==> forall i :: 0 <= i < |cs| && cs[i].ok ==> cs[i].score <= 0.0
    ensures ScanOver(s, cs).lp.Some? ==>
              exists b :: 0 <= b < |s| && s[b] == ScanOver(s, cs).lp.value && FirstArgmax(cs, b)
  {
    BestIndexIsFirstArgmax(cs);
    ScanKeepsBestIndex(s, cs);
  }

  /** The candidate record of sample i: whether it qualifies, and its score. */
  lemma RateAt(s: seq<Point>, outer: Ring, holes: seq<Ring>, i: nat)
    requires i < |s|
    ensures Rate(s, outer, holes)[i].ok == Qualifies(s[i], outer, holes)
    ensures Rate(s, outer, holes)[i].score == Score(s[i], outer, holes)
  {
  }

  /**
   * Sample b is the one poleScan is meant to return: it qualifies, scores
   * above 0, scores at least as much as every qualifying sample and strictly
   * more than every qualifying sample before it.
   */
  predicate FirstBest(s: seq<Point>, outer: Ring, holes: seq<Ring>, b: nat)
  {
    && b < |s| && Qualifies(s[b], outer, holes) && Score(s[b], outer, holes) > 0.0
    && (forall i :: 0 <= i < |s| && Qualifies(s[i], outer, holes) ==>
          Score(s[i], outer, holes) <= Score(s[b], outer, holes))
    && (forall i :: 0 <= i < b && Qualifies(s[i], outer, holes) ==>
          Score(s[i], outer, holes) < Score(s[b], outer, holes))
  }

  /**
   * A point poleScan returns is the sample of the region that is the first
   * qualifying argmax of the score, in row-major order.
   */
  lemma ScanResultIsBestSample(box: Box, outer: Ring, holes: seq<Ring>)
    ensures ScanResult(box, outer, holes).Some? ==>
              exists b :: 0 <= b < |Grid(box)| && Grid(box)[b] == ScanResult(box, outer, holes).value
                          && FirstBest(Grid(box), outer, holes, b)
  {
    var s, cs := Grid(box), Rate(Grid(box), outer, holes);
    ScanOverKeepsFirstArgmax(s, cs);
    if ScanOver(s, cs).lp.Some? {
      var b :| 0 <= b < |s| && s[b] == ScanOver(s, cs).lp.value && FirstArgmax(cs, b);
      forall i | 0 <= i < |s| {
        RateAt(s, outer, holes, i);
      }
      assert FirstBest(s, outer, holes, b);
    }
  }

  /** A returned point qualifies (inside the outer ring, in no hole) and scores above 0. */
  lemma ScanResultQualifies(box: Box, outer: Ring, holes: seq<Ring>)
    ensures ScanResult(box, outer, holes).Some? ==>
              Qualifies(ScanResult(box, outer, holes).value, outer, holes)
              && Score(ScanResult(box, outer, holes).value, outer, holes) > 0.0
  {
    var s, cs := Grid(box), Rate(Grid(box), outer, holes);
    ScanOverKeepsFirstArgmax(s, cs);
    if ScanOver(s, cs).lp.Some? {
      var b :| 0 <= b < |s| && s[b] == ScanOver(s, cs).lp.value && FirstArgmax(cs, b);
      RateAt(s, outer, holes, b);
    }
  }

  /** poleScan finds nothing exactly when no qualifying sample scores above 0. */
  lemma ScanFindsNothing(box: Box, outer: Ring, holes: seq<Ring>)
    ensures ScanResult(box, outer, holes).None? <==>
            forall i :: 0 <= i < |Grid(box)| && Qualifies(Grid(box)[i], outer, holes) ==>
              Score(Grid(box)[i], outer, holes) <= 0.0
  {
    var s := Grid(box);
    var cs := Rate(s, outer, holes);
    ScanOverKeepsFirstArgmax(s, cs);
    forall i | 0 <= i < |s| {
      RateAt(s, outer, holes, i);
    }
  }

  /** The lattice loops visit |xs| samples per row. */
  lemma {:induction false} SamplesLength(xs: seq<real>, ys: seq<real>)
    ensures |Samples(xs, ys)| == |xs| * |ys|
    decreases |ys|
  {
    if |ys| > 0 {
      SamplesLength(xs, ys[..|ys| - 1]);
    }
  }

  /** An empty region, in either direction, has no samples and gives no point. */
  lemma EmptyRegionFindsNothing(box: Box, outer: Ring, holes: seq<Ring>)
    requires box.xMax <= box.xMin || box.yMax <= box.yMin
    ensures |Grid(box)| == 0
    ensures ScanResult(box, outer, holes).None?
  {
    SamplesLength(Lattice(box.xMin, box.xMax), Lattice(box.yMin, box.yMax));
  }

  /**
   * A region lying wholly right of, left of, above, or below the outer
   * ring's vertices gives no point: no sample is inside the outer ring.
   */
  lemma RegionBeyondOuterFindsNothing(box: Box, outer: Ring, holes: seq<Ring>)
    requires (forall v :: v in outer ==> v.x <= box.xMin)
          || (forall v :: v in outer ==> box.xMax <= v.x)
          || (forall v :: v in outer ==> v.y <= box.yMin)
          || (forall v :: v in outer ==> box.yMax <= v.y)
    ensures ScanResult(box, outer, holes).None?
  {
    var xs, ys := Lattice(box.xMin, box.xMax), Lattice(box.yMin, box.yMax);
    SamplesFromLattices(xs, ys);
    LatticeShape(box.xMin, box.xMax);
    LatticeShape(box.yMin, box.yMax);
    forall i | 0 <= i < |Grid(box)|
      ensures !Qualifies(Grid(box)[i], outer, holes)
    {
      var q := Grid(box)[i];
      if forall v :: v in outer ==> box.xMax <= v.x {
        assert q.x in xs;
        var k :| 0 <= k < |xs| && xs[k] == q.x;
        LeftOfExtentIsOutside(q, outer);
      } else {
        BeyondExtentIsOutside(q, outer);
      }
    }
    ScanFindsNothing(box, outer, holes);
  }

  /** Every pair of a lattice x and a lattice y is a sample. */
  lemma {:induction false} SamplesContain(xs: seq<real>, ys: seq<real>, c: nat, r: nat)
    requires c < |xs| && r < |ys|
    ensures Point(xs[c], ys[r]) in Samples(xs, ys)
    decreases |ys|
  {
    var init := ys[..|ys| - 1];
    assert Samples(xs, ys) == Samples(xs, init) + Row(xs, ys[|ys| - 1]);
    if r < |ys| - 1 {
      SamplesContain(xs, init, c, r);
      assert init[r] == ys[r];
    } else {
      assert Row(xs, ys[r])[c] == Point(xs[c], ys[r]);
    }
  }

  /** A region in which poleScan finds a point has positive width and height. */
  lemma ScanFoundMeansWideBox(box: Box, outer: Ring, holes: seq<Ring>)
    requires ScanResult(box, outer, holes).Some?
    ensures box.xMin < box.xMax && box.yMin < box.yMax
  {
    if box.xMax <= box.xMin || box.yMax <= box.yMin {
      EmptyRegionFindsNothing(box, outer, holes);
    }
  }

  /**
   * When some sample of the region qualifies and scores above 0, poleScan
   * finds a point, and that point scores at least as much as the sample.
   */
  lemma ScanFindsAtLeast(box: Box, outer: Ring, holes: seq<Ring>, q: Point)
    requires q in Grid(box) && Qualifies(q, outer, holes) && Score(q, outer, holes) > 0.0
    ensures ScanResult(box, outer, holes).Some?
    ensures Score(ScanResult(box, outer, holes).value, outer, holes) >= Score(q, outer, holes)
  {
    var s := Grid(box);
    var i :| 0 <= i < |s| && s[i] == q;
    ScanFindsNothing(box, outer, holes);
    ScanResultIsBestSample(box, outer, holes);
    var b :| 0 <= b < |s| && s[b] == ScanResult(box, outer, holes).value && FirstBest(s, outer, holes, b);
  }

  /** The early-exit hole loop: whether p is inside some hole. */
  method InAnyHole(p: Point, holes: seq<Ring>) returns (inHole: bool)
    ensures inHole == InSomeHole(p, holes)
  {
    inHole := false;
    var i := 0;
    while i < |holes| && !inHole
      invariant 0 <= i <= |holes|
      invariant inHole == exists h :: 0 <= h < i && Inside(p, holes[h])
    {
      inHole := IsInside(p, holes[i]);
      i := i + 1;
    }
  }

  /**
   * The body of the inner loop for one sample: it replaces the kept point
   * when it is inside the outer ring, in no hole, and farther from the
   * concatenated vertex list than the best so far, as Scan does.
   */
  method VisitSample(q: Point, points: Ring, holes: seq<Ring>, allpoints: Ring,
                     ghost seen: seq<Point>, maxDistance: real, lp: Option<Point>)
    returns (newMax: real, newLp: Option<Point>)
    requires allpoints == AllPoints(points, holes)
    requires Best(maxDistance, lp) == Scan(seen, points, holes)
    ensures Best(newMax, newLp) == Scan(seen + [q], points, holes)
  {
    ScanExtend(seen, q, points, holes);
    newMax, newLp := maxDistance, lp;
    var inside := IsInside(q, points);
    if inside {
      var inHole := InAnyHole(q, holes);
      if !inHole {
        var pd := PointToPerimeterDistance(q, allpoints);
        if pd.Some? && pd.value > maxDistance {
          newMax, newLp := pd.value, Some(q);
        }
      }
    }
  }

  /**
   * The inner loop of poleScan over one row: x steps by a twenty-fourth of
   * the region's width while below xMax, and each sample is visited in turn.
   */
  method ScanRow(y: real, xMin: real, xMax: real, points: Ring, holes: seq<Ring>, allpoints: Ring,
                 ghost done: seq<Point>, maxDistance: real, lp: Option<Point>)
    returns (newMax: real, newLp: Option<Point>)
    requires allpoints == AllPoints(points, holes)
    requires Best(maxDistance, lp) == Scan(done, points, holes)
    ensures Best(newMax, newLp) == Scan(done + Row(Lattice(xMin, xMax), y), points, holes)
  {
    ghost var xs := Lattice(xMin, xMax);
    newMax, newLp := maxDistance, lp;
    var x := xMin;
    ghost var col: nat := 0;
    ghost var seen := done;
    LatticeStart(xMin, xMax);
    RowPrefixStart(done, xs, y);
    while x < xMax
      invariant col <= |xs|
      invariant (x < xMax) == (col < |xs|)
      invariant col < |xs| ==> x == xs[col]
      invariant seen == done + Row(xs, y)[..col]
      invariant Best(newMax, newLp) == Scan(seen, points, holes)
      decreases |xs| - col
    {
      RowPrefixNext(done, xs, y, col);
      newMax, newLp := VisitSample(Point(x, y), points, holes, allpoints, seen, newMax, newLp);
      seen := seen + [Point(x, y)];
      LatticeNext(xMin, xMax, col);
      x := x + Step(xMin, xMax);
      col := col + 1;
    }
    RowPrefixEnd(done, xs, y);
  }

  /**
   * poleScan. The outer loop steps y by a twenty-fourth of the region's
   * height while below yMax and scans one row per value.
   */
  method PoleScan(xMin: real, yMin: real, xMax: real, yMax: real, points: Ring, holes: seq<Ring>)
    returns (lp: Option<Point>)
    ensures lp == ScanResult(Box(xMin, yMin, xMax, yMax), points, holes)
  {
    var maxDistance := 0.0;
    lp := None;
    var allpoints := points + Flatten(holes);
    ghost var xs, ys := Lattice(xMin, xMax), Lattice(yMin, yMax);
    var y := yMin;
    ghost var row: nat := 0;
    ghost var seen: seq<Point> := [];
    LatticeStart(yMin, yMax);
    while y < yMax
      invariant row <= |ys|
      invariant (y < yMax) == (row < |ys|)
      invariant row < |ys| ==> y == ys[row]
      invariant seen == Samples(xs, ys[..row])
      invariant Best(maxDistance, lp) == Scan(seen, points, holes)
      decreases |ys| - row
    {
      maxDistance, lp := ScanRow(y, xMin, xMax, points, holes, allpoints, seen, maxDistance, lp);
      SamplesNextRow(xs, ys, row);
      seen := seen + Row(xs, y);
      LatticeNext(yMin, yMax, row);
      y := y + Step(yMin, yMax);
      row := row + 1;
    }
    assert ys[..row] == ys;
  }
}
