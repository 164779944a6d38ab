/**
 * pointToPerimeterDistance: the least segment distance from a point to the
 * edges of a ring, the closing edge from the last vertex back to the first
 * included.
 */
module Perimeter {
  import opened RealArith
  import opened Geometry
  import opened Options

  /** Edge i of a ring of n vertices runs from vertex i to this vertex. */
  function EdgeEnd(n: nat, i: nat): (j: nat)
    requires i < n
    ensures j < n
    ensures i + 1 < n ==> j == i + 1
    ensures i + 1 == n ==> j == 0
  {
    if i + 1 < n then i + 1 else 0
  }

  /** The squared distance from p to edge i of the ring. */
  function EdgeDistance(p: Point, ring: Ring, i: nat): real
    requires i < |ring|
  {
    PointToLineDistance(p, ring[i], ring[EdgeEnd(|ring|, i)])
  }

  /** The edge distances of the ring, edge by edge. */
  function EdgeDistances(p: Point, ring: Ring): (ds: seq<real>)
    ensures |ds| == |ring|
  {
    seq(|ring|, i requires 0 <= i < |ring| => EdgeDistance(p, ring, i))
  }

  /**
   * The running minimum over the first k values: the first value sets it,
   * and a later one replaces it only when strictly smaller.
   */
  function RunningMin(ds: seq<real>, k: nat): real
    requires 1 <= k <= |ds|
  {
    if k == 1 then ds[0]
    else
      var m := RunningMin(ds, k - 1);
      if ds[k - 1] < m then ds[k - 1] else m
  }

  /** The squared distance from p to the perimeter of a non-empty ring. */
  function PerimeterDistance(p: Point, ring: Ring): real
    requires |ring| >= 1
  {
    RunningMin(EdgeDistances(p, ring), |ring|)
  }

  /** The running minimum is at most every value so far and equals one of them. */
  lemma {:induction false} RunningMinIsMinimum(ds: seq<real>, k: nat)
    requires 1 <= k <= |ds|
    ensures forall i :: 0 <= i < k ==> RunningMin(ds, k) <= ds[i]
    ensures exists i :: 0 <= i < k && RunningMin(ds, k) == ds[i]
  {
    if k > 1 {
      RunningMinIsMinimum(ds, k - 1);
      if ds[k - 1] >= RunningMin(ds, k - 1) {
        var i :| 0 <= i < k - 1 && RunningMin(ds, k - 1) == ds[i];
        assert RunningMin(ds, k) == ds[i];
      }
    } else {
      assert RunningMin(ds, k) == ds[0];
    }
  }

  /**
   * The perimeter distance is the least of the edge distances, closing edge
   * included, and equals one of them.
   */
  lemma PerimeterDistanceIsMinimum(p: Point, ring: Ring)
    requires |ring| >= 1
    ensures forall i :: 0 <= i < |ring| ==> PerimeterDistance(p, ring) <= EdgeDistance(p, ring, i)
    ensures PerimeterDistance(p, ring) <= PointToLineDistance(p, ring[|ring| - 1], ring[0])
    ensures exists i :: 0 <= i < |ring| && PerimeterDistance(p, ring) == EdgeDistance(p, ring, i)
  {
    var ds := EdgeDistances(p, ring);
    RunningMinIsMinimum(ds, |ring|);
    assert forall i :: 0 <= i < |ring| ==> ds[i] == EdgeDistance(p, ring, i);
    assert EdgeDistance(p, ring, |ring| - 1) == PointToLineDistance(p, ring[|ring| - 1], ring[0]);
  }

  /** Being one of the segment distances, the perimeter distance is never negative. */
  lemma PerimeterDistanceNonNegative(p: Point, ring: Ring)
    requires |ring| >= 1
    ensures PerimeterDistance(p, ring) >= 0.0
  {
    PerimeterDistanceIsMinimum(p, ring);
  }

  /** For a one-vertex ring the perimeter is that vertex. */
  lemma SingleVertexPerimeter(p: Point, v: Point)
    ensures PerimeterDistance(p, [v]) == DistSq(p, v)
  {
    var ring: Ring := [v];
    assert PerimeterDistance(p, ring) == RunningMin(EdgeDistances(p, ring), 1) == EdgeDistances(p, ring)[0];
    assert EdgeDistances(p, ring)[0] == EdgeDistance(p, ring, 0);
    assert EdgeDistance(p, ring, 0) == PointToLineDistance(p, v, v);
    DegenerateSegmentDistance(p, v, 0.0);
  }

  /**
   * No point of any edge, and so no vertex, is nearer to p than the
   * perimeter distance.
   */
  lemma PerimeterDistanceBelowEdgePoints(p: Point, ring: Ring, i: nat, t: real)
    requires i < |ring| && 0.0 <= t <= 1.0
    ensures PerimeterDistance(p, ring) <= DistSq(p, Lerp(ring[i], ring[EdgeEnd(|ring|, i)], t))
    ensures PerimeterDistance(p, ring) <= DistSq(p, ring[i])
  {
    PerimeterDistanceIsMinimum(p, ring);
    var a, b := ring[i], ring[EdgeEnd(|ring|, i)];
    assert PerimeterDistance(p, ring) <= EdgeDistance(p, ring, i) == PointToLineDistance(p, a, b);
    SegmentDistanceIsMinimal(p, a, b, t);
    SegmentDistanceIsMinimal(p, a, b, 0.0);
    LerpAtZero(a, b);
  }

  /**
   * pointToPerimeterDistance. On an empty ring the original returns
   * undefined, which no comparison prefers; the model returns None.
   */
  method PointToPerimeterDistance(p: Point, ring: Ring) returns (minDistance: Option<real>)
    ensures minDistance.None? <==> |ring| == 0
    ensures minDistance.Some? ==> minDistance.value == PerimeterDistance(p, ring)
  {
    minDistance := None;
    var i := 0;
    while i < |ring|
      invariant 0 <= i <= |ring|
      invariant i == 0 ==> minDistance.None?
      invariant i > 0 ==> minDistance == Some(RunningMin(EdgeDistances(p, ring), i))
    {
      var p1 := ring[i];
      var p2;
      if i + 1 < |ring| {
        p2 := ring[i + 1];
      } else {
        p2 := ring[0];
      }
      var d := PointToLineDistance(p, p1, p2);
      if i == 0 {
        minDistance := Some(d);
      } else if d < minDistance.value {
        minDistance := Some(d);
      }
      i := i + 1;
    }
  }
}
