/** Arc length of a polyline given as its ordered points. */
module Curves {
  import opened Geometry

  /** The length of the polyline: the sum over consecutive points of the distance from
      each point back to its predecessor. Fewer than two points have no length. */
  function CurveLength(dist: (Point3, Point3) -> real, pts: seq<Point3>): (r: real)
    ensures |pts| < 2 ==> r == 0.0
    decreases |pts|
  {
    if |pts| < 2 then 0.0
    else CurveLength(dist, pts[..|pts| - 1]) + dist(pts[|pts| - 1], pts[|pts| - 2])
  }

  /** The points in the opposite order. */
  function Reverse(pts: seq<Point3>): (r: seq<Point3>)
    ensures |r| == |pts|
    ensures forall i :: 0 <= i < |pts| ==> r[i] == pts[|pts| - 1 - i]
  {
    seq(|pts|, i requires 0 <= i < |pts| => pts[|pts| - 1 - i])
  }

  /** Polyline lengths are never negative. */
  lemma {:induction false} CurveLengthNonNegative(dist: (Point3, Point3) -> real, pts: seq<Point3>)
    requires IsMetric(dist)
    ensures 0.0 <= CurveLength(dist, pts)
    decreases |pts|
  {
    if 2 <= |pts| {
      CurveLengthNonNegative(dist, pts[..|pts| - 1]);
    }
  }

  /** Repeating the last point adds a zero-length segment, which adds no length. */
  lemma RepeatedPointAddsNoLength(dist: (Point3, Point3) -> real, pts: seq<Point3>)
    requires IsMetric(dist)
    requires 1 <= |pts|
    ensures CurveLength(dist, pts + [pts[|pts| - 1]]) == CurveLength(dist, pts)
  {
    var ext := pts + [pts[|pts| - 1]];
    assert ext[..|ext| - 1] == pts;
  }

  /** The length can also be summed from the front: first segment plus the rest. */
  lemma {:induction false} CurveLengthFromFront(dist: (Point3, Point3) -> real, pts: seq<Point3>)
    requires 2 <= |pts|
    ensures CurveLength(dist, pts) == dist(pts[1], pts[0]) + CurveLength(dist, pts[1..])
    decreases |pts|
  {
    if |pts| == 2 {
      assert pts[..1] == [pts[0]];
      assert |pts[1..]| == 1;
    } else {
      var init := pts[..|pts| - 1];
      CurveLengthFromFront(dist, init);
      assert init[1..] == pts[1..][..|pts[1..]| - 1];
      assert init[0] == pts[0] && init[1] == pts[1];
    }
  }

  /** Walking the polyline backwards covers the same length. */
  lemma {:induction false} CurveLengthReversed(dist: (Point3, Point3) -> real, pts: seq<Point3>)
    requires IsMetric(dist)
    ensures CurveLength(dist, Reverse(pts)) == CurveLength(dist, pts)
    decreases |pts|
  {
    if 2 <= |pts| {
      var r := Reverse(pts);
      var tail := pts[1..];
      CurveLengthReversed(dist, tail);
      assert r[..|r| - 1] == Reverse(tail);
      assert r[|r| - 1] == pts[0] && r[|r| - 2] == pts[1];
      CurveLengthFromFront(dist, pts);
      assert dist(pts[0], pts[1]) == dist(pts[1], pts[0]);
    }
  }
}
