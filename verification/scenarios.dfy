/** Concrete runs of the resampler and of the caller's acceptance rule on small curves. The
    distance function is any metric that gives the segments their Euclidean lengths. */
module Scenarios {
  import opened Wrappers
  import opened Geometry
  import opened Rounding
  import opened Curves
  import opened Arith
  import opened Resampler
  import opened ResampleProperties
  import opened Orchestration
  import opened UniformCurves

  const Origin := Point3(0.0, 0.0, 0.0)

  /** Ten points one unit apart on the x axis, from 0 to 9. */
  const StraightLine: seq<Point3> := seq(10, i requires 0 <= i => Point3(i as real, 0.0, 0.0))

  /** A square of side 2 walked back to its first corner: perimeter 8. */
  const Square: seq<Point3> := [
    Point3(0.0, 0.0, 0.0), Point3(2.0, 0.0, 0.0), Point3(2.0, 2.0, 0.0), Point3(0.0, 2.0, 0.0),
    Point3(0.0, 0.0, 0.0)]

  /** The straight line of length 9 sampled every 3 units gives its points 0, 3, 6 and 9. */
  lemma StraightLineEveryThree(dist: (Point3, Point3) -> real)
    requires IsMetric(dist)
    requires EvenlySpaced(dist, StraightLine, 1.0)
    ensures Resample(dist, StraightLine, 3.0)
         == [Origin, Point3(3.0, 0.0, 0.0), Point3(6.0, 0.0, 0.0), Point3(9.0, 0.0, 0.0)]
  {
    SampledUnitLine(dist, StraightLine, 3.0, 3);
    assert Strides(1, 3.0) == 3.0 && Strides(2, 3.0) == 6.0 && Strides(3, 3.0) == 9.0;
  }

  /** A repeated first point is a zero-length segment: it emits nothing, and a second
      segment exactly one stride long ends with a point on its end. */
  lemma DuplicatedStart(dist: (Point3, Point3) -> real, p: Point3, q: Point3, d: real)
    requires d > 0.00005
    requires dist(p, p) == 0.0
    requires dist(q, p) == d
    ensures Resample(dist, [p, p, q], d) == [p, q]
  {
    var pts := [p, p, q];
    var start := Progress([p], 0.0);
    assert pts[..2] == [p, p];
    assert [p, p][..1] == [p];
    assert Scan(dist, [p], d) == start;
    assert Scan(dist, [p, p], d) == Step(start, p, p, 0.0, d) == start;
    assert Scan(dist, pts, d) == Step(start, p, q, d, d);
    StepFullStride(start, p, q, d);
    assert [p] + [q] == [p, q];
  }

  /** The duplicated origin followed by the point 5 of the x axis, sampled every 5 units. */
  lemma DuplicatedOrigin(dist: (Point3, Point3) -> real)
    requires IsMetric(dist)
    requires dist(Point3(5.0, 0.0, 0.0), Origin) == 5.0
    ensures Resample(dist, [Origin, Origin, Point3(5.0, 0.0, 0.0)], 5.0) == [Origin, Point3(5.0, 0.0, 0.0)]
  {
    DuplicatedStart(dist, Origin, Point3(5.0, 0.0, 0.0), 5.0);
  }

  /** Four points asked of the closed square: the sampling distance is 2, the resampler
      returns the five corners (the last back at the start), and the caller accepts the
      four distinct corners. */
  lemma ClosedSquareFourPoints(dist: (Point3, Point3) -> real)
    requires IsMetric(dist)
    requires EvenlySpaced(dist, Square, 2.0)
    ensures SamplingDistance(CurveLength(dist, Square), 4, true) == Some(2.0)
    ensures Resample(dist, Square, 2.0) == Square
    ensures AcceptResampled(Resample(dist, Square, 2.0), 4, true) == Some(Square[..4])
  {
    EvenlySpacedLength(dist, Square, 2.0);
    assert Strides(4, 2.0) == 8.0;
    ResampleEvenlySpaced(dist, Square, 2.0);
  }

  /** At a distance of 0.00004, `round(d, 4)` is 0, so the inner loop keeps going past the end
      of a segment two strides long: it emits four points and leaves a carry of -0.00008,
      two whole strides behind. Above 0.00005 that cannot happen (`LeftoverAboveMinusStride`). */
  lemma TinyDistanceOvershoots()
    ensures StrideCount(0.00008, 0.00004) == 4
    ensures Leftover(0.00008, 0.00004) == -0.00008
  {
    assert Round4(0.00004) == 0.0;
    assert Round4(0.00008) == 0.0001;
    assert Round4(0.0) == 0.0;
    assert Round4(-0.00004) == 0.0;
    assert Round4(-0.00008) == -0.0001;
  }
}
