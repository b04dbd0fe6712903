/** Polylines whose consecutive points are all the same distance apart: the resampler
    reproduces them when that distance is the sampling distance, and on an evenly spaced
    straight line it emits evenly spaced points of the line. */
module UniformCurves {
  import opened Geometry
  import opened Rounding
  import opened Curves
  import opened Arith
  import opened Resampler
  import opened ResampleProperties

  /** The length of the segment ending at point `i`. */
  function SegmentLength(dist: (Point3, Point3) -> real, pts: seq<Point3>, i: int): real
    requires 1 <= i < |pts|
  {
    dist(pts[i], pts[i - 1])
  }

  /** Every segment of `pts` has length `d`. */
  ghost predicate EvenlySpaced(dist: (Point3, Point3) -> real, pts: seq<Point3>, d: real) {
    forall i :: 1 <= i < |pts| ==> SegmentLength(dist, pts, i) == d
  }

  /** `pts` is the points 0, 1, 2, ... of the x axis, each one unit from the previous. */
  ghost predicate UnitLine(dist: (Point3, Point3) -> real, pts: seq<Point3>) {
    && EvenlySpaced(dist, pts, 1.0)
    && forall i :: 0 <= i < |pts| ==> pts[i] == Point3(i as real, 0.0, 0.0)
  }

  /** An evenly spaced polyline of `n` points is `n - 1` strides long. */
  lemma {:induction false} EvenlySpacedLength(dist: (Point3, Point3) -> real, pts: seq<Point3>, d: real)
    requires 1 <= |pts|
    requires EvenlySpaced(dist, pts, d)
    ensures CurveLength(dist, pts) == Strides(|pts| - 1, d)
    decreases |pts|
  {
    if 2 <= |pts| {
      var init := pts[..|pts| - 1];
      assert EvenlySpaced(dist, init, d) by {
        forall i | 1 <= i < |init|
          ensures SegmentLength(dist, init, i) == d
        {
          assert init[i] == pts[i] && init[i - 1] == pts[i - 1];
          assert SegmentLength(dist, pts, i) == d;
        }
      }
      EvenlySpacedLength(dist, init, d);
      assert SegmentLength(dist, pts, |pts| - 1) == d;
    }
  }

  /** A segment exactly one stride long, entered with no carry, emits its end point and
      leaves no carry, provided the stride survives rounding to 4 decimals. */
  lemma StepFullStride(acc: Progress, previous: Point3, current: Point3, d: real)
    requires d > 0.00005
    requires acc.carry == 0.0
    ensures Step(acc, previous, current, d, d) == Progress(acc.emitted + [current], 0.0)
  {
    assert Round4(0.0) == 0.0;
    assert StrideDue(d, d);
    assert !StrideDue(0.0, d);
    assert d - d == 0.0;
    assert StrideCount(d, d) == 1;
    assert Leftover(d, d) == 0.0;
    AlongFullLength(previous, current, d);
    assert StridePoints(previous, Direction(previous, current, d), d - acc.carry, d, 1) == [current];
  }

  /** Resampling at the spacing of an evenly spaced polyline emits exactly its points: the
      output is the input, not merely close to it. */
  lemma {:induction false} EvenlySpacedIsFixedPoint(dist: (Point3, Point3) -> real, pts: seq<Point3>, d: real)
    requires IsMetric(dist)
    requires 1 <= |pts|
    requires d > 0.00005
    requires EvenlySpaced(dist, pts, d)
    ensures Scan(dist, pts, d) == Progress(pts, 0.0)
    decreases |pts|
  {
    if 2 <= |pts| {
      var init := pts[..|pts| - 1];
      assert EvenlySpaced(dist, init, d) by {
        forall i | 1 <= i < |init|
          ensures SegmentLength(dist, init, i) == d
        {
          assert init[i] == pts[i] && init[i - 1] == pts[i - 1];
          assert SegmentLength(dist, pts, i) == d;
        }
      }
      EvenlySpacedIsFixedPoint(dist, init, d);
      var previous, current := pts[|pts| - 2], pts[|pts| - 1];
      assert SegmentLength(dist, pts, |pts| - 1) == d;
      StepFullStride(Progress(init, 0.0), previous, current, d);
      assert init + [current] == pts;
    }
  }

  /** The same, for the resampler's output buffer. */
  lemma ResampleEvenlySpaced(dist: (Point3, Point3) -> real, pts: seq<Point3>, d: real)
    requires IsMetric(dist)
    requires d > 0.00005
    requires EvenlySpaced(dist, pts, d)
    ensures Resample(dist, pts, d) == pts
  {
    if 2 <= |pts| {
      EvenlySpacedIsFixedPoint(dist, pts, d);
    }
  }

  /** The unit line up to point `i - 1` is `i - 1` long. */
  lemma UnitLinePrefixLength(dist: (Point3, Point3) -> real, pts: seq<Point3>, i: int)
    requires UnitLine(dist, pts)
    requires 1 <= i <= |pts|
    ensures CurveLength(dist, pts[..i]) == (i - 1) as real
  {
    assert EvenlySpaced(dist, pts[..i], 1.0) by {
      forall k | 1 <= k < i
        ensures SegmentLength(dist, pts[..i], k) == 1.0
      {
        assert pts[..i][k] == pts[k] && pts[..i][k - 1] == pts[k - 1];
        assert SegmentLength(dist, pts, k) == 1.0;
      }
    }
    EvenlySpacedLength(dist, pts[..i], 1.0);
    StridesIsProduct(i - 1, 1.0);
  }

  /** On the x axis, the point `s` along the unit segment from `k - 1` to `k` is the point `k - 1 + s`. */
  lemma XAxisStep(k: int, s: real)
    ensures Along(Point3((k - 1) as real, 0.0, 0.0),
                  Direction(Point3((k - 1) as real, 0.0, 0.0), Point3(k as real, 0.0, 0.0), 1.0), s)
         == Point3((k - 1) as real + s, 0.0, 0.0)
  {
    assert Direction(Point3((k - 1) as real, 0.0, 0.0), Point3(k as real, 0.0, 0.0), 1.0) == Point3(1.0, 0.0, 0.0);
  }

  /** A point of the unit line at arc length `x` from its start is the point `x` of the x axis. */
  lemma OnUnitLineAt(dist: (Point3, Point3) -> real, pts: seq<Point3>, i: int, s: real, q: Point3, x: real)
    requires UnitLine(dist, pts)
    requires OnSegment(dist, pts, i, s, q)
    requires CurveLength(dist, pts[..i]) + s == x
    ensures q == Point3(x, 0.0, 0.0)
  {
    UnitLinePrefixLength(dist, pts, i);
    assert SegmentLength(dist, pts, i) == 1.0;
    assert pts[i - 1] == Point3((i - 1) as real, 0.0, 0.0);
    assert pts[i] == Point3(i as real, 0.0, 0.0);
    XAxisStep(i, s);
  }

  /** On the unit line, the `m`-th point emitted is the point `m * d` of the x axis. */
  lemma SamplesOnUnitLine(dist: (Point3, Point3) -> real, pts: seq<Point3>, d: real, m: nat)
    requires IsMetric(dist)
    requires 1 <= |pts|
    requires d > 0.0
    requires UnitLine(dist, pts)
    requires m < |Scan(dist, pts, d).emitted|
    ensures Scan(dist, pts, d).emitted[m] == Point3(Strides(m, d), 0.0, 0.0)
  {
    if 1 <= m {
      var q := Scan(dist, pts, d).emitted[m];
      SampleAtArcLength(dist, pts, d, m);
      var i, s :| OnSegment(dist, pts, i, s, q) && CurveLength(dist, pts[..i]) + s == Strides(m, d);
      OnUnitLineAt(dist, pts, i, s, q, Strides(m, d));
    }
  }

  /** The unit line sampled at a stride that divides its length `q` times gives `q + 1` points. */
  lemma UnitLineCount(dist: (Point3, Point3) -> real, pts: seq<Point3>, d: real, q: nat)
    requires IsMetric(dist)
    requires 2 <= |pts|
    requires UnitLine(dist, pts)
    requires d > 0.00005
    requires 1 <= q
    requires Strides(q, d) == (|pts| - 1) as real
    ensures |Resample(dist, pts, d)| == q + 1
  {
    var len := CurveLength(dist, pts);
    assert len == (|pts| - 1) as real by {
      UnitLinePrefixLength(dist, pts, |pts|);
      assert pts[..|pts|] == pts;
    }
    var strides: nat := |Resample(dist, pts, d)| - 1;
    assert len - d < Strides(strides, d) < len + d by {
      ResampledCount(dist, pts, d);
    }
    CountPinned(strides, q, len, d);
  }

  /** The unit line sampled at a stride that divides its length: the output is the points
      `0, d, 2d, ...` up to the line's end. */
  lemma SampledUnitLine(dist: (Point3, Point3) -> real, pts: seq<Point3>, d: real, q: nat)
    requires IsMetric(dist)
    requires 2 <= |pts|
    requires UnitLine(dist, pts)
    requires d > 0.00005
    requires 1 <= q
    requires Strides(q, d) == (|pts| - 1) as real
    ensures Resample(dist, pts, d) == seq(q + 1, j requires 0 <= j => Point3(Strides(j, d), 0.0, 0.0))
  {
    UnitLineCount(dist, pts, d, q);
    var out := Scan(dist, pts, d).emitted;
    forall j | 0 <= j < |out|
      ensures out[j] == Point3(Strides(j, d), 0.0, 0.0)
    {
      SamplesOnUnitLine(dist, pts, d, j);
    }
  }
}
