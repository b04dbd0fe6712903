/** The two pieces of `ResampleCurvesLogic.run` around the resampler: the sampling distance
    chosen for a requested number of points, and the rule deciding whether the resampled
    points are accepted. */
module Orchestration {
  import opened Wrappers
  import opened Geometry
  import opened Curves
  import opened Arith
  import opened Resampler
  import opened ResampleProperties

  /** The sampling distance for `resampleNumber` output points on a curve of length
      `curveLength`: the curve is cut into `resampleNumber` pieces when closed (the last point
      returns to the first) and `resampleNumber - 1` pieces when open. A zero divisor raises
      in the source (Python's `ZeroDivisionError`), modelled as `None`. */
  function SamplingDistance(curveLength: real, resampleNumber: int, closedCurve: bool): (r: Option<real>)
    ensures closedCurve ==> (r.Some? <==> resampleNumber != 0)
    ensures !closedCurve ==> (r.Some? <==> resampleNumber != 1)
    ensures r.Some? && closedCurve ==> r.value * resampleNumber as real == curveLength
    ensures r.Some? && !closedCurve ==> r.value * (resampleNumber - 1) as real == curveLength
  {
    var pieces := if closedCurve then resampleNumber else resampleNumber - 1;
    if pieces == 0 then None else Some(curveLength / pieces as real)
  }

  /** The acceptance rule: the resampled points are kept when there are exactly
      `resampleNumber` of them, or one more on a closed curve (whose last point lands back on
      the first); the first `resampleNumber` of them become the new curve. */
  function AcceptResampled(points: seq<Point3>, resampleNumber: int, closedCurve: bool): (r: Option<seq<Point3>>)
    ensures r.Some? <==> |points| == resampleNumber || (closedCurve && |points| == resampleNumber + 1)
    ensures r.Some? && 0 <= resampleNumber ==> |r.value| == resampleNumber
    ensures r.Some? && resampleNumber < 0 ==> r.value == []
    ensures r.Some? ==> forall k :: 0 <= k < |r.value| ==> r.value[k] == points[k]
  {
    if |points| == resampleNumber || (closedCurve && |points| == resampleNumber + 1) then
      Some(if resampleNumber <= 0 then [] else points[..resampleNumber])
    else
      None
  }

  /** The sampling distance for `pieces` pieces of a curve, as `pieces` strides. */
  lemma PiecesAsStrides(len: real, pieces: int, d: real)
    requires 0.0 <= len
    requires d > 0.0
    requires pieces != 0
    requires d * pieces as real == len
    ensures 1 <= pieces
    ensures Strides(pieces, d) == len
  {
    if pieces < 0 {
      NegativeTimes(pieces as real, d);
    }
    StridesIsProduct(pieces, d);
  }

  /** On an open curve, with the exact length of the polyline being resampled and a
      sampling distance above 0.00005 (so that `round(d, 4)` is not 0), the resampler
      returns exactly the requested number of points, and the caller accepts all of them. */
  lemma OpenCurveAccepted(dist: (Point3, Point3) -> real, pts: seq<Point3>, n: int, d: real)
    requires IsMetric(dist)
    requires 2 <= |pts|
    requires SamplingDistance(CurveLength(dist, pts), n, false) == Some(d)
    requires d > 0.00005
    ensures |Resample(dist, pts, d)| == n
    ensures AcceptResampled(Resample(dist, pts, d), n, false) == Some(Resample(dist, pts, d))
  {
    var len := CurveLength(dist, pts);
    CurveLengthNonNegative(dist, pts);
    PiecesAsStrides(len, n - 1, d);
    var out := Resample(dist, pts, d);
    ResampledCount(dist, pts, d);
    CountPinned(|out| - 1, n - 1, len, d);
    assert out[..n] == out;
  }

  /** On a closed curve, under the same conditions, the resampler returns one point more
      than requested (the last stride lands back near the start), and the caller accepts
      the first `n` of them. */
  lemma ClosedCurveAccepted(dist: (Point3, Point3) -> real, pts: seq<Point3>, n: int, d: real)
    requires IsMetric(dist)
    requires 2 <= |pts|
    requires SamplingDistance(CurveLength(dist, pts), n, true) == Some(d)
    requires d > 0.00005
    ensures |Resample(dist, pts, d)| == n + 1
    ensures AcceptResampled(Resample(dist, pts, d), n, true) == Some(Resample(dist, pts, d)[..n])
  {
    var len := CurveLength(dist, pts);
    CurveLengthNonNegative(dist, pts);
    PiecesAsStrides(len, n, d);
    var out := Resample(dist, pts, d);
    ResampledCount(dist, pts, d);
    CountPinned(|out| - 1, n, len, d);
  }
}
