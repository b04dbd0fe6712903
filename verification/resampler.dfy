/** The arc-length resampler `ResampleCurvesLogic.ResamplePoints`: one forward pass over the
    input polyline that emits a point every `d` of arc length, carrying the unsampled
    leftover of each segment into the next. */
module Resampler {
  import opened Wrappers
  import opened Geometry
  import opened Rounding
  import opened Curves
  import opened Arith

  /** What the pass has produced after a prefix of the input: the points emitted so far and
      the arc length walked since the last emitted point (`distanceFromLastSampledPoint`). */
  datatype Progress = Progress(emitted: seq<Point3>, carry: real)

  /** The inner loop's test: another point is due while the length left, rounded to
      4 decimals, reaches the rounded sampling distance. */
  predicate StrideDue(remaining: real, d: real) {
    Round4(remaining) >= Round4(d)
  }

  /** A bound on the strides left while the inner loop runs (its termination measure). */
  function Budget(remaining: real, d: real): int
    requires d > 0.0
  {
    ((remaining + 1.0) / d).Floor
  }

  lemma BudgetShrinks(remaining: real, d: real)
    requires d > 0.0
    ensures Budget(remaining - d, d) == Budget(remaining, d) - 1
  {
    DivSubOne(remaining + 1.0, d);
    assert remaining - d + 1.0 == (remaining + 1.0) - d;
  }

  /** While a stride is due, `remaining` is at least -0.00005, so the budget is not negative. */
  lemma BudgetNonNegative(remaining: real, d: real)
    requires d > 0.0
    requires StrideDue(remaining, d)
    ensures Budget(remaining, d) >= 0
  {
    Round4NonNegative(d);
    assert remaining + 1.0 > 0.0;
    DivMul(remaining + 1.0, d);
    assert (remaining + 1.0) / d > 0.0;
  }

  /** How many points the inner loop emits when entered with `remaining`. */
  function StrideCount(remaining: real, d: real): nat
    requires d > 0.0
    decreases Budget(remaining, d)
  {
    if StrideDue(remaining, d) then
      BudgetShrinks(remaining, d);
      BudgetNonNegative(remaining, d);
      1 + StrideCount(remaining - d, d)
    else
      0
  }

  /** What is left of `remaining` when the inner loop ends. */
  function Leftover(remaining: real, d: real): real
    requires d > 0.0
    decreases Budget(remaining, d)
  {
    if StrideDue(remaining, d) then
      BudgetShrinks(remaining, d);
      BudgetNonNegative(remaining, d);
      Leftover(remaining - d, d)
    else
      remaining
  }

  /** The `k` points emitted by the inner loop when its first point lies `offset` along `dir`
      from `origin`: each emitted point is followed by one `d` further along. */
  function StridePoints(origin: Point3, dir: Point3, offset: real, d: real, k: nat): seq<Point3>
    decreases k
  {
    if k == 0 then [] else [Along(origin, dir, offset)] + StridePoints(origin, dir, offset + d, d, k - 1)
  }

  /** When the inner loop ends, no further stride is due, so what is left is below `d`. */
  lemma {:induction false} LeftoverShort(remaining: real, d: real)
    requires d > 0.0
    ensures !StrideDue(Leftover(remaining, d), d)
    ensures Leftover(remaining, d) < d
    decreases Budget(remaining, d)
  {
    if StrideDue(remaining, d) {
      BudgetShrinks(remaining, d);
      BudgetNonNegative(remaining, d);
      LeftoverShort(remaining - d, d);
    } else {
      Round4BelowMeansBelow(remaining, d);
    }
  }

  /** A loop that ran at least once overshoots the segment by at most 0.0001: the rounding
      slack of its test, half a unit in the 4th decimal on each side. */
  lemma {:induction false} LeftoverAboveSlack(remaining: real, d: real)
    requires d > 0.0
    requires StrideDue(remaining, d)
    ensures -0.0001 <= Leftover(remaining, d)
    decreases Budget(remaining, d)
  {
    BudgetShrinks(remaining, d);
    BudgetNonNegative(remaining, d);
    if StrideDue(remaining - d, d) {
      LeftoverAboveSlack(remaining - d, d);
    }
  }

  /** With `d` above 0.00005 the rounded test needs at least 0.00005 left, so a loop that ran
      leaves more than `-d`: the overshoot stays below one stride. */
  lemma {:induction false} LeftoverAboveMinusStride(remaining: real, d: real)
    requires d > 0.00005
    requires StrideDue(remaining, d)
    ensures -d < Leftover(remaining, d)
    decreases Budget(remaining, d)
  {
    BudgetShrinks(remaining, d);
    BudgetNonNegative(remaining, d);
    Round4AboveHalfUnit(d);
    assert remaining >= 0.00005;
    if StrideDue(remaining - d, d) {
      LeftoverAboveMinusStride(remaining - d, d);
    }
  }

  /** The strides and the leftover account for all of `remaining`. */
  lemma {:induction false} LeftoverConserves(remaining: real, d: real)
    requires d > 0.0
    ensures Strides(StrideCount(remaining, d), d) + Leftover(remaining, d) == remaining
    decreases Budget(remaining, d)
  {
    if StrideDue(remaining, d) {
      BudgetShrinks(remaining, d);
      BudgetNonNegative(remaining, d);
      LeftoverConserves(remaining - d, d);
    }
  }

  lemma {:induction false} StridePointsLength(origin: Point3, dir: Point3, offset: real, d: real, k: nat)
    ensures |StridePoints(origin, dir, offset, d, k)| == k
    decreases k
  {
    if 0 < k {
      StridePointsLength(origin, dir, offset + d, d, k - 1);
    }
  }

  /** The `j`-th point emitted by the inner loop lies `offset + j * d` along the direction. */
  lemma {:induction false} StridePointAt(origin: Point3, dir: Point3, offset: real, d: real, k: nat, j: nat)
    requires j < k
    ensures |StridePoints(origin, dir, offset, d, k)| == k
    ensures StridePoints(origin, dir, offset, d, k)[j] == Along(origin, dir, offset + Strides(j, d))
    decreases k
  {
    StridePointsLength(origin, dir, offset, d, k);
    if 0 < j {
      StridePointAt(origin, dir, offset + d, d, k - 1, j - 1);
      StridesAdd(1, j - 1, d);
    }
  }

  /** Consecutive points emitted by the inner loop are exactly `d` apart along the direction. */
  lemma StridePointNext(origin: Point3, dir: Point3, offset: real, d: real, k: nat, j: nat)
    requires j + 1 < k
    ensures |StridePoints(origin, dir, offset, d, k)| == k
    ensures var pts := StridePoints(origin, dir, offset, d, k);
            Sub(pts[j + 1], pts[j]) == Scale(dir, d)
  {
    StridePointAt(origin, dir, offset, d, k, j);
    StridePointAt(origin, dir, offset, d, k, j + 1);
    StridesAdd(j, 1, d);
    AlongStep(origin, dir, offset + Strides(j, d), d);
  }

  /** The body of the outer loop for the segment from `previous` to `current`, of length `len`: a segment of
      zero length changes nothing; otherwise, when a stride is due, the inner loop emits
      `StrideCount` points, the first `d - carry` along the segment, and keeps `Leftover`;
      else the whole segment is added to the carry. */
  function Step(acc: Progress, previous: Point3, current: Point3, len: real, d: real): (r: Progress)
    requires d > 0.0
    ensures |acc.emitted| <= |r.emitted| && r.emitted[..|acc.emitted|] == acc.emitted
    ensures len <= 0.0 ==> r == acc
    ensures len > 0.0 ==> !StrideDue(r.carry, d)
    ensures acc.carry < d ==> r.carry < d
    ensures -0.0001 <= acc.carry ==> -0.0001 <= r.carry
  {
    if len <= 0.0 then
      acc
    else
      var remaining := acc.carry + len;
      if StrideDue(remaining, d) then
        LeftoverShort(remaining, d);
        LeftoverAboveSlack(remaining, d);
        var dir := Direction(previous, current, len);
        Progress(acc.emitted + StridePoints(previous, dir, d - acc.carry, d, StrideCount(remaining, d)),
                 Leftover(remaining, d))
      else
        Round4BelowMeansBelow(remaining, d);
        Progress(acc.emitted, remaining)
  }

  /** The pass over a non-empty prefix of the input: the first point is emitted verbatim, then
      every segment is processed in order (the source also visits point 0 against itself,
      a zero-length segment that changes nothing). */
  function Scan(dist: (Point3, Point3) -> real, pts: seq<Point3>, d: real): (r: Progress)
    requires 1 <= |pts|
    requires d > 0.0
    ensures 1 <= |r.emitted| && r.emitted[0] == pts[0]
    ensures -0.0001 <= r.carry < d
    decreases |pts|
  {
    if |pts| == 1 then
      Progress([pts[0]], 0.0)
    else
      var previous, current := pts[|pts| - 2], pts[|pts| - 1];
      Step(Scan(dist, pts[..|pts| - 1], d), previous, current, dist(current, previous), d)
  }

  /** What `ResamplePoints` leaves in the output buffer when it succeeds. */
  function Resample(dist: (Point3, Point3) -> real, pts: seq<Point3>, d: real): (r: seq<Point3>)
    requires d > 0.0
    ensures |pts| < 2 ==> r == pts
    ensures 1 <= |pts| ==> 1 <= |r| && r[0] == pts[0]
  {
    if |pts| < 2 then pts else Scan(dist, pts, d).emitted
  }

  /** Lines 212-233 of the source's loop body for a segment of positive length: the nested
      while loop emits a point every `d` along the segment until less than `d` (after
      rounding) is left, and that leftover becomes the new carry. */
  method SampleSegment(out: seq<Point3>, carry: real, previous: Point3, current: Point3,
                       segmentLength: real, d: real)
    returns (sampled: seq<Point3>, newCarry: real)
    requires d > 0.0
    requires segmentLength > 0.0
    ensures Progress(sampled, newCarry)
         == Step(Progress(out, carry), previous, current, segmentLength, d)
  {
    sampled, newCarry := out, carry;
    var remaining := carry + segmentLength;
    if Round4(remaining) >= Round4(d) {
      var dir := Direction(previous, current, segmentLength);
      var offset := d - carry;
      ghost var goal := sampled + StridePoints(previous, dir, offset, d, StrideCount(remaining, d));
      ghost var left := Leftover(remaining, d);
      while Round4(remaining) >= Round4(d)
        invariant sampled + StridePoints(previous, dir, offset, d, StrideCount(remaining, d)) == goal
        invariant Leftover(remaining, d) == left
        decreases Budget(remaining, d)
      {
        BudgetShrinks(remaining, d);
        BudgetNonNegative(remaining, d);
        var sample := Along(previous, dir, offset);
        assert sampled + [sample] + StridePoints(previous, dir, offset + d, d, StrideCount(remaining - d, d))
            == sampled + StridePoints(previous, dir, offset, d, StrideCount(remaining, d));
        sampled := sampled + [sample];
        newCarry := 0.0;
        offset := offset + d;
        remaining := remaining - d;
      }
      newCarry := remaining;
    } else {
      newCarry := carry + segmentLength;
    }
  }

  /** `ResampleCurvesLogic.ResamplePoints`. An absent handle is `None`; `sampledPoints` is the
      output buffer before the call and `sampled` the buffer after it.
      `totalSegmentLength` is the sum the source accumulates and never uses; it is 0 on the
      early returns. */
  method ResamplePoints(dist: (Point3, Point3) -> real, originalPoints: Option<seq<Point3>>,
                        sampledPoints: Option<seq<Point3>>, samplingDistance: real, closedCurve: bool)
    returns (ok: bool, sampled: Option<seq<Point3>>, totalSegmentLength: real)
    requires IsMetric(dist)
    ensures ok <==> originalPoints.Some? && sampledPoints.Some? && samplingDistance > 0.0
    ensures !ok ==> sampled == sampledPoints
    ensures ok ==> sampled == Some(Resample(dist, originalPoints.value, samplingDistance))
    ensures ok && 2 <= |originalPoints.value| ==>
      totalSegmentLength == CurveLength(dist, originalPoints.value)
  {
    if originalPoints.None? || sampledPoints.None? || samplingDistance <= 0.0 {
      return false, sampledPoints, 0.0;
    }
    var points := originalPoints.value;
    if |points| < 2 {
      return true, Some(points), 0.0;
    }
    var d := samplingDistance;
    var carry := 0.0;
    var previous := points[0];
    var out := [previous];
    totalSegmentLength := 0.0;
    for i := 0 to |points|
      invariant i == 0 ==> out == [points[0]] && carry == 0.0 && previous == points[0]
      invariant i == 0 ==> totalSegmentLength == 0.0
      invariant 1 <= i ==> previous == points[i - 1]
      invariant 1 <= i ==> Progress(out, carry) == Scan(dist, points[..i], d)
      invariant 1 <= i ==> totalSegmentLength == CurveLength(dist, points[..i])
    {
      var current := points[i];
      var segmentLength := dist(current, previous);
      totalSegmentLength := totalSegmentLength + segmentLength;
      ghost var before := Progress(out, carry);
      ghost var from := previous;
      if i == 0 {
        assert |points[..1]| == 1 && points[..1][0] == points[0];
        assert Scan(dist, points[..1], d) == Progress([points[0]], 0.0);
      } else {
        assert points[..i + 1][..i] == points[..i];
        assert Scan(dist, points[..i + 1], d) == Step(before, from, current, segmentLength, d);
      }
      if segmentLength <= 0.0 {
        continue;
      }
      out, carry := SampleSegment(out, carry, previous, current, segmentLength, d);
      assert Progress(out, carry) == Step(before, from, current, segmentLength, d);
      previous := current;
    }
    assert points[..|points|] == points;
    return true, Some(out), totalSegmentLength;
  }
}
