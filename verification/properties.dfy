/** What the resampler's single pass guarantees about its output. */
module ResampleProperties {
  import opened Geometry
  import opened Rounding
  import opened Curves
  import opened Arith
  import opened Resampler

  /** Within one segment of positive length, the `j`-th point emitted lies
      `d - carry + j * d` along the segment's direction from its start, and the next point
      emitted on the same segment is exactly `d` further along that direction. */
  lemma StepSampleAt(acc: Progress, previous: Point3, current: Point3, len: real, d: real, j: nat)
    requires d > 0.0
    requires len > 0.0
    requires |acc.emitted| + j < |Step(acc, previous, current, len, d).emitted|
    ensures var r := Step(acc, previous, current, len, d);
            var dir := Direction(previous, current, len);
            && r.emitted[|acc.emitted| + j] == Along(previous, dir, d - acc.carry + Strides(j, d))
            && (|acc.emitted| + j + 1 < |r.emitted| ==>
                  Sub(r.emitted[|acc.emitted| + j + 1], r.emitted[|acc.emitted| + j]) == Scale(dir, d))
  {
    var remaining := acc.carry + len;
    var dir := Direction(previous, current, len);
    if !StrideDue(remaining, d) {
      assert false;
    } else {
      var k := StrideCount(remaining, d);
      StepEmitsStrides(acc, previous, current, len, d);
      StridePointAt(previous, dir, d - acc.carry, d, k, j);
      if j + 1 < k {
        StridePointNext(previous, dir, d - acc.carry, d, k, j);
      }
    }
  }

  /** When a stride is due on a segment of positive length, the pass appends exactly the
      points of the inner loop. */
  lemma StepEmitsStrides(acc: Progress, previous: Point3, current: Point3, len: real, d: real)
    requires d > 0.0
    requires len > 0.0
    requires StrideDue(acc.carry + len, d)
    ensures var k := StrideCount(acc.carry + len, d);
            var strides := StridePoints(previous, Direction(previous, current, len), d - acc.carry, d, k);
            && |strides| == k
            && Step(acc, previous, current, len, d).emitted == acc.emitted + strides
  {
    StridePointsLength(previous, Direction(previous, current, len), d - acc.carry, d,
                       StrideCount(acc.carry + len, d));
  }

  /** One segment of positive length: the strides emitted plus the change in carry account
      for exactly the segment's length. */
  lemma StepConservesLength(acc: Progress, previous: Point3, current: Point3, len: real, d: real)
    requires d > 0.0
    requires len > 0.0
    ensures var r := Step(acc, previous, current, len, d);
            Strides(|r.emitted| - |acc.emitted|, d) + r.carry == acc.carry + len
  {
    var remaining := acc.carry + len;
    if StrideDue(remaining, d) {
      var dir := Direction(previous, current, len);
      StridePointsLength(previous, dir, d - acc.carry, d, StrideCount(remaining, d));
      LeftoverConserves(remaining, d);
    }
  }

  /** One segment of non-negative length extends the accounting of the length walked. */
  lemma StepConservesWalk(acc: Progress, previous: Point3, current: Point3, len: real, d: real, walked: real)
    requires d > 0.0
    requires 0.0 <= len
    requires 1 <= |acc.emitted|
    requires Strides(|acc.emitted| - 1, d) + acc.carry == walked
    ensures var r := Step(acc, previous, current, len, d);
            Strides(|r.emitted| - 1, d) + r.carry == walked + len
  {
    var r := Step(acc, previous, current, len, d);
    if len > 0.0 {
      StepConservesLength(acc, previous, current, len, d);
      ConservedAcrossStep(|acc.emitted| - 1, |r.emitted| - |acc.emitted|, acc.carry, r.carry, walked, len, d);
    }
  }

  /** The pass loses no length: `d` per point emitted after the first, plus the carry,
      is the length of the polyline walked so far. */
  lemma {:induction false} ArcLengthConserved(dist: (Point3, Point3) -> real, pts: seq<Point3>, d: real)
    requires IsMetric(dist)
    requires 1 <= |pts|
    requires d > 0.0
    ensures var r := Scan(dist, pts, d);
            Strides(|r.emitted| - 1, d) + r.carry == CurveLength(dist, pts)
    decreases |pts|
  {
    if 2 <= |pts| {
      var init := pts[..|pts| - 1];
      var previous, current := pts[|pts| - 2], pts[|pts| - 1];
      var len := dist(current, previous);
      ArcLengthConserved(dist, init, d);
      assert Scan(dist, pts, d) == Step(Scan(dist, init, d), previous, current, len, d);
      assert CurveLength(dist, pts) == CurveLength(dist, init) + len;
      StepConservesWalk(Scan(dist, init, d), previous, current, len, d, CurveLength(dist, init));
    }
  }

  /** Strides and carry before a segment, plus the segment's strides and new carry, account for
      the length walked plus the segment. */
  lemma ConservedAcrossStep(before: nat, added: nat, carry: real, newCarry: real, walked: real,
                            len: real, d: real)
    requires Strides(before, d) + carry == walked
    requires Strides(added, d) + newCarry == carry + len
    ensures Strides(before + added, d) + newCarry == walked + len
  {
    StridesAdd(before, added, d);
  }

  /** One segment, with `d` above 0.00005, keeps the carry above `-d`. */
  lemma StepCarryAboveMinusStride(acc: Progress, previous: Point3, current: Point3, len: real, d: real)
    requires d > 0.00005
    requires -d < acc.carry
    ensures -d < Step(acc, previous, current, len, d).carry
  {
    if len > 0.0 && StrideDue(acc.carry + len, d) {
      LeftoverAboveMinusStride(acc.carry + len, d);
    }
  }

  /** With `d` above 0.00005, the carry of the whole pass stays above `-d`: the rounded test
      never lets the inner loop overshoot a segment by a whole stride. */
  lemma {:induction false} ScanCarryAboveMinusStride(dist: (Point3, Point3) -> real, pts: seq<Point3>, d: real)
    requires 1 <= |pts|
    requires d > 0.00005
    ensures -d < Scan(dist, pts, d).carry
    decreases |pts|
  {
    if 2 <= |pts| {
      var init := pts[..|pts| - 1];
      var previous, current := pts[|pts| - 2], pts[|pts| - 1];
      ScanCarryAboveMinusStride(dist, init, d);
      StepCarryAboveMinusStride(Scan(dist, init, d), previous, current, dist(current, previous), d);
    }
  }

  /** The number of points: `d` times the points after the first exceeds the polyline's
      length minus `d` and exceeds the length itself by at most the rounding slack 0.0001;
      when `d` is above 0.00005 it is also below the length plus `d`. */
  lemma ResampledCount(dist: (Point3, Point3) -> real, pts: seq<Point3>, d: real)
    requires IsMetric(dist)
    requires 2 <= |pts|
    requires d > 0.0
    ensures var n := |Resample(dist, pts, d)|;
            CurveLength(dist, pts) - d < Strides(n - 1, d) <= CurveLength(dist, pts) + 0.0001
    ensures var n := |Resample(dist, pts, d)|;
            d > 0.00005 ==> Strides(n - 1, d) < CurveLength(dist, pts) + d
  {
    ArcLengthConserved(dist, pts, d);
    if d > 0.00005 {
      ScanCarryAboveMinusStride(dist, pts, d);
    }
  }

  /** With a polyline of `pieces` strides, a count within one stride of its length on either
      side is `pieces` strides past the first point. */
  lemma CountPinned(count: nat, pieces: nat, len: real, d: real)
    requires 1 <= pieces
    requires d > 0.0
    requires Strides(pieces, d) == len
    requires len - d < Strides(count, d) < len + d
    ensures count == pieces
  {
    assert Strides(pieces + 1, d) == Strides(pieces, d) + d;
    assert Strides(pieces, d) == Strides(pieces - 1, d) + d;
    StridesPinned(count, pieces, d);
  }

  /** `q` is the point `s` along the `i`-th segment (from point `i - 1` to point `i`), which has
      positive length; `s` is positive and overshoots the segment's end by at most 0.0001. */
  ghost predicate OnSegment(dist: (Point3, Point3) -> real, pts: seq<Point3>, i: int, s: real, q: Point3) {
    && 1 <= i < |pts|
    && var len := dist(pts[i], pts[i - 1]);
       && 0.0 < len
       && 0.0 < s <= len + 0.0001
       && q == Along(pts[i - 1], Direction(pts[i - 1], pts[i], len), s)
  }

  /** The `m`-th point emitted (after the first, which is the first input point) lies on the
      polyline at arc length exactly `m * d` from its start. */
  lemma {:induction false} SampleAtArcLength(dist: (Point3, Point3) -> real, pts: seq<Point3>, d: real, m: int)
    requires IsMetric(dist)
    requires 1 <= |pts|
    requires d > 0.0
    requires 1 <= m < |Scan(dist, pts, d).emitted|
    ensures exists i, s :: OnSegment(dist, pts, i, s, Scan(dist, pts, d).emitted[m])
                           && CurveLength(dist, pts[..i]) + s == Strides(m, d)
    decreases |pts|
  {
    if |pts| == 1 {
      assert false;
    }
    var init := pts[..|pts| - 1];
    var previous, current := pts[|pts| - 2], pts[|pts| - 1];
    var len := dist(current, previous);
    var acc := Scan(dist, init, d);
    var r := Scan(dist, pts, d);
    assert r == Step(acc, previous, current, len, d);
    if m < |acc.emitted| {
      SampleAtArcLength(dist, init, d, m);
      var i, s :| OnSegment(dist, init, i, s, acc.emitted[m]) && CurveLength(dist, init[..i]) + s == Strides(m, d);
      assert init[..i] == pts[..i];
      assert r.emitted[m] == acc.emitted[m];
      assert OnSegment(dist, pts, i, s, r.emitted[m]);
    } else {
      SampleOnLastSegment(dist, pts, d, m);
    }
  }

  /** The inductive step of `SampleAtArcLength`: a point emitted while walking the last segment. */
  lemma SampleOnLastSegment(dist: (Point3, Point3) -> real, pts: seq<Point3>, d: real, m: int)
    requires IsMetric(dist)
    requires 2 <= |pts|
    requires d > 0.0
    requires |Scan(dist, pts[..|pts| - 1], d).emitted| <= m < |Scan(dist, pts, d).emitted|
    ensures exists i, s :: OnSegment(dist, pts, i, s, Scan(dist, pts, d).emitted[m])
                           && CurveLength(dist, pts[..i]) + s == Strides(m, d)
  {
    var i := |pts| - 1;
    var init := pts[..i];
    var previous, current := pts[i - 1], pts[i];
    var len := dist(current, previous);
    var acc := Scan(dist, init, d);
    var r := Scan(dist, pts, d);
    assert r == Step(acc, previous, current, len, d);
    var j: nat := m - |acc.emitted|;
    StepSampleWithin(acc, previous, current, len, d, j);
    var s := d - acc.carry + Strides(j, d);
    assert OnSegment(dist, pts, i, s, r.emitted[m]);
    ArcLengthConserved(dist, init, d);
    ArcStep(|acc.emitted| - 1, j, acc.carry, CurveLength(dist, init), d);
    assert |acc.emitted| - 1 + j + 1 == m;
    assert CurveLength(dist, pts[..i]) + s == Strides(m, d);
  }

  /** A point emitted on a segment lies on it: the segment has positive length and the
      point's offset from the segment's start is positive and at most the segment's length
      plus the rounding slack. */
  lemma StepSampleWithin(acc: Progress, previous: Point3, current: Point3, len: real, d: real, j: nat)
    requires d > 0.0
    requires -0.0001 <= acc.carry < d
    requires |acc.emitted| + j < |Step(acc, previous, current, len, d).emitted|
    ensures len > 0.0
    ensures 0.0 < d - acc.carry + Strides(j, d) <= len + 0.0001
    ensures Step(acc, previous, current, len, d).emitted[|acc.emitted| + j]
         == Along(previous, Direction(previous, current, len), d - acc.carry + Strides(j, d))
  {
    var remaining := acc.carry + len;
    if len <= 0.0 || !StrideDue(remaining, d) {
      assert false;
    }
    var k := StrideCount(remaining, d);
    var dir := Direction(previous, current, len);
    StridePointsLength(previous, dir, d - acc.carry, d, k);
    StepSampleAt(acc, previous, current, len, d, j);
    LeftoverConserves(remaining, d);
    LeftoverAboveSlack(remaining, d);
    OffsetWithinSegment(acc.carry, len, d, j, k, Leftover(remaining, d));
  }

  /** The `j`-th of `k` strides on a segment starts past the segment's start and ends within
      the rounding slack of its end. */
  lemma OffsetWithinSegment(carry: real, len: real, d: real, j: nat, k: nat, left: real)
    requires d > 0.0
    requires carry < d
    requires j < k
    requires Strides(k, d) + left == carry + len
    requires -0.0001 <= left
    ensures 0.0 < d - carry + Strides(j, d) <= len + 0.0001
  {
    StridesNonNegative(j, d);
    if j + 1 < k {
      StridesIncreasing(j + 1, k, d);
    }
  }

  /** Arc length after `before` strides and a carry, plus the next `j + 1` strides less the
      carry, is `before + j + 1` strides. */
  lemma ArcStep(before: nat, j: nat, carry: real, walked: real, d: real)
    requires Strides(before, d) + carry == walked
    ensures walked + (d - carry + Strides(j, d)) == Strides(before + j + 1, d)
  {
    StridesAdd(before, j + 1, d);
    assert Strides(j + 1, d) == Strides(j, d) + d;
  }

  /** `q` is `pts[i - 1] + t * (pts[i] - pts[i - 1])`, with `t` positive and at most 1 plus the
      rounding slack measured in lengths of that segment. */
  ghost predicate Interpolates(dist: (Point3, Point3) -> real, pts: seq<Point3>, i: int, t: real, q: Point3) {
    && 1 <= i < |pts|
    && 0.0 < t
    && t * dist(pts[i], pts[i - 1]) <= dist(pts[i], pts[i - 1]) + 0.0001
    && q == Along(pts[i - 1], Sub(pts[i], pts[i - 1]), t)
  }

  /** A point `s` along a segment is the fraction `s / len` of the way along it. */
  lemma OnSegmentInterpolates(dist: (Point3, Point3) -> real, pts: seq<Point3>, i: int, s: real, q: Point3)
    requires OnSegment(dist, pts, i, s, q)
    ensures Interpolates(dist, pts, i, s / dist(pts[i], pts[i - 1]), q)
  {
    var len := dist(pts[i], pts[i - 1]);
    AlongIsInterpolation(pts[i - 1], pts[i], len, s);
    DivMul(s, len);
  }

  /** Every point emitted after the first is an interpolation between two consecutive input
      points. */
  lemma SampleBetweenInputPoints(dist: (Point3, Point3) -> real, pts: seq<Point3>, d: real, m: int)
    requires IsMetric(dist)
    requires 1 <= |pts|
    requires d > 0.0
    requires 1 <= m < |Scan(dist, pts, d).emitted|
    ensures exists i, t :: Interpolates(dist, pts, i, t, Scan(dist, pts, d).emitted[m])
  {
    var q := Scan(dist, pts, d).emitted[m];
    SampleAtArcLength(dist, pts, d, m);
    var i, s :| OnSegment(dist, pts, i, s, q) && CurveLength(dist, pts[..i]) + s == Strides(m, d);
    OnSegmentInterpolates(dist, pts, i, s, q);
  }

  /** Appending a point to the input adds one segment to the pass. */
  lemma ScanExtend(dist: (Point3, Point3) -> real, pts: seq<Point3>, p: Point3, d: real)
    requires 1 <= |pts|
    requires d > 0.0
    ensures Scan(dist, pts + [p], d)
         == Step(Scan(dist, pts, d), pts[|pts| - 1], p, dist(p, pts[|pts| - 1]), d)
  {
    var ext := pts + [p];
    assert ext[..|ext| - 1] == pts;
    assert ext[|ext| - 1] == p && ext[|ext| - 2] == pts[|pts| - 1];
  }

  /** A point repeating its predecessor is a zero-length segment, which changes nothing: this
      is also why visiting point 0 against itself is harmless. */
  lemma RepeatedPointIsNoOp(dist: (Point3, Point3) -> real, pts: seq<Point3>, d: real)
    requires IsMetric(dist)
    requires 1 <= |pts|
    requires d > 0.0
    ensures Scan(dist, pts + [pts[|pts| - 1]], d) == Scan(dist, pts, d)
  {
    var last := pts[|pts| - 1];
    ScanExtend(dist, pts, last, d);
    assert dist(last, last) == 0.0;
  }
}
