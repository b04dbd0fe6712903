# Arc-length resampling of landmark curves

A Dafny model of the curve resampler in the ResampleCurves extension:
`ResampleCurvesLogic.ResamplePoints`, and two pieces of `ResampleCurvesLogic.run`: the choice
of the sampling distance (lines 270-273) and the acceptance of the resampled points (lines
278-284).

`ResamplePoints` makes one forward pass over an ordered 3D polyline. It copies the first point,
then walks the segments and emits a point every `samplingDistance` of arc length. The length
walked since the last emitted point is carried into the next segment. Every comparison with the
sampling distance rounds both sides to 4 decimals, as Python's `round(x, 4)` does.

`run` does not call this Python method: line 275 calls the host curve node's own
`ResamplePoints`. Before that call, `run` picks the sampling distance from the curve length and
the requested point count. After it, `run` accepts the output only when its count is the
requested `N`, or `N + 1` on a closed curve, and keeps the first `N` points. The model connects
these two pieces to the Python resampler, as if it were the one called.

Layout (one module per file):

- `wrappers.dfy` (`Wrappers`): `Option`, for an absent point-list handle and for a division
  by zero.
- `geometry.dfy` (`Geometry`): points, the direction of a segment, the point `t` along a
  direction, and the metric laws the distance obeys.
- `rounding.dfy` (`Rounding`): `round(x, 4)` over exact reals, ties to even.
- `curves.dfy` (`Curves`): polyline length, which is the `totalSegmentLength` the pass
  accumulates.
- `arith.dfy` (`Arith`): `Strides(n, d)`, which is `n * d` written as repeated addition, and
  facts about it.
- `resampler.dfy` (`Resampler`): `ResamplePoints` as a method with a nested loop (its inner
  loop is `SampleSegment`). Beside it is a functional reference: `Step` for one segment, `Scan`
  for a prefix of the input and `Resample` for the output buffer. The method is proved equal to
  the reference.
- `properties.dfy` (`ResampleProperties`): where the emitted points lie and how many there are.
- `orchestration.dfy` (`Orchestration`): the sampling-distance formula and the acceptance rule,
  and the theorems that tie them to the resampler's count.
- `uniform.dfy` (`UniformCurves`): evenly spaced polylines. Resampling at their spacing gives
  them back unchanged.
- `scenarios.dfy` (`Scenarios`): a straight line, a duplicated point and a closed square.

The main results:

- **Position.** The `m`-th emitted point lies on the polyline at arc length exactly `m * d`.
  It is on a segment of positive length, at most 0.0001 past that segment's end
  (`SampleAtArcLength`).
- **Count.** Let `c` be the output count and `L` the polyline length. Then
  `L - d < (c - 1) * d <= L + 0.0001`, and `(c - 1) * d < L + d` when `d` is above 0.00005
  (`ResampledCount`).
- **Caller.** Suppose the sampling distance is the exact polyline length divided by `N - 1`
  (open curve) or `N` (closed curve), and it is above 0.00005. Then the Python resampler
  returns exactly `N` points on an open curve, or `N + 1` on a closed one. Either way the
  acceptance rule takes the output (`OpenCurveAccepted`, `ClosedCurveAccepted`). This explains
  the `N + 1` case of the rule. At or below 0.00005, `round(d, 4)` is 0 and the inner loop can
  overshoot a segment by more than a stride (`TinyDistanceOvershoots`).

## Model

All sources are in `ResampleCurves/ResampleCurves.py`.

| member | source | states |
|---|---|---|
| Rounding.Round4 | ResampleCurves/ResampleCurves.py:213 | `round(x, 4)` is a multiple of 0.0001 within 0.00005 of `x`. That makes it the nearest such multiple, or one of the two nearest at a tie. |
| Rounding.Round4TiesToEven | ResampleCurves/ResampleCurves.py:213 | At an exact tie between two multiples of 0.0001, the even one is chosen, as Python 3's `round` does. |
| Rounding.Round4Monotone | ResampleCurves/ResampleCurves.py:213 | Rounding to 4 decimals never reverses the order of two lengths. |
| Rounding.Round4AboveHalfUnit | ResampleCurves/ResampleCurves.py:221 | A sampling distance above 0.00005 rounds to at least 0.0001, so the rounded test is not trivially true. |
| Rounding.Round4BelowMeansBelow | ResampleCurves/ResampleCurves.py:221 | If a length rounds strictly below the rounded sampling distance, it is strictly below the sampling distance. |
| Geometry.Direction | ResampleCurves/ResampleCurves.py:214-218 | The segment direction, scaled by the segment length, is the vector from `previous` to `current`. |
| Geometry.AlongStep | ResampleCurves/ResampleCurves.py:229 | Adding `d` to the offset moves the point by exactly `d` times the direction. |
| Geometry.AlongIsInterpolation | ResampleCurves/ResampleCurves.py:214-226 | The point at offset `s` on a segment of length `len` is the fraction `s / len` of the way from its start to its end. |
| Geometry.AlongFullLength | ResampleCurves/ResampleCurves.py:214-226 | At an offset equal to the segment length, the point is the segment's end. |
| Curves.CurveLength | ResampleCurves/ResampleCurves.py:204-208 | The `totalSegmentLength` sum of the distances between consecutive points. It is 0 for fewer than two points. |
| Curves.CurveLengthNonNegative | ResampleCurves/ResampleCurves.py:204-208 | The accumulated segment length is never negative. |
| Curves.RepeatedPointAddsNoLength | ResampleCurves/ResampleCurves.py:207-208 | A coincident point adds a zero-length segment and no length. |
| Curves.CurveLengthFromFront | ResampleCurves/ResampleCurves.py:204-208 | The length summed from the last point back equals the first segment plus the length of the rest. |
| Curves.CurveLengthReversed | ResampleCurves/ResampleCurves.py:204-208 | The accumulated length does not depend on the direction of travel. |
| Resampler.LeftoverShort | ResampleCurves/ResampleCurves.py:221-231 | When the inner loop stops, the rounded leftover is below the rounded `d`, and the leftover is below `d`. |
| Resampler.LeftoverAboveSlack | ResampleCurves/ResampleCurves.py:221-231 | An inner loop that ran at least once leaves a carry of at least -0.0001 (its overshoot bound). |
| Resampler.LeftoverAboveMinusStride | ResampleCurves/ResampleCurves.py:221-231 | With `d` above 0.00005, an inner loop that ran leaves a carry above `-d`: it never overshoots a segment by a whole stride. |
| Resampler.LeftoverConserves | ResampleCurves/ResampleCurves.py:228-231 | The inner loop's strides plus the leftover account for all of the remaining length. |
| Resampler.StridePointsLength | ResampleCurves/ResampleCurves.py:221-227 | The inner loop emits one point per stride. |
| Resampler.StridePointAt | ResampleCurves/ResampleCurves.py:220-229 | The `j`-th point of the inner loop lies at offset `d - carry + j * d` along the segment. |
| Resampler.StridePointNext | ResampleCurves/ResampleCurves.py:220-229 | Two consecutive points of the inner loop are exactly `d` apart along the segment direction. |
| Resampler.Step | ResampleCurves/ResampleCurves.py:209-234 | One segment keeps the earlier output as a prefix and changes nothing when its length is `<= 0`. Otherwise it leaves a carry that rounds below `d`. It keeps the carry in `[-0.0001, d)`. |
| Resampler.Scan | ResampleCurves/ResampleCurves.py:199-234 | The pass's output starts with the first input point, and its carry stays in `[-0.0001, d)`. |
| Resampler.Resample | ResampleCurves/ResampleCurves.py:195-202 | Fewer than 2 points are copied unchanged. Otherwise the first output point is the first input point. |
| Resampler.SampleSegment | ResampleCurves/ResampleCurves.py:212-233 | The nested while loop produces exactly the output and carry of `Step`. |
| Resampler.ResamplePoints | ResampleCurves/ResampleCurves.py:191-236 | It returns false and leaves the output unchanged exactly when a handle is absent or `d <= 0`. Otherwise the output is `Resample`, which does not depend on `closedCurve`. `totalSegmentLength` is the polyline length. |
| ResampleProperties.StepSampleAt | ResampleCurves/ResampleCurves.py:214-230 | The `k`-th point emitted on a segment is `previous + dir * (d - carry + k * d)`, and the next one is exactly `d * dir` further. |
| ResampleProperties.StepConservesLength | ResampleCurves/ResampleCurves.py:212-233 | On one segment, `d` per emitted point plus the new carry equals the old carry plus the segment length. |
| ResampleProperties.ArcLengthConserved | ResampleCurves/ResampleCurves.py:199-234 | `d` times the number of points after the first, plus the carry, is the length of the polyline walked. |
| ResampleProperties.StepCarryAboveMinusStride | ResampleCurves/ResampleCurves.py:209-234 | With `d` above 0.00005, one segment keeps a carry above `-d`. |
| ResampleProperties.ScanCarryAboveMinusStride | ResampleCurves/ResampleCurves.py:199-234 | With `d` above 0.00005, the carry of the whole pass stays above `-d`. |
| ResampleProperties.ResampledCount | ResampleCurves/ResampleCurves.py:199-236 | `L - d < (count - 1) * d <= L + 0.0001` for the polyline length `L`, and `(count - 1) * d < L + d` when `d` is above 0.00005. |
| ResampleProperties.CountPinned | ResampleCurves/ResampleCurves.py:199-236 | When the length is a whole number of strides, a count within one stride of it on either side is that number of strides. |
| ResampleProperties.StepSampleWithin | ResampleCurves/ResampleCurves.py:212-230 | A point emitted on a segment is at a positive offset of at most the segment length plus 0.0001. |
| ResampleProperties.SampleAtArcLength | ResampleCurves/ResampleCurves.py:199-234 | The `m`-th emitted point is on some segment of positive length, at arc length exactly `m * d` from the start. |
| ResampleProperties.OnSegmentInterpolates | ResampleCurves/ResampleCurves.py:214-226 | A point on a segment is an interpolation between the segment's two input points. |
| ResampleProperties.SampleBetweenInputPoints | ResampleCurves/ResampleCurves.py:199-234 | Every emitted point after the first is `pts[i-1] + t * (pts[i] - pts[i-1])` for consecutive input points, with `0 < t <= 1` up to the rounding slack. |
| ResampleProperties.RepeatedPointIsNoOp | ResampleCurves/ResampleCurves.py:205-210 | A point repeating its predecessor changes neither the output nor the carry. This is why visiting point 0 against itself is harmless. |
| Orchestration.SamplingDistance | ResampleCurves/ResampleCurves.py:270-273 | The distance times `N` (closed) or `N - 1` (open) is the curve length. A zero divisor raises. |
| Orchestration.AcceptResampled | ResampleCurves/ResampleCurves.py:278-284 | The output is accepted exactly when its count is `N`, or `N + 1` on a closed curve. Then the first `N` points are kept, in order. |
| Orchestration.OpenCurveAccepted | ResampleCurves/ResampleCurves.py:270-284 | With `d = L / (N - 1) > 0.00005` for the polyline's own length `L`, the resampler returns exactly `N` points, all of them accepted. |
| Orchestration.ClosedCurveAccepted | ResampleCurves/ResampleCurves.py:270-284 | With `d = L / N > 0.00005`, it returns `N + 1` points, and the first `N` are accepted. |
| UniformCurves.EvenlySpacedLength | ResampleCurves/ResampleCurves.py:204-208 | An evenly spaced polyline of `n` points is `n - 1` spacings long. |
| UniformCurves.StepFullStride | ResampleCurves/ResampleCurves.py:212-231 | A segment of exactly one stride, entered with no carry, emits its end point and leaves no carry. |
| UniformCurves.EvenlySpacedIsFixedPoint | ResampleCurves/ResampleCurves.py:199-234 | Sampling an evenly spaced polyline at its spacing (above 0.00005) emits exactly its points, with no carry. |
| UniformCurves.ResampleEvenlySpaced | ResampleCurves/ResampleCurves.py:191-236 | Resampling an evenly spaced polyline at its spacing returns it unchanged. |
| UniformCurves.UnitLinePrefixLength | ResampleCurves/ResampleCurves.py:204-208 | The unit-spaced line up to point `i - 1` is `i - 1` long. |
| UniformCurves.XAxisStep | ResampleCurves/ResampleCurves.py:214-226 | On the x axis, the point `s` along the unit segment from `k - 1` to `k` is the point `k - 1 + s`. |
| UniformCurves.OnUnitLineAt | ResampleCurves/ResampleCurves.py:222-226 | A point of the unit-spaced line at arc length `x` is the point `x` of the x axis. |
| UniformCurves.UnitLineCount | ResampleCurves/ResampleCurves.py:199-236 | A unit-spaced line of length `q * d` sampled every `d` gives `q + 1` points. |
| UniformCurves.SampledUnitLine | ResampleCurves/ResampleCurves.py:199-236 | A unit-spaced line of length `q * d` sampled every `d` gives exactly the points `0, d, ..., q * d` of the x axis. |
| UniformCurves.SamplesOnUnitLine | ResampleCurves/ResampleCurves.py:199-234 | On the unit-spaced x axis, the `m`-th emitted point is the point `m * d`. |
| Scenarios.StraightLineEveryThree | ResampleCurves/ResampleCurves.py:191-236 | Ten unit-spaced points from 0 to 9, sampled every 3, give 0, 3, 6 and 9. |
| Scenarios.DuplicatedStart | ResampleCurves/ResampleCurves.py:205-234 | `[p, p, q]` with `q` one stride from `p` resamples to `[p, q]`. |
| Scenarios.DuplicatedOrigin | ResampleCurves/ResampleCurves.py:205-234 | The origin twice, then the point 5 of the x axis, sampled every 5, gives the origin and the point 5. |
| Scenarios.ClosedSquareFourPoints | ResampleCurves/ResampleCurves.py:270-284 | Four points asked of a closed square of perimeter 8: the distance is 2, the resampler returns the five corners, and the four distinct corners are accepted. |
| Scenarios.TinyDistanceOvershoots | ResampleCurves/ResampleCurves.py:221-231 | At `d = 0.00004`, where `round(d, 4)` is 0, a segment two strides long gets four points and a carry of `-2 * d`. |

## Left out

- Module registration, widget setup, button wiring and screenshots (ResampleCurves.py:13-189): user interface, no logic to model.
- Directory scanning, reading and writing `.fcsv` files, and creating or removing scene nodes
  in `run` (ResampleCurves.py:238-268, 286-299): file I/O and the host application's scene.
- `GetCurvePointsWorld` and `GetCurveLengthWorld` (ResampleCurves.py:267, 271): host calls whose
  code is not available. The points and the length are inputs to the model.
- Line 275 calls the host curve node's own `ResamplePoints`, not the Python method at line 191.
  `Orchestration.OpenCurveAccepted` and `Orchestration.ClosedCurveAccepted` therefore speak of
  the Python method. They assume the host's length is the length of the points being resampled.
  Nothing here verifies `run` end to end.
- The segment length `math.sqrt(vtkMath.Distance2BetweenPoints(...))` (line 207) is a
  parameter `dist`. It is constrained only by the metric laws the pass needs: non-negative,
  zero exactly on coincident points, and symmetric. Dafny's reals have no square root. Every
  result holds for the Euclidean distance in particular.
- Floating point: lengths are exact reals. `Round4` rounds exact values half to even. Python
  rounds the decimal value of a double, whose binary representation can put a tie on either
  side. The inner loop's termination (`decreases Budget`) also holds only over exact reals. In
  doubles, a tiny distance such as `1e-20` rounds to 0.0 and `1.0 - 1e-20 == 1.0`, so line 230
  never lowers the remaining length and the loop at line 221 never exits.
- The messages printed on invalid inputs (line 193) and on a rejected count (lines 296-297).
  The refusal itself is modelled: `ok == false` and `None`.
- An absent `vtkPoints` handle (`not originalPoints`) is modelled as `None`. Any present handle
  counts as present.
- `originalPoints` and `sampledPoints` are assumed to be distinct objects. If the same
  `vtkPoints` were passed as both, `Reset()` at line 201 would empty the input before it is
  read, and the output would be the first point alone. The only caller passes a fresh
  `vtkPoints` (line 268).
- `totalSegmentLength` is 0 on the early returns; the source never assigns it there.
- `hasImageData`, the test class (lines 303-361) and `UIDevelopment/SampleScripts/landmarkReaderScript.py`:
  test scaffolding and a standalone script with no reusable function.
- Orchestration.OpenCurveAccepted: requires `d > 0.00005`. At or below that, `round(d, 4)` is
  0, the inner loop can overshoot by more than a stride (`TinyDistanceOvershoots`), and the
  count need not be `N`: one segment 0.00008 long sampled every 0.00004 gives 5 points, not 3.
- Orchestration.ClosedCurveAccepted: requires `d > 0.00005`, for the same reason.
- ResampleProperties.SampleAtArcLength: places a point up to 0.0001 past its segment's end,
  not exactly on the segment, because that is what the rounded test allows.
- UniformCurves.EvenlySpacedIsFixedPoint: requires a spacing above 0.00005. At or below that,
  `round(d, 4)` is 0 and the inner loop emits extra points.

### Rounding slack and other behaviour worth noting

- The inner loop's test compares values rounded to 4 decimals (line 221). The loop can
  therefore run once more when slightly less than `d` is left. A point can land up to 0.0001
  past a segment's end, and the carry can be as low as -0.0001 (`LeftoverAboveSlack`,
  `SampleAtArcLength`). The carry never reaches `d`.
- The outer loop visits point 0 against itself (line 205). This is a zero-length segment and
  changes nothing (`Step`, `RepeatedPointIsNoOp`). The model's method keeps that visit.
- An evenly spaced polyline resampled at its spacing comes back exactly, for any spacing above
  0.00005 (`EvenlySpacedIsFixedPoint`). At or below that spacing, `round(d, 4)` is 0.
