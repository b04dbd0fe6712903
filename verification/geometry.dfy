/** Points, directions and the distance function of the resampler. */
module Geometry {

  /** A point (or a vector) of world space. */
  datatype Point3 = Point3(x: real, y: real, z: real)

  /** The component-wise difference `p - q`. */
  function Sub(p: Point3, q: Point3): Point3 {
    Point3(p.x - q.x, p.y - q.y, p.z - q.z)
  }

  /** The vector `v` scaled by `t`. */
  function Scale(v: Point3, t: real): Point3 {
    Point3(v.x * t, v.y * t, v.z * t)
  }

  /** The laws of `math.sqrt(vtkMath.Distance2BetweenPoints(p, q))` the resampler relies on:
      Euclidean distance is non-negative, zero exactly on coincident points, and symmetric.
      Square roots do not exist over Dafny's reals, so the distance is a parameter. */
  ghost predicate IsMetric(dist: (Point3, Point3) -> real) {
    forall p: Point3, q: Point3 ::
      && 0.0 <= dist(p, q)
      && (dist(p, q) == 0.0 <==> p == q)
      && dist(p, q) == dist(q, p)
  }

  /** The vector from `from` to `to` divided by `len`; a unit vector when `len` is their distance. */
  function Direction(from: Point3, to: Point3, len: real): (dir: Point3)
    requires len > 0.0
    ensures Scale(dir, len) == Sub(to, from)
  {
    Point3((to.x - from.x) / len, (to.y - from.y) / len, (to.z - from.z) / len)
  }

  /** The point `t` units along `dir` from `origin`. */
  function Along(origin: Point3, dir: Point3, t: real): (p: Point3)
    ensures Sub(p, origin) == Scale(dir, t)
  {
    Point3(origin.x + dir.x * t, origin.y + dir.y * t, origin.z + dir.z * t)
  }

  /** Walking `d` further along a direction moves by exactly `d` times that direction. */
  lemma AlongStep(origin: Point3, dir: Point3, t: real, d: real)
    ensures Sub(Along(origin, dir, t + d), Along(origin, dir, t)) == Scale(dir, d)
  {
    assert dir.x * (t + d) - dir.x * t == dir.x * d;
    assert dir.y * (t + d) - dir.y * t == dir.y * d;
    assert dir.z * (t + d) - dir.z * t == dir.z * d;
  }

  /** A point at distance `s` along the direction of a segment of length `len` is the point
      at fraction `s / len` of the way from its start to its end. */
  lemma AlongIsInterpolation(from: Point3, to: Point3, len: real, s: real)
    requires len > 0.0
    ensures Along(from, Direction(from, to, len), s) == Along(from, Sub(to, from), s / len)
  {
    DivideThenScale(to.x - from.x, s, len);
    DivideThenScale(to.y - from.y, s, len);
    DivideThenScale(to.z - from.z, s, len);
  }

  /** The segment's end lies at its full length along its direction. */
  lemma AlongFullLength(from: Point3, to: Point3, len: real)
    requires len > 0.0
    ensures Along(from, Direction(from, to, len), len) == to
  {
    AlongIsInterpolation(from, to, len, len);
  }

  /** Dividing by `len` before or after scaling by `s` gives the same result. */
  lemma DivideThenScale(a: real, s: real, len: real)
    requires len > 0.0
    ensures (a / len) * s == a * (s / len)
  {
    var u, v := a / len, s / len;
    assert u * len == a;
    assert v * len == s;
    calc {
      u * s;
      u * (v * len);
      (u * len) * v;
      a * v;
    }
  }
}
