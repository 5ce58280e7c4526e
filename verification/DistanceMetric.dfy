/** What the distance transform needs of distances, and that `edgedf` and the
    square root provide it (freetype-gl/edtaa3func.c). */
module DistanceMetric {
  import opened EdgeMetric

  /** The two real functions that the transform uses. */
  datatype Metric = Metric(edge: (real, real, real) -> real, len: (int, int) -> real)

  ghost predicate MetricOk(m: Metric) {
    && (forall gx: real, gy: real, a: real :: 0.0 <= a <= 1.0 ==> -1.0 <= m.edge(gx, gy, a) <= 1.0)
    && (forall x: int, y: int :: LengthOk(m.len(x, y), x, y))
  }

  /** `l` is the length of the vector. */
  predicate LengthOk(l: real, x: int, y: int) {
    && l >= 0.0 && l * l == SquaredLength(x as real, y as real)
    && (l == 0.0 <==> x == 0 && y == 0) && l <= Abs(x as real) + Abs(y as real)
  }

  function SquaredLength(x: real, y: real): real {
    x * x + y * y
  }

  /** The metric of `distaa3`. */
  function RootMetric(sq: real -> real): Metric {
    Metric((gx, gy, a) => EdgeDf(sq, gx, gy, a), (x: int, y: int) => Length(sq, x as real, y as real))
  }

  lemma {:induction false} RootMetricOk(sq: real -> real)
    requires IsSqrt(sq)
    ensures MetricOk(RootMetric(sq))
  {
    var m := RootMetric(sq);
    forall gx: real, gy: real, a: real | 0.0 <= a <= 1.0
      ensures -1.0 <= m.edge(gx, gy, a) <= 1.0
    {
      EdgeBound(sq, gx, gy, a);
    }
    forall x: int, y: int ensures LengthOk(m.len(x, y), x, y) { LengthBound(sq, x as real, y as real); }
  }
}
