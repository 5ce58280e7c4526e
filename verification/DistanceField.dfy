/** The state of the distance transform: for every pixel a vector from the
    object pixel that is thought to be closest, and a distance
    (freetype-gl/edtaa3func.c). */
module DistanceField {
  import opened EdgeMetric
  import opened DistanceMetric

  const NOT_SET: real := 1000000.0
  const EPSILON: real := 0.001

  /** The inputs of `edtaa3`. */
  datatype Scene = Scene(m: Metric, w: nat, h: nat, img: seq<real>, gx: seq<real>, gy: seq<real>)

  ghost predicate SceneOk(sc: Scene) {
    MetricOk(sc.m) && (sc.w >= 2 || sc.h <= 1) && |sc.img| == |sc.gx| == |sc.gy| == At(sc.w, 0, sc.h)
  }

  datatype Field = Field(dx: seq<int>, dy: seq<int>, d: seq<real>)

  // ----- pixels -----

  predicate InImage(sc: Scene, x: int, y: int) {
    0 <= x < sc.w && 0 <= y < sc.h
  }

  /** The index of a pixel, behind `y` rows. */
  function At(w: nat, x: int, y: int): int {
    if y <= 0 then x else At(w, x, y - 1) + w
  }

  lemma {:induction false} AtIs(w: nat, x: int, y: int)
    requires y >= 0
    ensures At(w, x, y) == y * w + x
    decreases y
  {
    if y > 0 {
      AtIs(w, x, y - 1);
      assert (y - 1) * w + w == y * w;
    }
  }

  lemma {:induction false} AtBound(w: nat, h: nat, x: int, y: int)
    requires 0 <= x < w && 0 <= y < h
    ensures 0 <= At(w, x, y) < At(w, 0, h)
    decreases h
  {
    if y > 0 { AtBound(w, h - 1, x, y - 1); } else if h > 1 { AtBound(w, h - 1, x, y); }
  }

  lemma {:induction false} AtInjective(w: nat, x: int, y: int, x': int, y': int)
    requires 0 <= x < w && 0 <= x' < w && 0 <= y && 0 <= y' && At(w, x, y) == At(w, x', y')
    ensures x == x' && y == y'
    decreases y
  {
    if y > 0 && y' > 0 {
      AtInjective(w, x, y - 1, x', y' - 1);
    } else if y > 0 {
      AtBound(w, y, x, y - 1);
    } else if y' > 0 {
      AtBound(w, y', x', y' - 1);
    }
  }

  lemma {:induction false} AtMoved(w: nat, x: int, y: int, ox: int, oy: int)
    requires 0 <= y && 0 <= y + oy
    ensures At(w, x + ox, y + oy) == At(w, x, y) + oy * w + ox
  {
    AtIs(w, x, y);
    AtIs(w, x + ox, y + oy);
    assert (y + oy) * w == y * w + oy * w;
  }

  lemma {:induction false} AtCoordinates(w: nat, h: nat, i: nat) returns (x: nat, y: nat)
    requires w > 0 && i < At(w, 0, h)
    ensures x < w && y < h && At(w, x, y) == i
    decreases h
  {
    if i < w {
      x, y := i, 0;
    } else {
      x, y := AtCoordinates(w, h - 1, i - w);
      y := y + 1;
    }
  }

  // ----- distances -----

  function Value(s: seq<real>, i: int): real {
    if 0 <= i < |s| then s[i] else 0.0
  }

  /** The first estimate of a pixel. */
  function Init(sc: Scene, i: int): real {
    var a := Value(sc.img, i);
    if a <= 0.0 then NOT_SET
    else if a < 1.0 then sc.m.edge(Value(sc.gx, i), Value(sc.gy, i), a)
    else 0.0
  }

  function Clipped(a: real): real {
    if a > 1.0 then 1.0 else if a < 0.0 then 0.0 else a
  }

  /** The distance to pixel `p` along the vector (xi, yi). */
  function Distance(sc: Scene, p: int, xi: int, yi: int): real {
    var a := Clipped(Value(sc.img, p));
    if a == 0.0 then NOT_SET
    else
      var di := sc.m.len(xi, yi);
      di + (if di == 0.0 then sc.m.edge(Value(sc.gx, p), Value(sc.gy, p), a) else sc.m.edge(xi as real, yi as real, a))
  }

  /** `distaa3`: the pixel that `c` points to is the closest. */
  function Distaa3(sc: Scene, c: int, xc: int, yc: int, xi: int, yi: int): real
    requires 0 <= c - xc - yc * sc.w < |sc.img| == |sc.gx| == |sc.gy|
  {
    Distance(sc, c - xc - yc * sc.w, xi, yi)
  }

  lemma {:induction false} MetricBound(m: Metric, gx: real, gy: real, a: real, x: int, y: int)
    requires MetricOk(m) && 0.0 <= a <= 1.0
    ensures -1.0 <= m.edge(gx, gy, a) <= 1.0 && LengthOk(m.len(x, y), x, y)
  {
  }

  lemma {:induction false} DistanceBound(sc: Scene, p: int, xi: int, yi: int)
    requires MetricOk(sc.m)
    ensures -1.0 <= Distance(sc, p, xi, yi)
    ensures Value(sc.img, p) > 0.0 ==> Distance(sc, p, xi, yi) <= Abs(xi as real) + Abs(yi as real) + 1.0
    ensures Value(sc.img, p) <= 0.0 ==> Distance(sc, p, xi, yi) == NOT_SET
    ensures Value(sc.img, p) < 1.0 ==> Distance(sc, p, 0, 0) == Init(sc, p)
  {
    var a := Clipped(Value(sc.img, p));
    MetricBound(sc.m, Value(sc.gx, p), Value(sc.gy, p), a, xi, yi);
    MetricBound(sc.m, xi as real, yi as real, a, 0, 0);
  }

  lemma {:induction false} InitBound(sc: Scene, p: int)
    requires MetricOk(sc.m)
    ensures -1.0 <= Init(sc, p) <= NOT_SET
    ensures Value(sc.img, p) > 0.0 ==> Init(sc, p) <= 1.0
    ensures Value(sc.img, p) >= 1.0 ==> Init(sc, p) == 0.0
  {
    var a := Value(sc.img, p);
    if 0.0 < a < 1.0 { MetricBound(sc.m, Value(sc.gx, p), Value(sc.gy, p), a, 0, 0); }
  }

  // ----- what the sweeps keep -----

  ghost predicate FieldSized(sc: Scene, f: Field) {
    |f.dx| == |f.dy| == |f.d| == |sc.img|
  }

  /** The distance that goes with a vector to pixel `p` at pixel `i`. */
  function Attributed(sc: Scene, i: int, p: int, dx: int, dy: int): real {
    if dx == 0 && dy == 0 then Init(sc, i) else Distance(sc, p, dx, dy)
  }

  /** The vector stays in the image, the distance is that of the vector, and it
      is no worse than the first estimate. */
  ghost predicate VectorOk(sc: Scene, x: int, y: int, i: int, dx: int, dy: int, d: real) {
    && InImage(sc, x - dx, y - dy)
    && d == Attributed(sc, i, At(sc.w, x - dx, y - dy), dx, dy)
    && d <= Init(sc, i)
  }

  ghost predicate PixelOk(sc: Scene, f: Field, x: int, y: int)
    requires FieldSized(sc, f)
  {
    var i := At(sc.w, x, y);
    0 <= i < |f.d| && VectorOk(sc, x, y, i, f.dx[i], f.dy[i], f.d[i])
  }

  ghost predicate Sound(sc: Scene, f: Field) {
    && FieldSized(sc, f)
    && forall x, y {:trigger PixelOk(sc, f, x, y)} | InImage(sc, x, y) :: PixelOk(sc, f, x, y)
  }

  /** Distances below "not set" belong to a pixel of the object. */
  lemma {:induction false} SetMeansObject(sc: Scene, f: Field, x: int, y: int)
    requires SceneOk(sc) && Sound(sc, f) && InImage(sc, x, y)
    ensures var i := At(sc.w, x, y);
            && 0 <= i < |f.d| && InImage(sc, x - f.dx[i], y - f.dy[i])
            && (f.d[i] < NOT_SET ==> Value(sc.img, At(sc.w, x - f.dx[i], y - f.dy[i])) > 0.0)
  {
    assert PixelOk(sc, f, x, y);
    var i := At(sc.w, x, y);
    DistanceBound(sc, At(sc.w, x - f.dx[i], y - f.dy[i]), f.dx[i], f.dy[i]);
  }

  /** The distance of a pixel is the length of its vector and the distance to the
      edge in the object pixel `p` that the vector comes from, seen along the
      vector; without one, it is the distance to the edge in the pixel itself. */
  ghost predicate TrueDistance(sc: Scene, p: int, dx: int, dy: int, d: real) {
    var a := Value(sc.img, p);
    var dx', dy' := dx as real, dy as real;
    var g := if a > 1.0 then 1.0 else a;
    if dx == 0 && dy == 0 then
      d == if a >= 1.0 then 0.0 else sc.m.edge(Value(sc.gx, p), Value(sc.gy, p), a)
    else
      var l := d - sc.m.edge(dx', dy', g);
      l > 0.0 && l * l == SquaredLength(dx', dy')
  }

  lemma {:induction false} AttributedTrue(sc: Scene, p: int, dx: int, dy: int)
    requires MetricOk(sc.m) && Value(sc.img, p) > 0.0
    ensures TrueDistance(sc, p, dx, dy, Attributed(sc, p, p, dx, dy))
  {
    assert LengthOk(sc.m.len(dx, dy), dx, dy);
  }

  /** A distance that is set is true, for a pixel of the object. */
  ghost predicate PixelTrue(sc: Scene, f: Field, x: int, y: int)
    requires FieldSized(sc, f)
  {
    var i := At(sc.w, x, y);
    && 0 <= i < |f.d|
    && (f.d[i] < NOT_SET ==>
          var px, py := x - f.dx[i], y - f.dy[i];
          && InImage(sc, px, py) && Value(sc.img, At(sc.w, px, py)) > 0.0
          && TrueDistance(sc, At(sc.w, px, py), f.dx[i], f.dy[i], f.d[i]))
  }

  ghost predicate AllTrue(sc: Scene, f: Field)
    requires FieldSized(sc, f)
  {
    forall x, y {:trigger PixelTrue(sc, f, x, y)} | InImage(sc, x, y) :: PixelTrue(sc, f, x, y)
  }

  /** Set distances are Euclidean, up to the pixel with the edge. */
  lemma {:induction false} SoundIsTrue(sc: Scene, f: Field)
    requires SceneOk(sc) && Sound(sc, f)
    ensures AllTrue(sc, f)
  {
    forall x, y | InImage(sc, x, y) ensures PixelTrue(sc, f, x, y) {
      SetMeansObject(sc, f, x, y);
      assert PixelOk(sc, f, x, y);
      var i := At(sc.w, x, y);
      if f.d[i] < NOT_SET {
        AttributedTrue(sc, At(sc.w, x - f.dx[i], y - f.dy[i]), f.dx[i], f.dy[i]);
      }
    }
  }

  // ----- progress -----

  /** A distance in whole steps of EPSILON above -1. */
  function Units(v: real): nat {
    if v < -1.0 then 0 else ((v + 1.0) * 1000.0).Floor
  }

  function Energy(d: seq<real>): nat {
    if d == [] then 0 else Energy(d[..|d| - 1]) + Units(d[|d| - 1])
  }

  lemma {:induction false} UnitsDrop(v: real, v': real)
    requires -1.0 <= v' < v - EPSILON
    ensures Units(v') < Units(v)
  {
    assert (v' + 1.0) * 1000.0 < (v + 1.0) * 1000.0 - 1.0;
  }

  lemma {:induction false} EnergyDrops(d: seq<real>, i: nat, v: real)
    requires i < |d| && -1.0 <= v < d[i] - EPSILON
    ensures Energy(d[i := v]) < Energy(d)
    decreases |d|
  {
    var n := |d| - 1;
    if i < n {
      assert d[i := v][..n] == d[..n][i := v];
      EnergyDrops(d[..n], i, v);
    } else {
      assert d[i := v][..n] == d[..n];
      UnitsDrop(d[i], v);
    }
  }

  // ----- propagation from a neighbour -----

  datatype Dir = Dir(ox: int, oy: int)

  const U := Dir(0, -1)
  const UR := Dir(1, -1)
  const R := Dir(1, 0)
  const RD := Dir(1, 1)
  const D := Dir(0, 1)
  const DL := Dir(-1, 1)
  const L := Dir(-1, 0)
  const LU := Dir(-1, -1)

  predicate Has(sc: Scene, x: int, y: int, dir: Dir) {
    InImage(sc, x, y) && InImage(sc, x + dir.ox, y + dir.oy)
  }

  /** What the neighbour in direction `dir` offers to a pixel. */
  ghost function Offer(sc: Scene, f: Field, x: int, y: int, dir: Dir): real
    requires Sound(sc, f) && Has(sc, x, y, dir)
  {
    var cx, cy := x + dir.ox, y + dir.oy;
    assert PixelOk(sc, f, cx, cy);
    var c := At(sc.w, cx, cy);
    OfferBy(sc, cx, cy, f.dx[c], f.dy[c], dir)
  }

  /** The offer of a pixel with the vector (dx, dy). */
  function OfferBy(sc: Scene, cx: int, cy: int, dx: int, dy: int, dir: Dir): real {
    Distance(sc, At(sc.w, cx - dx, cy - dy), dx - dir.ox, dy - dir.oy)
  }

  /** The offer is not better by more than EPSILON, or the pixel is done. */
  ghost predicate Quiet(sc: Scene, f: Field, x: int, y: int, dir: Dir)
    requires Sound(sc, f)
  {
    if !Has(sc, x, y, dir) then true
    else
      assert PixelOk(sc, f, x, y);
      var d := f.d[At(sc.w, x, y)];
      d > 0.0 ==> Offer(sc, f, x, y, dir) >= d - EPSILON
  }

  function Moved(f: Field, i: int, dx: int, dy: int, d: real): Field
    requires 0 <= i < |f.dx| == |f.dy| == |f.d|
  {
    Field(f.dx[i := dx], f.dy[i := dy], f.d[i := d])
  }

  /** A good vector for one pixel keeps everything sound. */
  lemma {:induction false} MovedSound(sc: Scene, f: Field, x: int, y: int, i: int, dx: int, dy: int, d: real)
    requires Sound(sc, f) && InImage(sc, x, y) && i == At(sc.w, x, y) && 0 <= i < |f.d|
             && VectorOk(sc, x, y, i, dx, dy, d)
    ensures Sound(sc, Moved(f, i, dx, dy, d))
  {
    var f' := Moved(f, i, dx, dy, d);
    forall x', y' | InImage(sc, x', y') ensures PixelOk(sc, f', x', y') {
      assert PixelOk(sc, f, x', y');
      if At(sc.w, x', y') == i { AtInjective(sc.w, x, y, x', y'); }
    }
  }

  /** A better offer gives a good vector. */
  lemma {:induction false} OfferOk(
    sc: Scene, x: int, y: int, i: int, d: real, cx: int, cy: int, c: int, dx: int, dy: int, dir: Dir)
    requires MetricOk(sc.m) && Value(sc.img, i) < 1.0 && i == At(sc.w, x, y) && cx == x + dir.ox && cy == y + dir.oy
    requires InImage(sc, cx - dx, cy - dy) && d <= Init(sc, i) && OfferBy(sc, cx, cy, dx, dy, dir) < d
    ensures VectorOk(sc, x, y, i, dx - dir.ox, dy - dir.oy, OfferBy(sc, cx, cy, dx, dy, dir))
    ensures OfferBy(sc, cx, cy, dx, dy, dir) >= -1.0
  {
    var dx', dy' := dx - dir.ox, dy - dir.oy;
    assert x - dx' == cx - dx && y - dy' == cy - dy;
    DistanceBound(sc, At(sc.w, x - dx', y - dy'), dx', dy');
  }

  /** A sound state with less energy. */
  ghost predicate Better(sc: Scene, f: Field, f': Field) {
    Sound(sc, f') && Energy(f'.d) < Energy(f.d)
  }

  lemma {:induction false} OfferIs(sc: Scene, f: Field, x: int, y: int, dir: Dir, c: int)
    requires Sound(sc, f) && Has(sc, x, y, dir) && c == At(sc.w, x + dir.ox, y + dir.oy)
    ensures 0 <= c < |f.dx| == |f.dy| && InImage(sc, x + dir.ox - f.dx[c], y + dir.oy - f.dy[c])
    ensures Offer(sc, f, x, y, dir) == OfferBy(sc, x + dir.ox, y + dir.oy, f.dx[c], f.dy[c], dir)
  {
    assert PixelOk(sc, f, x + dir.ox, y + dir.oy);
  }

  lemma {:induction false} OwnDistance(sc: Scene, f: Field, x: int, y: int, i: int)
    requires Sound(sc, f) && InImage(sc, x, y) && i == At(sc.w, x, y)
    ensures 0 <= i < |f.d| && f.d[i] <= Init(sc, i)
  {
    assert PixelOk(sc, f, x, y);
  }

  /** Taking a better offer keeps everything sound and makes progress. */
  lemma {:induction false} TakeOffer(sc: Scene, f: Field, x: int, y: int, dir: Dir, i: int, c: int)
    requires MetricOk(sc.m) && Sound(sc, f) && Has(sc, x, y, dir)
    requires i == At(sc.w, x, y) && c == At(sc.w, x + dir.ox, y + dir.oy) && 0 <= i < |f.d| && 0 <= c < |f.d|
    requires Value(sc.img, i) < 1.0 && Offer(sc, f, x, y, dir) < f.d[i] - EPSILON
    ensures var f' := Moved(f, i, f.dx[c] - dir.ox, f.dy[c] - dir.oy, Offer(sc, f, x, y, dir));
            Better(sc, f, f')
  {
    OfferIs(sc, f, x, y, dir, c);
    OwnDistance(sc, f, x, y, i);
    TakeVector(sc, f, x, y, dir, i, f.d[i], x + dir.ox, y + dir.oy, c, f.dx[c], f.dy[c]);
  }

  lemma {:induction false} TakeVector(
    sc: Scene, f: Field, x: int, y: int, dir: Dir, i: int, d: real, cx: int, cy: int, c: int, dx: int, dy: int)
    requires MetricOk(sc.m) && Sound(sc, f) && InImage(sc, x, y) && Value(sc.img, i) < 1.0
    requires i == At(sc.w, x, y) && 0 <= i < |f.d| && d == f.d[i] && d <= Init(sc, i)
    requires cx == x + dir.ox && cy == y + dir.oy && InImage(sc, cx - dx, cy - dy)
    requires OfferBy(sc, cx, cy, dx, dy, dir) < d - EPSILON
    ensures var f' := Moved(f, i, dx - dir.ox, dy - dir.oy, OfferBy(sc, cx, cy, dx, dy, dir));
            Better(sc, f, f')
  {
    OfferOk(sc, x, y, i, d, cx, cy, c, dx, dy, dir);
    MovedSound(sc, f, x, y, i, dx - dir.ox, dy - dir.oy, OfferBy(sc, cx, cy, dx, dy, dir));
    EnergyDrops(f.d, i, OfferBy(sc, cx, cy, dx, dy, dir));
  }

  /** The index arithmetic of `distaa3`. */
  lemma {:induction false} ClosestIndex(sc: Scene, f: Field, x: int, y: int, dir: Dir, c: int)
    requires SceneOk(sc) && Sound(sc, f) && Has(sc, x, y, dir)
    requires c == At(sc.w, x, y) + dir.oy * sc.w + dir.ox
    ensures 0 <= c < |f.d| && c == At(sc.w, x + dir.ox, y + dir.oy)
    ensures 0 <= c - f.dx[c] - f.dy[c] * sc.w < |sc.img|
    ensures Distaa3(sc, c, f.dx[c], f.dy[c], f.dx[c] - dir.ox, f.dy[c] - dir.oy) == Offer(sc, f, x, y, dir)
  {
    AtMoved(sc.w, x, y, dir.ox, dir.oy);
    assert PixelOk(sc, f, x + dir.ox, y + dir.oy);
    ClosestOffer(sc, x + dir.ox, y + dir.oy, c, f.dx[c], f.dy[c], dir);
  }

  lemma {:induction false} ClosestOffer(sc: Scene, cx: int, cy: int, c: int, dx: int, dy: int, dir: Dir)
    requires SceneOk(sc) && InImage(sc, cx, cy) && InImage(sc, cx - dx, cy - dy) && c == At(sc.w, cx, cy)
    ensures 0 <= c - dx - dy * sc.w < |sc.img|
    ensures Distaa3(sc, c, dx, dy, dx - dir.ox, dy - dir.oy) == OfferBy(sc, cx, cy, dx, dy, dir)
  {
    ClosestAt(sc, cx, cy, dx, dy);
  }

  lemma {:induction false} ClosestAt(sc: Scene, cx: int, cy: int, dx: int, dy: int)
    requires SceneOk(sc) && InImage(sc, cx, cy) && InImage(sc, cx - dx, cy - dy)
    ensures 0 <= At(sc.w, cx - dx, cy - dy) < |sc.img|
    ensures At(sc.w, cx - dx, cy - dy) == At(sc.w, cx, cy) - dx - dy * sc.w
  {
    AtBound(sc.w, sc.h, cx - dx, cy - dy);
    AtMoved(sc.w, cx - dx, cy - dy, dx, dy);
  }
}
