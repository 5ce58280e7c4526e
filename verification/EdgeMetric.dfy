/** Distances to the edge inside a grey pixel (`edgedf`), over the reals. */
module EdgeMetric {

  /** `sqrt`, on the numbers that have one. */
  ghost predicate IsSqrt(sq: real -> real) {
    forall v: real :: v >= 0.0 ==> IsRoot(sq(v), v)
  }

  predicate IsRoot(r: real, v: real) {
    r >= 0.0 && r * r == v
  }

  function Abs(v: real): real {
    if v < 0.0 then -v else v
  }

  function Under(gx: real, gy: real, a: real): real {
    2.0 * gx * gy * a
  }

  /** The part of `edgedf` for a direction of length 1 in the first octant. */
  function Octant(sq: real -> real, gx: real, gy: real, a: real): real
    requires gx > 0.0
  {
    var a1 := 0.5 * gy / gx;
    if a < a1 then 0.5 * (gx + gy) - sq(Under(gx, gy, a))
    else if a < 1.0 - a1 then (0.5 - a) * gx
    else -0.5 * (gx + gy) + sq(Under(gx, gy, 1.0 - a))
  }

  /** `edgedf`.  With a square root the last branch is never taken. */
  function EdgeDf(sq: real -> real, gx: real, gy: real, a: real): real {
    if gx == 0.0 || gy == 0.0 then 0.5 - a
    else
      var glength := sq(gx * gx + gy * gy);
      InOctant(sq, Side(gx, glength), Side(gy, glength), a)
  }

  /** A side of the direction, for a vector of length `l`. */
  function Side(g: real, l: real): real {
    Abs(if l > 0.0 then g / l else g)
  }

  /** Both sides are exchanged if the second one is larger. */
  function InOctant(sq: real -> real, nx: real, ny: real, a: real): real {
    var mx := if nx < ny then ny else nx;
    var my := if nx < ny then nx else ny;
    if mx > 0.0 then Octant(sq, mx, my, a) else 0.0
  }

  lemma {:induction false} SquarePositive(v: real)
    ensures v * v >= 0.0 && (v != 0.0 ==> v * v > 0.0)
  {
  }

  lemma {:induction false} RootBelow(r: real, v: real, b: real)
    requires IsRoot(r, v) && b >= 0.0 && v <= b * b
    ensures r <= b
  {
    if r > b { Products(r, b); }
  }

  lemma {:induction false} ProductPositive(a: real, b: real)
    requires a > 0.0 && b > 0.0
    ensures a * b > 0.0
  {
  }

  lemma {:induction false} ProductIs(a: real, b: real, p: real)
    requires a > 0.0 && b > 0.0 && p == a * b
    ensures p > 0.0
  {
  }

  lemma {:induction false} Products(r: real, b: real)
    requires r > b >= 0.0
    ensures r * r > b * b
  {
    assert r * r - b * b == (r - b) * (r + b);
    ProductPositive(r - b, r + b);
  }

  /** A side is not longer than the whole. */
  lemma {:induction false} SideBelow(g: real, l: real, p: real)
    requires g != 0.0 && l >= 0.0 && g * g <= p && l * l == p
    ensures l > 0.0 && 0.0 < Abs(g / l) <= 1.0
  {
    SquarePositive(g);
    if Abs(g) > l { Products(Abs(g), l); }
    OverBound(Abs(g), l);
    assert Abs(g / l) == Abs(g) / l;
  }

  lemma {:induction false} OverBound(a: real, l: real)
    requires 0.0 < a <= l
    ensures 0.0 < a / l <= 1.0
  {
  }

  lemma {:induction false} SumPositive(gx: real, gy: real)
    requires gx != 0.0
    ensures gx * gx + gy * gy > 0.0
  {
    SquarePositive(gx);
    SquarePositive(gy);
  }

  /** Under the root, `a` is at most the smaller side's share. */
  lemma {:induction false} Share(gx: real, gy: real, a: real)
    requires 0.0 < gx && 0.0 < gy && 0.0 <= a <= 0.5 * gy / gx
    ensures 0.0 <= Under(gx, gy, a) <= gy * gy
  {
    var a1 := 0.5 * gy / gx;
    assert a1 * gx == 0.5 * gy;
    var p := gx * gy;
    assert p > 0.0;
    OrderedProducts(a, a1, p, p * a, p * a1);
    assert p * a1 == (a1 * gx) * gy;
    assert p * a >= 0.0;
  }

  lemma {:induction false} OctantBound(sq: real -> real, gx: real, gy: real, a: real)
    requires IsSqrt(sq) && 0.0 < gy <= gx <= 1.0 && 0.0 <= a <= 1.0
    ensures -1.0 <= Octant(sq, gx, gy, a) <= 1.0
  {
    var a1 := 0.5 * gy / gx;
    assert Octant(sq, gx, gy, a) ==
      if a < a1 then 0.5 * (gx + gy) - sq(Under(gx, gy, a))
      else if a < 1.0 - a1 then (0.5 - a) * gx
      else -0.5 * (gx + gy) + sq(Under(gx, gy, 1.0 - a));
    if a < a1 {
      CornerBound(sq, gx, gy, a);
    } else if a < 1.0 - a1 {
      MiddleBound(gx, 0.5 - a);
    } else {
      FarCornerBound(sq, gx, gy, a, 1.0 - a);
    }
  }

  lemma {:induction false} CornerBound(sq: real -> real, gx: real, gy: real, a: real)
    requires IsSqrt(sq) && 0.0 < gy <= gx <= 1.0 && 0.0 <= a <= 0.5 * gy / gx
    ensures 0.0 <= 0.5 * (gx + gy) - sq(Under(gx, gy, a)) <= 1.0
  {
    Share(gx, gy, a);
    RootBelow(sq(Under(gx, gy, a)), Under(gx, gy, a), gy);
  }

  lemma {:induction false} FarCornerBound(sq: real -> real, gx: real, gy: real, a: real, b: real)
    requires IsSqrt(sq) && 0.0 < gy <= gx <= 1.0 && b == 1.0 - a && 0.0 <= b <= 0.5 * gy / gx
    ensures -1.0 <= -0.5 * (gx + gy) + sq(Under(gx, gy, 1.0 - a)) <= 1.0
  {
    CornerBound(sq, gx, gy, b);
  }

  lemma {:induction false} OrderedProducts(a: real, b: real, g: real, p: real, q: real)
    requires a <= b && g >= 0.0 && p == a * g && q == b * g
    ensures p <= q
  {
    if a < b && g > 0.0 { ProductIs(b - a, g, q - p); }
  }

  lemma {:induction false} MiddleBound(g: real, b: real)
    requires 0.0 <= g <= 1.0 && -0.5 <= b <= 0.5
    ensures -1.0 <= b * g <= 1.0
  {
    OrderedProducts(b, 0.5, g, b * g, 0.5 * g);
    OrderedProducts(-0.5, b, g, -0.5 * g, b * g);
  }

  lemma {:induction false} UnitSides(sq: real -> real, gx: real, gy: real)
    requires IsSqrt(sq) && gx != 0.0 && gy != 0.0
    ensures var l := sq(gx * gx + gy * gy); l > 0.0 && 0.0 < Abs(gx / l) <= 1.0 && 0.0 < Abs(gy / l) <= 1.0
  {
    SquarePositive(gx);
    SquarePositive(gy);
    SumPositive(gx, gy);
    var p := gx * gx + gy * gy;
    assert IsRoot(sq(p), p);
    SideBelow(gx, sq(p), p);
    SideBelow(gy, sq(p), p);
  }

  /** The distance to the edge is never more than a pixel. */
  lemma {:induction false} EdgeBound(sq: real -> real, gx: real, gy: real, a: real)
    requires IsSqrt(sq) && 0.0 <= a <= 1.0
    ensures -1.0 <= EdgeDf(sq, gx, gy, a) <= 1.0
  {
    if gx != 0.0 && gy != 0.0 {
      UnitSides(sq, gx, gy);
      var l := sq(gx * gx + gy * gy);
      var nx, ny := Abs(gx / l), Abs(gy / l);
      if nx < ny { OctantBound(sq, ny, nx, a); } else { OctantBound(sq, nx, ny, a); }
    }
  }

  // ----- the area that is covered -----

  /** Twice `gx * gy` times the area of the triangle that a line at distance `s`
      cuts off a corner. */
  function Corner(s: real): real {
    if s > 0.0 then s * s else 0.0
  }

  /** The half plane behind a line at distance `d` from the middle of a pixel,
      in a direction of length 1 with sides `gx` and `gy`, covers the share `a`
      of the pixel: the triangle at the first corner, without what sticks out of
      the pixel at the two next corners, which is too much by what sticks out at
      both. */
  predicate Covers(gx: real, gy: real, d: real, a: real) {
    var s := 0.5 * (gx + gy) - d;
    Corner(s) - Corner(s - gx) - Corner(s - gy) + Corner(s - gx - gy) == 2.0 * gx * gy * a
  }

  lemma {:induction false} CoversSwap(gx: real, gy: real, d: real, a: real)
    requires Covers(gx, gy, d, a)
    ensures Covers(gy, gx, d, a)
  {
    var s := 0.5 * (gx + gy) - d;
    assert s - gy - gx == s - gx - gy;
    assert 2.0 * gx * gy * a == 2.0 * gy * gx * a;
  }

  lemma {:induction false} OctantCovers(sq: real -> real, gx: real, gy: real, a: real)
    requires IsSqrt(sq) && 0.0 < gy <= gx && 0.0 <= a <= 1.0
    ensures Covers(gx, gy, Octant(sq, gx, gy, a), a)
  {
    var a1 := 0.5 * gy / gx;
    if a < a1 {
      CornerCovers(sq, gx, gy, a);
    } else if a < 1.0 - a1 {
      MiddleCovers(gx, gy, a);
    } else {
      FarCornerCovers(sq, gx, gy, a);
    }
  }

  /** The root of the share of a corner. */
  lemma {:induction false} CornerRoot(sq: real -> real, gx: real, gy: real, a: real) returns (r: real)
    requires IsSqrt(sq) && 0.0 < gy <= gx && 0.0 <= a <= 0.5 * gy / gx
    ensures r == sq(Under(gx, gy, a)) && 0.0 <= r <= gy && r * r == 2.0 * gx * gy * a
  {
    Share(gx, gy, a);
    r := sq(Under(gx, gy, a));
    assert IsRoot(r, Under(gx, gy, a));
    RootBelow(r, Under(gx, gy, a), gy);
  }

  lemma {:induction false} CornerCovers(sq: real -> real, gx: real, gy: real, a: real)
    requires IsSqrt(sq) && 0.0 < gy <= gx && 0.0 <= a <= 0.5 * gy / gx
    ensures Covers(gx, gy, 0.5 * (gx + gy) - sq(Under(gx, gy, a)), a)
  {
    var r := CornerRoot(sq, gx, gy, a);
  }

  lemma {:induction false} MiddleCovers(gx: real, gy: real, a: real)
    requires 0.0 < gy <= gx && 0.5 * gy / gx <= a < 1.0 - 0.5 * gy / gx
    ensures Covers(gx, gy, (0.5 - a) * gx, a)
  {
    var u := a * gx;
    MiddleRange(gx, gy, a, u);
    var s := 0.5 * gy + u;
    assert s == 0.5 * (gx + gy) - (0.5 - a) * gx;
    assert s * s - (s - gy) * (s - gy) == 2.0 * s * gy - gy * gy;
    assert 2.0 * gx * gy * a == 2.0 * u * gy;
  }

  lemma {:induction false} MiddleRange(gx: real, gy: real, a: real, u: real)
    requires 0.0 < gy <= gx && 0.5 * gy / gx <= a < 1.0 - 0.5 * gy / gx && u == a * gx
    ensures 0.5 * gy <= u <= gx - 0.5 * gy
  {
    var a1 := 0.5 * gy / gx;
    assert a1 * gx == 0.5 * gy;
    OrderedProducts(a1, a, gx, a1 * gx, u);
    OrderedProducts(a, 1.0 - a1, gx, u, (1.0 - a1) * gx);
    assert (1.0 - a1) * gx == gx - a1 * gx;
  }

  lemma {:induction false} FarCornerCovers(sq: real -> real, gx: real, gy: real, a: real)
    requires IsSqrt(sq) && 0.0 < gy <= gx && 0.0 <= 1.0 - a <= 0.5 * gy / gx
    ensures Covers(gx, gy, -0.5 * (gx + gy) + sq(Under(gx, gy, 1.0 - a)), a)
  {
    var r := CornerRoot(sq, gx, gy, 1.0 - a);
    FarCornerShares(gx, gy, r, a);
  }

  lemma {:induction false} FarCornerShares(gx: real, gy: real, r: real, a: real)
    requires 0.0 < gy <= gx && 0.0 <= r <= gy && r * r == 2.0 * gx * gy * (1.0 - a)
    ensures Covers(gx, gy, -0.5 * (gx + gy) + r, a)
  {
    var s := gx + gy - r;
    assert s == 0.5 * (gx + gy) - (-0.5 * (gx + gy) + r);
    FarCornerSquares(gx, gy, r, s, gx * gy, gx * r, gy * r);
    assert 2.0 * gx * gy * (1.0 - a) == 2.0 * gx * gy - 2.0 * gx * gy * a;
  }

  lemma {:induction false} FarCornerSquares(gx: real, gy: real, r: real, s: real, p: real, q: real, t: real)
    requires s == gx + gy - r && p == gx * gy && q == gx * r && t == gy * r
    ensures s * s - (s - gx) * (s - gx) - (s - gy) * (s - gy) == 2.0 * p - r * r
  {
    assert s * s == gx * gx + gy * gy + r * r + 2.0 * p - 2.0 * q - 2.0 * t;
    assert (s - gx) * (s - gx) == gy * gy - 2.0 * t + r * r;
    assert (s - gy) * (s - gy) == gx * gx - 2.0 * q + r * r;
  }

  /** The first octant stands for all others. */
  function Folded(sq: real -> real, nx: real, ny: real, a: real): real
    requires nx > 0.0 && ny > 0.0
  {
    if nx < ny then Octant(sq, ny, nx, a) else Octant(sq, nx, ny, a)
  }

  lemma {:induction false} FoldedIs(sq: real -> real, nx: real, ny: real, a: real)
    requires nx > 0.0 && ny > 0.0
    ensures Folded(sq, nx, ny, a) == InOctant(sq, nx, ny, a)
  {
  }

  lemma {:induction false} FoldedCovers(sq: real -> real, nx: real, ny: real, a: real)
    requires IsSqrt(sq) && 0.0 < nx && 0.0 < ny && 0.0 <= a <= 1.0
    ensures Covers(nx, ny, Folded(sq, nx, ny, a), a)
  {
    if nx < ny {
      OctantCovers(sq, ny, nx, a);
      CoversSwap(ny, nx, Octant(sq, ny, nx, a), a);
    } else {
      OctantCovers(sq, nx, ny, a);
    }
  }

  /** A direction of length 1. */
  ghost predicate Unit(gx: real, gy: real, l: real, nx: real, ny: real) {
    l > 0.0 && l * l == gx * gx + gy * gy && 0.0 < nx == Abs(gx / l) <= 1.0 && 0.0 < ny == Abs(gy / l) <= 1.0
  }

  lemma {:induction false} EdgeDfIs(sq: real -> real, gx: real, gy: real, a: real, l: real)
    requires gx != 0.0 && gy != 0.0 && l == sq(gx * gx + gy * gy)
    ensures EdgeDf(sq, gx, gy, a) == InOctant(sq, Side(gx, l), Side(gy, l), a)
  {
  }

  lemma {:induction false} EdgeFolded(sq: real -> real, gx: real, gy: real, a: real)
    returns (l: real, nx: real, ny: real)
    requires IsSqrt(sq) && gx != 0.0 && gy != 0.0
    ensures Unit(gx, gy, l, nx, ny) && EdgeDf(sq, gx, gy, a) == Folded(sq, nx, ny, a)
  {
    UnitSides(sq, gx, gy);
    SumPositive(gx, gy);
    l := sq(gx * gx + gy * gy);
    assert IsRoot(l, gx * gx + gy * gy);
    nx, ny := Side(gx, l), Side(gy, l);
    EdgeDfIs(sq, gx, gy, a, l);
    FoldedIs(sq, nx, ny, a);
  }

  /** The edge is where the half plane behind it covers the grey value of the
      pixel: a band, if the edge is straight, or up to three triangles. */
  lemma {:induction false} EdgeCovers(sq: real -> real, gx: real, gy: real, a: real)
    returns (l: real, nx: real, ny: real)
    requires IsSqrt(sq) && 0.0 <= a <= 1.0
    ensures var d := EdgeDf(sq, gx, gy, a);
            if gx == 0.0 || gy == 0.0 then 0.5 - d == a else Unit(gx, gy, l, nx, ny) && Covers(nx, ny, d, a)
  {
    if gx == 0.0 || gy == 0.0 {
      l, nx, ny := 0.0, 0.0, 0.0;
    } else {
      l, nx, ny := EdgeFolded(sq, gx, gy, a);
      FoldedCovers(sq, nx, ny, a);
    }
  }

  /** Black and white changed, the edge is on the other side. */
  lemma {:induction false} EdgeOpposite(sq: real -> real, gx: real, gy: real, a: real)
    requires IsSqrt(sq) && 0.0 <= a <= 1.0
    ensures EdgeDf(sq, gx, gy, 1.0 - a) == -EdgeDf(sq, gx, gy, a)
  {
    if gx != 0.0 && gy != 0.0 {
      var l, nx, ny := EdgeFolded(sq, gx, gy, a);
      var l', nx', ny' := EdgeFolded(sq, gx, gy, 1.0 - a);
      RootsEqual(l, l', l * l);
      if nx < ny { OctantOpposite(sq, ny, nx, a); } else { OctantOpposite(sq, nx, ny, a); }
    }
  }

  lemma {:induction false} RootsEqual(r: real, r': real, v: real)
    requires IsRoot(r, v) && IsRoot(r', v)
    ensures r == r'
  {
    if r < r' { Products(r', r); }
    if r' < r { Products(r, r'); }
  }

  /** On the boundary of a corner both formulas agree. */
  lemma {:induction false} CornerEdge(sq: real -> real, gx: real, gy: real, a: real)
    requires IsSqrt(sq) && 0.0 < gy <= gx && a == 0.5 * gy / gx
    ensures sq(Under(gx, gy, a)) == gy && (0.5 - a) * gx == 0.5 * (gx + gy) - gy
  {
    var r := CornerRoot(sq, gx, gy, a);
    assert a * gx == 0.5 * gy;
    assert 2.0 * gx * gy * a == 2.0 * (a * gx) * gy;
    RootsEqual(r, gy, gy * gy);
  }

  lemma {:induction false} OctantOpposite(sq: real -> real, gx: real, gy: real, a: real)
    requires IsSqrt(sq) && 0.0 < gy <= gx && 0.0 <= a <= 1.0
    ensures Octant(sq, gx, gy, 1.0 - a) == -Octant(sq, gx, gy, a)
  {
    var a1, b := 0.5 * gy / gx, 1.0 - a;
    assert 1.0 - b == a && (0.5 - b) * gx == -((0.5 - a) * gx);
    if a == a1 || b == a1 { CornerEdge(sq, gx, gy, a1); }
  }

  /** More of the object in the pixel never moves the edge away. */
  lemma {:induction false} EdgeMonotone(sq: real -> real, gx: real, gy: real, a: real, b: real)
    requires IsSqrt(sq) && 0.0 <= a <= b <= 1.0
    ensures EdgeDf(sq, gx, gy, b) <= EdgeDf(sq, gx, gy, a)
  {
    if gx != 0.0 && gy != 0.0 {
      var l, nx, ny := EdgeFolded(sq, gx, gy, a);
      var l', nx', ny' := EdgeFolded(sq, gx, gy, b);
      RootsEqual(l, l', l * l);
      if nx < ny { OctantMonotone(sq, ny, nx, a, b); } else { OctantMonotone(sq, nx, ny, a, b); }
    }
  }

  lemma {:induction false} CornerMonotone(sq: real -> real, gx: real, gy: real, a: real, b: real)
    requires IsSqrt(sq) && 0.0 < gy <= gx && 0.0 <= a <= b <= 0.5 * gy / gx
    ensures sq(Under(gx, gy, a)) <= sq(Under(gx, gy, b)) <= gy
  {
    var r := CornerRoot(sq, gx, gy, a);
    var r' := CornerRoot(sq, gx, gy, b);
    var p := 2.0 * gx * gy;
    OrderedProducts(a, b, p, a * p, b * p);
    if r > r' { Products(r, r'); }
  }

  /** In the middle the distance stays within half the difference of the sides,
      in the corners outside of it. */
  lemma {:induction false} OctantRange(sq: real -> real, gx: real, gy: real, a: real)
    requires IsSqrt(sq) && 0.0 < gy <= gx && 0.0 <= a <= 1.0
    ensures var a1 := 0.5 * gy / gx; var d := Octant(sq, gx, gy, a);
            if a < a1 then d >= 0.5 * (gx - gy)
            else if a < 1.0 - a1 then -0.5 * (gx - gy) <= d <= 0.5 * (gx - gy)
            else d <= -0.5 * (gx - gy)
  {
    var a1 := 0.5 * gy / gx;
    if a < a1 {
      var r := CornerRoot(sq, gx, gy, a);
    } else if a < 1.0 - a1 {
      MiddleRange(gx, gy, a, a * gx);
      assert (0.5 - a) * gx == 0.5 * gx - a * gx;
    } else {
      var r := CornerRoot(sq, gx, gy, 1.0 - a);
    }
  }

  lemma {:induction false} OctantMonotone(sq: real -> real, gx: real, gy: real, a: real, b: real)
    requires IsSqrt(sq) && 0.0 < gy <= gx && 0.0 <= a <= b <= 1.0
    ensures Octant(sq, gx, gy, b) <= Octant(sq, gx, gy, a)
  {
    var a1 := 0.5 * gy / gx;
    OctantRange(sq, gx, gy, a);
    OctantRange(sq, gx, gy, b);
    if b < a1 {
      CornerMonotone(sq, gx, gy, a, b);
    } else if a1 <= a && b < 1.0 - a1 {
      OrderedProducts(0.5 - b, 0.5 - a, gx, (0.5 - b) * gx, (0.5 - a) * gx);
    } else if a >= a1 && a >= 1.0 - a1 {
      CornerMonotone(sq, gx, gy, 1.0 - b, 1.0 - a);
    }
  }

  /** The length of a vector. */
  function Length(sq: real -> real, a: real, b: real): real {
    sq(a * a + b * b)
  }

  lemma {:induction false} LengthBound(sq: real -> real, a: real, b: real)
    requires IsSqrt(sq)
    ensures var l := Length(sq, a, b);
            && l >= 0.0 && l * l == a * a + b * b
            && (l == 0.0 <==> a == 0.0 && b == 0.0) && l <= Abs(a) + Abs(b)
  {
    var r := sq(a * a + b * b);
    assert IsRoot(r, a * a + b * b);
    RootNonZero(r, a, b);
    RootLength(r, a, b);
  }

  lemma {:induction false} RootNonZero(r: real, a: real, b: real)
    requires IsRoot(r, a * a + b * b)
    ensures r == 0.0 <==> a == 0.0 && b == 0.0
  {
    var p, q := a * a, b * b;
    SquareSign(a, p);
    SquareSign(b, q);
    RootZero(r, p, q);
  }

  lemma {:induction false} SquareSign(a: real, p: real)
    requires p == a * a
    ensures if a == 0.0 then p == 0.0 else p > 0.0
  {
    if a > 0.0 { ProductIs(a, a, p); }
    if a < 0.0 { ProductIs(-a, -a, p); }
  }

  lemma {:induction false} RootZero(r: real, p: real, q: real)
    requires IsRoot(r, p + q) && p >= 0.0 && q >= 0.0
    ensures r == 0.0 <==> p == 0.0 && q == 0.0
  {
    RootSign(r, p + q);
  }

  lemma {:induction false} RootSign(r: real, v: real)
    requires IsRoot(r, v)
    ensures if r == 0.0 then v == 0.0 else v > 0.0
  {
    if r > 0.0 { ProductIs(r, r, v); }
  }

  lemma {:induction false} RootLength(r: real, a: real, b: real)
    requires IsRoot(r, a * a + b * b)
    ensures r <= Abs(a) + Abs(b)
  {
    var s := Abs(a) + Abs(b);
    assert Abs(a) * Abs(b) >= 0.0;
    assert Abs(a) * Abs(a) == a * a && Abs(b) * Abs(b) == b * b;
    assert s * s == a * a + b * b + 2.0 * (Abs(a) * Abs(b));
    RootBelow(r, a * a + b * b, s);
  }
}
