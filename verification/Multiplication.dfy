/** Double-cell products from half-cell pieces, and division by a stored
    reciprocal (engine/dblsub.c, engine/longlong.h, engine/engine.c). */
module Multiplication {
  import opened Basics
  import opened Words
  import opened Division

  lemma {:induction false} DistributeLeft(x: int, y: int, z: int)
    ensures x * (y + z) == x * y + x * z
  {
  }

  lemma {:induction false} Swap(x: int, y: int, z: int)
    ensures (x * y) * z == (x * z) * y
  {
    MulAssoc(x, y, z);
    MulAssoc(x, z, y);
  }

  lemma {:induction false} FourFactors(s: int, t: int, w: int)
    ensures (s * w) * (t * w) == (s * t) * (w * w)
  {
    MulAssoc(s, w, t * w);
    MulAssoc(s, t, w * w);
    assert w * (t * w) == t * (w * w) by { MulAssoc(t, w, w); }
  }

  /** A product in terms of the products of the half cells. */
  lemma {:induction false} Pieces(b: int, w: int, ah: int, al: int, bh: int, bl: int)
    requires w == b * b
    ensures (ah * b + al) * (bh * b + bl) == (ah * bh) * w + (ah * bl + al * bh) * b + al * bl
  {
    Distribute(ah * b, al, bh * b + bl);
    DistributeLeft(ah * b, bh * b, bl);
    DistributeLeft(al, bh * b, bl);
    FourFactors(ah, bh, b);
    Swap(ah, b, bl);
    MulAssoc(al, bh, b);
    Distribute(ah * bl, al * bh, b);
  }

  lemma {:induction false} Small(b: int, x: int, y: int)
    requires 0 <= x < b && 0 <= y < b
    ensures 0 <= x * y <= (b - 1) * (b - 1) < b * b
  {
    MulLe(x, b - 1, y);
    MulLe(y, b - 1, b - 1);
    MulLe(0, x, y);
    assert (b - 1) * y == y * (b - 1);
    assert (b - 1) * (b - 1) == b * b - 2 * b + 1;
  }

  method Add(w: nat, x: nat, y: nat) returns (r: nat)
    requires x < w && y < w
    ensures r == if x + y < w then x + y else x + y - w
  {
    ModOnce(x + y, w);
    r := (x + y) % w;
  }

  /** `UH` and `LH`. */
  method Halves(b: nat, w: nat, x: nat) returns (hi: nat, lo: nat)
    requires b > 0 && w == b * b && x < w
    ensures x == hi * b + lo && hi < b && lo < b
  {
    HalfParts(b, w, x);
    hi, lo := x / b, x % b;
  }

  /** `L2U(x)`: the low half moved up, within a cell. */
  method L2U(b: nat, w: nat, ghost hi: nat, lo: nat, x: nat) returns (r: nat)
    requires b > 0 && w == b * b && x == hi * b + lo && lo < b && hi < b
    ensures r == lo * b < w
  {
    MulLt(lo, b, b);
    Distribute(hi * b, lo, b);
    MulAssoc(hi, b, b);
    DivUnique(x * b, w, hi, lo * b);
    r := (x * b) % w;
  }

  /** The pieces of a product in terms of the low cell `m` of the sum of the
      mixed products. */
  lemma {:induction false} Regroup(b: int, w: int, uu: int, mid: int, ll: int, c: int, m: int, mh: int, ml: int)
    requires w == b * b && mid == m + c * w && m == mh * b + ml
    ensures uu * w + mid * b + ll == (uu + c * b + mh) * w + (ml * b + ll)
  {
    Distribute(m, c * w, b);
    Distribute(mh * b, ml, b);
    MulAssoc(mh, b, b);
    Distribute(uu + c * b, mh, w);
    Distribute(uu, c * b, w);
    assert c * w * b == c * b * w;
  }

  /** The carries in `ummul` make up the high cell `k` of the product. */
  lemma {:induction false} Carries(
    b: int, w: int, x: int, k: int, lo: int, uu: int, ul: int, lu: int, ll: int, m: int, mh: int, ml: int)
    requires w == b * b && b > 0 && 0 <= ul < w && 0 <= lu < w && 0 <= ll < w && 0 <= lo < w
    requires x == uu * w + (ul + lu) * b + ll && x == k * w + lo
    requires m == (if ul + lu < w then ul + lu else ul + lu - w) && m == mh * b + ml && 0 <= ml * b < w
    ensures k == uu + (if m < ul then b else 0) + mh + (if lo < ml * b then 1 else 0)
  {
    var c := if m < ul then 1 else 0;
    Regroup(b, w, uu, ul + lu, ll, c, m, mh, ml);
    var low := ml * b + ll;
    var high := uu + c * b + mh;
    DivUnique(x, w, k, lo);
    if low < w {
      DivUnique(x, w, high, low);
    } else {
      Distribute(high, 1, w);
      DivUnique(x, w, high + 1, low - w);
    }
  }

  lemma {:induction false} HighBound(w: int, x: int, y: int, hi: int, lo: int)
    requires 0 <= x < w && 0 <= y < w && x * y == hi * w + lo && 0 <= lo < w
    ensures 0 <= hi < w
  {
    Small(w, x, y);
    if hi >= w { MulLe(w, hi, w); assert false; }
    if hi < 0 { MulLe(hi, -1, w); assert false; }
  }

  /** The low cell of a product. */
  method MulLow(w: nat, x: nat, y: nat) returns (lo: nat, ghost hi: nat)
    requires x < w && y < w
    ensures x * y == hi * w + lo && lo < w && hi < w
  {
    Small(w, x, y);
    DivMod(x * y, w);
    lo, hi := (x * y) % w, (x * y) / w;
    HighBound(w, x, y, hi, lo);
  }

  /** The four products of half cells; each of them fits a cell. */
  method HalfProducts(b: nat, w: nat, x: nat, y: nat) returns (uu: nat, ul: nat, lu: nat, ll: nat)
    requires b > 1 && w == b * b && x < w && y < w
    ensures x * y == uu * w + (ul + lu) * b + ll
    ensures ul + b <= w && lu + b <= w && ll < w
  {
    var xh, xl := Halves(b, w, x);
    var yh, yl := Halves(b, w, y);
    Pieces(b, w, xh, xl, yh, yl);
    uu, ul := SmallProduct(b, w, xh, yh), SmallProduct(b, w, xh, yl);
    lu, ll := SmallProduct(b, w, xl, yh), SmallProduct(b, w, xl, yl);
  }

  function SmallProduct(b: nat, w: nat, x: nat, y: nat): (p: nat)
    requires b > 1 && w == b * b && x < b && y < b
    ensures p == x * y && p + b <= w
  {
    Small(b, x, y);
    assert b * b - (b - 1) * (b - 1) == 2 * b - 1;
    x * y
  }

  /** `ummul`. */
  method Ummul(b: nat, w: nat, x: nat, y: nat) returns (hi: nat, lo: nat)
    requires b > 1 && w == b * b && x < w && y < w
    ensures x * y == hi * w + lo && hi < w && lo < w
  {
    ghost var k;
    lo, k := MulLow(w, x, y);
    var uu, ul, lu, ll := HalfProducts(b, w, x, y);
    var m := Add(w, ul, lu);
    var mh, ml := Halves(b, w, m);
    var mu := L2U(b, w, mh, ml, m);
    Carries(b, w, x * y, k, lo, uu, ul, lu, ll, m, mh, ml);
    hi := uu
        + (if m < ul then b else 0) // the middle sum has wrapped
        + mh
        + (if lo < mu then 1 else 0); // and so has the low cell
  }

  /** The plain-C `umul_ppmm` computes the same product with one carry less. */
  method UmulPpmm(b: nat, w: nat, u: nat, v: nat) returns (w1: nat, w0: nat)
    requires b > 1 && w == b * b && u < w && v < w
    ensures u * v == w1 * w + w0 && w1 < w && w0 < w
  {
    var x3, x2, x1, x0 := HalfProducts(b, w, u, v);
    ghost var x: int := u * v;
    w1, w0 := PpmmPieces(b, w, x, x0, x1, x2, x3);
    HighBound(w, u, v, w1, w0);
  }

  method PpmmPieces(b: nat, w: nat, ghost x: int, x0: nat, x1: nat, x2: nat, x3: nat) returns (w1: nat, w0: nat)
    requires b > 1 && w == b * b && x0 < w && x1 + b <= w && x2 < w
    requires x == x3 * w + (x2 + x1) * b + x0
    ensures x == w1 * w + w0 && w0 < w
  {
    var x0h, x0l := Halves(b, w, x0);
    var m := Add(w, x1 + x0h, x2);  // the first sum cannot give a carry, the second can
    var mh, ml := Halves(b, w, m);
    PpmmSum(b, w, x, x3, x1, x2, x0, x0h, x0l, m, mh, ml);
    TwoDigitBound(b, w, ml, x0l);
    w1 := x3 + (if m < x2 then b else 0) + mh;
    w0 := ml * b + x0l;
  }

  lemma {:induction false} PpmmSum(
    b: int, w: int, x: int, x3: int, mid: int, x2: int, x0: int, x0h: int, x0l: int, m: int, mh: int, ml: int)
    requires w == b * b && b > 0 && x == x3 * w + (x2 + mid) * b + x0 && x0 == x0h * b + x0l
    requires 0 <= x2 < w && 0 <= mid + x0h < w
    requires m == (if mid + x0h + x2 < w then mid + x0h + x2 else mid + x0h + x2 - w) && m == mh * b + ml
    ensures x == (x3 + (if m < x2 then b else 0) + mh) * w + (ml * b + x0l)
  {
    var c := if m < x2 then 1 else 0;
    Distribute(x2 + mid, x0h, b);
    Regroup(b, w, x3, mid + x0h + x2, x0l, c, m, mh, ml);
  }

  method Subtract(w: nat, x: nat, y: nat) returns (r: nat, ghost borrow: nat)
    requires x < w && y < w
    ensures r < w && r == x - y + borrow * w && borrow <= 1
  {
    ModOnce(x - y, w);
    r := (x - y) % w;
    borrow := if x < y then 1 else 0;
  }

  lemma {:induction false} Expand(x: int, y: int, s: int, t: int)
    ensures (x - s) * (y - t) == x * y - s * y - t * x + s * t
  {
    assert (x - s) * (y - t) == x * (y - t) - s * (y - t);
    assert x * (y - t) == x * y - t * x && s * (y - t) == s * y - s * t;
  }

  lemma {:induction false} SignedProduct(w: int, x: int, y: int, sx: int, sy: int, hi: int, lo: int, hi': int, k: int)
    requires x * y == hi * w + lo
    requires hi' == hi - sx * y - sy * x + k * w
    ensures (x - sx * w) * (y - sy * w) == hi' * w + lo + (sx * sy - k) * (w * w)
  {
    Expand(x, y, sx * w, sy * w);
    var a, c := sx * y, sy * x;
    assert (sx * w) * y == a * w && (sy * w) * x == c * w by { Swap(sx, w, y); Swap(sy, w, x); }
    assert (sx * w) * (sy * w) == (sx * sy) * (w * w) by { FourFactors(sx, sy, w); }
    Distribute(hi - a - c, k * w, w);
    Distribute(hi - a, -c, w);
    Distribute(hi, -a, w);
    MulAssoc(k, w, w);
    Distribute(sx * sy, -k, w * w);
  }

  lemma {:induction false} ProductFits(w: nat, n: int, m: int)
    requires w > 1 && w % 2 == 0 && Fits(w, n) && Fits(w, m)
    ensures Fits(w * w, n * m)
  {
    var half := w / 2;
    assert w * w == 4 * (half * half) by { FourFactors(half, half, 2); assert w == half * 2; }
    var a, c := if n < 0 then -n else n, if m < 0 then -m else m;
    ProductLe(a, c, half);
    AbsProduct(n, m);
    MulLe(1, half, half);
  }

  lemma {:induction false} ProductLe(a: int, c: int, h: int)
    requires 0 <= a <= h && 0 <= c <= h
    ensures 0 <= a * c <= h * h
  {
    MulLe(a, h, c);
    MulLe(c, h, h);
    MulLe(0, a, c);
    Commute(h, c);
  }

  lemma {:induction false} AbsProduct(n: int, m: int)
    ensures var p := (if n < 0 then -n else n) * (if m < 0 then -m else m); n * m == p || n * m == -p
  {
    assert (-n) * m == -(n * m) && n * (-m) == -(n * m) && (-n) * (-m) == n * m;
  }

  lemma {:induction false} MultipleAway(m: int, x: int, y: int, k: int)
    requires m > 0 && x == y + k * m && -m < x - y < m
    ensures k == 0
  {
    if k >= 1 { MulLe(1, k, m); assert false; }
    if k <= -1 { MulLe(k, -1, m); assert false; }
  }

  lemma {:induction false} SignedIs(m: nat, x: int, y: nat, k: int)
    requires m > 0 && m % 2 == 0 && y < m && Fits(m, x) && x == y + k * m
    ensures Signed(m, y) == x
  {
    if 2 * y < m {
      MultipleAway(m, x, y, k);
    } else {
      Distribute(k, 1, m);
      MultipleAway(m, x, y - m, k + 1);
    }
  }

  /** `mmul`, on the cells that hold its arguments. */
  method Mmul(b: nat, w: nat, x: nat, y: nat) returns (hi: nat, lo: nat)
    requires b > 1 && b % 2 == 0 && w == b * b && x < w && y < w
    ensures hi < w && lo < w && hi * w + lo < w * w
    ensures Signed(w * w, hi * w + lo) == Signed(w, x) * Signed(w, y)
  {
    hi, lo := Ummul(b, w, x, y);
    ghost var hi0, k, k1, k2 := hi, 0, 0, 0;
    ghost var sx, sy := if 2 * x >= w then 1 else 0, if 2 * y >= w then 1 else 0;
    if 2 * x >= w { hi, k1 := Subtract(w, hi, y); }
    if 2 * y >= w { hi, k2 := Subtract(w, hi, x); }
    MmulSigned(b, w, x, y, sx, sy, hi0, lo, hi, k1 + k2);
  }

  lemma {:induction false} MmulSigned(
    b: nat, w: nat, x: nat, y: nat, sx: nat, sy: nat, hi: nat, lo: nat, hi': nat, k: int)
    requires b > 1 && b % 2 == 0 && w == b * b && x < w && y < w && hi' < w && lo < w
    requires sx == (if 2 * x >= w then 1 else 0) && sy == (if 2 * y >= w then 1 else 0)
    requires x * y == hi * w + lo
    requires hi' == hi - (if sx == 1 then y else 0) - (if sy == 1 then x else 0) + k * w
    ensures hi' * w + lo < w * w && Signed(w * w, hi' * w + lo) == Signed(w, x) * Signed(w, y)
  {
    EvenSquare(b);
    EvenSquare(w);
    assert sx * y == (if sx == 1 then y else 0) && sy * x == (if sy == 1 then x else 0);
    SignedProduct(w, x, y, sx, sy, hi, lo, hi', k);
    assert Signed(w, x) == x - sx * w && Signed(w, y) == y - sy * w;
    ProductFits(w, Signed(w, x), Signed(w, y));
    TwoDigitBound(w, w * w, hi', lo);
    SignedIs(w * w, Signed(w, x) * Signed(w, y), hi' * w + lo, sx * sy - k);
  }

  lemma {:induction false} EvenSquare(b: nat)
    requires b > 1 && b % 2 == 0
    ensures (b * b) % 2 == 0 && b * b > 1
  {
    MulAssoc(2, b / 2, b);
    MulLe(2, b, b);
  }

  // ----- division by a stored reciprocal -----

  /** `uslashstage2`: the high cell of the high product plus the high cell of
      the low one. */
  method UslashStage2(b: nat, w: nat, u: nat, inverseHi: nat, inverse: nat, ghost d: nat) returns (q: nat)
    requires b > 1 && w == b * b && u < w && inverseHi < w && inverse < w && 0 < d < w
    requires w * w <= (inverseHi * w + inverse) * d <= w * w + w
    ensures q == u / d
  {
    var h1, h0 := Ummul(b, w, u, inverseHi);
    var l1, l0 := Ummul(b, w, u, inverse);
    StageSum(w, u, inverseHi, inverse, h1, h0, l1, l0);
    Reciprocal(w, u, inverseHi * w + inverse, d);
    // umadd: the carry out of the low cell goes into the high cell
    var carry := if h0 + l1 < w then 0 else 1;
    q := h1 + carry;
  }

  lemma {:induction false} StageSum(w: int, u: int, ih: int, il: int, h1: int, h0: int, l1: int, l0: int)
    requires w > 0 && u * ih == h1 * w + h0 && u * il == l1 * w + l0
    requires 0 <= h0 < w && 0 <= l0 < w && 0 <= l1 < w
    ensures (u * (ih * w + il)) / (w * w) == h1 + (if h0 + l1 < w then 0 else 1)
  {
    var c := if h0 + l1 < w then 0 else 1;
    var rest := h0 + l1 - c * w;
    assert u * (ih * w + il) == (u * ih) * w + u * il by { assert u * (ih * w) == (u * ih) * w; }
    Distribute(h1 * w, h0, w);
    Distribute(h0, l1, w);
    Distribute(rest, c * w, w);
    MulAssoc(h1, w, w);
    MulAssoc(c, w, w);
    Distribute(h1, c, w * w);
    TwoDigitBound(w, w * w, rest, l0);
    DivUnique(u * (ih * w + il), w * w, h1 + c, rest * w + l0);
  }

  /** A reciprocal rounded up by at most `1/w` of its unit gives the exact
      quotient of every cell. */
  lemma {:induction false} Reciprocal(w: int, u: int, inv: int, d: int)
    requires w > 0 && 0 <= u < w && 0 < d && w * w <= inv * d <= w * w + w
    ensures (u * inv) / (w * w) == u / d
  {
    DivMod(u, d);
    var q, r := u / d, u % d;
    var ww := w * w;
    // u*ww <= u*inv*d <= u*ww + u*w < (u+1)*ww
    Scale(ww, w, inv * d, u);
    assert (u * inv) * d == u * (inv * d) by { MulAssoc(u, inv, d); }
    ReciprocalBounds(ww, u, u * inv, d, q, r);
    DivUnique(u * inv, ww, q, u * inv - q * ww);
  }

  lemma {:induction false} Scale(ww: int, w: int, y: int, u: int)
    requires ww == w * w && 0 <= u < w && ww <= y <= ww + w
    ensures u * ww <= u * y < (u + 1) * ww
  {
    MulLe(ww, y, u);
    MulLe(y, ww + w, u);
    MulLt(u, w, w);
    Distribute(ww, w, u);
    Distribute(u, 1, ww);
    Commute(u, ww); Commute(u, y); Commute(u, w);
  }

  lemma {:induction false} Commute(x: int, y: int)
    ensures x * y == y * x
  {
  }

  lemma {:induction false} ReciprocalBounds(ww: int, u: int, x: int, d: int, q: int, r: int)
    requires ww > 0 && d > 0 && u == q * d + r && 0 <= r < d
    requires u * ww <= x * d < (u + 1) * ww
    ensures q * ww <= x < (q + 1) * ww
  {
    Swap(q, ww, d);
    Swap(q + 1, ww, d);
    Distribute(q, 1, d);
    MulLe(q * d, u, ww);
    MulLe(u + 1, (q + 1) * d, ww);
    if x < q * ww { MulLt(x, q * ww, d); assert false; }
    if x >= (q + 1) * ww { MulLe((q + 1) * ww, x, d); assert false; }
  }
}
