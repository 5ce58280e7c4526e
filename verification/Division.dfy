/** Double-cell division (engine/longlong.h, engine/support.c). */
module Division {
  import opened Basics
  import opened Words

  // ----- half-word division -----

  /** What one half digit needs: the divisor is normalised and the dividend
      smaller than it. */
  ghost predicate DigitInput(b: int, w: int, d: int, n: int, l: int) {
    && 2 <= b && b % 2 == 0 && w == b * b
    && w <= 2 * d && d < w
    && 0 <= n < d && 0 <= l < b
  }

  lemma {:induction false} HighHalf(b: int, w: int, d: int, d1: int, d0: int)
    requires 2 <= b && b % 2 == 0 && w == b * b && w <= 2 * d && d == d1 * b + d0 && 0 <= d0 < b
    ensures b <= 2 * d1
  {
    if 2 * d1 <= b - 2 {
      MulLe(2 * d1, b - 2, b);
      Distribute(b, -2, b);
      MulAssoc(2, d1, b);
      assert false;
    }
  }

  /** The first guess for the digit is too large by at most 2. */
  lemma {:induction false} FirstGuess(b: int, w: int, d: int, n: int, l: int, d1: int, d0: int, q: int, r: int)
    requires DigitInput(b, w, d, n, l) && d == d1 * b + d0 && 0 <= d0 < b && 0 < d1
    requires n == q * d1 + r && 0 <= r < d1 && 0 <= q
    ensures 0 <= r * b + l < d
    ensures 0 <= q * d0 < w
    ensures n * b + l - q * d == r * b + l - q * d0
  {
    HighHalf(b, w, d, d1, d0);
    RemainderShifted(b, l, d1, r);
    GuessBound(b, d, n, d1, d0, q);
    ProductBound(b, q, d0);
    GuessError(b, d, n, l, d1, d0, q, r);
  }

  lemma {:induction false} ProductBound(b: int, q: int, d0: int)
    requires 0 <= q <= b + 1 && 0 <= d0 < b
    ensures 0 <= q * d0 < b * b
  {
    MulLe(q, b + 1, d0);
    MulLe(d0, b - 1, b + 1);
    MulLe(0, q, d0);
    assert (b + 1) * (b - 1) == b * b - 1;
    assert (b - 1) * (b + 1) == (b + 1) * (b - 1) && d0 * (b + 1) == (b + 1) * d0;
  }

  lemma {:induction false} RemainderShifted(b: int, l: int, d1: int, r: int)
    requires 0 <= l < b && 0 <= r < d1
    ensures 0 <= r * b + l < d1 * b
  {
    MulLe(r + 1, d1, b);
    Distribute(r, 1, b);
    MulLe(0, r, b);
  }

  lemma {:induction false} GuessBound(b: int, d: int, n: int, d1: int, d0: int, q: int)
    requires 2 <= b && 0 < d1 && b <= 2 * d1 && 0 <= d0 < b && d == d1 * b + d0
    requires 0 <= n < d && q * d1 <= n
    ensures q <= b + 1
  {
    if q >= b + 2 {
      MulLe(b + 2, q, d1);
      Distribute(b, 2, d1);
      assert false;
    }
  }

  lemma {:induction false} GuessError(b: int, d: int, n: int, l: int, d1: int, d0: int, q: int, r: int)
    requires d == d1 * b + d0 && n == q * d1 + r
    ensures n * b + l - q * d == r * b + l - q * d0
  {
    Distribute(q * d1, r, b);
    MulAssoc(q, d1, b);
    assert q * (d1 * b + d0) == q * (d1 * b) + q * d0;
  }

  /** A digit that leaves a remainder below the divisor is the digit. */
  lemma {:induction false} DigitBound(b: int, w: int, d: int, n: int, l: int, q: int, r: int)
    requires DigitInput(b, w, d, n, l) && n * b + l == q * d + r && 0 <= r < d
    ensures 0 <= q < b
  {
    MulLe(n + 1, d, b);
    Distribute(n, 1, b);
    MulLe(0, n, b);
    if q < 0 { MulLe(q, -1, d); assert false; }
    if q >= b { MulLe(b, q, d); assert false; }
  }

  lemma {:induction false} OneLess(q: int, d: int)
    ensures (q - 1) * d == q * d - d
  {
  }

  method DivRem(n: nat, d: nat) returns (q: nat, r: nat)
    requires d > 0
    ensures n == q * d + r && r < d
  {
    DivMod(n, d);
    q, r := n / d, n % d;
  }

  /** One half digit of the quotient, with the correction steps and their
      wrap-around tests. */
  method DivDigit(b: nat, w: nat, d: nat, n: nat, l: nat) returns (q: nat, r: nat)
    requires DigitInput(b, w, d, n, l)
    ensures n * b + l == q * d + r && r < d && q < b
  {
    var d1, d0 := DivRem(d, b);
    HighHalf(b, w, d, d1, d0);
    q, r := DivRem(n, d1);
    FirstGuess(b, w, d, n, l, d1, d0, q, r);
    var m := q * d0;
    r := r * b + l;
    var q', r' := Correct(w, d, m, q, r, n * b + l);
    DigitBound(b, w, d, n, l, q', r');
    q, r := q', r';
  }

  /** At most two corrections. */
  method Correct(w: nat, d: nat, m: nat, q0: nat, r0: nat, ghost x: int) returns (q: int, r: nat)
    requires r0 < d < w <= 2 * d && m < w && x - q0 * d == r0 - m
    ensures x == q * d + r && r < d && q0 - 2 <= q <= q0
  {
    q, r := q0, r0;
    OneLess(q0, d);
    OneLess(q0 - 1, d);
    ModOnce(r0 + d, w);
    if r < m {
      q, r := q - 1, (r + d) % w;
      if r >= d {  // no carry
        if r < m {
          ModOnce(r + d, w);
          q, r := q - 1, (r + d) % w;
        }
      }
    }
    ModOnce(r - m, w);
    r := (r - m) % w;
  }

  lemma {:induction false} TwoDigits(
    b: int, w: int, d: int, n1: int, h: int, l: int, q1: int, r1: int, q0: int, r0: int)
    requires w == b * b && b > 0
    requires n1 * b + h == q1 * d + r1
    requires r1 * b + l == q0 * d + r0
    ensures n1 * w + (h * b + l) == (q1 * b + q0) * d + r0
  {
    assert (n1 * b + h) * b == (q1 * d + r1) * b;
    Distribute(n1 * b, h, b);
    Distribute(q1 * d, r1, b);
    Distribute(q1 * b, q0, d);
    assert n1 * b * b == n1 * w by { MulAssoc(n1, b, b); }
    assert q1 * d * b == q1 * b * d;
  }

  /** `UH` and `LH`. */
  lemma {:induction false} HalfParts(b: int, w: int, x: int)
    requires b > 0 && w == b * b && 0 <= x < w
    ensures x == (x / b) * b + x % b && 0 <= x / b < b && 0 <= x % b < b
  {
    DivMod(x, b);
    if x / b >= b { MulLe(b, x / b, b); assert false; }
  }

  lemma {:induction false} TwoDigitBound(b: int, w: int, q1: int, q0: int)
    requires w == b * b && 0 <= q1 < b && 0 <= q0 < b
    ensures 0 <= q1 * b + q0 < w
  {
    MulLe(q1, b - 1, b);
    Distribute(b, -1, b);
    MulLe(0, q1, b);
  }

  /** `__udiv_qrnnd_c`. */
  method UdivQrnnd(b: nat, w: nat, n1: nat, n0: nat, d: nat) returns (q: nat, r: nat)
    requires 2 <= b && b % 2 == 0 && w == b * b && w <= 2 * d && d < w && n1 < d && n0 < w
    ensures n1 * w + n0 == q * d + r && r < d && q < w
  {
    HalfParts(b, w, n0);
    var h, l := n0 / b, n0 % b;
    var q1, r1 := DivDigit(b, w, d, n1, h);
    var q0, r0 := DivDigit(b, w, d, r1, l);
    TwoDigits(b, w, d, n1, h, l, q1, r1, q0, r0);
    TwoDigitBound(b, w, q1, q0);
    q := q1 * b + q0;
    r := r0;
  }

  // ----- unsigned division -----

  datatype Throw = DivZero | ResultRange
  datatype DivResult = Quotient(q: nat, r: nat) | Thrown(t: Throw)

  /** What `umdiv` returns for a double cell `u`. */
  function Umdiv(w: nat, u: nat, v: nat): DivResult
    requires w > 0
  {
    if v == 0 then Thrown(DivZero)
    else if u / w >= v then Thrown(ResultRange)
    else Quotient(u / v, u % v)
  }

  /** It throws exactly when there is no quotient, or none that fits a cell. */
  lemma {:induction false} UmdivThrows(w: nat, u: nat, v: nat)
    requires w > 0
    ensures Umdiv(w, u, v).Thrown? <==> v == 0 || u / v >= w
  {
    if v != 0 {
      DivBound(u, w, v);
      DivBound(u, v, w);
    }
  }

  /** The entry of `__clz_tab` for a byte. */
  function ClzTab(i: nat): (k: nat)
    requires i < 256
    ensures k <= 8 && i < Pow2(k) && (i > 0 ==> k > 0 && Pow2(k - 1) <= i)
  {
    assert Pow2(0) == 1 && Pow2(1) == 2 && Pow2(2) == 4 && Pow2(3) == 8 && Pow2(4) == 16;
    assert Pow2(5) == 32 && Pow2(6) == 64 && Pow2(7) == 128 && Pow2(8) == 256;
    if i < 1 then 0 else if i < 2 then 1 else if i < 4 then 2 else if i < 8 then 3 else if i < 16 then 4
    else if i < 32 then 5 else if i < 64 then 6 else if i < 128 then 7 else 8
  }

  /** `x >> a`. */
  function Shr(x: nat, a: nat): nat {
    if a == 0 then x else Shr(x / 2, a - 1)
  }

  lemma {:induction false} ShrBits(x: nat, a: nat)
    ensures Shr(x, a) * Pow2(a) <= x < (Shr(x, a) + 1) * Pow2(a)
  {
    if a > 0 {
      ShrBits(x / 2, a - 1);
      Doubled(Shr(x / 2, a - 1), Pow2(a - 1), x);
    }
  }

  lemma {:induction false} Doubled(y: int, p: int, x: int)
    requires y * p <= x / 2 < (y + 1) * p
    ensures y * (2 * p) <= x < (y + 1) * (2 * p)
  {
    assert y * (2 * p) == 2 * (y * p) && (y + 1) * (2 * p) == 2 * ((y + 1) * p);
  }

  lemma {:induction false} ShrSmall(x: nat, a: nat, m: nat)
    requires x < Pow2(a + m)
    ensures Shr(x, a) < Pow2(m)
  {
    ShrBits(x, a);
    Pow2Add(m, a);
    assert a + m == m + a;
    if Shr(x, a) >= Pow2(m) { MulLe(Pow2(m), Shr(x, a), Pow2(a)); assert false; }
  }

  lemma {:induction false} ByteValues()
    ensures Pow2(8) == 256
  {
    assert Pow2(4) == 16;
    Pow2Add(4, 4);
  }

  lemma {:induction false} ZeroByte(x: nat, a: nat)
    requires x < Pow2(a + 8) && Shr(x, a) % 256 == 0
    ensures x < Pow2(a)
  {
    ShrSmall(x, a, 8);
    ByteValues();
    ShrBits(x, a);
  }

  lemma {:induction false} LastByte(x: nat, a: nat)
    requires x < Pow2(a + 8) && (a == 0 || Shr(x, a) % 256 != 0)
    ensures Shr(x, a) < 256
    ensures x > 0 ==> Shr(x, a) > 0
  {
    ShrSmall(x, a, 8);
    ByteValues();
  }

  /** The quarter of `x` that holds its highest bit. */
  lemma {:induction false} QuarterShift(x: nat, a: nat, b: nat)
    requires b <= 8 && x < Pow2(a + b) && (a == 0 || Pow2(a) <= x)
    ensures Shr(x, a) < 256
    ensures x > 0 ==> Shr(x, a) > 0
  {
    ShrSmall(x, a, b);
    ByteValues();
    Pow2Add(b, 8 - b);
    MulLe(1, Pow2(8 - b), Pow2(b));
    ShrBits(x, a);
  }

  lemma {:induction false} TopByte(n: nat, x: nat, a: nat)
    requires Shr(x, a) < 256 && a <= n && x < Pow2(n) && (x > 0 ==> Shr(x, a) > 0)
    ensures ClzTab(Shr(x, a)) + a <= n
    ensures x > 0 ==> Pow2(n - 1) <= x * Pow2(n - (ClzTab(Shr(x, a)) + a)) < Pow2(n)
  {
    var y := Shr(x, a);
    var k := ClzTab(y);
    ShrBits(x, a);
    if x == 0 {
      if y > 0 { MulLe(1, y, Pow2(a)); }
    } else {
      MulLe(Pow2(k - 1), y, Pow2(a));
      MulLe(y + 1, Pow2(k), Pow2(a));
      Pow2Add(k - 1, a);
      Pow2Add(k, a);
      Pow2Below(k - 1 + a, n);
      var s := Pow2(n - (k + a));
      MulLe(Pow2(k - 1 + a), x, s);
      MulLt(x, Pow2(k + a), s);
      Pow2Add(k - 1 + a, n - (k + a));
      Pow2Add(k + a, n - (k + a));
      assert (k - 1 + a) + (n - (k + a)) == n - 1 && (k + a) + (n - (k + a)) == n;
    }
  }

  /** `count_leading_zeros` for a cell of `n` bits: the highest quarter of a
      small cell, the highest byte of a large one. */
  method Nlz(n: nat, x: nat) returns (count: nat)
    requires n >= 8 && n % 8 == 0 && x < Pow2(n)
    ensures count <= n
    ensures x > 0 ==> Pow2(n - 1) <= x * Pow2(count) < Pow2(n)
  {
    var a: nat;
    if n <= 32 {
      a := FindQuarter(n, x);
      QuarterShift(x, a, n / 4);
    } else {
      a := FindByte(n, x);
      LastByte(x, a);
    }
    TopByte(n, x, a);
    count := n - (ClzTab(Shr(x, a)) + a);
  }

  /** The position of the highest quarter that is not 0, or of the lowest one. */
  method FindQuarter(n: nat, x: nat) returns (a: nat)
    requires n % 4 == 0 && x < Pow2(n)
    ensures a + n / 4 <= n && x < Pow2(a + n / 4) && (a == 0 || Pow2(a) <= x)
  {
    var b := n / 4;
    assert n == 3 * b + b;
    if x < Pow2(2 * b) {
      return if x < Pow2(b) then 0 else b;
    }
    return if x < Pow2(3 * b) then 2 * b else 3 * b;
  }

  /** The position of the highest byte that is not 0, or of the lowest byte. */
  method FindByte(n: nat, x: nat) returns (a: nat)
    requires n >= 8 && n % 8 == 0 && x < Pow2(n)
    ensures a + 8 <= n && x < Pow2(a + 8) && (a == 0 || Shr(x, a) % 256 != 0)
  {
    a := n - 8;
    ghost var k: nat := n / 8 - 1;
    while a > 0 && Shr(x, a) % 256 == 0
      invariant a + 8 <= n && a == 8 * k && x < Pow2(a + 8)
    {
      ZeroByte(x, a);
      a, k := a - 8, k - 1;
    }
  }

  lemma {:induction false} Scaled(u: int, v: int, s: int, q: int, r: int)
    requires s > 0 && u * s == q * (v * s) + r && 0 <= r < v * s
    ensures r % s == 0 && u == q * v + r / s && 0 <= r / s < v
  {
    MulAssoc(q, v, s);
    Distribute(u, -(q * v), s);
    var k := u - q * v;
    assert r == k * s;
    if k < 0 { MulLe(k, -1, s); assert false; }
    if k >= v { MulLe(v, k, s); assert false; }
    DivUnique(r, s, k, 0);
  }

  lemma {:induction false} ShiftFits(w: int, u: int, v: int, s: int)
    requires 0 < w && 0 < s && 0 < v && 0 <= u && u / w < v && v * s < w
    ensures 0 <= u * s < v * s * w && u * s < w * w && (u * s) / w < v * s
  {
    DivBound(u, w, v);
    MulLt(u, v * w, s);
    assert v * w * s == v * s * w;
    MulLt(v * s, w, w);
    MulLe(0, u, s);
    DivBound(u * s, w, v * s);
  }

  /** `umdiv` over `udiv_qrnnd`, with normalising shifts; `h` is half the
      number of bits of a cell. */
  method UmdivNormalized(h: nat, u: nat, v: nat) returns (res: DivResult)
    requires h >= 4 && h % 4 == 0 && v < Cells(h) && u < Cells(h) * Cells(h)
    ensures res == Umdiv(Cells(h), u, v)
  {
    var w := Cells(h);
    var u1 := u / w;
    if v == 0 { return Thrown(DivZero); }
    if u1 >= v { return Thrown(ResultRange); }
    var lz := Nlz(2 * h, v);
    var s := Pow2(lz);
    HalfSquared(h);
    assert w == 2 * Pow2(2 * h - 1);
    ShiftFits(w, u, v, s);
    DivMod(u * s, w);
    var q, r := UdivQrnnd(Half(h), w, (u * s) / w, (u * s) % w, v * s);
    Scaled(u, v, s, q, r);
    DivUnique(u, v, q, r / s);
    res := Quotient(q, r / s);
  }

  /** The state of the restoring division: `p` is the weight of the digits still
      to come, `t` that of those produced, `top` the partial remainder, `low` the bits of the dividend still to come. */
  ghost predicate Restoring(w: int, u: int, v: int, p: int, t: int, q: int, top: int, low: int) {
    && p > 0 && t > 0 && p * t == w
    && u == (q * v + top) * p + low
    && 0 <= low < p && 0 <= top < 2 * v && 0 <= q < 2 * t
  }

  lemma {:induction false} ShiftStep(
    w: int, u: int, v: int, p: int, t: int, q: int, top: int, low: int, p': int, bit: int)
    requires Restoring(w, u, v, p, t, q, top, low) && top < v && q < t && p == 2 * p'
    requires bit == if low >= p' then 1 else 0
    ensures Restoring(w, u, v, p', 2 * t, 2 * q, 2 * top + bit, low - bit * p')
    ensures 2 * q < w
  {
    ShiftProduct(p', t, p, w);
    ShiftTotal(q, v, top, p, p', bit);
    MulLe(1, p', 2 * t);
  }

  lemma {:induction false} ShiftProduct(p': int, t: int, p: int, w: int)
    requires p == 2 * p' && p * t == w
    ensures p' * (2 * t) == w
  {
    MulAssoc(p', 2, t);
  }

  lemma {:induction false} ShiftTotal(q: int, v: int, top: int, p: int, p': int, bit: int)
    requires p == 2 * p'
    ensures (2 * q * v + (2 * top + bit)) * p' == (q * v + top) * p + bit * p'
  {
    var x := q * v + top;
    MulAssoc(2, q, v);
    assert 2 * q * v + (2 * top + bit) == 2 * x + bit;
    Distribute(2 * x, bit, p');
    MulAssoc(2, x, p');
    MulAssoc(x, 2, p');
  }

  lemma {:induction false} TimesRearranged(t: int, v: int, p: int, w: int)
    requires p * t == w
    ensures t * v * p == v * w
  {
    assert t * v * p == v * (p * t);
  }

  /** The subtraction, if any, brings the remainder below the divisor, and the
      quotient below the number of digits produced. */
  lemma {:induction false} SubtractStep(w: int, u: int, v: int, p: int, t: int, q: int, top: int, low: int)
    requires Restoring(w, u, v, p, t, q, top, low) && u < v * w && 0 < v
    ensures var q' := if top >= v then q + 1 else q; var top' := if top >= v then top - v else top;
            Restoring(w, u, v, p, t, q', top', low) && top' < v && q' < t
  {
    var q' := if top >= v then q + 1 else q;
    var top' := if top >= v then top - v else top;
    Distribute(q, 1, v);
    assert q' * v + top' == q * v + top;
    if q' >= t {
      MulLe(t, q', v);
      MulLe(t * v, q' * v + top', p);
      TimesRearranged(t, v, p, w);
      assert false;
    }
  }

  /** The partial remainder: one bit more than a cell. */
  function Partial(w: nat, c: nat, h: nat): nat {
    if c == 0 then h else w + h
  }

  /** `x << k`, unbounded. */
  function Shl(x: nat, k: nat): nat
    decreases k
  {
    if k == 0 then x else Shl(2 * x, k - 1)
  }

  lemma {:induction false} ShlIs(x: nat, k: nat)
    ensures Shl(x, k) == x * Pow2(k)
    decreases k
  {
    if k > 0 {
      ShlIs(2 * x, k - 1);
      MulAssoc(x, 2, Pow2(k - 1));
    }
  }

  /** With `i` of `n` shifts to go, the quotient digits and the partial
      remainder `top` account for the high part of `u`, and `low` for the
      rest; `l` holds `low` at its top. */
  ghost predicate Pending(n: nat, u: nat, v: nat, i: nat, q: nat, top: nat, low: nat, l: nat) {
    && i <= n
    && u == Shl(q * v + top, i) + low
    && low < Pow2(i) && l == Shl(low, n - i)
    && top < 2 * v && q < 2 * Pow2(n - i)
  }

  lemma {:induction false} PendingIs(n: nat, u: nat, v: nat, i: nat, q: nat, top: nat, low: nat, l: nat)
    requires i <= n
    ensures Pending(n, u, v, i, q, top, low, l) <==>
            Restoring(Pow2(n), u, v, Pow2(i), Pow2(n - i), q, top, low) && l == low * Pow2(n - i)
  {
    ShlIs(q * v + top, i);
    ShlIs(low, n - i);
    Pow2Add(i, n - i);
    assert i + (n - i) == n;
  }

  lemma {:induction false} PendingStart(n: nat, u: nat, v: nat, high: nat, low: nat)
    requires high < v && low < Pow2(n) && u == high * Pow2(n) + low
    ensures Pending(n, u, v, n, 0, high, low, low)
  {
    ShlIs(high, n);
    assert 0 * v + high == high;
  }

  lemma {:induction false} PendingSubtract(n: nat, u: nat, v: nat, i: nat, q: nat, top: nat, low: nat, l: nat)
    requires Pending(n, u, v, i, q, top, low, l) && 0 < v && u < v * Pow2(n)
    ensures var q' := if top >= v then q + 1 else q; var top' := if top >= v then top - v else top;
            Pending(n, u, v, i, q', top', low, l) && top' < v && q' < Pow2(n - i)
  {
    PendingIs(n, u, v, i, q, top, low, l);
    SubtractStep(Pow2(n), u, v, Pow2(i), Pow2(n - i), q, top, low);
    PendingIs(n, u, v, i, if top >= v then q + 1 else q, if top >= v then top - v else top, low, l);
  }

  lemma {:induction false} PendingShift(n: nat, u: nat, v: nat, i: nat, q: nat, h: nat, low: nat, l: nat)
    requires Pending(n, u, v, i + 1, q, h, low, l) && h < v && q < Pow2(n - (i + 1))
    ensures var w := Pow2(n); var one := 2 * l >= w;
            && l < w && 2 * q < w && (one ==> low >= Pow2(i))
            && Pending(n, u, v, i, 2 * q, 2 * h + (if one then 1 else 0),
                       if one then low - Pow2(i) else low, if one then 2 * l - w else 2 * l)
  {
    var w, p', t := Pow2(n), Pow2(i), Pow2(n - (i + 1));
    PendingIs(n, u, v, i + 1, q, h, low, l);
    assert Pow2(i + 1) == 2 * p' && Pow2(n - i) == 2 * t;
    MulAssoc(2, p', t);
    HighBit(l, low, p', t, w);
    ShiftStep(w, u, v, 2 * p', t, q, h, low, p', if low >= p' then 1 else 0);
    var one := 2 * l >= w;
    PendingIs(n, u, v, i, 2 * q, 2 * h + (if one then 1 else 0),
              if one then low - p' else low, if one then 2 * l - w else 2 * l);
  }

  /** The subtraction in the loop of the restoring `umdiv`. */
  method Subtract(w: nat, v: nat, c: nat, h: nat, q: nat) returns (q': nat, h': nat)
    requires c <= 1 && h < w && 0 < v < w && Partial(w, c, h) < 2 * v
    ensures var top := Partial(w, c, h);
            q' == (if top >= v then q + 1 else q) && h' == if top >= v then top - v else top
  {
    q', h' := q, h;
    if c != 0 || h >= v {
      q' := q + 1;
      ModOnce(h - v, w);
      h' := (h - v) % w;
    }
  }

  lemma {:induction false} HighBit(l: int, low: int, p': int, t: int, w: int)
    requires 0 < p' && 0 < t && 2 * (p' * t) == w && l == low * t && 0 <= low < 2 * p'
    ensures 0 <= l < w
    ensures low >= p' ==> 2 * l >= w && 2 * l - w == (low - p') * (2 * t)
    ensures low < p' ==> 2 * l < w && 2 * l == low * (2 * t)
  {
    MulLe(0, low, t);
    MulLt(low, 2 * p', t);
    MulAssoc(2, p', t);
    MulAssoc(low, 2, t);
    assert low * (2 * t) == 2 * (low * t);
    if low >= p' {
      MulLe(p', low, t);
      Distribute(low, -p', 2 * t);
      assert -p' * (2 * t) == -w;
    } else {
      MulLt(low, p', t);
    }
  }

  /** A left shift by one bit within a cell. */
  method Double(w: nat, x: nat) returns (y: nat)
    requires x < w
    ensures y == if 2 * x >= w then 2 * x - w else 2 * x
  {
    ModOnce(2 * x, w);
    y := (2 * x) % w;
  }

  /** The shift of quotient, remainder and dividend by one bit. */
  method ShiftLeft(w: nat, h: nat, l: nat, q: nat) returns (c: nat, h': nat, l': nat, q': nat)
    requires h < w && l < w && 2 * q < w && w % 2 == 0
    ensures c <= 1 && h' < w
    ensures Partial(w, c, h') == 2 * h + (if 2 * l >= w then 1 else 0)
    ensures l' == (if 2 * l >= w then 2 * l - w else 2 * l) && q' == 2 * q
  {
    c := if 2 * h >= w then 1 else 0;  // HIGHBIT
    h' := Double(w, h);
    h' := h' + (if 2 * l >= w then 1 else 0);
    l' := Double(w, l);
    q' := Double(w, q);
  }

  /** The loop of the restoring `umdiv`, for a cell of `n` bits. */
  method RestoringLoop(n: nat, w: nat, ghost u: nat, v: nat, high: nat, low0: nat) returns (q: nat, h: nat)
    requires w == Pow2(n) && w % 2 == 0 && 0 < v < w && high < v && low0 < w
    requires u == high * w + low0 && u < v * w
    ensures u == q * v + h && h < v
  {
    var l: nat := low0;
    var i: nat, c: nat := n, 0;
    q, h := 0, high;
    ghost var low: nat := l;
    PendingStart(n, u, v, high, low0);
    while true
      invariant c <= 1 && h < w && Pending(n, u, v, i, q, Partial(w, c, h), low, l)
      decreases i
    {
      PendingSubtract(n, u, v, i, q, Partial(w, c, h), low, l);
      q, h := Subtract(w, v, c, h, q);
      if i == 0 { break; }
      i := i - 1;
      PendingShift(n, u, v, i, q, h, low, l);
      low := if 2 * l >= w then low - Pow2(i) else low;
      c, h, l, q := ShiftLeft(w, h, l, q);
    }
  }

  /** `umdiv` by shifting and subtracting, one bit at a time. */
  method UmdivRestoring(h: nat, u: nat, v: nat) returns (res: DivResult)
    requires h > 0 && v < Cells(h) && u < Cells(h) * Cells(h)
    ensures res == Umdiv(Cells(h), u, v)
  {
    var w := Cells(h);
    if v == 0 { return Thrown(DivZero); }
    if u / w >= v { return Thrown(ResultRange); }
    HalfSquared(h);
    DivMod(u, w);
    DivBound(u, w, v);
    var q, r := RestoringLoop(2 * h, w, u, v, u / w, u % w);
    DivUnique(u, v, q, r);
    res := Quotient(q, r);
  }
}
