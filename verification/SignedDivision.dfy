/** Signed double-by-single division: symmetric and floored
    (engine/support.c, engine/dblsub.c). */
module SignedDivision {
  import opened Basics
  import opened Words
  import opened Division

  function Abs(n: int): nat {
    if n < 0 then -n else n
  }

  /** `q` and `r` are quotient and remainder with the quotient rounded towards
      zero (section 6.1.2214 of ANS Forth X3.215-1994). */
  ghost predicate Symmetric(n: int, d: int, q: int, r: int) {
    && n == q * d + r
    && Abs(r) < Abs(d)
    && (r > 0 ==> n > 0) && (r < 0 ==> n < 0)
  }

  /** `q` and `r` are quotient and remainder with the quotient rounded towards
      negative infinity (section 6.1.1561 of ANS Forth X3.215-1994). */
  ghost predicate Floored(n: int, d: int, q: int, r: int) {
    && n == q * d + r
    && (if d > 0 then 0 <= r < d else d < r <= 0)
  }

  function SymQuotient(n: int, d: int): int
    requires d != 0
  {
    var q := Abs(n) / Abs(d);
    if (n < 0) != (d < 0) then -q else q
  }

  function SymRemainder(n: int, d: int): int
    requires d != 0
  {
    var r := Abs(n) % Abs(d);
    if n < 0 then -r else r
  }

  function FloorQuotient(n: int, d: int): int
    requires d != 0
  {
    if d > 0 then n / d else (-n) / (-d)
  }

  function FloorRemainder(n: int, d: int): int
    requires d != 0
  {
    if d > 0 then n % d else -((-n) % (-d))
  }

  lemma {:induction false} SymmetricIs(n: int, d: int, q: int, r: int)
    requires d != 0
    ensures Symmetric(n, d, q, r) <==> q == SymQuotient(n, d) && r == SymRemainder(n, d)
  {
    var a, b := Abs(n), Abs(d);
    DivMod(a, b);
    if Symmetric(n, d, q, r) {
      var q' := if (n < 0) != (d < 0) then -q else q;
      var r' := if n < 0 then -r else r;
      assert a == q' * b + r' by { Signs(n, d, q, r); }
      DivUnique(a, b, q', r');
    } else if q == SymQuotient(n, d) && r == SymRemainder(n, d) {
      Signs(n, d, q, r);
      assert false;
    }
  }

  lemma {:induction false} Signs(n: int, d: int, q: int, r: int)
    ensures var q' := if (n < 0) != (d < 0) then -q else q; var r' := if n < 0 then -r else r;
            n == q * d + r <==> Abs(n) == q' * Abs(d) + r'
  {
    assert (-q) * d == -(q * d) && q * (-d) == -(q * d) && (-q) * (-d) == q * d;
  }

  lemma {:induction false} FlooredIs(n: int, d: int, q: int, r: int)
    requires d != 0
    ensures Floored(n, d, q, r) <==> q == FloorQuotient(n, d) && r == FloorRemainder(n, d)
  {
    assert q * (-d) == -(q * d);
    if d > 0 {
      DivMod(n, d);
      if Floored(n, d, q, r) { DivUnique(n, d, q, r); }
    } else {
      DivMod(-n, -d);
      if Floored(n, d, q, r) { DivUnique(-n, -d, q, -r); }
    }
  }

  /** A signed division succeeds iff the divisor is not 0 and the quotient
      fits a signed cell. */
  function Checked(w: nat, d: int, q: int, r: int): DivResult
    requires w > 0
  {
    if d == 0 then Thrown(DivZero)
    else if !(-(w as int) <= 2 * q < w) then Thrown(ResultRange)
    else Quotient(Unsigned(w, q), Unsigned(w, r))
  }

  function Smdiv(w: nat, n: int, d: int): DivResult
    requires w > 0
  {
    if d == 0 then Thrown(DivZero) else Checked(w, d, SymQuotient(n, d), SymRemainder(n, d))
  }

  function Fmdiv(w: nat, n: int, d: int): DivResult
    requires w > 0
  {
    if d == 0 then Thrown(DivZero) else Checked(w, d, FloorQuotient(n, d), FloorRemainder(n, d))
  }

  /** Two's complement negation within `m` values. */
  function Negated(m: nat, x: nat): (r: nat)
    requires x < m
    ensures r < m
    ensures r == if x == 0 then 0 else m - x
  {
    ModOnce(m - x, m);
    (m - x) % m
  }

  /** Adding 0 or 1 within a cell. */
  method Increment(w: nat, x: nat, carry: nat) returns (y: nat)
    requires x < w && carry <= 1
    ensures y == if x + carry == w then 0 else x + carry
  {
    ModOnce(x + carry, w);
    y := (x + carry) % w;
  }

  /** `dnegate` on the halves of a double cell. */
  method Dnegate(w: nat, hi: nat, lo: nat) returns (hi': nat, lo': nat)
    requires w > 0 && hi < w && lo < w
    ensures hi' < w && lo' < w && hi * w + lo < w * w
    ensures hi' * w + lo' == Negated(w * w, hi * w + lo)
  {
    hi' := Increment(w, w - 1 - hi, if lo == 0 then 1 else 0);
    lo' := Negated(w, lo);
    NegatedHalves(w, hi, lo, hi', lo');
  }

  lemma {:induction false} NegatedHalves(w: nat, hi: nat, lo: nat, hi': nat, lo': nat)
    requires w > 0 && hi < w && lo < w && lo' == Negated(w, lo)
    requires hi' == if lo != 0 then w - 1 - hi else if hi == 0 then 0 else w - hi
    ensures hi * w + lo < w * w
    ensures hi' * w + lo' == Negated(w * w, hi * w + lo)
  {
    MulLe(hi + 1, w, w);
    Distribute(hi, 1, w);
    Distribute(w - hi, hi, w);
    if hi < w { Distribute(w - 1 - hi, 1, w); }
    if hi > 0 { MulLe(1, hi, w); }
  }

  lemma {:induction false} SignOfHigh(w: nat, x: nat)
    requires w > 0 && w % 2 == 0 && x < w * w
    ensures x / w < w
    ensures 2 * (x / w) >= w <==> 2 * x >= w * w
  {
    DivBound(x, w, w);
    var half := w / 2;
    DivBound(x, w, half);
    assert 2 * (half * w) == w * w;
  }

  lemma {:induction false} SignedAbs(m: nat, x: nat)
    requires x < m && m % 2 == 0
    ensures Signed(m, x) < 0 <==> 2 * x >= m
    ensures Abs(Signed(m, x)) == if 2 * x >= m then Negated(m, x) else x
  {
  }

  lemma {:induction false} SquareEven(w: nat)
    requires w % 2 == 0
    ensures (w * w) % 2 == 0
  {
    assert w * w == 2 * ((w / 2) * w);
  }

  lemma {:induction false} UnsignedNegated(w: nat, x: nat)
    requires x < w
    ensures Unsigned(w, -(x as int)) == Negated(w, x) && Unsigned(w, x) == x
  {
    ModOnce(-(x as int), w);
    ModOnce(x, w);
  }

  /** The sign adjustments of `smdiv` behind a successful unsigned division. */
  lemma {:induction false} SmdivSigns(w: nat, n: int, d: int, q: nat, r: nat)
    requires w > 0 && d != 0 && q == Abs(n) / Abs(d) < w && r == Abs(n) % Abs(d) < w
    ensures var q' := if (n < 0) != (d < 0) then Negated(w, q) else q;
            var r' := if n < 0 then Negated(w, r) else r;
            var bad := if (n < 0) != (d < 0) then 0 < q' && 2 * q' < w else 2 * q' >= w;
            Smdiv(w, n, d) == if bad then Thrown(ResultRange) else Quotient(q', r')
  {
    UnsignedNegated(w, q);
    UnsignedNegated(w, r);
  }

  lemma {:induction false} SmdivThrown(w: nat, n: int, d: int)
    requires w > 0 && Umdiv(w, Abs(n), Abs(d)).Thrown?
    ensures Smdiv(w, n, d) == Umdiv(w, Abs(n), Abs(d))
  {
    UmdivThrows(w, Abs(n), Abs(d));
  }

  method AdjustSigns(
    w: nat, ghost n: int, ghost d: int, nneg: bool, dneg: bool, q0: nat, r0: nat)
    returns (res: DivResult)
    requires w > 0 && d != 0 && q0 == Abs(n) / Abs(d) < w && r0 == Abs(n) % Abs(d) < w
    requires nneg == (n < 0) && dneg == (d < 0)
    ensures res == Smdiv(w, n, d)
  {
    SmdivSigns(w, n, d, q0, r0);
    var q, r := q0, r0;
    if nneg != dneg {
      q := Negated(w, q);
      if 0 < q && 2 * q < w { return Thrown(ResultRange); }  // q == 0 is possible
    } else {
      if 2 * q >= w { return Thrown(ResultRange); }
    }
    if nneg { r := Negated(w, r); }
    res := Quotient(q, r);
  }

  /** `smdiv`, on the cells that hold its arguments. */
  method SmdivCells(h: nat, num: nat, denom: nat) returns (res: DivResult)
    requires h >= 4 && h % 4 == 0 && num < Cells(h) * Cells(h) && denom < Cells(h)
    ensures res == Smdiv(Cells(h), Signed(Cells(h) * Cells(h), num), Signed(Cells(h), denom))
  {
    var w := Cells(h);
    HalfSquared(h);
    SquareEven(w);
    SignOfHigh(w, num);
    var nneg, dneg := 2 * (num / w) >= w, 2 * denom >= w;
    var n := if nneg then Negated(w * w, num) else num;
    var d := if dneg then Negated(w, denom) else denom;
    SignedAbs(w * w, num);
    SignedAbs(w, denom);
    ghost var sn, sd := Signed(w * w, num), Signed(w, denom);
    res := UmdivNormalized(h, n, d);
    UmdivThrows(w, n, d);
    if res.Thrown? {
      SmdivThrown(w, sn, sd);
    } else {
      RemainderFits(n, d, w);
      res := AdjustSigns(w, sn, sd, nneg, dneg, res.q, res.r);
    }
  }

  lemma {:induction false} RemainderFits(n: nat, d: nat, w: nat)
    requires 0 < d < w
    ensures n % d < w
  {
    DivMod(n, d);
  }

  // ----- floored division -----

  /** `n1` is the dividend after the sign of the divisor has been moved to it,
      `d1` the absolute divisor. */
  lemma {:induction false} MoveSign(w: nat, n: int, d: int)
    requires w > 0 && d != 0
    ensures var n1 := if d < 0 then -n else n; var d1 := Abs(d);
            FloorQuotient(n, d) == n1 / d1 && FloorRemainder(n, d) == if d < 0 then -(n1 % d1) else n1 % d1
  {
  }

  /** A negative dividend is made non-negative by adding the divisor to its
      high cell, which adds `w` to the quotient. */
  lemma {:induction false} AddToHigh(w: int, n1: int, d1: int)
    requires w > 0 && 0 < d1
    ensures (n1 + d1 * w) / d1 == n1 / d1 + w && (n1 + d1 * w) % d1 == n1 % d1
  {
    DivMod(n1, d1);
    Distribute(n1 / d1, w, d1);
    assert d1 * w == w * d1;
    DivUnique(n1 + d1 * w, d1, n1 / d1 + w, n1 % d1);
  }

  /** `DHI_IS(num,DHI(num)+denom)` for a negative dividend. */
  function AddHigh(w: nat, c: nat, d1: nat): (u: nat)
    requires w > 0 && c < w * w && d1 < w
    ensures u < w * w
  {
    SignBound(w, (c / w + d1) % w, c % w);
    ((c / w + d1) % w) * w + c % w
  }

  lemma {:induction false} SignBound(w: nat, hi: nat, lo: nat)
    requires hi < w && lo < w
    ensures hi * w + lo < w * w
  {
    MulLe(hi + 1, w, w);
    Distribute(hi, 1, w);
  }

  lemma {:induction false} HighSum(w: int, c: int, d1: int, hi: int, lo: int)
    requires w > 0 && c == hi * w + lo && 0 <= hi < w && 0 <= lo < w && 0 < d1 < w
    ensures (hi + d1) * w + lo == c + d1 * w
    ensures (hi + d1 - w) * w + lo == c + d1 * w - w * w
    ensures hi + d1 < w <==> c + d1 * w < w * w
  {
    Distribute(hi, d1, w);
    Distribute(hi + d1 - w, w, w);
    if hi + d1 < w { MulLe(hi + d1 + 1, w, w); Distribute(hi + d1, 1, w); }
    else { MulLe(w, hi + d1, w); }
  }

  lemma {:induction false} AddHighIs(w: nat, c: nat, d1: nat)
    requires w > 0 && c < w * w && 0 < d1 < w
    ensures AddHigh(w, c, d1) == if c + d1 * w < w * w then c + d1 * w else c + d1 * w - w * w
    ensures c + d1 * w < w * w ==> Umdiv(w, AddHigh(w, c, d1), d1) == Thrown(ResultRange)
  {
    DivMod(c, w);
    DivBound(c, w, w);
    ModOnce(c / w + d1, w);
    HighSum(w, c, d1, c / w, c % w);
    if c + d1 * w < w * w {
      DivUnique(c + d1 * w, w, c / w + d1, c % w);
    }
  }

  /** What `fmdiv` does with the cells of the dividend and the absolute
      divisor, up to the sign of the remainder. */
  function FloorCore(w: nat, c: nat, d1: nat): DivResult
    requires w > 0 && c < w * w && d1 < w
  {
    var negative := 2 * c >= w * w;
    var ures := Umdiv(w, if negative then AddHigh(w, c, d1) else c, d1);
    if ures.Quotient? && negative != (2 * ures.q >= w) then Thrown(ResultRange) else ures
  }

  lemma {:induction false} CorePositive(w: nat, c: nat, d1: nat)
    requires w > 0 && 2 * c < w * w && 0 < d1 < w
    ensures FloorCore(w, c, d1) == if 2 * (c / d1) < w then Quotient(c / d1, c % d1) else Thrown(ResultRange)
  {
    UmdivThrows(w, c, d1);
  }

  lemma {:induction false} CoreNegative(w: nat, n1: int, c: nat, d1: nat)
    requires w > 0 && c < w * w <= 2 * c && 0 < d1 < w && n1 == c - w * w
    ensures 2 * (n1 / d1) < w
    ensures FloorCore(w, c, d1) == if -(w as int) <= 2 * (n1 / d1) then Quotient(n1 / d1 + w, n1 % d1)
            else Thrown(ResultRange)
  {
    AddHighIs(w, c, d1);
    NegativeQuotient(w, n1, d1);
    if c + d1 * w >= w * w {
      AddToHigh(w, n1, d1);
      UmdivThrows(w, AddHigh(w, c, d1), d1);
    }
  }

  lemma {:induction false} NegativeQuotient(w: int, n1: int, d1: int)
    requires d1 > 0 && n1 < 0
    ensures n1 / d1 < 0
    ensures n1 + d1 * w < 0 ==> n1 / d1 < -w
  {
    DivBound(n1, d1, 0);
    assert (-w) * d1 == -(d1 * w);
    DivBound(n1, d1, -w);
  }

  /** The most negative double negated: it looks negative, but is 2^(2N-1). */
  lemma {:induction false} CoreOverflow(w: nat, c: nat, d1: nat)
    requires w > 0 && w % 2 == 0 && 2 * c == w * w && 0 < d1 && 2 * d1 <= w
    ensures c < w * w && FloorCore(w, c, d1) == Thrown(ResultRange)
    ensures c / d1 >= w
  {
    MulLe(2 * d1, w, w);
    MulAssoc(2, d1, w);
    assert d1 * w == w * d1;
    DivBound(c, d1, w);
    AddHighIs(w, c, d1);
    if c + d1 * w >= w * w {
      assert AddHigh(w, c, d1) == 0;
      DivUnique(0, d1, 0, 0);
      DivUnique(0, w, 0, 0);
    }
  }

  /** `c` is the dividend with the sign of the divisor moved to it. */
  lemma {:induction false} FloorCoreIs(w: nat, n1: int, c: nat, d1: nat)
    requires w > 0 && w % 2 == 0 && 0 < d1 && 2 * d1 <= w
    requires -(w * w) as int <= 2 * n1 <= w * w && c < w * w && (c == n1 || c == n1 + w * w)
    ensures var q := n1 / d1;
            FloorCore(w, c, d1) == if -(w as int) <= 2 * q < w then Quotient(Unsigned(w, q), n1 % d1)
              else Thrown(ResultRange)
  {
    var q := n1 / d1;
    DivBound(n1, d1, 0);
    if 2 * n1 == w * w {
      CoreOverflow(w, c, d1);
    } else if n1 >= 0 {
      CorePositive(w, c, d1);
      if 2 * q < w { ModOnce(q, w); }
    } else {
      CoreNegative(w, n1, c, d1);
      if -(w as int) <= 2 * q { ModOnce(q, w); }
    }
  }

  lemma {:induction false} SignedBounds(m: nat, x: nat)
    requires x < m && m % 2 == 0
    ensures -(m as int) <= 2 * Signed(m, x) < m
  {
  }

  lemma {:induction false} MovedSign(w: nat, num: nat, denom: nat)
    requires w > 0 && w % 2 == 0 && num < w * w && denom < w
    ensures var n, d := Signed(w * w, num), Signed(w, denom);
            var n1 := if d < 0 then -n else n;
            var c := if d < 0 then Negated(w * w, num) else num;
            -(w * w) as int <= 2 * n1 <= w * w && (c == n1 || c == n1 + w * w) && 2 * Abs(d) <= w
  {
    SquareEven(w);
    SignedBounds(w * w, num);
    SignedBounds(w, denom);
  }

  /** The sign adjustment of `fmdiv` behind the core. */
  lemma {:induction false} FmdivSigns(w: nat, n: int, d: int, n1: int)
    requires w > 0 && d != 0 && n1 == (if d < 0 then -n else n) && Abs(d) < w
    ensures var q, r := n1 / Abs(d), n1 % Abs(d);
            0 <= r < w &&
            Fmdiv(w, n, d) == if !(-(w as int) <= 2 * q < w) then Thrown(ResultRange)
                              else Quotient(Unsigned(w, q), if d < 0 then Negated(w, r) else r)
  {
    MoveSign(w, n, d);
    DivMod(n1, Abs(d));
    UnsignedNegated(w, n1 % Abs(d));
  }

  /** `fmdiv`, on the cells that hold its arguments. */
  method FmdivCells(h: nat, num: nat, denom: nat) returns (res: DivResult)
    requires h >= 4 && h % 4 == 0 && num < Cells(h) * Cells(h) && denom < Cells(h)
    ensures res == Fmdiv(Cells(h), Signed(Cells(h) * Cells(h), num), Signed(Cells(h), denom))
  {
    var w := Cells(h);
    HalfSquared(h);
    SignedAbs(w, denom);
    ghost var n, d := Signed(w * w, num), Signed(w, denom);
    ghost var n1 := if d < 0 then -n else n;
    MovedSign(w, num, denom);
    var dneg := 2 * denom >= w;
    var d1 := if dneg then Negated(w, denom) else denom;
    var c := if dneg then Negated(w * w, num) else num;
    SignOfHigh(w, c);
    var negative := 2 * (c / w) >= w;
    res := UmdivNormalized(h, if negative then AddHigh(w, c, d1) else c, d1);
    if denom == 0 || res.Thrown? {
      if denom != 0 { FloorCoreIs(w, n1, c, d1); FmdivSigns(w, n, d, n1); }
      return;
    }
    FloorCoreIs(w, n1, c, d1);
    FmdivSigns(w, n, d, n1);
    if negative != (2 * res.q >= w) {
      return Thrown(ResultRange);
    }
    if dneg { res := Quotient(res.q, Negated(w, res.r)); }
  }

  // ----- what the results mean -----

  /** `smdiv` throws exactly if the divisor is 0 or the symmetric quotient does
      not fit, and otherwise returns that quotient and its remainder. */
  lemma {:induction false} SmdivMeaning(w: nat, n: int, d: int)
    requires w > 0 && w % 2 == 0 && Fits(w, d)
    ensures Smdiv(w, n, d) == Thrown(DivZero) <==> d == 0
    ensures Smdiv(w, n, d) == Thrown(ResultRange) <==>
            d != 0 && !exists q, r :: Symmetric(n, d, q, r) && Fits(w, q)
    ensures Smdiv(w, n, d).Quotient? ==>
            var res := Smdiv(w, n, d);
            res.q < w && res.r < w && Symmetric(n, d, Signed(w, res.q), Signed(w, res.r)) && Fits(w, Signed(w, res.q))
  {
    if d != 0 {
      var q0, r0 := SymQuotient(n, d), SymRemainder(n, d);
      SymmetricIs(n, d, q0, r0);
      forall q, r | Symmetric(n, d, q, r) ensures q == q0 && r == r0 { SymmetricIs(n, d, q, r); }
      if Fits(w, q0) { SignedUnsigned(w, q0); SignedUnsigned(w, r0); }
    }
  }

  /** The same for `fmdiv` and the floored quotient. */
  lemma {:induction false} FmdivMeaning(w: nat, n: int, d: int)
    requires w > 0 && w % 2 == 0 && Fits(w, d)
    ensures Fmdiv(w, n, d) == Thrown(DivZero) <==> d == 0
    ensures Fmdiv(w, n, d) == Thrown(ResultRange) <==>
            d != 0 && !exists q, r :: Floored(n, d, q, r) && Fits(w, q)
    ensures Fmdiv(w, n, d).Quotient? ==>
            var res := Fmdiv(w, n, d);
            res.q < w && res.r < w && Floored(n, d, Signed(w, res.q), Signed(w, res.r)) && Fits(w, Signed(w, res.q))
  {
    if d != 0 {
      var q0, r0 := FloorQuotient(n, d), FloorRemainder(n, d);
      FlooredIs(n, d, q0, r0);
      forall q, r | Floored(n, d, q, r) ensures q == q0 && r == r0 { FlooredIs(n, d, q, r); }
      if Fits(w, q0) { SignedUnsigned(w, q0); SignedUnsigned(w, r0); }
    }
  }
}
