/** Cells and double cells of a machine with `2*h` bits per cell, as numbers
    (engine/forth.h). */
module Words {
  import opened Basics

  function Pow2(n: nat): (r: nat)
    ensures r > 0
  {
    if n == 0 then 1 else 2 * Pow2(n - 1)
  }

  lemma {:induction false} Pow2Add(m: nat, n: nat)
    ensures Pow2(m + n) == Pow2(m) * Pow2(n)
  {
    if m > 0 {
      Pow2Add(m - 1, n);
      assert (m - 1) + n == (m + n) - 1;
      MulAssoc(2, Pow2(m - 1), Pow2(n));
    }
  }

  lemma {:induction false} Pow2Below(m: nat, n: nat)
    requires Pow2(m) < Pow2(n)
    ensures m < n
  {
    if m >= n {
      Pow2Add(n, m - n);
      MulLe(1, Pow2(m - n), Pow2(n));
    }
  }

  /** The number of values of a cell of `2*h` bits. */
  function Cells(h: nat): (r: nat)
    ensures r > 0
  {
    Pow2(2 * h)
  }

  /** The number of values of half a cell. */
  function Half(h: nat): (r: nat)
    ensures r > 0
  {
    Pow2(h)
  }

  lemma {:induction false} Pow2Even(n: nat)
    requires n > 0
    ensures Pow2(n) % 2 == 0 && Pow2(n) >= 2
  {
    assert Pow2(n) == 2 * Pow2(n - 1);
  }

  lemma {:induction false} HalfSquared(h: nat)
    requires h > 0
    ensures Half(h) * Half(h) == Cells(h) && Half(h) >= 2 && Half(h) % 2 == 0 && Cells(h) % 2 == 0
  {
    Pow2Add(h, h);
    Pow2Even(h);
    Pow2Even(2 * h);
    assert h + h == 2 * h;
  }

  lemma {:induction false} DivMod(n: int, d: int)
    requires d > 0
    ensures n == (n / d) * d + n % d && 0 <= n % d < d
    ensures 0 <= n ==> 0 <= n / d
  {
  }

  /** Division with remainder by a positive number is unique. */
  lemma {:induction false} DivUnique(n: int, d: int, q: int, r: int)
    requires d > 0 && n == q * d + r && 0 <= r < d
    ensures q == n / d && r == n % d
  {
    var q', r' := n / d, n % d;
    assert n == q' * d + r' by { assert d * q' + r' == n; }
    if q < q' {
      MulLe(q + 1, q', d);
      Distribute(q, 1, d);
      assert false;
    } else if q' < q {
      MulLe(q' + 1, q, d);
      Distribute(q', 1, d);
      assert false;
    }
  }

  /** Reducing modulo `w` a number that is at most one multiple away. */
  lemma {:induction false} ModOnce(x: int, w: int)
    requires w > 0 && -w <= x < 2 * w
    ensures x % w == if x < 0 then x + w else if x < w then x else x - w
  {
    if x < 0 { DivUnique(x, w, -1, x + w); }
    else if x < w { DivUnique(x, w, 0, x); }
    else { DivUnique(x, w, 1, x - w); }
  }

  lemma {:induction false} DivBound(n: int, d: int, m: int)
    requires d > 0
    ensures n < m * d <==> n / d < m
    ensures m * d <= n <==> m <= n / d
  {
    DivMod(n, d);
    var q := n / d;
    if q < m { MulLe(q + 1, m, d); Distribute(q, 1, d); }
    else { MulLe(m, q, d); }
  }

  /** The signed value of a cell with `w` values. */
  function Signed(w: nat, x: nat): int
    requires x < w
  {
    if 2 * x < w then x else x - w
  }

  /** The cell that holds a signed value. */
  function Unsigned(w: nat, n: int): (x: nat)
    requires w > 0
    ensures x < w
  {
    n % w
  }

  ghost predicate Fits(w: nat, n: int) {
    -(w as int) <= 2 * n < w
  }

  lemma {:induction false} SignedUnsigned(w: nat, n: int)
    requires 0 < w && w % 2 == 0 && Fits(w, n)
    ensures Signed(w, Unsigned(w, n)) == n
  {
    ModOnce(n, w);
  }
}
