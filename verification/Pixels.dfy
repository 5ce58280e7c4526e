/** Addresses of pixels in a texture of `depth` bytes per pixel. */
module Pixels {
  import opened Basics

  /** The address of byte `k` of the pixel in column `x` and row `y`. */
  function Offset(width: nat, depth: nat, x: int, y: int, k: int): int {
    (y * width + x) * depth + k
  }

  /** Cells of `d` elements are numbered without overlap. */
  lemma {:induction false} CellRange(d: int, a: int, w: int, p: int, k: int)
    requires 0 <= k < d
    ensures a * d <= p * d + k < a * d + w * d <==> a <= p < a + w
  {
    Distribute(a, w, d);
    Distribute(p, 1, d);
    if p < a { MulLe(p + 1, a, d); }
    else {
      MulLe(a, p, d);
      if p < a + w { MulLe(p + 1, a + w, d); } else { MulLe(a + w, p, d); }
    }
  }

  /** A run of `w` pixels in a row holds just the pixels of that row and those
      columns. */
  lemma {:induction false} RowRange(width: nat, depth: nat, row: int, x: int, w: nat, px: int, py: int, k: int)
    requires 0 <= px < width && 0 <= k < depth && 0 <= x && x + w <= width
    ensures var first := Offset(width, depth, x, row, 0); var at := Offset(width, depth, px, py, k);
            && (first <= at < first + w * depth <==> py == row && x <= px < x + w)
            && (py == row ==> at == first + (px - x) * depth + k)
  {
    var a, p := row * width + x, py * width + px;
    CellRange(depth, a, w, p, k);
    Distribute(a, px - x, depth);
    Distribute(row, 1, width);
    Distribute(py, 1, width);
    if py < row { MulLe(py + 1, row, width); }
    else if py > row { MulLe(row + 1, py, width); }
  }

  lemma {:induction false} OffsetBound(width: nat, height: nat, depth: nat, x: int, y: int, k: int)
    requires 0 <= x < width && 0 <= y < height && 0 <= k < depth
    ensures 0 <= Offset(width, depth, x, y, k) < width * height * depth
  {
    MulLe(y + 1, height, width);
    Distribute(y, 1, width);
    MulLe(0, y, width);
    MulLe(0, y * width + x, depth);
    MulLe(y * width + x + 1, height * width, depth);
    Distribute(y * width + x, 1, depth);
    assert height * width == width * height;
  }

  /** A run of pixels in a row stays inside the array. */
  lemma {:induction false} RowBound(width: nat, height: nat, depth: nat, x: int, y: int, w: nat)
    requires 0 <= x && x + w <= width && 0 <= y < height
    ensures 0 <= Offset(width, depth, x, y, 0) <= Offset(width, depth, x, y, 0) + w * depth <= width * height * depth
  {
    MulLe(y + 1, height, width);
    Distribute(y, 1, width);
    MulLe(0, y, width);
    MulLe(0, y * width + x, depth);
    MulLe(0, w, depth);
    Distribute(y * width + x, w, depth);
    MulLe(y * width + x + w, height * width, depth);
    assert height * width == width * height;
  }
}
