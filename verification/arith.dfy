/** Facts about integer products that the solver does not find unaided. */
module Arith {

  /** 0 <= x <= m and 0 <= w give 0 <= x * w <= m * w. */
  lemma MulMonotone(x: int, m: int, w: int)
    requires 0 <= x <= m && 0 <= w
    ensures 0 <= x * w <= m * w
  {
    assert m * w - x * w == (m - x) * w;
  }

  /** x * w + y with 0 <= y < w determines x and y. */
  lemma RowColumnUnique(w: int, x: int, y: int, x': int, y': int)
    requires 0 <= y < w && 0 <= y' < w
    requires x * w + y == x' * w + y'
    ensures x == x' && y == y'
  {
    if x < x' {
      MulMonotone(x + 1, x', w);
    } else if x' < x {
      MulMonotone(x' + 1, x, w);
    }
  }

  /** Cell k of row a of an n x n matrix stored row after row is inside it. */
  lemma RowCellInBounds(n: int, a: int, k: int)
    requires 0 <= a < n && 0 <= k < n
    ensures 0 <= a * n <= a * n + k < n * n
  {
    MulMonotone(a + 1, n, n);
  }
}
