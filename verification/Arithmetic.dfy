// Positions in tables of rows of equal length.
module Arithmetic {

  lemma RowsGrow(a: nat, b: nat, n: nat)
    requires a <= b
    ensures a * n <= b * n
  {
    assert b * n == a * n + (b - a) * n;
  }

  // The row and the place in the row are told from the position.
  lemma RowAndPlace(x: nat, n: nat, r: nat, i: nat)
    requires i < n && x == r * n + i
    ensures x / n == r && x % n == i
  {
    var q, j := x / n, x % n;
    assert x == q * n + j;
    if q < r {
      RowsGrow(q + 1, r, n);
    } else if r < q {
      RowsGrow(r + 1, q, n);
    }
  }
}
