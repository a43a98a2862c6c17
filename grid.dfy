/**
 * The invader formation: a rows-by-cols block of positions listed row by
 * row, column c of row r at (x0 + c * dx, y0 + r * dy).
 */
module Grid {
  import opened Defs

  /** Columns 0 .. cols-1 of row `row`. */
  function GridRow(row: nat, cols: nat, x0: int, dx: int, y0: int, dy: int): (r: seq<Pos>)
    ensures |r| == cols
  {
    seq(cols, c => Pos(x0 + c * dx, y0 + row * dy))
  }

  /** Rows 0 .. rows-1, each one complete before the next starts. */
  function GridRows(rows: nat, cols: nat, x0: int, dx: int, y0: int, dy: int): (g: seq<Pos>)
    ensures |g| == rows * cols
  {
    if rows == 0 then []
    else GridRows(rows - 1, cols, x0, dx, y0, dy) + GridRow(rows - 1, cols, x0, dx, y0, dy)
  }

  /** A multiple of a positive n that lies strictly between -n and n is 0. */
  lemma SmallMultipleIsZero(n: int, d: int)
    requires n > 0 && -n < n * d < n
    ensures d == 0
  {
  }

  /** Writing k as r * cols + c with 0 <= c < cols determines r and c. */
  lemma DivModOfRowMajor(k: int, cols: int, r: int, c: int)
    requires cols > 0 && 0 <= c < cols && k == r * cols + c
    ensures k / cols == r && k % cols == c
  {
    var q, m := k / cols, k % cols;
    assert k == q * cols + m && 0 <= m < cols;
    assert cols * (q - r) == c - m;
    SmallMultipleIsZero(cols, q - r);
  }

  /** Element k of the grid is column k % cols of row k / cols: the order is row-major. */
  lemma {:induction false} GridAt(rows: nat, cols: nat, x0: int, dx: int, y0: int, dy: int, k: nat)
    requires k < rows * cols
    ensures GridRows(rows, cols, x0, dx, y0, dy)[k] == Pos(x0 + (k % cols) * dx, y0 + (k / cols) * dy)
  {
    var prev := GridRows(rows - 1, cols, x0, dx, y0, dy);
    assert |prev| == (rows - 1) * cols;
    if k < |prev| {
      GridAt(rows - 1, cols, x0, dx, y0, dy, k);
    } else {
      var c := k - |prev|;
      DivModOfRowMajor(k, cols, rows - 1, c);
    }
  }
}
