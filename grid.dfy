/**
 * Row-major cell numbering of a `w`-wide grid, as the cloth uses it: cell
 * `(x, y)` has index `y * w + x`. The lemmas here are the integer facts about
 * that numbering (division and remainder recover the cell, cells of earlier
 * rows come first, every cell of a `w` x `h` grid is below `w * h`).
 */
module GridArith {

  /**
   * The index of cell `(x, y)`, that is `y * w + x` (see CellValue). It is
   * defined row by row so that the verifier does not unfold the product.
   */
  function Cell(w: nat, x: nat, y: nat): nat {
    if y == 0 then x else Cell(w, x, y - 1) + w
  }

  lemma {:induction false} CellValue(w: nat, x: nat, y: nat)
    ensures Cell(w, x, y) == y * w + x
  {
    if y > 0 {
      CellValue(w, x, y - 1);
      assert y * w == (y - 1) * w + w;
    }
  }

  /** Moving along a row adds the column. */
  lemma {:induction false} CellInRow(w: nat, x: nat, y: nat)
    ensures Cell(w, x, y) == Cell(w, 0, y) + x
  {
    if y > 0 { CellInRow(w, x, y - 1); }
  }

  /** One more row of `a` cells adds `a`. */
  lemma MulSucc(a: nat, b: nat)
    ensures a * (b + 1) == a * b + a
  {
  }

  function Min(a: int, b: int): int {
    if a <= b then a else b
  }

  lemma MulAtLeastOnce(a: int, w: nat)
    requires a >= 1
    ensures a * w >= w
  {
  }

  lemma MulMonotone(a: nat, b: nat, w: nat)
    requires a <= b
    ensures a * w <= b * w
  {
  }

  /** Division and remainder by the width recover the row and the column. */
  lemma {:induction false} DivModCell(w: nat, x: nat, y: nat)
    requires x < w
    ensures Cell(w, x, y) / w == y && Cell(w, x, y) % w == x
  {
    CellValue(w, x, y);
    var n := Cell(w, x, y);
    var q, r := n / w, n % w;
    assert (q - y) * w == x - r;
    NoMultipleBetween(q - y, w);
  }

  /** The only multiple of `w` strictly between `-w` and `w` is zero. */
  lemma NoMultipleBetween(a: int, w: nat)
    requires -(w as int) < a * w < w
    ensures a == 0
  {
    if a >= 1 {
      MulAtLeastOnce(a, w);
    } else if a <= -1 {
      MulAtLeastOnce(-a, w);
    }
  }

  /** Every index below `w * h` is a cell of the grid, in the column `i % w` and the row `i / w`. */
  lemma CellOf(w: nat, h: nat, i: nat) returns (x: nat, y: nat)
    requires i < w * h
    ensures 0 < w && x < w && y < h && i == Cell(w, x, y)
    ensures x == i % w && y == i / w
  {
    x, y := i % w, i / w;
    assert i == y * w + x;
    CellValue(w, x, y);
    if y >= h {
      MulMonotone(h, y, w);
      assert false;
    }
  }

  /** A cell of an earlier row comes before the first cell of row `y`. */
  lemma CellBelowRow(w: nat, x: nat, y': nat, y: nat)
    requires x < w && y' < y
    ensures Cell(w, x, y') < Cell(w, 0, y)
  {
    MulMonotone(y' + 1, y, w);
    CellValue(w, x, y');
    CellValue(w, 0, y);
  }

  /** Every cell of a `w` x `h` grid has an index below `w * h`. */
  lemma CellInGrid(w: nat, h: nat, x: nat, y: nat)
    requires x < w && y < h
    ensures Cell(w, x, y) < w * h
  {
    CellBelowRow(w, x, y, h);
    CellValue(w, 0, h);
  }
}
