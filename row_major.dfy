/**
 * Row-major flattening of a two-dimensional grid: slot (i, j) of a grid whose
 * rows hold `stride` slots sits at position i * stride + j.  Both generators
 * walk their grids in this order with an advancing pointer, so both rely on
 * the facts proved here.
 */
module RowMajor {

  /** Position of grid slot (i, j) when each row holds `stride` slots. */
  function Flat(i: nat, j: nat, stride: nat): nat {
    i * stride + j
  }

  /** A product with a factor of at least one is at least the other factor. */
  lemma {:induction false} ProductAtLeast(a: int, d: nat)
    requires a >= 1
    ensures a * d >= d
  {
    if a > 1 {
      ProductAtLeast(a - 1, d);
      assert a * d == (a - 1) * d + d;
    }
  }

  /** Division by the stride recovers the grid coordinates of a flat position. */
  lemma {:induction false} FlatDivMod(i: nat, j: nat, stride: nat)
    requires j < stride
    ensures Flat(i, j, stride) / stride == i
    ensures Flat(i, j, stride) % stride == j
  {
    var x := Flat(i, j, stride);
    var q, r := x / stride, x % stride;
    assert x == q * stride + r;
    assert (i - q) * stride == r - j;
    if q < i {
      ProductAtLeast(i - q, stride);
      assert false;
    } else if q > i {
      ProductAtLeast(q - i, stride);
      assert false;
    }
  }

  /** A slot inside a grid of `rows` rows lies inside the flattened array. */
  lemma {:induction false} FlatBelow(i: nat, j: nat, stride: nat, rows: nat)
    requires i < rows && j < stride
    ensures Flat(i, j, stride) < rows * stride
  {
    ProductAtLeast(rows - i, stride);
    assert rows * stride == i * stride + (rows - i) * stride;
  }

  /** The neighbours of a slot in the next column and the next row. */
  lemma FlatNeighbours(i: nat, j: nat, stride: nat)
    ensures Flat(i, j, stride) + 1 == Flat(i, j + 1, stride)
    ensures Flat(i, j, stride) + stride == Flat(i + 1, j, stride)
    ensures Flat(i, j, stride) + stride + 1 == Flat(i + 1, j + 1, stride)
  {
  }

  /** The first slot of row i, for i up to the number of rows, lies within the flattened array. */
  lemma {:induction false} RowStartWithin(i: nat, stride: nat, rows: nat)
    requires i <= rows
    ensures Flat(i, 0, stride) <= rows * stride
  {
    assert rows * stride == i * stride + (rows - i) * stride;
  }

  /**
   * Every position of a flattened grid of `rows` rows comes from exactly one
   * slot: the one named by its quotient and remainder.
   */
  lemma {:induction false} SplitFlat(k: nat, stride: nat, rows: nat)
    requires k < rows * stride
    ensures stride > 0
    ensures k / stride < rows && k % stride < stride
    ensures Flat(k / stride, k % stride, stride) == k
  {
    if stride == 0 {
      assert false;
    }
    var q := k / stride;
    if q >= rows {
      assert false;
    }
  }
}
