/** Small vocabulary about sequences shared by the point enumerators. */
module Sequences {

  /** Position of entry (row, col) when rows of `width` entries are laid end to end. */
  function RowMajor(width: int, row: int, col: int): int {
    row * width + col
  }

  lemma RowMajorBounds(width: int, rows: int, row: int, col: int)
    requires 0 <= row < rows && 0 <= col < width
    ensures 0 <= RowMajor(width, row, col) < rows * width
  {
    MulNonNegative(row, width);
    MulNonNegative(rows - 1 - row, width);
    assert rows * width == row * width + (rows - 1 - row) * width + width;
  }

  lemma {:induction false} MulNonNegative(a: nat, b: nat)
    ensures a * b >= 0
  {
    if a > 0 {
      MulNonNegative(a - 1, b);
      assert a * b == (a - 1) * b + b;
    }
  }

  /** Entry (row, col) after the first `skip` rows is entry (skip + row, col) of all of them. */
  lemma RowMajorShift(width: int, skip: int, row: int, col: int)
    ensures RowMajor(width, skip + row, col) == skip * width + RowMajor(width, row, col)
  {
    assert (skip + row) * width == skip * width + row * width;
  }

  /** Bounds of an entry of a block of `blocks` squares of `width` by `width` entries. */
  lemma RowMajor3Bounds(width: int, blocks: int, i: int, j: int, k: int)
    requires 0 <= i < blocks && 0 <= j < width && 0 <= k < width
    ensures 0 <= RowMajor(width, RowMajor(width, i, j), k) < blocks * (width * width)
  {
    RowMajorBounds(width, blocks, i, j);
    RowMajorBounds(width, blocks * width, RowMajor(width, i, j), k);
    MulAssoc(blocks, width, width);
  }

  /** Skipping one square of `width` by `width` entries. */
  lemma RowMajor3Step(width: int, i: int, j: int, k: int)
    ensures RowMajor(width, RowMajor(width, i + 1, j), k)
         == width * width + RowMajor(width, RowMajor(width, i, j), k)
  {
    RowMajorShift(width, 1, i, j);
    RowMajorShift(width, width, RowMajor(width, i, j), k);
  }

  lemma MulAssoc(a: int, b: int, c: int)
    ensures a * b * c == a * (b * c)
  {
  }

  lemma MulSucc(a: int, b: int)
    ensures (a + 1) * b == b + a * b
  {
  }

  lemma MulPred(a: int, b: int)
    ensures a * b == b + (a - 1) * b
  {
  }

  /** No element occurs twice. */
  predicate Distinct<T(==)>(s: seq<T>) {
    forall i, j :: 0 <= i < j < |s| ==> s[i] != s[j]
  }

  /** Every element is strictly smaller than every later one. */
  predicate Increasing(s: seq<real>) {
    forall i, j :: 0 <= i < j < |s| ==> s[i] < s[j]
  }

  lemma ConcatAssoc<T>(a: seq<T>, b: seq<T>, c: seq<T>)
    ensures a + (b + c) == (a + b) + c
  {
  }

  lemma DistinctConcat<T>(a: seq<T>, b: seq<T>)
    requires Distinct(a) && Distinct(b)
    requires forall x :: x in a ==> x !in b
    ensures Distinct(a + b)
  {
    forall i, j | 0 <= i < j < |a + b|
      ensures (a + b)[i] != (a + b)[j]
    {
      if j < |a| {
      } else if i >= |a| {
        assert (a + b)[i] == b[i - |a|] && (a + b)[j] == b[j - |a|];
      } else {
        assert (a + b)[i] == a[i] && (a + b)[j] == b[j - |a|];
        assert b[j - |a|] in b;
      }
    }
  }
}
