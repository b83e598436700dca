/**
 * `generateCube`: every integer lattice point of the cube with the given
 * corner and side length, appended in three nested loops.
 */
module Cube {
  import opened Sequences
  import opened Vector

  /** The lattice point `corner + (x, y, z)`. */
  function Shift(corner: Vec3, x: int, y: int, z: int): Vec3 {
    Vec3(corner.x + x as real, corner.y + y as real, corner.z + z as real)
  }

  /** What the innermost loop appends for fixed `x` and `y`, from `z` on. */
  function ZRun(corner: Vec3, side: int, x: int, y: int, z: int): seq<Vec3>
    decreases side + 1 - z
  {
    if z <= side then [Shift(corner, x, y, z)] + ZRun(corner, side, x, y, z + 1) else []
  }

  /** What the middle loop appends for fixed `x`, from `y` on. */
  function YRun(corner: Vec3, side: int, x: int, y: int): seq<Vec3>
    decreases side + 1 - y
  {
    if y <= side then ZRun(corner, side, x, y, 0) + YRun(corner, side, x, y + 1) else []
  }

  /** What the outer loop appends, from `x` on. */
  function XRun(corner: Vec3, side: int, x: int): seq<Vec3>
    decreases side + 1 - x
  {
    if x <= side then YRun(corner, side, x, 0) + XRun(corner, side, x + 1) else []
  }

  /** The whole lattice, in the order the loops produce it. */
  function Lattice(corner: Vec3, side: int): seq<Vec3> {
    XRun(corner, side, 0)
  }

  /**
   * The source allocates the result with capacity `(sideLength+1)^3`, which
   * makes Go panic when that is negative; hence `sideLength >= -1`.
   */
  method GenerateCube(corner: Vec3, sideLength: int) returns (pts: seq<Vec3>)
    requires sideLength >= -1
    ensures pts == Lattice(corner, sideLength)
  {
    pts := [];
    var x := 0;
    while x <= sideLength
      invariant 0 <= x <= sideLength + 1
      invariant pts + XRun(corner, sideLength, x) == Lattice(corner, sideLength)
    {
      ghost var afterPlane := XRun(corner, sideLength, x + 1);
      var y := 0;
      while y <= sideLength
        invariant 0 <= y <= sideLength + 1
        invariant pts + (YRun(corner, sideLength, x, y) + afterPlane) == Lattice(corner, sideLength)
      {
        ghost var afterRow := YRun(corner, sideLength, x, y + 1) + afterPlane;
        YRunStep(corner, sideLength, x, y, pts, afterPlane);
        var z := 0;
        while z <= sideLength
          invariant 0 <= z <= sideLength + 1
          invariant pts + (ZRun(corner, sideLength, x, y, z) + afterRow) == Lattice(corner, sideLength)
        {
          ZRunStep(corner, sideLength, x, y, z, pts, afterRow);
          pts := pts + [Shift(corner, x, y, z)];
          z := z + 1;
        }
        RowDone(corner, sideLength, x, y, z, pts, afterRow);
        y := y + 1;
      }
      PlaneDone(corner, sideLength, x, y, pts, afterPlane);
      x := x + 1;
    }
  }

  /** One pass of the innermost loop appends the next point and leaves the rest to do. */
  lemma ZRunStep(corner: Vec3, side: int, x: int, y: int, z: int, done: seq<Vec3>, after: seq<Vec3>)
    requires z <= side
    ensures done + (ZRun(corner, side, x, y, z) + after)
         == (done + [Shift(corner, x, y, z)]) + (ZRun(corner, side, x, y, z + 1) + after)
  {
    ConcatAssoc([Shift(corner, x, y, z)], ZRun(corner, side, x, y, z + 1), after);
    ConcatAssoc(done, [Shift(corner, x, y, z)], ZRun(corner, side, x, y, z + 1) + after);
  }

  /** After the innermost loop only the later rows are left to do. */
  lemma RowDone(corner: Vec3, side: int, x: int, y: int, z: int, done: seq<Vec3>, after: seq<Vec3>)
    requires z > side
    ensures done + (ZRun(corner, side, x, y, z) + after) == done + after
  {
    assert ZRun(corner, side, x, y, z) == [];
  }

  /** After the middle loop only the later planes are left to do. */
  lemma PlaneDone(corner: Vec3, side: int, x: int, y: int, done: seq<Vec3>, after: seq<Vec3>)
    requires y > side
    ensures done + (YRun(corner, side, x, y) + after) == done + after
  {
    assert YRun(corner, side, x, y) == [];
  }

  /** One pass of the middle loop starts with a whole row in front of the remaining rows. */
  lemma YRunStep(corner: Vec3, side: int, x: int, y: int, done: seq<Vec3>, after: seq<Vec3>)
    requires y <= side
    ensures done + (YRun(corner, side, x, y) + after)
         == done + (ZRun(corner, side, x, y, 0) + (YRun(corner, side, x, y + 1) + after))
  {
    ConcatAssoc(ZRun(corner, side, x, y, 0), YRun(corner, side, x, y + 1), after);
  }

  lemma {:induction false} ZRunLayout(corner: Vec3, side: int, x: int, y: int, z: int)
    requires z <= side + 1
    ensures |ZRun(corner, side, x, y, z)| == side + 1 - z
    ensures forall j :: 0 <= j < side + 1 - z ==> ZRun(corner, side, x, y, z)[j] == Shift(corner, x, y, z + j)
    decreases side + 1 - z
  {
    if z <= side {
      ZRunLayout(corner, side, x, y, z + 1);
    }
  }

  lemma {:induction false} YRunLength(corner: Vec3, side: int, n: int, x: int, y: int)
    requires n == side + 1 && 0 <= y <= n
    ensures |YRun(corner, side, x, y)| == (n - y) * n
    decreases n - y
  {
    if y <= side {
      ZRunLayout(corner, side, x, y, 0);
      YRunLength(corner, side, n, x, y + 1);
      MulSucc(n - (y + 1), n);
    }
  }

  lemma {:induction false} YRunAt(corner: Vec3, side: int, n: int, x: int, y: int, j: int, k: int)
    requires n == side + 1 && 0 <= y && 0 <= j < n - y && 0 <= k < n
    ensures 0 <= RowMajor(n, j, k) < |YRun(corner, side, x, y)|
    ensures YRun(corner, side, x, y)[RowMajor(n, j, k)] == Shift(corner, x, y + j, k)
    decreases j
  {
    YRunLength(corner, side, n, x, y);
    RowMajorBounds(n, n - y, j, k);
    var head, tail := ZRun(corner, side, x, y, 0), YRun(corner, side, x, y + 1);
    assert YRun(corner, side, x, y) == head + tail;
    ZRunLayout(corner, side, x, y, 0);
    if j == 0 {
      assert RowMajor(n, j, k) == k;
      assert head[k] == Shift(corner, x, y, k);
    } else {
      RowMajorShift(n, 1, j - 1, k);
      YRunAt(corner, side, n, x, y + 1, j - 1, k);
      assert tail[RowMajor(n, j - 1, k)] == Shift(corner, x, y + 1 + (j - 1), k);
    }
  }

  lemma {:induction false} XRunLength(corner: Vec3, side: int, n: int, x: int)
    requires n == side + 1 && 0 <= x <= n
    ensures |XRun(corner, side, x)| == (n - x) * (n * n)
    decreases n - x
  {
    if x <= side {
      YRunLength(corner, side, n, x, 0);
      XRunLength(corner, side, n, x + 1);
      MulSucc(n - (x + 1), n * n);
    }
  }

  lemma {:induction false} XRunAt(corner: Vec3, side: int, n: int, x: int, i: int, j: int, k: int)
    requires n == side + 1 && 0 <= x && 0 <= i < n - x && 0 <= j < n && 0 <= k < n
    ensures 0 <= RowMajor(n, RowMajor(n, i, j), k) < |XRun(corner, side, x)|
    ensures XRun(corner, side, x)[RowMajor(n, RowMajor(n, i, j), k)] == Shift(corner, x + i, j, k)
    decreases i
  {
    XRunLength(corner, side, n, x);
    RowMajor3Bounds(n, n - x, i, j, k);
    var head, tail := YRun(corner, side, x, 0), XRun(corner, side, x + 1);
    assert XRun(corner, side, x) == head + tail;
    YRunLength(corner, side, n, x, 0);
    if i == 0 {
      assert RowMajor(n, i, j) == j;
      YRunAt(corner, side, n, x, 0, j, k);
    } else {
      RowMajor3Step(n, i - 1, j, k);
      XRunAt(corner, side, n, x + 1, i - 1, j, k);
      assert tail[RowMajor(n, RowMajor(n, i - 1, j), k)] == Shift(corner, x + 1 + (i - 1), j, k);
    }
  }

  /** Position of `corner + (x, y, z)` in the output: x outermost, then y, then z. */
  function LatticeIndex(side: int, x: int, y: int, z: int): int {
    RowMajor(side + 1, RowMajor(side + 1, x, y), z)
  }

  /**
   * The lattice has `(side+1)^3` points, x outermost, then y, then z: the point
   * `corner + (x, y, z)` sits at position `(x*(side+1) + y)*(side+1) + z`.
   */
  lemma LatticeLayout(corner: Vec3, side: int)
    requires side >= -1
    ensures |Lattice(corner, side)| == (side + 1) * (side + 1) * (side + 1)
    ensures forall x, y, z :: 0 <= x <= side && 0 <= y <= side && 0 <= z <= side ==>
      0 <= LatticeIndex(side, x, y, z) < |Lattice(corner, side)|
    ensures forall x, y, z :: 0 <= x <= side && 0 <= y <= side && 0 <= z <= side ==>
      Lattice(corner, side)[LatticeIndex(side, x, y, z)] == Shift(corner, x, y, z)
  {
    XRunLength(corner, side, side + 1, 0);
    assert (side + 1) * ((side + 1) * (side + 1)) == (side + 1) * (side + 1) * (side + 1);
    forall x, y, z | 0 <= x <= side && 0 <= y <= side && 0 <= z <= side
      ensures 0 <= LatticeIndex(side, x, y, z) < |Lattice(corner, side)|
      ensures Lattice(corner, side)[LatticeIndex(side, x, y, z)] == Shift(corner, x, y, z)
    {
      XRunAt(corner, side, side + 1, 0, x, y, z);
    }
  }

  lemma {:induction false} ZRunMembers(corner: Vec3, side: int, x: int, y: int, z: int, p: Vec3)
    requires p in ZRun(corner, side, x, y, z)
    ensures exists k :: z <= k <= side && p == Shift(corner, x, y, k)
    decreases side + 1 - z
  {
    if p != Shift(corner, x, y, z) {
      ZRunMembers(corner, side, x, y, z + 1, p);
    }
  }

  lemma {:induction false} YRunMembers(corner: Vec3, side: int, x: int, y: int, p: Vec3)
    requires p in YRun(corner, side, x, y)
    ensures exists j, k :: y <= j <= side && 0 <= k <= side && p == Shift(corner, x, j, k)
    decreases side + 1 - y
  {
    if p in ZRun(corner, side, x, y, 0) {
      ZRunMembers(corner, side, x, y, 0, p);
    } else {
      YRunMembers(corner, side, x, y + 1, p);
    }
  }

  lemma {:induction false} XRunMembers(corner: Vec3, side: int, x: int, p: Vec3)
    requires p in XRun(corner, side, x)
    ensures exists i, j, k :: x <= i <= side && 0 <= j <= side && 0 <= k <= side && p == Shift(corner, i, j, k)
    decreases side + 1 - x
  {
    if p in YRun(corner, side, x, 0) {
      YRunMembers(corner, side, x, 0, p);
    } else {
      XRunMembers(corner, side, x + 1, p);
    }
  }

  /** A point is generated exactly when it is `corner` plus offsets in `0..side` on every axis. */
  lemma LatticeMembers(corner: Vec3, side: int, p: Vec3)
    requires side >= -1
    ensures p in Lattice(corner, side) <==>
      exists x, y, z :: 0 <= x <= side && 0 <= y <= side && 0 <= z <= side && p == Shift(corner, x, y, z)
  {
    if p in Lattice(corner, side) {
      XRunMembers(corner, side, 0, p);
    }
    if exists x, y, z :: 0 <= x <= side && 0 <= y <= side && 0 <= z <= side && p == Shift(corner, x, y, z) {
      var x, y, z :| 0 <= x <= side && 0 <= y <= side && 0 <= z <= side && p == Shift(corner, x, y, z);
      LatticeLayout(corner, side);
      assert Lattice(corner, side)[LatticeIndex(side, x, y, z)] == p;
    }
  }
}
