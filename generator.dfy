/**
 * `CubeGenerator`: the (point, outward normal) samples on the six faces of an
 * axis-aligned cube, in the order the generator sends them down its channel.
 */
module Generator {
  import opened Sequences
  import opened Vector
  import opened GoNumeric

  /** A sample: a surface point and the normal of the face it lies on. */
  type Sample = (Vec3, Vec3)

  datatype CubeGenerator = CubeGenerator(corner: Vec3, sideLength: real, step: real)

  /** `corner` is the vertex with the smallest x, y and z. */
  function NewCubeGenerator(corner: Vec3, sideLength: real, step: real): (g: CubeGenerator)
    ensures g.corner == corner && g.sideLength == sideLength && g.step == step
  {
    CubeGenerator(corner, sideLength, step)
  }

  datatype Axis = X | Y | Z

  function Coord(p: Vec3, a: Axis): real {
    match a
    case X => p.x
    case Y => p.y
    case Z => p.z
  }

  /**
   * An integer bound on the iterations left in `for t := from; t < side; t += step`.
   * It drops by one per iteration, which is why those loops end when `step > 0`.
   */
  function StepsLeft(from: real, side: real, step: real): nat
    requires step > 0.0
  {
    if from < side then ((side - from) / step).Floor + 1 else 0
  }

  lemma StepsLeftDecreases(from: real, side: real, step: real)
    requires step > 0.0 && from < side
    ensures StepsLeft(from + step, side, step) < StepsLeft(from, side, step)
  {
    var d := side - from;
    assert step / step == 1.0;
    assert (d - step) / step == d / step - step / step;
    assert side - (from + step) == d - step;
  }

  /** The values `t` takes in `for t := from; t < side; t += step`. */
  function Offsets(from: real, side: real, step: real): seq<real>
    requires step > 0.0
    decreases StepsLeft(from, side, step)
  {
    if from < side then
      StepsLeftDecreases(from, side, step);
      [from] + Offsets(from + step, side, step)
    else []
  }

  /** The offsets every sweep of a face visits: `for t := 0.0; t < sideLength; t += step`. */
  function Ticks(g: CubeGenerator): seq<real>
    requires g.step > 0.0
  {
    Offsets(0.0, g.sideLength, g.step)
  }

  /** The normal sent with face `k` (0 low, 1 high) of axis `a`: component `2k - 1` on that axis. */
  function Normal(a: Axis, k: real): Vec3 {
    match a
    case X => Vec3(2.0 * k - 1.0, 0.0, 0.0)
    case Y => Vec3(0.0, 2.0 * k - 1.0, 0.0)
    case Z => Vec3(0.0, 0.0, 2.0 * k - 1.0)
  }

  /** Offset from the corner along the axis the middle loop of a face sweeps. */
  function OuterOffset(g: CubeGenerator, a: Axis, p: Vec3): real {
    match a
    case X => p.z - g.corner.z
    case Y => p.z - g.corner.z
    case Z => p.y - g.corner.y
  }

  /** Offset from the corner along the axis the innermost loop of a face sweeps. */
  function InnerOffset(g: CubeGenerator, a: Axis, p: Vec3): real {
    match a
    case X => p.y - g.corner.y
    case Y => p.x - g.corner.x
    case Z => p.x - g.corner.x
  }

  /**
   * The point sent from face `k` of axis `a` at outer offset `o` and inner
   * offset `i`.  The face plane is `corner + k * (sideLength - 1)`, not
   * `corner + k * sideLength`.
   */
  function FacePoint(g: CubeGenerator, a: Axis, k: real, o: real, i: real): (p: Vec3)
    ensures Coord(p, a) == Coord(g.corner, a) + k * (g.sideLength - 1.0)
    ensures OuterOffset(g, a, p) == o && InnerOffset(g, a, p) == i
  {
    var c := g.corner;
    match a
    case X => Vec3(c.x + k * (g.sideLength - 1.0), c.y + i, c.z + o)
    case Y => Vec3(c.x + i, c.y + k * (g.sideLength - 1.0), c.z + o)
    case Z => Vec3(c.x + i, c.y + o, c.z + k * (g.sideLength - 1.0))
  }

  /** What the innermost loop of a face sends for outer offset `o`. */
  function Row(g: CubeGenerator, a: Axis, k: real, o: real, ins: seq<real>): seq<Sample> {
    if ins == [] then []
    else [(FacePoint(g, a, k, o, ins[0]), Normal(a, k))] + Row(g, a, k, o, ins[1..])
  }

  /** What the middle loop of a face sends for the outer offsets `outs`. */
  function Rows(g: CubeGenerator, a: Axis, k: real, outs: seq<real>): seq<Sample>
    requires g.step > 0.0
  {
    if outs == [] then []
    else Row(g, a, k, outs[0], Ticks(g)) + Rows(g, a, k, outs[1..])
  }

  /** Everything one face sends. */
  function Face(g: CubeGenerator, a: Axis, k: real): seq<Sample>
    requires g.step > 0.0
  {
    Rows(g, a, k, Ticks(g))
  }

  /** Faces in sending order: z-low, z-high, y-low, y-high, x-low, x-high. */
  function FaceAxis(f: int): Axis {
    if f < 2 then Z else if f < 4 then Y else X
  }

  function FaceSide(f: int): real {
    if f == 1 || f == 3 || f == 5 then 1.0 else 0.0
  }

  function FaceNormal(f: int): Vec3 {
    Normal(FaceAxis(f), FaceSide(f))
  }

  /** Faces `f` to 5, in sending order. */
  function SurfaceFrom(g: CubeGenerator, f: int): seq<Sample>
    requires g.step > 0.0 && 0 <= f <= 6
    decreases 6 - f
  {
    if f == 6 then [] else Face(g, FaceAxis(f), FaceSide(f)) + SurfaceFrom(g, f + 1)
  }

  /** Every sample the generator sends, in order. */
  function Surface(g: CubeGenerator): seq<Sample>
    requires g.step > 0.0
  {
    SurfaceFrom(g, 0)
  }

  /**
   * The point `p` after the two inner loops of a face of axis `a` have set
   * its free coordinates to outer offset `o` and inner offset `i`.
   */
  function Place(g: CubeGenerator, a: Axis, p: Vec3, o: real, i: real): Vec3 {
    var c := g.corner;
    match a
    case X => p.(y := c.y + i, z := c.z + o)
    case Y => p.(x := c.x + i, z := c.z + o)
    case Z => p.(x := c.x + i, y := c.y + o)
  }

  lemma PlacedOnFace(g: CubeGenerator, a: Axis, k: real, p: Vec3, o: real, i: real)
    requires Coord(p, a) == Coord(g.corner, a) + k * (g.sideLength - 1.0)
    ensures Place(g, a, p, o, i) == FacePoint(g, a, k, o, i)
    ensures Coord(Place(g, a, p, o, i), a) == Coord(p, a)
  {
    match a
    case X =>
    case Y =>
    case Z =>
  }

  /**
   * The two nested loops of one face: the middle loop over the outer offset,
   * the innermost over the inner offset, each `for t := 0.0; t < sideLength;
   * t += step`.  The source writes this sweep out once per axis; here the
   * axis is a parameter.  `p` already holds the face's plane coordinate.
   */
  method SendFace(g: CubeGenerator, a: Axis, k: real, p0: Vec3, n: Vec3) returns (sent: seq<Sample>, p: Vec3)
    requires g.step > 0.0
    requires n == Normal(a, k) && Coord(p0, a) == Coord(g.corner, a) + k * (g.sideLength - 1.0)
    ensures sent == Face(g, a, k)
    ensures Coord(p, a) == Coord(p0, a)
  {
    var side, step := g.sideLength, g.step;
    sent, p := [], p0;
    var o := 0.0;
    while o < side
      invariant Coord(p, a) == Coord(p0, a)
      invariant sent + Rows(g, a, k, Offsets(o, side, step)) == Face(g, a, k)
      decreases StepsLeft(o, side, step)
    {
      ghost var rest := Rows(g, a, k, Offsets(o + step, side, step));
      RowsStep(g, a, k, o, sent);
      var i := 0.0;
      while i < side
        invariant Coord(p, a) == Coord(p0, a)
        invariant sent + (Row(g, a, k, o, Offsets(i, side, step)) + rest) == Face(g, a, k)
        decreases StepsLeft(i, side, step)
      {
        PlacedOnFace(g, a, k, p, o, i);
        p := Place(g, a, p, o, i);
        RowStep(g, a, k, o, i, sent, rest);
        sent := sent + [(p, n)];
        StepsLeftDecreases(i, side, step);
        i := i + step;
      }
      RowDone(g, a, k, o, i, sent, rest);
      StepsLeftDecreases(o, side, step);
      o := o + step;
    }
  }

  /** One pass of a face's innermost loop sends the next sample and leaves the rest to do. */
  lemma RowStep(g: CubeGenerator, a: Axis, k: real, o: real, i: real, done: seq<Sample>, after: seq<Sample>)
    requires g.step > 0.0 && i < g.sideLength
    ensures done + (Row(g, a, k, o, Offsets(i, g.sideLength, g.step)) + after)
         == (done + [(FacePoint(g, a, k, o, i), Normal(a, k))])
            + (Row(g, a, k, o, Offsets(i + g.step, g.sideLength, g.step)) + after)
  {
    var s := (FacePoint(g, a, k, o, i), Normal(a, k));
    var later := Row(g, a, k, o, Offsets(i + g.step, g.sideLength, g.step));
    assert Offsets(i, g.sideLength, g.step)[1..] == Offsets(i + g.step, g.sideLength, g.step);
    assert Row(g, a, k, o, Offsets(i, g.sideLength, g.step)) == [s] + later;
    ConcatAssoc([s], later, after);
    ConcatAssoc(done, [s], later + after);
  }

  /** After a face's innermost loop only the later rows are left to do. */
  lemma RowDone(g: CubeGenerator, a: Axis, k: real, o: real, i: real, done: seq<Sample>, after: seq<Sample>)
    requires g.step > 0.0 && !(i < g.sideLength)
    ensures done + (Row(g, a, k, o, Offsets(i, g.sideLength, g.step)) + after) == done + after
  {
    assert Row(g, a, k, o, Offsets(i, g.sideLength, g.step)) == [];
  }

  /** One pass of a face's middle loop starts with a whole row in front of the later rows. */
  lemma RowsStep(g: CubeGenerator, a: Axis, k: real, o: real, done: seq<Sample>)
    requires g.step > 0.0 && o < g.sideLength
    ensures done + Rows(g, a, k, Offsets(o, g.sideLength, g.step))
         == done + (Row(g, a, k, o, Offsets(0.0, g.sideLength, g.step))
                    + Rows(g, a, k, Offsets(o + g.step, g.sideLength, g.step)))
  {
    assert Offsets(o, g.sideLength, g.step)[1..] == Offsets(o + g.step, g.sideLength, g.step);
  }

  /**
   * The buffer size `Generate` gives its channel, `int(S*S*6 - S*12)`; Go
   * panics when it is negative.  It is a capacity, not the number of samples.
   */
  function ChannelCapacity(g: CubeGenerator): int {
    TruncToInt(g.sideLength * g.sideLength * 6.0 - g.sideLength * 12.0)
  }

  /** A cube of side 1 asks for a channel of capacity -6, so `Generate` panics on it. */
  lemma UnitCubeCapacity(corner: Vec3)
    ensures ChannelCapacity(NewCubeGenerator(corner, 1.0, 1.0)) == -6
  {
  }

  /** `p` with its coordinate on axis `a` set to `v`. */
  function WithCoord(p: Vec3, a: Axis, v: real): (q: Vec3)
    ensures Coord(q, a) == v
    ensures forall b: Axis :: b != a ==> Coord(q, b) == Coord(p, b)
  {
    match a
    case X => p.(x := v)
    case Y => p.(y := v)
    case Z => p.(z := v)
  }

  /**
   * One `for k := 0.0; k < 2; k++` block of the goroutine: for the low face
   * (k = 0) and then the high face (k = 1) of axis `a`, it sets the normal to
   * `2k - 1` on that axis, moves the point onto the face plane
   * `corner + k * (sideLength - 1)` and sweeps the face.  The source writes
   * this block out once per axis; here the axis is a parameter.
   */
  method SendAxis(g: CubeGenerator, a: Axis, p0: Vec3) returns (sent: seq<Sample>, p: Vec3)
    requires g.step > 0.0
    ensures sent == Face(g, a, 0.0) + Face(g, a, 1.0)
  {
    sent, p := [], p0;
    for k := 0 to 2
      invariant k == 0 ==> sent == []
      invariant k == 1 ==> sent == Face(g, a, 0.0)
      invariant k == 2 ==> sent == Face(g, a, 0.0) + Face(g, a, 1.0)
    {
      var kr := k as real;
      var n := Normal(a, kr);
      p := WithCoord(p, a, Coord(g.corner, a) + kr * (g.sideLength - 1.0));
      var face;
      face, p := SendFace(g, a, kr, p, n);
      sent := sent + face;
    }
  }

  /** The six faces in sending order, grouped by axis. */
  lemma SurfaceByAxis(g: CubeGenerator)
    requires g.step > 0.0
    ensures Surface(g) == (Face(g, Z, 0.0) + Face(g, Z, 1.0))
                        + (Face(g, Y, 0.0) + Face(g, Y, 1.0))
                        + (Face(g, X, 0.0) + Face(g, X, 1.0))
  {
    var z0, z1, y0, y1, x0, x1 := Face(g, Z, 0.0), Face(g, Z, 1.0), Face(g, Y, 0.0), Face(g, Y, 1.0), Face(g, X, 0.0), Face(g, X, 1.0);
    assert SurfaceFrom(g, 6) == [];
    assert SurfaceFrom(g, 5) == x1;
    assert SurfaceFrom(g, 4) == x0 + x1;
    assert SurfaceFrom(g, 3) == y1 + (x0 + x1);
    assert SurfaceFrom(g, 2) == y0 + (y1 + (x0 + x1));
    assert SurfaceFrom(g, 1) == z1 + (y0 + (y1 + (x0 + x1)));
    assert SurfaceFrom(g, 0) == z0 + (z1 + (y0 + (y1 + (x0 + x1))));
  }

  /**
   * The values the goroutine sends, in send order: for each axis z, y, x the
   * low face then the high face.  With `step <= 0` and a positive side the
   * source loops for ever, hence `step > 0`; the channel is made before the
   * goroutine starts, hence a non-negative `ChannelCapacity`.  The point is
   * reused across faces as the source reuses `r`.
   */
  method Generate(g: CubeGenerator) returns (sent: seq<Sample>)
    requires g.step > 0.0
    requires ChannelCapacity(g) >= 0
    ensures sent == Surface(g)
  {
    var p := Vec3(0.0, 0.0, 0.0);
    var zFaces, yFaces, xFaces;
    zFaces, p := SendAxis(g, Z, p);
    yFaces, p := SendAxis(g, Y, p);
    xFaces, p := SendAxis(g, X, p);
    sent := zFaces + yFaces + xFaces;
    SurfaceByAxis(g);
  }


  lemma OneMoreStep(j: int, step: real)
    ensures ((j - 1) as real) * step + step == (j as real) * step
  {
  }

  /**
   * The loop `for t := from; t < side; t += step` visits `from + j * step` for
   * `j = 0, 1, ...` while that stays below `side`, and stops at the first `j`
   * where it does not.
   */
  lemma {:induction false} OffsetsShape(from: real, side: real, step: real)
    requires step > 0.0
    ensures forall j :: 0 <= j < |Offsets(from, side, step)| ==>
      Offsets(from, side, step)[j] == from + (j as real) * step && Offsets(from, side, step)[j] < side
    ensures from + (|Offsets(from, side, step)| as real) * step >= side
    decreases StepsLeft(from, side, step)
  {
    if from < side {
      StepsLeftDecreases(from, side, step);
      OffsetsShape(from + step, side, step);
      var r, later := Offsets(from, side, step), Offsets(from + step, side, step);
      assert r == [from] + later;
      forall j | 0 <= j < |r|
        ensures r[j] == from + (j as real) * step && r[j] < side
      {
        if j > 0 {
          assert r[j] == later[j - 1];
          OneMoreStep(j, step);
        }
      }
      OneMoreStep(|r|, step);
    }
  }

  lemma {:induction false} OffsetsAbove(from: real, side: real, step: real)
    requires step > 0.0
    ensures forall t :: t in Offsets(from, side, step) ==> from <= t < side
    decreases StepsLeft(from, side, step)
  {
    if from < side {
      StepsLeftDecreases(from, side, step);
      OffsetsAbove(from + step, side, step);
    }
  }

  /** Each loop over offsets visits strictly increasing values, so none twice. */
  lemma {:induction false} OffsetsIncreasing(from: real, side: real, step: real)
    requires step > 0.0
    ensures Increasing(Offsets(from, side, step))
    ensures Distinct(Offsets(from, side, step))
    decreases StepsLeft(from, side, step)
  {
    if from < side {
      StepsLeftDecreases(from, side, step);
      OffsetsIncreasing(from + step, side, step);
      OffsetsAbove(from + step, side, step);
      var r, later := Offsets(from, side, step), Offsets(from + step, side, step);
      assert r == [from] + later;
      forall i, j | 0 <= i < j < |r|
        ensures r[i] < r[j]
      {
        assert r[j] == later[j - 1] && r[j] in later;
        if i > 0 {
          assert r[i] == later[i - 1];
        }
      }
    }
  }

  /** With unit steps and a whole side `n`, a sweep visits exactly `0, 1, ..., n - 1`. */
  lemma UnitOffsets(n: nat)
    ensures Offsets(0.0, n as real, 1.0) == seq(n, j => j as real)
  {
    var r := Offsets(0.0, n as real, 1.0);
    OffsetsShape(0.0, n as real, 1.0);
    if |r| > 0 {
      assert r[|r| - 1] == 0.0 + ((|r| - 1) as real) * 1.0;
    }
    assert |r| == n;
  }

  /** A row holds one sample per inner offset, in order, all with the face's normal. */
  lemma {:induction false} RowLayout(g: CubeGenerator, a: Axis, k: real, o: real, ins: seq<real>)
    ensures |Row(g, a, k, o, ins)| == |ins|
    ensures forall j :: 0 <= j < |ins| ==> Row(g, a, k, o, ins)[j] == (FacePoint(g, a, k, o, ins[j]), Normal(a, k))
  {
    if ins != [] {
      RowLayout(g, a, k, o, ins[1..]);
      var r := Row(g, a, k, o, ins);
      forall j | 0 <= j < |ins|
        ensures r[j] == (FacePoint(g, a, k, o, ins[j]), Normal(a, k))
      {
        if j > 0 {
          assert r[j] == Row(g, a, k, o, ins[1..])[j - 1];
          assert ins[1..][j - 1] == ins[j];
        }
      }
    }
  }

  lemma {:induction false} RowsLength(g: CubeGenerator, a: Axis, k: real, outs: seq<real>, m: int)
    requires g.step > 0.0 && m == |Ticks(g)|
    ensures |Rows(g, a, k, outs)| == |outs| * m
  {
    if outs != [] {
      RowLayout(g, a, k, outs[0], Ticks(g));
      RowsLength(g, a, k, outs[1..], m);
      MulSucc(|outs| - 1, m);
    }
  }

  /** Sample `j` of row `i` of the rows for `outs` sits at `i * m + j`. */
  lemma {:induction false} RowsAt(g: CubeGenerator, a: Axis, k: real, outs: seq<real>, m: int, i: int, j: int)
    requires g.step > 0.0 && m == |Ticks(g)| && 0 <= i < |outs| && 0 <= j < m
    ensures 0 <= RowMajor(m, i, j) < |Rows(g, a, k, outs)|
    ensures Rows(g, a, k, outs)[RowMajor(m, i, j)] == (FacePoint(g, a, k, outs[i], Ticks(g)[j]), Normal(a, k))
    decreases i
  {
    RowsLength(g, a, k, outs, m);
    RowMajorBounds(m, |outs|, i, j);
    var head, tail := Row(g, a, k, outs[0], Ticks(g)), Rows(g, a, k, outs[1..]);
    assert Rows(g, a, k, outs) == head + tail;
    RowLayout(g, a, k, outs[0], Ticks(g));
    if i == 0 {
      assert RowMajor(m, i, j) == j;
    } else {
      RowMajorShift(m, 1, i - 1, j);
      RowsAt(g, a, k, outs[1..], m, i - 1, j);
      assert outs[1..][i - 1] == outs[i];
    }
  }

  lemma {:induction false} SurfaceFromLength(g: CubeGenerator, f: int, m: int)
    requires g.step > 0.0 && 0 <= f <= 6 && m == |Ticks(g)|
    ensures |SurfaceFrom(g, f)| == (6 - f) * (m * m)
    decreases 6 - f
  {
    if f < 6 {
      RowsLength(g, FaceAxis(f), FaceSide(f), Ticks(g), m);
      SurfaceFromLength(g, f + 1, m);
      MulSucc(6 - (f + 1), m * m);
    }
  }

  /** Position of sample `j` of row `i` of face `f` in the whole output. */
  function SampleIndex(m: int, f: int, i: int, j: int): int {
    RowMajor(m, RowMajor(m, f, i), j)
  }

  /** Sample `(i, j)` of face `f`: outer offset `Ticks(g)[i]`, inner offset `Ticks(g)[j]`. */
  function FaceSample(g: CubeGenerator, f: int, i: int, j: int): Sample
    requires g.step > 0.0 && 0 <= i < |Ticks(g)| && 0 <= j < |Ticks(g)|
  {
    (FacePoint(g, FaceAxis(f), FaceSide(f), Ticks(g)[i], Ticks(g)[j]), FaceNormal(f))
  }

  lemma SampleIndexFirst(m: int, e: int, i: int, j: int)
    requires e == 0
    ensures SampleIndex(m, e, i, j) == RowMajor(m, i, j)
  {
  }

  lemma SampleIndexNext(m: int, e: int, i: int, j: int)
    ensures SampleIndex(m, e, i, j) == m * m + SampleIndex(m, e - 1, i, j)
  {
    RowMajor3Step(m, e - 1, i, j);
  }

  lemma FirstFaceAt(g: CubeGenerator, f: int, m: int, i: int, j: int)
    requires g.step > 0.0 && 0 <= f < 6 && m == |Ticks(g)| && 0 <= i < m && 0 <= j < m
    ensures 0 <= RowMajor(m, i, j) < |Face(g, FaceAxis(f), FaceSide(f))|
    ensures SurfaceFrom(g, f)[RowMajor(m, i, j)] == FaceSample(g, f, i, j)
  {
    var head, tail := Face(g, FaceAxis(f), FaceSide(f)), SurfaceFrom(g, f + 1);
    assert SurfaceFrom(g, f) == head + tail;
    RowsAt(g, FaceAxis(f), FaceSide(f), Ticks(g), m, i, j);
    var t := RowMajor(m, i, j);
    assert head[t] == FaceSample(g, f, i, j);
    assert (head + tail)[t] == head[t];
  }

  lemma {:induction false} SurfaceFromAt(g: CubeGenerator, f: int, m: int, h: int, e: int, i: int, j: int)
    requires g.step > 0.0 && 0 <= f <= h < 6 && e == h - f && m == |Ticks(g)| && 0 <= i < m && 0 <= j < m
    ensures 0 <= SampleIndex(m, e, i, j) < |SurfaceFrom(g, f)|
    ensures SurfaceFrom(g, f)[SampleIndex(m, e, i, j)] == FaceSample(g, h, i, j)
    decreases e
  {
    SurfaceFromLength(g, f, m);
    RowMajor3Bounds(m, 6 - f, e, i, j);
    var head, tail := Face(g, FaceAxis(f), FaceSide(f)), SurfaceFrom(g, f + 1);
    assert SurfaceFrom(g, f) == head + tail;
    RowsLength(g, FaceAxis(f), FaceSide(f), Ticks(g), m);
    if e == 0 {
      FirstFaceAt(g, f, m, i, j);
      SampleIndexFirst(m, e, i, j);
    } else {
      SampleIndexNext(m, e, i, j);
      SurfaceFromAt(g, f + 1, m, h, e - 1, i, j);
      var t := SampleIndex(m, e - 1, i, j);
      assert (head + tail)[|head| + t] == tail[t];
    }
  }

  /**
   * Everything `Generate` sends: six faces of `m * m` samples each, where `m`
   * is the number of offsets one sweep visits; sample `(i, j)` of face `f`
   * has outer offset `Ticks(g)[i]`, inner offset `Ticks(g)[j]` and the
   * face's normal.
   */
  lemma SurfaceLayout(g: CubeGenerator)
    requires g.step > 0.0
    ensures |Surface(g)| == 6 * (|Ticks(g)| * |Ticks(g)|)
    ensures forall f, i, j :: 0 <= f < 6 && 0 <= i < |Ticks(g)| && 0 <= j < |Ticks(g)| ==>
      0 <= SampleIndex(|Ticks(g)|, f, i, j) < |Surface(g)|
    ensures forall f, i, j :: 0 <= f < 6 && 0 <= i < |Ticks(g)| && 0 <= j < |Ticks(g)| ==>
      Surface(g)[SampleIndex(|Ticks(g)|, f, i, j)] == FaceSample(g, f, i, j)
  {
    var m := |Ticks(g)|;
    SurfaceFromLength(g, 0, m);
    forall f, i, j | 0 <= f < 6 && 0 <= i < m && 0 <= j < m
      ensures 0 <= SampleIndex(m, f, i, j) < |Surface(g)|
      ensures Surface(g)[SampleIndex(m, f, i, j)] == FaceSample(g, f, i, j)
    {
      SurfaceFromAt(g, 0, m, f, f, i, j);
    }
  }

  /** With unit steps and a whole side `n`, each face sends `n * n` samples, `6 * n * n` in all. */
  lemma UnitSurface(g: CubeGenerator, n: nat)
    requires g.step == 1.0 && g.sideLength == n as real
    ensures forall a: Axis, k: real :: |Face(g, a, k)| == n * n
    ensures |Surface(g)| == 6 * n * n
  {
    UnitOffsets(n);
    assert |Ticks(g)| == n;
    forall a: Axis, k: real
      ensures |Face(g, a, k)| == n * n
    {
      RowsLength(g, a, k, Ticks(g), n);
    }
    SurfaceFromLength(g, 0, n);
  }

  /** The `j`-th value of a sweep that starts at 0. */
  function Tick(step: real, j: nat): real {
    (j as real) * step
  }

  lemma TickMonotone(step: real, i: nat, j: nat)
    requires step > 0.0 && i <= j
    ensures Tick(step, i) <= Tick(step, j)
  {
    assert Tick(step, j) - Tick(step, i) == ((j - i) as real) * step;
  }

  /** Entry `j` of a sweep from 0 is `j * step`. */
  lemma TickAt(g: CubeGenerator, j: int)
    requires g.step > 0.0 && 0 <= j < |Ticks(g)|
    ensures Ticks(g)[j] == Tick(g.step, j) && Tick(g.step, j) < g.sideLength
  {
    OffsetsShape(0.0, g.sideLength, g.step);
  }

  /** Every multiple `j * step` below `sideLength` is visited, as entry `j`. */
  lemma TickVisited(g: CubeGenerator, j: nat)
    requires g.step > 0.0 && Tick(g.step, j) < g.sideLength
    ensures j < |Ticks(g)| && Ticks(g)[j] == Tick(g.step, j)
  {
    var ts := Ticks(g);
    OffsetsShape(0.0, g.sideLength, g.step);
    assert Tick(g.step, |ts|) >= g.sideLength;
    if j >= |ts| {
      TickMonotone(g.step, |ts|, j);
      assert false;
    }
    TickAt(g, j);
  }

  /** A sweep visits exactly the multiples `j * step` (j = 0, 1, ...) below `sideLength`. */
  lemma TicksAre(g: CubeGenerator, t: real)
    requires g.step > 0.0
    ensures t in Ticks(g) <==> exists j: nat :: Tick(g.step, j) < g.sideLength && t == Tick(g.step, j)
  {
    var ts := Ticks(g);
    if t in ts {
      var j :| 0 <= j < |ts| && ts[j] == t;
      TickAt(g, j);
    }
    if j: nat :| Tick(g.step, j) < g.sideLength && t == Tick(g.step, j) {
      TickVisited(g, j);
    }
  }

  lemma RowMembers(g: CubeGenerator, a: Axis, k: real, o: real, ins: seq<real>, s: Sample)
    ensures s in Row(g, a, k, o, ins) <==> exists t :: t in ins && s == (FacePoint(g, a, k, o, t), Normal(a, k))
  {
    RowLayout(g, a, k, o, ins);
    var r := Row(g, a, k, o, ins);
    if t :| t in ins && s == (FacePoint(g, a, k, o, t), Normal(a, k)) {
      var j :| 0 <= j < |ins| && ins[j] == t;
      assert r[j] == s;
    }
  }

  lemma {:induction false} RowsMembers(g: CubeGenerator, a: Axis, k: real, outs: seq<real>, s: Sample)
    requires g.step > 0.0
    ensures s in Rows(g, a, k, outs) <==>
      exists o, t :: o in outs && t in Ticks(g) && s == (FacePoint(g, a, k, o, t), Normal(a, k))
  {
    if outs != [] {
      RowMembers(g, a, k, outs[0], Ticks(g), s);
      RowsMembers(g, a, k, outs[1..], s);
      assert Rows(g, a, k, outs) == Row(g, a, k, outs[0], Ticks(g)) + Rows(g, a, k, outs[1..]);
      if o, t :| o in outs && t in Ticks(g) && s == (FacePoint(g, a, k, o, t), Normal(a, k)) {
        if o != outs[0] {
          assert o in outs[1..];
        }
      }
    }
  }

  /** The sample face `f` sends at outer offset `o` and inner offset `t`. */
  function SampleOf(g: CubeGenerator, f: int, o: real, t: real): Sample {
    (FacePoint(g, FaceAxis(f), FaceSide(f), o, t), FaceNormal(f))
  }

  lemma {:induction false} SurfaceFromMembers(g: CubeGenerator, f: int, s: Sample)
    requires g.step > 0.0 && 0 <= f <= 6
    ensures s in SurfaceFrom(g, f) <==>
      exists e, o, t :: f <= e < 6 && o in Ticks(g) && t in Ticks(g) && s == SampleOf(g, e, o, t)
    decreases 6 - f
  {
    if f < 6 {
      var a, k := FaceAxis(f), FaceSide(f);
      var head, tail := Face(g, a, k), SurfaceFrom(g, f + 1);
      assert SurfaceFrom(g, f) == head + tail;
      RowsMembers(g, a, k, Ticks(g), s);
      SurfaceFromMembers(g, f + 1, s);
      if s in head {
        var o, t :| o in Ticks(g) && t in Ticks(g) && s == (FacePoint(g, a, k, o, t), Normal(a, k));
        assert s == SampleOf(g, f, o, t);
      }
      if e, o, t :| f <= e < 6 && o in Ticks(g) && t in Ticks(g) && s == SampleOf(g, e, o, t) {
        if e == f {
          assert s == (FacePoint(g, a, k, o, t), Normal(a, k));
          assert s in head;
        } else {
          assert s in tail;
        }
      }
    }
  }

  /**
   * A sample is sent exactly when it is the point of some face `f` at outer
   * offset `i * step` and inner offset `j * step`, both below `sideLength`,
   * paired with that face's normal.
   */
  lemma SurfaceMembers(g: CubeGenerator, p: Vec3, n: Vec3)
    requires g.step > 0.0
    ensures (p, n) in Surface(g) <==>
      exists f, i: nat, j: nat :: 0 <= f < 6
        && Tick(g.step, i) < g.sideLength && Tick(g.step, j) < g.sideLength
        && p == FacePoint(g, FaceAxis(f), FaceSide(f), Tick(g.step, i), Tick(g.step, j))
        && n == FaceNormal(f)
  {
    if (p, n) in Surface(g) {
      SentIsFacePoint(g, p, n);
    }
    if f, i: nat, j: nat :|
        0 <= f < 6
        && Tick(g.step, i) < g.sideLength && Tick(g.step, j) < g.sideLength
        && p == FacePoint(g, FaceAxis(f), FaceSide(f), Tick(g.step, i), Tick(g.step, j))
        && n == FaceNormal(f) {
      SentOnFace(g, f, i, j);
    }
  }

  lemma SentIsFacePoint(g: CubeGenerator, p: Vec3, n: Vec3)
    requires g.step > 0.0 && (p, n) in Surface(g)
    ensures exists f, i: nat, j: nat ::
        && 0 <= f < 6
        && Tick(g.step, i) < g.sideLength && Tick(g.step, j) < g.sideLength
        && p == FacePoint(g, FaceAxis(f), FaceSide(f), Tick(g.step, i), Tick(g.step, j))
        && n == FaceNormal(f)
  {
    SurfaceFromMembers(g, 0, (p, n));
    var f, o, t :| 0 <= f < 6 && o in Ticks(g) && t in Ticks(g) && (p, n) == SampleOf(g, f, o, t);
    TicksAre(g, o);
    TicksAre(g, t);
    var i: nat :| Tick(g.step, i) < g.sideLength && o == Tick(g.step, i);
    var j: nat :| Tick(g.step, j) < g.sideLength && t == Tick(g.step, j);
    assert p == FacePoint(g, FaceAxis(f), FaceSide(f), Tick(g.step, i), Tick(g.step, j));
  }

  /** Face `f` sends its point at outer step `i` and inner step `j` when both are below `sideLength`. */
  lemma SentOnFace(g: CubeGenerator, f: int, i: nat, j: nat)
    requires g.step > 0.0 && 0 <= f < 6
    requires Tick(g.step, i) < g.sideLength && Tick(g.step, j) < g.sideLength
    ensures (FacePoint(g, FaceAxis(f), FaceSide(f), Tick(g.step, i), Tick(g.step, j)), FaceNormal(f)) in Surface(g)
  {
    var o, t := Tick(g.step, i), Tick(g.step, j);
    SurfaceFromMembers(g, 0, SampleOf(g, f, o, t));
    TicksAre(g, o);
    TicksAre(g, t);
  }

  lemma RowDistinct(g: CubeGenerator, a: Axis, k: real, o: real, ins: seq<real>)
    requires Distinct(ins)
    ensures Distinct(Row(g, a, k, o, ins))
  {
    RowLayout(g, a, k, o, ins);
    var r := Row(g, a, k, o, ins);
    forall i, j | 0 <= i < j < |r|
      ensures r[i] != r[j]
    {
      assert InnerOffset(g, a, r[i].0) == ins[i] && InnerOffset(g, a, r[j].0) == ins[j];
    }
  }

  lemma {:induction false} RowsDistinct(g: CubeGenerator, a: Axis, k: real, outs: seq<real>)
    requires g.step > 0.0 && Distinct(outs) && Distinct(Ticks(g))
    ensures Distinct(Rows(g, a, k, outs))
  {
    if outs != [] {
      var head, tail := Row(g, a, k, outs[0], Ticks(g)), Rows(g, a, k, outs[1..]);
      RowDistinct(g, a, k, outs[0], Ticks(g));
      assert Distinct(outs[1..]) by {
        forall i, j | 0 <= i < j < |outs[1..]|
          ensures outs[1..][i] != outs[1..][j]
        {
          assert outs[1..][i] == outs[i + 1] && outs[1..][j] == outs[j + 1];
        }
      }
      RowsDistinct(g, a, k, outs[1..]);
      forall s | s in head
        ensures s !in tail
      {
        RowMembers(g, a, k, outs[0], Ticks(g), s);
        RowsMembers(g, a, k, outs[1..], s);
      }
      DistinctConcat(head, tail);
    }
  }

  /** Different faces send different normals. */
  lemma FaceNormalsDistinct(e: int, f: int)
    requires 0 <= e < f < 6
    ensures FaceNormal(e) != FaceNormal(f)
  {
  }

  lemma {:induction false} SurfaceFromDistinct(g: CubeGenerator, f: int)
    requires g.step > 0.0 && 0 <= f <= 6
    ensures Distinct(SurfaceFrom(g, f))
    decreases 6 - f
  {
    if f < 6 {
      var a, k := FaceAxis(f), FaceSide(f);
      var head, tail := Face(g, a, k), SurfaceFrom(g, f + 1);
      OffsetsIncreasing(0.0, g.sideLength, g.step);
      RowsDistinct(g, a, k, Ticks(g));
      SurfaceFromDistinct(g, f + 1);
      forall s | s in head
        ensures s !in tail
      {
        RowsMembers(g, a, k, Ticks(g), s);
        SurfaceFromMembers(g, f + 1, s);
        if s in tail {
          var e, o, t :| f + 1 <= e < 6 && o in Ticks(g) && t in Ticks(g) && s == SampleOf(g, e, o, t);
          FaceNormalsDistinct(f, e);
          assert false;
        }
      }
      DistinctConcat(head, tail);
    }
  }

  /**
   * No (point, normal) pair is sent twice.  Points alone do repeat: edge and
   * corner points lie on two or three faces and are sent once per face.
   */
  lemma SurfaceDistinct(g: CubeGenerator)
    requires g.step > 0.0
    ensures Distinct(Surface(g))
  {
    SurfaceFromDistinct(g, 0);
  }

  /** The cube's centre when the high faces sit at `corner + (sideLength - 1)`. */
  function Centre(g: CubeGenerator): Vec3 {
    var h := (g.sideLength - 1.0) / 2.0;
    Vec3(g.corner.x + h, g.corner.y + h, g.corner.z + h)
  }

  /**
   * Every sent normal is a unit axis vector whose dot product with the offset
   * of its point from the centre is `(sideLength - 1) / 2`: positive, so the
   * normal points away from the centre, whenever the cube is wider than 1.
   */
  lemma NormalsPointOutward(g: CubeGenerator, p: Vec3, n: Vec3)
    requires g.step > 0.0 && (p, n) in Surface(g)
    ensures DotProduct(n, n) == 1.0
    ensures DotProduct(n, Plus(p, Scaled(Centre(g), -1.0))) == (g.sideLength - 1.0) / 2.0
  {
    SurfaceMembers(g, p, n);
    var f, i: nat, j: nat :|
      0 <= f < 6
      && Tick(g.step, i) < g.sideLength && Tick(g.step, j) < g.sideLength
      && p == FacePoint(g, FaceAxis(f), FaceSide(f), Tick(g.step, i), Tick(g.step, j))
      && n == FaceNormal(f);
    FaceOutward(g, f, Tick(g.step, i), Tick(g.step, j));
  }

  lemma FaceOutward(g: CubeGenerator, f: int, o: real, t: real)
    requires 0 <= f < 6
    ensures DotProduct(FaceNormal(f), FaceNormal(f)) == 1.0
    ensures DotProduct(FaceNormal(f), Plus(FacePoint(g, FaceAxis(f), FaceSide(f), o, t), Scaled(Centre(g), -1.0)))
         == (g.sideLength - 1.0) / 2.0
  {
    NormalUnit(FaceAxis(f), FaceSide(f));
    if FaceSide(f) == 0.0 {
      LowFaceOutward(g, FaceAxis(f), o, t);
    } else {
      HighFaceOutward(g, FaceAxis(f), o, t);
    }
  }

  /** The dot product with a multiple of an axis unit vector picks out that coordinate. */
  lemma DotAxis(a: Axis, c: real, d: Vec3)
    ensures DotProduct(AxisVector(a, c), d) == c * Coord(d, a)
  {
  }

  /** `c` times the unit vector of axis `a`. */
  function AxisVector(a: Axis, c: real): Vec3 {
    match a
    case X => Vec3(c, 0.0, 0.0)
    case Y => Vec3(0.0, c, 0.0)
    case Z => Vec3(0.0, 0.0, c)
  }

  lemma NormalUnit(a: Axis, k: real)
    requires k == 0.0 || k == 1.0
    ensures DotProduct(Normal(a, k), Normal(a, k)) == 1.0
  {
    var c := 2.0 * k - 1.0;
    assert c * c == 1.0 by {
      if k == 0.0 {
        assert c == -1.0;
      } else {
        assert c == 1.0;
      }
    }
    assert Normal(a, k) == AxisVector(a, c);
    DotAxis(a, c, AxisVector(a, c));
    match a
    case X =>
    case Y =>
    case Z =>
  }

  lemma CentreCoord(g: CubeGenerator, a: Axis)
    ensures Coord(Centre(g), a) == Coord(g.corner, a) + (g.sideLength - 1.0) / 2.0
  {
    match a
    case X =>
    case Y =>
    case Z =>
  }

  lemma DifferenceCoord(p: Vec3, q: Vec3, a: Axis)
    ensures Coord(Plus(p, Scaled(q, -1.0)), a) == Coord(p, a) - Coord(q, a)
  {
    match a
    case X =>
    case Y =>
    case Z =>
  }

  lemma LowFaceOutward(g: CubeGenerator, a: Axis, o: real, t: real)
    ensures DotProduct(Normal(a, 0.0), Plus(FacePoint(g, a, 0.0, o, t), Scaled(Centre(g), -1.0)))
         == (g.sideLength - 1.0) / 2.0
  {
    var p := FacePoint(g, a, 0.0, o, t);
    var d := Plus(p, Scaled(Centre(g), -1.0));
    assert Normal(a, 0.0) == AxisVector(a, -1.0);
    DotAxis(a, -1.0, d);
    CentreCoord(g, a);
    DifferenceCoord(p, Centre(g), a);
  }

  lemma HighFaceOutward(g: CubeGenerator, a: Axis, o: real, t: real)
    ensures DotProduct(Normal(a, 1.0), Plus(FacePoint(g, a, 1.0, o, t), Scaled(Centre(g), -1.0)))
         == (g.sideLength - 1.0) / 2.0
  {
    var p := FacePoint(g, a, 1.0, o, t);
    var d := Plus(p, Scaled(Centre(g), -1.0));
    assert Normal(a, 1.0) == AxisVector(a, 1.0);
    DotAxis(a, 1.0, d);
    CentreCoord(g, a);
    DifferenceCoord(p, Centre(g), a);
  }

  /**
   * On a cube with a positive side the corner is sent three times, with the
   * low normals of z, y and x: the points sent are not distinct.
   */
  lemma CornerOnThreeFaces(g: CubeGenerator)
    requires g.step > 0.0 && g.sideLength > 0.0
    ensures (g.corner, Normal(Z, 0.0)) in Surface(g)
    ensures (g.corner, Normal(Y, 0.0)) in Surface(g)
    ensures (g.corner, Normal(X, 0.0)) in Surface(g)
  {
    assert Tick(g.step, 0) == 0.0;
    SentOnFace(g, 0, 0, 0);
    SentOnFace(g, 2, 0, 0);
    SentOnFace(g, 4, 0, 0);
  }
}
