/**
 * `render`: perspective projection of every sample onto a character grid
 * with a z-buffer.  A sample claims a cell when it projects strictly inside
 * the grid and is strictly nearer (larger `1/z`) than what the cell holds.
 */
module Render {
  import opened GoNumeric
  import opened Vector
  import opened Generator

  /**
   * The screen set up at the start of `render`: `xs+1` columns, `ys+1` rows,
   * projection distance `zs+1`, camera at the (truncated) middle of the
   * screen in the plane `z = 0`.
   */
  datatype View = View(width: int, height: int, dist: real, camera: Vec3)

  function MakeView(xs: int, ys: int, zs: int): (v: View)
    ensures v.width == xs + 1 && v.height == ys + 1 && v.dist == (zs + 1) as real
    ensures v.camera == Vec3(HalfTrunc(v.width) as real, HalfTrunc(v.height) as real, 0.0)
    ensures 0 <= v.width ==> 0.0 <= 2.0 * v.camera.x <= v.width as real
    ensures 0 <= v.height ==> 0.0 <= 2.0 * v.camera.y <= v.height as real
  {
    View(xs + 1, ys + 1, (zs + 1) as real,
         Vec3(HalfTrunc(xs + 1) as real, HalfTrunc(ys + 1) as real, 0.0))
  }

  /** Every sample lies strictly in front of the camera plane. */
  predicate InFront(v: View, pts: seq<Sample>) {
    forall t :: 0 <= t < |pts| ==> pts[t].0.z > v.camera.z
  }

  /**
   * Where `p` lands across the screen before truncation: `dist / z * x`
   * in camera coordinates, shifted back by the camera's `x`.
   */
  function ProjectedX(v: View, p: Vec3): real
    requires p.z > v.camera.z
  {
    v.dist / (p.z - v.camera.z) * (p.x - v.camera.x) + v.camera.x
  }

  /** Where `p` lands down the screen before truncation. */
  function ProjectedY(v: View, p: Vec3): real
    requires p.z > v.camera.z
  {
    v.dist / (p.z - v.camera.z) * (p.y - v.camera.y) + v.camera.y
  }

  /** Screen column of `p`: its projected `x` under Go's `int(...)`. */
  function ScreenColumn(v: View, p: Vec3): int
    requires p.z > v.camera.z
  {
    TruncToInt(ProjectedX(v, p))
  }

  /** Screen row of `p`: its projected `y` under Go's `int(...)`. */
  function ScreenRow(v: View, p: Vec3): int
    requires p.z > v.camera.z
  {
    TruncToInt(ProjectedY(v, p))
  }

  /**
   * The cell a point lands in is its projected position truncated toward
   * zero: the column and row are the integer parts of the projected `x` and
   * `y`, rounded up, not down, when those are negative.
   */
  lemma ProjectionTruncated(v: View, p: Vec3)
    requires p.z > v.camera.z
    ensures 0.0 <= ProjectedX(v, p) ==>
      0 <= ScreenColumn(v, p) && ScreenColumn(v, p) as real <= ProjectedX(v, p) < ScreenColumn(v, p) as real + 1.0
    ensures ProjectedX(v, p) < 0.0 ==>
      ScreenColumn(v, p) <= 0 && ScreenColumn(v, p) as real - 1.0 < ProjectedX(v, p) <= ScreenColumn(v, p) as real
    ensures 0.0 <= ProjectedY(v, p) ==>
      0 <= ScreenRow(v, p) && ScreenRow(v, p) as real <= ProjectedY(v, p) < ScreenRow(v, p) as real + 1.0
    ensures ProjectedY(v, p) < 0.0 ==>
      ScreenRow(v, p) <= 0 && ScreenRow(v, p) as real - 1.0 < ProjectedY(v, p) <= ScreenRow(v, p) as real
  {
  }

  /**
   * With a non-negative projection distance, of two points at the same depth
   * the one further right never lands in a column further left (and likewise
   * for rows): the projection keeps the order of the screen.
   */
  lemma ScreenOrderKept(v: View, p: Vec3, q: Vec3)
    requires 0.0 <= v.dist && p.z > v.camera.z && q.z == p.z
    ensures p.x <= q.x ==> ScreenColumn(v, p) <= ScreenColumn(v, q)
    ensures p.y <= q.y ==> ScreenRow(v, p) <= ScreenRow(v, q)
  {
    var s := v.dist / (p.z - v.camera.z);
    assert 0.0 <= s;
    if p.x <= q.x {
      ScaleMonotone(s, p.x - v.camera.x, q.x - v.camera.x);
      TruncMonotone(ProjectedX(v, p), ProjectedX(v, q));
    }
    if p.y <= q.y {
      ScaleMonotone(s, p.y - v.camera.y, q.y - v.camera.y);
      TruncMonotone(ProjectedY(v, p), ProjectedY(v, q));
    }
  }

  lemma ScaleMonotone(s: real, a: real, b: real)
    requires 0.0 <= s && a <= b
    ensures s * a <= s * b
  {
    assert s * b - s * a == s * (b - a);
  }

  /** Inverse depth `1/z`: larger is nearer. */
  function InvDepth(v: View, p: Vec3): (d: real)
    requires p.z > v.camera.z
    ensures d > 0.0
  {
    1.0 / (p.z - v.camera.z)
  }

  /**
   * A point straight ahead of the camera projects onto the camera's own
   * cell, whatever its depth.
   */
  lemma AheadProjectsToCentre(xs: int, ys: int, zs: int, p: Vec3)
    requires p.z > 0.0
    requires p.x == MakeView(xs, ys, zs).camera.x && p.y == MakeView(xs, ys, zs).camera.y
    ensures ScreenColumn(MakeView(xs, ys, zs), p) == HalfTrunc(xs + 1)
    ensures ScreenRow(MakeView(xs, ys, zs), p) == HalfTrunc(ys + 1)
  {
    var v := MakeView(xs, ys, zs);
    var k := v.dist / (p.z - v.camera.z);
    assert k * (p.x - v.camera.x) == 0.0;
    assert k * (p.y - v.camera.y) == 0.0;
  }

  /** The bounds test: row 0 and column 0 are excluded as well as everything past the edge. */
  predicate OnScreen(v: View, row: int, col: int) {
    0 < col < v.width && 0 < row < v.height
  }

  /** `p` projects onto cell `(r, c)` and passes the bounds test. */
  predicate Hits(v: View, p: Vec3, r: int, c: int)
    requires p.z > v.camera.z
  {
    ScreenRow(v, p) == r && ScreenColumn(v, p) == c && OnScreen(v, r, c)
  }

  /**
   * The value written for a sample with normal `n`: the dot product of the
   * light direction with `n`, times the intensity.  The light direction is
   * always `(0, 0, 1)` by the time it is used.
   */
  function Luminance(n: Vec3, intensity: int): real {
    DotProduct(Vec3(0.0, 0.0, 1.0), n) * intensity as real
  }

  lemma LuminanceIsNormalZ(n: Vec3, intensity: int)
    ensures Luminance(n, intensity) == n.z * intensity as real
  {
  }

  /**
   * The `(zbuf, pix)` contents of cell `(r, c)` after the samples `pts`, in
   * order: a sample that hits the cell overwrites both values when its
   * inverse depth is strictly larger than the stored one.
   */
  function Cell(v: View, intensity: int, pts: seq<Sample>, r: int, c: int): (real, real)
    requires InFront(v, pts)
  {
    if pts == [] then (0.0, 0.0)
    else
      var prev := Cell(v, intensity, pts[..|pts| - 1], r, c);
      var (p, n) := pts[|pts| - 1];
      if Hits(v, p, r, c) && InvDepth(v, p) > prev.0 then (InvDepth(v, p), Luminance(n, intensity))
      else prev
  }

  /** Sample `t` of `pts` overwrites its cell when it arrives. */
  predicate Claims(v: View, intensity: int, pts: seq<Sample>, t: int)
    requires InFront(v, pts) && 0 <= t < |pts|
  {
    var p := pts[t].0;
    OnScreen(v, ScreenRow(v, p), ScreenColumn(v, p))
      && InvDepth(v, p) > Cell(v, intensity, pts[..t], ScreenRow(v, p), ScreenColumn(v, p)).0
  }

  /** How many samples of `pts` overwrite a cell. */
  function Accepted(v: View, intensity: int, pts: seq<Sample>): nat
    requires InFront(v, pts)
  {
    if pts == [] then 0
    else
      Accepted(v, intensity, pts[..|pts| - 1])
        + (if Claims(v, intensity, pts, |pts| - 1) then 1 else 0)
  }

  /** `light` after `k` in-place negations. */
  function Flipped(light: Vec3, k: nat): Vec3 {
    if k % 2 == 0 then light else Scaled(light, -1.0)
  }

  lemma InFrontPrefix(v: View, pts: seq<Sample>, t: int)
    requires InFront(v, pts) && 0 <= t <= |pts|
    ensures InFront(v, pts[..t])
  {
  }

  /** What sample `t` does to cell `(r, c)`. */
  lemma CellStep(v: View, intensity: int, pts: seq<Sample>, t: int, r: int, c: int)
    requires InFront(v, pts) && 0 <= t < |pts|
    ensures InFront(v, pts[..t]) && InFront(v, pts[..t + 1])
    ensures Cell(v, intensity, pts[..t + 1], r, c)
         == (if Hits(v, pts[t].0, r, c) && InvDepth(v, pts[t].0) > Cell(v, intensity, pts[..t], r, c).0
             then (InvDepth(v, pts[t].0), Luminance(pts[t].1, intensity))
             else Cell(v, intensity, pts[..t], r, c))
    ensures Accepted(v, intensity, pts[..t + 1])
         == Accepted(v, intensity, pts[..t]) + (if Claims(v, intensity, pts, t) then 1 else 0)
  {
    var s := pts[..t + 1];
    assert s[..t] == pts[..t];
    assert s[t] == pts[t];
    assert Claims(v, intensity, s, t) == Claims(v, intensity, pts, t);
  }

  /** `Claims` spelled out at the cell sample `t` projects onto. */
  lemma ClaimsAt(v: View, intensity: int, pts: seq<Sample>, t: int)
    requires InFront(v, pts) && 0 <= t < |pts|
    ensures InFront(v, pts[..t])
    ensures Claims(v, intensity, pts, t)
        <==> OnScreen(v, ScreenRow(v, pts[t].0), ScreenColumn(v, pts[t].0))
             && InvDepth(v, pts[t].0) > Cell(v, intensity, pts[..t], ScreenRow(v, pts[t].0), ScreenColumn(v, pts[t].0)).0
  {
  }

  /**
   * The lighting of one accepted sample.  `d` starts as a copy of the point
   * and `d.Sub(light)` negates `light` in place; the normalisation that
   * follows is discarded, because `d` is then overwritten with `(0, 0, 1)`.
   * The value is `d . normal` times the intensity.
   */
  method Shade(pt: Vec3, normal: Vec3, light: Vec3f, intensity: int) returns (value: real)
    modifies light
    ensures value == Luminance(normal, intensity)
    ensures light.Value() == Scaled(old(light.Value()), -1.0)
  {
    var d := new Vec3f(pt.x, pt.y, pt.z);
    var _ := d.Sub(light);
    d := new Vec3f(0.0, 0.0, 1.0);
    var n := new Vec3f(normal.x, normal.y, normal.z);
    var lum := d.Dot(n);
    value := lum * intensity as real;
    LuminanceOfDot(d.Value(), n.Value(), lum, intensity);
  }

  lemma LuminanceOfDot(d: Vec3, n: Vec3, lum: real, intensity: int)
    requires d == Vec3(0.0, 0.0, 1.0) && lum == DotProduct(d, n)
    ensures lum * intensity as real == Luminance(n, intensity)
  {
  }

  /**
   * The z-buffer and the character grid hold, cell by cell, what the samples
   * `pts` leave there.
   */
  predicate Drawn(v: View, intensity: int, pts: seq<Sample>, pix: array2<real>, zbuf: array2<real>)
    reads pix, zbuf
    requires InFront(v, pts)
  {
    && pix.Length0 == zbuf.Length0 == (if v.height >= 0 then v.height else 0)
    && pix.Length1 == zbuf.Length1 == (if v.width >= 0 then v.width else 0)
    && (forall r, c :: 0 <= r < zbuf.Length0 && 0 <= c < zbuf.Length1 ==>
          zbuf[r, c] == Cell(v, intensity, pts, r, c).0)
    && (forall r, c :: 0 <= r < pix.Length0 && 0 <= c < pix.Length1 ==>
          pix[r, c] == Cell(v, intensity, pts, r, c).1)
  }

  /**
   * One pass of the loop of `render`: project sample `t`, test it against the
   * bounds and the z-buffer, and when it is accepted store its depth and its
   * lighting value.
   */
  method Plot(v: View, intensity: int, pts: seq<Sample>, t: int,
              pix: array2<real>, zbuf: array2<real>, light: Vec3f, ghost lightSource: Vec3)
    requires InFront(v, pts) && 0 <= t < |pts|
    requires pix != zbuf
    requires InFront(v, pts[..t]) && Drawn(v, intensity, pts[..t], pix, zbuf)
    requires light.Value() == Flipped(lightSource, Accepted(v, intensity, pts[..t]))
    modifies pix, zbuf, light
    ensures InFront(v, pts[..t + 1]) && Drawn(v, intensity, pts[..t + 1], pix, zbuf)
    ensures light.Value() == Flipped(lightSource, Accepted(v, intensity, pts[..t + 1]))
  {
    var w, h := v.width, v.height;
    var pt, normal := pts[t].0, pts[t].1;
    var xp, yp, invZ := ScreenColumn(v, pt), ScreenRow(v, pt), InvDepth(v, pt);
    ghost var accepted := Accepted(v, intensity, pts[..t]);
    CellStep(v, intensity, pts, t, 0, 0);
    ClaimsAt(v, intensity, pts, t);
    if xp > 0 && xp < w && yp > 0 && yp < h && invZ > zbuf[yp, xp] {
      zbuf[yp, xp] := invZ;
      var lum := Shade(pt, normal, light, intensity);
      pix[yp, xp] := lum;
      forall r, c | 0 <= r < zbuf.Length0 && 0 <= c < zbuf.Length1
        ensures zbuf[r, c] == Cell(v, intensity, pts[..t + 1], r, c).0
        ensures pix[r, c] == Cell(v, intensity, pts[..t + 1], r, c).1
      {
        OnlyTargetCellChanges(v, intensity, pts, t, r, c);
      }
      FlippedStep(lightSource, accepted);
    } else {
      forall r, c | 0 <= r < zbuf.Length0 && 0 <= c < zbuf.Length1
        ensures Cell(v, intensity, pts[..t + 1], r, c) == Cell(v, intensity, pts[..t], r, c)
      {
        CellStep(v, intensity, pts, t, r, c);
      }
    }
  }

  lemma FlippedStep(light: Vec3, k: nat)
    ensures Scaled(Flipped(light, k), -1.0) == Flipped(light, k + 1)
  {
    if k % 2 == 1 {
      NegateTwice(light);
    }
  }

  /**
   * `render` up to its output: the grids have `ys+1` rows of `xs+1` columns
   * and start at 0; every sample is plotted in arrival order.  The light
   * record is the caller's `lightSource` copied into `render`; `Sub` negates
   * it in place for every sample that claims a cell.
   */
  method Render(pts: seq<Sample>, lightSource: Vec3, lightIntensity: int, xs: int, ys: int, zs: int)
    returns (pix: array2<real>, ghost finalLight: Vec3)
    requires ys >= -1 && (ys == -1 || xs >= -1)
    requires InFront(MakeView(xs, ys, zs), pts)
    ensures fresh(pix)
    ensures pix.Length0 == ys + 1 && pix.Length1 == (if xs >= -1 then xs + 1 else 0)
    ensures forall r, c :: 0 <= r < pix.Length0 && 0 <= c < pix.Length1 ==>
      pix[r, c] == Cell(MakeView(xs, ys, zs), lightIntensity, pts, r, c).1
    ensures finalLight == Flipped(lightSource, Accepted(MakeView(xs, ys, zs), lightIntensity, pts))
  {
    var v := MakeView(xs, ys, zs);
    var w, h := v.width, v.height;
    var cols := if w >= 0 then w else 0;
    pix := new real[h, cols]((_, _) => 0.0);
    var zbuf := new real[h, cols]((_, _) => 0.0);
    var light := new Vec3f(lightSource.x, lightSource.y, lightSource.z);
    assert pts[..0] == [];
    var t := 0;
    while t < |pts|
      invariant 0 <= t <= |pts|
      invariant InFront(v, pts[..t]) && Drawn(v, lightIntensity, pts[..t], pix, zbuf)
      invariant light.Value() == Flipped(lightSource, Accepted(v, lightIntensity, pts[..t]))
    {
      Plot(v, lightIntensity, pts, t, pix, zbuf, light, lightSource);
      t := t + 1;
    }
    assert pts[..t] == pts;
    finalLight := light.Value();
  }

  /**
   * The depth a cell keeps is the largest inverse depth among the samples
   * that hit it, or 0 when none does; a cell nobody hits keeps `(0, 0)`.
   */
  lemma {:induction false} CellNearest(v: View, intensity: int, pts: seq<Sample>, r: int, c: int)
    requires InFront(v, pts)
    ensures Cell(v, intensity, pts, r, c).0 >= 0.0
    ensures forall t :: 0 <= t < |pts| && Hits(v, pts[t].0, r, c) ==>
      InvDepth(v, pts[t].0) <= Cell(v, intensity, pts, r, c).0
    ensures Cell(v, intensity, pts, r, c).0 == 0.0
      || exists t :: 0 <= t < |pts| && Hits(v, pts[t].0, r, c)
           && InvDepth(v, pts[t].0) == Cell(v, intensity, pts, r, c).0
    ensures Cell(v, intensity, pts, r, c) == (0.0, 0.0)
      <==> forall t :: 0 <= t < |pts| ==> !Hits(v, pts[t].0, r, c)
  {
    if pts != [] {
      var pre := pts[..|pts| - 1];
      InFrontPrefix(v, pts, |pts| - 1);
      CellNearest(v, intensity, pre, r, c);
      assert forall t :: 0 <= t < |pre| ==> pre[t] == pts[t];
    }
  }

  /**
   * What a cell shows when some sample hits it: the value of the earliest of
   * the nearest samples.  A later sample at the same depth does not replace it.
   */
  lemma {:induction false} CellWinner(v: View, intensity: int, pts: seq<Sample>, r: int, c: int)
    requires InFront(v, pts)
    requires exists t :: 0 <= t < |pts| && Hits(v, pts[t].0, r, c)
    ensures exists t ::
      && 0 <= t < |pts| && Hits(v, pts[t].0, r, c)
      && Cell(v, intensity, pts, r, c) == (InvDepth(v, pts[t].0), Luminance(pts[t].1, intensity))
      && forall s :: 0 <= s < t && Hits(v, pts[s].0, r, c) ==> InvDepth(v, pts[s].0) < InvDepth(v, pts[t].0)
  {
    var n := |pts| - 1;
    var pre := pts[..n];
    InFrontPrefix(v, pts, n);
    CellNearest(v, intensity, pre, r, c);
    assert forall t :: 0 <= t < |pre| ==> pre[t] == pts[t];
    var prev := Cell(v, intensity, pre, r, c);
    if Hits(v, pts[n].0, r, c) && InvDepth(v, pts[n].0) > prev.0 {
      assert Cell(v, intensity, pts, r, c) == (InvDepth(v, pts[n].0), Luminance(pts[n].1, intensity));
    } else if t :| 0 <= t < |pre| && Hits(v, pre[t].0, r, c) {
      CellWinner(v, intensity, pre, r, c);
      var u :|
        && 0 <= u < |pre| && Hits(v, pre[u].0, r, c)
        && prev == (InvDepth(v, pre[u].0), Luminance(pre[u].1, intensity))
        && forall s :: 0 <= s < u && Hits(v, pre[s].0, r, c) ==> InvDepth(v, pre[s].0) < InvDepth(v, pre[u].0);
      assert Cell(v, intensity, pts, r, c) == prev;
    } else {
      assert false;
    }
  }

  /**
   * The depth a cell keeps does not depend on the order in which the samples
   * arrive (its value can: see `CellWinner`).
   */
  lemma DepthOrderIndependent(v: View, intensity: int, pts: seq<Sample>, qs: seq<Sample>, r: int, c: int)
    requires InFront(v, pts) && InFront(v, qs)
    requires multiset(pts) == multiset(qs)
    ensures Cell(v, intensity, pts, r, c).0 == Cell(v, intensity, qs, r, c).0
  {
    DepthBelow(v, intensity, pts, qs, r, c);
    DepthBelow(v, intensity, qs, pts, r, c);
  }

  lemma DepthBelow(v: View, intensity: int, pts: seq<Sample>, qs: seq<Sample>, r: int, c: int)
    requires InFront(v, pts) && InFront(v, qs)
    requires multiset(pts) <= multiset(qs)
    ensures Cell(v, intensity, pts, r, c).0 <= Cell(v, intensity, qs, r, c).0
  {
    CellNearest(v, intensity, pts, r, c);
    CellNearest(v, intensity, qs, r, c);
    if Cell(v, intensity, pts, r, c).0 != 0.0 {
      var t :|
        && 0 <= t < |pts| && Hits(v, pts[t].0, r, c)
        && InvDepth(v, pts[t].0) == Cell(v, intensity, pts, r, c).0;
      assert pts[t] in multiset(qs);
      var u :| 0 <= u < |qs| && qs[u] == pts[t];
    }
  }

  /** Cells outside the accepted area (row 0, column 0, past the edges) stay `(0, 0)`. */
  lemma {:induction false} BorderUntouched(v: View, intensity: int, pts: seq<Sample>, r: int, c: int)
    requires InFront(v, pts)
    requires !OnScreen(v, r, c)
    ensures Cell(v, intensity, pts, r, c) == (0.0, 0.0)
  {
    if pts != [] {
      InFrontPrefix(v, pts, |pts| - 1);
      BorderUntouched(v, intensity, pts[..|pts| - 1], r, c);
    }
  }

  /** No depth stored in the z-buffer ever decreases as more samples arrive. */
  lemma DepthNeverDecreases(v: View, intensity: int, pts: seq<Sample>, t: int, r: int, c: int)
    requires InFront(v, pts) && 0 <= t <= |pts|
    ensures InFront(v, pts[..t])
    ensures Cell(v, intensity, pts[..t], r, c).0 <= Cell(v, intensity, pts, r, c).0
  {
    InFrontPrefix(v, pts, t);
    assert pts == pts[..t] + pts[t..];
    assert multiset(pts) == multiset(pts[..t]) + multiset(pts[t..]);
    DepthBelow(v, intensity, pts[..t], pts, r, c);
  }

  /**
   * Sample `t` changes at most the cell it projects onto: when it claims the
   * cell, that cell takes its inverse depth and its lighting value; otherwise
   * nothing changes.
   */
  lemma OnlyTargetCellChanges(v: View, intensity: int, pts: seq<Sample>, t: int, r: int, c: int)
    requires InFront(v, pts) && 0 <= t < |pts|
    ensures InFront(v, pts[..t]) && InFront(v, pts[..t + 1])
    ensures (r != ScreenRow(v, pts[t].0) || c != ScreenColumn(v, pts[t].0) || !Claims(v, intensity, pts, t)) ==>
      Cell(v, intensity, pts[..t + 1], r, c) == Cell(v, intensity, pts[..t], r, c)
    ensures r == ScreenRow(v, pts[t].0) && c == ScreenColumn(v, pts[t].0) && Claims(v, intensity, pts, t) ==>
      Cell(v, intensity, pts[..t + 1], r, c) == (InvDepth(v, pts[t].0), Luminance(pts[t].1, intensity))
  {
    CellStep(v, intensity, pts, t, r, c);
    ClaimsAt(v, intensity, pts, t);
  }
}
