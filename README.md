# ascii-renderer in Dafny

A model of the renderer in `ascii.go`.
- It generates sample points on a cube's surface, each with the outward normal of its face.
- It projects the samples onto a character grid through a z-buffer.
- It lights each accepted sample with a fixed direction.
- It turns the grid of lighting values into text from a twelve-step brightness ramp.

Coordinates are Dafny `real`s. Go's `int(f)` and `n/2` are modelled explicitly, because both truncate toward zero.

| file | module | models |
|---|---|---|
| `vector.dfy` | `Vector` | `Vec3f` as a class whose `Add`, `ScalarMul` and `Sub` overwrite fields in place, including the aliasing effect of `Sub` on its argument; `Vec3` as the value type used in sequences |
| `cube.dfy` | `Cube` | `generateCube` as three nested loops appending to a sequence |
| `generator.dfy` | `Generator` | `CubeGenerator`, `NewCubeGenerator` and `Generate`; the values the goroutine sends, in send order |
| `render.dfy` | `Render` | the screen set-up and z-buffer loop of `render`, over `array2<real>` grids |
| `display.dfy` | `Display` | the glyph choice of `display`, and the text its loops print |
| `go_numeric.dfy` | `GoNumeric` | Go's truncating `int(float64)` and integer halving |
| `sequences.dfy` | `Sequences` | row-major index arithmetic and sequence predicates used by the proofs |

Behaviour of the code that the model keeps and proves:
- **High face position.** The high face of each axis lies at `Corner + (SideLength - 1)`, not `Corner + SideLength`. `FacePoint` states this, and `NormalsPointOutward` measures each face's distance from the centre as `(SideLength - 1) / 2`.
- **Points repeat on shared edges.** A point on the sampled grid of several faces is sent once per face, with that face's normal (`CornerOnThreeFaces`). When the side is not a whole number of steps, a face's samples need not fall on another face's grid, so they are sent once. Only (point, normal) pairs are unique (`SurfaceDistinct`).
- **Row 0 and column 0.** The bounds test is `0 < xp` and `0 < yp`, so row 0 and column 0 are never written (`BorderUntouched`).
- **Light direction.** The direction is always `(0, 0, 1)` when it is used: the normalised difference is overwritten first. Its one lasting effect is on the light record: `Sub` negates its argument, so the record flips sign on every accepted sample. `Render` reports this as `finalLight`.
- **Ties.** The z-buffer comparison is strict. Among samples tying for nearest, the earliest one's lighting value is kept (`CellWinner`). Stored depths do not depend on the order of the samples (`DepthOrderIndependent`), but lighting values can.

## Model

| member | source | states |
|---|---|---|
| `GoNumeric.TruncToInt` | ascii.go:148-149 | Go's `int(f)`: the result lies within one unit of `f` on the side toward zero (the integer part) |
| `GoNumeric.TruncMonotone` | ascii.go:148-149 | Go's `int(f)` never maps a larger value to a smaller integer |
| `GoNumeric.HalfTrunc` | ascii.go:134 | Go's `n/2` on ints: `2q <= n <= 2q+1` when `n >= 0` and `2q-1 <= n <= 2q` when `n < 0`, i.e. the quotient truncated toward zero |
| `Vector.Vec3f.constructor` | ascii.go:14-18 | a struct literal holds exactly the three given components |
| `Vector.Vec3f.Add` | ascii.go:20-25 | the receiver becomes the sum of its old value and the argument's old value, and the receiver is returned; an aliased argument counts twice |
| `Vector.Vec3f.Dot` | ascii.go:27-29 | the inner product of the two records' values; a record dotted with itself is never negative |
| `Vector.DotSelfNonNegative` | ascii.go:31-33 | `v . v >= 0`, so the `sqrt` in `Norm` is always defined |
| `Vector.Vec3f.ScalarMul` | ascii.go:39-44 | the receiver becomes its old value scaled by `a`, and the receiver is returned |
| `Vector.Vec3f.Sub` | ascii.go:46-48 | with a distinct argument, the receiver becomes old receiver minus old argument and the argument is left negated; with the receiver as argument, the receiver becomes `-2` times its old value |
| `Vector.SubUndoesAdd` | ascii.go:46-48 | subtracting a vector after adding it restores the original value |
| `Vector.NegateTwice` | ascii.go:46-48 | a record negated twice by `Sub` is back to its original value |
| `Cube.GenerateCube` | ascii.go:50-62 | the three nested loops return exactly the lattice sequence `Lattice(corner, sideLength)` |
| `Cube.LatticeLayout` | ascii.go:50-62 | the lattice has `(S+1)^3` points, with x outermost, then y, then z; point `corner + (x, y, z)` sits at index `(x(S+1) + y)(S+1) + z` |
| `Cube.LatticeMembers` | ascii.go:52-57 | a point is generated iff it is `corner + (x, y, z)` with each offset in `0..S` |
| `Cube.ZRunMembers` | ascii.go:54-57 | the innermost loop appends only points whose z offset is at least its start and at most `S` |
| `Cube.YRunMembers` | ascii.go:53-58 | the middle loop appends only points whose y offset is at least its start and whose z offset is in `0..S` |
| `Cube.XRunMembers` | ascii.go:52-59 | the outer loop appends only points whose x offset is at least its start and whose y and z offsets are in `0..S` |
| `Cube.XRunLength` | ascii.go:52-60 | from outer index `x` on, the loops append `(S+1-x)(S+1)^2` points |
| `Generator.StepsLeftDecreases` | ascii.go:93-94 | each pass of a `t += step` loop with `step > 0` lowers an integer bound on the passes left, so the float loops end |
| `Generator.OffsetsShape` | ascii.go:93-94 | the `k`-th value of a float loop is `from + k*step`, every value is below the bound, and the next one would not be |
| `Generator.OffsetsIncreasing` | ascii.go:93-94 | the values a float loop visits strictly increase, so none repeats |
| `Generator.OffsetsAbove` | ascii.go:93-94 | every value a float loop visits is at least its start |
| `Generator.UnitOffsets` | ascii.go:93-94 | with step 1 and an integer side `n`, a loop from 0 visits exactly `0, 1, ..., n-1` |
| `Generator.TicksAre` | ascii.go:93-94 | a face sweep visits `t` iff `t == j*step` for some `j >= 0` with `j*step < SideLength` |
| `Generator.FacePoint` | ascii.go:92-96 | on face `k` of axis `a`, the point's `a` coordinate is `Corner + k(SideLength-1)` and its two free coordinates are `Corner` plus the loop offsets |
| `Generator.PlacedOnFace` | ascii.go:95-96 | the two in-place coordinate updates of the inner loop give the face point and keep the face-plane coordinate |
| `Generator.WithCoord` | ascii.go:92 | setting one coordinate of the reused point gives that coordinate the new value and leaves the other two unchanged |
| `Generator.SendFace` | ascii.go:93-99 | the two float loops of a face send exactly that face's rows, in order, and leave the plane coordinate alone |
| `Generator.SendAxis` | ascii.go:90-100 | one `k < 2` block sends the low face, then the high face, of its axis |
| `Generator.SurfaceByAxis` | ascii.go:88-124 | the sent sequence is the z faces, then the y faces, then the x faces, each low before high |
| `Generator.NewCubeGenerator` | ascii.go:81-83 | the generator holds exactly the corner, side length and step it was given |
| `Generator.Generate` | ascii.go:85-128 | the goroutine sends exactly `Surface(g)`, in send order |
| `Generator.UnitCubeCapacity` | ascii.go:86-87 | for side 1 the channel capacity `int(6S^2 - 12S)` is `-6`, so `make` panics |
| `Generator.SurfaceLayout` | ascii.go:88-124 | with `m` ticks per sweep, the surface has `6m^2` samples; face `f`, outer step `i`, inner step `j` is at index `(f*m + i)*m + j` |
| `Generator.UnitSurface` | ascii.go:88-124 | with step 1 and integer side `S`, each face sends `S*S` samples and the surface `6*S*S` |
| `Generator.SurfaceMembers` | ascii.go:88-124 | `(p, n)` is sent iff `n` is some face's normal and `p` is that face's point at offsets `i*step`, `j*step` below `SideLength` |
| `Generator.SentIsFacePoint` | ascii.go:88-124 | every sent sample is a face point at tick offsets, paired with that face's normal |
| `Generator.SentOnFace` | ascii.go:88-124 | every face point at tick offsets below `SideLength` is sent, with its face's normal |
| `Generator.SurfaceDistinct` | ascii.go:88-124 | no (point, normal) pair is sent twice |
| `Generator.NormalsPointOutward` | ascii.go:90-124 | every normal sent has unit length, and its dot product with `p - centre` is `(SideLength-1)/2`, so it points away from the cube's centre when `SideLength > 1` |
| `Generator.CornerOnThreeFaces` | ascii.go:90-124 | the corner is sent three times, with the low z, y and x normals, so positions alone repeat |
| `Render.MakeView` | ascii.go:131-134 | the screen is `xs+1` wide and `ys+1` high, the distance is `zs+1`, and the camera is at `((xs+1)/2, (ys+1)/2, 0)` with Go's truncating integer division, so within the middle of the screen |
| `Render.ScreenColumn` | ascii.go:148 | the column is Go's `int` of `dist / z * x + camera.x` in camera coordinates (its meaning is stated by `ProjectionTruncated`) |
| `Render.ScreenRow` | ascii.go:149 | the row is Go's `int` of `dist / z * y + camera.y` in camera coordinates (its meaning is stated by `ProjectionTruncated`) |
| `Render.ProjectionTruncated` | ascii.go:148-149 | the column and row are the integer parts of the projected `x` and `y`, truncated toward zero on both signs |
| `Render.ScreenOrderKept` | ascii.go:148-149 | with a non-negative projection distance, of two points at the same depth the one further right (further down) never lands in an earlier column (row) |
| `Render.InvDepth` | ascii.go:150 | the inverse depth of a sample in front of the camera is positive |
| `Render.AheadProjectsToCentre` | ascii.go:147-149 | a point straight ahead of the camera lands on the camera's cell `((ys+1)/2, (xs+1)/2)` at any depth |
| `Render.LuminanceIsNormalZ` | ascii.go:160-163 | the lighting value is the normal's z component times the intensity |
| `Render.Shade` | ascii.go:158-163 | the lighting value written is `Luminance(normal, intensity)`, and the light record is left negated |
| `Render.Plot` | ascii.go:146-164 | one pass of the loop takes the grids from the state after samples `0..t-1` to the state after `0..t`, and flips the light once per accepted sample |
| `Render.Render` | ascii.go:130-167 | the grid has `ys+1` rows of `xs+1` columns and holds, per cell, `Cell(...)`'s value; the light record ends flipped once per accepted sample |
| `Render.CellStep` | ascii.go:151-163 | a sample overwrites a cell's depth and value exactly when it hits that cell and is strictly nearer |
| `Render.OnlyTargetCellChanges` | ascii.go:151-164 | a sample changes at most the cell it projects onto, and only when it claims it |
| `Render.CellNearest` | ascii.go:150-154 | a cell's depth is the maximum of 0 and the inverse depths of the samples hitting it; a cell no sample hits stays `(0, 0)`, and only such a cell does |
| `Render.CellWinner` | ascii.go:151-163 | a cell some sample hits shows the value of the earliest of the nearest such samples |
| `Render.DepthOrderIndependent` | ascii.go:150-154 | stored depths are the same for any order of the same samples |
| `Render.DepthBelow` | ascii.go:150-154 | more samples never give a smaller stored depth |
| `Render.DepthNeverDecreases` | ascii.go:150-154 | no z-buffer cell ever decreases as samples arrive |
| `Render.BorderUntouched` | ascii.go:151-152 | cells in row 0, in column 0, or past the edges stay `(0, 0)` |
| `Render.FlippedStep` | ascii.go:159 | one more negation of the light record moves it to the next parity |
| `Display.Level` | ascii.go:174-179 | the ramp index is always in `0..11`: 0 below zero, 11 above eleven, otherwise the integer part |
| `Display.Glyph` | ascii.go:174-179 | the character is in the ramp: `'.'` below zero, `'@'` above eleven, otherwise the ramp character at the integer part |
| `Display.LevelMonotone` | ascii.go:174-179 | a larger value never gets a darker character |
| `Display.PaletteDistinct` | ascii.go:179 | the twelve ramp characters are all different |
| `Display.BlankCell` | ascii.go:174-179 | a cell that was never written (value 0) prints `'.'` |
| `Display.Display` | ascii.go:169-185 | the loops print exactly `Text(Glyphs(pix))` |
| `Display.LineLayout` | ascii.go:172-182 | a row prints two characters per cell: the glyph, then a space |
| `Display.TextLength` | ascii.go:170-184 | the screen is the 4-character clear sequence plus `2*width + 2` characters per row |
| `Display.TextStart` | ascii.go:170 | the screen starts with the clear-screen sequence |
| `Display.CellText` | ascii.go:171-183 | cell `(r, c)` is printed at offset `2c` of row `r`'s text, followed by a space |
| `Display.LineEnd` | ascii.go:183 | every row's text ends with two newlines |
| `Display.CellOnScreen` | ascii.go:169-185 | cell `(r, c)` appears at position `4 + r(2*width + 2) + 2c` of the screen, followed by a space |

## Left out

- Terminal I/O (ascii.go:170, 181, 183): `Display.Display` returns the text the loops would print instead of writing it to a terminal.
- `main` and `time.Sleep` (ascii.go:187-200) are scenario code and timing, not logic.
- The goroutine and buffered channel of `Generate` (ascii.go:87-88, 125-127): the model returns the sent values as a sequence in send order.
- `nPts` (ascii.go:86) is only the channel capacity. `Generator.Generate` requires it to be non-negative, because Go's `make` panics otherwise. Go's `int` truncates toward zero, so this happens exactly when `6S² − 12S ≤ −1`, that is for sides roughly between 0.087 and 1.913 (`UnitCubeCapacity`); for `6S² − 12S` between −1 and 0 the capacity is 0 and the channel is created.
- `Norm` and `Normalize` (ascii.go:31-37) are not modelled. `render` calls `Normalize` only on a copy of the point, which is overwritten on the next line. `Render.Shade` keeps the `Sub` before it, whose effect on the light record lasts.
- The `Vec3` interface (ascii.go:9-12) is never implemented or used.
- IEEE floating point: coordinates, depths and lighting values are exact reals. Rounding, infinities and NaN are not modelled.
- `Render.Render`: requires every sample to lie strictly in front of the camera plane (`z > 0`). The source has no guard: `z == 0` divides by zero, and Go's `int` of an infinity or NaN is implementation-defined.
- `Render.Render`: requires `ys >= -1`, and `xs >= -1` when `ys >= 0`. These are the sizes for which the grid allocation and slicing at ascii.go:136-142 do not panic.
- `Render.Render`: the grid is one `array2<real>` rather than row slices sharing one backing array. No row is aliased or resized, so the two agree.
- `Render.Render`: samples come as a sequence rather than a `PointIterator`.
- `Render.Render` and `Display.Display`: the values are `real` and the grid is unbounded.
- `Cube.GenerateCube`: requires `sideLength >= -1`, because the capacity `(S+1)^3` passed to `make` must not be negative. Go's integer overflow for huge sides is not modelled.
- `Generator.Generate`: requires `step > 0`. With `step <= 0` and a positive side, the float loops never end. With `step <= 0` and `sideLength <= 0` the loops never run and the source closes an empty channel; the model excludes that case too. Both calls in the source (ascii.go:189, 196) pass step 1.
- `Generator.SendFace` and `Generator.SendAxis` are one parameterised method each. The source writes the per-axis loop blocks out three times (ascii.go:90-124). Which coordinate each loop level sweeps on each axis is captured by `OuterOffset`, `InnerOffset` and `Place`.
- `Generator.NewCubeGenerator` returns a value rather than a pointer. `Generate` only reads the generator's fields, so no update through the pointer is lost.
- The face counter `for z := 0.0; z < 2; z++` is modelled as an integer `k` converted to `real`. It takes the same values, 0 and 1.
