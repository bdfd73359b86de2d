# geng-utils core in Dafny

A Dafny model of the three self-contained cores of the `geng-utils` Rust crate:

- **Torus position** (`src/torus/position.rs`). `PositionTorus` is a 2D coordinate on a plane that wraps around on both axes. `from_world` normalises a raw coordinate into the closed range `[0, world_size]` by repeated addition and subtraction. `delta_to` gives the shortest displacement between two positions of the same world. `as_dir`, `shift` and `shifted` are built on these two. Modelled in `torus_position.dfy`, with the remainder arithmetic it needs in `wrap_arith.dfy`.
- **Torus camera** (`src/torus/camera.rs`). `CameraTorus::new` and `project` are modelled. `project` places a position in an unwrapped frame around the camera centre. Modelled in `torus_camera.dfy`.
- **Bounded value** (`src/bounded.rs`). `Bounded` is a value clamped into a closed interval, with `new`, `new_max`, `change` and the `is_max`/`is_min`/`is_above_min` predicates. Modelled in `bounded.dfy`.
- **Box layout** (`src/layout.rs`). `aabb_pos`, `align_aabb`, `fit_aabb`, `fit_aabb_width` and `fit_aabb_height` place and fit axis-aligned boxes. Modelled in `layout.dfy`.

Modelling choices:

- The generic scalar `T: Num` is `int` for the torus position and the bounded value. The camera's `CameraTorus<T: Float>`, its `fov` included, is modelled over `int` as well, on the same integer positions. `T: Float` is `real` for the layout, so the arithmetic is exact.
- The one place where the layout leaves the finite numbers is the division in `fit_aabb`, `fit_aabb_width` and `fit_aabb_height`. `Divide` models it with a `Quotient` that is finite, `+inf`, `-inf` or NaN, and `Less` is the float `<`, which is false whenever NaN takes part. A fitted box is `Some` when its coordinates are finite and `None` otherwise.
- `AlignAabb` is written in closed form. `AlignAabbSteps` proves that the source's three-step construction gives the same box.
- `to_world()` and `world_size()` are the destructors `pos` and `worldSize` of `Position`. `value()`, `min()` and `max()` are the destructors of `Bounded`.
- `Aabb2` is a `min`/`max` pair. `size` is `max - min`, `extend_symmetric(v)` is `[min - v, max + v]` and `point(p)` is `[p, p]`.
- `shift(&mut self)` becomes a method that returns the updated position, and `Bounded::change(&mut self)` becomes the pure function `Change`, which returns the updated `Bounded`.
- The source panics in `delta_to` when the two world sizes differ. In the model, equal world sizes are a precondition of `DeltaTo` and `Project`.
- The preconditions of `FromWorld` say exactly when the source's four loops halt. On each axis, the world size must be positive, or both the world size and the coordinate must be zero. Otherwise a loop runs forever. For example, world size 0 with coordinate -1 never halts.
- The two axes are normalised independently. The source does y before x, and the order does not matter.
- `clamp_range` belongs to the crate's numeric library, which is not part of this model. `Clamp` models it as "raise to `min`, then lower to `max`". With `min <= max` this is the ordinary clamp. With `min > max` it gives `max`. So `new_max(v)` holds `v` even when `v < 0`.

Observations about the code:

- The canonical form is not unique. `0` and `world_size` are both kept as they are, and they denote the same point. A positive multiple of the world size normalises to `world_size`, while zero and negative multiples normalise to `0` (`NormAxisByRemainder`, `ZeroAndEdge`). `delta_to` absorbs the difference: the delta between the two is zero.
- Because the half-period test in `delta_to` is strict, an exact half-world difference is kept as it is, sign included (`DeltaTo`). `delta_to` is antisymmetric at that tie as well (`DeltaAntisymmetric`); that holds because the correction `s * signum(d)` follows the sign of the difference, and it would hold with a non-strict test too.

## Model

| member | source | states |
|---|---|---|
| TorusPosition.RaiseAxis | src/torus/position.rs:13-15 | the "add while negative" loop halts with a non-negative coordinate below the world size that denotes the same point; a non-negative coordinate is untouched |
| TorusPosition.LowerAxis | src/torus/position.rs:16-18 | the "subtract while above" loop halts with a coordinate at most the world size, positive if it moved, denoting the same point; a coordinate not above the size is untouched |
| TorusPosition.NormAxis | src/torus/position.rs:13-26 | one axis of normalisation lands in `[0, s]`, denotes the same point, and leaves an in-range coordinate unchanged |
| TorusPosition.FromWorld | src/torus/position.rs:12-29 | the result stores `world_size` unchanged, is canonical on both axes, is congruent to the input modulo the world size per axis, and equals the input when that is already canonical |
| TorusPosition.NormAxisByRemainder | src/torus/position.rs:12-29 | the loops compute `v mod s`, except that a positive multiple of `s` goes to `s` instead of `0` |
| TorusPosition.CanonicalAxisPoint | src/torus/position.rs:13-26 | two canonical coordinates of the same point are equal or are `0` and `s` |
| TorusPosition.FromWorldIdempotent | src/torus/position.rs:12-29 | normalising the output of `from_world` again changes nothing |
| TorusPosition.FromWorldSamePoint | src/torus/position.rs:12-29 | raw coordinates of the same point normalise to the same position, up to the `0`/`s` ambiguity per axis |
| TorusPosition.Zero | src/torus/position.rs:32-34 | the zero position has raw coordinate `(0, 0)` and the given world size |
| TorusPosition.DeltaAxis | src/torus/position.rs:83-91 | one axis of the delta is congruent to the raw difference, has at most half the world size when the difference is at most one world, and is the raw difference itself (sign kept) when that is at most half the world |
| TorusPosition.DeltaTo | src/torus/position.rs:74-94 | requires equal world sizes (the source panics otherwise); per axis the delta is congruent to `towards - self`, at most half the world size for canonical positions, and the raw difference when that is already at most half, including the exact-half tie |
| TorusPosition.DeltaAxisShortest | src/torus/position.rs:83-91 | no displacement that reaches the same point is shorter than the one-axis delta |
| TorusPosition.DeltaToShortest | src/torus/position.rs:74-94 | between canonical positions, every vector that leads from `a` to the point of `b` is at least as long as `delta_to` on each axis |
| TorusPosition.DeltaAntisymmetric | src/torus/position.rs:74-94 | `b.delta_to(a)` is the negation of `a.delta_to(b)`, for any two same-world positions |
| TorusPosition.AsDir | src/torus/position.rs:56-58 | for a canonical position, `as_dir` keeps a coordinate up to half the world size and maps one past the middle to `coordinate - world_size` |
| TorusPosition.ZeroAndEdge | src/torus/position.rs:12-34 | the zero position's `as_dir` is zero; the far edge `world_size` is kept by `from_world`, `-world_size` goes to `0`, and the edge's `as_dir` is zero |
| TorusPosition.Shifted | src/torus/position.rs:66-68 | the shifted position keeps the world size, is canonical, and denotes the point `to_world() + delta` |
| TorusPosition.Shift | src/torus/position.rs:61-63 | the in-place shift leaves the position equal to `shifted(delta)`, with the same world size and in the canonical range |
| TorusPosition.ShiftedDeltaRoundTrip | src/torus/position.rs:66-94 | shifting a canonical position by less than half the world on each axis and taking `delta_to` back recovers the shift exactly |
| TorusPosition.TestDelta | src/torus/position.rs:110-119 | with world `(20, 10)`: `a.delta_to(b) = (-5, 4)`, `a.delta_to(c) = (7, -4)`, `b.delta_to(c) = (-8, 2)` |
| TorusCamera.NewCamera | src/torus/camera.rs:18-24 | the new camera is centred at raw `(0, 0)` of the given world, stores `fov` unchanged and has zero rotation |
| TorusCamera.Project | src/torus/camera.rs:36-39 | requires the centre's world size; the projection denotes the same point as the position, lies within half the world size of the centre on each axis for canonical inputs, and projecting the centre gives `center.to_world()` |
| TorusCamera.ProjectShifted | src/torus/camera.rs:36-39 | an object less than half the world from the centre, in any direction and across any seam, is projected at the centre plus exactly that offset |
| TorusCamera.ProjectIgnoresLens | src/torus/camera.rs:36-39 | the projection depends on the centre only, not on `fov` or `rotation` |
| TorusCamera.ProjectScenario | src/torus/camera.rs:36-39 | world `(20, 10)`, fov 5, centre `(15, 1)`: the object at `(2, 7)` is projected at `(22, -3)` |
| BoundedValue.Clamp | src/bounded.rs:27-30 | for `min <= max`, the result lies in `[min, max]`, equals the value inside the interval, and equals the bound that was crossed outside it |
| BoundedValue.Normalized | src/bounded.rs:27-30 | normalising keeps the interval, makes the value valid when `min <= max`, leaves a valid value unchanged, raises a value below `min` to `min`, lowers a value above `max` to `max`, and gives `max` when `min > max` |
| BoundedValue.New | src/bounded.rs:18-25 | `new` stores `min` and `max` verbatim; for `min <= max` the value is kept if inside, raised to `min` if below, lowered to `max` if above; for `min > max` the value is `max` |
| BoundedValue.NewMax | src/bounded.rs:13-15 | `new_max(v)` has `min = 0`, `max = v` and value `v` |
| BoundedValue.NewMaxIsMax | src/bounded.rs:13-15 | for `v >= 0`, `new_max(v)` is valid and at its maximum, and above its minimum exactly when `v > 0` |
| BoundedValue.IsMax | src/bounded.rs:45-47 | for a valid value, `is_max` holds exactly at `max`; for `min < max` it holds exactly when normalising the value gives `max` |
| BoundedValue.IsMin | src/bounded.rs:50-52 | for a valid value, `is_min` holds exactly at `min`; for `min < max` it holds exactly when normalising the value gives `min` |
| BoundedValue.IsAboveMin | src/bounded.rs:55-57 | `is_above_min` is the negation of `is_min`; for a valid value it holds exactly when the value is not `min` |
| BoundedValue.Change | src/bounded.rs:60-63 | `change` keeps `min` and `max`, keeps the value valid when `min <= max`, moves it by `delta` inside the interval and saturates at the bound it would cross; for `min > max` the value is `max` |
| BoundedValue.ChangeCompose | src/bounded.rs:60-63 | when the first change stays inside the interval, two changes equal one change by the sum |
| BoundedValue.ChangeUndo | src/bounded.rs:60-63 | a change by `d >= 0` that stays below `max` is undone by a change of `-d` |
| BoundedValue.ChangeMonotone | src/bounded.rs:60-63 | a larger delta never gives a smaller value |
| BoundedValue.TestBounded | src/bounded.rs:79-92 | on `[0, 10]` from 0: +5 gives 5, +6 gives 10, -11 gives 0 |
| Layout.AabbPos | src/layout.rs:3-8 | alignment `(0, 0)` gives `min` and `(1, 1)` gives `max` |
| Layout.AabbPosInside | src/layout.rs:3-8 | an alignment in `[0, 1]` gives a point inside a non-empty box |
| Layout.AlignAabb | src/layout.rs:11-16 | the placed box has exactly the requested size, and its start on each axis is `aabb.min + (aabb.size - size) * align` |
| Layout.AlignAabbSteps | src/layout.rs:11-16 | the source's construction (shrink `aabb` by half the size, take the aligned point, grow it by half the size) gives the same box as `AlignAabb` |
| Layout.Divide | src/layout.rs:20 | floating-point division is finite exactly for a non-zero divisor, and then multiplies back to the dividend; a zero divisor gives NaN for `0 / 0` and `+inf` exactly for a positive dividend |
| Layout.AlignAabbInside | src/layout.rs:11-16 | a size no larger than the box, aligned with factors in `[0, 1]`, gives a box inside it |
| Layout.FitRatio | src/layout.rs:20-21 | the scale factor is finite exactly when both size components are non-zero, or `size.x = 0` with `size.y` non-zero and the box width at least 0, or `size.y = 0` with `size.x` non-zero and the box height positive; with both components non-zero it is one of the two per-axis ratios and no larger than either, and, when it is finite, with exactly one zero component it is the other axis's ratio |
| Layout.FitAabb | src/layout.rs:19-24 | a box exists exactly when the scale factor is finite; it keeps the aspect ratio of `size` and is placed at `aabb.min + (aabb.size - box.size) * align` on each axis; for a positive size it is no wider or taller than `aabb` and matches its width or its height; with one zero component and the other non-zero, a box that exists is flat on that axis and spans `aabb` on the other |
| Layout.FitAabbInside | src/layout.rs:19-24 | for a positive size and alignment in `[0, 1]`, the fitted box lies inside `aabb` |
| Layout.FitAabbWidth | src/layout.rs:27-31 | a box exists exactly when `size.x != 0`; it spans `aabb` horizontally, keeps the aspect ratio of `size`, and is placed vertically by `align` |
| Layout.FitAabbHeight | src/layout.rs:34-38 | a box exists exactly when `size.y != 0`; it spans `aabb` vertically, keeps the aspect ratio of `size`, and is placed horizontally by `align` |
| Layout.FitUnitIntoWide | src/layout.rs:44-68 | a unit square fitted into `[(0,0),(10,5)]` with alignment `t` is the 5 by 5 square starting at `(5t, 0)` |
| Layout.FitUnitIntoTall | src/layout.rs:70-94 | a unit square fitted into `[(0,0),(5,10)]` with alignment `t` is the 5 by 5 square starting at `(0, 5t)` |
| Layout.FitZeroWidthIntoWide | src/layout.rs:19-24 | size `(0, 1)` in `[(0,0),(10,5)]` with alignment `t`: the infinite x ratio loses the comparison, and the result is the finite 0-by-5 box at `x = 10t` |
| Layout.FitFlatAsymmetry | src/layout.rs:20-21 | a zero-width size fits a zero-width box, but a zero-height size in a zero-height box gives no finite box, because the NaN ratio wins the comparison only as its right operand |
| Layout.TestFitAabbWide | src/layout.rs:40-68 | alignment 0, 0.5 and 1 in the wide box give `[(0,0),(5,5)]`, `[(2.5,0),(7.5,5)]` and `[(5,0),(10,5)]` |
| Layout.TestFitAabbTall | src/layout.rs:70-95 | alignment 0, 0.5 and 1 in the tall box give `[(0,0),(5,5)]`, `[(0,2.5),(5,7.5)]` and `[(0,5),(5,10)]` |

## Left out

- `PositionTorus::random` depends on an external random number generator.
- `to_world_f32`, `distance` and `CameraTorus::project_f32` narrow to `f32` or take a floating-point square root.
- `CameraTorus::to_camera2d` and the `AbstractCamera2d` view and projection matrices are `f32` rendering glue. The stored `rotation` is not read there, and it plays no part in `Project` either (`ProjectIgnoresLens`).
- The camera's `rotation` is an angle in the source. The model stores it as an integer, because it is only stored.
- `Bounded::get_ratio` relies on a floating-point `approx_eq`.
- The Serialize/Deserialize derives: the model's datatypes are plain values with structural equality.
- Fixed-width integer overflow and floating-point rounding in the scalar `T`: all arithmetic is unbounded `int` or exact `real`.
- Layout.FitAabb: when the scale factor is an infinity or NaN, the source returns a box with infinite or NaN coordinates; the model returns `None` and does not say which non-finite values they are.
- Layout.FitAabbWidth: for `size.x = 0` the source returns a box with NaN coordinates; the model returns `None`.
- Layout.FitAabbHeight: for `size.y = 0` the source returns a box with NaN coordinates; the model returns `None`.
- TorusCamera.Project: the source's camera works on `T: Float` positions; the model uses integer positions, so fractional coordinates and float rounding are not modelled.
- Layout.Divide: a zero divisor is taken as `+0`. Floats also have `-0`, which flips the sign of the infinity; signed zero is not modelled.
- `src/key.rs`, `src/gif.rs`, `src/texture.rs`, `src/geometry.rs`, `src/pixel.rs`, `src/tiled.rs` and `src/lib.rs` are input handling, asset I/O, GPU resources, `f32` screen transforms and module declarations, and are not part of this model.
