# Aberration raycaster core in Dafny

A model of the logic of a small Rust raycasting demo, with proofs. The demo is
built from a few parts:

- a nearest-neighbour buffer scaler (`scale_buffer`) that stretches a small
  logical framebuffer to the window using 16.16 fixed-point ratios;
- a DDA grid ray march (`ray_march`) that walks a row-major tile map from a
  start point until it enters a solid tile (value `1`) or leaves the map;
- the Enter/Space mode toggles (`handle_input`) over `color_state` and
  `debug_render`, which trigger random refills of the buffer;
- an interval timer (`Timer`) that hands its tick count to a callback once
  its duration has elapsed, then resets;
- player movement and turning (`move_player`) driven by six keys;
- the demo frame loop of `main`. Each frame clears the 4 x 4 buffer, lights
  the pixel under a cyclic cursor, scales the buffer to 1080 x 720 and counts
  frames for an FPS report once a second.

One module per source file:

- `common.dfy`: `U8`, `U32` and `Option`, plus the division and row-major
  index lemmas the other modules share.
- `renderer.dfy`: the reference function `Scaled`, the method `ScaleBuffer`
  with its nested loops, and lemmas about index safety, sampling, identity,
  doubling and `usize` overflow.
- `raycast.dfy`:
  - the loop's state as datatypes;
  - `Cast`, the reference result of the loop;
  - `Iterate`, the walk that does not depend on the map, with `StopAt`;
  - the method `RayMarch`, a `while` loop proved against `Cast`;
  - lemmas about the first hit, in-bounds reads, monotone stepping, distances
    and termination.
- `input_handling.dfy`: the class `RenderState`, the pure `Respond`, and the
  method `HandleInput`, which flips the flags in place and overwrites the buffer.
- `timer.dfy`: the class `Timer` and its one-call function `Step`. `Run` folds
  `Step` over many calls, and lemmas say what the callback receives over a run.
- `player.dfy`: the class `Player`, the functions `Displacement` and `Turn`,
  and the method `MovePlayer`.
- `demo.dfy`: the class `Demo` holding `main`'s loop state, the method `Frame`,
  and lemmas about the cursor and the FPS counter.

Floating-point values are modelled as reals. Machine integers are modelled as
`nat`, with explicit bounds wherever overflow matters. The clock, the keys,
`cos`/`sin` and the random fill contents are all parameters.

## Model

| member | source | states |
|---|---|---|
| Renderer.ScaleBuffer | src/renderer.rs:1-19 | returns a fresh array of exactly `dest_width * dest_height` pixels equal to `Scaled`: pixel `(x, y)` is the source pixel at the sampled coordinates; the input array is not modified |
| Renderer.Ratio | src/renderer.rs:4-5 | `(src << 16) / dest` rounds `src / dest` down in 16.16 fixed point: `dest` steps of the ratio never pass `src` pixels, while `dest` steps of a ratio one unit larger would |
| Renderer.Sample | src/renderer.rs:9-10 | `(d * ratio) >> 16` is the whole part of the fixed-point product |
| Renderer.Scaled | src/renderer.rs:2-16 | the reference output has exactly `dest_width * dest_height` pixels (its contents are stated by `ScaledAt`) |
| Renderer.SourceIndex | src/renderer.rs:9-12 | `src_y * src_width + src_x` is always below `src_width * src_height`, so reading the source never goes out of bounds |
| Renderer.SampleBelow | src/renderer.rs:4-10 | a sampled coordinate `(d * ((src << 16) / dest)) >> 16` is below `src` for every `d < dest` |
| Renderer.SampleMonotonic | src/renderer.rs:9-10 | sampled source coordinates never decrease as the destination coordinate increases |
| Renderer.ScaledAt | src/renderer.rs:2-14 | the output has `dest_width * dest_height` pixels, and the one at `y * dest_width + x` is `buffer[src_y * src_width + src_x]` |
| Renderer.ScaledFromSource | src/renderer.rs:9-14 | every output pixel is a pixel of the `src_width * src_height` source image |
| Renderer.RatioSelf | src/renderer.rs:4-10 | the ratio of a dimension to itself is `1 << 16`, and sampling with it is the identity |
| Renderer.ScaleIdentity | src/renderer.rs:4-14 | scaling to the source's own size gives ratios of `1 << 16` and returns the source image unchanged |
| Renderer.ScaleDouble | src/renderer.rs:4-14 | doubling both dimensions gives ratios of `1 << 15`, and each 2x2 output block repeats one source pixel |
| Renderer.NoOverflow | src/renderer.rs:4-14 | under `FitsUsize`, each shift, ratio, product and index of the loop stays below `2^64` |
| Raycast.Trunc | src/raycast.rs:24-25 | `as isize` truncates toward zero: a non-negative value lands in `[n, n + 1)` and a negative one in `(n - 1, n]` |
| Raycast.Fract | src/raycast.rs:37-38 | `fract` has the sign of its argument, lies strictly inside `(-1, 1)`, and adds back to the value with the truncation |
| Raycast.CellIndex | src/raycast.rs:63 | `map_x + map_y * map_width` of an in-grid cell is below `map_width * map_height` |
| Raycast.Setup | src/raycast.rs:33-34 | each step is `+1` exactly when its direction component is `>= 0.0`, otherwise `-1` |
| Raycast.FirstCrossing | src/raycast.rs:36-45 | for a non-negative start, the initial ray length lies in `[0, delta]`; it is strictly positive when moving forward |
| Raycast.Start | src/raycast.rs:24-45 | for a non-negative start, the initial cell contains the start point and both ray lengths are non-negative |
| Raycast.Advance | src/raycast.rs:49-57 | an iteration steps the x axis exactly when `ray_x < ray_y`, so a tie steps y; exactly one coordinate moves, by its fixed step, and only that axis's length grows, by its delta; the length recorded is the smaller one, and `min(ray_x, ray_y)` never shrinks |
| Raycast.IterateCells | src/raycast.rs:49-57 | after `k` steps the ray has moved `nx` cells along x and `ny` along y, with `nx + ny == k`, all in the step directions; each length has grown by one delta per cell crossed |
| Raycast.RoomShrinks | src/raycast.rs:48-61 | each step that stays in the grid uses up one of at most `width + height` remaining cells, so the loop terminates |
| Raycast.Cast | src/raycast.rs:48-72 | the loop's result: a start cell outside the grid is a miss without reading the map, and a hit is a solid in-grid cell whose map index is in bounds (the step-by-step characterisation is `CastFirstStop`) |
| Raycast.CastFirstStop | src/raycast.rs:48-74 | the loop's result is the first stop of the walk. A start cell outside the grid takes no step. Every cell before the stop is in the grid and not solid. The stop is a miss when it leaves the grid and a hit when its cell is solid. There are fewer than `width + height` steps |
| Raycast.CastHitAhead | src/raycast.rs:48-71 | the start cell is never tested: a hit lies at least one step ahead and never behind the start on either axis |
| Raycast.CastDistanceNonNegative | src/raycast.rs:65-68 | with non-negative initial lengths, the hit distance (the length minus one delta) is at least `min(ray_x, ray_y)` at the start, hence non-negative |
| Raycast.CastEmptyMap | src/raycast.rs:59-61 | a map without solid tiles always produces a miss |
| Raycast.Report | src/raycast.rs:64-74 | a miss is reported as `(f32::MAX, f32::MAX)`; a hit as its distance and a wall offset strictly inside `(-1, 1)`, non-negative when the hit coordinate along the wall is |
| Raycast.RayMarch | src/raycast.rs:16-75 | the `while` loop returns `Report` of `Cast` from the initial state: `(f32::MAX, f32::MAX)` on a miss; on a hit, the distance and the `fract` of the hit coordinate on the other axis |
| Raycast.StraightDownExample | src/raycast.rs:24-71 | on a 32 x 32 map whose only solid tile is `(5, 5)`, a ray from `(5.5, 3.5)` along `+y` hits `(5, 5)` across a y line at distance `1.5`, with wall offset `0.5` |
| InputHandling.FillFor | src/input_handling.rs:16-20 | the black/white fill is chosen exactly when `color_state` is true, the random-colour fill otherwise |
| InputHandling.Respond | src/input_handling.rs:13-30 | Enter negates `color_state` once and Space negates `debug_render` once. Enter fills only when the old `debug_render` is false, and Space always fills. Every fill is black/white when the new `color_state` is true and random colour otherwise. With no key pressed, nothing changes |
| InputHandling.RespondTwiceRestores | src/input_handling.rs:13-24 | the same keys pressed in two calls restore both flags |
| InputHandling.Overwrite | src/input_handling.rs:17-28 | a fill overwrites every pixel and keeps the buffer length |
| InputHandling.HandleInput | src/input_handling.rs:8-31 | updates the flags in place as `Respond` says and returns its fills; when nothing is filled the buffer is unchanged, otherwise it holds the random contents |
| InputHandling.RenderState.constructor | src/input_handling.rs:9 | a render state holding the two given flag values |
| Timer.Since | src/timer.rs:24 | `duration_since` is the difference of the two times when `now` is not earlier; otherwise it saturates at zero |
| Timer.Step | src/timer.rs:20-29 | a call fires exactly when `now - elapsed >= duration`. It then reports the incremented count, which is at least 1, resets `tick` to 0 and sets `elapsed := now`. Otherwise `elapsed` stays. The new count plus the reported value is the old count plus one, and `duration` never changes |
| Timer.RunCountsCalls | src/timer.rs:20-28 | over any run of calls, the count is the number of calls since the last firing, and each firing reports the calls since the previous firing or since construction; `duration` is unchanged |
| Timer.RunConservesTicks | src/timer.rs:20-28 | over any run, the reported values plus the final count add up to the start count plus the number of calls |
| Timer.Timer.constructor | src/timer.rs:11-17 | a new timer starts with `tick = 0`, `elapsed = now` and the given duration |
| Timer.Timer.Tick | src/timer.rs:20-29 | updates the fields and returns the callback's argument exactly as `Step` says |
| Player.Player.constructor | src/player.rs:12-18 | `Player::new` stores `x`, `y` and `rotation` unchanged |
| Player.Displacement | src/player.rs:22-37 | when no movement key is held, the position does not change |
| Player.KeyDirections | src/player.rs:22-37 | each key held alone moves `0.1` along its own direction: F along the heading, S against it, R at `r - PI/2`, T at `r + PI/2`; P and W do not move the player |
| Player.StraightStepLength | src/player.rs:22-29 | with `cos` and `sin` on the unit circle, F alone or S alone moves a distance of exactly `0.1` |
| Player.Turn | src/player.rs:38-49 | a heading in `[0, 2 PI]` stays in `[0, 2 PI]`; the new heading is the old one plus the net turn (`+0.01` for P, `-0.01` for W), give or take one full turn; without P or W it is unchanged |
| Player.MovePlayer | src/player.rs:21-50 | the position moves by `Displacement` taken at the heading from before the call, and the heading becomes `Turn` of it |
| Demo.NextCursor | src/main.rs:34-35 | a cursor inside the buffer moves to the next pixel, or wraps from the last pixel to 0; the result is always inside the buffer |
| Demo.OneHot | src/main.rs:29-33 | in a buffer where only the cursor's pixel is lit, a pixel is `u32::MAX` exactly at the cursor |
| Demo.CursorWalks | src/main.rs:34-35 | after `n` frames the cursor has moved `n` pixels modulo the buffer length |
| Demo.CursorCycles | src/main.rs:34-35 | the cursor is back at its start after exactly `len` frames, and not before |
| Demo.FpsStep | src/main.rs:47-54 | the frame count is reported and reset exactly when at least one second has elapsed; otherwise it goes up by one; no frame is lost |
| Demo.FpsCounterIsTimer | src/main.rs:47-54 | with one clock reading, the FPS counter steps exactly like a `Timer` with a 1000 ms duration |
| Demo.ScaledOneHot | src/main.rs:29-43 | a pixel of the scaled frame is lit exactly when it samples the cursor's pixel |
| Demo.Demo.constructor | src/main.rs:13-27 | the buffer holds 16 zero pixels, the cursor and frame count are 0, and the FPS clock starts now |
| Demo.Demo.Frame | src/main.rs:29-54 | after the clear loop and the write, only the old cursor pixel is `u32::MAX` and the rest are 0. The cursor advances by one modulo the length and stays in bounds, and the buffer keeps its length. The scaled frame is returned, and the FPS counter steps as `FpsStep` |

## Left out

- Window and keyboard I/O are parameters. Keys are booleans, and the scaled
  frame and the FPS value are returned. Creating the window,
  `update_with_buffer` and `set_title` are not modelled.
- Floating point is modelled with reals. There is no `f32` rounding, NaN or
  infinity. `cos` and `sin` are parameters, and `PI` is the exact value of the
  `f32` constant.
- Raycast.RayMarch: takes the direction components as inputs of any sign, and
  `delta_dist_x/y` as positive inputs. The trigonometry, `1 / dir` and the `f32::MIN_POSITIVE`
  clamp are not modelled. The `_ => f32::MAX` arm of the `signum` match is not
  modelled either, because with real numbers `signum` is never anything but
  `1` or `-1`.
- Raycast.Trunc: does not model the saturation of `as isize` for values beyond
  the `isize` range.
- Raycast.RayMarch: requires `map.len() >= map_width * map_height`. With a
  shorter slice the Rust indexing can panic, when the walk reaches a cell
  past the end; the requirement also excludes short maps whose missing cells
  the walk never reads.
- Raycast.Report: makes no claim that the wall offset lies in `[0, 1)`. Rust's
  `fract` is negative for a negative argument, and nothing keeps the hit
  coordinate non-negative.
- Renderer.ScaleBuffer: requires all four dimensions to be positive. A zero
  destination dimension divides by zero in Rust. A zero source dimension is
  excluded too, because the source image is then empty. With a zero
  `src_width` the Rust code reads `buffer[0]` for every output pixel; with a
  zero `src_height` (and a positive `src_width`) it reads `buffer[src_x]` in
  each column. Both read outside the empty image and can panic on a short
  slice; the model does not cover this degenerate case.
- Renderer.ScaleBuffer: models integers as `nat` under the `FitsUsize` bound
  rather than modelling `usize` wrap-around.
- `fill_buffer_rand` and `fill_buffer_rand_bw` are not part of this model.
  Each fill is an overwrite with a caller-supplied random draw, and the model
  records which of the two fills was chosen.
- `crate::state::RenderState` is not part of this model. Only its two fields
  that `handle_input` touches are modelled.
- `Instant` and `Duration` are times in milliseconds passed as parameters.
  `duration_since` saturates at zero, as Rust's does.
- The timer's boxed callback is replaced by the value it would receive,
  returned from `Tick`.
- Integer width of the timer's `tick` and of `main`'s `count` (both `usize`)
  is not modelled; they are `nat` and cannot overflow.
- Demo.FpsStep: `frame_count` is an `i32` in `main` (its type is inferred from
  integer literals); the model counts in `nat` and does not model its overflow,
  which would need more than 2^31 frames within one second.
- Demo.Demo.Frame: `last_fps_time.elapsed()` and the following
  `Instant::now()` are two separate clock readings, passed as `measured` and
  `reset`.
- Wall-slice projection, frame-difference compositing and a portal sprite are
  not implemented in these files, so they are not modelled.

`Raycast.Start`: the start cell is the truncation toward zero of the start
point, so a start point in `(-1, 0)` on an axis is marched from cell `0`.

`Raycast.StraightDownExample`: from `(5.5, 3.5)` facing `+y`, tile `(5, 5)`
is hit at `1.5`, the distance to its near face `y = 5.0`.
