/**
  The grid ray march of `ray_march`: a DDA walk from the start cell through a
  row-major map of tiles, stepping whichever axis has the smaller accumulated ray
  length, until it leaves the map or enters a solid tile (value 1).

  Floating point is modelled by reals. The direction components and the
  per-axis crossing lengths `delta_dist_x`, `delta_dist_y` are inputs (the
  trigonometry and the clamp of `1 / dir` are not modelled).
*/
module Raycast {
  import opened Common

  /** `f32::MAX`, returned in both components when nothing is hit. */
  const F32_MAX: real := 340282346638528859811704183484516925440.0

  /** `v as isize`: truncation toward zero. */
  function Trunc(v: real): (n: int)
    ensures 0.0 <= v ==> 0 <= n && n as real <= v < n as real + 1.0
    ensures v < 0.0 ==> n <= 0 && n as real - 1.0 < v <= n as real
  {
    if v >= 0.0 then v.Floor else -((-v).Floor)
  }

  /** Rust's `fract`, `v - v.trunc()`: it has the sign of `v`. */
  function Fract(v: real): (f: real)
    ensures 0.0 <= v ==> 0.0 <= f < 1.0
    ensures v < 0.0 ==> -1.0 < f <= 0.0
    ensures f + Trunc(v) as real == v
  {
    v - Trunc(v) as real
  }

  /** Which axis the last step crossed: `side = 0` (x) or `side = 1` (y). */
  datatype Side = XSide | YSide

  /** The fixed per-ray values `step_x`, `step_y`, `delta_dist_x`, `delta_dist_y`. */
  datatype Dda = Dda(stepX: int, stepY: int, deltaX: real, deltaY: real)

  /** The loop variables `map_x`, `map_y`, `ray_x`, `ray_y`. */
  datatype Ray = Ray(mapX: int, mapY: int, rayX: real, rayY: real)

  /** What the march finds: nothing, or the solid cell entered, the axis crossed and the wall distance. */
  datatype Outcome = Miss | Hit(cellX: int, cellY: int, side: Side, distance: real)

  predicate ValidDda(d: Dda)
  {
    (d.stepX == 1 || d.stepX == -1) && (d.stepY == 1 || d.stepY == -1) &&
    d.deltaX > 0.0 && d.deltaY > 0.0
  }

  /** The bounds check of the loop condition and of the test after each step. */
  predicate InGrid(x: int, y: int, width: nat, height: nat)
  {
    0 <= x < width && 0 <= y < height
  }

  /** `map_x + map_y * map_width`: the index of an in-grid cell, always inside the map. */
  function CellIndex(x: int, y: int, width: nat, height: nat): (i: nat)
    requires InGrid(x, y, width, height)
    ensures i < width * height
  {
    RowMajorBelow(x, y, width, height);
    x + y * width
  }

  /** The ray is in the grid and its cell is not solid, so the march goes on. */
  ghost predicate Open(tiles: seq<U8>, width: nat, height: nat, r: Ray)
    requires |tiles| >= width * height
  {
    InGrid(r.mapX, r.mapY, width, height) && tiles[CellIndex(r.mapX, r.mapY, width, height)] != 1
  }

  /**
    One iteration's step: the x axis exactly when `ray_x < ray_y`, so a tie
    steps the y axis. Exactly one coordinate moves, by its fixed step, and only
    that axis's length grows, by its delta; the length recorded for the step is
    the smaller one, and with non-negative deltas the frontier
    `Min(ray_x, ray_y)` never shrinks.
  */
  function Advance(d: Dda, r: Ray): (s: (Ray, Side))
    ensures var (next, side) := s;
      && (side == XSide <==> r.rayX < r.rayY)
      && (side == XSide ==> next == Ray(r.mapX + d.stepX, r.mapY, r.rayX + d.deltaX, r.rayY))
      && (side == YSide ==> next == Ray(r.mapX, r.mapY + d.stepY, r.rayX, r.rayY + d.deltaY))
      && (if side == XSide then r.rayX else r.rayY) == Min(r.rayX, r.rayY)
      && (d.deltaX >= 0.0 && d.deltaY >= 0.0 ==> Min(next.rayX, next.rayY) >= Min(r.rayX, r.rayY))
  {
    if r.rayX < r.rayY then (Ray(r.mapX + d.stepX, r.mapY, r.rayX + d.deltaX, r.rayY), XSide)
    else (Ray(r.mapX, r.mapY + d.stepY, r.rayX, r.rayY + d.deltaY), YSide)
  }

  /** How many cells remain along each step direction before the grid ends; it bounds the loop. */
  function Room(d: Dda, r: Ray, width: nat, height: nat): int
  {
    (if d.stepX > 0 then width - r.mapX else r.mapX + 1) +
    (if d.stepY > 0 then height - r.mapY else r.mapY + 1)
  }

  /** The result of the `while` loop of `ray_march`, started from `r`. */
  function Cast(tiles: seq<U8>, width: nat, height: nat, d: Dda, r: Ray): (o: Outcome)
    requires ValidDda(d) && |tiles| >= width * height
    decreases if InGrid(r.mapX, r.mapY, width, height) then Room(d, r, width, height) else 0
    ensures !InGrid(r.mapX, r.mapY, width, height) ==> o == Miss
    ensures o.Hit? ==> InGrid(o.cellX, o.cellY, width, height) && tiles[CellIndex(o.cellX, o.cellY, width, height)] == 1
  {
    if !InGrid(r.mapX, r.mapY, width, height) then Miss
    else
      var (next, side) := Advance(d, r);
      if !InGrid(next.mapX, next.mapY, width, height) then Miss
      else if tiles[CellIndex(next.mapX, next.mapY, width, height)] == 1 then
        Hit(next.mapX, next.mapY, side, if side == XSide then next.rayX - d.deltaX else next.rayY - d.deltaY)
      else Cast(tiles, width, height, d, next)
  }

  /** The ray after `n` steps, whatever the map holds. */
  function Iterate(d: Dda, r: Ray, n: nat): Ray
  {
    if n == 0 then r else Advance(d, Iterate(d, r, n - 1)).0
  }

  /** The outcome of stopping at step `n >= 1` on a solid cell: the distance is the stepped axis's length before that step. */
  function StopAt(d: Dda, r: Ray, n: nat): Outcome
    requires n >= 1
  {
    var prev := Iterate(d, r, n - 1);
    var (next, side) := Advance(d, prev);
    Hit(next.mapX, next.mapY, side, if side == XSide then prev.rayX else prev.rayY)
  }

  function Min(a: real, b: real): real
  {
    if a < b then a else b
  }

  /** How far `to` lies beyond `from` in the direction of `step` (`+1` or `-1`). */
  function Forward(step: int, from: int, to: int): int
  {
    if step > 0 then to - from else from - to
  }

  /** The total length of `n` crossings of `delta`, added one crossing at a time. */
  function Crossings(n: nat, delta: real): (t: real)
    ensures delta >= 0.0 ==> t >= 0.0
  {
    if n == 0 then 0.0 else Crossings(n - 1, delta) + delta
  }

  /** Stepping first and then `k` more times is `k + 1` steps. */
  lemma {:induction false} IterateShift(d: Dda, r: Ray, k: nat)
    ensures Iterate(d, r, k + 1) == Iterate(d, Advance(d, r).0, k)
  {
    if k > 0 {
      IterateShift(d, r, k - 1);
    }
  }

  /**
    After `k` steps the ray has moved `nx` cells along x and `ny` along y, with
    `nx + ny == k`, each in its fixed direction, and each accumulated length
    has grown by one delta per cell crossed: the walk is monotone on both axes.
  */
  lemma {:induction false} IterateCells(d: Dda, r: Ray, k: nat) returns (nx: nat, ny: nat)
    requires ValidDda(d)
    ensures nx + ny == k
    ensures Forward(d.stepX, r.mapX, Iterate(d, r, k).mapX) == nx
    ensures Forward(d.stepY, r.mapY, Iterate(d, r, k).mapY) == ny
    ensures Iterate(d, r, k).rayX == r.rayX + Crossings(nx, d.deltaX)
    ensures Iterate(d, r, k).rayY == r.rayY + Crossings(ny, d.deltaY)
  {
    if k == 0 {
      nx, ny := 0, 0;
    } else {
      var px, py := IterateCells(d, r, k - 1);
      var prev := Iterate(d, r, k - 1);
      if prev.rayX < prev.rayY {
        nx, ny := px + 1, py;
        assert Iterate(d, r, k) == Ray(prev.mapX + d.stepX, prev.mapY, prev.rayX + d.deltaX, prev.rayY);
      } else {
        nx, ny := px, py + 1;
        assert Iterate(d, r, k) == Ray(prev.mapX, prev.mapY + d.stepY, prev.rayX, prev.rayY + d.deltaY);
      }
    }
  }

  /**
    `Cast` is the first stop of the map-independent walk `Iterate`: it returns
    the number `n` of steps taken; every cell stepped to before the `n`-th is in
    the grid and not solid; the `n`-th leaves the grid (a miss) or is solid (a
    hit, reported by `StopAt`). A start outside the grid takes no step at all.
    The walk takes fewer steps than `Room`, so at most `width + height`.
  */
  lemma {:induction false} CastFirstStop(tiles: seq<U8>, width: nat, height: nat, d: Dda, r: Ray) returns (n: nat)
    requires ValidDda(d) && |tiles| >= width * height
    decreases if InGrid(r.mapX, r.mapY, width, height) then Room(d, r, width, height) else 0
    ensures n == 0 <==> !InGrid(r.mapX, r.mapY, width, height)
    ensures InGrid(r.mapX, r.mapY, width, height) ==> n < Room(d, r, width, height) <= width + height
    ensures forall k :: 1 <= k < n ==> Open(tiles, width, height, Iterate(d, r, k))
    ensures n >= 1 ==> !Open(tiles, width, height, Iterate(d, r, n))
    ensures Cast(tiles, width, height, d, r)
         == if n >= 1 && InGrid(Iterate(d, r, n).mapX, Iterate(d, r, n).mapY, width, height) then StopAt(d, r, n) else Miss
  {
    if !InGrid(r.mapX, r.mapY, width, height) {
      n := 0;
    } else {
      var next := Advance(d, r).0;
      assert Iterate(d, r, 1) == next;
      RoomShrinks(d, r, width, height);
      if !Open(tiles, width, height, next) {
        n := 1;
      } else {
        assert Cast(tiles, width, height, d, r) == Cast(tiles, width, height, d, next);
        var m := CastFirstStop(tiles, width, height, d, next);
        n := m + 1;
        forall k | 1 <= k < n
          ensures Open(tiles, width, height, Iterate(d, r, k))
        {
          IterateShift(d, r, k - 1);
        }
        StopAtShift(d, r, m);
      }
    }
  }

  /** Inside the grid `Room` is at most `width + height`, and each step that stays inside uses up one cell of it. */
  lemma RoomShrinks(d: Dda, r: Ray, width: nat, height: nat)
    requires ValidDda(d) && InGrid(r.mapX, r.mapY, width, height)
    ensures 2 <= Room(d, r, width, height) <= width + height
    ensures var next := Advance(d, r).0;
      InGrid(next.mapX, next.mapY, width, height) ==> Room(d, next, width, height) == Room(d, r, width, height) - 1
  {
  }

  /** `m + 1` steps from `r` are `m` steps from the cell after `r`. */
  lemma StopAtShift(d: Dda, r: Ray, m: nat)
    requires m >= 1
    ensures Iterate(d, r, m + 1) == Iterate(d, Advance(d, r).0, m)
    ensures StopAt(d, r, m + 1) == StopAt(d, Advance(d, r).0, m)
  {
    IterateShift(d, r, m);
    IterateShift(d, r, m - 1);
  }

  /**
    The start cell is never tested: a hit lies at least one step ahead along
    the step directions, and never behind the start on either axis.
  */
  lemma CastHitAhead(tiles: seq<U8>, width: nat, height: nat, d: Dda, r: Ray)
    requires ValidDda(d) && |tiles| >= width * height
    ensures var o := Cast(tiles, width, height, d, r);
      o.Hit? ==>
        && Forward(d.stepX, r.mapX, o.cellX) >= 0 && Forward(d.stepY, r.mapY, o.cellY) >= 0
        && Forward(d.stepX, r.mapX, o.cellX) + Forward(d.stepY, r.mapY, o.cellY) >= 1
        && (o.cellX, o.cellY) != (r.mapX, r.mapY)
  {
    var n := CastFirstStop(tiles, width, height, d, r);
    if Cast(tiles, width, height, d, r).Hit? {
      var nx, ny := IterateCells(d, r, n);
    }
  }

  /** With non-negative starting lengths the hit distance is non-negative. */
  lemma CastDistanceNonNegative(tiles: seq<U8>, width: nat, height: nat, d: Dda, r: Ray)
    requires ValidDda(d) && |tiles| >= width * height
    requires r.rayX >= 0.0 && r.rayY >= 0.0
    ensures var o := Cast(tiles, width, height, d, r);
      o.Hit? ==> o.distance >= Min(r.rayX, r.rayY) >= 0.0
  {
    var n := CastFirstStop(tiles, width, height, d, r);
    if Cast(tiles, width, height, d, r).Hit? {
      var nx, ny := IterateCells(d, r, n - 1);
    }
  }

  /** A map with no solid tile is never hit. */
  lemma CastEmptyMap(tiles: seq<U8>, width: nat, height: nat, d: Dda, r: Ray)
    requires ValidDda(d) && |tiles| >= width * height
    requires forall i :: 0 <= i < width * height ==> tiles[i] != 1
    ensures Cast(tiles, width, height, d, r) == Miss
  {
    var n := CastFirstStop(tiles, width, height, d, r);
  }

  /** `step_x`, `step_y` from the direction's sign (`dir >= 0.0` gives `+1`), with the given crossing lengths. */
  function Setup(dirX: real, dirY: real, deltaX: real, deltaY: real): (d: Dda)
    requires deltaX > 0.0 && deltaY > 0.0
    ensures ValidDda(d)
    ensures (d.stepX > 0 <==> dirX >= 0.0) && (d.stepY > 0 <==> dirY >= 0.0)
  {
    Dda(if dirX >= 0.0 then 1 else -1, if dirY >= 0.0 then 1 else -1, deltaX, deltaY)
  }

  /**
    The distance from `start` to the first gridline crossed along one axis:
    `(1 - fract) * delta` moving forward (Rust's `signum` is `1` at `0.0`),
    `fract * delta` moving backward. It lies in `[0, delta]` for a
    non-negative start.
  */
  function FirstCrossing(start: real, dir: real, delta: real): (t: real)
    requires delta > 0.0
    ensures 0.0 <= start ==> 0.0 <= t <= delta
    ensures 0.0 <= start && dir >= 0.0 ==> t > 0.0
  {
    if dir >= 0.0 then (1.0 - Fract(start)) * delta else Fract(start) * delta
  }

  /** The loop's initial state: the start cell by truncation toward zero, and the first crossings. */
  function Start(startX: real, startY: real, dirX: real, dirY: real, deltaX: real, deltaY: real): (r: Ray)
    requires deltaX > 0.0 && deltaY > 0.0
    ensures 0.0 <= startX ==> r.mapX as real <= startX < r.mapX as real + 1.0 && r.rayX >= 0.0
    ensures 0.0 <= startY ==> r.mapY as real <= startY < r.mapY as real + 1.0 && r.rayY >= 0.0
  {
    Ray(Trunc(startX), Trunc(startY), FirstCrossing(startX, dirX, deltaX), FirstCrossing(startY, dirY, deltaY))
  }

  /** The coordinate reached after travelling `dist` along a direction component. */
  function Along(start: real, dist: real, dir: real): real
  {
    start + dist * dir
  }

  /** The hit coordinate along the wall: y for a wall crossed on the x axis, x for one crossed on the y axis. */
  function WallCoordinate(side: Side, dist: real, startX: real, startY: real, dirX: real, dirY: real): real
  {
    if side == XSide then Along(startY, dist, dirY) else Along(startX, dist, dirX)
  }

  /** The pair `ray_march` returns for an outcome: the wall offset is the fractional part of the hit coordinate on the other axis. */
  function Report(o: Outcome, startX: real, startY: real, dirX: real, dirY: real): (r: (real, real))
    ensures o.Miss? ==> r == (F32_MAX, F32_MAX)
    ensures o.Hit? ==> r.0 == o.distance && -1.0 < r.1 < 1.0
    ensures o.Hit? && WallCoordinate(o.side, o.distance, startX, startY, dirX, dirY) >= 0.0 ==> 0.0 <= r.1
  {
    match o
    case Miss => (F32_MAX, F32_MAX)
    case Hit(_, _, side, dist) =>
      (dist, Fract(WallCoordinate(side, dist, startX, startY, dirX, dirY)))
  }

  /** `ray_march`: the DDA loop, an early return on a solid cell, `(MAX, MAX)` once the ray leaves the map. */
  method RayMarch(startX: real, startY: real, dirX: real, dirY: real, deltaX: real, deltaY: real,
                  mapWidth: nat, mapHeight: nat, tiles: seq<U8>)
    returns (distance: real, offset: real)
    requires deltaX > 0.0 && deltaY > 0.0
    requires |tiles| >= mapWidth * mapHeight
    ensures (distance, offset)
         == Report(Cast(tiles, mapWidth, mapHeight, Setup(dirX, dirY, deltaX, deltaY),
                        Start(startX, startY, dirX, dirY, deltaX, deltaY)),
                   startX, startY, dirX, dirY)
  {
    ghost var d := Setup(dirX, dirY, deltaX, deltaY);
    ghost var outcome := Cast(tiles, mapWidth, mapHeight, d, Start(startX, startY, dirX, dirY, deltaX, deltaY));
    var mapX := Trunc(startX);
    var mapY := Trunc(startY);
    var stepX := if dirX >= 0.0 then 1 else -1;
    var stepY := if dirY >= 0.0 then 1 else -1;
    var rayX := if dirX >= 0.0 then (1.0 - Fract(startX)) * deltaX else Fract(startX) * deltaX;
    var rayY := if dirY >= 0.0 then (1.0 - Fract(startY)) * deltaY else Fract(startY) * deltaY;
    var side;
    while 0 <= mapX < mapWidth && 0 <= mapY < mapHeight
      invariant d == Dda(stepX, stepY, deltaX, deltaY)
      invariant Cast(tiles, mapWidth, mapHeight, d, Ray(mapX, mapY, rayX, rayY)) == outcome
      decreases Room(d, Ray(mapX, mapY, rayX, rayY), mapWidth, mapHeight)
    {
      ghost var prev := Ray(mapX, mapY, rayX, rayY);
      if rayX < rayY {
        rayX := rayX + deltaX;
        mapX := mapX + stepX;
        side := XSide;
      } else {
        rayY := rayY + deltaY;
        mapY := mapY + stepY;
        side := YSide;
      }
      assert Advance(d, prev) == (Ray(mapX, mapY, rayX, rayY), side);
      if mapX < 0 || mapX >= mapWidth || mapY < 0 || mapY >= mapHeight {
        assert outcome == Miss;
        break;
      }
      if tiles[CellIndex(mapX, mapY, mapWidth, mapHeight)] == 1 {
        if side == XSide {
          var perpWallDis := rayX - deltaX;
          assert outcome == Hit(mapX, mapY, XSide, perpWallDis);
          return perpWallDis, Fract(Along(startY, perpWallDis, dirY));
        } else {
          var perpWallDis := rayY - deltaY;
          assert outcome == Hit(mapX, mapY, YSide, perpWallDis);
          return perpWallDis, Fract(Along(startX, perpWallDis, dirX));
        }
      }
    }
    return F32_MAX, F32_MAX;
  }

  /** A 32 x 32 map whose only solid tile is `(5, 5)`. */
  function OneTileMap(): (tiles: seq<U8>)
    ensures |tiles| == 32 * 32
    ensures forall i :: 0 <= i < |tiles| ==> (tiles[i] == 1 <==> i == 5 + 5 * 32)
  {
    seq(32 * 32, i => if i == 5 + 5 * 32 then 1 else 0)
  }

  /**
    From `(5.5, 3.5)` moving straight along `+y` (the x crossing length stands
    in for the infinite one of a zero x component), the march enters `(5, 4)`,
    then hits `(5, 5)` across a y gridline at distance `1.5`, the length from
    `y = 3.5` to the tile's near face `y = 5.0`; the wall offset is `0.5`.
  */
  lemma StraightDownExample()
    ensures Cast(OneTileMap(), 32, 32, Setup(0.0, 1.0, 1000.0, 1.0), Start(5.5, 3.5, 0.0, 1.0, 1000.0, 1.0))
         == Hit(5, 5, YSide, 1.5)
    ensures Report(Hit(5, 5, YSide, 1.5), 5.5, 3.5, 0.0, 1.0) == (1.5, 0.5)
  {
    var d := Setup(0.0, 1.0, 1000.0, 1.0);
    var r := Start(5.5, 3.5, 0.0, 1.0, 1000.0, 1.0);
    assert Trunc(5.5) == 5 && Trunc(3.5) == 3;
    assert r == Ray(5, 3, 500.0, 0.5);
    var tiles := OneTileMap();
    assert tiles[5 + 4 * 32] == 0;
    assert tiles[5 + 5 * 32] == 1;
    assert Cast(tiles, 32, 32, d, Ray(5, 4, 500.0, 1.5)) == Hit(5, 5, YSide, 1.5);
  }
}
