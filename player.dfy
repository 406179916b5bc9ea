/**
  `Player` and `move_player`: six held keys move the player a fixed step
  along its heading (F forward, S back, R and T sideways) and turn it by a
  fixed angle (P up, W down), keeping the heading in [0, 2 PI]. Reals stand
  for `f32`; `cos` and `sin` are parameters.
*/
module Player {
  /** `std::f32::consts::PI`: the `f32` nearest to pi, written out exactly. */
  const PI: real := 3.1415927410125732421875
  /** The distance one held movement key adds per call. */
  const MOVE_STEP: real := 0.1
  /** The angle one held turning key adds per call. */
  const TURN_STEP: real := 0.01

  /** The keys `move_player` polls with `is_key_down`. */
  datatype Keys = Keys(f: bool, s: bool, r: bool, t: bool, p: bool, w: bool)

  /** The keys that move rather than turn. */
  predicate Moves(keys: Keys)
  {
    keys.f || keys.s || keys.r || keys.t
  }

  /** The player: a heading in radians and a position in map cells. */
  class Player {
    var rotation: real
    var posX: real
    var posY: real

    /** `Player::new`. */
    constructor (x: real, y: real, rotation: real)
      ensures this.rotation == rotation && posX == x && posY == y
    {
      this.rotation := rotation;
      posX := x;
      posY := y;
    }
  }

  /**
    The change of one coordinate in a call: `trig` is `cos` for x and `sin` for
    y. Each movement key adds `MOVE_STEP` along its own direction (forward, the
    reverse, a quarter turn down, a quarter turn up), all taken at the heading
    the call started with.
  */
  function Displacement(keys: Keys, rotation: real, trig: real -> real): (d: real)
    ensures !Moves(keys) ==> d == 0.0
  {
    (if keys.f then trig(rotation) * MOVE_STEP else 0.0)
    - (if keys.s then trig(rotation) * MOVE_STEP else 0.0)
    + (if keys.r then trig(rotation - PI / 2.0) * MOVE_STEP else 0.0)
    + (if keys.t then trig(rotation + PI / 2.0) * MOVE_STEP else 0.0)
  }

  /**
    Each movement key held alone moves `MOVE_STEP` along its own direction:
    F along the heading, S against it, R at a quarter turn less, T at a
    quarter turn more; the turning keys do not move the player.
  */
  lemma KeyDirections(rotation: real, p: bool, w: bool, trig: real -> real)
    ensures Displacement(Keys(true, false, false, false, p, w), rotation, trig) == trig(rotation) * MOVE_STEP
    ensures Displacement(Keys(false, true, false, false, p, w), rotation, trig) == -(trig(rotation) * MOVE_STEP)
    ensures Displacement(Keys(false, false, true, false, p, w), rotation, trig) == trig(rotation - PI / 2.0) * MOVE_STEP
    ensures Displacement(Keys(false, false, false, true, p, w), rotation, trig) == trig(rotation + PI / 2.0) * MOVE_STEP
    ensures Displacement(Keys(false, false, false, false, p, w), rotation, trig) == 0.0
  {
  }

  /** The net turn the keys ask for: P adds `TURN_STEP`, W takes it away. */
  function NetTurn(p: bool, w: bool): real
  {
    (if p then TURN_STEP else 0.0) - (if w then TURN_STEP else 0.0)
  }

  /**
    The heading after P and then W: each step wraps by one full turn when it
    leaves the range. A heading in [0, 2 PI] stays there; the new heading is
    the old one plus the net turn, up to one full turn either way; with neither
    key it is unchanged.
  */
  function Turn(rotation: real, p: bool, w: bool): (r: real)
    ensures 0.0 <= rotation <= 2.0 * PI ==> 0.0 <= r <= 2.0 * PI
    ensures var k := r - rotation - NetTurn(p, w); k == 0.0 || k == 2.0 * PI || k == -2.0 * PI
    ensures !p && !w ==> r == rotation
  {
    var up := if p then rotation + TURN_STEP else rotation;
    var afterP := if p && up > 2.0 * PI then up - 2.0 * PI else up;
    var down := if w then afterP - TURN_STEP else afterP;
    if w && down < 0.0 then down + 2.0 * PI else down
  }

  /**
    With `cos` and `sin` on the unit circle at the heading, holding F alone
    (or S alone) moves the player exactly `MOVE_STEP`: the squared length of
    the displacement is `MOVE_STEP * MOVE_STEP`.
  */
  lemma StraightStepLength(keys: Keys, rotation: real, cos: real -> real, sin: real -> real)
    requires cos(rotation) * cos(rotation) + sin(rotation) * sin(rotation) == 1.0
    requires keys.f != keys.s && !keys.r && !keys.t
    ensures var dx := Displacement(keys, rotation, cos);
      var dy := Displacement(keys, rotation, sin);
      dx * dx + dy * dy == MOVE_STEP * MOVE_STEP
  {
    var c, s := cos(rotation), sin(rotation);
    var dx := Displacement(keys, rotation, cos);
    var dy := Displacement(keys, rotation, sin);
    var sign := if keys.f then 1.0 else -1.0;
    assert dx == sign * c * MOVE_STEP && dy == sign * s * MOVE_STEP;
    calc {
      dx * dx + dy * dy;
      == sign * sign * (c * c + s * s) * MOVE_STEP * MOVE_STEP;
      == MOVE_STEP * MOVE_STEP;
    }
  }

  /**
    `move_player`: the position moves by `Displacement` at the starting
    heading and the heading becomes `Turn` of it.
  */
  method MovePlayer(player: Player, keys: Keys, cos: real -> real, sin: real -> real)
    modifies player
    ensures player.posX == old(player.posX) + Displacement(keys, old(player.rotation), cos)
    ensures player.posY == old(player.posY) + Displacement(keys, old(player.rotation), sin)
    ensures player.rotation == Turn(old(player.rotation), keys.p, keys.w)
  {
    var rotation, x, y := player.rotation, player.posX, player.posY;
    if keys.f {
      x := x + cos(rotation) * MOVE_STEP;
      y := y + sin(rotation) * MOVE_STEP;
    }
    if keys.s {
      x := x - cos(rotation) * MOVE_STEP;
      y := y - sin(rotation) * MOVE_STEP;
    }
    if keys.r {
      x := x + cos(rotation - PI / 2.0) * MOVE_STEP;
      y := y + sin(rotation - PI / 2.0) * MOVE_STEP;
    }
    if keys.t {
      x := x + cos(rotation + PI / 2.0) * MOVE_STEP;
      y := y + sin(rotation + PI / 2.0) * MOVE_STEP;
    }
    if keys.p {
      rotation := rotation + TURN_STEP;
      if rotation > 2.0 * PI {
        rotation := rotation - 2.0 * PI;
      }
    }
    if keys.w {
      rotation := rotation - TURN_STEP;
      if rotation < 0.0 {
        rotation := rotation + 2.0 * PI;
      }
    }
    player.rotation, player.posX, player.posY := rotation, x, y;
  }
}
