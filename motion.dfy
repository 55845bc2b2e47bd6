/**
 * The arithmetic of the bicycle's motion that the model computes exactly
 * (interpolation and the shortest-turn heading ease), and the oracle for the
 * transcendental functions and square roots it does not.
 */
module Motion {

  /** p.PI, the double closest to pi. */
  const PI: real := 3.141592653589793
  /** p.TWO_PI. */
  const TWO_PI: real := 2.0 * PI

  /** Interpolation factor of the travel tween per frame. */
  const TRAVEL_EASE: real := 0.03
  /** Interpolation factor of the heading per frame. */
  const HEADING_EASE: real := 0.1
  /** The bicycle has arrived once it is closer than this to its target. */
  const ARRIVAL_RADIUS: real := 2.0
  /** Below this speed a travelling bicycle emits no particles. */
  const EMIT_MIN_SPEED: real := 0.1
  /** Downward acceleration per frame while dropping. */
  const GRAVITY: real := 0.5
  /** Velocity factor of a bounce off the ground. */
  const BOUNCE: real := -0.6
  /** A bounce slower than this ends the drop. */
  const SETTLE_SPEED: real := 1.0
  /** How far above its ground line a bicycle spawns. */
  const DROP_HEIGHT: real := 200.0
  /** Scale from embedding differences to canvas displacement. */
  const MOVE_SCALE: real := 750.0

  /** p.lerp(start, stop, amount). */
  function Lerp(start: real, stop: real, amount: real): (r: real)
    ensures amount == 0.0 ==> r == start
    ensures amount == 1.0 ==> r == stop
  {
    amount * (stop - start) + start
  }

  /**
   * The `difference` of lerpAngle: the signed turn from `start` to `end`,
   * folded by one full turn when it exceeds a half turn either way.
   */
  function ShortestTurn(start: real, end: real): (d: real)
    ensures d == end - start || d == end - start - TWO_PI || d == end - start + TWO_PI
    ensures -3.0 * PI <= end - start <= 3.0 * PI ==> -PI <= d <= PI
    ensures -PI <= end - start <= PI ==> d == end - start
  {
    var difference := end - start;
    if difference > PI then difference - TWO_PI
    else if difference < -PI then difference + TWO_PI
    else difference
  }

  /** lerpAngle: ease `start` toward `end` by `amount` along the shortest turn. */
  function LerpAngle(start: real, end: real, amount: real): (r: real)
    ensures amount == 0.0 ==> r == start
    ensures amount == 1.0 ==> (r == end || r == end - TWO_PI || r == end + TWO_PI)
  {
    start + ShortestTurn(start, end) * amount
  }

  /**
   * The transcendental functions and the square root the sketch calls
   * (p.atan2, p.cos, p.sin, p.dist), taken as given functions.
   */
  datatype Geometry = Geometry(
    atan2: (real, real) -> real,
    cos: real -> real,
    sin: real -> real,
    dist: (real, real, real, real) -> real)
}
