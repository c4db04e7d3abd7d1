/**
 * `MathUtils`: clamping, linear interpolation and the critically damped
 * smoothing step the cameras and cards use, in one dimension and written
 * back component by component into three-dimensional vectors.
 */
module MathUtils {

  function Min(a: real, b: real): real {
    if a <= b then a else b
  }

  function Max(a: real, b: real): real {
    if a >= b then a else b
  }

  /**
   * `clamp(value, min, max)`, written as `Math.min(Math.max(value, min), max)`:
   * never above `max`; inside `[min, max]` when that range is not empty, and
   * `value` itself when it is already inside. With `min > max` the answer is
   * `max`.
   */
  function Clamp(value: real, min: real, max: real): (r: real)
    ensures r <= max
    ensures min <= max ==> min <= r
    ensures min <= value <= max ==> r == value
    ensures value <= min <= max ==> r == min
    ensures min <= max <= value ==> r == max
    ensures max < min ==> r == max
  {
    Min(Max(value, min), max)
  }

  /** Clamping twice with the same bounds is clamping once. */
  lemma ClampIdempotent(value: real, min: real, max: real)
    ensures Clamp(Clamp(value, min, max), min, max) == Clamp(value, min, max)
  {
  }

  /**
   * `lerp(a, b, t) = a * (1 - t) + b * t`: `a` at `t = 0`, `b` at `t = 1`,
   * and between the two for `t` in `[0, 1]`.
   */
  function Lerp(a: real, b: real, t: real): (r: real)
    ensures t == 0.0 ==> r == a
    ensures t == 1.0 ==> r == b
    ensures 0.0 <= t <= 1.0 && a <= b ==> a <= r <= b
    ensures 0.0 <= t <= 1.0 && b <= a ==> b <= r <= a
  {
    if 0.0 <= t <= 1.0 then
      LerpBetween(a, b, t);
      a * (1.0 - t) + b * t
    else
      a * (1.0 - t) + b * t
  }

  /** The interpolated value is `a + (b - a) * t`, which lies between the ends. */
  lemma LerpBetween(a: real, b: real, t: real)
    requires 0.0 <= t <= 1.0
    ensures a <= b ==> a <= a * (1.0 - t) + b * t <= b
    ensures b <= a ==> b <= a * (1.0 - t) + b * t <= a
  {
    var r := a * (1.0 - t) + b * t;
    assert r - a == (b - a) * t;
    assert b - r == (b - a) * (1.0 - t);
    if a <= b {
      MulNonNegative(b - a, t);
      MulNonNegative(b - a, 1.0 - t);
    } else {
      MulNonNegative(a - b, t);
      MulNonNegative(a - b, 1.0 - t);
    }
  }

  lemma MulNonNegative(x: real, y: real)
    requires x >= 0.0 && y >= 0.0
    ensures x * y >= 0.0
  {
  }

  /** The new velocity and value of one smoothing step. */
  datatype Smoothed = Smoothed(velocity: real, value: real)

  /** The denominator of `smooth1D`'s cubic damping factor for `t2 = (2 / smoothTime) * dt`. */
  function CubicDenominator(t2: real): real {
    1.0 + t2 + 0.5 * t2 * t2 + 0.25 * t2 * t2 * t2
  }

  /** The damping denominator is at least 1 for a forward step. */
  lemma CubicDenominatorPositive(t2: real)
    requires t2 >= 0.0
    ensures CubicDenominator(t2) >= 1.0
  {
    assert t2 * t2 >= 0.0;
    assert t2 * t2 * t2 >= 0.0;
  }

  /**
   * The error term of `smooth1D`: the offset `current - target` clamped to
   * `[-limit, limit]`, so the step never chases a target further than
   * `limit = smoothMax * smoothTime` away.
   */
  function SmoothError(current: real, target: real, limit: real): (e: real)
    ensures limit >= 0.0 ==> -limit <= e <= limit
    ensures limit >= 0.0 && -limit <= current - target <= limit ==> e == current - target
  {
    Clamp(current - target, -limit, limit)
  }

  /**
   * `smooth1D`. The source divides by `smoothTime` and by the damping
   * denominator; both must be non-zero for the step to be a number.
   */
  function Smooth1D(current: real, target: real, velocity: real, dt: real, smoothTime: real, smoothMax: real): (r: Smoothed)
    requires smoothTime != 0.0
    requires CubicDenominator((2.0 / smoothTime) * dt) != 0.0
    ensures current == target && velocity == 0.0 && smoothMax * smoothTime >= 0.0 ==> r == Smoothed(0.0, current)
  {
    var t := 2.0 / smoothTime;
    var t2 := t * dt;
    var cubic := 1.0 / CubicDenominator(t2);
    var limit := smoothMax * smoothTime;
    var error := SmoothError(current, target, limit);
    var d := (velocity + t * error) * dt;
    Smoothed((velocity - t * d) * cubic, (current - error) + (d + error) * cubic)
  }

  /**
   * At rest (on target, not moving, a forward step of a positive smoothing
   * time with a non-negative speed limit) the step stays put.
   */
  lemma SmoothAtRest(current: real, dt: real, smoothTime: real, smoothMax: real)
    requires smoothTime > 0.0 && dt >= 0.0 && smoothMax >= 0.0
    ensures smoothTime != 0.0 && CubicDenominator((2.0 / smoothTime) * dt) != 0.0
    ensures Smooth1D(current, current, 0.0, dt, smoothTime, smoothMax) == Smoothed(0.0, current)
  {
    assert 2.0 / smoothTime > 0.0;
    CubicDenominatorPositive((2.0 / smoothTime) * dt);
    assert smoothMax * smoothTime >= 0.0;
  }

  /** The mutable `THREE.Vector3` that `smooth3D` writes into. */
  class Vector3 {
    var x: real
    var y: real
    var z: real

    constructor (x0: real, y0: real, z0: real)
      ensures x == x0 && y == y0 && z == z0
    {
      x, y, z := x0, y0, z0;
    }
  }

  /**
   * `smooth3D`: every component is smoothed on its own, all three steps are
   * computed from the old components first, then the velocities and the
   * values are written back in that order. When `current` and `velocity` are
   * the same vector, the values are what remains.
   */
  method Smooth3D(current: Vector3, target: Vector3, velocity: Vector3, dt: real, smoothTime: real, smoothMax: real)
    requires smoothTime != 0.0
    requires CubicDenominator((2.0 / smoothTime) * dt) != 0.0
    modifies current, velocity
    ensures current.x == Smooth1D(old(current.x), old(target.x), old(velocity.x), dt, smoothTime, smoothMax).value
    ensures current.y == Smooth1D(old(current.y), old(target.y), old(velocity.y), dt, smoothTime, smoothMax).value
    ensures current.z == Smooth1D(old(current.z), old(target.z), old(velocity.z), dt, smoothTime, smoothMax).value
    ensures velocity != current ==>
      && velocity.x == Smooth1D(old(current.x), old(target.x), old(velocity.x), dt, smoothTime, smoothMax).velocity
      && velocity.y == Smooth1D(old(current.y), old(target.y), old(velocity.y), dt, smoothTime, smoothMax).velocity
      && velocity.z == Smooth1D(old(current.z), old(target.z), old(velocity.z), dt, smoothTime, smoothMax).velocity
    ensures target != current && target != velocity ==> unchanged(target)
  {
    var sx := Smooth1D(current.x, target.x, velocity.x, dt, smoothTime, smoothMax);
    var sy := Smooth1D(current.y, target.y, velocity.y, dt, smoothTime, smoothMax);
    var sz := Smooth1D(current.z, target.z, velocity.z, dt, smoothTime, smoothMax);
    velocity.x := sx.velocity;
    velocity.y := sy.velocity;
    velocity.z := sz.velocity;
    current.x := sx.value;
    current.y := sy.value;
    current.z := sz.value;
  }
}
