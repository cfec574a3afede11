/**
 * The Motion component of the discrete physics system: a velocity and an
 * acceleration in 3D. `update(dt)` advances the velocity at constant
 * acceleration and returns the displacement over that step.
 */
module MotionComponent {
  import opened Geometry

  /** The displacement `dt·v + ½·dt²·a` along one axis over a step of constant acceleration. */
  function ShiftAxis(v: real, a: real, dt: real): real
  {
    dt * v + 0.5 * dt * dt * a
  }

  /** The velocity `v + dt·a` along one axis at the end of that step. */
  function AcceleratedAxis(v: real, a: real, dt: real): real
  {
    v + dt * a
  }

  function Shift(v: Vec3, a: Vec3, dt: real): Vec3
  {
    Vec3(ShiftAxis(v.x, a.x, dt), ShiftAxis(v.y, a.y, dt), ShiftAxis(v.z, a.z, dt))
  }

  function Accelerated(v: Vec3, a: Vec3, dt: real): Vec3
  {
    Vec3(AcceleratedAxis(v.x, a.x, dt), AcceleratedAxis(v.y, a.y, dt), AcceleratedAxis(v.z, a.z, dt))
  }

  /** Without acceleration the velocity stays and the body drifts by dt·v. */
  lemma Unaccelerated(v: Vec3, dt: real)
    ensures Shift(v, Zero3, dt) == Scale3(dt, v)
    ensures Accelerated(v, Zero3, dt) == v
  {
  }

  /** A step of length zero moves nothing and changes nothing. */
  lemma StepZero(v: Vec3, a: Vec3)
    ensures Shift(v, a, 0.0) == Zero3
    ensures Accelerated(v, a, 0.0) == v
  {
  }

  /** One coordinate of `StepsCompose`. */
  lemma StepsComposeAxis(v: real, a: real, d1: real, d2: real)
    ensures ShiftAxis(v, a, d1) + ShiftAxis(AcceleratedAxis(v, a, d1), a, d2) == ShiftAxis(v, a, d1 + d2)
    ensures AcceleratedAxis(AcceleratedAxis(v, a, d1), a, d2) == AcceleratedAxis(v, a, d1 + d2)
  {
    calc {
      ShiftAxis(v, a, d1) + ShiftAxis(AcceleratedAxis(v, a, d1), a, d2);
      d1 * v + 0.5 * d1 * d1 * a + (d2 * (v + d1 * a) + 0.5 * d2 * d2 * a);
      (d1 + d2) * v + 0.5 * (d1 * d1 + 2.0 * d1 * d2 + d2 * d2) * a;
      (d1 + d2) * v + 0.5 * (d1 + d2) * (d1 + d2) * a;
    }
  }

  /**
   * Two steps of d1 and d2 move the body as far, and leave it as fast, as
   * one step of d1 + d2: constant-acceleration motion has no step-size error.
   */
  lemma StepsCompose(v: Vec3, a: Vec3, d1: real, d2: real)
    ensures Add3(Shift(v, a, d1), Shift(Accelerated(v, a, d1), a, d2)) == Shift(v, a, d1 + d2)
    ensures Accelerated(Accelerated(v, a, d1), a, d2) == Accelerated(v, a, d1 + d2)
  {
    StepsComposeAxis(v.x, a.x, d1, d2);
    StepsComposeAxis(v.y, a.y, d1, d2);
    StepsComposeAxis(v.z, a.z, d1, d2);
  }

  class Motion {
    var velocity: Vec3
    var acceleration: Vec3

    /** `Motion(vec3 v, vec3 a)`; the source's default acceleration is zero. */
    constructor (v: Vec3, a: Vec3)
      ensures velocity == v && acceleration == a
    {
      velocity, acceleration := v, a;
    }

    /** `Motion(vec2 v, vec2 a)`: both vectors are lifted into the plane z = 0. */
    constructor Planar(v: Vec2, a: Vec2)
      ensures velocity == Lift(v) && acceleration == Lift(a)
      ensures velocity.z == 0.0 && acceleration.z == 0.0
    {
      velocity, acceleration := Lift(v), Lift(a);
    }

    /**
     * `update(dt)`: returns the displacement over the step and leaves the
     * velocity at the step's end; the acceleration is constant.
     */
    method Update(dt: real) returns (shift: Vec3)
      modifies this
      ensures shift == Shift(old(velocity), acceleration, dt)
      ensures velocity == Accelerated(old(velocity), acceleration, dt)
      ensures acceleration == old(acceleration)
    {
      shift := Shift(velocity, acceleration, dt);
      velocity := Accelerated(velocity, acceleration, dt);
    }
  }
}
