/**
 * Small vector algebra over `real` standing in for the glm vectors the
 * source uses, plus the two library functions whose result is irrational:
 * `sqrtf` is passed around as a function value `sqrt` and every lemma that
 * needs its defining property asks for `IsSqrt(sqrt)`.
 */
module Geometry {

  datatype Vec2 = Vec2(x: real, y: real)
  datatype Vec3 = Vec3(x: real, y: real, z: real)
  datatype Vec4 = Vec4(x: real, y: real, z: real, w: real)

  const Zero2 := Vec2(0.0, 0.0)
  const Zero3 := Vec3(0.0, 0.0, 0.0)

  function Add(a: Vec2, b: Vec2): Vec2 { Vec2(a.x + b.x, a.y + b.y) }
  function Sub(a: Vec2, b: Vec2): Vec2 { Vec2(a.x - b.x, a.y - b.y) }
  function Neg(a: Vec2): Vec2 { Vec2(-a.x, -a.y) }
  function Scale(k: real, a: Vec2): Vec2 { Vec2(k * a.x, k * a.y) }
  /** Componentwise product, glm's `vec2 * vec2`. */
  function Mul(a: Vec2, b: Vec2): Vec2 { Vec2(a.x * b.x, a.y * b.y) }
  function Dot(a: Vec2, b: Vec2): real { a.x * b.x + a.y * b.y }

  function Add3(a: Vec3, b: Vec3): Vec3 { Vec3(a.x + b.x, a.y + b.y, a.z + b.z) }
  function Sub3(a: Vec3, b: Vec3): Vec3 { Vec3(a.x - b.x, a.y - b.y, a.z - b.z) }
  function Scale3(k: real, a: Vec3): Vec3 { Vec3(k * a.x, k * a.y, k * a.z) }
  function Dot3(a: Vec3, b: Vec3): real { a.x * b.x + a.y * b.y + a.z * b.z }
  /** glm's `vec3(v, 0)`. */
  function Lift(v: Vec2): Vec3 { Vec3(v.x, v.y, 0.0) }

  /** glm::sign: -1, 0 or 1. */
  function Sign(r: real): (s: real)
    ensures s == -1.0 || s == 0.0 || s == 1.0
    ensures (s > 0.0 <==> r > 0.0) && (s < 0.0 <==> r < 0.0)
  {
    if r > 0.0 then 1.0 else if r < 0.0 then -1.0 else 0.0
  }

  function Abs(r: real): (a: real)
    ensures a >= 0.0 && (a == r || a == -r)
  {
    if r < 0.0 then -r else r
  }

  /** std::min(a, b), which is `(b < a) ? b : a`. */
  function Min(a: real, b: real): (m: real)
    ensures m <= a && m <= b && (m == a || m == b)
  {
    if b < a then b else a
  }

  /** std::max(a, b), which is `(a < b) ? b : a`. */
  function Max(a: real, b: real): (m: real)
    ensures m >= a && m >= b && (m == a || m == b)
  {
    if a < b then b else a
  }

  /** `sqrt` behaves as sqrtf on every argument where sqrtf is a real number. */
  ghost predicate IsSqrt(sqrt: real -> real)
  {
    forall x :: 0.0 <= x ==> 0.0 <= sqrt(x) && sqrt(x) * sqrt(x) == x
  }

  /**
   * glm::normalize, `v * inversesqrt(dot(v, v))`. The zero vector, for which
   * glm produces NaN, is returned unchanged.
   */
  function Normalize(sqrt: real -> real, v: Vec2): Vec2
  {
    var len := sqrt(Dot(v, v));
    if len == 0.0 then v else Scale(1.0 / len, v)
  }

  lemma NormalizeIsUnit(sqrt: real -> real, v: Vec2)
    requires IsSqrt(sqrt)
    requires v != Zero2
    ensures Dot(Normalize(sqrt, v), Normalize(sqrt, v)) == 1.0
  {
    var d := Dot(v, v);
    DotSelfPos(v);
    var len := sqrt(d);
    assert len * len == d;
    assert len != 0.0;
    var k := 1.0 / len;
    assert k * len == 1.0;
    calc {
      Dot(Scale(k, v), Scale(k, v));
      (k * v.x) * (k * v.x) + (k * v.y) * (k * v.y);
      (k * k) * d;
      (k * k) * (len * len);
      (k * len) * (k * len);
      1.0;
    }
  }

  lemma DotSelfNonNeg(v: Vec2)
    ensures Dot(v, v) >= 0.0
  {
    calc {
      Dot(v, v);
    ==
      v.x * v.x + v.y * v.y;
    >= { if v.y < 0.0 { assert v.y * v.y == (-v.y) * (-v.y); } }
      v.x * v.x;
    >= { if v.x < 0.0 { assert v.x * v.x == (-v.x) * (-v.x); } }
      0.0;
    }
  }

  lemma DotSelfPos(v: Vec2)
    requires v != Zero2
    ensures Dot(v, v) > 0.0
  {
    if v.x != 0.0 {
      calc {
        Dot(v, v);
      ==
        v.x * v.x + v.y * v.y;
      >= { if v.y < 0.0 { assert v.y * v.y == (-v.y) * (-v.y); } }
        v.x * v.x;
      > { if v.x < 0.0 { assert v.x * v.x == (-v.x) * (-v.x); } }
        0.0;
      }
    } else {
      calc {
        Dot(v, v);
      ==
        v.y * v.y;
      > { if v.y < 0.0 { assert v.y * v.y == (-v.y) * (-v.y); } }
        0.0;
      }
    }
  }

  /** Only the zero vector has zero length, and it is orthogonal to everything. */
  lemma DotSelfZero(v: Vec2, w: Vec2)
    requires Dot(v, v) == 0.0
    ensures v == Zero2 && Dot(w, v) == 0.0
  {
    if v != Zero2 { DotSelfPos(v); }
  }

  /** Normalizing the negated vector negates the result. */
  lemma NormalizeNeg(sqrt: real -> real, v: Vec2)
    ensures Normalize(sqrt, Neg(v)) == Neg(Normalize(sqrt, v))
  {
    assert Dot(Neg(v), Neg(v)) == Dot(v, v);
  }
}
