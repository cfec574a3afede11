/**
 * The two velocity responses `resolve_hit` applies at a collision: the 1D
 * elastic-collision formula, applied componentwise, when both bodies move,
 * and the mirror reflection `v - 2 (n . v) n` when the second body is static.
 */
module Response {
  import opened Geometry

  /**
   * `mi = 1 / (m1 + m2)`. A zero total mass divides by zero in the source
   * (an infinite or NaN factor); the model uses 0 then.
   */
  function InverseMass(m1: real, m2: real): (mi: real)
    ensures m1 + m2 != 0.0 ==> mi * (m1 + m2) == 1.0
  {
    if m1 + m2 == 0.0 then 0.0 else 1.0 / (m1 + m2)
  }

  /**
   * One axis of the elastic response: the new speeds of two bodies of mass
   * m1 and m2 moving with speeds a and b along that axis.
   */
  function ElasticAxis(m1: real, m2: real, a: real, b: real): (real, real)
  {
    var mi := InverseMass(m1, m2);
    ((m1 - m2) * mi * a + 2.0 * m2 * mi * b, 2.0 * m1 * mi * a + (m2 - m1) * mi * b)
  }

  /** The new velocities of an elastic collision, computed axis by axis as glm does. */
  function Elastic(m1: real, m2: real, v1: Vec2, v2: Vec2): (Vec2, Vec2)
  {
    var ex, ey := ElasticAxis(m1, m2, v1.x, v2.x), ElasticAxis(m1, m2, v1.y, v2.y);
    (Vec2(ex.0, ey.0), Vec2(ex.1, ey.1))
  }

  /** Total momentum m1 v1 + m2 v2. */
  function Momentum(m1: real, m2: real, v1: Vec2, v2: Vec2): Vec2
  {
    Add(Scale(m1, v1), Scale(m2, v2))
  }

  /** Kinetic energy along one axis, doubled. */
  function AxisEnergy(m1: real, m2: real, a: real, b: real): real
  {
    m1 * (a * a) + m2 * (b * b)
  }

  /** Total kinetic energy, doubled: m1 |v1|^2 + m2 |v2|^2. */
  function Energy(m1: real, m2: real, v1: Vec2, v2: Vec2): (e: real)
    ensures e == AxisEnergy(m1, m2, v1.x, v2.x) + AxisEnergy(m1, m2, v1.y, v2.y)
  {
    m1 * Dot(v1, v1) + m2 * Dot(v2, v2)
  }

  /**
   * With masses that are not negative the energy is not negative; with
   * positive masses it is zero exactly when both bodies are at rest.
   */
  lemma EnergySign(m1: real, m2: real, v1: Vec2, v2: Vec2)
    ensures m1 >= 0.0 && m2 >= 0.0 ==> Energy(m1, m2, v1, v2) >= 0.0
    ensures m1 > 0.0 && m2 > 0.0 ==> (Energy(m1, m2, v1, v2) == 0.0 <==> v1 == Zero2 && v2 == Zero2)
  {
    var d1, d2 := Dot(v1, v1), Dot(v2, v2);
    DotSelfNonNeg(v1);
    DotSelfNonNeg(v2);
    WeightedSum(m1, m2, d1, d2);
    assert Energy(m1, m2, v1, v2) == m1 * d1 + m2 * d2;
    if m1 > 0.0 && m2 > 0.0 {
      if Energy(m1, m2, v1, v2) == 0.0 {
        DotSelfZero(v1, v1);
        DotSelfZero(v2, v2);
      }
      if v1 == Zero2 && v2 == Zero2 {
        assert d1 == 0.0 && d2 == 0.0;
      }
    }
  }

  /** A sum of non-negative values weighted by non-negative masses. */
  lemma WeightedSum(m1: real, m2: real, d1: real, d2: real)
    requires d1 >= 0.0 && d2 >= 0.0
    ensures m1 >= 0.0 && m2 >= 0.0 ==> m1 * d1 + m2 * d2 >= 0.0
    ensures m1 > 0.0 && m2 > 0.0 ==> (m1 * d1 + m2 * d2 == 0.0 <==> d1 == 0.0 && d2 == 0.0)
  {
    if m1 >= 0.0 && m2 >= 0.0 {
      assert m1 * d1 >= 0.0 && m2 * d2 >= 0.0;
    }
    if m1 > 0.0 && m2 > 0.0 {
      if d1 > 0.0 { assert m1 * d1 > 0.0; }
      if d2 > 0.0 { assert m2 * d2 > 0.0; }
    }
  }

  /** Along one axis the elastic response conserves momentum and kinetic energy. */
  lemma ElasticAxisConserves(m1: real, m2: real, a: real, b: real)
    requires m1 + m2 != 0.0
    ensures var (a', b') := ElasticAxis(m1, m2, a, b);
      m1 * a' + m2 * b' == m1 * a + m2 * b
      && AxisEnergy(m1, m2, a', b') == AxisEnergy(m1, m2, a, b)
  {
    var mi := InverseMass(m1, m2);
    var u, w := (m1 - m2) * a + 2.0 * m2 * b, 2.0 * m1 * a + (m2 - m1) * b;
    assert m1 * (u * u) + m2 * (w * w) == (m1 + m2) * (m1 + m2) * AxisEnergy(m1, m2, a, b);
    calc {
      AxisEnergy(m1, m2, mi * u, mi * w);
      m1 * ((mi * u) * (mi * u)) + m2 * ((mi * w) * (mi * w));
      (mi * mi) * (m1 * (u * u) + m2 * (w * w));
      (mi * mi) * ((m1 + m2) * (m1 + m2) * AxisEnergy(m1, m2, a, b));
      (mi * (m1 + m2)) * ((mi * (m1 + m2)) * AxisEnergy(m1, m2, a, b));
      { assert mi * (m1 + m2) == 1.0; }
      1.0 * (1.0 * AxisEnergy(m1, m2, a, b));
    }
    calc {
      m1 * (mi * u) + m2 * (mi * w);
      (mi * (m1 + m2)) * (m1 * a + m2 * b);
      m1 * a + m2 * b;
    }
  }

  /** The elastic response conserves total momentum and total kinetic energy. */
  lemma ElasticConserves(m1: real, m2: real, v1: Vec2, v2: Vec2)
    requires m1 + m2 != 0.0
    ensures var (w1, w2) := Elastic(m1, m2, v1, v2);
      Momentum(m1, m2, w1, w2) == Momentum(m1, m2, v1, v2)
      && Energy(m1, m2, w1, w2) == Energy(m1, m2, v1, v2)
  {
    ElasticAxisConserves(m1, m2, v1.x, v2.x);
    ElasticAxisConserves(m1, m2, v1.y, v2.y);
  }

  /** Equal (non-zero) masses exchange their speeds along an axis. */
  lemma ElasticAxisEqualMasses(m: real, a: real, b: real)
    requires m != 0.0
    ensures ElasticAxis(m, m, a, b) == (b, a)
  {
    var mi := InverseMass(m, m);
    assert mi * (m + m) == 1.0;
    calc {
      ElasticAxis(m, m, a, b).0;
      (m - m) * mi * a + 2.0 * m * mi * b;
      (mi * (m + m)) * b;
      b;
    }
    calc {
      ElasticAxis(m, m, a, b).1;
      2.0 * m * mi * a + (m - m) * mi * b;
      (mi * (m + m)) * a;
      a;
    }
  }

  /** Equal (non-zero) masses exchange their velocities. */
  lemma ElasticEqualMassesSwap(m: real, v1: Vec2, v2: Vec2)
    requires m != 0.0
    ensures Elastic(m, m, v1, v2) == (v2, v1)
  {
    ElasticAxisEqualMasses(m, v1.x, v2.x);
    ElasticAxisEqualMasses(m, v1.y, v2.y);
  }

  /** The reflection `v - 2 (n . v) n`. */
  function Reflect(n: Vec2, v: Vec2): Vec2
  {
    Sub(v, Scale(2.0 * Dot(n, v), n))
  }

  /** The direction perpendicular to n, (n.y, -n.x). */
  function Perp(n: Vec2): Vec2 { Vec2(n.y, -n.x) }

  /**
   * For a unit normal the reflection negates the normal component, keeps
   * the tangential one, preserves the length and undoes itself.
   */
  lemma ReflectIsMirror(n: Vec2, v: Vec2)
    requires Dot(n, n) == 1.0
    ensures Dot(n, Reflect(n, v)) == -Dot(n, v)
    ensures Dot(Perp(n), Reflect(n, v)) == Dot(Perp(n), v)
    ensures Dot(Reflect(n, v), Reflect(n, v)) == Dot(v, v)
    ensures Reflect(n, Reflect(n, v)) == v
  {
    var d := Dot(n, v);
    var r := Reflect(n, v);
    calc {
      Dot(n, r);
      n.x * (v.x - 2.0 * d * n.x) + n.y * (v.y - 2.0 * d * n.y);
      d - 2.0 * d * (n.x * n.x + n.y * n.y);
      d - 2.0 * d * Dot(n, n);
      -d;
    }
    calc {
      Dot(Perp(n), r);
      n.y * (v.x - 2.0 * d * n.x) - n.x * (v.y - 2.0 * d * n.y);
      Dot(Perp(n), v);
    }
    calc {
      Dot(r, r);
      (v.x - 2.0 * d * n.x) * (v.x - 2.0 * d * n.x) + (v.y - 2.0 * d * n.y) * (v.y - 2.0 * d * n.y);
      Dot(v, v) - 4.0 * d * (v.x * n.x + v.y * n.y) + 4.0 * d * d * (n.x * n.x + n.y * n.y);
      Dot(v, v) - 4.0 * d * d + 4.0 * d * d * Dot(n, n);
      Dot(v, v);
    }
    calc {
      Reflect(n, r);
      Sub(r, Scale(2.0 * Dot(n, r), n));
      Sub(r, Scale(-2.0 * d, n));
      v;
    }
  }

  /** A zero normal leaves the velocity unchanged. */
  lemma ReflectZeroNormal(v: Vec2)
    ensures Reflect(Zero2, v) == v
  {
  }
}
