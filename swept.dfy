/**
 * The closed-form swept solvers of PhysicsEngine2D: for two shapes moving
 * with constant velocities they compute the first time of contact by
 * solving a quadratic in t. Where the source's float arithmetic produces
 * NaN (a zero leading coefficient, or the square root of a negative
 * discriminant) every comparison fails, so those cases are "no contact".
 */
module Swept {
  import opened Geometry
  import opened Wrappers
  import opened Physics2DComponents

  /** The part of HitData a solver fills in when it finds a contact. */
  datatype Contact = Contact(time: real, normal: Vec2)

  /** a t^2 + b t + c. */
  function Quad(a: real, b: real, c: real, t: real): real
  {
    a * t * t + b * t + c
  }

  /**
   * The two roots `(-b -/+ sqrt(b^2 - 4ac)) / 2a`, in the order the source
   * computes them; None where the source computes NaN.
   */
  function EntryExit(sqrt: real -> real, a: real, b: real, c: real): Option<(real, real)>
  {
    var disc := b * b - 4.0 * a * c;
    if a == 0.0 || disc < 0.0 then None
    else Some(((-b - sqrt(disc)) / (2.0 * a), (-b + sqrt(disc)) / (2.0 * a)))
  }

  lemma QuadFactor(a: real, b: real, c: real, r: real, s: real)
    requires a != 0.0 && r * r == b * b - 4.0 * a * c
    ensures Quad(a, b, c, s) == a * (s - (-b - r) / (2.0 * a)) * (s - (-b + r) / (2.0 * a))
  {
    var u := 2.0 * a;
    var lo, hi := (-b - r) / u, (-b + r) / u;
    assert u * lo == -b - r;
    assert u * hi == -b + r;
    var A, B := s - lo, s - hi;
    assert u * A == u * s + b + r;
    assert u * B == u * s + b - r;
    calc {
      (u * A) * (u * B);
      (u * s + b + r) * (u * s + b - r);
      (u * s + b) * (u * s + b) - r * r;
      u * u * s * s + 2.0 * u * s * b + b * b - r * r;
      u * u * s * s + 2.0 * u * s * b + 4.0 * a * c;
      2.0 * u * (a * s * s + b * s + c);
    }
    assert u * u * (A * B) == 2.0 * u * Quad(a, b, c, s);
    assert u * (A * B) == 2.0 * Quad(a, b, c, s);
    assert a * (A * B) == Quad(a, b, c, s);
  }

  /** Completing the square: 4a q(s) = (2as + b)^2 - (b^2 - 4ac). */
  lemma QuadSquare(a: real, b: real, c: real, s: real)
    ensures 4.0 * a * Quad(a, b, c, s)
         == (2.0 * a * s + b) * (2.0 * a * s + b) - (b * b - 4.0 * a * c)
  {
  }

  lemma RootsOrdered(a: real, b: real, r: real)
    requires a > 0.0 && r >= 0.0
    ensures (-b - r) / (2.0 * a) <= (-b + r) / (2.0 * a)
  {
    var u := 2.0 * a;
    assert (-b + r) / u - (-b - r) / u == (2.0 * r) / u;
    assert (2.0 * r) / u >= 0.0;
  }

  lemma ProductPos(x: real, y: real)
    requires (x < 0.0 && y < 0.0) || (x > 0.0 && y > 0.0)
    ensures x * y > 0.0
  {
    if x < 0.0 {
      assert x * y == (-x) * (-y);
      assert (-x) * (-y) > 0.0;
    }
  }

  lemma ProductNonPos(x: real, y: real)
    requires x >= 0.0 && y <= 0.0
    ensures x * y <= 0.0
  {
    assert x * (-y) >= 0.0;
    assert x * y == -(x * (-y));
  }

  lemma SquareNonNeg(x: real)
    ensures x * x >= 0.0
  {
    if x < 0.0 { ProductPos(x, x); }
  }

  /** With a > 0 the quadratic is positive outside [lo, hi], zero at lo and non-positive inside. */
  lemma QuadSigns(a: real, b: real, c: real, r: real, s: real)
    requires a > 0.0 && r >= 0.0 && r * r == b * b - 4.0 * a * c
    ensures var lo, hi := (-b - r) / (2.0 * a), (-b + r) / (2.0 * a);
      && lo <= hi
      && Quad(a, b, c, lo) == 0.0 && Quad(a, b, c, hi) == 0.0
      && (s < lo || hi < s ==> Quad(a, b, c, s) > 0.0)
      && (lo <= s <= hi ==> Quad(a, b, c, s) <= 0.0)
  {
    var lo, hi := (-b - r) / (2.0 * a), (-b + r) / (2.0 * a);
    RootsOrdered(a, b, r);
    QuadFactor(a, b, c, r, s);
    QuadFactor(a, b, c, r, lo);
    QuadFactor(a, b, c, r, hi);
    var A, B := s - lo, s - hi;
    assert Quad(a, b, c, lo) == a * (lo - lo) * (lo - hi);
    assert Quad(a, b, c, hi) == a * (hi - lo) * (hi - hi);
    if s < lo || hi < s {
      ProductPos(A, B);
      calc {
        Quad(a, b, c, s);
        a * A * B;
        a * (A * B);
      > { ProductPos(a, A * B); }
        0.0;
      }
    }
    if lo <= s <= hi {
      ProductNonPos(A, B);
      calc {
        Quad(a, b, c, s);
        a * A * B;
        a * (A * B);
      <= { ProductNonPos(a, A * B); }
        0.0;
      }
    }
  }

  /** When EntryExit reports, its two values are the ordered roots of the quadratic. */
  lemma EntryExitRoots(sqrt: real -> real, a: real, b: real, c: real, s: real)
    requires IsSqrt(sqrt) && a > 0.0
    requires EntryExit(sqrt, a, b, c).Some?
    ensures var (lo, hi) := EntryExit(sqrt, a, b, c).value;
      && lo <= hi
      && Quad(a, b, c, lo) == 0.0 && Quad(a, b, c, hi) == 0.0
      && (s < lo || hi < s ==> Quad(a, b, c, s) > 0.0)
      && (lo <= s <= hi ==> Quad(a, b, c, s) <= 0.0)
  {
    var disc := b * b - 4.0 * a * c;
    QuadSigns(a, b, c, sqrt(disc), s);
  }

  /** EntryExit fails only when there is no real root (or no quadratic). */
  lemma EntryExitComplete(sqrt: real -> real, a: real, b: real, c: real, s: real)
    requires a > 0.0 && Quad(a, b, c, s) <= 0.0
    ensures EntryExit(sqrt, a, b, c).Some?
  {
    QuadSquare(a, b, c, s);
    SquareNonNeg(2.0 * a * s + b);
    if b * b - 4.0 * a * c < 0.0 {
      ProductNonPos(4.0 * a, Quad(a, b, c, s));
      assert false;
    }
  }

  /**
   * A quadratic that is positive at 0 and not positive at some s >= 0 has
   * its entry root in [0, s].
   */
  lemma EntryBetween(sqrt: real -> real, a: real, b: real, c: real, s: real)
    requires IsSqrt(sqrt) && a > 0.0 && c > 0.0 && 0.0 <= s
    requires Quad(a, b, c, s) <= 0.0
    ensures EntryExit(sqrt, a, b, c).Some?
    ensures 0.0 <= EntryExit(sqrt, a, b, c).value.0 <= s
  {
    EntryExitComplete(sqrt, a, b, c, s);
    EntryExitRoots(sqrt, a, b, c, s);
    EntryExitRoots(sqrt, a, b, c, 0.0);
    assert Quad(a, b, c, 0.0) == c;
  }

  /** Relative position of body 2 seen from body 1 at time s. */
  function Gap(p1: Vec2, v1: Vec2, p2: Vec2, v2: Vec2, s: real): Vec2
  {
    Add(Sub(p2, p1), Scale(s, Sub(v2, v1)))
  }

  /** The circle quadratic is |gap(s)|^2 - rr, where rr is the squared contact distance. */
  lemma GapQuad(p1: Vec2, v1: Vec2, p2: Vec2, v2: Vec2, rr: real, s: real)
    ensures var dv, dp := Sub(v2, v1), Sub(p2, p1);
      Quad(Dot(dv, dv), 2.0 * Dot(dp, dv), Dot(dp, dp) - rr, s)
      == Dot(Gap(p1, v1, p2, v2, s), Gap(p1, v1, p2, v2, s)) - rr
  {
    var dv, dp := Sub(v2, v1), Sub(p2, p1);
    var g := Gap(p1, v1, p2, v2, s);
    calc {
      Dot(g, g);
      (dp.x + s * dv.x) * (dp.x + s * dv.x) + (dp.y + s * dv.y) * (dp.y + s * dv.y);
      (dv.x * dv.x + dv.y * dv.y) * s * s + 2.0 * (dp.x * dv.x + dp.y * dv.y) * s
        + (dp.x * dp.x + dp.y * dp.y);
      Dot(dv, dv) * s * s + 2.0 * Dot(dp, dv) * s + Dot(dp, dp);
    }
  }

  /** Bodies with equal velocities keep their initial gap. */
  lemma GapStill(p1: Vec2, v1: Vec2, p2: Vec2, v2: Vec2, s: real)
    requires Sub(v2, v1) == Zero2
    ensures Gap(p1, v1, p2, v2, s) == Sub(p2, p1)
  {
    calc {
      Scale(s, Sub(v2, v1));
      Scale(s, Zero2);
      Vec2(s * 0.0, s * 0.0);
      Zero2;
    }
  }

  // ---------------------------------------------------------------- circle–circle

  /**
   * Circle–circle: the smaller root of |gap(t)| = r1 + r2, reported only if
   * it is not negative; the normal is the normalized gap at that time.
   */
  function CircleCircle(sqrt: real -> real, p1: Vec2, v1: Vec2, r1: real,
                        p2: Vec2, v2: Vec2, r2: real): Option<Contact>
  {
    var dv, dp := Sub(v2, v1), Sub(p2, p1);
    match EntryExit(sqrt, Dot(dv, dv), 2.0 * Dot(dp, dv), Dot(dp, dp) - (r1 + r2) * (r1 + r2))
    case None => None
    case Some((t1, _)) =>
      if t1 >= 0.0 then Some(Contact(t1, Normalize(sqrt, Gap(p1, v1, p2, v2, t1)))) else None
  }

  /**
   * A reported circle–circle contact happens at a non-negative time when the
   * circles touch (|gap| = r1 + r2), and the circles are apart at every
   * earlier time from 0 on.
   */
  lemma CircleCircleContact(sqrt: real -> real, p1: Vec2, v1: Vec2, r1: real,
                            p2: Vec2, v2: Vec2, r2: real, s: real)
    requires IsSqrt(sqrt)
    requires CircleCircle(sqrt, p1, v1, r1, p2, v2, r2).Some?
    ensures var c := CircleCircle(sqrt, p1, v1, r1, p2, v2, r2).value;
      && c.time >= 0.0
      && Dot(Gap(p1, v1, p2, v2, c.time), Gap(p1, v1, p2, v2, c.time)) == (r1 + r2) * (r1 + r2)
      && c.normal == Normalize(sqrt, Gap(p1, v1, p2, v2, c.time))
      && (0.0 <= s < c.time ==>
            Dot(Gap(p1, v1, p2, v2, s), Gap(p1, v1, p2, v2, s)) > (r1 + r2) * (r1 + r2))
  {
    var dv, dp := Sub(v2, v1), Sub(p2, p1);
    var a, b, c := Dot(dv, dv), 2.0 * Dot(dp, dv), Dot(dp, dp) - (r1 + r2) * (r1 + r2);
    var t := CircleCircle(sqrt, p1, v1, r1, p2, v2, r2).value.time;
    DotSelfNonNeg(dv);
    EntryExitRoots(sqrt, a, b, c, s);
    GapQuad(p1, v1, p2, v2, (r1 + r2) * (r1 + r2), t);
    GapQuad(p1, v1, p2, v2, (r1 + r2) * (r1 + r2), s);
  }

  /** Circles that already overlap at time 0 never report a contact. */
  lemma CircleCircleOverlapping(sqrt: real -> real, p1: Vec2, v1: Vec2, r1: real,
                                p2: Vec2, v2: Vec2, r2: real)
    requires IsSqrt(sqrt)
    requires Dot(Sub(p2, p1), Sub(p2, p1)) < (r1 + r2) * (r1 + r2)
    ensures CircleCircle(sqrt, p1, v1, r1, p2, v2, r2) == None
  {
    var dv, dp := Sub(v2, v1), Sub(p2, p1);
    var a, b, c := Dot(dv, dv), 2.0 * Dot(dp, dv), Dot(dp, dp) - (r1 + r2) * (r1 + r2);
    if EntryExit(sqrt, a, b, c).Some? {
      DotSelfNonNeg(dv);
      EntryExitRoots(sqrt, a, b, c, 0.0);
      assert Quad(a, b, c, 0.0) == c;
    }
  }

  /**
   * No missed contact: if the circles are apart at time 0 and touch or
   * overlap at some time s >= 0, a contact is reported no later than s.
   */
  lemma CircleCircleComplete(sqrt: real -> real, p1: Vec2, v1: Vec2, r1: real,
                             p2: Vec2, v2: Vec2, r2: real, s: real)
    requires IsSqrt(sqrt)
    requires Dot(Sub(p2, p1), Sub(p2, p1)) > (r1 + r2) * (r1 + r2)
    requires 0.0 <= s
    requires Dot(Gap(p1, v1, p2, v2, s), Gap(p1, v1, p2, v2, s)) <= (r1 + r2) * (r1 + r2)
    ensures CircleCircle(sqrt, p1, v1, r1, p2, v2, r2).Some?
    ensures CircleCircle(sqrt, p1, v1, r1, p2, v2, r2).value.time <= s
  {
    var dv, dp := Sub(v2, v1), Sub(p2, p1);
    var a, b, c := Dot(dv, dv), 2.0 * Dot(dp, dv), Dot(dp, dp) - (r1 + r2) * (r1 + r2);
    if a == 0.0 {
      DotSelfZero(dv, dp);
      GapStill(p1, v1, p2, v2, s);
      assert false;
    }
    DotSelfNonNeg(dv);
    GapQuad(p1, v1, p2, v2, (r1 + r2) * (r1 + r2), s);
    EntryBetween(sqrt, a, b, c, s);
  }

  /** Seen from the other body, the gap is reversed. */
  lemma GapSwap(p1: Vec2, v1: Vec2, p2: Vec2, v2: Vec2, s: real)
    ensures Gap(p2, v2, p1, v1, s) == Neg(Gap(p1, v1, p2, v2, s))
  {
    assert s * (v1.x - v2.x) == -(s * (v2.x - v1.x));
    assert s * (v1.y - v2.y) == -(s * (v2.y - v1.y));
  }

  /**
   * Swapping the two circles gives the same contact time with the normal
   * reversed.
   */
  lemma CircleCircleSymmetric(sqrt: real -> real, p1: Vec2, v1: Vec2, r1: real,
                              p2: Vec2, v2: Vec2, r2: real)
    ensures var here := CircleCircle(sqrt, p1, v1, r1, p2, v2, r2);
      var there := CircleCircle(sqrt, p2, v2, r2, p1, v1, r1);
      && here.Some? == there.Some?
      && (here.Some? ==> here.value.time == there.value.time
                         && here.value.normal == Neg(there.value.normal))
  {
    var dv, dp := Sub(v2, v1), Sub(p2, p1);
    var dv', dp' := Sub(v1, v2), Sub(p1, p2);
    assert Dot(dv', dv') == Dot(dv, dv);
    assert Dot(dp', dv') == Dot(dp, dv);
    assert Dot(dp', dp') == Dot(dp, dp);
    assert (r2 + r1) * (r2 + r1) == (r1 + r2) * (r1 + r2);
    var here := CircleCircle(sqrt, p1, v1, r1, p2, v2, r2);
    if here.Some? {
      var t := here.value.time;
      GapSwap(p1, v1, p2, v2, t);
      NormalizeNeg(sqrt, Gap(p1, v1, p2, v2, t));
    }
  }

  // ---------------------------------------------------------------- rect–rect

  /** The squared distance along one axis at time s, for offset dp and closing speed dv. */
  function AxisSq(dp: real, dv: real, s: real): real
  {
    (dp + s * dv) * (dp + s * dv)
  }

  /** Coefficients (a, b, c) of one axis of the rectangle test, (dp + t dv)^2 - ww. */
  function AxisPoly(dp: real, dv: real, ww: real): (real, real, real)
  {
    (dv * dv, 2.0 * dp * dv, dp * dp - ww)
  }

  /**
   * Entry and exit times of one axis of the rectangle test: the roots of
   * (dp + t dv)^2 = ww, where ww is the squared half extent.
   */
  function AxisTimes(sqrt: real -> real, dp: real, dv: real, ww: real): Option<(real, real)>
  {
    var k := AxisPoly(dp, dv, ww);
    EntryExit(sqrt, k.0, k.1, k.2)
  }

  lemma AxisPolyFacts(dp: real, dv: real, ww: real, s: real)
    ensures var k := AxisPoly(dp, dv, ww);
      && Quad(k.0, k.1, k.2, s) == AxisSq(dp, dv, s) - ww
      && (dv == 0.0 ==> k.0 == 0.0)
      && (dv != 0.0 ==> k.0 > 0.0)
      && AxisPoly(-dp, -dv, ww) == k
  {
    calc {
      AxisSq(dp, dv, s);
      (dp + s * dv) * (dp + s * dv);
      dv * dv * s * s + 2.0 * dp * dv * s + dp * dp;
    }
    calc {
      AxisPoly(-dp, -dv, ww);
      ((-dv) * (-dv), 2.0 * (-dp) * (-dv), (-dp) * (-dp) - ww);
      (dv * dv, 2.0 * dp * dv, dp * dp - ww);
    }
    if dv > 0.0 {
      calc { AxisPoly(dp, dv, ww).0; dv * dv; > 0.0; }
    } else if dv < 0.0 {
      calc { AxisPoly(dp, dv, ww).0; dv * dv; (-dv) * (-dv); > 0.0; }
    }
  }

  /**
   * Along one axis the boxes overlap exactly between the entry and the exit
   * time, touch at both, and the axis reports only when the relative speed
   * along it is non-zero.
   */
  lemma AxisTimesRoots(sqrt: real -> real, dp: real, dv: real, ww: real, s: real)
    requires IsSqrt(sqrt)
    requires AxisTimes(sqrt, dp, dv, ww).Some?
    ensures dv != 0.0
    ensures var (lo, hi) := AxisTimes(sqrt, dp, dv, ww).value;
      && lo <= hi
      && AxisSq(dp, dv, lo) == ww && AxisSq(dp, dv, hi) == ww
      && (s < lo || hi < s ==> AxisSq(dp, dv, s) > ww)
      && (lo <= s <= hi ==> AxisSq(dp, dv, s) <= ww)
  {
    var k := AxisPoly(dp, dv, ww);
    var (lo, hi) := AxisTimes(sqrt, dp, dv, ww).value;
    AxisPolyFacts(dp, dv, ww, s);
    AxisPolyFacts(dp, dv, ww, lo);
    AxisPolyFacts(dp, dv, ww, hi);
    EntryExitRoots(sqrt, k.0, k.1, k.2, s);
  }

  /** A moving axis whose squared distance is below ww at some time s reports an interval around s. */
  lemma AxisTimesComplete(sqrt: real -> real, dp: real, dv: real, ww: real, s: real)
    requires IsSqrt(sqrt)
    requires dv != 0.0 && AxisSq(dp, dv, s) < ww
    ensures AxisTimes(sqrt, dp, dv, ww).Some?
    ensures AxisTimes(sqrt, dp, dv, ww).value.0 < s < AxisTimes(sqrt, dp, dv, ww).value.1
  {
    var k := AxisPoly(dp, dv, ww);
    AxisPolyFacts(dp, dv, ww, s);
    EntryExitComplete(sqrt, k.0, k.1, k.2, s);
    AxisTimesRoots(sqrt, dp, dv, ww, s);
  }

  /** The half extents of the Minkowski sum of the two rectangles. */
  function HalfExtents(wh1: Vec2, wh2: Vec2): Vec2
  {
    Scale(0.5, Add(wh1, wh2))
  }

  /**
   * Rect–rect: each axis gives an entry/exit interval; the contact is the
   * later entry, if it is not negative and lies before the earlier exit.
   * The normal is the sign of the relative velocity along the entering axis.
   * An axis with no relative motion makes every comparison of the source
   * fail (NaN), so no contact is reported then.
   */
  function RectRect(sqrt: real -> real, p1: Vec2, v1: Vec2, wh1: Vec2,
                    p2: Vec2, v2: Vec2, wh2: Vec2): Option<Contact>
  {
    var dp, dv := Sub(p2, p1), Sub(v2, v1);
    var wh := HalfExtents(wh1, wh2);
    Combine(AxisTimes(sqrt, dp.x, dv.x, Mul(wh, wh).x), AxisTimes(sqrt, dp.y, dv.y, Mul(wh, wh).y), dv)
  }

  /**
   * The decision of the rect–rect solver from the two axis intervals X and Y
   * and the relative velocity dv.
   */
  function Combine(X: Option<(real, real)>, Y: Option<(real, real)>, dv: Vec2): Option<Contact>
  {
    if X.None? || Y.None? then None
    else
      var t1x, t2x, t1y, t2y := X.value.0, X.value.1, Y.value.0, Y.value.1;
      var stop := Min(t2x, t2y);
      if t1x >= t1y && t1x < stop && t1x >= 0.0 then Some(Contact(t1x, Vec2(Sign(dv.x), 0.0)))
      else if t1y >= t1x && t1y < stop && t1y >= 0.0 then Some(Contact(t1y, Vec2(0.0, Sign(dv.y))))
      else None
  }

  /**
   * The decision reports exactly when both axes report and the later entry
   * is non-negative and strictly before the earlier exit; it then reports
   * that entry, with the normal of the axis entered last.
   */
  lemma CombineChoice(X: Option<(real, real)>, Y: Option<(real, real)>, dv: Vec2)
    ensures Combine(X, Y, dv).Some? <==>
      X.Some? && Y.Some? && 0.0 <= Max(X.value.0, Y.value.0) < Min(X.value.1, Y.value.1)
    ensures Combine(X, Y, dv).Some? ==>
      var c := Combine(X, Y, dv).value;
      && c.time == Max(X.value.0, Y.value.0)
      && ((c.normal == Vec2(Sign(dv.x), 0.0) && c.time == X.value.0)
          || (c.normal == Vec2(0.0, Sign(dv.y)) && c.time == Y.value.0))
  {
  }

  /** The two rectangles overlap or touch along both axes at time s. */
  predicate BoxesMeet(p1: Vec2, v1: Vec2, p2: Vec2, v2: Vec2, wh: Vec2, s: real)
  {
    var dp, dv := Sub(p2, p1), Sub(v2, v1);
    AxisSq(dp.x, dv.x, s) <= Mul(wh, wh).x && AxisSq(dp.y, dv.y, s) <= Mul(wh, wh).y
  }

  /**
   * A reported rect–rect contact happens at a non-negative time when the
   * boxes meet and touch along the entering axis, the normal is the unit
   * axis pointing along the relative velocity on that axis, and at every
   * earlier time from 0 on the boxes are apart.
   */
  lemma RectRectContact(sqrt: real -> real, p1: Vec2, v1: Vec2, wh1: Vec2,
                        p2: Vec2, v2: Vec2, wh2: Vec2, s: real)
    requires IsSqrt(sqrt)
    requires RectRect(sqrt, p1, v1, wh1, p2, v2, wh2).Some?
    ensures var c, dp, dv, wh := RectRect(sqrt, p1, v1, wh1, p2, v2, wh2).value,
                                 Sub(p2, p1), Sub(v2, v1), HalfExtents(wh1, wh2);
      && c.time >= 0.0
      && BoxesMeet(p1, v1, p2, v2, wh, c.time)
      && (c.normal == Vec2(Sign(dv.x), 0.0) || c.normal == Vec2(0.0, Sign(dv.y)))
      && (c.normal.x != 0.0 ==> c.normal.x == Sign(dv.x) && AxisSq(dp.x, dv.x, c.time) == Mul(wh, wh).x)
      && (c.normal.y != 0.0 ==> c.normal.y == Sign(dv.y) && AxisSq(dp.y, dv.y, c.time) == Mul(wh, wh).y)
      && Dot(c.normal, c.normal) == 1.0
      && (0.0 <= s < c.time ==> !BoxesMeet(p1, v1, p2, v2, wh, s))
  {
    var dp, dv, wh := Sub(p2, p1), Sub(v2, v1), HalfExtents(wh1, wh2);
    var c := RectRect(sqrt, p1, v1, wh1, p2, v2, wh2).value;
    CombineChoice(AxisTimes(sqrt, dp.x, dv.x, Mul(wh, wh).x), AxisTimes(sqrt, dp.y, dv.y, Mul(wh, wh).y), dv);
    AxisTimesRoots(sqrt, dp.x, dv.x, Mul(wh, wh).x, c.time);
    AxisTimesRoots(sqrt, dp.y, dv.y, Mul(wh, wh).y, c.time);
    AxisTimesRoots(sqrt, dp.x, dv.x, Mul(wh, wh).x, s);
    AxisTimesRoots(sqrt, dp.y, dv.y, Mul(wh, wh).y, s);
  }

  /**
   * No missed contact while both axes move: if the boxes are apart at time
   * 0 and strictly overlap at some s >= 0, a contact is reported no later
   * than s.
   */
  lemma RectRectComplete(sqrt: real -> real, p1: Vec2, v1: Vec2, wh1: Vec2,
                         p2: Vec2, v2: Vec2, wh2: Vec2, s: real)
    requires IsSqrt(sqrt)
    requires Sub(v2, v1).x != 0.0 && Sub(v2, v1).y != 0.0
    requires !BoxesMeet(p1, v1, p2, v2, HalfExtents(wh1, wh2), 0.0)
    requires 0.0 <= s
    requires var dp, dv, wh := Sub(p2, p1), Sub(v2, v1), HalfExtents(wh1, wh2);
      AxisSq(dp.x, dv.x, s) < Mul(wh, wh).x && AxisSq(dp.y, dv.y, s) < Mul(wh, wh).y
    ensures RectRect(sqrt, p1, v1, wh1, p2, v2, wh2).Some?
    ensures RectRect(sqrt, p1, v1, wh1, p2, v2, wh2).value.time <= s
  {
    var dp, dv, wh := Sub(p2, p1), Sub(v2, v1), HalfExtents(wh1, wh2);
    AxisTimesComplete(sqrt, dp.x, dv.x, Mul(wh, wh).x, s);
    AxisTimesComplete(sqrt, dp.y, dv.y, Mul(wh, wh).y, s);
    AxisTimesRoots(sqrt, dp.x, dv.x, Mul(wh, wh).x, 0.0);
    AxisTimesRoots(sqrt, dp.y, dv.y, Mul(wh, wh).y, 0.0);
    CombineChoice(AxisTimes(sqrt, dp.x, dv.x, Mul(wh, wh).x), AxisTimes(sqrt, dp.y, dv.y, Mul(wh, wh).y), dv);
  }

  /**
   * As written, a pair of rectangles without relative motion along one axis
   * never reports a contact, whatever happens along the other axis.
   */
  lemma RectRectStillAxis(sqrt: real -> real, p1: Vec2, v1: Vec2, wh1: Vec2,
                          p2: Vec2, v2: Vec2, wh2: Vec2)
    requires v1.x == v2.x || v1.y == v2.y
    ensures RectRect(sqrt, p1, v1, wh1, p2, v2, wh2) == None
  {
    var dv := Sub(v2, v1);
    var wh := HalfExtents(wh1, wh2);
    AxisPolyFacts(Sub(p2, p1).x, dv.x, Mul(wh, wh).x, 0.0);
    AxisPolyFacts(Sub(p2, p1).y, dv.y, Mul(wh, wh).y, 0.0);
  }

  /** Swapping the two rectangles gives the same contact time with the normal reversed. */
  lemma RectRectSymmetric(sqrt: real -> real, p1: Vec2, v1: Vec2, wh1: Vec2,
                          p2: Vec2, v2: Vec2, wh2: Vec2)
    ensures var here := RectRect(sqrt, p1, v1, wh1, p2, v2, wh2);
      var there := RectRect(sqrt, p2, v2, wh2, p1, v1, wh1);
      && here.Some? == there.Some?
      && (here.Some? ==> here.value.time == there.value.time
                         && here.value.normal == Neg(there.value.normal))
  {
    var dp, dv := Sub(p2, p1), Sub(v2, v1);
    var wh := HalfExtents(wh1, wh2);
    assert HalfExtents(wh2, wh1) == wh;
    AxisPolyFacts(dp.x, dv.x, Mul(wh, wh).x, 0.0);
    AxisPolyFacts(dp.y, dv.y, Mul(wh, wh).y, 0.0);
  }

  // ---------------------------------------------------------------- circle–point

  /**
   * Circle–point: the smaller root of |gap(t)| = r1, returned whatever its
   * sign; None where the source returns NaN.
   */
  function CirclePoint(sqrt: real -> real, p1: Vec2, v1: Vec2, r1: real, p2: Vec2, v2: Vec2): Option<real>
  {
    var dv, dp := Sub(v2, v1), Sub(p2, p1);
    match EntryExit(sqrt, Dot(dv, dv), 2.0 * Dot(dp, dv), Dot(dp, dp) - r1 * r1)
    case None => None
    case Some((t1, _)) => Some(t1)
  }

  /**
   * At the reported time the point lies on the moving circle, and it is
   * outside it at every earlier time.
   */
  lemma CirclePointTouch(sqrt: real -> real, p1: Vec2, v1: Vec2, r1: real, p2: Vec2, v2: Vec2, s: real)
    requires IsSqrt(sqrt)
    requires CirclePoint(sqrt, p1, v1, r1, p2, v2).Some?
    ensures var t := CirclePoint(sqrt, p1, v1, r1, p2, v2).value;
      && Dot(Gap(p1, v1, p2, v2, t), Gap(p1, v1, p2, v2, t)) == r1 * r1
      && (s < t ==> Dot(Gap(p1, v1, p2, v2, s), Gap(p1, v1, p2, v2, s)) > r1 * r1)
  {
    var dv, dp := Sub(v2, v1), Sub(p2, p1);
    var a, b, c := Dot(dv, dv), 2.0 * Dot(dp, dv), Dot(dp, dp) - r1 * r1;
    var t := CirclePoint(sqrt, p1, v1, r1, p2, v2).value;
    DotSelfNonNeg(dv);
    EntryExitRoots(sqrt, a, b, c, s);
    GapQuad(p1, v1, p2, v2, r1 * r1, t);
    GapQuad(p1, v1, p2, v2, r1 * r1, s);
  }

  /**
   * Circle–point is circle–circle against a circle of radius 0, except that
   * it also returns negative times.
   */
  lemma CirclePointIsCircleCircle(sqrt: real -> real, p1: Vec2, v1: Vec2, r1: real, p2: Vec2, v2: Vec2)
    ensures var t := CirclePoint(sqrt, p1, v1, r1, p2, v2);
      var c := CircleCircle(sqrt, p1, v1, r1, p2, v2, 0.0);
      && (c.Some? <==> t.Some? && t.value >= 0.0)
      && (c.Some? ==> c.value.time == t.value)
  {
    assert (r1 + 0.0) * (r1 + 0.0) == r1 * r1;
  }

  // ---------------------------------------------------------------- circle–rect

  /**
   * The two revisions of the engine differ in where the circle–rect solver
   * puts the rectangle's corners: the inline header version offsets the
   * center by the full size (w, h), the source file by half of it.
   */
  datatype Revision = InlineHeader | SourceFile

  function CornerFactor(rev: Revision): (k: real)
    ensures rev == InlineHeader ==> k == 1.0
    ensures rev == SourceFile ==> k == 0.5
  {
    match rev
    case InlineHeader => 1.0
    case SourceFile => 0.5
  }

  /** The corner offsets in the order the nested loops visit them: w outer, h inner. */
  function Corners(k: real, wh: Vec2): seq<Vec2>
  {
    [Vec2(-k * wh.x, -k * wh.y), Vec2(-k * wh.x, k * wh.y),
     Vec2(k * wh.x, -k * wh.y), Vec2(k * wh.x, k * wh.y)]
  }

  /** Writing a solver's contact into the hit, as the solvers do when they find one. */
  function ApplyContact(hit: HitData, c: Option<Contact>): (r: HitData)
    ensures c.None? ==> r == hit
    ensures c.Some? ==> r.valid && r.time == c.value.time && r.normal == c.value.normal
    ensures r.entity1 == hit.entity1 && r.entity2 == hit.entity2 && r.dynamic == hit.dynamic
  {
    if c.Some? then hit.(valid := true, time := c.value.time, normal := c.value.normal) else hit
  }

  /**
   * The circle–point solver for a moving circle, as a function of the point's
   * start position: the corner pass below is written against such a solver.
   */
  function CirclePointAt(sqrt: real -> real, p1: Vec2, v1: Vec2, r1: real, v2: Vec2): Vec2 -> Option<real>
  {
    q => CirclePoint(sqrt, p1, v1, r1, q, v2)
  }

  /**
   * One corner of the circle–rect loop: the corner's circle–point time
   * replaces the hit if it is positive and earlier, and the normal becomes
   * the normalized gap between circle and corner at that time.
   */
  function CornerStep(sqrt: real -> real, point: Vec2 -> Option<real>, p1: Vec2, v1: Vec2, p2: Vec2, v2: Vec2,
                      hit: HitData, corner: Vec2): HitData
  {
    var q := Add(p2, corner);
    var t := point(q);
    if t.Some? && t.value < hit.time && t.value > 0.0 then
      hit.(time := t.value, valid := true, normal := Normalize(sqrt, Gap(p1, v1, q, v2, t.value)))
    else hit
  }

  /** CornerStep over a sequence of corners, from the first to the last. */
  function CornerFold(sqrt: real -> real, point: Vec2 -> Option<real>, p1: Vec2, v1: Vec2, p2: Vec2, v2: Vec2,
                      hit: HitData, cs: seq<Vec2>): HitData
  {
    if |cs| == 0 then hit
    else CornerStep(sqrt, point, p1, v1, p2, v2, CornerFold(sqrt, point, p1, v1, p2, v2, hit, cs[..|cs| - 1]), cs[|cs| - 1])
  }

  lemma CornerFoldNext(sqrt: real -> real, point: Vec2 -> Option<real>, p1: Vec2, v1: Vec2, p2: Vec2, v2: Vec2,
                       hit: HitData, cs: seq<Vec2>, n: nat)
    requires n < |cs|
    ensures CornerFold(sqrt, point, p1, v1, p2, v2, hit, cs[..n + 1])
         == CornerStep(sqrt, point, p1, v1, p2, v2, CornerFold(sqrt, point, p1, v1, p2, v2, hit, cs[..n]), cs[n])
  {
    assert cs[..n + 1][..n] == cs[..n];
  }

  /**
   * The corner pass keeps the entities and the dynamic flag, never makes the
   * time later, leaves the hit unchanged unless it makes the time earlier,
   * ends no later than any positive corner time, and an earlier time it
   * reports is some corner's positive time with the normal taken at that
   * corner.
   */
  lemma {:induction false} CornerFoldEarliest(sqrt: real -> real, point: Vec2 -> Option<real>, p1: Vec2, v1: Vec2,
                                              p2: Vec2, v2: Vec2, hit: HitData, cs: seq<Vec2>)
    ensures var r := CornerFold(sqrt, point, p1, v1, p2, v2, hit, cs);
      && r.entity1 == hit.entity1 && r.entity2 == hit.entity2 && r.dynamic == hit.dynamic
      && r.time <= hit.time
      && (r.time == hit.time ==> r == hit)
      && (r.time < hit.time ==>
            && r.valid && r.time > 0.0
            && exists i :: 0 <= i < |cs| && point(Add(p2, cs[i])) == Some(r.time)
                 && r.normal == Normalize(sqrt, Gap(p1, v1, Add(p2, cs[i]), v2, r.time)))
      && (forall i, t :: 0 <= i < |cs| && point(Add(p2, cs[i])) == Some(t) && t > 0.0 ==> r.time <= t)
  {
    if |cs| > 0 {
      var init := cs[..|cs| - 1];
      var last := cs[|cs| - 1];
      CornerFoldEarliest(sqrt, point, p1, v1, p2, v2, hit, init);
      var m := CornerFold(sqrt, point, p1, v1, p2, v2, hit, init);
      var r := CornerStep(sqrt, point, p1, v1, p2, v2, m, last);
      assert forall i :: 0 <= i < |init| ==> cs[i] == init[i];
      if r.time < m.time {
        assert point(Add(p2, cs[|cs| - 1])) == Some(r.time);
      } else if r.time < hit.time {
        var i :| 0 <= i < |init| && point(Add(p2, init[i])) == Some(m.time)
                 && m.normal == Normalize(sqrt, Gap(p1, v1, Add(p2, init[i]), v2, m.time));
        assert cs[i] == init[i];
      }
    }
  }

  /**
   * What the circle–rect solver computes: the rect–rect solution for the
   * circle's 2r x 2r bounding square, then the corner pass with the
   * circle–point solver.
   */
  function CircleRectSpec(sqrt: real -> real, k: real, p1: Vec2, v1: Vec2, r1: real,
                          p2: Vec2, v2: Vec2, wh2: Vec2, hit: HitData): HitData
  {
    var edge := ApplyContact(hit, RectRect(sqrt, p1, v1, Vec2(2.0 * r1, 2.0 * r1), p2, v2, wh2));
    CornerFold(sqrt, CirclePointAt(sqrt, p1, v1, r1, v2), p1, v1, p2, v2, edge, Corners(k, wh2))
  }

  /**
   * The circle–rect solver: the rect–rect pass for the circle's bounding
   * square, then the corner loops.
   */
  method CircleRect(sqrt: real -> real, k: real, p1: Vec2, v1: Vec2, r1: real,
                    p2: Vec2, v2: Vec2, wh2: Vec2, hit: HitData) returns (r: HitData)
    ensures r == CircleRectSpec(sqrt, k, p1, v1, r1, p2, v2, wh2, hit)
  {
    var edge := ApplyContact(hit, RectRect(sqrt, p1, v1, Vec2(2.0 * r1, 2.0 * r1), p2, v2, wh2));
    r := CornerLoops(sqrt, k, CirclePointAt(sqrt, p1, v1, r1, v2), p1, v1, p2, v2, wh2, edge);
  }

  /**
   * The two nested loops over the corner offsets -k w, k w and -k h, k h,
   * each corner handled by the circle–point solver `point`.
   */
  method CornerLoops(sqrt: real -> real, k: real, point: Vec2 -> Option<real>, p1: Vec2, v1: Vec2,
                     p2: Vec2, v2: Vec2, wh2: Vec2, hit: HitData) returns (r: HitData)
    ensures r == CornerFold(sqrt, point, p1, v1, p2, v2, hit, Corners(k, wh2))
  {
    r := hit;
    var ws := [-k * wh2.x, k * wh2.x];
    var hs := [-k * wh2.y, k * wh2.y];
    ghost var cs := Corners(k, wh2);
    for i := 0 to 2
      invariant r == CornerFold(sqrt, point, p1, v1, p2, v2, hit, cs[..2 * i])
    {
      for j := 0 to 2
        invariant r == CornerFold(sqrt, point, p1, v1, p2, v2, hit, cs[..2 * i + j])
      {
        CornerFoldNext(sqrt, point, p1, v1, p2, v2, hit, cs, 2 * i + j);
        CornerAt(k, wh2, i, j);
        r := CornerVisit(sqrt, point, p1, v1, p2, v2, r, Vec2(ws[i], hs[j]));
      }
    }
    assert cs[..4] == cs;
  }

  /** The corner the nested loops visit at outer index i and inner index j. */
  lemma CornerAt(k: real, wh: Vec2, i: nat, j: nat)
    requires i < 2 && j < 2
    ensures Corners(k, wh)[2 * i + j] == Vec2([-k * wh.x, k * wh.x][i], [-k * wh.y, k * wh.y][j])
  {
  }

  /** The body of the inner corner loop: one corner against the hit so far. */
  method CornerVisit(sqrt: real -> real, point: Vec2 -> Option<real>, p1: Vec2, v1: Vec2, p2: Vec2, v2: Vec2,
                     hit: HitData, corner: Vec2) returns (r: HitData)
    ensures r == CornerStep(sqrt, point, p1, v1, p2, v2, hit, corner)
  {
    r := hit;
    var q := Add(p2, corner);
    var t := point(q);
    if t.Some? && t.value < r.time && t.value > 0.0 {
      r := r.(time := t.value, valid := true, normal := Normalize(sqrt, Gap(p1, v1, q, v2, t.value)));
    }
  }

  /**
   * The circle–rect result: entities and dynamic flag kept; its time is no
   * later than the edge contact and than any corner's positive circle–point
   * time; if the corners improve on the edge pass, the result is a valid hit
   * at a positive time where the circle touches one of the corners.
   */
  lemma CircleRectEarliest(sqrt: real -> real, k: real, p1: Vec2, v1: Vec2, r1: real,
                           p2: Vec2, v2: Vec2, wh2: Vec2, hit: HitData)
    ensures var r, edge := CircleRectSpec(sqrt, k, p1, v1, r1, p2, v2, wh2, hit),
                           ApplyContact(hit, RectRect(sqrt, p1, v1, Vec2(2.0 * r1, 2.0 * r1), p2, v2, wh2));
      && r.entity1 == hit.entity1 && r.entity2 == hit.entity2 && r.dynamic == hit.dynamic
      && r.time <= edge.time
      && (r.time == edge.time ==> r == edge)
      && (r.time < edge.time ==>
            r.valid && r.time > 0.0
            && exists c :: c in Corners(k, wh2) && CirclePoint(sqrt, p1, v1, r1, Add(p2, c), v2) == Some(r.time))
      && (forall c, t :: c in Corners(k, wh2) && CirclePoint(sqrt, p1, v1, r1, Add(p2, c), v2) == Some(t) && t > 0.0
                       ==> r.time <= t)
  {
    var edge := ApplyContact(hit, RectRect(sqrt, p1, v1, Vec2(2.0 * r1, 2.0 * r1), p2, v2, wh2));
    var point := CirclePointAt(sqrt, p1, v1, r1, v2);
    var cs := Corners(k, wh2);
    CornerFoldEarliest(sqrt, point, p1, v1, p2, v2, edge, cs);
    forall c, t | c in cs && CirclePoint(sqrt, p1, v1, r1, Add(p2, c), v2) == Some(t) && t > 0.0
      ensures CircleRectSpec(sqrt, k, p1, v1, r1, p2, v2, wh2, hit).time <= t
    {
      var i :| 0 <= i < |cs| && cs[i] == c;
      assert point(Add(p2, cs[i])) == Some(t);
    }
  }

  /** Renaming the entities of the incoming hit renames them in the corner pass's result and changes nothing else. */
  lemma {:induction false} CornerFoldRelabel(sqrt: real -> real, point: Vec2 -> Option<real>, p1: Vec2, v1: Vec2,
                                             p2: Vec2, v2: Vec2, hit: HitData, cs: seq<Vec2>, e1: Entity, e2: Entity)
    ensures CornerFold(sqrt, point, p1, v1, p2, v2, hit.(entity1 := e1, entity2 := e2), cs)
         == CornerFold(sqrt, point, p1, v1, p2, v2, hit, cs).(entity1 := e1, entity2 := e2)
  {
    if |cs| > 0 {
      CornerFoldRelabel(sqrt, point, p1, v1, p2, v2, hit, cs[..|cs| - 1], e1, e2);
    }
  }

  /**
   * The corner pass reads only the incoming time: starting it from a hit
   * with another normal and dynamic flag gives that hit back if no corner
   * improves on it, and otherwise the same result with the new flag.
   */
  lemma {:induction false} CornerFoldScratch(sqrt: real -> real, point: Vec2 -> Option<real>, p1: Vec2, v1: Vec2,
                                             p2: Vec2, v2: Vec2, hit: HitData, cs: seq<Vec2>, n: Vec2, d: bool)
    ensures var r := CornerFold(sqrt, point, p1, v1, p2, v2, hit, cs);
      CornerFold(sqrt, point, p1, v1, p2, v2, hit.(normal := n, dynamic := d), cs)
        == if r.time == hit.time then hit.(normal := n, dynamic := d) else r.(dynamic := d)
  {
    if |cs| > 0 {
      var init := cs[..|cs| - 1];
      CornerFoldScratch(sqrt, point, p1, v1, p2, v2, hit, init, n, d);
      CornerFoldEarliest(sqrt, point, p1, v1, p2, v2, hit, init);
      CornerFoldEarliest(sqrt, point, p1, v1, p2, v2, hit, cs);
    }
  }

  // ---------------------------------------------------------------- dispatch

  /**
   * The shape dispatcher `collision(hit, e1, e2)`: resets the hit to the pair
   * (e1, e2), invalid at InvalidTime, then runs the solver for the two shape
   * tags. A rectangle against a circle runs circle–rect with the roles
   * swapped and negates the normal afterwards; unknown tags leave the reset
   * hit. Velocities are zero for entities without Motion2D (the caller's
   * job).
   */
  function CollideSpec(sqrt: real -> real, k: real, hit: HitData, e1: Entity, e2: Entity,
                       tr1: Transform, bb1: BoundingShape, v1: Vec2,
                       tr2: Transform, bb2: BoundingShape, v2: Vec2): HitData
  {
    var h := hit.(entity1 := e1, entity2 := e2, valid := false, time := InvalidTime);
    if bb1.shape == Rect2D && bb2.shape == Rect2D then
      var (p1, wh1) := ConvertAsRect(tr1, bb1);
      var (p2, wh2) := ConvertAsRect(tr2, bb2);
      ApplyContact(h, RectRect(sqrt, p1, v1, wh1, p2, v2, wh2))
    else if bb1.shape == Circle && bb2.shape == Circle then
      var (p1, r1) := ConvertAsCircle(tr1, bb1);
      var (p2, r2) := ConvertAsCircle(tr2, bb2);
      ApplyContact(h, CircleCircle(sqrt, p1, v1, r1, p2, v2, r2))
    else if bb1.shape == Rect2D && bb2.shape == Circle then
      var (p1, wh1) := ConvertAsRect(tr1, bb1);
      var (p2, r2) := ConvertAsCircle(tr2, bb2);
      var r := CircleRectSpec(sqrt, k, p2, v2, r2, p1, v1, wh1, h);
      r.(normal := Neg(r.normal))
    else if bb1.shape == Circle && bb2.shape == Rect2D then
      var (p1, r1) := ConvertAsCircle(tr1, bb1);
      var (p2, wh2) := ConvertAsRect(tr2, bb2);
      CircleRectSpec(sqrt, k, p1, v1, r1, p2, v2, wh2, h)
    else h
  }

  /** The dispatcher, running the circle–rect solver's loops. */
  method Collide(sqrt: real -> real, k: real, hit: HitData, e1: Entity, e2: Entity,
                 tr1: Transform, bb1: BoundingShape, v1: Vec2,
                 tr2: Transform, bb2: BoundingShape, v2: Vec2) returns (r: HitData)
    ensures r == CollideSpec(sqrt, k, hit, e1, e2, tr1, bb1, v1, tr2, bb2, v2)
  {
    r := hit.(entity1 := e1, entity2 := e2, valid := false, time := InvalidTime);
    if bb1.shape == Rect2D && bb2.shape == Rect2D {
      var (p1, wh1) := ConvertAsRect(tr1, bb1);
      var (p2, wh2) := ConvertAsRect(tr2, bb2);
      r := ApplyContact(r, RectRect(sqrt, p1, v1, wh1, p2, v2, wh2));
    } else if bb1.shape == Circle && bb2.shape == Circle {
      var (p1, r1) := ConvertAsCircle(tr1, bb1);
      var (p2, r2) := ConvertAsCircle(tr2, bb2);
      r := ApplyContact(r, CircleCircle(sqrt, p1, v1, r1, p2, v2, r2));
    } else if bb1.shape == Rect2D && bb2.shape == Circle {
      var (p1, wh1) := ConvertAsRect(tr1, bb1);
      var (p2, r2) := ConvertAsCircle(tr2, bb2);
      r := CircleRect(sqrt, k, p2, v2, r2, p1, v1, wh1, r);
      r := r.(normal := Neg(r.normal));
    } else if bb1.shape == Circle && bb2.shape == Rect2D {
      var (p1, r1) := ConvertAsCircle(tr1, bb1);
      var (p2, wh2) := ConvertAsRect(tr2, bb2);
      r := CircleRect(sqrt, k, p1, v1, r1, p2, v2, wh2, r);
    }
  }

  /**
   * The dispatcher names the pair (e1, e2) and keeps the dynamic flag; an
   * invalid result carries InvalidTime, a valid one a time that is not
   * negative; unknown shape tags never give a valid hit.
   */
  lemma CollideFacts(sqrt: real -> real, k: real, hit: HitData, e1: Entity, e2: Entity,
                     tr1: Transform, bb1: BoundingShape, v1: Vec2,
                     tr2: Transform, bb2: BoundingShape, v2: Vec2)
    ensures var r := CollideSpec(sqrt, k, hit, e1, e2, tr1, bb1, v1, tr2, bb2, v2);
      && r.entity1 == e1 && r.entity2 == e2 && r.dynamic == hit.dynamic
      && (!r.valid ==> r.time == InvalidTime)
      && (r.valid ==> r.time >= 0.0)
      && (!(bb1.shape in {Rect2D, Circle} && bb2.shape in {Rect2D, Circle}) ==>
            !r.valid && r.normal == hit.normal)
  {
    var h := hit.(entity1 := e1, entity2 := e2, valid := false, time := InvalidTime);
    if bb1.shape == Rect2D && bb2.shape == Rect2D {
      var (p1, wh1) := ConvertAsRect(tr1, bb1);
      var (p2, wh2) := ConvertAsRect(tr2, bb2);
      RectRectTimeNonNeg(sqrt, p1, v1, wh1, p2, v2, wh2);
    } else if bb1.shape == Rect2D && bb2.shape == Circle {
      var (p1, wh1) := ConvertAsRect(tr1, bb1);
      var (p2, r2) := ConvertAsCircle(tr2, bb2);
      CircleRectValid(sqrt, k, p2, v2, r2, p1, v1, wh1, h);
    } else if bb1.shape == Circle && bb2.shape == Rect2D {
      var (p1, r1) := ConvertAsCircle(tr1, bb1);
      var (p2, wh2) := ConvertAsRect(tr2, bb2);
      CircleRectValid(sqrt, k, p1, v1, r1, p2, v2, wh2, h);
    }
  }

  /** A reported rect–rect contact time is never negative. */
  lemma RectRectTimeNonNeg(sqrt: real -> real, p1: Vec2, v1: Vec2, wh1: Vec2, p2: Vec2, v2: Vec2, wh2: Vec2)
    ensures RectRect(sqrt, p1, v1, wh1, p2, v2, wh2).Some? ==> RectRect(sqrt, p1, v1, wh1, p2, v2, wh2).value.time >= 0.0
  {
    var dp, dv, wh := Sub(p2, p1), Sub(v2, v1), HalfExtents(wh1, wh2);
    CombineChoice(AxisTimes(sqrt, dp.x, dv.x, Mul(wh, wh).x), AxisTimes(sqrt, dp.y, dv.y, Mul(wh, wh).y), dv);
  }

  /**
   * Circle–rect started from an invalid hit at InvalidTime: the result is
   * either that hit unchanged or a valid hit at a non-negative time.
   */
  lemma CircleRectValid(sqrt: real -> real, k: real, p1: Vec2, v1: Vec2, r1: real,
                        p2: Vec2, v2: Vec2, wh2: Vec2, hit: HitData)
    requires !hit.valid && hit.time == InvalidTime
    ensures var r := CircleRectSpec(sqrt, k, p1, v1, r1, p2, v2, wh2, hit);
      && r.entity1 == hit.entity1 && r.entity2 == hit.entity2 && r.dynamic == hit.dynamic
      && (r.valid ==> r.time >= 0.0)
      && (!r.valid ==> r == hit)
  {
    CircleRectEarliest(sqrt, k, p1, v1, r1, p2, v2, wh2, hit);
    RectRectTimeNonNeg(sqrt, p1, v1, Vec2(2.0 * r1, 2.0 * r1), p2, v2, wh2);
  }

  /**
   * Dispatching the pair in the other order gives the same validity and time
   * and, for a valid hit, the opposite normal.
   */
  lemma CollideSymmetric(sqrt: real -> real, k: real, hit: HitData, e1: Entity, e2: Entity,
                         tr1: Transform, bb1: BoundingShape, v1: Vec2,
                         tr2: Transform, bb2: BoundingShape, v2: Vec2)
    ensures var r := CollideSpec(sqrt, k, hit, e1, e2, tr1, bb1, v1, tr2, bb2, v2);
      var r' := CollideSpec(sqrt, k, hit, e2, e1, tr2, bb2, v2, tr1, bb1, v1);
      && r.valid == r'.valid && r.time == r'.time
      && (r.valid ==> r.normal == Neg(r'.normal))
  {
    var h := hit.(entity1 := e1, entity2 := e2, valid := false, time := InvalidTime);
    var h' := hit.(entity1 := e2, entity2 := e1, valid := false, time := InvalidTime);
    assert h' == h.(entity1 := e2, entity2 := e1);
    if bb1.shape == Rect2D && bb2.shape == Rect2D {
      var (p1, wh1) := ConvertAsRect(tr1, bb1);
      var (p2, wh2) := ConvertAsRect(tr2, bb2);
      RectRectSymmetric(sqrt, p1, v1, wh1, p2, v2, wh2);
    } else if bb1.shape == Circle && bb2.shape == Circle {
      var (p1, r1) := ConvertAsCircle(tr1, bb1);
      var (p2, r2) := ConvertAsCircle(tr2, bb2);
      CircleCircleSymmetric(sqrt, p1, v1, r1, p2, v2, r2);
    } else if bb1.shape == Rect2D && bb2.shape == Circle {
      var (p1, wh1) := ConvertAsRect(tr1, bb1);
      var (p2, r2) := ConvertAsCircle(tr2, bb2);
      CircleRectRelabel(sqrt, k, p2, v2, r2, p1, v1, wh1, h, e2, e1);
    } else if bb1.shape == Circle && bb2.shape == Rect2D {
      var (p1, r1) := ConvertAsCircle(tr1, bb1);
      var (p2, wh2) := ConvertAsRect(tr2, bb2);
      CircleRectRelabel(sqrt, k, p1, v1, r1, p2, v2, wh2, h, e2, e1);
    }
  }

  /**
   * The dispatcher's verdict does not depend on the normal and dynamic flag
   * left in the scratch hit it is handed: validity, time and entities are
   * the same, the flag is passed through, and a valid hit has the same
   * normal.
   */
  lemma CollideIgnoresScratch(sqrt: real -> real, k: real, hit: HitData, e1: Entity, e2: Entity,
                              tr1: Transform, bb1: BoundingShape, v1: Vec2,
                              tr2: Transform, bb2: BoundingShape, v2: Vec2, n: Vec2, d: bool)
    ensures var r := CollideSpec(sqrt, k, hit, e1, e2, tr1, bb1, v1, tr2, bb2, v2);
      var r' := CollideSpec(sqrt, k, hit.(normal := n, dynamic := d), e1, e2, tr1, bb1, v1, tr2, bb2, v2);
      && r'.valid == r.valid && r'.time == r.time
      && r'.entity1 == r.entity1 && r'.entity2 == r.entity2 && r'.dynamic == d
      && (r.valid ==> r'.normal == r.normal)
  {
    var h := hit.(entity1 := e1, entity2 := e2, valid := false, time := InvalidTime);
    var h' := hit.(normal := n, dynamic := d).(entity1 := e1, entity2 := e2, valid := false, time := InvalidTime);
    assert h' == h.(normal := n, dynamic := d);
    if bb1.shape == Rect2D && bb2.shape == Circle {
      var (p1, wh1) := ConvertAsRect(tr1, bb1);
      var (p2, r2) := ConvertAsCircle(tr2, bb2);
      CircleRectScratch(sqrt, k, p2, v2, r2, p1, v1, wh1, h, n, d);
    } else if bb1.shape == Circle && bb2.shape == Rect2D {
      var (p1, r1) := ConvertAsCircle(tr1, bb1);
      var (p2, wh2) := ConvertAsRect(tr2, bb2);
      CircleRectScratch(sqrt, k, p1, v1, r1, p2, v2, wh2, h, n, d);
    }
  }

  /**
   * A valid result of the dispatcher does not depend on the scratch hit it
   * was handed, only on its dynamic flag.
   */
  lemma CollideValidIndependent(sqrt: real -> real, k: real, hit: HitData, hit': HitData, e1: Entity, e2: Entity,
                                tr1: Transform, bb1: BoundingShape, v1: Vec2,
                                tr2: Transform, bb2: BoundingShape, v2: Vec2)
    requires hit'.dynamic == hit.dynamic
    ensures var r := CollideSpec(sqrt, k, hit, e1, e2, tr1, bb1, v1, tr2, bb2, v2);
      r.valid ==> r == CollideSpec(sqrt, k, hit', e1, e2, tr1, bb1, v1, tr2, bb2, v2)
  {
    var mid := hit.(normal := hit'.normal, dynamic := hit'.dynamic);
    CollideIgnoresScratch(sqrt, k, hit, e1, e2, tr1, bb1, v1, tr2, bb2, v2, hit'.normal, hit'.dynamic);
    CollideFacts(sqrt, k, hit, e1, e2, tr1, bb1, v1, tr2, bb2, v2);
    assert mid.(entity1 := e1, entity2 := e2, valid := false, time := InvalidTime)
        == hit'.(entity1 := e1, entity2 := e2, valid := false, time := InvalidTime);
    assert CollideSpec(sqrt, k, mid, e1, e2, tr1, bb1, v1, tr2, bb2, v2)
        == CollideSpec(sqrt, k, hit', e1, e2, tr1, bb1, v1, tr2, bb2, v2);
  }

  /** The scratch hit the engine probes with: a default hit with the given flag. */
  function Probe(dynamic: bool): (h: HitData)
    ensures !h.valid && h.time == InvalidTime && h.dynamic == dynamic
  {
    DefaultHit().(dynamic := dynamic)
  }

  /** The dispatcher as a value, over a hit and both entities' components. */
  type Predictor = (HitData, Entity, Entity, Transform, BoundingShape, Vec2, Transform, BoundingShape, Vec2) -> HitData

  function Dispatcher(sqrt: real -> real, k: real): Predictor
  {
    (hit: HitData, e1: Entity, e2: Entity, tr1: Transform, bb1: BoundingShape, v1: Vec2,
     tr2: Transform, bb2: BoundingShape, v2: Vec2) =>
      CollideSpec(sqrt, k, hit, e1, e2, tr1, bb1, v1, tr2, bb2, v2)
  }

  /**
   * From a default scratch hit, the dispatcher's result names the pair and
   * keeps the flag, a valid time is not in the past and an invalid one is
   * InvalidTime.
   */
  ghost predicate Tidy(p: Predictor)
  {
    forall d: bool, e1: Entity, e2: Entity, tr1: Transform, bb1: BoundingShape, v1: Vec2,
           tr2: Transform, bb2: BoundingShape, v2: Vec2 ::
      var r := p(Probe(d), e1, e2, tr1, bb1, v1, tr2, bb2, v2);
      && r.entity1 == e1 && r.entity2 == e2 && r.dynamic == d
      && (r.valid ==> r.time >= 0.0)
      && (!r.valid ==> r.time == InvalidTime)
  }

  /**
   * What the engine relies on from the dispatcher: Tidy, the same facts
   * from any scratch hit, and whenever either is valid the result equals
   * the one a default scratch hit with the same flag gives.
   */
  ghost predicate Sound(p: Predictor)
  {
    && Tidy(p)
    && (forall hit: HitData, e1: Entity, e2: Entity, tr1: Transform, bb1: BoundingShape, v1: Vec2,
           tr2: Transform, bb2: BoundingShape, v2: Vec2 ::
          var r := p(hit, e1, e2, tr1, bb1, v1, tr2, bb2, v2);
          && r.entity1 == e1 && r.entity2 == e2 && r.dynamic == hit.dynamic
          && (r.valid ==> r.time >= 0.0)
          && (!r.valid ==> r.time == InvalidTime))
    && (forall hit: HitData, e1: Entity, e2: Entity, tr1: Transform, bb1: BoundingShape, v1: Vec2,
           tr2: Transform, bb2: BoundingShape, v2: Vec2
          {:trigger p(hit, e1, e2, tr1, bb1, v1, tr2, bb2, v2), p(Probe(hit.dynamic), e1, e2, tr1, bb1, v1, tr2, bb2, v2)} ::
          var r, r0 := p(hit, e1, e2, tr1, bb1, v1, tr2, bb2, v2), p(Probe(hit.dynamic), e1, e2, tr1, bb1, v1, tr2, bb2, v2);
          (r.valid || r0.valid) ==> r == r0)
  }

  /** The dispatcher of either revision is sound. */
  lemma DispatcherSound(sqrt: real -> real, k: real)
    ensures Sound(Dispatcher(sqrt, k))
  {
    var p := Dispatcher(sqrt, k);
    forall hit: HitData, e1: Entity, e2: Entity, tr1: Transform, bb1: BoundingShape, v1: Vec2,
           tr2: Transform, bb2: BoundingShape, v2: Vec2
      ensures var r := p(hit, e1, e2, tr1, bb1, v1, tr2, bb2, v2);
        && r.entity1 == e1 && r.entity2 == e2 && r.dynamic == hit.dynamic
        && (r.valid ==> r.time >= 0.0)
        && (!r.valid ==> r.time == InvalidTime)
        && var r0 := p(Probe(hit.dynamic), e1, e2, tr1, bb1, v1, tr2, bb2, v2);
         (r.valid || r0.valid) ==> r == r0
    {
      CollideFacts(sqrt, k, hit, e1, e2, tr1, bb1, v1, tr2, bb2, v2);
      CollideValidIndependent(sqrt, k, hit, Probe(hit.dynamic), e1, e2, tr1, bb1, v1, tr2, bb2, v2);
      CollideValidIndependent(sqrt, k, Probe(hit.dynamic), hit, e1, e2, tr1, bb1, v1, tr2, bb2, v2);
    }
    forall d: bool, e1: Entity, e2: Entity, tr1: Transform, bb1: BoundingShape, v1: Vec2,
           tr2: Transform, bb2: BoundingShape, v2: Vec2
      ensures var r := p(Probe(d), e1, e2, tr1, bb1, v1, tr2, bb2, v2);
        && r.entity1 == e1 && r.entity2 == e2 && r.dynamic == d
        && (r.valid ==> r.time >= 0.0)
        && (!r.valid ==> r.time == InvalidTime)
    {
      CollideFacts(sqrt, k, Probe(d), e1, e2, tr1, bb1, v1, tr2, bb2, v2);
    }
  }

  /** CollideIgnoresScratch for the circle–rect solver, started from an invalid hit. */
  lemma CircleRectScratch(sqrt: real -> real, k: real, p1: Vec2, v1: Vec2, r1: real,
                          p2: Vec2, v2: Vec2, wh2: Vec2, hit: HitData, n: Vec2, d: bool)
    requires !hit.valid
    ensures var r := CircleRectSpec(sqrt, k, p1, v1, r1, p2, v2, wh2, hit);
      var r' := CircleRectSpec(sqrt, k, p1, v1, r1, p2, v2, wh2, hit.(normal := n, dynamic := d));
      && r'.valid == r.valid && r'.time == r.time
      && r'.entity1 == r.entity1 && r'.entity2 == r.entity2 && r'.dynamic == d
      && (r.valid ==> r'.normal == r.normal)
  {
    var c := RectRect(sqrt, p1, v1, Vec2(2.0 * r1, 2.0 * r1), p2, v2, wh2);
    var edge := ApplyContact(hit, c);
    var edge' := ApplyContact(hit.(normal := n, dynamic := d), c);
    assert edge' == edge.(normal := edge'.normal, dynamic := d);
    var point := CirclePointAt(sqrt, p1, v1, r1, v2);
    CornerFoldScratch(sqrt, point, p1, v1, p2, v2, edge, Corners(k, wh2), edge'.normal, d);
    CornerFoldEarliest(sqrt, point, p1, v1, p2, v2, edge, Corners(k, wh2));
  }

  lemma CircleRectRelabel(sqrt: real -> real, k: real, p1: Vec2, v1: Vec2, r1: real,
                          p2: Vec2, v2: Vec2, wh2: Vec2, hit: HitData, e1: Entity, e2: Entity)
    ensures CircleRectSpec(sqrt, k, p1, v1, r1, p2, v2, wh2, hit.(entity1 := e1, entity2 := e2))
         == CircleRectSpec(sqrt, k, p1, v1, r1, p2, v2, wh2, hit).(entity1 := e1, entity2 := e2)
  {
    var c := RectRect(sqrt, p1, v1, Vec2(2.0 * r1, 2.0 * r1), p2, v2, wh2);
    assert ApplyContact(hit.(entity1 := e1, entity2 := e2), c) == ApplyContact(hit, c).(entity1 := e1, entity2 := e2);
    CornerFoldRelabel(sqrt, CirclePointAt(sqrt, p1, v1, r1, v2), p1, v1, p2, v2, ApplyContact(hit, c),
                      Corners(k, wh2), e1, e2);
  }
}
