/**
 * The discrete physics system `Physics2D`: it moves every body with a
 * Motion by one time step, reports every pair of overlapping bounding boxes
 * to both bodies' collision callbacks, and resolves a collision by
 * reflecting a body's velocity about the axis it hit. Callbacks are
 * recorded as calls (self, other) in the order they fire.
 */
module DiscretePhysics {
  import opened Geometry
  import opened Wrappers
  import C = Physics2DComponents
  import opened Boundingbox2DComponent
  import opened MotionComponent
  import Swept
  import EntityRegistry

  type Entity = C.Entity

  /** `intersects`: the open boxes (left, right, bottom, top) overlap on both axes. */
  predicate Intersects(a: Vec4, b: Vec4)
  {
    (a.x < b.y && a.y > b.x) && (a.z < b.w && a.w > b.z)
  }

  /** A point strictly inside the box (left, right, bottom, top). */
  predicate Interior(box: Vec4, p: Vec2)
  {
    box.x < p.x < box.y && box.z < p.y < box.w
  }

  /** A box with positive width and height. */
  predicate Proper(box: Vec4)
  {
    box.x < box.y && box.z < box.w
  }

  /**
   * Two boxes intersect when some point lies strictly inside both, and for
   * boxes of positive size only then; the test does not depend on the order
   * of its arguments.
   */
  lemma IntersectsShared(a: Vec4, b: Vec4)
    ensures (exists p :: Interior(a, p) && Interior(b, p)) ==> Intersects(a, b)
    ensures Proper(a) && Proper(b) && Intersects(a, b) ==> exists p :: Interior(a, p) && Interior(b, p)
    ensures Intersects(a, b) == Intersects(b, a)
  {
    if Proper(a) && Proper(b) && Intersects(a, b) {
      var p := Vec2((Max(a.x, b.x) + Min(a.y, b.y)) / 2.0, (Max(a.z, b.z) + Min(a.w, b.w)) / 2.0);
      assert Interior(a, p) && Interior(b, p);
    }
  }

  /**
   * A zero time in single precision: a real number, or the infinity that
   * `-x / 0` gives when there is neither velocity nor acceleration (the
   * denominator is taken as +0, the value a difference of equal velocities
   * has), or NaN, which `0 / 0` and the square root of a negative number
   * give.
   */
  datatype Time = Finite(t: real) | PosInf | NegInf | NaN

  /** `<` on times, infinities included; every comparison with NaN is false. */
  predicate Before(a: Time, b: Time)
  {
    match (a, b)
    case (NaN, _) => false
    case (_, NaN) => false
    case (NegInf, NegInf) => false
    case (NegInf, _) => true
    case (Finite(x), Finite(y)) => x < y
    case (Finite(_), PosInf) => true
    case _ => false
  }

  /**
   * std::min on times, `(b < a) ? b : a`. With NaN it is not symmetric:
   * a NaN first argument wins and a NaN second argument is passed over.
   */
  function MinTime(a: Time, b: Time): (m: Time)
    ensures !Before(a, m) && !Before(b, m) && (m == a || m == b)
    ensures a.NaN? ==> m.NaN?
    ensures b.NaN? ==> m == a
    ensures !a.NaN? && !b.NaN? ==> !m.NaN?
    ensures m != a ==> Before(m, a)
  {
    if Before(b, a) then b else a
  }

  /**
   * glm::sign of `b - a`: an infinity minus a number or the opposite
   * infinity keeps its sign; the same infinity twice gives NaN, and the
   * sign of NaN is 0.
   */
  function SignOfDiff(a: Time, b: Time): (s: real)
    ensures s == -1.0 || s == 0.0 || s == 1.0
    ensures s > 0.0 <==> Before(a, b)
    ensures s < 0.0 <==> Before(b, a)
    ensures a.NaN? || b.NaN? ==> s == 0.0
  {
    match (a, b)
    case (NaN, _) => 0.0
    case (_, NaN) => 0.0
    case (Finite(x), Finite(y)) => Sign(y - x)
    case (PosInf, PosInf) => 0.0
    case (NegInf, NegInf) => 0.0
    case (_, PosInf) => 1.0
    case (NegInf, _) => 1.0
    case _ => -1.0
  }

  /**
   * `zero_time(x, vel, accel)`: a time t with x + vel·t + ½·accel·t² = 0.
   * Without acceleration it is -x/vel, an infinity when vel is zero and x is
   * not; with acceleration it is the root of smaller magnitude. None where
   * NaN for 0/0, or for the square root of a negative number.
   */
  function ZeroTime(sqrt: real -> real, x: real, vel: real, accel: real): Time
  {
    if accel == 0.0 then
      if vel != 0.0 then Finite(-x / vel)
      else if x < 0.0 then PosInf
      else if x > 0.0 then NegInf
      else NaN
    else
      match Swept.EntryExit(sqrt, 0.5 * accel, vel, x)
      case None => NaN
      case Some((t1, t2)) => Finite(if Abs(t1) < Abs(t2) then t1 else t2)
  }

  /** The position `x + vel·t + ½·accel·t²` relative to the contact at time t. */
  function Gap(x: real, vel: real, accel: real, t: real): real
  {
    Swept.Quad(0.5 * accel, vel, x, t)
  }

  /** Without acceleration and with a velocity, the time found closes the gap. */
  lemma ZeroTimeLinear(sqrt: real -> real, x: real, vel: real)
    requires vel != 0.0
    ensures ZeroTime(sqrt, x, vel, 0.0).Finite?
    ensures Gap(x, vel, 0.0, ZeroTime(sqrt, x, vel, 0.0).t) == 0.0
  {
    var t := -x / vel;
    assert vel * t == -x;
  }

  /**
   * With acceleration, the time found closes the gap and no other time that
   * closes it is nearer to zero.
   */
  lemma ZeroTimeNearest(sqrt: real -> real, x: real, vel: real, accel: real, s: real)
    requires IsSqrt(sqrt) && accel != 0.0
    requires !ZeroTime(sqrt, x, vel, accel).NaN?
    ensures ZeroTime(sqrt, x, vel, accel).Finite?
    ensures Gap(x, vel, accel, ZeroTime(sqrt, x, vel, accel).t) == 0.0
    ensures Gap(x, vel, accel, s) == 0.0 ==> Abs(ZeroTime(sqrt, x, vel, accel).t) <= Abs(s)
  {
    var a, b, c := 0.5 * accel, vel, x;
    var (lo, hi) := Swept.EntryExit(sqrt, a, b, c).value;
    var disc := b * b - 4.0 * a * c;
    var r := sqrt(disc);
    assert r * r == disc;
    var t := ZeroTime(sqrt, x, vel, accel).t;
    assert t == lo || t == hi;
    assert Abs(t) <= Abs(lo) && Abs(t) <= Abs(hi);
    RootsAre(a, b, c, r, t);
    RootsAre(a, b, c, r, s);
  }

  /** With a != 0 and r² the discriminant, the roots of the quadratic are the two the formula gives. */
  lemma RootsAre(a: real, b: real, c: real, r: real, s: real)
    requires a != 0.0 && r * r == b * b - 4.0 * a * c
    ensures Swept.Quad(a, b, c, s) == 0.0 <==> s == (-b - r) / (2.0 * a) || s == (-b + r) / (2.0 * a)
  {
    Swept.QuadFactor(a, b, c, r, s);
    if Swept.Quad(a, b, c, s) == 0.0 {
      ZeroProduct(a, s - (-b - r) / (2.0 * a), s - (-b + r) / (2.0 * a));
    }
  }

  lemma ZeroProduct(a: real, u: real, v: real)
    requires a != 0.0 && a * u * v == 0.0
    ensures u == 0.0 || v == 0.0
  {
  }

  /** With acceleration, whenever some time closes the gap a time is found. */
  lemma ZeroTimeComplete(sqrt: real -> real, x: real, vel: real, accel: real, s: real)
    requires accel != 0.0 && Gap(x, vel, accel, s) == 0.0
    ensures ZeroTime(sqrt, x, vel, accel).Finite?
  {
    var a, b, c := 0.5 * accel, vel, x;
    Swept.QuadSquare(a, b, c, s);
    var w := 2.0 * a * s + b;
    assert w * w >= 0.0;
  }

  /** `v - 2(n·v)n`: the velocity reflected about the plane with normal n. */
  function Reflect3(v: Vec3, n: Vec3): Vec3
  {
    Sub3(v, Scale3(2.0 * Dot3(n, v), n))
  }

  /** The normals `resolve_reflection` uses: a signed x or y axis, or zero. */
  predicate AxisNormal(n: Vec3)
  {
    n == Vec3(1.0, 0.0, 0.0) || n == Vec3(-1.0, 0.0, 0.0)
    || n == Vec3(0.0, 1.0, 0.0) || n == Vec3(0.0, -1.0, 0.0) || n == Zero3
  }

  /**
   * About an axis normal the reflection negates the velocity along that
   * axis and keeps the other components; a zero normal keeps the velocity.
   */
  lemma ReflectAxis(v: Vec3, n: Vec3)
    requires AxisNormal(n)
    ensures n.x != 0.0 ==> Reflect3(v, n) == Vec3(-v.x, v.y, v.z)
    ensures n.y != 0.0 ==> Reflect3(v, n) == Vec3(v.x, -v.y, v.z)
    ensures n == Zero3 ==> Reflect3(v, n) == v
  {
  }

  /**
   * A zero time is infinite exactly when the body neither moves nor
   * accelerates along the axis and the gap is not closed; it lies in the
   * future (+∞) when the gap is negative and in the past (-∞) when it is
   * positive. It is NaN exactly for a closed gap without motion, or for an
   * acceleration whose quadratic has no real root.
   */
  lemma ZeroTimeStill(sqrt: real -> real, x: real, vel: real, accel: real)
    ensures ZeroTime(sqrt, x, vel, accel) == PosInf <==> accel == 0.0 && vel == 0.0 && x < 0.0
    ensures ZeroTime(sqrt, x, vel, accel) == NegInf <==> accel == 0.0 && vel == 0.0 && x > 0.0
    ensures ZeroTime(sqrt, x, vel, accel) == NaN <==>
      (accel == 0.0 && vel == 0.0 && x == 0.0) || (accel != 0.0 && vel * vel - 2.0 * accel * x < 0.0)
  {
  }

  /**
   * The contact `resolve_reflection` computes from the two world boxes and
   * the relative velocity and acceleration: the later of the earlier
   * per-axis zero times, with the normal of that axis. An axis without
   * motion has infinite zero times, and an overlapping pair's earlier one is
   * -∞, so the other axis decides. A NaN zero time takes part as std::min
   * and `<` treat it. None when the contact time is not a real number (NaN
   * or an infinity; +∞ lies ahead, which the source skips as well).
   */
  function ContactOf(sqrt: real -> real, a: Vec4, b: Vec4, vel: Vec3, accel: Vec3): Option<(real, Vec3)>
  {
    var x1, x2 := ZeroTime(sqrt, a.x - b.y, vel.x, accel.x), ZeroTime(sqrt, a.y - b.x, vel.x, accel.x);
    var y1, y2 := ZeroTime(sqrt, a.z - b.w, vel.y, accel.y), ZeroTime(sqrt, a.w - b.z, vel.y, accel.y);
    var txmin, tymin := MinTime(x1, x2), MinTime(y1, y2);
    if Before(txmin, tymin) then
      if tymin.Finite? then Some((tymin.t, Vec3(0.0, SignOfDiff(y1, y2), 0.0))) else None
    else
      if txmin.Finite? then Some((txmin.t, Vec3(SignOfDiff(x1, x2), 0.0, 0.0))) else None
  }

  /** The earlier zero time of the x axis (`txmin`). */
  function EarlierX(sqrt: real -> real, a: Vec4, b: Vec4, vel: Vec3, accel: Vec3): Time
  {
    MinTime(ZeroTime(sqrt, a.x - b.y, vel.x, accel.x), ZeroTime(sqrt, a.y - b.x, vel.x, accel.x))
  }

  /** The earlier zero time of the y axis (`tymin`). */
  function EarlierY(sqrt: real -> real, a: Vec4, b: Vec4, vel: Vec3, accel: Vec3): Time
  {
    MinTime(ZeroTime(sqrt, a.z - b.w, vel.y, accel.y), ZeroTime(sqrt, a.w - b.z, vel.y, accel.y))
  }

  /**
   * The contact time is the later of the two axes' earlier zero times, and
   * the normal is an axis normal along the axis that meets last. A NaN
   * `txmin` admits no contact; a NaN `tymin` leaves the contact to x.
   */
  lemma ContactFacts(sqrt: real -> real, a: Vec4, b: Vec4, vel: Vec3, accel: Vec3)
    requires ContactOf(sqrt, a, b, vel, accel).Some?
    ensures var (t, n) := ContactOf(sqrt, a, b, vel, accel).value;
      var tx, ty := EarlierX(sqrt, a, b, vel, accel), EarlierY(sqrt, a, b, vel, accel);
      && AxisNormal(n)
      && (tx == Finite(t) || ty == Finite(t))
      && !Before(Finite(t), tx) && !Before(Finite(t), ty)
      && (n.x != 0.0 ==> tx == Finite(t)) && (n.y != 0.0 ==> ty == Finite(t))
      && !tx.NaN?
      && (ty.NaN? ==> tx == Finite(t) && n.y == 0.0)
  {
  }

  /**
   * The contact is found exactly when the axis that decides has a real
   * earlier zero time: y's when x's is before it, x's otherwise.
   */
  lemma ContactFound(sqrt: real -> real, a: Vec4, b: Vec4, vel: Vec3, accel: Vec3)
    ensures var tx, ty := EarlierX(sqrt, a, b, vel, accel), EarlierY(sqrt, a, b, vel, accel);
      ContactOf(sqrt, a, b, vel, accel).Some? <==> (if Before(tx, ty) then ty.Finite? else tx.Finite?)
    // the chosen time is NaN exactly when `x_col.x` is
    ensures EarlierX(sqrt, a, b, vel, accel).NaN? <==> ZeroTime(sqrt, a.x - b.y, vel.x, accel.x).NaN?
  {
  }

  /**
   * An overlapping pair that neither moves nor accelerates relative to each
   * other along x, but moves along y without acceleration, meets along y:
   * the x axis's earlier zero time is -∞, so the contact is y's earlier
   * zero time with a y normal.
   */
  lemma StillAxisDefers(sqrt: real -> real, a: Vec4, b: Vec4, vel: Vec3, accel: Vec3)
    requires Intersects(a, b)
    requires vel.x == 0.0 && accel.x == 0.0 && accel.y == 0.0 && vel.y != 0.0
    ensures var y1, y2 := -(a.z - b.w) / vel.y, -(a.w - b.z) / vel.y;
      ContactOf(sqrt, a, b, vel, accel) == Some((Min(y1, y2), Vec3(0.0, Sign(y2 - y1), 0.0)))
  {
    assert ZeroTime(sqrt, a.x - b.y, vel.x, accel.x) == PosInf;
    assert ZeroTime(sqrt, a.y - b.x, vel.x, accel.x) == NegInf;
  }

  lemma SquareAtMost(r: real, k: real)
    requires 0.0 <= r <= k
    ensures r * r <= k * k
  {
    assert r * r <= r * k <= k * k;
  }

  /**
   * A NaN second zero time on x is passed over by std::min: boxes (0,2,0,1)
   * and (1,3,0.5,2) with relative velocity (-1,1) and acceleration (2,0)
   * have no real root for the right edge's gap, yet meet along y at -0.5
   * with the normal (0,-1).
   */
  lemma NaNPassedOver(sqrt: real -> real)
    requires IsSqrt(sqrt)
    ensures ZeroTime(sqrt, 2.0 - 1.0, -1.0, 2.0) == NaN
    ensures ContactOf(sqrt, Vec4(0.0, 2.0, 0.0, 1.0), Vec4(1.0, 3.0, 0.5, 2.0), Vec3(-1.0, 1.0, 0.0), Vec3(2.0, 0.0, 0.0))
      == Some((-0.5, Vec3(0.0, -1.0, 0.0)))
  {
    var r := sqrt(13.0);
    assert r * r == 13.0 && r >= 0.0;
    if r <= 3.0 {
      SquareAtMost(r, 3.0);
    }
    var x1 := ZeroTime(sqrt, 0.0 - 3.0, -1.0, 2.0);
    assert Swept.EntryExit(sqrt, 1.0, -1.0, -3.0) == Some(((1.0 - r) / 2.0, (1.0 + r) / 2.0));
    assert x1 == Finite((1.0 - r) / 2.0);
    assert ZeroTime(sqrt, 0.0 - 2.0, 1.0, 0.0) == Finite(2.0);
    assert ZeroTime(sqrt, 1.0 - 0.5, 1.0, 0.0) == Finite(-0.5);
  }

  /**
   * What `resolve_reflection` does to the velocity: run back to the contact
   * time t (t <= 0), reflect there, and run forward again by -t.
   */
  function Rebounded(v: Vec3, accel: Vec3, t: real, n: Vec3): Vec3
  {
    Accelerated(Reflect3(Accelerated(v, accel, t), n), accel, -t)
  }

  /** Without acceleration the rebound is the plain reflection, whatever the contact time. */
  lemma ReboundUnaccelerated(v: Vec3, t: real, n: Vec3)
    requires AxisNormal(n)
    ensures Rebounded(v, Zero3, t, n) == Reflect3(v, n)
    ensures n.x != 0.0 ==> Rebounded(v, Zero3, t, n) == Vec3(-v.x, v.y, v.z)
    ensures n.y != 0.0 ==> Rebounded(v, Zero3, t, n) == Vec3(v.x, -v.y, v.z)
  {
    Unaccelerated(v, t);
    Unaccelerated(Reflect3(v, n), -t);
    ReflectAxis(v, n);
  }

  /** `get_lrbt` of an entity's box under its transform. */
  function Bounds(ts: map<Entity, C.Transform>, bs: map<Entity, BoundingShape>, e: Entity): Vec4
    requires e in ts && e in bs
  {
    Lrbt(bs[e], ts[e])
  }

  /** The world box of every entity with a transform and a box. */
  function WorldBoxes(ts: map<Entity, C.Transform>, bs: map<Entity, BoundingShape>): (wb: map<Entity, Vec4>)
    ensures forall e :: e in wb <==> e in ts && e in bs
  {
    map e | e in ts && e in bs :: Lrbt(bs[e], ts[e])
  }

  /** Every entity of `view` has a world box. */
  predicate AllPlaced(wb: map<Entity, Vec4>, view: seq<Entity>)
  {
    forall k :: 0 <= k < |view| ==> view[k] in wb
  }

  /** The calls `resolve_collisions(main, other)` makes, given the world boxes. */
  function PairCalls(wb: map<Entity, Vec4>, main: Entity, other: Entity): seq<(Entity, Entity)>
    requires main in wb && other in wb
  {
    if main == other then []
    else if Intersects(wb[main], wb[other]) then [(main, other), (other, main)]
    else []
  }

  /**
   * A pair fires both callbacks, each with itself first, exactly when the
   * two are different and their boxes intersect; the test is the same
   * either way round.
   */
  lemma PairCallsFacts(wb: map<Entity, Vec4>, main: Entity, other: Entity)
    requires main in wb && other in wb
    ensures |PairCalls(wb, main, other)| == 0 || |PairCalls(wb, main, other)| == 2
    ensures PairCalls(wb, main, other) != [] <==> main != other && Intersects(wb[main], wb[other])
    ensures PairCalls(wb, main, other) != [] ==> PairCalls(wb, main, other) == [(main, other), (other, main)]
    ensures PairCalls(wb, other, main) != [] <==> PairCalls(wb, main, other) != []
  {
    IntersectsShared(wb[main], wb[other]);
  }

  /** The calls of the first n steps of `resolve_collisions(main)`'s loop over `view`. */
  function Sweep(wb: map<Entity, Vec4>, main: Entity, view: seq<Entity>, n: nat): seq<(Entity, Entity)>
    requires n <= |view| && main in wb && AllPlaced(wb, view)
    decreases n
  {
    if n == 0 then [] else Sweep(wb, main, view, n - 1) + PairCalls(wb, main, view[n - 1])
  }

  /** `resolve_collisions(main)` never pairs an entity with itself. */
  lemma {:induction false} SweepApart(wb: map<Entity, Vec4>, main: Entity, view: seq<Entity>, n: nat)
    requires n <= |view| && main in wb && AllPlaced(wb, view)
    ensures forall c :: c in Sweep(wb, main, view, n) ==> c.0 != c.1
  {
    if n > 0 {
      SweepApart(wb, main, view, n - 1);
      PairCallsFacts(wb, main, view[n - 1]);
    }
  }

  /**
   * `resolve_collisions(main)` answers every call (x, y) with the call
   * (y, x), and reaches `other` exactly when `other` is one of the entities
   * visited, is not `main` and overlaps it.
   */
  lemma {:induction false} SweepFacts(wb: map<Entity, Vec4>, main: Entity, view: seq<Entity>, n: nat)
    requires n <= |view| && main in wb && AllPlaced(wb, view)
    ensures forall c :: c in Sweep(wb, main, view, n) ==>
      (c.0 == main || c.1 == main) && (c.1, c.0) in Sweep(wb, main, view, n)
    ensures forall k :: 0 <= k < |view| ==>
      ((main, view[k]) in Sweep(wb, main, view, n) <==>
        view[k] in view[..n] && view[k] != main && Intersects(wb[main], wb[view[k]]))
  {
    if n > 0 {
      SweepFacts(wb, main, view, n - 1);
      var w := view[n - 1];
      PairCallsFacts(wb, main, w);
      assert view[..n] == view[..n - 1] + [w];
    }
  }

  /** The calls of the first n rounds of `resolve_collisions()`: each of `mains` against `view`. */
  function Rounds(wb: map<Entity, Vec4>, mains: seq<Entity>, view: seq<Entity>, n: nat): seq<(Entity, Entity)>
    requires n <= |mains| && AllPlaced(wb, mains) && AllPlaced(wb, view)
    decreases n
  {
    if n == 0 then []
    else Rounds(wb, mains, view, n - 1) + Sweep(wb, mains[n - 1], view, |view|)
  }

  /** The calls logged after round n of `resolve_collisions()` are those before it and its sweep. */
  lemma RoundsNext(log: seq<(Entity, Entity)>, wb: map<Entity, Vec4>, mains: seq<Entity>, view: seq<Entity>, n: nat)
    requires n < |mains| && AllPlaced(wb, mains) && AllPlaced(wb, view)
    ensures log + Rounds(wb, mains, view, n + 1) == (log + Rounds(wb, mains, view, n)) + Sweep(wb, mains[n], view, |view|)
  {
    Appended(log, Rounds(wb, mains, view, n), Sweep(wb, mains[n], view, |view|));
  }

  /** `resolve_collisions()` never pairs an entity with itself. */
  lemma {:induction false} RoundsApart(wb: map<Entity, Vec4>, mains: seq<Entity>, view: seq<Entity>, n: nat)
    requires n <= |mains| && AllPlaced(wb, mains) && AllPlaced(wb, view)
    ensures forall c :: c in Rounds(wb, mains, view, n) ==> c.0 != c.1
  {
    if n > 0 {
      var prev, sweep := Rounds(wb, mains, view, n - 1), Sweep(wb, mains[n - 1], view, |view|);
      RoundsApart(wb, mains, view, n - 1);
      SweepApart(wb, mains[n - 1], view, |view|);
      assert Rounds(wb, mains, view, n) == prev + sweep;
      forall c: (Entity, Entity) | c in prev + sweep
        ensures c.0 != c.1
      {
        if c !in prev {
          assert c in sweep;
        }
      }
    }
  }

  /**
   * In `resolve_collisions()` each moving body's callback hears of every
   * other body of the view its box overlaps.
   */
  lemma {:induction false} RoundsCover(wb: map<Entity, Vec4>, mains: seq<Entity>, view: seq<Entity>, n: nat)
    requires n <= |mains| && AllPlaced(wb, mains) && AllPlaced(wb, view)
    ensures forall j, k :: 0 <= j < n && 0 <= k < |view| && view[k] != mains[j]
              && Intersects(wb[mains[j]], wb[view[k]])
              ==> (mains[j], view[k]) in Rounds(wb, mains, view, n)
  {
    if n > 0 {
      var main := mains[n - 1];
      var prev, sweep := Rounds(wb, mains, view, n - 1), Sweep(wb, main, view, |view|);
      RoundsCover(wb, mains, view, n - 1);
      assert Rounds(wb, mains, view, n) == prev + sweep;
      forall j, k | 0 <= j < n && 0 <= k < |view| && view[k] != mains[j] && Intersects(wb[mains[j]], wb[view[k]])
        ensures (mains[j], view[k]) in prev + sweep
      {
        if j < n - 1 {
          assert (mains[j], view[k]) in prev;
        } else {
          SweepReaches(wb, main, view, k);
        }
      }
    }
  }

  /** A full sweep of `main` reaches every other entity of `view` its box overlaps. */
  lemma SweepReaches(wb: map<Entity, Vec4>, main: Entity, view: seq<Entity>, k: nat)
    requires main in wb && AllPlaced(wb, view) && k < |view|
    requires view[k] != main && Intersects(wb[main], wb[view[k]])
    ensures (main, view[k]) in Sweep(wb, main, view, |view|)
  {
    SweepFacts(wb, main, view, |view|);
    assert view[..|view|] == view;
  }

  /** Velocities after one step of length dt for the entities of `moved`; the others keep theirs. */
  function Advance(vs: map<Entity, Vec3>, acc: map<Entity, Vec3>, moved: set<Entity>, dt: real): (r: map<Entity, Vec3>)
    ensures r.Keys == vs.Keys
    ensures forall e :: e in vs && e !in moved ==> r[e] == vs[e]
  {
    map e | e in vs :: if e in moved && e in acc then Accelerated(vs[e], acc[e], dt) else vs[e]
  }

  /** Transforms after one step of length dt for the entities of `moved`; the others stay put. */
  function Carried(ts: map<Entity, C.Transform>, vs: map<Entity, Vec3>, acc: map<Entity, Vec3>,
                   moved: set<Entity>, dt: real): (r: map<Entity, C.Transform>)
    ensures r.Keys == ts.Keys
    ensures forall e :: e in ts && e !in moved ==> r[e] == ts[e]
  {
    map e | e in ts :: if e in moved && e in vs && e in acc then C.Translated(ts[e], Shift(vs[e], acc[e], dt)) else ts[e]
  }

  lemma AdvanceStep(vs: map<Entity, Vec3>, acc: map<Entity, Vec3>, moved: set<Entity>, e: Entity, dt: real)
    requires e in vs && e in acc
    ensures Advance(vs, acc, moved + {e}, dt) == Advance(vs, acc, moved, dt)[e := Accelerated(vs[e], acc[e], dt)]
  {
  }

  lemma CarriedStep(ts: map<Entity, C.Transform>, vs: map<Entity, Vec3>, acc: map<Entity, Vec3>,
                    moved: set<Entity>, e: Entity, dt: real)
    requires e in ts && e in vs && e in acc
    ensures Carried(ts, vs, acc, moved + {e}, dt) == Carried(ts, vs, acc, moved, dt)[e := C.Translated(ts[e], Shift(vs[e], acc[e], dt))]
  {
  }

  /** Appending the calls of one more step to a log: concatenation is associative. */
  lemma Appended(log: seq<(Entity, Entity)>, done: seq<(Entity, Entity)>, more: seq<(Entity, Entity)>)
    ensures (log + done) + more == log + (done + more)
  {
  }

  /** The entities among the first n of `view`. */
  function Seen(view: seq<Entity>, n: nat): (s: set<Entity>)
    requires n <= |view|
  {
    set k | 0 <= k < n :: view[k]
  }

  /** Visiting one more entity adds it, and a view of distinct entities has not seen it yet. */
  lemma SeenStep(view: seq<Entity>, n: nat)
    requires n <= |view|
    ensures n < |view| ==> Seen(view, n + 1) == Seen(view, n) + {view[n]}
    ensures n < |view| && EntityRegistry.Distinct(view) ==> view[n] !in Seen(view, n)
    ensures n == |view| ==> Seen(view, n) == set x | x in view
  {
    if n == |view| {
      forall x | x in view
        ensures x in Seen(view, n)
      {
        var k :| 0 <= k < |view| && view[k] == x;
      }
    }
  }

  class World {
    var entities: seq<Entity>
    var transforms: map<Entity, C.Transform>
    var boxes: map<Entity, BoundingShape>
    var motions: map<Entity, Motion>
    /** The callback calls (self, other) in the order they fired. */
    var calls: seq<(Entity, Entity)>

    constructor ()
      ensures entities == [] && transforms == map[] && boxes == map[] && motions == map[]
      ensures calls == []
    {
      entities, transforms, boxes, motions, calls := [], map[], map[], map[], [];
    }

    /**
     * Each entity is live once, components belong to live entities, and no
     * two entities share a Motion.
     */
    ghost predicate Valid()
      reads this
    {
      && EntityRegistry.Distinct(entities)
      && (forall e :: e in transforms ==> e in entities)
      && (forall e :: e in boxes ==> e in entities)
      && (forall e :: e in motions ==> e in entities)
      && MotionsApart()
    }

    /** No two entities share a Motion. */
    ghost predicate MotionsApart()
      reads this`motions
    {
      forall e1, e2 :: e1 in motions && e2 in motions && e1 != e2 ==> motions[e1] != motions[e2]
    }

    /** `view<Transform, Motion>`. */
    function Movers(): (v: seq<Entity>)
      reads this`entities, this`transforms, this`motions
      ensures forall e :: e in v <==> e in entities && e in transforms && e in motions
    {
      EntityRegistry.Having(entities, transforms.Keys * motions.Keys)
    }

    /** `view<Transform, Boundingbox2D>`. */
    function Touchables(): (v: seq<Entity>)
      reads this`entities, this`transforms, this`boxes
      ensures forall e :: e in v <==> e in entities && e in transforms && e in boxes
      ensures forall k :: 0 <= k < |v| ==> v[k] in transforms && v[k] in boxes
    {
      var v := EntityRegistry.Having(entities, transforms.Keys * boxes.Keys);
      assert forall k :: 0 <= k < |v| ==> v[k] in v;
      v
    }

    /** `view<Motion, Transform, Boundingbox2D>`. */
    function Colliders(): (v: seq<Entity>)
      reads this`entities, this`transforms, this`boxes, this`motions
      ensures forall e :: e in v <==> e in entities && e in motions && e in transforms && e in boxes
      ensures forall k :: 0 <= k < |v| ==> v[k] in transforms && v[k] in boxes
    {
      var v := EntityRegistry.Having(entities, motions.Keys * transforms.Keys * boxes.Keys);
      assert forall k :: 0 <= k < |v| ==> v[k] in v;
      v
    }

    /** The entities `resolve_motion` moves: those with a transform and a Motion. */
    function Moving(): (s: set<Entity>)
      reads this`entities, this`transforms, this`motions
      ensures forall e :: e in s <==> e in entities && e in transforms && e in motions
    {
      set e | e in entities && e in transforms && e in motions
    }

    /** The velocity of every Motion. */
    ghost function Velocities(): (m: map<Entity, Vec3>)
      reads this`motions, motions.Values
      ensures m.Keys == motions.Keys
    {
      map e | e in motions :: motions[e].velocity
    }

    /** The acceleration of every Motion. */
    ghost function Accelerations(): (m: map<Entity, Vec3>)
      reads this`motions, motions.Values
      ensures m.Keys == motions.Keys
    {
      map e | e in motions :: motions[e].acceleration
    }

    /**
     * `resolve_collisions(main, other)`: a no-op for an entity against itself;
     * otherwise both callbacks fire exactly when the world boxes intersect.
     */
    method ResolvePair(main: Entity, other: Entity)
      requires main in transforms && main in boxes && other in transforms && other in boxes
      modifies this`calls
      ensures calls == old(calls) + PairCalls(WorldBoxes(transforms, boxes), main, other)
    {
      ghost var wb := WorldBoxes(transforms, boxes);
      if main == other {
        return;
      }
      var mLrbt := Bounds(transforms, boxes, main);
      var oLrbt := Bounds(transforms, boxes, other);
      assert mLrbt == wb[main] && oLrbt == wb[other];
      if Intersects(mLrbt, oLrbt) {
        calls := calls + [(main, other)];
        calls := calls + [(other, main)];
      }
    }

    /** `resolve_collisions(main)`: the pair test against every body with a box. */
    method ResolveFrom(main: Entity)
      requires main in transforms && main in boxes
      modifies this`calls
      ensures calls == old(calls) + Sweep(WorldBoxes(transforms, boxes), main, Touchables(), |Touchables()|)
    {
      ghost var wb := WorldBoxes(transforms, boxes);
      var mLrbt := Bounds(transforms, boxes, main);
      assert mLrbt == wb[main];
      var view := Touchables();
      assert AllPlaced(wb, view);
      for i := 0 to |view|
        invariant wb == WorldBoxes(transforms, boxes) && view == Touchables() && AllPlaced(wb, view)
        invariant calls == old(calls) + Sweep(wb, main, view, i)
      {
        ghost var done := Sweep(wb, main, view, i);
        SweepStep(main, mLrbt, view[i]);
        assert Sweep(wb, main, view, i + 1) == done + PairCalls(wb, main, view[i]);
        Appended(old(calls), done, PairCalls(wb, main, view[i]));
      }
    }

    /**
     * The body of `resolve_collisions(main)`'s loop, with main's world box
     * `mLrbt` computed once before the loop.
     */
    method SweepStep(main: Entity, mLrbt: Vec4, other: Entity)
      requires main in transforms && main in boxes && other in transforms && other in boxes
      requires mLrbt == Bounds(transforms, boxes, main)
      modifies this`calls
      ensures calls == old(calls) + PairCalls(WorldBoxes(transforms, boxes), main, other)
    {
      ghost var wb := WorldBoxes(transforms, boxes);
      if main != other {
        var oLrbt := Bounds(transforms, boxes, other);
        assert mLrbt == wb[main] && oLrbt == wb[other];
        if Intersects(mLrbt, oLrbt) {
          calls := calls + [(main, other)];
          calls := calls + [(other, main)];
        }
      }
    }

    /** `resolve_collisions()`: every moving body with a box against every body with a box. */
    method ResolveAll()
      modifies this`calls
      ensures calls == old(calls) + Rounds(WorldBoxes(transforms, boxes), Colliders(), Touchables(), |Colliders()|)
    {
      ghost var wb := WorldBoxes(transforms, boxes);
      var view := Colliders();
      ghost var touchable := Touchables();
      assert AllPlaced(wb, view) && AllPlaced(wb, touchable);
      for i := 0 to |view|
        invariant wb == WorldBoxes(transforms, boxes) && view == Colliders() && touchable == Touchables()
        invariant AllPlaced(wb, view) && AllPlaced(wb, touchable)
        invariant calls == old(calls) + Rounds(wb, view, touchable, i)
      {
        ResolveFrom(view[i]);
        RoundsNext(old(calls), wb, view, touchable, i);
      }
    }

    /**
     * `resolve_motion(dt)`: every body with a transform and a Motion moves by
     * its `update(dt)` shift and its velocity advances; nothing else changes.
     */
    method ResolveMotion(dt: real)
      requires Valid()
      modifies this`transforms, motions.Values
      ensures transforms.Keys == old(transforms).Keys
      ensures Accelerations() == old(Accelerations())
      ensures Velocities() == Advance(old(Velocities()), old(Accelerations()), Moving(), dt)
      ensures transforms == Carried(old(transforms), old(Velocities()), old(Accelerations()), Moving(), dt)
    {
      var view := Movers();
      EntityRegistry.HavingDistinct(entities, transforms.Keys * motions.Keys);
      ghost var goal := Moving();
      assert (set x | x in view) == goal;
      MoveAll(view, dt);
    }

    /** The loop of `resolve_motion` over the entities of `view`, each visited once. */
    method MoveAll(view: seq<Entity>, dt: real)
      requires MotionsApart() && EntityRegistry.Distinct(view)
      requires forall k :: 0 <= k < |view| ==> view[k] in transforms && view[k] in motions
      modifies this`transforms, motions.Values
      ensures transforms.Keys == old(transforms).Keys
      ensures Accelerations() == old(Accelerations())
      ensures Velocities() == Advance(old(Velocities()), old(Accelerations()), (set x | x in view), dt)
      ensures transforms == Carried(old(transforms), old(Velocities()), old(Accelerations()), (set x | x in view), dt)
    {
      ghost var v0, a0, t0 := Velocities(), Accelerations(), transforms;
      for i := 0 to |view|
        invariant Accelerations() == a0
        invariant Velocities() == Advance(v0, a0, Seen(view, i), dt)
        invariant transforms == Carried(t0, v0, a0, Seen(view, i), dt)
      {
        var e := view[i];
        SeenStep(view, i);
        AdvanceStep(v0, a0, Seen(view, i), e, dt);
        CarriedStep(t0, v0, a0, Seen(view, i), e, dt);
        MoveOne(e, dt);
      }
      SeenStep(view, |view|);
    }

    /** One step of `resolve_motion`'s loop: `e` moves by its `update(dt)` shift. */
    method MoveOne(e: Entity, dt: real)
      requires MotionsApart() && e in transforms && e in motions
      modifies this`transforms, motions[e]
      ensures Accelerations() == old(Accelerations())
      ensures Velocities() == old(Velocities())[e := Accelerated(old(motions[e].velocity), old(motions[e].acceleration), dt)]
      ensures transforms == old(transforms)[e := C.Translated(old(transforms)[e], Shift(old(motions[e].velocity), old(motions[e].acceleration), dt))]
    {
      var m := motions[e];
      var shift := m.Update(dt);
      transforms := transforms[e := C.Translated(transforms[e], shift)];
      assert forall x :: x in motions && x != e ==> motions[x] != m;
    }

    /**
     * `resolve_reflection(a, b)`: with the velocity and acceleration of `a`
     * relative to `b`, find the contact; if it lies ahead (t > 0) nothing
     * changes, otherwise `a` runs back to the contact, its velocity is
     * reflected about the contact normal, and it runs forward again.
     */
    method ResolveReflection(sqrt: real -> real, a: Entity, b: Entity)
      requires Valid()
      requires a in transforms && a in boxes && a in motions && b in transforms && b in boxes
      modifies this`transforms, motions[a]
      ensures transforms.Keys == old(transforms).Keys
      ensures forall e :: e in transforms && e != a ==> transforms[e] == old(transforms)[e]
      ensures motions[a].acceleration == old(motions[a].acceleration)
      ensures var rel := if b in motions then Sub3(old(motions[a].velocity), old(motions[b].velocity)) else old(motions[a].velocity);
        var relA := if b in motions then Sub3(old(motions[a].acceleration), old(motions[b].acceleration)) else old(motions[a].acceleration);
        var contact := ContactOf(sqrt, old(Bounds(transforms, boxes, a)), old(Bounds(transforms, boxes, b)), rel, relA);
        var v0, acc := old(motions[a].velocity), old(motions[a].acceleration);
        if contact.None? || contact.value.0 > 0.0 then
          transforms[a] == old(transforms)[a] && motions[a].velocity == v0
        else
          var (t, n) := contact.value;
          var v1 := Reflect3(Accelerated(v0, acc, t), n);
          && motions[a].velocity == Rebounded(v0, acc, t, n)
          && transforms[a] == C.Translated(C.Translated(old(transforms)[a], Shift(v0, acc, t)), Shift(v1, acc, -t))
    {
      var aLrbt := Lrbt(boxes[a], transforms[a]);
      var bLrbt := Lrbt(boxes[b], transforms[b]);
      var vel, accel := motions[a].velocity, motions[a].acceleration;
      if b in motions {
        vel := Sub3(vel, motions[b].velocity);
        accel := Sub3(accel, motions[b].acceleration);
      }
      var contact := ContactOf(sqrt, aLrbt, bLrbt, vel, accel);
      if contact.None? {
        return;
      }
      var (t, normal) := contact.value;
      if t > 0.0 {
        return;
      }
      Rebound(a, t, normal);
    }

    /**
     * The last three lines of `resolve_reflection`: `a` runs back to the
     * contact time t (t <= 0), its velocity is reflected about `normal`, and
     * it runs forward by -t.
     */
    method Rebound(a: Entity, t: real, normal: Vec3)
      requires a in transforms && a in motions
      modifies this`transforms, motions[a]
      ensures transforms.Keys == old(transforms).Keys
      ensures forall e :: e in transforms && e != a ==> transforms[e] == old(transforms)[e]
      ensures motions[a].acceleration == old(motions[a].acceleration)
      ensures var v0, acc := old(motions[a].velocity), old(motions[a].acceleration);
        var v1 := Reflect3(Accelerated(v0, acc, t), normal);
        && motions[a].velocity == Rebounded(v0, acc, t, normal)
        && transforms[a] == C.Translated(C.Translated(old(transforms)[a], Shift(v0, acc, t)), Shift(v1, acc, -t))
    {
      var ma := motions[a];
      var there := ma.Update(t);
      transforms := transforms[a := C.Translated(transforms[a], there)];
      ma.velocity := Sub3(ma.velocity, Scale3(2.0 * Dot3(normal, ma.velocity), normal));
      var back := ma.Update(-t);
      transforms := transforms[a := C.Translated(transforms[a], back)];
    }
  }
}
