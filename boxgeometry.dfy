/**
 * The renderer's own axis-aligned box, Component::BoundingBox2D: in-place
 * translations, overlap and distance queries, and the parameter at which a
 * point, a circle or an axis-scaled circle moving along a ray meets the
 * box. A hit carries the reflection matrix of the surface normal it met.
 *
 * `HitResult::update` is modelled as the (position, normal, parameter, hit)
 * constructor; the tolerance `epsilon` is a parameter.
 */
module BoxGeometry {
  import opened Geometry
  import opened Wrappers
  import Swept
  import Response

  /** glm::mat2, column-major: `c0` is m[0] and `c1` is m[1]. */
  datatype Mat2 = Mat2(c0: Vec2, c1: Vec2)

  /** The matrix-vector product m * v. */
  function Apply(m: Mat2, v: Vec2): Vec2
  {
    Vec2(m.c0.x * v.x + m.c1.x * v.y, m.c0.y * v.x + m.c1.y * v.y)
  }

  datatype HitResult = HitResult(position: Vec2, reflection: Mat2, parameter: real, hit: bool)

  /** The default HitResult: no hit, at the origin, with the identity matrix. */
  function NoHit(): (r: HitResult)
    ensures !r.hit && r.parameter == 0.0 && r.position == Zero2
    ensures forall v :: Apply(r.reflection, v) == v
  {
    HitResult(Zero2, Mat2(Vec2(1.0, 0.0), Vec2(0.0, 1.0)), 0.0, false)
  }

  /**
   * The matrix s sᵀ - n nᵀ built from a normal n and its clockwise turn
   * s = (n.y, -n.x). Its two off-diagonal entries are the same expression.
   */
  function Reflection(n: Vec2): (m: Mat2)
    ensures m.c1.x == m.c0.y
  {
    var s := Vec2(n.y, -n.x);
    Mat2(Vec2(s.x * s.x - n.x * n.x, s.x * s.y - n.x * n.y),
         Vec2(s.x * s.y - n.x * n.y, s.y * s.y - n.y * n.y))
  }

  /** The constructor HitResult(pos, n, t, b), also what `update` stores. */
  function FromNormal(pos: Vec2, n: Vec2, t: real, b: bool): HitResult
  {
    HitResult(pos, Reflection(n), t, b)
  }

  /**
   * For a unit normal the matrix is the mirror v - 2 (n . v) n of the
   * collision response: it sends n to -n and fixes s.
   */
  lemma ReflectionIsMirror(n: Vec2, v: Vec2)
    requires Dot(n, n) == 1.0
    ensures Apply(Reflection(n), v) == Response.Reflect(n, v)
    ensures Apply(Reflection(n), n) == Neg(n)
    ensures Apply(Reflection(n), Response.Perp(n)) == Response.Perp(n)
  {
    ReflectionApply(n, v);
    ReflectionApply(n, n);
    ReflectionApply(n, Response.Perp(n));
    Response.ReflectIsMirror(n, n);
    assert Response.Reflect(n, n) == Neg(n);
    assert Dot(n, Response.Perp(n)) == 0.0;
  }

  lemma ReflectionApply(n: Vec2, w: Vec2)
    requires Dot(n, n) == 1.0
    ensures Apply(Reflection(n), w) == Response.Reflect(n, w)
  {
    var x, y := n.x, n.y;
    var m, r := Reflection(n), Response.Reflect(n, w);
    ReflectionEntries(n);
    MirrorRowX(x, y, w.x, w.y);
    MirrorRowY(x, y, w.x, w.y);
    assert Apply(m, w).x == r.x;
    assert Apply(m, w).y == r.y;
  }

  /** The entries of the matrix, with s = (n.y, -n.x) written out. */
  lemma ReflectionEntries(n: Vec2)
    ensures var x, y := n.x, n.y;
      Reflection(n) == Mat2(Vec2(y * y - x * x, y * -x - x * y), Vec2(y * -x - x * y, -x * -x - y * y))
  {
  }

  /** The first row of the matrix applied to (u, v), for x^2 + y^2 = 1. */
  lemma MirrorRowX(x: real, y: real, u: real, v: real)
    requires x * x + y * y == 1.0
    ensures (y * y - x * x) * u + (y * -x - x * y) * v == u - 2.0 * (x * u + y * v) * x
  {
    calc {
      (y * y - x * x) * u + (y * -x - x * y) * v;
      (1.0 - 2.0 * x * x) * u - 2.0 * x * y * v;
      u - 2.0 * (x * u + y * v) * x;
    }
  }

  /** The second row of the matrix applied to (u, v), for x^2 + y^2 = 1. */
  lemma MirrorRowY(x: real, y: real, u: real, v: real)
    requires x * x + y * y == 1.0
    ensures (y * -x - x * y) * u + (-x * -x - y * y) * v == v - 2.0 * (x * u + y * v) * y
  {
    calc {
      (y * -x - x * y) * u + (-x * -x - y * y) * v;
      -2.0 * x * y * u + (1.0 - 2.0 * y * y) * v;
      v - 2.0 * (x * u + y * v) * y;
    }
  }

  /** glm's bool-to-float conversion. */
  function B(b: bool): real { if b then 1.0 else 0.0 }

  /** Which sides of the box a point lies strictly beyond (the source's `b_lrbt`). */
  datatype Sides = Sides(l: bool, r: bool, b: bool, t: bool)

  /** An independent clamp of x into [lo, hi]. */
  function Clamp(x: real, lo: real, hi: real): real
  {
    Max(lo, Min(x, hi))
  }

  /**
   * internal_collision: a point beyond no side is inside the closed box and
   * hits at parameter 0, where it stands, with the normal against `dir`.
   */
  function InternalCollision(f: Sides, origin: Vec2, dir: Vec2, sqrt: real -> real): (r: Option<HitResult>)
    ensures r.Some? <==> !f.l && !f.r && !f.b && !f.t
    ensures r.Some? ==> r.value.hit && r.value.parameter == 0.0 && r.value.position == origin
  {
    if !f.l && !f.r && !f.b && !f.t then Some(FromNormal(origin, Normalize(sqrt, Neg(dir)), 0.0, true))
    else None
  }

  /**
   * The root the corner test takes: the smaller root of a t^2 + b t + c,
   * accepted only when the discriminant is not negative, a exceeds epsilon
   * and b < 0. It is the entry root the swept solvers compute.
   */
  function CornerRoot(sqrt: real -> real, a: real, b: real, c: real, epsilon: real): (t: Option<real>)
    requires epsilon >= 0.0
    ensures t.Some? ==> a > 0.0 && b < 0.0
    ensures t.Some? ==> Swept.EntryExit(sqrt, a, b, c).Some? && t.value == Swept.EntryExit(sqrt, a, b, c).value.0
  {
    var disc := b * b - 4.0 * a * c;
    if disc >= 0.0 && a > epsilon && b < 0.0 then Some((-b - sqrt(disc)) / (2.0 * a))
    else None
  }

  /**
   * corner_collision: the smaller root t of |origin + t dir - corner| = radius,
   * reported only when the quadratic has a real root, its leading
   * coefficient exceeds epsilon and the ray heads towards the corner.
   */
  function CornerCollision(corner: Vec2, origin: Vec2, radius: real, dir: Vec2,
                           epsilon: real, sqrt: real -> real): (r: Option<HitResult>)
    requires epsilon >= 0.0
    ensures r.Some? ==> r.value.hit && r.value.position == Add(origin, Scale(r.value.parameter, dir))
    ensures r.Some? ==> Dot(Sub(origin, corner), dir) < 0.0
  {
    var p := Sub(origin, corner);
    match CornerRoot(sqrt, Dot(dir, dir), 2.0 * Dot(p, dir), Dot(p, p) - radius * radius, epsilon)
    case None => None
    case Some(t) =>
      var q := Add(origin, Scale(t, dir));
      Some(FromNormal(q, Normalize(sqrt, Sub(q, corner)), t, true))
  }

  /**
   * A reported corner hit is the first time the moving point is at distance
   * `radius` from the corner: it is there at the reported parameter and
   * farther away at every earlier one.
   */
  lemma CornerCollisionTouch(corner: Vec2, origin: Vec2, radius: real, dir: Vec2,
                             epsilon: real, sqrt: real -> real, s: real)
    requires epsilon >= 0.0 && IsSqrt(sqrt)
    requires CornerCollision(corner, origin, radius, dir, epsilon, sqrt).Some?
    ensures var h := CornerCollision(corner, origin, radius, dir, epsilon, sqrt).value;
      && Dot(Sub(h.position, corner), Sub(h.position, corner)) == radius * radius
      && (s < h.parameter ==>
            var q := Add(origin, Scale(s, dir));
            Dot(Sub(q, corner), Sub(q, corner)) > radius * radius)
  {
    var h := CornerCollision(corner, origin, radius, dir, epsilon, sqrt).value;
    var p := Sub(origin, corner);
    var root := CornerRoot(sqrt, Dot(dir, dir), 2.0 * Dot(p, dir), Dot(p, p) - radius * radius, epsilon);
    assert root == Some(h.parameter);
    assert Sub(dir, Zero2) == dir;
    assert Swept.CirclePoint(sqrt, corner, Zero2, radius, origin, dir) == Some(h.parameter);
    Swept.CirclePointTouch(sqrt, corner, Zero2, radius, origin, dir, s);
    GapAt(corner, origin, dir, h.parameter);
    GapAt(corner, origin, dir, s);
  }

  /** The swept solvers' gap, seen from a still corner, is the ray point minus the corner. */
  lemma GapAt(corner: Vec2, origin: Vec2, dir: Vec2, s: real)
    ensures Swept.Gap(corner, Zero2, origin, dir, s) == Sub(Add(origin, Scale(s, dir)), corner)
  {
  }

  /** The x-scale that turns an axis-scaled radius into the circle of radius `radius.y`. */
  function Aspect(radius: Vec2): Vec2
    requires radius.x != 0.0 && radius.y != 0.0
  {
    Vec2(radius.y / radius.x, radius.y / radius.y)
  }

  class BoundingBox2D {
    var left: real
    var right: real
    var bottom: real
    var top: real

    /** The default box: all four edges at 0. */
    constructor ()
      ensures left == 0.0 && right == 0.0 && bottom == 0.0 && top == 0.0
    {
      left, right, bottom, top := 0.0, 0.0, 0.0, 0.0;
    }

    constructor FromEdges(l: real, r: real, b: real, t: real)
      ensures left == l && right == r && bottom == b && top == t
    {
      left, right, bottom, top := l, r, b, t;
    }

    /** A box with its lower-left corner at `position` and the given size. */
    constructor FromCorner(position: Vec2, size: Vec2)
      ensures left == position.x && bottom == position.y
      ensures Width() == size.x && Height() == size.y
    {
      left, right := position.x, position.x + size.x;
      bottom, top := position.y, position.y + size.y;
    }

    function Width(): real reads this { right - left }
    function Height(): real reads this { top - bottom }
    function Center(): Vec2 reads this { Vec2((left + right) / 2.0, (bottom + top) / 2.0) }

    method TranslateBy(v: Vec2)
      modifies this
      ensures left == old(left) + v.x && right == old(right) + v.x
      ensures bottom == old(bottom) + v.y && top == old(top) + v.y
      ensures Width() == old(Width()) && Height() == old(Height())
    {
      left := left + v.x;
      right := right + v.x;
      bottom := bottom + v.y;
      top := top + v.y;
    }

    /** Moves the box so that its center is p, keeping its size. */
    method TranslateCenterTo(p: Vec2)
      modifies this
      ensures Width() == old(Width()) && Height() == old(Height())
      ensures Center() == p
    {
      var w, h := right - left, top - bottom;
      left := p.x - 0.5 * w;
      right := p.x + 0.5 * w;
      bottom := p.y - 0.5 * h;
      top := p.y + 0.5 * h;
    }

    /** Moves the box so that its lower-left corner is p, keeping its size. */
    method TranslateLbTo(p: Vec2)
      modifies this
      ensures left == p.x && bottom == p.y
      ensures Width() == old(Width()) && Height() == old(Height())
    {
      right := p.x + right - left;
      top := p.y + top - bottom;
      left := p.x;
      bottom := p.y;
    }

    /** Strict overlap of two boxes. */
    predicate Collides(other: BoundingBox2D)
      reads this, other
    {
      (left < other.right && other.left < right) && (bottom < other.top && other.bottom < top)
    }

    /** The point lies strictly inside the box. */
    predicate CollidesPoint(point: Vec2)
      reads this
    {
      (left < point.x && point.x < right) && (bottom < point.y && point.y < top)
    }

    /** The point lies inside the box or on its edges. */
    predicate InClosed(point: Vec2)
      reads this
    {
      left <= point.x <= right && bottom <= point.y <= top
    }

    /** The point lies on an edge of the box, strictly between its ends. */
    predicate OnEdge(p: Vec2)
      reads this
    {
      || (left < p.x < right && (p.y == bottom || p.y == top))
      || (bottom < p.y < top && (p.x == left || p.x == right))
    }

    /**
     * The offset from the point to the box along each axis: 0 on an axis
     * where the point is within the box's extent, otherwise the way back to
     * the nearer crossed edge. For a proper box, point + distance is the
     * nearest point of the box.
     */
    function Distance(point: Vec2): (d: Vec2)
      reads this
      ensures left <= point.x <= right ==> d.x == 0.0
      ensures bottom <= point.y <= top ==> d.y == 0.0
      ensures left <= right && bottom <= top ==>
        Add(point, d) == Vec2(Clamp(point.x, left, right), Clamp(point.y, bottom, top))
    {
      var bl, br := left > point.x, point.x > right;
      var bb, ba := bottom > point.y, point.y > top;
      Vec2(B(bl) * left + B(br) * right - B(bl || br) * point.x,
           B(bb) * bottom + B(ba) * top - B(bb || ba) * point.y)
    }

    /** The sides a ray's origin lies strictly beyond. */
    function SidesOf(origin: Vec2): (f: Sides)
      reads this
      ensures (!f.l && !f.r && !f.b && !f.t) <==> InClosed(origin)
    {
      Sides(origin.x < left, right < origin.x, origin.y < bottom, top < origin.y)
    }

    /** The crossed edge coordinates; an axis beyond no side contributes 0. */
    function Edge(f: Sides): Vec2
      reads this
    {
      Vec2(B(f.l) * left + B(f.r) * right, B(f.b) * bottom + B(f.t) * top)
    }

    /** A horizontal-edge hit: on the line y = edge.y, strictly between left and right. */
    predicate HorizontalHit(f: Sides, edge: Vec2, h: HitResult)
      reads this
    {
      && (f.b || f.t) && h.position.y == edge.y && left < h.position.x < right
      && (f.b != f.t ==> h.reflection == Mat2(Vec2(1.0, 0.0), Vec2(0.0, -1.0)))
    }

    /** A vertical-edge hit: on the line x = edge.x, strictly between bottom and top. */
    predicate VerticalHit(f: Sides, edge: Vec2, h: HitResult)
      reads this
    {
      && (f.l || f.r) && h.position.x == edge.x && bottom < h.position.y < top
      && (f.l != f.r ==> h.reflection == Mat2(Vec2(-1.0, 0.0), Vec2(0.0, 1.0)))
    }

    /**
     * line_collision: the ray meets the horizontal line y = edge.y strictly
     * between left and right (tried first), or the vertical line x = edge.x
     * strictly between bottom and top. A hit stands where the ray meets that
     * line, and when exactly one of the two sides is crossed its matrix
     * mirrors across the line.
     */
    function LineCollision(f: Sides, edge: Vec2, origin: Vec2, dir: Vec2, epsilon: real): (r: Option<HitResult>)
      reads this
      requires epsilon >= 0.0
      ensures r.Some? ==> r.value.hit && r.value.position == Add(origin, Scale(r.value.parameter, dir))
      ensures r.Some? ==> HorizontalHit(f, edge, r.value) || VerticalHit(f, edge, r.value)
    {
      var h := HorizontalCollision(f, edge, origin, dir, epsilon);
      if h.Some? then h else VerticalCollision(f, edge, origin, dir, epsilon)
    }

    /** The first half of line_collision: the bottom or top edge line. */
    function HorizontalCollision(f: Sides, edge: Vec2, origin: Vec2, dir: Vec2, epsilon: real): (r: Option<HitResult>)
      reads this
      requires epsilon >= 0.0
      ensures r.Some? ==> r.value.hit && r.value.position == Add(origin, Scale(r.value.parameter, dir))
      ensures r.Some? ==> HorizontalHit(f, edge, r.value)
    {
      if (f.b || f.t) && Abs(dir.y) > epsilon then
        var t := Crossing(origin.y, dir.y, edge.y);
        var q := Add(origin, Scale(t, dir));
        if left < q.x < right then Some(EdgeHit(q, t, f.b, f.t, true)) else None
      else None
    }

    /** The second half of line_collision: the left or right edge line. */
    function VerticalCollision(f: Sides, edge: Vec2, origin: Vec2, dir: Vec2, epsilon: real): (r: Option<HitResult>)
      reads this
      requires epsilon >= 0.0
      ensures r.Some? ==> r.value.hit && r.value.position == Add(origin, Scale(r.value.parameter, dir))
      ensures r.Some? ==> VerticalHit(f, edge, r.value)
    {
      if (f.l || f.r) && Abs(dir.x) > epsilon then
        var t := Crossing(origin.x, dir.x, edge.x);
        var q := Add(origin, Scale(t, dir));
        if bottom < q.y < top then Some(EdgeHit(q, t, f.l, f.r, false)) else None
      else None
    }

    /**
     * collision_parameter(origin, dir) for a point: a hit stands where the
     * ray is at the reported parameter; an origin in the closed box hits at
     * parameter 0; otherwise the result is the line test's, or the default
     * HitResult when that misses.
     */
    function PointCollision(origin: Vec2, dir: Vec2, epsilon: real, sqrt: real -> real): (r: HitResult)
      reads this
      requires epsilon >= 0.0
      ensures r.hit ==> r.position == Add(origin, Scale(r.parameter, dir))
      ensures !r.hit ==> r == NoHit()
      ensures InClosed(origin) ==> r.hit && r.parameter == 0.0 && r.position == origin
    {
      var f := SidesOf(origin);
      var inside := InternalCollision(f, origin, dir, sqrt);
      if inside.Some? then inside.value
      else
        var line := LineCollision(f, Edge(f), origin, dir, epsilon);
        if line.Some? then line.value else NoHit()
    }

    /** For a proper box, a side crossed is the only one on its axis and Edge picks it. */
    lemma EdgeOfProper(origin: Vec2)
      requires left <= right && bottom <= top
      ensures var f, e := SidesOf(origin), Edge(SidesOf(origin));
        && !(f.l && f.r) && !(f.b && f.t)
        && (f.l ==> e.x == left) && (f.r ==> e.x == right)
        && (f.b ==> e.y == bottom) && (f.t ==> e.y == top)
    {
    }

    /** A point hit from outside a proper box lies on one of its edges. */
    lemma PointCollisionOnEdge(origin: Vec2, dir: Vec2, epsilon: real, sqrt: real -> real)
      requires epsilon >= 0.0 && left <= right && bottom <= top && !InClosed(origin)
      ensures PointCollision(origin, dir, epsilon, sqrt).hit ==> OnEdge(PointCollision(origin, dir, epsilon, sqrt).position)
    {
      var f := SidesOf(origin);
      EdgeOfProper(origin);
      var line := LineCollision(f, Edge(f), origin, dir, epsilon);
      assert PointCollision(origin, dir, epsilon, sqrt) == if line.Some? then line.value else NoHit();
    }

    /**
     * collision_parameter(origin, radius, dir) for a circle: the edge lines
     * are pushed outwards by the radius for the line test, and the corner
     * test runs against the unshifted edge point.
     */
    function CircleCollision(origin: Vec2, radius: real, dir: Vec2, epsilon: real, sqrt: real -> real): (r: HitResult)
      reads this
      requires epsilon >= 0.0
      ensures r.hit ==> r.position == Add(origin, Scale(r.parameter, dir))
      ensures !r.hit ==> r == NoHit()
      ensures InClosed(origin) ==> r.hit && r.parameter == 0.0 && r.position == origin
    {
      var f := SidesOf(origin);
      match InternalCollision(f, origin, dir, sqrt)
      case Some(h) => h
      case None =>
        var edge := Edge(f);
        match LineCollision(f, Add(edge, Pushed(f, Vec2(radius, radius))), origin, dir, epsilon)
        case Some(h) => h
        case None =>
          match CornerCollision(edge, origin, radius, dir, epsilon, sqrt)
          case Some(h) => h
          case None => NoHit()
    }

    /**
     * A circle hit from outside a proper box either stands on an edge line
     * pushed out by the radius, or at distance `radius` from the edge point,
     * which it reaches there for the first time.
     */
    lemma CircleCollisionPlace(origin: Vec2, radius: real, dir: Vec2, epsilon: real, sqrt: real -> real)
      requires epsilon >= 0.0 && IsSqrt(sqrt)
      requires left <= right && bottom <= top && !InClosed(origin)
      ensures var r := CircleCollision(origin, radius, dir, epsilon, sqrt);
        var e := Edge(SidesOf(origin));
        r.hit ==>
          || (left < r.position.x < right
              && (r.position.y == bottom - radius || r.position.y == top + radius))
          || (bottom < r.position.y < top
              && (r.position.x == left - radius || r.position.x == right + radius))
          || Dot(Sub(r.position, e), Sub(r.position, e)) == radius * radius
    {
      var f := SidesOf(origin);
      var edge := Edge(f);
      var line := LineCollision(f, Add(edge, Pushed(f, Vec2(radius, radius))), origin, dir, epsilon);
      var corner := CornerCollision(edge, origin, radius, dir, epsilon, sqrt);
      assert CircleCollision(origin, radius, dir, epsilon, sqrt)
        == if line.Some? then line.value else if corner.Some? then corner.value else NoHit();
      if line.Some? {
        PushedEdge(origin, radius);
      } else if corner.Some? {
        CornerCollisionTouch(edge, origin, radius, dir, epsilon, sqrt, 0.0);
      }
    }

    /** For a proper box, the pushed edge lines lie `radius` outside the crossed sides. */
    lemma PushedEdge(origin: Vec2, radius: real)
      requires left <= right && bottom <= top
      ensures var f := SidesOf(origin);
        var e := Add(Edge(f), Pushed(f, Vec2(radius, radius)));
        && (f.b ==> e.y == bottom - radius) && (f.t ==> e.y == top + radius)
        && (f.l ==> e.x == left - radius) && (f.r ==> e.x == right + radius)
    {
      EdgeOfProper(origin);
    }

    /**
     * collision_parameter(origin, radius, dir) for an axis-scaled circle:
     * as the circle case with the edges pushed by radius.x and radius.y,
     * except that the corner test runs in the space scaled by
     * Aspect(radius), where the radius is the circle radius.y, and reports
     * its position in that scaled space. A zero radius component makes the
     * scale infinite or NaN, so the corner test's coefficients are no longer
     * finite, and the model reports the default miss.
     */
    function EllipseCollision(origin: Vec2, radius: Vec2, dir: Vec2, epsilon: real, sqrt: real -> real): (r: HitResult)
      reads this
      requires epsilon >= 0.0
      ensures !r.hit ==> r == NoHit()
      ensures InClosed(origin) ==> r.hit && r.parameter == 0.0 && r.position == origin
      ensures r.hit ==> var q := Add(origin, Scale(r.parameter, dir));
        r.position == q || (radius.x != 0.0 && radius.y != 0.0 && r.position == Mul(Aspect(radius), q))
    {
      var f := SidesOf(origin);
      match InternalCollision(f, origin, dir, sqrt)
      case Some(h) => h
      case None =>
        var edge := Edge(f);
        match LineCollision(f, Add(edge, Pushed(f, radius)), origin, dir, epsilon)
        case Some(h) => h
        case None =>
          if radius.x == 0.0 || radius.y == 0.0 then NoHit()
          else
            var k := Aspect(radius);
            match CornerCollision(Mul(k, edge), Mul(k, origin), radius.y, Mul(k, dir), epsilon, sqrt)
            case Some(h) =>
              ScaledRay(k, origin, dir, h.parameter);
              h
            case None => NoHit()
    }

    /**
     * When the line test misses, an axis-scaled circle hit is a scaled-space
     * corner hit, which lies, back in box space, on the ellipse with
     * semi-axes radius.x and radius.y around the edge point.
     */
    lemma EllipseCornerOnEllipse(origin: Vec2, radius: Vec2, dir: Vec2, epsilon: real, sqrt: real -> real)
      requires epsilon >= 0.0 && IsSqrt(sqrt)
      requires !InClosed(origin)
      requires var f := SidesOf(origin);
        LineCollision(f, Add(Edge(f), Pushed(f, radius)), origin, dir, epsilon).None?
      ensures var r := EllipseCollision(origin, radius, dir, epsilon, sqrt);
        var d := Sub(Add(origin, Scale(r.parameter, dir)), Edge(SidesOf(origin)));
        r.hit ==> radius.x != 0.0 && radius.y != 0.0 && OnEllipse(d, radius)
    {
      if radius.x == 0.0 || radius.y == 0.0 {
        return;
      }
      var k := Aspect(radius);
      var edge := Edge(SidesOf(origin));
      var corner := CornerCollision(Mul(k, edge), Mul(k, origin), radius.y, Mul(k, dir), epsilon, sqrt);
      assert EllipseCollision(origin, radius, dir, epsilon, sqrt) == if corner.Some? then corner.value else NoHit();
      if corner.Some? {
        ScaledCorner(edge, origin, radius, dir, epsilon, sqrt);
      }
    }
  }

  /**
   * The parameter at which the coordinate o + t d reaches e, for a moving
   * coordinate (d != 0).
   */
  function Crossing(o: real, d: real, e: real): (t: real)
    requires d != 0.0
    ensures o + t * d == e
  {
    (e - o) / d
  }

  /**
   * The hit at `q` on an edge line: its normal is `b_hi - b_lo` along y for a
   * horizontal line and along x for a vertical one.
   */
  function EdgeHit(q: Vec2, t: real, lo: bool, hi: bool, horizontal: bool): (h: HitResult)
    ensures h.hit && h.position == q && h.parameter == t
    ensures lo != hi && horizontal ==> h.reflection == Mat2(Vec2(1.0, 0.0), Vec2(0.0, -1.0))
    ensures lo != hi && !horizontal ==> h.reflection == Mat2(Vec2(-1.0, 0.0), Vec2(0.0, 1.0))
  {
    var n := Toward(lo, hi);
    AxisMirrors(n);
    FromNormal(q, if horizontal then Vec2(0.0, n) else Vec2(n, 0.0), t, true)
  }

  /** The outward push of the crossed edges by the radius along each axis. */
  function Pushed(f: Sides, radius: Vec2): Vec2
  {
    Vec2((B(f.r) - B(f.l)) * radius.x, (B(f.t) - B(f.b)) * radius.y)
  }

  /** The axis normal component `b_hi - b_lo`: +-1 when exactly one side is crossed. */
  function Toward(lo: bool, hi: bool): (n: real)
    ensures lo != hi ==> n == 1.0 || n == -1.0
  {
    B(hi) - B(lo)
  }

  /** The normals (0, +-1) and (+-1, 0) give the mirrors across the x and the y axis. */
  lemma AxisMirrors(s: real)
    ensures s == 1.0 || s == -1.0 ==>
      && Reflection(Vec2(0.0, s)) == Mat2(Vec2(1.0, 0.0), Vec2(0.0, -1.0))
      && Reflection(Vec2(s, 0.0)) == Mat2(Vec2(-1.0, 0.0), Vec2(0.0, 1.0))
  {
    if s == 1.0 {
      MirrorUp();
      MirrorRight();
    } else if s == -1.0 {
      MirrorDown();
      MirrorLeft();
    }
  }

  lemma MirrorUp() ensures Reflection(Vec2(0.0, 1.0)) == Mat2(Vec2(1.0, 0.0), Vec2(0.0, -1.0)) {}
  lemma MirrorDown() ensures Reflection(Vec2(0.0, -1.0)) == Mat2(Vec2(1.0, 0.0), Vec2(0.0, -1.0)) {}
  lemma MirrorRight() ensures Reflection(Vec2(1.0, 0.0)) == Mat2(Vec2(-1.0, 0.0), Vec2(0.0, 1.0)) {}
  lemma MirrorLeft() ensures Reflection(Vec2(-1.0, 0.0)) == Mat2(Vec2(-1.0, 0.0), Vec2(0.0, 1.0)) {}

  /** A corner hit in the space scaled by Aspect(radius) lies on the ellipse in box space. */
  lemma ScaledCorner(edge: Vec2, origin: Vec2, radius: Vec2, dir: Vec2, epsilon: real, sqrt: real -> real)
    requires epsilon >= 0.0 && IsSqrt(sqrt)
    requires radius.x != 0.0 && radius.y != 0.0
    requires var k := Aspect(radius);
      CornerCollision(Mul(k, edge), Mul(k, origin), radius.y, Mul(k, dir), epsilon, sqrt).Some?
    ensures var k := Aspect(radius);
      var t := CornerCollision(Mul(k, edge), Mul(k, origin), radius.y, Mul(k, dir), epsilon, sqrt).value.parameter;
      OnEllipse(Sub(Add(origin, Scale(t, dir)), edge), radius)
  {
    var k := Aspect(radius);
    var h := CornerCollision(Mul(k, edge), Mul(k, origin), radius.y, Mul(k, dir), epsilon, sqrt).value;
    var t := h.parameter;
    var d := Sub(Add(origin, Scale(t, dir)), edge);
    CornerCollisionTouch(Mul(k, edge), Mul(k, origin), radius.y, Mul(k, dir), epsilon, sqrt, t);
    ScaledRay(k, origin, dir, t);
    assert Sub(h.position, Mul(k, edge)) == Mul(k, d);
    EllipseUnit(radius, d);
  }

  /** d lies on the ellipse with semi-axes radius.x and radius.y around the origin. */
  predicate OnEllipse(d: Vec2, radius: Vec2)
    requires radius.x != 0.0 && radius.y != 0.0
  {
    (d.x / radius.x) * (d.x / radius.x) + (d.y / radius.y) * (d.y / radius.y) == 1.0
  }

  /** Scaling the ray scales every point on it. */
  lemma ScaledRay(k: Vec2, origin: Vec2, dir: Vec2, t: real)
    ensures Add(Mul(k, origin), Scale(t, Mul(k, dir))) == Mul(k, Add(origin, Scale(t, dir)))
  {
    assert t * (k.x * dir.x) == k.x * (t * dir.x);
    assert t * (k.y * dir.y) == k.y * (t * dir.y);
  }

  /** |Aspect(radius) d| = radius.y is the ellipse equation (d.x/rx)^2 + (d.y/ry)^2 = 1. */
  lemma EllipseUnit(radius: Vec2, d: Vec2)
    requires radius.x != 0.0 && radius.y != 0.0
    requires var kd := Mul(Aspect(radius), d); Dot(kd, kd) == radius.y * radius.y
    ensures OnEllipse(d, radius)
  {
    var rx, ry := radius.x, radius.y;
    var u, w := d.x / rx, d.y / ry;
    assert ry / ry == 1.0;
    assert (ry / rx) * d.x == ry * u;
    assert d.y == ry * w;
    calc {
      ry * ry * (u * u + w * w);
      (ry * u) * (ry * u) + (ry * w) * (ry * w);
      Dot(Mul(Aspect(radius), d), Mul(Aspect(radius), d));
      ry * ry;
    }
  }

  /**
   * Two boxes with non-empty interiors overlap exactly when some point lies
   * strictly inside both; overlap is symmetric.
   */
  lemma CollidesIffCommonPoint(a: BoundingBox2D, b: BoundingBox2D)
    requires a.left < a.right && a.bottom < a.top
    requires b.left < b.right && b.bottom < b.top
    ensures a.Collides(b) <==> exists p :: a.CollidesPoint(p) && b.CollidesPoint(p)
    ensures a.Collides(b) == b.Collides(a)
  {
    if a.Collides(b) {
      var lo, hi := Max(a.left, b.left), Min(a.right, b.right);
      var bo, to := Max(a.bottom, b.bottom), Min(a.top, b.top);
      var p := Vec2((lo + hi) / 2.0, (bo + to) / 2.0);
      assert a.CollidesPoint(p) && b.CollidesPoint(p);
    }
  }
}
