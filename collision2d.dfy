/**
 * The value types of the continuous 2D collision engine: the Transform
 * component it reads, the Motion2D and Collision2D components, the
 * BoundingShape union and the HitData record kept in the engine's hit
 * queue.
 */
module Physics2DComponents {
  import opened Geometry
  import opened Wrappers

  /** An entt entity handle; `NullEntity` is `entt::null`. */
  type Entity = int
  const NullEntity: Entity := -1

  /** A `uint8_t`. */
  type Byte = x: int | 0 <= x < 256

  /** Transform component: position and scale (rotation is not read by the physics). */
  datatype Transform = Transform(position: Vec3, scale: Vec3)

  /** `Transform::translate_by(glm::vec2)`: moves the position in the xy-plane. */
  function TranslateBy(t: Transform, v: Vec2): (r: Transform)
    ensures r.scale == t.scale
    ensures r.position.z == t.position.z
    ensures Sub(Vec2(r.position.x, r.position.y), Vec2(t.position.x, t.position.y)) == v
  {
    t.(position := Add3(t.position, Lift(v)))
  }

  /** `Transform::translate_by(glm::vec3)`: moves the position by `v`. */
  function Translated(t: Transform, v: Vec3): (r: Transform)
    ensures r.scale == t.scale
    ensures Sub3(r.position, t.position) == v
  {
    t.(position := Add3(t.position, v))
  }

  /** The two values of `Collision2D`'s anonymous enum. */
  const Rect2D: Byte := 0
  const Circle: Byte := 1

  /**
   * `Collision2D::BoundingShape`. The four floats are a union: a circle
   * reads them as (origin.x, origin.y, radius, _), a rectangle as
   * (left, right, bottom, top).
   */
  datatype BoundingShape = BoundingShape(shape: Byte, f0: real, f1: real, f2: real, f3: real)
  {
    function Left(): real { f0 }
    function Right(): real { f1 }
    function Bottom(): real { f2 }
    function Top(): real { f3 }
    function Origin(): Vec2 { Vec2(f0, f1) }
    function Radius(): real { f2 }
  }

  datatype ShapeError = InvalidShape(tag: Byte)

  /**
   * `BoundingShape(uint8_t s)`. The constructor writes the union but never
   * the `shape` member, so that member keeps whatever the storage held;
   * `storage` stands for that prior content. An unknown tag throws.
   */
  function ShapeFromTag(s: Byte, storage: BoundingShape): (r: Result<BoundingShape, ShapeError>)
    ensures s == Rect2D ==> r.Success? && r.value.Left() == 0.0 && r.value.Right() == 1.0
                            && r.value.Bottom() == 0.0 && r.value.Top() == 1.0
    ensures s == Circle ==> r.Success? && r.value.Origin() == Zero2 && r.value.Radius() == 1.0
                            && r.value.f3 == storage.f3
    ensures r.Failure? <==> s != Rect2D && s != Circle
    ensures r.Failure? ==> r.error == InvalidShape(s)
    ensures r.Success? ==> r.value.shape == storage.shape
  {
    if s == Rect2D then Success(storage.(f0 := 0.0, f1 := 1.0, f2 := 0.0, f3 := 1.0))
    else if s == Circle then Success(storage.(f0 := 0.0, f1 := 0.0, f2 := 1.0))
    else Failure(InvalidShape(s))
  }

  /** `BoundingShape(glm::vec2 o)`: a unit circle around `o`. */
  function CircleAt(o: Vec2): (r: BoundingShape)
    ensures r.shape == Circle && r.Origin() == o && r.Radius() == 1.0
  {
    CircleShape(o, 1.0)
  }

  /** `BoundingShape(glm::vec2 o, float r)`. */
  function CircleShape(o: Vec2, radius: real): (r: BoundingShape)
    ensures r.shape == Circle && r.Origin() == o && r.Radius() == radius
  {
    BoundingShape(Circle, o.x, o.y, radius, 0.0)
  }

  /** `BoundingShape(float l, float r, float b, float t)`. */
  function RectShape(l: real, r: real, b: real, t: real): (s: BoundingShape)
    ensures s.shape == Rect2D
    ensures s.Left() == l && s.Right() == r && s.Bottom() == b && s.Top() == t
  {
    BoundingShape(Rect2D, l, r, b, t)
  }

  /** The Collision2D component: a shape and a mass that defaults to 1. */
  datatype Collider = Collider(bbox: BoundingShape, mass: real)

  const DefaultMass := 1.0

  /** The two rectangle constructors of Collision2D; `mass` is None when omitted. */
  function RectCollider(l: real, r: real, b: real, t: real, mass: Option<real>): (c: Collider)
    ensures c.bbox == RectShape(l, r, b, t)
    ensures c.mass == if mass.Some? then mass.value else 1.0
  {
    Collider(RectShape(l, r, b, t), if mass.Some? then mass.value else DefaultMass)
  }

  /** The two circle constructors of Collision2D; `mass` is None when omitted. */
  function CircleCollider(p: Vec2, radius: real, mass: Option<real>): (c: Collider)
    ensures c.bbox == CircleShape(p, radius)
    ensures c.mass == if mass.Some? then mass.value else 1.0
  {
    Collider(CircleShape(p, radius), if mass.Some? then mass.value else DefaultMass)
  }

  /** `std::numeric_limits<float>::max()`, the "no collision" time. */
  const InvalidTime: real := 340282346638528859811704183484516925440.0

  /**
   * `PhysicsEngine2D::HitData`: a predicted collision between two entities.
   * `dynamic` says whether both of them move.
   */
  datatype HitData = HitData(entity1: Entity, entity2: Entity, time: real, normal: Vec2,
                             valid: bool, dynamic: bool)

  /** `HitData()`. */
  function DefaultHit(): (h: HitData)
    ensures !h.valid && h.time == InvalidTime && h.normal == Zero2 && h.dynamic
    ensures h.entity1 == NullEntity && h.entity2 == NullEntity
  {
    HitData(NullEntity, NullEntity, InvalidTime, Zero2, false, true)
  }

  /** `HitData(a, b, p)`: a valid hit at time `p`. */
  function HitAt(a: Entity, b: Entity, p: real): (h: HitData)
    ensures h.valid && h.time == p && h.entity1 == a && h.entity2 == b
    ensures h.normal == Zero2 && h.dynamic
  {
    HitWithValidity(a, b, p, true)
  }

  /** `HitData(a, b, p, v)`. */
  function HitWithValidity(a: Entity, b: Entity, p: real, v: bool): (h: HitData)
    ensures h.valid == v && h.time == p && h.entity1 == a && h.entity2 == b
    ensures h.normal == Zero2 && h.dynamic
  {
    HitData(a, b, p, Zero2, v, true)
  }

  /** `operator<` on HitData. */
  predicate Less(left: HitData, right: HitData)
  {
    if !left.valid then false else left.time < right.time
  }

  /** `operator>` on HitData. */
  predicate Greater(left: HitData, right: HitData)
  {
    if !left.valid then false else left.time > right.time
  }

  /**
   * The comparison operators: an invalid left operand is neither smaller nor
   * greater than anything; a valid one is ordered by time alone, so for a
   * valid left operand exactly one of <, > and equal times holds.
   */
  lemma HitOrder(left: HitData, right: HitData)
    ensures !left.valid ==> !Less(left, right) && !Greater(left, right)
    ensures left.valid ==> (Less(left, right) <==> left.time < right.time)
    ensures left.valid ==> (Greater(left, right) <==> left.time > right.time)
    ensures left.valid ==>
      (Less(left, right) || Greater(left, right) || left.time == right.time)
    ensures !(Less(left, right) && Greater(left, right))
    ensures left.valid && right.valid ==> (Less(left, right) <==> Greater(right, left))
  {
  }

  /**
   * `convert_as_rect`: the center and full size of a rectangle shape placed
   * by a transform (rotation ignored).
   */
  function ConvertAsRect(t: Transform, bb: BoundingShape): (r: (Vec2, Vec2))
  {
    var scale := Vec2(t.scale.x, t.scale.y);
    var lb := Mul(scale, Vec2(bb.Left(), bb.Bottom()));
    var rt := Mul(scale, Vec2(bb.Right(), bb.Top()));
    (Add(Vec2(t.position.x, t.position.y), Scale(0.5, Add(lb, rt))), Sub(rt, lb))
  }

  /**
   * The rectangle from `convert_as_rect` has size scale * (right - left,
   * top - bottom), its center is the position plus the scaled midpoint, and
   * its edges (center -/+ half the size) are the scaled local edges moved by
   * the position.
   */
  lemma ConvertAsRectGeometry(t: Transform, bb: BoundingShape)
    ensures var (c, size) := ConvertAsRect(t, bb);
      && size == Vec2(t.scale.x * (bb.Right() - bb.Left()), t.scale.y * (bb.Top() - bb.Bottom()))
      && c == Vec2(t.position.x + t.scale.x * ((bb.Left() + bb.Right()) / 2.0),
                   t.position.y + t.scale.y * ((bb.Bottom() + bb.Top()) / 2.0))
      && c.x - size.x / 2.0 == t.position.x + t.scale.x * bb.Left()
      && c.x + size.x / 2.0 == t.position.x + t.scale.x * bb.Right()
      && c.y - size.y / 2.0 == t.position.y + t.scale.y * bb.Bottom()
      && c.y + size.y / 2.0 == t.position.y + t.scale.y * bb.Top()
  {
  }

  /**
   * `convert_as_circle`: the center is the position plus the scaled origin,
   * the radius is scaled by `scale.x` only.
   */
  function ConvertAsCircle(t: Transform, bb: BoundingShape): (r: (Vec2, real))
  {
    (Add(Vec2(t.position.x, t.position.y), Mul(Vec2(t.scale.x, t.scale.y), bb.Origin())),
     t.scale.x * bb.Radius())
  }

  /**
   * The circle's radius follows `scale.x` alone: two transforms that differ
   * only in `scale.y` and `scale.z` give the same radius, and scaling `x` by
   * k scales the radius by k.
   */
  lemma ConvertAsCircleRadius(t: Transform, bb: BoundingShape, sy: real, sz: real, k: real)
    ensures ConvertAsCircle(t, bb).1
         == ConvertAsCircle(t.(scale := Vec3(t.scale.x, sy, sz)), bb).1
    ensures ConvertAsCircle(t.(scale := t.scale.(x := k * t.scale.x)), bb).1
         == k * ConvertAsCircle(t, bb).1
    ensures ConvertAsCircle(t, bb).0
         == Vec2(t.position.x + t.scale.x * bb.f0, t.position.y + t.scale.y * bb.f1)
  {
  }
}
