/**
 * The Boundingbox2D component of the discrete physics system: a tagged
 * union of four floats read as a rectangle (left, right, bottom, top) or a
 * circle (origin.x, origin.y, radius, unused), and its axis-aligned bounds
 * in local and in world coordinates.
 */
module Boundingbox2DComponent {
  import opened Geometry
  import opened Wrappers
  import C = Physics2DComponents

  /** The two values of the component's anonymous enum. */
  const Rect2D: C.Byte := 0
  const Circle: C.Byte := 1

  /**
   * `Boundingbox2D::BoundingShape`: the `shape` tag and the four floats of
   * the union.
   */
  datatype BoundingShape = BoundingShape(shape: C.Byte, f0: real, f1: real, f2: real, f3: real)
  {
    function Left(): real { f0 }
    function Right(): real { f1 }
    function Bottom(): real { f2 }
    function Top(): real { f3 }
    function Origin(): Vec2 { Vec2(f0, f1) }
    function Radius(): real { f2 }
  }

  datatype ShapeError = InvalidShape(tag: C.Byte)

  /**
   * `BoundingShape(uint8_t s)`: sets the tag and the default unit shape;
   * any other tag throws. A circle leaves the fourth float unwritten, and
   * `storage` stands for what it held.
   */
  function FromTag(s: C.Byte, storage: real): (r: Result<BoundingShape, ShapeError>)
    ensures r.Success? <==> s == Rect2D || s == Circle
    ensures r.Success? ==> r.value.shape == s
    ensures s == Rect2D ==> r.Success? && r.value.Left() == 0.0 && r.value.Right() == 1.0
                            && r.value.Bottom() == 0.0 && r.value.Top() == 1.0
    ensures s == Circle ==> r.Success? && r.value.Origin() == Zero2 && r.value.Radius() == 1.0
    ensures r.Failure? ==> r.error == InvalidShape(s)
  {
    if s == Rect2D then Success(BoundingShape(s, 0.0, 1.0, 0.0, 1.0))
    else if s == Circle then Success(BoundingShape(s, 0.0, 0.0, 1.0, storage))
    else Failure(InvalidShape(s))
  }

  /** `BoundingShape(vec2 o)` and `BoundingShape(vec2 o, float r)`: a circle; the first has radius 1. */
  function CircleShape(o: Vec2, r: real, storage: real): (b: BoundingShape)
    ensures b.shape == Circle && b.Origin() == o && b.Radius() == r
  {
    BoundingShape(Circle, o.x, o.y, r, storage)
  }

  /** `BoundingShape(l, r, b, t)`: a rectangle. */
  function RectShape(l: real, r: real, b: real, t: real): (s: BoundingShape)
    ensures s.shape == Rect2D
    ensures s.Left() == l && s.Right() == r && s.Bottom() == b && s.Top() == t
  {
    BoundingShape(Rect2D, l, r, b, t)
  }

  /** `get_raw_lrbt()`: the local bounds (left, right, bottom, top); zero for an unknown tag. */
  function RawLrbt(b: BoundingShape): Vec4
  {
    if b.shape == Rect2D then Vec4(b.f0, b.f1, b.f2, b.f3)
    else if b.shape == Circle then Vec4(b.f0 - b.f2, b.f0 + b.f2, b.f1 - b.f2, b.f1 + b.f2)
    else Vec4(0.0, 0.0, 0.0, 0.0)
  }

  /** A point of the closed box (left, right, bottom, top). */
  predicate InBox(lrbt: Vec4, p: Vec2)
  {
    lrbt.x <= p.x <= lrbt.y && lrbt.z <= p.y <= lrbt.w
  }

  /** A point of the closed disk. */
  predicate InDisk(o: Vec2, r: real, p: Vec2)
  {
    Dot(Sub(p, o), Sub(p, o)) <= r * r
  }

  /** A coordinate whose square is at most r² lies within r of zero. */
  lemma SquareBound(d: real, r: real)
    requires r >= 0.0 && d * d <= r * r
    ensures -r <= d <= r
  {
    if d > r {
      SquareAbove(d, r);
    } else if d < -r {
      assert (-d) * (-d) == d * d;
      SquareAbove(-d, r);
    }
  }

  lemma SquareAbove(u: real, r: real)
    requires 0.0 <= r < u
    ensures u * u > r * r
  {
    assert u * u - r * r == (u - r) * (u + r);
    ProductPos(u - r, u + r);
  }

  lemma ProductPos(x: real, y: real)
    requires x > 0.0 && y > 0.0
    ensures x * y > 0.0
  {
  }

  /**
   * The raw bounds enclose the shape: a rectangle's own box, and for a
   * circle of non-negative radius the square around it, which holds every
   * point of the disk. An unknown tag gives the degenerate box at zero.
   */
  lemma RawLrbtEncloses(b: BoundingShape, p: Vec2)
    ensures b.shape == Rect2D ==> (InBox(RawLrbt(b), p) <==> b.Left() <= p.x <= b.Right() && b.Bottom() <= p.y <= b.Top())
    ensures b.shape == Circle && b.Radius() >= 0.0 && InDisk(b.Origin(), b.Radius(), p) ==> InBox(RawLrbt(b), p)
    ensures b.shape == Circle ==> RawLrbt(b).y - RawLrbt(b).x == 2.0 * b.Radius() == RawLrbt(b).w - RawLrbt(b).z
    ensures b.shape != Rect2D && b.shape != Circle ==> RawLrbt(b) == Vec4(0.0, 0.0, 0.0, 0.0)
  {
    if b.shape == Circle && b.Radius() >= 0.0 && InDisk(b.Origin(), b.Radius(), p) {
      var d := Sub(p, b.Origin());
      var r := b.Radius();
      assert d.x * d.x <= r * r by {
        assert d.y * d.y >= 0.0;
      }
      assert d.y * d.y <= r * r by {
        assert d.x * d.x >= 0.0;
      }
      SquareBound(d.x, r);
      SquareBound(d.y, r);
    }
  }

  /**
   * `get_lrbt(transform)`: the raw bounds scaled and then moved by the
   * transform, x-bounds by `scale.x` and `position.x`, y-bounds by the y
   * parts.
   */
  function Lrbt(b: BoundingShape, t: C.Transform): Vec4
  {
    var raw := RawLrbt(b);
    Vec4(Affine(t.scale.x, t.position.x, raw.x), Affine(t.scale.x, t.position.x, raw.y),
         Affine(t.scale.y, t.position.y, raw.z), Affine(t.scale.y, t.position.y, raw.w))
  }

  /** Where the transform puts a local point of the plane. */
  function ToWorld(t: C.Transform, p: Vec2): Vec2
  {
    Vec2(Affine(t.scale.x, t.position.x, p.x), Affine(t.scale.y, t.position.y, p.y))
  }

  /** `k·u + c`: one coordinate scaled and then moved. */
  function Affine(k: real, c: real, u: real): real
  {
    k * u + c
  }

  /** Scaling by a positive factor and moving keeps the order of two coordinates. */
  lemma AffineMonotone(k: real, c: real, u: real, v: real)
    requires k > 0.0 && u <= v
    ensures Affine(k, c, u) <= Affine(k, c, v)
  {
    assert k * v - k * u == k * (v - u);
  }

  /** With positive scale the world bounds stay ordered: left <= right, bottom <= top. */
  lemma LrbtOrdered(b: BoundingShape, t: C.Transform)
    requires t.scale.x > 0.0 && t.scale.y > 0.0
    ensures RawLrbt(b).x <= RawLrbt(b).y ==> Lrbt(b, t).x <= Lrbt(b, t).y
    ensures RawLrbt(b).z <= RawLrbt(b).w ==> Lrbt(b, t).z <= Lrbt(b, t).w
  {
    var raw := RawLrbt(b);
    if raw.x <= raw.y {
      AffineMonotone(t.scale.x, t.position.x, raw.x, raw.y);
    }
    if raw.z <= raw.w {
      AffineMonotone(t.scale.y, t.position.y, raw.z, raw.w);
    }
  }

  /**
   * With positive scale the world bounds are the image of the raw bounds:
   * every point of the raw box lands in the world box.
   */
  lemma LrbtImage(b: BoundingShape, t: C.Transform, p: Vec2)
    requires t.scale.x > 0.0 && t.scale.y > 0.0
    requires InBox(RawLrbt(b), p)
    ensures InBox(Lrbt(b, t), ToWorld(t, p))
  {
    var raw := RawLrbt(b);
    var sx, sy, px, py := t.scale.x, t.scale.y, t.position.x, t.position.y;
    AffineMonotone(sx, px, raw.x, p.x);
    AffineMonotone(sx, px, p.x, raw.y);
    AffineMonotone(sy, py, raw.z, p.y);
    AffineMonotone(sy, py, p.y, raw.w);
  }
}
