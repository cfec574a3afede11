/**
 * A regular texture atlas: an image cut into equal cells. The cell size is
 * kept both in pixels and in uv units (a fraction of the image), and
 * setting either one recomputes the other; a cell's uv rectangle follows
 * from its column and row.
 *
 * Pixel sizes are C++ ints: a float converted to int is truncated toward
 * zero and int division truncates toward zero, both written out here
 * because Dafny's own division is Euclidean.
 */
module TextureAtlas {
  import opened Geometry

  /** An integer vector (glm::ivec2). */
  datatype IVec2 = IVec2(x: int, y: int)

  /** The float-to-int conversion: the integer part, dropping the fraction toward zero. */
  function Trunc(r: real): (n: int)
    ensures r >= 0.0 ==> n as real <= r < n as real + 1.0
    ensures r < 0.0 ==> n as real - 1.0 < r <= n as real
  {
    if r >= 0.0 then r.Floor else -((-r).Floor)
  }

  function IAbs(a: int): nat { if a < 0 then -a else a }

  /** The quotient of non-negative ints: how many times b fits in a. */
  function NatQuot(a: nat, b: nat): (q: nat)
    requires b > 0
    ensures q * b <= a < q * b + b
  {
    DivBounds(a, b);
    a / b
  }

  lemma DivBounds(a: nat, b: int)
    requires b > 0
    ensures a / b >= 0 && (a / b) * b <= a < (a / b) * b + b
  {
  }

  /**
   * Integer division truncating toward zero, as C++ divides ints: the
   * magnitude is the quotient of the magnitudes, and the sign is negative
   * only when the operands' signs differ.
   */
  function Quot(a: int, b: int): (q: int)
    requires b != 0
    ensures IAbs(q) == NatQuot(IAbs(a), IAbs(b))
    ensures (a >= 0) == (b > 0) ==> q >= 0
    ensures (a >= 0) != (b > 0) ==> q <= 0
  {
    var m: int := NatQuot(IAbs(a), IAbs(b));
    if (a >= 0) == (b > 0) then m else -m
  }

  /** The uv size of a cell of `px` pixels in an image of `size` pixels. */
  function UvOf(px: IVec2, size: IVec2): (uv: Vec2)
    requires size.x != 0 && size.y != 0
    ensures uv.x * size.x as real == px.x as real && uv.y * size.y as real == px.y as real
  {
    Vec2(px.x as real / size.x as real, px.y as real / size.y as real)
  }

  /** The pixel size of a cell of uv size `uv` in an image of `size` pixels. */
  function PxOf(uv: Vec2, size: IVec2): (px: IVec2)
    ensures uv.x * size.x as real >= 0.0 ==> px.x as real <= uv.x * size.x as real < px.x as real + 1.0
    ensures uv.y * size.y as real >= 0.0 ==> px.y as real <= uv.y * size.y as real < px.y as real + 1.0
  {
    IVec2(Trunc(uv.x * size.x as real), Trunc(uv.y * size.y as real))
  }

  /**
   * A pixel size turned into a uv size and back is the same pixel size.
   * This holds over exact reals; float32 rounding can leave the product one
   * ulp below px, which the truncation turns into px - 1.
   */
  lemma PixelRoundTrip(px: IVec2, size: IVec2)
    requires size.x != 0 && size.y != 0
    ensures PxOf(UvOf(px, size), size) == px
  {
    var uv := UvOf(px, size);
    assert uv.x * size.x as real == px.x as real;
    assert uv.y * size.y as real == px.y as real;
    assert Trunc(px.x as real) == px.x;
    assert Trunc(px.y as real) == px.y;
  }

  /**
   * A uv size turned into a pixel size and back never grows, and loses
   * less than one pixel, for a non-negative size in a non-empty image.
   * This holds over exact reals; in float32 the quotient can come back one
   * ulp above the uv size.
   */
  lemma UvRoundTrip(uv: Vec2, size: IVec2)
    requires size.x > 0 && size.y > 0 && uv.x >= 0.0 && uv.y >= 0.0
    ensures var back := UvOf(PxOf(uv, size), size);
      && back.x <= uv.x < back.x + 1.0 / size.x as real
      && back.y <= uv.y < back.y + 1.0 / size.y as real
  {
    var px := PxOf(uv, size);
    var back := UvOf(px, size);
    Shrinks(uv.x, size.x, px.x, back.x);
    Shrinks(uv.y, size.y, px.y, back.y);
  }

  /** One axis of UvRoundTrip: dividing p <= u*s < p + 1 by s. */
  lemma Shrinks(u: real, s: int, p: int, b: real)
    requires s > 0 && u >= 0.0
    requires p as real <= u * s as real < p as real + 1.0
    requires b * s as real == p as real
    ensures b <= u < b + 1.0 / s as real
  {
    var sr := s as real;
    assert b * sr <= u * sr;
    assert u * sr < (b + 1.0 / sr) * sr;
  }

  class RegularTextureAtlas {
    var size: IVec2
    var uvSize: Vec2
    var pxSize: IVec2

    /** A new atlas: no image, zero cell size. */
    constructor ()
      ensures size == IVec2(0, 0) && uvSize == Zero2 && pxSize == IVec2(0, 0)
    {
      size := IVec2(0, 0);
      uvSize := Zero2;
      pxSize := IVec2(0, 0);
    }

    /** load: the image's width and height become the atlas size; the cell sizes stay. */
    method Load(width: int, height: int)
      modifies this`size
      ensures size == IVec2(width, height)
    {
      size := IVec2(width, height);
    }

    /**
     * set_element_pixel_size: the cell is x by y pixels, and its uv size is
     * that pixel size as a fraction of the image.
     */
    method SetElementPixelSize(x: nat, y: nat)
      requires size.x != 0 && size.y != 0
      modifies this`pxSize, this`uvSize
      ensures pxSize == IVec2(x, y)
      ensures uvSize.x * size.x as real == x as real && uvSize.y * size.y as real == y as real
      ensures PxOf(uvSize, size) == pxSize
    {
      pxSize := IVec2(x, y);
      uvSize := UvOf(pxSize, size);
      PixelRoundTrip(pxSize, size);
    }

    /**
     * set_element_uv_size: the cell is x by y in uv units, and its pixel
     * size is that fraction of the image, truncated to whole pixels.
     */
    method SetElementUvSize(x: real, y: real)
      modifies this`pxSize, this`uvSize
      ensures uvSize == Vec2(x, y)
      ensures pxSize == PxOf(uvSize, size)
    {
      uvSize := Vec2(x, y);
      pxSize := PxOf(uvSize, size);
    }

    /**
     * get_uv: the uv rectangle (left, bottom, right, top) of the cell in
     * column x and row y; it spans exactly one uv cell size.
     */
    function GetUv(x: nat, y: nat): (uv: Vec4)
      reads this`uvSize
      ensures uv.x == x as real * uvSize.x && uv.y == y as real * uvSize.y
      ensures uv.z - uv.x == uvSize.x && uv.w - uv.y == uvSize.y
    {
      Vec4(x as real * uvSize.x, y as real * uvSize.y,
           (x as real + 1.0) * uvSize.x, (y as real + 1.0) * uvSize.y)
    }

    /** get_index_size: how many cells fit in the image along each axis. */
    function GetIndexSize(): (n: IVec2)
      requires pxSize.x != 0 && pxSize.y != 0
      reads this`size, this`pxSize
      ensures size.x >= 0 && pxSize.x > 0 ==> n.x * pxSize.x <= size.x < n.x * pxSize.x + pxSize.x
      ensures size.y >= 0 && pxSize.y > 0 ==> n.y * pxSize.y <= size.y < n.y * pxSize.y + pxSize.y
    {
      IVec2(Quot(size.x, pxSize.x), Quot(size.y, pxSize.y))
    }

    /** Neighbouring cells share their edge: the cells tile uv space without gaps or overlap. */
    lemma CellsAdjacent(x: nat, y: nat)
      ensures GetUv(x, y).z == GetUv(x + 1, y).x
      ensures GetUv(x, y).w == GetUv(x, y + 1).y
    {
    }

    /**
     * With the cell size set in pixels, every cell the index size counts
     * lies inside the image: its uv rectangle ends at or before 1.
     */
    lemma CellsInside(x: nat, y: nat)
      requires size.x > 0 && size.y > 0 && pxSize.x > 0 && pxSize.y > 0
      requires uvSize == UvOf(pxSize, size)
      requires x < GetIndexSize().x && y < GetIndexSize().y
      ensures GetUv(x, y).z <= 1.0 && GetUv(x, y).w <= 1.0
    {
      var n := GetIndexSize();
      CellsFit(x, n.x, pxSize.x, size.x);
      ScaledBack(x as real + 1.0, pxSize.x as real, size.x as real, uvSize.x);
      CellsFit(y, n.y, pxSize.y, size.y);
      ScaledBack(y as real + 1.0, pxSize.y as real, size.y as real, uvSize.y);
    }
  }

  /** One axis of CellsInside: i + 1 <= n cells of p pixels fit in s >= n * p pixels. */
  lemma CellsFit(i: nat, n: int, p: int, s: int)
    requires p > 0 && i < n && n * p <= s
    ensures (i as real + 1.0) * p as real <= s as real
  {
    var k := i + 1;
    assert k * p <= n * p;
    assert (k * p) as real == k as real * p as real;
  }

  /** Dividing k * p <= s by s, where u * s == p. */
  lemma ScaledBack(k: real, p: real, s: real, u: real)
    requires s > 0.0 && u * s == p && k * p <= s
    ensures k * u <= 1.0
  {
    var v := k * u;
    assert v * s == k * p by {
      calc {
        v * s;
        == (k * u) * s;
        == k * (u * s);
        == k * p;
      }
    }
    assert (v - 1.0) * s <= 0.0;
  }
}
